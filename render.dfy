/**
  Rendering of one domain's entry in the checking service's response: the
  block used by the bulk report (`format_single_result`) and the reply sent in
  single mode.
*/
module Render {
  import opened Wrappers

  /**
    One entry of the decoded response, seen the way the bot tests it: by
    Python truthiness. `Falsy` is an absent key, `null`, `{}` or any other
    falsy value; `Entry` is a non-empty object, whose `blocked` is the
    truthiness of its "blocked" field, or `None` when that field is missing.
  */
  datatype Res = Falsy | Entry(blocked: Option<bool>)

  /** `results.get(domain)`: a missing key reads as falsy, like a falsy value. */
  function Lookup(results: map<string, Res>, domain: string): Res {
    if domain in results then results[domain] else Falsy
  }

  /** `result.get("blocked", False)`, taken for its truthiness. */
  predicate BlockedFlag(result: Res)
    requires result.Entry?
  {
    match result.blocked
    case None => false
    case Some(b) => b
  }

  /** What a rendering tells the user about a domain. */
  datatype Status = Unchecked | Blocked | NotBlocked

  function StatusOf(result: Res): Status {
    match result
    case Falsy => Unchecked
    case Entry(None) => NotBlocked
    case Entry(Some(b)) => if b then Blocked else NotBlocked
  }

  const Globe := "🌐 "
  const DomainLabel := "Domain: "
  const CannotCheck := "❌ Tidak dapat memeriksa domain ini."

  /** The status line each outcome is shown with: an icon, "Status:" and a verdict. */
  function StatusLine(status: Status): string {
    match status
    case Unchecked => CannotCheck
    case Blocked => "🚫" + " Status: " + "Diblokir"
    case NotBlocked => "✅" + " Status: " + "Tidak Diblokir"
  }

  /** `format_single_result`: the block for one domain in the bulk report. */
  function FormatSingleResult(domain: string, result: Res): (s: string)
    ensures |Globe + domain| < |s| && s[..|Globe + domain|] == Globe + domain
    ensures s[|s| - 1] == '\n'
  {
    if result.Falsy? then
      Globe + domain + "\n" + CannotCheck + "\n"
    else
      var blocked := BlockedFlag(result);
      var icon := if blocked then "🚫" else "✅";
      var text := if blocked then "Diblokir" else "Tidak Diblokir";
      Globe + domain + "\n" + icon + " Status: " + text + "\n"
  }

  /** The single-mode reply: a "Domain:" label and no trailing newline. */
  function FormatSingleReply(domain: string, result: Res): (s: string)
    ensures |Globe + DomainLabel + domain| < |s|
    ensures s[..|Globe + DomainLabel + domain|] == Globe + DomainLabel + domain
  {
    if result.Falsy? then
      Globe + DomainLabel + domain + "\n" + CannotCheck
    else
      var blocked := BlockedFlag(result);
      var icon := if blocked then "🚫" else "✅";
      var text := if blocked then "Diblokir" else "Tidak Diblokir";
      Globe + DomainLabel + domain + "\n" + icon + " Status: " + text
  }

  // ----- reading a rendering back -----

  predicate StartsWith(s: string, prefix: string) {
    |prefix| <= |s| && s[..|prefix|] == prefix
  }

  predicate EndsWith(s: string, suffix: string) {
    |suffix| <= |s| && s[|s| - |suffix|..] == suffix
  }

  function Tail(status: Status): string {
    "\n" + StatusLine(status) + "\n"
  }

  lemma GroupTail(g: string, d: string, nl: string, x: string, y: string, z: string)
    ensures g + d + nl + x + y + z + nl == g + d + (nl + (x + y + z) + nl)
  {
  }

  /** Each block is the globe, the domain verbatim, and the status line of its entry. */
  lemma SingleResultShape(domain: string, result: Res)
    ensures FormatSingleResult(domain, result) == Globe + domain + Tail(StatusOf(result))
  {
    match result
    case Falsy =>
      assert Globe + domain + "\n" + CannotCheck + "\n" == Globe + domain + ("\n" + CannotCheck + "\n");
    case Entry(None) =>
      GroupTail(Globe, domain, "\n", "✅", " Status: ", "Tidak Diblokir");
    case Entry(Some(b)) =>
      if b {
        GroupTail(Globe, domain, "\n", "🚫", " Status: ", "Diblokir");
      } else {
        GroupTail(Globe, domain, "\n", "✅", " Status: ", "Tidak Diblokir");
      }
  }

  /** The two templates differ only by the "Domain: " label and the final newline. */
  lemma ReplyIsLabelledResult(domain: string, result: Res)
    ensures FormatSingleResult(DomainLabel + domain, result) == FormatSingleReply(domain, result) + "\n"
  {
    assert Globe + (DomainLabel + domain) == Globe + DomainLabel + domain;
  }

  /** `d + t` cannot end with `u` if `t` and `u` differ `k` places from their ends. */
  lemma EndsApart(d: string, t: string, u: string, k: nat)
    requires k < |t| && k < |u| && t[|t| - 1 - k] != u[|u| - 1 - k]
    ensures !EndsWith(d + t, u)
  {
    var s := d + t;
    assert s[|s| - 1 - k] == t[|t| - 1 - k];
    if |u| <= |s| {
      assert s[|s| - |u|..][|u| - 1 - k] == s[|s| - 1 - k];
    }
  }

  /** The characters two places and eleven places from the end of each tail. */
  lemma TailMarks(status: Status)
    ensures |Tail(status)| > 11
    ensures Tail(status)[|Tail(status)| - 2] == (if status == Unchecked then '.' else 'r')
    ensures status != Unchecked ==> Tail(status)[|Tail(status)| - 11] == (if status == Blocked then ':' else 'k')
  {
    var line := StatusLine(status);
    var t := Tail(status);
    assert t == "\n" + line + "\n";
    assert t[|t| - 2] == line[|line| - 1];
    match status
    case Unchecked =>
    case Blocked =>
      var v := "Diblokir";
      assert line == ("🚫" + " Status: ") + v;
      assert t[|t| - 11] == line[|line| - 10] == " Status: "[7];
    case NotBlocked =>
      var v := "Tidak Diblokir";
      assert line == ("✅" + " Status: ") + v;
      assert t[|t| - 11] == line[|line| - 10] == v[4];
  }

  /** No status line can be mistaken for another, whatever domain precedes it. */
  lemma TailsDistinct(d: string, status: Status, other: Status)
    requires status != other
    ensures !EndsWith(d + Tail(status), Tail(other))
  {
    TailMarks(status);
    TailMarks(other);
    EndsApart(d, Tail(status), Tail(other), if status == Unchecked || other == Unchecked then 1 else 10);
  }

  /** The status part of `ReadSingleResult`: which tail ends `body`, and what precedes it. */
  function ReadStatus(body: string): Option<(string, Status)> {
    if EndsWith(body, Tail(Unchecked)) then Some((body[..|body| - |Tail(Unchecked)|], Unchecked))
    else if EndsWith(body, Tail(Blocked)) then Some((body[..|body| - |Tail(Blocked)|], Blocked))
    else if EndsWith(body, Tail(NotBlocked)) then Some((body[..|body| - |Tail(NotBlocked)|], NotBlocked))
    else None
  }

  /**
    Reads a block of the bulk report back into the domain it names and the
    status it shows; `None` when `s` is not such a block.
  */
  function ReadSingleResult(s: string): Option<(string, Status)> {
    if StartsWith(s, Globe) then ReadStatus(s[|Globe|..]) else None
  }

  /** Reads a single-mode reply back into the domain it names and the status it shows. */
  function ReadSingleReply(s: string): Option<(string, Status)> {
    match ReadSingleResult(s + "\n")
    case Some((labelled, status)) =>
      if StartsWith(labelled, DomainLabel) then Some((labelled[|DomainLabel|..], status)) else None
    case None => None
  }

  lemma ReadStatusTail(d: string, status: Status)
    ensures ReadStatus(d + Tail(status)) == Some((d, status))
  {
    var body := d + Tail(status);
    assert body[|body| - |Tail(status)|..] == Tail(status);
    assert body[..|body| - |Tail(status)|] == d;
    match status
    case Unchecked =>
    case Blocked =>
      TailsDistinct(d, Blocked, Unchecked);
    case NotBlocked =>
      TailsDistinct(d, NotBlocked, Unchecked);
      TailsDistinct(d, NotBlocked, Blocked);
  }

  /** Round trip: every block reads back as its domain and its entry's status. */
  lemma ReadFormatSingleResult(domain: string, result: Res)
    ensures ReadSingleResult(FormatSingleResult(domain, result)) == Some((domain, StatusOf(result)))
  {
    SingleResultShape(domain, result);
    var s := FormatSingleResult(domain, result);
    assert s == Globe + (domain + Tail(StatusOf(result)));
    assert s[|Globe|..] == domain + Tail(StatusOf(result));
    ReadStatusTail(domain, StatusOf(result));
  }

  /** Round trip for the single-mode reply. */
  lemma ReadFormatSingleReply(domain: string, result: Res)
    ensures ReadSingleReply(FormatSingleReply(domain, result)) == Some((domain, StatusOf(result)))
  {
    ReplyIsLabelledResult(domain, result);
    ReadFormatSingleResult(DomainLabel + domain, result);
  }

  /** Two entries render alike exactly when they show the same status. */
  lemma SingleResultDistinguishes(domain: string, r1: Res, r2: Res)
    ensures FormatSingleResult(domain, r1) == FormatSingleResult(domain, r2) <==> StatusOf(r1) == StatusOf(r2)
  {
    ReadFormatSingleResult(domain, r1);
    ReadFormatSingleResult(domain, r2);
    SingleResultShape(domain, r1);
    SingleResultShape(domain, r2);
  }

  /** The same holds of the single-mode reply. */
  lemma SingleReplyDistinguishes(domain: string, r1: Res, r2: Res)
    ensures FormatSingleReply(domain, r1) == FormatSingleReply(domain, r2) <==> StatusOf(r1) == StatusOf(r2)
  {
    ReplyIsLabelledResult(domain, r1);
    ReplyIsLabelledResult(domain, r2);
    SingleResultDistinguishes(DomainLabel + domain, r1, r2);
  }

  /** Different statuses have different tails. */
  lemma TailInjective(status: Status, other: Status)
    ensures Tail(status) == Tail(other) <==> status == other
  {
    if status != other {
      TailsDistinct([], status, other);
      assert [] + Tail(status) == Tail(status);
    }
  }

  lemma Cancel(p: string, x: string, y: string)
    ensures p + x == p + y <==> x == y
  {
    if p + x == p + y {
      assert x == (p + x)[|p|..];
    }
  }

  lemma Relabel(g: string, l: string, d: string, n: string, x: string)
    ensures g + (l + d) + n + x + n == (g + l + d + n + x) + n
  {
  }

  lemma CancelRight(x: string, y: string, q: string)
    ensures x + q == y + q <==> x == y
  {
    if x + q == y + q {
      assert x == (x + q)[..|x|];
      assert y == (y + q)[..|y|];
    }
  }

  /** The block for a status, spelled out. */
  function BlockFor(domain: string, status: Status): string {
    Globe + domain + "\n" + StatusLine(status) + "\n"
  }

  lemma SingleResultIs(domain: string, result: Res, status: Status)
    ensures FormatSingleResult(domain, result) == BlockFor(domain, status) <==> StatusOf(result) == status
  {
    SingleResultShape(domain, result);
    assert BlockFor(domain, status) == Globe + domain + Tail(status);
    Cancel(Globe + domain, Tail(StatusOf(result)), Tail(status));
    TailInjective(StatusOf(result), status);
  }

  /**
    A block shows "Diblokir" exactly for a truthy entry whose "blocked" is
    truthy, "Tidak Diblokir" exactly for a truthy entry whose "blocked" is
    falsy or missing, and "cannot check" exactly for a falsy entry.
  */
  lemma SingleResultVerdict(domain: string, result: Res)
    ensures FormatSingleResult(domain, result) == BlockFor(domain, Blocked)
      <==> result.Entry? && BlockedFlag(result)
    ensures FormatSingleResult(domain, result) == BlockFor(domain, NotBlocked)
      <==> result.Entry? && !BlockedFlag(result)
    ensures FormatSingleResult(domain, result) == BlockFor(domain, Unchecked)
      <==> result.Falsy?
  {
    SingleResultIs(domain, result, Blocked);
    SingleResultIs(domain, result, NotBlocked);
    SingleResultIs(domain, result, Unchecked);
  }

  /** The single-mode reply for a status, spelled out. */
  function ReplyFor(domain: string, status: Status): string {
    Globe + DomainLabel + domain + "\n" + StatusLine(status)
  }

  lemma SingleReplyIs(domain: string, result: Res, status: Status)
    ensures FormatSingleReply(domain, result) == ReplyFor(domain, status) <==> StatusOf(result) == status
  {
    ReplyIsLabelledResult(domain, result);
    SingleResultIs(DomainLabel + domain, result, status);
    Relabel(Globe, DomainLabel, domain, "\n", StatusLine(status));
    CancelRight(FormatSingleReply(domain, result), ReplyFor(domain, status), "\n");
  }

  /** The single-mode reply follows the same rule as the block. */
  lemma SingleReplyVerdict(domain: string, result: Res)
    ensures FormatSingleReply(domain, result) == ReplyFor(domain, Blocked)
      <==> result.Entry? && BlockedFlag(result)
    ensures FormatSingleReply(domain, result) == ReplyFor(domain, NotBlocked)
      <==> result.Entry? && !BlockedFlag(result)
    ensures FormatSingleReply(domain, result) == ReplyFor(domain, Unchecked)
      <==> result.Falsy?
  {
    SingleReplyIs(domain, result, Blocked);
    SingleReplyIs(domain, result, NotBlocked);
    SingleReplyIs(domain, result, Unchecked);
  }
}
