/**
  The bulk report (`format_bulk_results`): a header, one block per requested
  domain, and a summary that counts the domains checked, the domains blocked
  and lists the domains that could not be checked.
*/
module BulkReport {
  import opened Wrappers
  import opened Text
  import opened Decimal
  import opened Render

  const Header := "🤖 *Hasil Pengecekan Domain (Bulk)*\n"
  const SummaryTitle := "\n📊 *Ringkasan:*\n"
  const SuccessLabel := "✅ Berhasil: "
  const BlockedLabel := "🚫 Diblokir: "
  const FailedLabel := "❌ Gagal: "

  /** The two counters and the list of failed domains the report keeps. */
  datatype Tally = Tally(success: nat, blocked: nat, errors: seq<string>)

  /** One turn of the report's loop: a falsy entry is a failure, any other a success. */
  function Count(t: Tally, domain: string, result: Res): Tally {
    if result.Falsy? then t.(errors := t.errors + [domain])
    else if BlockedFlag(result) then t.(success := t.success + 1, blocked := t.blocked + 1)
    else t.(success := t.success + 1)
  }

  /** The tally once the loop has seen every domain of `domains`, in order. */
  function TallyOf(domains: seq<string>, results: map<string, Res>): Tally
    decreases |domains|
  {
    if domains == [] then Tally(0, 0, [])
    else
      var last := domains[|domains| - 1];
      Count(TallyOf(domains[..|domains| - 1], results), last, Lookup(results, last))
  }

  /** The block of each domain, in the order the domains were given. */
  function Blocks(domains: seq<string>, results: map<string, Res>): (blocks: seq<string>)
    ensures |blocks| == |domains|
    decreases |domains|
  {
    if domains == [] then []
    else
      var last := domains[|domains| - 1];
      Blocks(domains[..|domains| - 1], results) + [FormatSingleResult(last, Lookup(results, last))]
  }

  lemma {:induction false} BlockAt(domains: seq<string>, results: map<string, Res>, i: nat)
    requires i < |domains|
    ensures Blocks(domains, results)[i] == FormatSingleResult(domains[i], Lookup(results, domains[i]))
    decreases |domains|
  {
    if i < |domains| - 1 {
      BlockAt(domains[..|domains| - 1], results, i);
    }
  }

  /** The failure line of the summary. */
  function FailureLine(errors: seq<string>): string {
    FailedLabel + NatToString(|errors|) + " (" + Join(errors, ", ") + ")\n"
  }

  /** The text after the last counter: the failure line, or nothing. */
  function Closing(errors: seq<string>): string {
    if errors != [] then FailureLine(errors) else ""
  }

  /** The summary's title and its two counter lines. */
  function Counters(success: nat, blocked: nat): string {
    SummaryTitle + SuccessLabel + NatToString(success) + "\n"
    + BlockedLabel + NatToString(blocked) + "\n"
  }

  /** The summary that closes the report: the two counters, then the failure line if any. */
  function Summary(t: Tally): string {
    if t.errors != [] then Counters(t.success, t.blocked) + FailureLine(t.errors)
    else Counters(t.success, t.blocked)
  }

  /**
    The lines the report joins with newlines: the header, one block per
    domain in input order, and the summary.
  */
  function Lines(domains: seq<string>, results: map<string, Res>): seq<string> {
    [Header] + Blocks(domains, results) + [Summary(TallyOf(domains, results))]
  }

  /** The whole report: its lines joined with newlines. */
  function Report(domains: seq<string>, results: map<string, Res>): string {
    Join(Lines(domains, results), "\n")
  }

  /** Seeing one more domain adds its block. */
  lemma BlocksStep(domains: seq<string>, results: map<string, Res>, i: nat)
    requires i < |domains|
    ensures [Header] + Blocks(domains[..i + 1], results)
      == [Header] + Blocks(domains[..i], results) + [FormatSingleResult(domains[i], Lookup(results, domains[i]))]
  {
    assert domains[..i + 1][..i] == domains[..i];
  }

  /** Seeing one more domain counts its entry the way the report's loop does. */
  lemma TallyStep(domains: seq<string>, results: map<string, Res>, i: nat, success: nat, blocked: nat, errors: seq<string>)
    requires i < |domains|
    requires Tally(success, blocked, errors) == TallyOf(domains[..i], results)
    ensures var result := Lookup(results, domains[i]);
      TallyOf(domains[..i + 1], results) ==
        if result.Falsy? then Tally(success, blocked, errors + [domains[i]])
        else if BlockedFlag(result) then Tally(success + 1, blocked + 1, errors)
        else Tally(success + 1, blocked, errors)
  {
    assert domains[..i + 1][..i] == domains[..i];
  }

  /** Appending a line piece by piece, as the report's `+=` does, appends the whole line. */
  lemma AppendPieces(text: string, a: string, b: string, c: string, d: string, e: string)
    ensures text + a + b + c + d + e == text + (a + b + c + d + e)
  {
  }

  /** `format_bulk_results`. */
  method FormatBulkResults(domains: seq<string>, results: map<string, Res>) returns (report: string)
    ensures report == Report(domains, results)
  {
    var outputLines := [Header];
    var successCount: nat := 0;
    var blockedCount: nat := 0;
    var errorDomains: seq<string> := [];
    for i := 0 to |domains|
      invariant outputLines == [Header] + Blocks(domains[..i], results)
      invariant Tally(successCount, blockedCount, errorDomains) == TallyOf(domains[..i], results)
    {
      BlocksStep(domains, results, i);
      TallyStep(domains, results, i, successCount, blockedCount, errorDomains);
      var domain := domains[i];
      var result := Lookup(results, domain);
      if result.Falsy? {
        errorDomains := errorDomains + [domain];
        outputLines := outputLines + [FormatSingleResult(domain, Falsy)];
      } else {
        outputLines := outputLines + [FormatSingleResult(domain, result)];
        successCount := successCount + 1;
        if BlockedFlag(result) {
          blockedCount := blockedCount + 1;
        }
      }
    }
    assert domains[..|domains|] == domains;
    ghost var tally := TallyOf(domains, results);
    assert tally.success == successCount && tally.blocked == blockedCount && tally.errors == errorDomains;

    var summary := SummaryTitle;
    summary := summary + SuccessLabel + NatToString(successCount) + "\n";
    summary := summary + BlockedLabel + NatToString(blockedCount) + "\n";
    if errorDomains != [] {
      AppendPieces(summary, FailedLabel, NatToString(|errorDomains|), " (", Join(errorDomains, ", "), ")\n");
      summary := summary + FailedLabel + NatToString(|errorDomains|) + " (" + Join(errorDomains, ", ") + ")\n";
    }
    assert summary == Summary(tally);
    outputLines := outputLines + [summary];
    report := Join(outputLines, "\n");
    assert outputLines == Lines(domains, results);
  }

  // ----- what the tally counts -----

  /** Every domain is counted once: as a success or as a failure; blocked ones are successes. */
  lemma {:induction false} TallyBalance(domains: seq<string>, results: map<string, Res>)
    ensures TallyOf(domains, results).success + |TallyOf(domains, results).errors| == |domains|
    ensures TallyOf(domains, results).blocked <= TallyOf(domains, results).success
    decreases |domains|
  {
    if domains != [] {
      TallyBalance(domains[..|domains| - 1], results);
    }
  }

  /** The domains whose entry is falsy, in input order and with repeats. */
  function Failures(domains: seq<string>, results: map<string, Res>): seq<string>
    decreases |domains|
  {
    if domains == [] then []
    else
      var rest := Failures(domains[1..], results);
      if Lookup(results, domains[0]).Falsy? then [domains[0]] + rest else rest
  }

  /** The failures are exactly the requested domains whose entry is falsy. */
  lemma {:induction false} FailuresMembers(domains: seq<string>, results: map<string, Res>)
    ensures |Failures(domains, results)| <= |domains|
    ensures forall d :: d in Failures(domains, results) <==> d in domains && Lookup(results, d).Falsy?
    decreases |domains|
  {
    if domains != [] {
      FailuresMembers(domains[1..], results);
      assert domains == [domains[0]] + domains[1..];
    }
  }

  lemma {:induction false} FailuresAppend(a: seq<string>, b: seq<string>, results: map<string, Res>)
    ensures Failures(a + b, results) == Failures(a, results) + Failures(b, results)
    decreases |a|
  {
    if a == [] {
      assert a + b == b;
    } else {
      assert (a + b)[0] == a[0];
      assert (a + b)[1..] == a[1..] + b;
      FailuresAppend(a[1..], b, results);
    }
  }

  /** The failure list of the summary is exactly the domains with a falsy entry. */
  lemma {:induction false} TallyErrors(domains: seq<string>, results: map<string, Res>)
    ensures TallyOf(domains, results).errors == Failures(domains, results)
    decreases |domains|
  {
    if domains != [] {
      var init := domains[..|domains| - 1];
      var last := domains[|domains| - 1];
      TallyErrors(init, results);
      FailuresAppend(init, [last], results);
      assert init + [last] == domains;
      assert [last][1..] == [];
    }
  }

  /** The positions of `domains` whose entry shows `status`. */
  function Showing(domains: seq<string>, results: map<string, Res>, status: Status): set<nat> {
    set i: nat | i < |domains| && StatusOf(Lookup(results, domains[i])) == status
  }

  lemma ShowingSnoc(domains: seq<string>, results: map<string, Res>, status: Status)
    requires domains != []
    ensures var n := |domains| - 1;
      Showing(domains, results, status) ==
        Showing(domains[..n], results, status)
        + (if StatusOf(Lookup(results, domains[n])) == status then {n} else {})
    ensures |domains| - 1 !in Showing(domains[..|domains| - 1], results, status)
  {
  }

  /**
    The summary's counters are the number of blocks showing each status:
    failures are the unchecked ones, "blocked" the blocked ones, and
    "successes" every block with a verdict.
  */
  lemma {:induction false} TallyCounts(domains: seq<string>, results: map<string, Res>)
    ensures |TallyOf(domains, results).errors| == |Showing(domains, results, Unchecked)|
    ensures TallyOf(domains, results).blocked == |Showing(domains, results, Blocked)|
    ensures TallyOf(domains, results).success
      == |Showing(domains, results, Blocked)| + |Showing(domains, results, NotBlocked)|
    decreases |domains|
  {
    if domains != [] {
      TallyCounts(domains[..|domains| - 1], results);
      ShowingSnoc(domains, results, Unchecked);
      ShowingSnoc(domains, results, Blocked);
      ShowingSnoc(domains, results, NotBlocked);
    }
  }

  /**
    The report opens with the header, closes with the summary, and in between
    has one block per domain, in input order, that reads back as that domain
    and the status of its entry.
  */
  lemma LinesShape(domains: seq<string>, results: map<string, Res>)
    ensures |Lines(domains, results)| == |domains| + 2
    ensures Lines(domains, results)[0] == Header
    ensures Lines(domains, results)[|domains| + 1] == Summary(TallyOf(domains, results))
    ensures forall i :: 0 <= i < |domains| ==>
      ReadSingleResult(Lines(domains, results)[i + 1])
        == Some((domains[i], StatusOf(Lookup(results, domains[i]))))
  {
    var lines := Lines(domains, results);
    forall i | 0 <= i < |domains|
      ensures ReadSingleResult(lines[i + 1]) == Some((domains[i], StatusOf(Lookup(results, domains[i]))))
    {
      assert lines[i + 1] == Blocks(domains, results)[i];
      BlockAt(domains, results, i);
      ReadFormatSingleResult(domains[i], Lookup(results, domains[i]));
    }
  }

  // ----- reading the report back -----

  lemma JoinFrame(first: string, middle: seq<string>, last: string, sep: string)
    ensures Join([first] + middle + [last], sep) == first + sep + Join(middle + [last], sep)
    ensures EndsWith(Join([first] + middle + [last], sep), sep + last)
  {
    assert [first] + middle + [last] == [first] + (middle + [last]);
    JoinCons(first, middle + [last], sep);
    JoinSnoc([first] + middle, last, sep);
    var joined := Join([first] + middle, sep) + sep + last;
    assert joined == Join([first] + middle, sep) + (sep + last);
    assert joined[|joined| - |sep + last|..] == sep + last;
  }

  /** The report is the header, then every block and the summary, each after a newline. */
  lemma ReportFrame(domains: seq<string>, results: map<string, Res>)
    ensures Report(domains, results)
      == Header + "\n" + Join(Blocks(domains, results) + [Summary(TallyOf(domains, results))], "\n")
    ensures EndsWith(Report(domains, results), "\n" + Summary(TallyOf(domains, results)))
  {
    JoinFrame(Header, Blocks(domains, results), Summary(TallyOf(domains, results)), "\n");
  }

  /** What a summary shows: the two counters, how many domains failed and which. */
  datatype SummaryView = SummaryView(success: nat, blocked: nat, failed: nat, names: seq<string>)

  /** A printed count that `after` follows: its value and what comes after `after`. */
  function ReadCountThen(s: string, after: string): Option<(nat, string)> {
    var k := DigitRun(s);
    if k == 0 || !StartsWith(s[k..], after) then None
    else Some((ValueOf(s[..k]), s[k + |after|..]))
  }

  /** Reads the text after the last counter: no failure line, or the failure count and the names. */
  function ReadClosing(rest: string): Option<(nat, seq<string>)> {
    if rest == "" then Some((0, []))
    else if |FailedLabel| + 2 <= |rest| && StartsWith(rest, FailedLabel) && EndsWith(rest, ")\n") then
      match ReadCountThen(rest[|FailedLabel|..|rest| - 2], " (")
      case None => None
      case Some((failed, names)) => Some((failed, StripAll(Split(names, ','))))
    else None
  }

  /** Reads a summary back into what it shows; `None` when `s` is not a summary. */
  function ReadSummary(s: string): Option<SummaryView> {
    var opening := SummaryTitle + SuccessLabel;
    if !StartsWith(s, opening) then None
    else
      match ReadCountThen(s[|opening|..], "\n" + BlockedLabel)
      case None => None
      case Some((success, afterSuccess)) =>
        match ReadCountThen(afterSuccess, "\n")
        case None => None
        case Some((blocked, rest)) =>
          match ReadClosing(rest)
          case None => None
          case Some((failed, names)) => Some(SummaryView(success, blocked, failed, names))
  }

  /** A printed count reads back when a non-digit follows it. */
  lemma ReadPrintedCount(n: nat, after: string, rest: string)
    requires after != [] && !IsDigit(after[0])
    ensures ReadCountThen(NatToString(n) + (after + rest), after) == Some((n, rest))
  {
    var digits := NatToString(n);
    var s := digits + (after + rest);
    DigitRunStops(digits, after + rest);
    ValueOfNatToString(n);
    assert s[..|digits|] == digits;
    assert s[|digits|..] == after + rest;
    assert s[|digits| + |after|..] == rest;
  }

  lemma Framed(open: string, body: string, close: string)
    ensures var s := open + body + close;
      && StartsWith(s, open) && EndsWith(s, close)
      && |open| + |close| <= |s| && s[|open|..|s| - |close|] == body
  {
    var s := open + body + close;
    assert s[..|open|] == open;
    assert s[|s| - |close|..] == close;
    assert s[|open|..|s| - |close|] == body;
  }

  /** The failure line reads back as the number of failed domains and their names. */
  lemma ReadClosingRoundTrip(errors: seq<string>)
    requires forall i :: 0 <= i < |errors| ==> ',' !in errors[i] && IsStripped(errors[i])
    ensures ReadClosing(Closing(errors)) == Some((|errors|, errors))
  {
    if errors != [] {
      var joined := Join(errors, ", ");
      var body := NatToString(|errors|) + (" (" + joined);
      assert FailureLine(errors) == FailedLabel + body + ")\n";
      Framed(FailedLabel, body, ")\n");
      ReadPrintedCount(|errors|, " (", joined);
      SplitJoinSpaced(errors);
    }
  }

  /** Regrouping the summary's pieces from the right, the way the reader takes them apart. */
  lemma Nest(o: string, a: string, n: string, b: string, c: string, m: string, r: string)
    ensures o + a + n + b + c + m + r == o + (a + ((n + b) + (c + (m + r))))
  {
  }

  /**
    Round trip: a summary reads back as the counters of its tally, the number
    of failed domains and the failed domains themselves, provided no failed
    domain holds a comma or surrounding whitespace (true of every classified
    domain).
  */
  lemma ReadSummaryRoundTrip(t: Tally)
    requires forall i :: 0 <= i < |t.errors| ==> ',' !in t.errors[i] && IsStripped(t.errors[i])
    ensures ReadSummary(Summary(t)) == Some(SummaryView(t.success, t.blocked, |t.errors|, t.errors))
  {
    var opening := SummaryTitle + SuccessLabel;
    var rest := Closing(t.errors);
    var afterSuccess := NatToString(t.blocked) + ("\n" + rest);
    var s1 := NatToString(t.success) + (("\n" + BlockedLabel) + afterSuccess);
    assert Summary(t) == Counters(t.success, t.blocked) + rest;
    Nest(SummaryTitle + SuccessLabel, NatToString(t.success), "\n", BlockedLabel, NatToString(t.blocked), "\n", rest);
    assert Summary(t)[..|opening|] == opening;
    assert Summary(t)[|opening|..] == s1;
    ReadPrintedCount(t.success, "\n" + BlockedLabel, afterSuccess);
    ReadPrintedCount(t.blocked, "\n", rest);
    ReadClosingRoundTrip(t.errors);
  }

  /**
    The summary of a report reads back as as many successes as blocks with a
    verdict, as many blocked as blocks showing "Diblokir", and the domains
    whose entry is falsy, counted and named in input order. Classified domains
    (comma-free and stripped) qualify.
  */
  lemma SummaryMeaning(domains: seq<string>, results: map<string, Res>)
    requires forall i :: 0 <= i < |domains| ==> ',' !in domains[i] && IsStripped(domains[i])
    ensures ReadSummary(Summary(TallyOf(domains, results))) == Some(SummaryView(
      |Showing(domains, results, Blocked)| + |Showing(domains, results, NotBlocked)|,
      |Showing(domains, results, Blocked)|,
      |Showing(domains, results, Unchecked)|,
      Failures(domains, results)))
  {
    var t := TallyOf(domains, results);
    TallyCounts(domains, results);
    TallyErrors(domains, results);
    FailuresMembers(domains, results);
    forall i | 0 <= i < |t.errors|
      ensures ',' !in t.errors[i] && IsStripped(t.errors[i])
    {
      assert t.errors[i] in domains;
    }
    ReadSummaryRoundTrip(t);
  }

  /** Three domains, one blocked, one not, one missing from the response. */
  lemma ThreeDomains()
    ensures var results := map["a.com" := Entry(Some(true)), "b.com" := Entry(Some(false))];
      TallyOf(["a.com", "b.com", "c.com"], results) == Tally(2, 1, ["c.com"])
  {
    var results := map["a.com" := Entry(Some(true)), "b.com" := Entry(Some(false))];
    assert "c.com"[0] != "a.com"[0] && "c.com"[0] != "b.com"[0];
    assert "c.com" !in results;
    assert ["a.com", "b.com", "c.com"][..2] == ["a.com", "b.com"];
    assert ["a.com", "b.com"][..1] == ["a.com"];
  }

  /** The summary of that tally reads: two checked, one blocked, one failed, namely "c.com". */
  lemma ThreeDomainsSummary()
    ensures ReadSummary(Summary(Tally(2, 1, ["c.com"]))) == Some(SummaryView(2, 1, 1, ["c.com"]))
  {
    var name := "c.com";
    assert !IsWhitespace(name[0]) && !IsWhitespace(name[|name| - 1]);
    assert ',' !in name;
    ReadSummaryRoundTrip(Tally(2, 1, [name]));
  }
}
