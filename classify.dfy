/**
  How the bot reads a text message (`check_domain`, before it calls the
  checking service): one domain, a comma-separated list of at most ten, or one
  of three rejections. Also the query parameter it then sends.
*/
module Classification {
  import opened Text

  /** The most raw segments a comma-separated message may have. */
  const MaxDomains := 10

  /** The decision taken on a message. The three rejections send no query. */
  datatype Outcome =
    | EmptyInput                    // nothing but whitespace
    | TooMany                       // more than ten comma-separated segments
    | InvalidFormat                 // commas, but every segment blank
    | Single(domain: string)        // no comma: the whole stripped text
    | Bulk(domains: seq<string>)    // the non-blank stripped segments, in order

  predicate Accepted(o: Outcome) {
    o.Single? || o.Bulk?
  }

  /** What a domain looks like once classified: non-empty, comma-free, stripped. */
  predicate IsDomain(d: string) {
    d != "" && ',' !in d && IsStripped(d)
  }

  /** The domains an accepted message asks about. */
  function Domains(o: Outcome): seq<string>
    requires Accepted(o)
  {
    if o.Single? then [o.domain] else o.domains
  }

  /** `[d.strip() for d in text.split(',')]`: the raw segments of a message. */
  function Segments(text: string): (parts: seq<string>)
    ensures |parts| == Occurrences(text, ',') + 1
  {
    StripAll(Split(text, ','))
  }

  /** The classification steps of `check_domain`. */
  function Classify(text: string): (o: Outcome)
    ensures o == EmptyInput <==> AllWhitespace(text)
    ensures o.Single? <==> !AllWhitespace(text) && ',' !in text
    ensures o.Single? ==> o.domain == Strip(text) && IsDomain(o.domain)
    ensures o.Bulk? ==> 1 <= |o.domains| <= MaxDomains
    ensures o.Bulk? ==> forall i :: 0 <= i < |o.domains| ==> IsDomain(o.domains[i])
    ensures o == TooMany <==> ',' in text && Occurrences(text, ',') >= MaxDomains
  {
    var input := Strip(text);
    StripKeepsOccurrences(text, ',');
    if input == "" then EmptyInput
    else if ',' in input then
      var raw := Segments(input);
      if |raw| > MaxDomains then TooMany
      else
        var domains := DropEmpty(raw);
        SegmentsAreDomains(input);
        if domains == [] then InvalidFormat else Bulk(domains)
    else Single(input)
  }

  /** Every segment is stripped and comma-free, so every non-empty one is a domain. */
  lemma SegmentsAreDomains(text: string)
    ensures forall i :: 0 <= i < |Segments(text)| && Segments(text)[i] != "" ==> IsDomain(Segments(text)[i])
    ensures forall d :: d in DropEmpty(Segments(text)) ==> IsDomain(d)
  {
    var parts := Split(text, ',');
    forall i | 0 <= i < |parts|
      ensures ',' !in Strip(parts[i])
    {
      StripKeepsOccurrences(parts[i], ',');
    }
  }

  /** Stripping the whole message first does not change its stripped segments. */
  lemma SegmentsOfStripped(text: string)
    ensures Segments(Strip(text)) == Segments(text)
  {
    var left, right := StripSplits(text);
    assert ',' !in left && ',' !in right;
    SplitPadded(left, Strip(text), right, ',');
  }

  /**
    In comma mode the domains are the non-blank stripped segments of the
    message, in order and with repeats.
  */
  lemma BulkDomains(text: string)
    requires Classify(text).Bulk?
    ensures Classify(text).domains == DropEmpty(Segments(text))
  {
    SegmentsOfStripped(text);
  }

  /** A message with commas is refused as malformed exactly when every segment is blank. */
  lemma InvalidFormatWhen(text: string)
    ensures Classify(text) == InvalidFormat <==>
      && ',' in text
      && Occurrences(text, ',') < MaxDomains
      && forall i :: 0 <= i < |Segments(text)| ==> Segments(text)[i] == ""
  {
    DropEmptyNothing(Segments(text));
    if ',' in text {
      var k :| 0 <= k < |text| && text[k] == ',';
      assert !AllWhitespace(text) by {
        assert !IsWhitespace(text[k]);
      }
      StripKeepsOccurrences(text, ',');
      SegmentsOfStripped(text);
    }
  }

  /** `",".join(domains)`: the value of the `domains` query parameter. */
  function Query(domains: seq<string>): string {
    Join(domains, ",")
  }

  /** Splitting the query on commas gives back exactly the classified domains. */
  lemma QueryRoundTrip(text: string)
    requires Accepted(Classify(text))
    ensures Split(Query(Domains(Classify(text))), ',') == Domains(Classify(text))
  {
    SplitJoin(Domains(Classify(text)), ',');
  }
}
