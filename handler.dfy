/**
  The text-message handler (`check_domain`) with the network taken out: it
  classifies the message and either refuses it with a fixed reply, or names
  the request it sends and renders the reply from the decoded response, which
  the caller supplies as `results`.
*/
module Handler {
  import opened Wrappers
  import opened Text
  import opened Render
  import opened Classification
  import BulkReport

  const AskForDomain := "❌ Silakan kirimkan nama domain yang ingin dicek."
  const TooManyDomains := "\U{26A0}\U{FE0F} Maksimal 10 domain sekaligus. Silakan kurangi jumlah domain."
  const BadFormat :=
    "❌ Format tidak valid. Silakan kirim domain yang dipisahkan dengan koma (contoh: `example.com,google.com`)."
  const ApiBase := "https://check.skiddle.id/?domains="

  /** A reply, and whether it is sent with Markdown parsing on. */
  datatype Reply = Reply(text: string, markdown: bool)

  /** The request for the domains: the service's address with the comma-joined query. */
  function RequestUrl(domains: seq<string>): (url: string)
    requires domains != []
    requires forall i :: 0 <= i < |domains| ==> ',' !in domains[i]
    ensures StartsWith(url, ApiBase)
    ensures Split(url[|ApiBase|..], ',') == domains
  {
    SplitJoin(domains, ',');
    var url := ApiBase + Query(domains);
    assert url[|ApiBase|..] == Query(domains);
    url
  }

  /**
    `check_domain`. A refused message sends no request; an accepted one sends
    one request for exactly its domains and answers from `results`, the
    decoded response to that request.
  */
  method CheckDomain(message: string, results: map<string, Res>) returns (request: Option<string>, reply: Reply)
    ensures request.None? <==> !Accepted(Classify(message))
    ensures Classify(message) == EmptyInput ==> reply == Reply(AskForDomain, false)
    ensures Classify(message) == TooMany ==> reply == Reply(TooManyDomains, false)
    ensures Classify(message) == InvalidFormat ==> reply == Reply(BadFormat, true)
    ensures request.Some? ==>
      StartsWith(request.value, ApiBase)
      && Split(request.value[|ApiBase|..], ',') == Domains(Classify(message))
    ensures Classify(message).Single? ==>
      var domain := Classify(message).domain;
      && reply == Reply(FormatSingleReply(domain, Lookup(results, domain)), !Lookup(results, domain).Falsy?)
      && ReadSingleReply(reply.text) == Some((domain, StatusOf(Lookup(results, domain))))
    ensures Classify(message).Bulk? ==>
      var domains := Classify(message).domains;
      && reply == Reply(BulkReport.Report(domains, results), true)
  {
    var outcome := Classify(message);
    match outcome
    case EmptyInput =>
      request, reply := None, Reply(AskForDomain, false);
    case TooMany =>
      request, reply := None, Reply(TooManyDomains, false);
    case InvalidFormat =>
      request, reply := None, Reply(BadFormat, true);
    case Single(domain) =>
      request := Some(RequestUrl([domain]));
      var result := Lookup(results, domain);
      if result.Falsy? {
        reply := Reply(FormatSingleReply(domain, result), false);
      } else {
        reply := Reply(FormatSingleReply(domain, result), true);
      }
      ReadFormatSingleReply(domain, result);
    case Bulk(domains) =>
      request := Some(RequestUrl(domains));
      var report := BulkReport.FormatBulkResults(domains, results);
      reply := Reply(report, true);
  }
}
