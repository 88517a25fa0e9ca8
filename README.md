# Render-check bot: message classification and reply rendering

A Telegram bot (`bot.py`) checks whether domains are blocked. A user sends one
domain, or a comma-separated list of up to ten. The bot sends one request to a
checking service with the domains joined by commas. The service answers with a
JSON object keyed by domain. The bot then replies with one of two things:

- a single-domain verdict ("🌐 Domain: …" followed by a status line);
- a bulk report: a header, one block per domain, and a summary. The summary
  counts the domains checked and the domains blocked, and names the domains
  that could not be checked.

This project models the logic between the message and the reply:

- `Text`: the Python string operations the bot relies on. These are
  `str.strip` with Python's exact whitespace set, `str.split(',')`,
  `sep.join`, `filter(None, …)`, and the membership test `',' in s`.
- `Decimal`: `str(n)` for the counters, with a reader as its inverse.
- `Classification`: how `check_domain` reads the message (bot.py:84-106) and
  the query it sends (bot.py:110).
- `Render`: `format_single_result` (bot.py:14-22) and the single-mode reply
  (bot.py:121-129). Each has a reader, and each is proved to round-trip.
- `BulkReport`: `format_bulk_results` (bot.py:24-51) as a method with its
  loop. It is proved against the functions `Blocks`, `TallyOf`, `Summary` and
  `Report`. Lemmas then show what the counters mean, and a reader for the
  summary round-trips.
- `Handler`: `check_domain` with the network taken out. It produces the
  request URL and the reply with its Markdown flag. The decoded response is a
  parameter.

The service's response is a `map<string, Res>`. A `Res` is either `Falsy` or
`Entry(blocked)`:

- `Falsy` covers an absent key, `null`, `{}` and any other falsy JSON value.
  The bot tests truthiness, not key presence (bot.py:16, 34, 123).
- In `Entry(blocked)`, `blocked` is the truthiness of the entry's "blocked"
  field, or `None` when that field is missing. A missing field counts as not
  blocked.

Two behaviours of `check_domain` are worth stating on their own:

- The limit of ten is checked on the raw comma-separated segments, before
  blank segments are dropped (bot.py:93-98). The help text promises at most
  ten domains per request (bot.py:79), but `"a.com,,,,,,,,,,"` (eleven
  segments, one domain) is refused as too many.
- A message made only of commas and blanks, with fewer than ten commas, is
  refused as malformed ("Format tidak valid", bot.py:98-100). It is not
  treated as an empty message. From ten commas on, the count check at
  bot.py:95 comes first and the message is refused as too many.

## Model

| member | source | states |
|---|---|---|
| Text.Strip | bot.py:84 | the result has no leading or trailing Python whitespace; it is empty exactly when the input is all whitespace |
| Text.StripPadded | bot.py:84 | stripping removes exactly the surrounding whitespace: `Strip(left + m + right) == m` for whitespace `left`, `right` and stripped `m` |
| Text.StripFixedPoint | bot.py:84 | a string is its own strip exactly when it is already stripped |
| Text.StripIdempotent | bot.py:84 | stripping twice is stripping once |
| Text.StripSplits | bot.py:84 | every string is whitespace, then its strip, then whitespace |
| Text.StripKeepsOccurrences | bot.py:84-91 | stripping never adds or removes a non-whitespace character such as the comma, so `',' in text` can be asked of the raw or the stripped text |
| Text.StripAll | bot.py:93 | `[d.strip() for d in parts]`: same length, element i is the strip of part i |
| Text.Split | bot.py:93 | `s.split(sep)` has one more part than `s` has separators, and no part holds the separator |
| Text.SplitPadded | bot.py:84-93 | padding a string on both sides with whitespace that holds no separator leaves the stripped parts of its split unchanged |
| Text.Join | bot.py:51 | `sep.join(parts)`; definition, no contract of its own; characterised by `JoinCons`, `JoinSnoc`, `SplitJoin` and `JoinSplit` |
| Text.SplitJoin | bot.py:110 | splitting the join of separator-free parts gives back the parts |
| Text.JoinSplit | bot.py:93 | joining the parts of a split gives back the string |
| Text.SplitJoinSpaced | bot.py:48 | splitting the `", "`-join of comma-free stripped names on commas and stripping the parts gives back the names |
| Text.JoinCons | bot.py:51 | a join of several parts is the first part, the separator, and the join of the rest |
| Text.JoinSnoc | bot.py:51 | a join of several parts is the join of all but the last, the separator, and the last |
| Text.DropEmpty | bot.py:98 | `filter(None, parts)` keeps exactly the non-empty parts and is never longer |
| Text.DropEmptyAppend | bot.py:98 | filtering distributes over concatenation, so order is kept |
| Text.DropEmptyNothing | bot.py:98-99 | the filter leaves nothing exactly when every part is empty |
| Text.DropEmptyKeeps | bot.py:98 | the filter leaves a list with no empty parts unchanged |
| Decimal.NatToString | bot.py:45-48 | `str(n)` is non-empty, all digits, and has no leading zero; it is one digit exactly when `n < 10` |
| Decimal.ValueOfNatToString | bot.py:45-48 | reading a printed counter gives the counter back |
| Decimal.NatToStringInjective | bot.py:45-48 | different counters print differently |
| Decimal.DigitRunStops | bot.py:45-48 | a printed counter followed by a non-digit is read to its end and no further |
| Render.Lookup | bot.py:33 | `results.get(domain)`: an absent key reads as a falsy entry; definition, no contract of its own; characterised through `BlockAt` and `FailuresMembers` |
| Render.BlockedFlag | bot.py:19 | `result.get("blocked", False)` taken for its truthiness, so a missing "blocked" counts as not blocked; definition, no contract of its own; characterised by `SingleResultVerdict` |
| Render.StatusLine | bot.py:20-21 | the icon and text of each status; definition, no contract of its own; characterised by `TailInjective` and `TailsDistinct` |
| Render.FormatSingleResult | bot.py:14-22 | every block starts with `"🌐 " + domain` and ends with a newline |
| Render.SingleResultShape | bot.py:14-22 | a block is the globe, the domain verbatim, and the status line of the entry's status between newlines |
| Render.SingleResultVerdict | bot.py:16-22 | a block shows "🚫 Status: Diblokir" exactly for a truthy entry whose "blocked" is truthy; it shows "✅ Status: Tidak Diblokir" exactly for a truthy entry whose "blocked" is falsy or missing; it shows "❌ Tidak dapat memeriksa domain ini." exactly for a falsy entry |
| Render.SingleResultIs | bot.py:14-22 | a block equals the spelled-out block for a status exactly when the entry has that status |
| Render.ReadFormatSingleResult | bot.py:14-22 | round trip: every block reads back as its domain and its entry's status |
| Render.SingleResultDistinguishes | bot.py:14-22 | two entries give the same block exactly when they show the same status |
| Render.TailsDistinct | bot.py:17-22 | no status line can be taken for another, whatever precedes it |
| Render.TailInjective | bot.py:17-22 | different statuses have different status lines |
| Render.FormatSingleReply | bot.py:121-129 | every single-mode reply starts with `"🌐 Domain: " + domain` |
| Render.ReplyIsLabelledResult | bot.py:121-129 | the single-mode reply is the bulk block of `"Domain: " + domain` without its final newline |
| Render.SingleReplyVerdict | bot.py:123-129 | the single-mode reply follows the same blocked, not-blocked and cannot-check rule as the block |
| Render.SingleReplyIs | bot.py:121-129 | a reply equals the spelled-out reply for a status exactly when the entry has that status |
| Render.ReadFormatSingleReply | bot.py:121-129 | round trip: every single-mode reply reads back as its domain and its entry's status |
| Render.SingleReplyDistinguishes | bot.py:121-129 | two entries give the same reply exactly when they show the same status |
| Classification.Segments | bot.py:93 | a message has one more raw segment than it has commas |
| Classification.Classify | bot.py:84-106 | the message is empty exactly when it is all whitespace; it is single exactly when it is not all whitespace and has no comma, and then the domain is the stripped message; a single domain and every bulk domain is non-empty, comma-free and stripped; bulk mode has 1 to 10 domains; "too many" happens exactly when there is a comma and at least ten commas |
| Classification.SegmentsAreDomains | bot.py:93-98 | every non-blank stripped segment is a domain |
| Classification.SegmentsOfStripped | bot.py:84-93 | splitting the stripped message gives the same stripped segments as splitting the raw one |
| Classification.BulkDomains | bot.py:93-98 | the bulk domains are exactly the non-blank stripped segments, in order and with repeats |
| Classification.InvalidFormatWhen | bot.py:91-101 | the message is refused as malformed exactly when it has a comma, fewer than ten commas, and only blank segments |
| Classification.Query | bot.py:110 | `",".join(domains)`; definition, no contract of its own; characterised by `QueryRoundTrip` |
| Classification.QueryRoundTrip | bot.py:110 | the comma-joined query splits back into exactly the classified domains |
| BulkReport.Count | bot.py:33-41 | one turn of the loop: a falsy entry is appended to the failures, any other entry is a success and, when its "blocked" is truthy, also blocked; definition, no contract of its own; characterised by `TallyBalance`, `TallyErrors` and `TallyCounts` |
| BulkReport.TallyOf | bot.py:28-41 | the counters after the loop has seen every domain in order; definition, no contract of its own; characterised by `TallyBalance`, `TallyErrors`, `TallyCounts` and `ThreeDomains` |
| BulkReport.Summary | bot.py:44-48 | the summary text; definition, no contract of its own; characterised by `ReadSummaryRoundTrip` and `SummaryMeaning` |
| BulkReport.Report | bot.py:51 | the lines joined with newlines; definition, no contract of its own; characterised by `FormatBulkResults`, `LinesShape` and `ReportFrame` |
| BulkReport.Blocks | bot.py:32-38 | there is one block per requested domain |
| BulkReport.BlockAt | bot.py:32-38 | block i is the block of domain i and its entry |
| BulkReport.FormatBulkResults | bot.py:24-51 | the loop produces exactly the header, one block per domain in input order (the falsy block for failures), and the summary of the final tally, joined with newlines |
| BulkReport.TallyBalance | bot.py:28-41 | success count plus the number of failures equals the number of domains; blocked count is at most the success count |
| BulkReport.FailuresMembers | bot.py:33-35 | a name is among the failures exactly when it was requested and its entry is falsy; there are never more failures than domains |
| BulkReport.FailuresAppend | bot.py:32-35 | the failures of a concatenation are the failures of each part in order |
| BulkReport.TallyErrors | bot.py:30-35 | the loop's failure list is exactly the requested domains with a falsy entry, in input order and with repeats |
| BulkReport.TallyCounts | bot.py:28-41 | the failure count is the number of positions showing "cannot check"; the blocked count is the number showing "Diblokir"; the success count is the number with a verdict |
| BulkReport.LinesShape | bot.py:26-50 | the report has exactly `|domains| + 2` lines: the header, then one block per domain that reads back as that domain and its status, then the summary |
| BulkReport.ReportFrame | bot.py:50-51 | the report starts with the header and a newline, and ends with a newline and the summary |
| BulkReport.ReadClosingRoundTrip | bot.py:47-48 | the failure line reads back as the number of failures and their names; when nothing failed, the line is absent |
| BulkReport.ReadSummaryRoundTrip | bot.py:44-48 | round trip: the summary reads back as the success count, the blocked count, the number of failures and the failed names |
| BulkReport.SummaryMeaning | bot.py:24-51 | for classified domains, the summary reads back as the number of blocks with a verdict, the number showing "Diblokir", and the unchecked domains counted and named in input order |
| BulkReport.ThreeDomains | bot.py:28-41 | domains a.com (blocked), b.com (not blocked) and c.com (missing) tally to 2 successes, 1 blocked, failures [c.com] |
| BulkReport.ThreeDomainsSummary | bot.py:44-48 | that tally's summary reads back as 2, 1, 1 and [c.com] |
| Handler.RequestUrl | bot.py:110-111 | the request URL starts with the service address, and the text after `?domains=` splits back into the domains |
| Handler.CheckDomain | bot.py:84-132 | a refused message sends no request and gets its fixed reply; Markdown is on only where the source asks for it; an accepted message sends one request whose query splits back into its domains; a single domain gets the single-mode reply, which reads back as that domain and its status; a list gets the bulk report |

## Left out

- Loading the token from the environment and failing at startup
  (bot.py:7-10) are process configuration.
- The `start` and `help` handlers (bot.py:55-81) only send fixed text.
- The HTTP request, `raise_for_status`, the 15-second timeout and JSON
  decoding (bot.py:111-114) are network I/O and library calls.
  `Handler.CheckDomain` returns the URL it would request and takes the decoded
  response as its `results` parameter.
- The URL is the plain concatenation the source writes. Any percent-encoding
  the HTTP library applies is not modelled, and neither are URL-structure
  characters inside a domain (`#`, `&`, `?`, spaces): they would change the
  query the service receives, which the model does not parse.
- The exception replies (bot.py:134-139) are not modelled: timeout, request
  failure and any other error. This includes the error raised when the
  response is not a JSON object, or when an entry is truthy but not an object
  (its `.get` fails).
- The `reply_text` calls are asynchronous Telegram I/O. The model returns the
  reply text and its Markdown flag instead of sending them.
- Application setup and polling (bot.py:143-153) are framework plumbing, and
  their concurrency belongs to the framework.
- How Telegram renders the Markdown markup is not modelled; the model only
  builds the raw string.
