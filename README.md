# async-scanner: a Dafny model of the scanner's deterministic core

The scanner is an asynchronous TCP port scanner written in Rust. Given a
target address and a port specification, it tries to connect to every port
under a deadline. Each port is reported as open, closed (actively refused) or
filtered (anything else). For an open port, the scanner reads the first
bytes the service sends and guesses which service it is. It then sums the
results up per status.

This project models the parts of `src/main.rs` that are sequential and
deterministic, and proves what they promise:

- **Port specification parser** (`parse_ports`), module `PortSpec`. `ParsePorts` is the
  Rust loop: split on `,`, trim, skip empty pieces, expand `a-b` ranges or
  push single ports, then `sort`, `dedup`, `retain(p != 0)`, and fail if
  nothing is left. It is proved equal to the function `ParsePortsSpec`. The
  lemmas relate that function to a declarative reading. `WellFormedToken`
  says which tokens are accepted. `CoversPort` says which ports a token
  names. The lemmas prove the result is strictly ascending, non-empty and
  free of 0. A port is in it exactly when some token names it. The call
  fails as a whole with the error of the first ill-formed token, or with
  `NoValidPorts`.
- **`u16::from_str`**, module `U16Parse`. It accepts an optional `+` and then
  ASCII digits, read left to right with an overflow check. It is proved to
  accept exactly the numerals of values up to 65535.
- **String operations of the standard library**, module `Text`: `trim`,
  `trim_end` (Unicode White_Space), `split(char)` with its inverse `Join`,
  and `contains`.
- **`Vec` operations**, module `VecOps`: `sort`, `dedup` and `retain`, on values.
- **Service classifier** (`detect_service`), module `Service`. The banner
  rules "SSH-", then "HTTP/" or "Server:", then a "220 " prefix, outrank
  the nine-entry table of well-known ports.
- **Probe outcome** (the `match connect_res` of the spawned task), module
  `Probe`. A completed connection gives `Open` with the classified service.
  `ConnectionRefused` gives `Closed`. Every other error, and a timeout, gives
  `Filtered`. A result that is not open has neither banner nor service.
- **Result collection and summary**, module `Summary`. The loop that drains
  the finished tasks is the method `CollectResults`. The per-status counts
  form `Summarize`. They are proved to add up to the number of results, and
  not to depend on the order in which tasks finished. `ScanSummaryCorrect`
  covers a whole scan. Its premise is that the tasks the stream yields are
  exactly one finished task per port, carrying that port's probe result, in
  some order; that is what `buffer_unordered` over the spawned tasks
  delivers when no task fails. From it the lemma derives one result per
  port, an open count equal to the number of completed connections and a
  closed count equal to the number of refusals.
- **Banner preview** of `print_result`, module `Preview` (see Findings).

Inputs the model takes as parameters rather than computing:
- `ConnectOutcome` is what the connection attempt under its deadline produced.
- `BannerRead` is what the banner read produced. Its text is taken as
  already lossily decoded from UTF-8.
- The elapsed and total times are opaque naturals.
- The completion order of the tasks is an arbitrary sequence.

`duration_ms` is sampled right after the connect attempt, before the banner
read (src/main.rs:149-155), so it does not include the time spent reading the
banner. The model's `elapsedMs` is therefore the time at the end of the
connect.

## Model

| member | source | states |
|---|---|---|
| `Text.Trim` | src/main.rs:331 | the result is an infix of the input with only whitespace cut from either side, and neither of its ends is whitespace |
| `Text.TrimEnd` | src/main.rs:267 | the result is a prefix of the input, only whitespace was cut, and its last character is not whitespace |
| `Text.SkipWhitespace` | src/main.rs:331 | scanning forward stops at the first non-whitespace character, or at the end, and passes only whitespace |
| `Text.SkipWhitespaceBack` | src/main.rs:267 | scanning backward stops just after the last non-whitespace character, or at the start, and passes only whitespace |
| `Text.TrimUnchanged` | src/main.rs:331 | a string that neither starts nor ends with whitespace is left as it is |
| `Text.Split` | src/main.rs:330 | there is one piece more than separators, and no piece holds the separator |
| `Text.JoinSplit` | src/main.rs:330 | joining the pieces of a split with the separator gives back the input |
| `Text.SplitJoin` | src/main.rs:336 | splitting the join of separator-free pieces gives back exactly those pieces |
| `Text.PrefixSurvivesTrimEnd` | src/main.rs:267 | `trim_end` keeps every prefix that ends in a non-whitespace character |
| `Text.Contains` | src/main.rs:289-292 | `str::contains`; `ContainsAt` proves it equal to "the needle is a prefix of some suffix", and `MissingCharNotContained` gives a way to refute it |
| `Text.OccurrencesIn` | src/main.rs:335 | a character is in a string iff it occurs there at least once |
| `Text.ContainsAt` | src/main.rs:289-292 | `contains` holds iff the needle is a prefix of some suffix of the text |
| `Text.MissingCharNotContained` | src/main.rs:289-292 | a text lacking one of the needle's characters does not contain the needle |
| `U16Parse.ParseDigits` | src/main.rs:340-341 | the digit loop returns a value between the accumulator and 65535, and its errors are never `Empty` |
| `U16Parse.ParseU16` | src/main.rs:349 | a parsed value is at most 65535; the error is `Empty` exactly for the empty text |
| `U16Parse.ParseDigitsCorrect` | src/main.rs:340-341 | the digit loop succeeds iff all characters are digits and the decimal value fits, and then returns that value |
| `U16Parse.ParseU16Correct` | src/main.rs:340-341 | `parse::<u16>` succeeds exactly on an optional '+' followed by digits whose value is at most 65535, and returns that value |
| `U16Parse.LeadingNonDigit` | src/main.rs:349 | text starting with neither a digit nor '+' is rejected as an invalid digit |
| `U16Parse.ParseU16Examples` | src/main.rs:349 | "80", "+443" parse; "65536" overflows; "80 ", "-1", "+" are invalid digits; "" is empty |
| `VecOps.Insert` | src/main.rs:352 | inserting into an ascending sequence keeps it ascending and adds exactly the one element |
| `VecOps.Sort` | src/main.rs:352 | the result is ascending and a permutation of the input |
| `VecOps.Dedup` | src/main.rs:353 | the same elements remain, the first is kept, and a sorted input becomes strictly increasing |
| `VecOps.RetainNonZero` | src/main.rs:354 | exactly the non-zero elements remain, and strict increase is kept |
| `PortSpec.Tokens` | src/main.rs:330-331 | the comma-separated pieces, each trimmed; `TokensLength` and `TokenAt` give one trimmed token per piece of `split(',')`, empty pieces included |
| `PortSpec.TokensLength` | src/main.rs:330 | there is one token per piece of `split(',')` |
| `PortSpec.TokenAt` | src/main.rs:330-331 | token k is the trim of piece k |
| `PortSpec.TokenPorts` | src/main.rs:332-350 | what one trimmed piece contributes: every port fits in 16 bits, and the error is never `NoValidPorts`; `TokenPortsCorrect` characterizes it |
| `PortSpec.RangePorts` | src/main.rs:340-347 | the two sides of a range: every port fits in 16 bits, and the error is an invalid port or `StartAfterEnd`; `RangePortsCorrect` characterizes it |
| `PortSpec.Collect` | src/main.rs:330-351 | what the loop has pushed: every port fits in 16 bits, and the error is that of a token, never `NoValidPorts`; `CollectCorrect` characterizes it |
| `PortSpec.ParsePortsSpec` | src/main.rs:328-359 | `parse_ports` as a function; `ParsedPortsAscending`, `ParsedPortsMembership`, `ParseSucceedsIff` and `ParseFailsAtFirstBadToken` prove what it returns |
| `PortSpec.Finalize` | src/main.rs:352-358 | on success the ports are strictly increasing, non-empty and exactly the non-zero collected ones; it fails with `NoValidPorts` iff every collected port is 0 |
| `PortSpec.PushToken` | src/main.rs:332-350 | one loop pass appends exactly the token's ports to the vector, or returns the token's error |
| `PortSpec.ParsePorts` | src/main.rs:328-359 | the loop returns `ParsePortsSpec(s)`; on success the ports are strictly increasing, non-empty and never 0 |
| `PortSpec.RangeMembers` | src/main.rs:345-347 | the expanded range holds exactly the integers from start to end |
| `PortSpec.RangePortsCorrect` | src/main.rs:340-347 | the two sides of a range are accepted iff both are 16-bit numerals with start <= end, then giving exactly start..=end; both numerals with start > end give `StartAfterEnd` |
| `PortSpec.RangePairPorts` | src/main.rs:336-347 | for a token with exactly two sides: accepted iff a non-inverted range of two numerals, never `InvalidRangeFormat`, and `StartAfterEnd` iff inverted |
| `PortSpec.RangePairCovers` | src/main.rs:345-347 | an accepted range token yields exactly the ports from its start to its end |
| `PortSpec.RangeTokenPorts` | src/main.rs:335-347 | a token with a dash is accepted iff it is a non-inverted range of two numerals, and then yields exactly the ports in between; the error cases are told apart as above |
| `PortSpec.TokenPortsCorrect` | src/main.rs:335-350 | a token is accepted iff well formed, and then yields exactly the ports it covers; two or more dashes give `InvalidRangeFormat`; a valid but inverted range gives `StartAfterEnd` |
| `PortSpec.CollectStopsAtError` | src/main.rs:337-349 | after the first error no later token changes the outcome (the early `return Err`) |
| `PortSpec.CollectStep` | src/main.rs:330-350 | one more loop pass appends the token's ports, or turns the outcome into the token's error |
| `PortSpec.CoveredSnoc` | src/main.rs:330 | the ports named by the tokens with one more appended are those named before plus that token's |
| `PortSpec.CollectCorrect` | src/main.rs:330-351 | collection succeeds iff every token is well formed, and then holds exactly the ports some token covers |
| `PortSpec.CollectFirstError` | src/main.rs:336-349 | with an ill-formed token, collection fails with the error of the first ill-formed one |
| `PortSpec.ParsedPortsAscending` | src/main.rs:352-358 | a successful result is strictly ascending, holds no port twice, is non-empty, and every port is between 1 and 65535 |
| `PortSpec.ParsedPortsMembership` | src/main.rs:330-354 | a port is in a successful result iff it is not 0 and some trimmed token is its numeral or a range containing it |
| `PortSpec.ParseSucceedsIff` | src/main.rs:330-358 | parsing succeeds iff every token is well formed and some token names a port other than 0 |
| `PortSpec.ParseFailsAtFirstBadToken` | src/main.rs:336-349 | with an ill-formed token (bad dash count, bad number, inverted range) the whole call fails with that token's error, and no ports are returned |
| `PortSpec.ParseFailsWhenNoPorts` | src/main.rs:354-357 | well-formed tokens that name only 0 or nothing fail with `NoValidPorts` |
| `PortSpec.CollectSingle` | src/main.rs:330-351 | a single piece collects to exactly what that token yields |
| `PortSpec.SingleTokenSpec` | src/main.rs:330-358 | a specification without commas or surrounding whitespace fails with its token's error, or gives the finalized ports of that token |
| `PortSpec.EmptySpecExample` | src/main.rs:355-357 | the empty specification fails with `NoValidPorts` |
| `PortSpec.NotANumberExample` | src/main.rs:349 | "abc" fails with an invalid-digit error |
| `PortSpec.TwoDashesExample` | src/main.rs:336-338 | "1-2-3" fails with `InvalidRangeFormat` |
| `PortSpec.InvertedRangeToken` | src/main.rs:342-344 | the token "9-1" is rejected with `StartAfterEnd` |
| `PortSpec.InvertedRangeExample` | src/main.rs:342-344 | the specification "9-1" fails with `StartAfterEnd` |
| `PortSpec.PortZeroExample` | src/main.rs:354-357 | "0" fails with `NoValidPorts`, since port 0 is dropped |
| `PortSpec.SinglePortExample` | src/main.rs:349-358 | "7" gives exactly [7] |
| `Service.TableService` | src/main.rs:277-286 | the table lookup `m.get(&port)`; `TableFallback` lists its nine entries and proves there are no others |
| `Service.BannerService` | src/main.rs:288-299 | the banner rules in their order; `SshBannerWins`, `HttpBannerRule` and `GreetingBannerRule` prove each in turn |
| `Service.DetectService` | src/main.rs:276-301 | `detect_service`; `BannerOutranksTable`, `TableFallback` and `ServiceLabels` prove that a matching banner wins, the table decides otherwise, and only ten labels occur |
| `Service.SshBannerWins` | src/main.rs:289-291 | a banner containing "SSH-" gives "SSH" whatever the port |
| `Service.HttpBannerRule` | src/main.rs:292-294 | otherwise a banner containing "HTTP/" or "Server:" gives "HTTP" whatever the port |
| `Service.GreetingBannerRule` | src/main.rs:295-297 | otherwise a banner starting with "220 " gives "SMTP/FTP" whatever the port |
| `Service.BannerOutranksTable` | src/main.rs:288-299 | when a banner rule matches, the port number does not change the answer |
| `Service.TableFallback` | src/main.rs:277-286 | with no banner or no rule matching, the answer is no-banner's: the table entry for the nine listed ports, each with its label, and none for any other port |
| `Service.ServiceLabels` | src/main.rs:276-301 | every answer is one of the ten labels the function can produce |
| `Service.NoBannerExamples` | src/main.rs:299 | port 22 without banner is SSH; port 9999 without banner is unknown |
| `Service.SshBannerExample` | src/main.rs:289-291 | "SSH-2.0-OpenSSH" on port 9999 is SSH |
| `Service.HttpBannerExample` | src/main.rs:292-294 | "HTTP/1.1 200 OK" on port 80 is HTTP |
| `Probe.GrabBanner` | src/main.rs:266-272 | a banner exists iff a read returned at least one byte; it is the text with only trailing whitespace removed |
| `Probe.ProbeResult` | src/main.rs:153-179 | the port and time are the probe's; open iff connected, closed iff refused, filtered for every other error and for a timeout; the result is consistent (only an open port has banner and service, and its service is `detect_service` of its banner) |
| `Probe.AmbiguousFailureIsFiltered` | src/main.rs:172-178 | a timeout or a non-refusal error is filtered, with neither banner nor service |
| `Probe.SilentOpenPortUsesTable` | src/main.rs:154-156 | an open port that sent nothing is open and classified by the table alone |
| `Probe.ScenarioExample` | src/main.rs:153-179 | "SSH-2.0-Test\r\n" on port 22 is open and SSH; "HTTP/1.1 200 OK\r\n" on port 80 is open and HTTP; a refused port 81 is closed; a port 9 that times out is filtered |
| `Probe.SshScenarioBanner` | src/main.rs:266-272 | the trimmed SSH identification line is a banner that classifies as SSH on port 22 |
| `Probe.HttpScenarioBanner` | src/main.rs:266-272 | the trimmed HTTP status line is a banner that classifies as HTTP on port 80 |
| `Summary.CountStatus` | src/main.rs:208-210 | a status count never exceeds the number of results |
| `Summary.CountAppend` | src/main.rs:194 | counting over two batches of results adds their counts |
| `Summary.CountsPartition` | src/main.rs:208-210 | the open, closed and filtered counts add up to the number of results |
| `Summary.CountRemoveAt` | src/main.rs:208-210 | taking one result out lowers only its own status's count, by one |
| `Summary.RemoveLast` | src/main.rs:186-194 | the last element of one sequence occurs in any rearrangement of it, and removing it from both leaves rearrangements of each other; used for results and for tasks |
| `Summary.CountPermutation` | src/main.rs:186-210 | the counts are the same for any completion order of the same results |
| `Summary.Summarize` | src/main.rs:207-220 | the summary keeps target, results and time; scanned is the number of results; each status count is the number of results with that status; open + closed + filtered equals scanned |
| `Summary.Successful` | src/main.rs:188-197 | the results pushed by the draining loop; `SuccessfulCount` and `SuccessfulOfRearrangement` prove what it keeps |
| `Summary.SuccessfulCount` | src/main.rs:188-197 | kept results plus failed tasks equal the tasks drained, and a result is kept iff its task finished |
| `Summary.CollectResults` | src/main.rs:184-201 | the loop returns the finished tasks' results in completion order; with no failed task there is one result per task |
| `Summary.ProbeAll` | src/main.rs:140-179 | probing the ports gives one result per port, for that port, each consistent |
| `Summary.AllFinished` | src/main.rs:140-146 | one finished task per probe result, in port order, each carrying its result |
| `Summary.RemoveAtMultiset` | src/main.rs:186-194 | taking one element out of a sequence removes exactly one copy of it |
| `Summary.MatchLastTask` | src/main.rs:186-194 | the last task to arrive carries one of the probe results, and the earlier tasks carry the others (`RemoveLast` applied to tasks) |
| `Summary.SuccessfulOfRearrangement` | src/main.rs:186-197 | whatever order the finished tasks arrive in, the kept results are a rearrangement of the probe results |
| `Summary.ProbeAllCounts` | src/main.rs:153-179 | among the probe results, open ones are the completed connections and closed ones the refusals |
| `Summary.ScanSummaryCorrect` | src/main.rs:140-220 | when the tasks arrive as one finished task per port in any order: there were as many tasks as ports, scanned = number of ports, open = completed connections, closed = refusals, filtered = the rest |
| `Preview.Utf8Width` | src/main.rs:313 | a character needs 1 to 4 bytes, and 1 exactly when it is ASCII |
| `Preview.ByteLength` | src/main.rs:313 | the byte length lies between the character count and four times it |
| `Preview.AsciiByteLength` | src/main.rs:313 | on ASCII text the byte length is the character count |
| `Preview.TakeChars` | src/main.rs:312 | `chars().take(60)`: a banner of at most 60 characters whole, else its first 60 characters |
| `Preview.PreviewAsWritten` | src/main.rs:312-317 | as written: a banner over 60 characters is cut to 60 followed by "..."; one of at most 60 bytes is shown whole; one of at most 60 characters but over 60 bytes is shown whole and followed by "..." |
| `Preview.BannerCell` | src/main.rs:311-318 | the banner cell as the code prints it: "-" without a banner, else the written preview with the three cases above |
| `Preview.PreviewCorrected` | src/main.rs:311-318 | a banner of at most 60 characters is shown whole; a longer one as its first 60 characters followed by "..." |
| `Preview.TruncationIsMarked` | src/main.rs:312-314 | as written, a banner cut to 60 characters always gets "..." |
| `Preview.PreviewsDifferIff` | src/main.rs:312-317 | the written and the corrected preview differ exactly when the banner has at most 60 characters but over 60 bytes |
| `Preview.AsciiPreviewsAgree` | src/main.rs:312-317 | on ASCII banners the written preview is the corrected one |
| `Preview.TwoByteLength` | src/main.rs:313 | text made of 'é' takes two bytes per character |
| `Preview.MarkerWithoutTruncation` | src/main.rs:312-317 | as written, 31 × 'é' (62 bytes) is shown whole and yet followed by "..." |

## Left out

- Networking: `TcpStream::connect`, the `timeout` around it, and the socket read in `grab_banner` (src/main.rs:149, 258-264). They are I/O. Their outcomes are the inputs `ConnectOutcome` and `BannerRead`.
- UTF-8 decoding by `String::from_utf8_lossy` (src/main.rs:267). It is a library routine. The banner text arrives already decoded, and a read of n > 0 bytes is taken to decode to non-empty text.
- Concurrency: the `Semaphore` admission gate, `tokio::spawn` and `buffer_unordered` (src/main.rs:126, 140-146, 186). The bound on in-flight probes is not modelled. The completion order is an arbitrary input, and `CountPermutation` shows the counts do not depend on it.
- Clock values: `Instant` and `Duration` arithmetic (src/main.rs:151, 207). They are opaque naturals; a `u128` millisecond count never wraps in practice.
- Error messages of the `Box<dyn Error>` values. `ParseError` names the error but keeps no text. `InvalidPort` keeps the `IntErrorKind` of `u16::from_str`.
- `VecOps.Sort`, `VecOps.Dedup`, `VecOps.RetainNonZero`: the in-place `Vec` methods are library code, modelled on values. Memory layout and in-place update are not captured.
- The command line (`clap`), logging (`env_logger`, `log`), `IpAddr::from_str`, the progress bar, coloured `Display`, `println!`, and the JSON and text reports (src/main.rs:20-55, 84-136, 222-252). These are configuration and presentation. The quiet filter on printing (src/main.rs:191) changes only output.
- The spawned tasks neither panic nor get cancelled in the model's inputs, except as `TaskFailed`, which stands for a `JoinError` (src/main.rs:196).
- Worked examples on literal strings are limited to single-token specifications (`PortSpec.EmptySpecExample`, `NotANumberExample`, `TwoDashesExample`, `InvertedRangeExample`, `PortZeroExample`, `SinglePortExample`) and to three service banners. A specification with several tokens, such as "22,22,80-82,0", and a "220 " greeting banner are covered by the general lemmas but not evaluated on a literal string, because the evaluation is too costly for the verifier.

## Findings

| source | as written | input that shows it | evidently intended | confidence | as-written member | corrected member |
|---|---|---|---|---|---|---|
| src/main.rs:312-317 | the preview keeps the first 60 characters but appends "..." when `b.len()`, the length in UTF-8 bytes, exceeds 60 | a banner of 31 'é': 31 characters, 62 bytes, shown whole followed by "..." | append "..." only when characters were dropped, i.e. when the banner has more than 60 characters | medium, not executed | `Preview.PreviewAsWritten`, `Preview.MarkerWithoutTruncation` | `Preview.PreviewCorrected`, `Preview.PreviewsDifferIff` |
