# testing-farm-mcp: the job analyzer, modelled in Dafny

The Testing Farm MCP server offers two tools that look at a Testing Farm job.
`get_job_status` projects the job record onto a small status reply. `analyze_job`
classifies the job as still running, succeeded, failed or in an unknown state.
For a failed job it reads the `results.xml` artifact: it lists the failed and
errored test cases, collects the http-linked logs, and runs the failure-reason
heuristic over them. The heuristic works like this:

- read every log whose name mentions `output`, `failures`, `error` or `console`;
- then read at most three other logs;
- from each log keep the first five lines that mention a failure keyword;
- render the kept lines as "From <log>:" blocks, or give a fixed fallback sentence.

This project models that decision and text logic as pure Dafny functions and
proves what it promises. The modules are:

- `Wrappers`: the `Option` type.
- `Text`: Python's `lower`, `strip`, `in`, `split('\n')` and `'\n'.join` on strings.
- `Seqs`: filtering loops, slices, and "first n matches" loops over sequences.
- `Json`: the decoded job record and Python truthiness.
- `ResultsXml`: the two readers of the results document.
- `FailureReason`: log selection, line scan and report.
- `Jobs`: `get_job_status` and `analyze_job`.

The network and the parsers are inputs, not code:

- A log download is a lookup in a map from URL to `Option<string>`.
  A URL missing from the map is a failed download.
- The job record is the decoded JSON value. It is an empty object when the
  request or the decoding failed, which is what `get_job_status_data` returns then.
- The results document arrives parsed, as its `testcase` and `log` elements in
  document order. `None` means the download failed or returned an empty body.
  A document that does not parse is an empty document: both readers then return `[]`.
- An exception that a tool's catch-all handler turns into an error string is an
  explicit outcome: `StatusRaised` or `AnalysisRaised`.

Two facts about server.py that shape the model:

- The line scan runs forward from the first line of a log and keeps the first five
  matching lines (server.py:124-133).
- Every priority log is read before any other log (server.py:115). So the list of
  logs read is not in general a subsequence of the log list: a priority log moves
  ahead of earlier non-priority logs. `VisitOrderSelects` proves what does hold:
  - all priority logs are read, and then the first three others, or all others
    when there are fewer; `VisitOrderPriorityAt` and `VisitOrderOthersAt` give the
    place of each, so a log listed twice is read at the place of each copy;
  - the priority part and the other part each keep input order;
  - no log is read more often than it is listed.

## Model

| member | source | states |
|---|---|---|
| ResultsXml.ExtractFailedTests | server.py:62-79 | every reported test has result "failed" or "error"; every failing test case is reported; the list keeps document order |
| ResultsXml.FailedTestsAreFilter | server.py:68-75 | the failed-test list is exactly the failing test cases, converted, in document order |
| ResultsXml.FailedTestOrigin | server.py:69-75 | each reported test comes from a test case carrying that result attribute; its name is the case's name, or "Unknown Test" when the case has none; a case without a result is never reported |
| ResultsXml.ExtractLogLinks | server.py:82-96 | every listed log URL starts with "http"; every such log element is listed; the list keeps document order |
| ResultsXml.LogLinksAreFilter | server.py:88-92 | the log list is exactly the log elements whose href starts with "http", converted, in order |
| ResultsXml.LogLinkOrigin | server.py:89-92 | each listed log comes from an element carrying that href; its name is the element's name, or "unknown" when it has none; an element without an href is never listed |
| ResultsXml.ExtractionExample | server.py:68-92 | on a sample document: a passed case and a case without attributes are skipped, and a relative href and a missing href are skipped |
| FailureReason.PartitionLogs | server.py:104-112 | the loop's priority and other lists are exactly the logs whose lower-cased name does, or does not, contain a priority keyword, in order |
| FailureReason.PartitionIsComplete | server.py:107-112 | the priority and other lists together hold every log exactly once |
| FailureReason.VisitOrder | server.py:115 | the logs read number at least the priority logs and at most three more |
| FailureReason.PriorityAnyCase | server.py:108-109 | a log whose name contains a priority keyword, written in any mix of upper and lower case, is a priority log |
| FailureReason.VisitOrderSelects | server.py:115 | all priority logs are read, then min(3, number of others) other logs; the priority logs come first, then only others; every other log with fewer than three others before it is read; each part keeps input order; no log is read more often than listed |
| FailureReason.VisitOrderPriorityAt | server.py:108-115 | a priority log is read at the place given by the number of priority logs listed before it |
| FailureReason.VisitOrderOthersAt | server.py:110-115 | an other log with fewer than three others listed before it is read right after all priority logs and those earlier others, so each of the first three others keeps its own place, copies included |
| FailureReason.VisitOrderAllWhenFew | server.py:115 | with at most three other logs, every log is read |
| FailureReason.ScanErrorLines | server.py:121-133 | the forward scan that stops at the fifth error line computes the first five error lines |
| FailureReason.ErrorLines | server.py:121-133 | a log body yields at most five error lines |
| Seqs.CollectFirst | server.py:124-133 | a loop that appends the image of each matching element and stops at the n-th gives the images of the first n matches |
| FailureReason.ErrorLineAnyCase | server.py:125-130 | a line that contains an error keyword anywhere, written in any mix of upper and lower case, is an error line |
| FailureReason.ErrorLineIgnoresStrip | server.py:125-130 | stripping the line before the keyword test changes nothing, because every keyword begins and ends with a visible character |
| FailureReason.ErrorLinesBounded | server.py:131-133 | a log yields at most five error lines, in the order of its lines |
| FailureReason.ErrorLinesOrigin | server.py:124-131 | each error line is the stripped text of a line that contains an error keyword |
| FailureReason.ErrorLinesAll | server.py:124-133 | fewer than five error lines are all the error lines of the log |
| FailureReason.ErrorLineFound | server.py:124-131 | a log body with a line that contains an error keyword yields error lines |
| FailureReason.ErrorLinesSingleLine | server.py:121-131 | no error line contains a line break |
| FailureReason.ReadLog | server.py:118-133 | a failed download and an empty body give no error lines; any other body gives its error lines |
| FailureReason.LogErrorLines | server.py:118-119 | a failed download or an empty body yields no error lines, and no log yields more than five |
| FailureReason.ScanLogsIndex | server.py:117-133 | each log is read once, in visit order, and its scan is that log's error lines |
| FailureReason.DetailsEmptyIff | server.py:135-140 | there are report lines exactly when some log read yields error lines, and then the last of at least two report lines is blank |
| FailureReason.DetailsConcat | server.py:117-138 | the report lines of consecutive groups of logs are the concatenation of their report lines |
| FailureReason.DetailsSingleLine | server.py:135-138 | no report line contains a line break when no log name or error line does |
| FailureReason.FallbackIff | server.py:140-143 | the fallback sentence is returned exactly when no log that is read yields an error line |
| FailureReason.FailureReport | server.py:135-143 | the report is either the fallback sentence or ends with a line break: the blank line after the last block |
| FailureReason.ReportLines | server.py:135-141 | when no log name holds a line break, splitting a report with findings at newlines gives back its report lines: a heading, the indented lines and a blank line per log with error lines |
| FailureReason.FindFailureReason | server.py:99-143 | the partition, cap, fetch, scan and block-appending loop computes the failure report |
| Jobs.GetJobStatus | server.py:158-171 | empty or falsy job data gives the "could not retrieve" error for that job id; data that is not an object raises; otherwise the reply carries the job id, and "unknown", {}, null, null and [] for missing keys |
| Jobs.StatusCopiesFields | server.py:164-171 | a key the record carries is reported unchanged |
| Jobs.StatusReadsOnlyItsKeys | server.py:164-171 | two records that agree on the five status keys give the same reply |
| Jobs.OverallSuccessIff | server.py:203-212 | a job succeeds exactly when its result string, or its result object's "overall" entry, is "passed", "pass" or "success" |
| Jobs.OverallResult | server.py:203-207 | the overall result is a string result itself, or the "overall" entry of an object result, and "unknown" otherwise |
| Jobs.EnvironmentLines | server.py:220-225 | no environment lines exactly when environments_requested is falsy; an exception exactly when it is truthy but not a list whose first element is an object with an object or absent "os"; otherwise the first environment's arch, default "unknown", and its os.compose only when set |
| Jobs.Investigate | server.py:241-263 | there are XML findings exactly when the results document was downloaded; every failed test listed has result "failed" or "error"; a failure-details section counts at least one log |
| Jobs.AnalyzeJob | server.py:187-268 | "not retrieved" exactly for falsy job data; a running job's state is new, pending or running; an unknown state is neither waiting nor "complete"; a success carries the job's overall result, which is a success word, and the environment lines of environments_requested, which are well-formed; a failure carries the job's overall result, which is not a success word, and the findings of its artifacts; both carry the record's timestamps, "unknown" when absent |
| Jobs.AnalysisAgreesWithStatus | server.py:189-267 | analyze_job classifies by the same state and result that get_job_status reports: a waiting state means still running, "complete" with a success result means success, "complete" with any other result means failure, anything else is an unknown state |
| Jobs.OnlyFailureReadsArtifacts | server.py:240-262 | only a failed job looks at the results document and the logs |
| Jobs.InvestigationMeaning | server.py:240-262 | without a results document there are no findings; with one, the failing test cases in order, plus a failure reason exactly when some log links over http, drawn from all such logs |
| Jobs.SuccessExample | server.py:210-225 | on a sample completed job with result "passed" and one x86_64 environment: a success summary with the architecture and compose, and "unknown" timestamps |
| Text.StripSpec | server.py:131 | the stripped line is a slice of the line with only whitespace around it, and it starts and ends with a visible character |
| Text.StripUnique | server.py:131 | there is exactly one such slice, so strip is fully determined |
| Text.JoinSplit | server.py:121 | joining the pieces of a split at newlines gives back the original text |
| Text.SplitJoin | server.py:141 | splitting a join of newline-free pieces gives back the pieces |

## Left out

- The HTTP client (`fetch_content`, server.py:34-47), with its bearer-token
  header and timeout. Downloads are a given map from URL to body.
- JSON decoding (server.py:56) and ElementTree parsing (server.py:65, 85): library calls.
  The model takes their results as inputs. JSON numbers are integers; floats are not modelled.
- Configuration, logging, tool registration and transport selection
  (server.py:1-31, 274-288): plumbing with no decisions in it.
- `async`/`await`: each tool runs its steps in order, which is what the pure functions do.
- The wording of the messages. This covers the emoji, the headings of the analysis,
  and the text of caught exceptions (`str(e)`). It also covers the Python `str()`
  rendering of JSON values in the summaries. Apart from the job id (see below), the
  model keeps each message's values: the state, the overall result, the timestamps, the environment lines, the failed
  tests, the log count and the failure reason. The failure reason itself is
  modelled to the character.
- Jobs.AnalyzeJob: the job id that every analyze_job message repeats (server.py:192, 199, 212, 232, 268, 271) is not part of the outcome; it is text, and the tool copies it unchanged from its argument.
- Text.Lower: models `str.lower` on the ASCII letters only. Non-ASCII upper-case letters are left unchanged, where Python would lower them.
- Seqs.CollectFirst: requires a positive cap. server.py only ever uses five; with a cap of zero its loop would still keep one line.
- Jobs.GetJobStatus: does not model the message text of the error reply produced when reading the record raises; it only says that such a reply is given.
