/**
 The failure-reason heuristic: choose which logs of a failed job to download,
 pick the lines of each that look like an error, and render them as a report.
 The log server is a map from URL to the body a GET returned (None when the
 request failed); a URL missing from the map fails too.
 */
module FailureReason {
  import opened Wrappers
  import opened Text
  import opened Seqs
  import opened ResultsXml

  /** A log whose lower-cased name contains one of these is always read. */
  const PriorityKeywords: seq<string> := ["output", "failures", "error", "console"]

  /** A line whose lower-cased, stripped text contains one of these is an error line. */
  const ErrorKeywords: seq<string> :=
    [ "error:", "fail", "exception", "traceback", "fatal",
      "not found", "permission denied", "connection refused",
      "timeout", "aborted", "killed" ]

  /** At most this many non-priority logs are read. */
  const MaxOtherLogs: nat := 3

  /** At most this many error lines are kept per log. */
  const MaxErrorLines: nat := 5

  /** The answer when no read log yields an error line. */
  const NoDetails := "No specific failure details found in available logs."

  const Newline := '\n'

  /** What the log server answers, by URL. */
  type Responses = map<string, Option<string>>

  function Fetch(responses: Responses, url: string): Option<string> {
    if url in responses then responses[url] else None
  }

  // ---------------------------------------------------------------------------
  // Choosing the logs to read

  predicate IsPriority(log: LogLink) {
    ContainsAny(Lower(log.name), PriorityKeywords)
  }

  predicate IsOther(log: LogLink) {
    !IsPriority(log)
  }

  /** The logs read, in reading order: every priority log, then the first three others. */
  function VisitOrder(logs: seq<LogLink>): (v: seq<LogLink>)
    ensures |Filter(IsPriority, logs)| <= |v| <= |Filter(IsPriority, logs)| + MaxOtherLogs
  {
    Filter(IsPriority, logs) + Take(Filter(IsOther, logs), MaxOtherLogs)
  }

  /** A priority keyword written in any case in the log name makes it a priority log. */
  lemma PriorityAnyCase(log: LogLink, k: string)
    requires Lower(k) in PriorityKeywords && Contains(log.name, k)
    ensures IsPriority(log)
  {
    ContainsLower(log.name, k);
    ContainsAnyMember(Lower(log.name), PriorityKeywords, Lower(k));
  }

  /** The split into priority and other logs, one log at a time. */
  method PartitionLogs(logs: seq<LogLink>) returns (priority: seq<LogLink>, other: seq<LogLink>)
    ensures priority == Filter(IsPriority, logs)
    ensures other == Filter(IsOther, logs)
  {
    priority, other := [], [];
    var i := 0;
    while i < |logs|
      invariant 0 <= i <= |logs|
      invariant priority == Filter(IsPriority, logs[..i])
      invariant other == Filter(IsOther, logs[..i])
    {
      var log := logs[i];
      PrefixSnoc(logs, i);
      FilterSnoc(IsPriority, logs[..i], log);
      FilterSnoc(IsOther, logs[..i], log);
      if IsPriority(log) {
        priority := priority + [log];
      } else {
        other := other + [log];
      }
      i := i + 1;
    }
    assert logs[..i] == logs;
  }

  /** Priority and other logs together are the input logs, each exactly once. */
  lemma PartitionIsComplete(logs: seq<LogLink>)
    ensures multiset(Filter(IsPriority, logs)) + multiset(Filter(IsOther, logs)) == multiset(logs)
  {
    FilterSplitsMultiset(IsPriority, IsOther, logs);
  }

  /** What is read: all priority logs first and none dropped, then at most three
      other logs, each part in input order, and no log more often than it is listed. */
  lemma VisitOrderSelects(logs: seq<LogLink>)
    ensures var v := VisitOrder(logs);
            var p := |Filter(IsPriority, logs)|;
            var o := |Filter(IsOther, logs)|;
            && |v| == p + (if o < MaxOtherLogs then o else MaxOtherLogs)
            && (forall n :: 0 <= n < |v| ==> (IsPriority(v[n]) <==> n < p))
            && (forall n :: 0 <= n < |logs| && IsPriority(logs[n]) ==> logs[n] in v)
            && (forall n :: 0 <= n < |logs| && IsOther(logs[n]) && |Filter(IsOther, logs[..n])| < MaxOtherLogs ==> logs[n] in v)
            && IsSubseq(v[..p], logs)
            && IsSubseq(v[p..], logs)
            && multiset(v) <= multiset(logs)
  {
    var prio := Filter(IsPriority, logs);
    var others := Filter(IsOther, logs);
    var t := Take(others, MaxOtherLogs);
    var v := VisitOrder(logs);
    var p := |prio|;
    assert v[..p] == prio && v[p..] == t;
    FilterMembers(IsPriority, logs);
    FilterMembers(IsOther, logs);
    forall n | 0 <= n < |v|
      ensures IsPriority(v[n]) <==> n < p
    {
      if n < p {
        assert v[n] == prio[n] && prio[n] in prio;
      } else {
        assert v[n] == t[n - p] == others[n - p] && others[n - p] in others;
      }
    }
    forall n | 0 <= n < |logs| && IsPriority(logs[n])
      ensures logs[n] in v
    {
      FilterKeeps(IsPriority, logs, logs[n]);
    }
    forall n | 0 <= n < |logs| && IsOther(logs[n]) && |Filter(IsOther, logs[..n])| < MaxOtherLogs
      ensures logs[n] in v
    {
      FilterRank(IsOther, logs, n);
      var j := |Filter(IsOther, logs[..n])|;
      assert v[p + j] == t[j] == others[j] == logs[n];
    }
    FilterIsSubseq(IsPriority, logs);
    FilterIsSubseq(IsOther, logs);
    PrefixIsSubseq(others, |t|);
    SubseqTransitive(t, others, logs);
    SubseqMultiset(t, others);
    PartitionIsComplete(logs);
  }

  /** Where a priority log is read: after exactly the priority logs listed before it. */
  lemma VisitOrderPriorityAt(logs: seq<LogLink>, n: nat)
    requires n < |logs| && IsPriority(logs[n])
    ensures var k := |Filter(IsPriority, logs[..n])|;
            k < |VisitOrder(logs)| && VisitOrder(logs)[k] == logs[n]
  {
    FilterRank(IsPriority, logs, n);
  }

  /** Where one of the first three other logs is read: after all priority logs and
      exactly the other logs listed before it. With a log listed twice, this fixes
      which copy takes which of the three places. */
  lemma VisitOrderOthersAt(logs: seq<LogLink>, n: nat)
    requires n < |logs| && IsOther(logs[n]) && |Filter(IsOther, logs[..n])| < MaxOtherLogs
    ensures var k := |Filter(IsPriority, logs)| + |Filter(IsOther, logs[..n])|;
            k < |VisitOrder(logs)| && VisitOrder(logs)[k] == logs[n]
  {
    FilterRank(IsOther, logs, n);
  }

  /** With at most three other logs, every log is read. */
  lemma VisitOrderAllWhenFew(logs: seq<LogLink>)
    requires |Filter(IsOther, logs)| <= MaxOtherLogs
    ensures multiset(VisitOrder(logs)) == multiset(logs)
  {
    PartitionIsComplete(logs);
  }

  // ---------------------------------------------------------------------------
  // Picking error lines out of one log

  /** A line is an error line when its lower-cased, stripped text contains an error keyword. */
  predicate IsErrorLine(line: string) {
    ContainsAny(Strip(Lower(line)), ErrorKeywords)
  }

  /** The error lines of a log body: the first five lines, in order, that are error
      lines, each with its surrounding whitespace removed. */
  function ErrorLines(content: string): (r: seq<string>)
    ensures |r| <= MaxErrorLines
  {
    FirstMatches(IsErrorLine, Strip, Split(content, Newline), MaxErrorLines)
  }

  /** The scan over the lines of one log body, stopping at the fifth error line. */
  method ScanErrorLines(content: string) returns (found: seq<string>)
    ensures found == ErrorLines(content)
  {
    var lines := Split(content, Newline);
    found := CollectFirst(IsErrorLine, Strip, lines, MaxErrorLines);
  }

  /** An error keyword written in any case, anywhere in the line, makes it an error line. */
  lemma ErrorLineAnyCase(line: string, k: string)
    requires Lower(k) in ErrorKeywords && Contains(line, k)
    ensures IsErrorLine(line)
  {
    ContainsLower(line, k);
    ContainsAnyMember(Lower(line), ErrorKeywords, Lower(k));
    ErrorLineIgnoresStrip(line);
  }

  /** Stripping before the keyword test makes no difference: every error keyword
      begins and ends with a visible character. */
  lemma ErrorLineIgnoresStrip(line: string)
    ensures IsErrorLine(line) <==> ContainsAny(Lower(line), ErrorKeywords)
  {
    forall n | 0 <= n < |ErrorKeywords|
      ensures Trimmed(ErrorKeywords[n])
    {
    }
    ContainsAnyIgnoresStrip(Lower(line), ErrorKeywords);
  }

  /** At most five error lines, in the order of the body's lines. */
  lemma ErrorLinesBounded(content: string)
    ensures |ErrorLines(content)| <= MaxErrorLines
    ensures IsSubseq(ErrorLines(content), Map(Strip, Split(content, Newline)))
  {
    FirstMatchesBounded(IsErrorLine, Strip, Split(content, Newline), MaxErrorLines);
  }

  /** Each error line is the stripped text of a line of the body that is an error line. */
  lemma ErrorLinesOrigin(content: string, n: nat) returns (j: nat)
    requires n < |ErrorLines(content)|
    ensures j < |Split(content, Newline)|
    ensures IsErrorLine(Split(content, Newline)[j])
    ensures ErrorLines(content)[n] == Strip(Split(content, Newline)[j])
  {
    j := FirstMatchesOrigin(IsErrorLine, Strip, Split(content, Newline), MaxErrorLines, n);
  }

  /** Fewer than five error lines are all the error lines of the body. */
  lemma ErrorLinesAll(content: string)
    requires |ErrorLines(content)| < MaxErrorLines
    ensures ErrorLines(content) == Map(Strip, Filter(IsErrorLine, Split(content, Newline)))
  {
    FirstMatchesAll(IsErrorLine, Strip, Split(content, Newline), MaxErrorLines);
  }

  /** A body with an error line has error lines: with the origin lemma, a log yields
      error lines exactly when its body has an error line. */
  lemma ErrorLineFound(content: string, j: nat)
    requires j < |Split(content, Newline)| && IsErrorLine(Split(content, Newline)[j])
    ensures ErrorLines(content) != []
  {
    FirstMatchesFound(IsErrorLine, Strip, Split(content, Newline), MaxErrorLines, j);
  }

  /** No error line spans a line break. */
  lemma ErrorLinesSingleLine(content: string)
    ensures forall n :: 0 <= n < |ErrorLines(content)| ==> Newline !in ErrorLines(content)[n]
  {
    var lines := Split(content, Newline);
    var r := ErrorLines(content);
    forall n | 0 <= n < |r|
      ensures Newline !in r[n]
    {
      var j := ErrorLinesOrigin(content, n);
      StripKeepsOut(lines[j], Newline);
    }
  }

  /** The error lines of one log: none when the fetch failed or returned an empty body. */
  function LogErrorLines(responses: Responses, log: LogLink): (r: seq<string>)
    ensures Fetch(responses, log.url) in {None, Some("")} ==> r == []
    ensures |r| <= MaxErrorLines
  {
    match Fetch(responses, log.url)
    case None => []
    case Some(body) => if body == "" then [] else ErrorLines(body)
  }

  /** One fetch and, when it brought a non-empty body, one scan. */
  method ReadLog(responses: Responses, log: LogLink) returns (found: seq<string>)
    ensures found == LogErrorLines(responses, log)
  {
    var content := Fetch(responses, log.url);
    found := [];
    if content.Some? && content.value != "" {
      found := ScanErrorLines(content.value);
    }
  }

  /** A log that was read, with the error lines found in it. */
  datatype LogScan = LogScan(log: LogLink, errorLines: seq<string>)

  /** Reading each log in turn. */
  function ScanLogs(visits: seq<LogLink>, responses: Responses): (scans: seq<LogScan>)
    ensures |scans| == |visits|
    decreases |visits|
  {
    if |visits| == 0 then []
    else [LogScan(visits[0], LogErrorLines(responses, visits[0]))] + ScanLogs(visits[1..], responses)
  }

  /** Each scan is of the log at the same place. */
  lemma {:induction false} ScanLogsIndex(visits: seq<LogLink>, responses: Responses)
    ensures forall n :: 0 <= n < |visits| ==>
              ScanLogs(visits, responses)[n] == LogScan(visits[n], LogErrorLines(responses, visits[n]))
    decreases |visits|
  {
    if |visits| > 0 {
      ScanLogsIndex(visits[1..], responses);
      assert forall n :: 1 <= n < |visits| ==> ScanLogs(visits, responses)[n] == ScanLogs(visits[1..], responses)[n - 1];
    }
  }

  lemma {:induction false} ScanLogsSnoc(visits: seq<LogLink>, log: LogLink, responses: Responses)
    ensures ScanLogs(visits + [log], responses) == ScanLogs(visits, responses) + [LogScan(log, LogErrorLines(responses, log))]
    decreases |visits|
  {
    if |visits| > 0 {
      assert (visits + [log])[1..] == visits[1..] + [log];
      ScanLogsSnoc(visits[1..], log, responses);
    } else {
      assert [] + [log] == [log];
    }
  }

  /** No scan holds a line break when no log name does. */
  lemma ScanLogsSingleLine(visits: seq<LogLink>, responses: Responses)
    requires forall n :: 0 <= n < |visits| ==> Newline !in visits[n].name
    ensures forall n :: 0 <= n < |visits| ==> SingleLineScan(ScanLogs(visits, responses)[n])
  {
    ScanLogsIndex(visits, responses);
    forall n | 0 <= n < |visits|
      ensures SingleLineScan(ScanLogs(visits, responses)[n])
    {
      match Fetch(responses, visits[n].url)
      case None =>
      case Some(body) => ErrorLinesSingleLine(body);
    }
  }

  // ---------------------------------------------------------------------------
  // The report

  function Indent(line: string): string {
    "  " + line
  }

  /** The report lines for one log with error lines: a heading, the indented lines, a
      blank line. */
  function Block(log: LogLink, lines: seq<string>): seq<string> {
    ["From " + log.name + ":"] + Map(Indent, lines) + [""]
  }

  /** The report lines of the logs read, in reading order; a log without error lines
      contributes nothing. */
  function Details(scans: seq<LogScan>): seq<string>
    decreases |scans|
  {
    if |scans| == 0 then []
    else
      var s := scans[0];
      (if s.errorLines == [] then [] else Block(s.log, s.errorLines)) + Details(scans[1..])
  }

  /** The report of a failed job: its report lines joined by newlines, or the fixed
      fallback text when there are none. */
  function FailureReport(logs: seq<LogLink>, responses: Responses): (r: string)
    ensures r == NoDetails || (|r| > 0 && r[|r| - 1] == Newline)
  {
    var details := Details(ScanLogs(VisitOrder(logs), responses));
    if details == [] then NoDetails
    else
      DetailsEmptyIff(ScanLogs(VisitOrder(logs), responses));
      JoinEndsWithSep(details, [Newline]);
      Join(details, [Newline])
  }

  /** The report of consecutive groups of logs is the concatenation of their reports. */
  lemma {:induction false} DetailsConcat(a: seq<LogScan>, b: seq<LogScan>)
    ensures Details(a + b) == Details(a) + Details(b)
    decreases |a|
  {
    if |a| > 0 {
      assert (a + b)[1..] == a[1..] + b;
      DetailsConcat(a[1..], b);
    } else {
      assert a + b == b;
    }
  }

  /** The report lines of one more log. */
  lemma DetailsSnoc(scans: seq<LogScan>, s: LogScan)
    ensures Details(scans + [s]) == Details(scans) + (if s.errorLines == [] then [] else Block(s.log, s.errorLines))
  {
    DetailsConcat(scans, [s]);
    assert [s][1..] == [];
  }

  /** There are report lines exactly when some log read has error lines, and then the
      last of at least two report lines is blank. */
  lemma {:induction false} DetailsEmptyIff(scans: seq<LogScan>)
    ensures Details(scans) == [] <==> forall n :: 0 <= n < |scans| ==> scans[n].errorLines == []
    ensures Details(scans) != [] ==> |Details(scans)| >= 2 && Details(scans)[|Details(scans)| - 1] == ""
    decreases |scans|
  {
    if |scans| > 0 {
      DetailsEmptyIff(scans[1..]);
      assert forall n :: 1 <= n < |scans| ==> scans[n] == scans[1..][n - 1];
    }
  }

  /** A scan whose log name and error lines hold no line break. */
  predicate SingleLineScan(s: LogScan) {
    && Newline !in s.log.name
    && forall k :: 0 <= k < |s.errorLines| ==> Newline !in s.errorLines[k]
  }

  /** No report line spans a line break when no scanned log name or error line does. */
  lemma {:induction false} DetailsSingleLine(scans: seq<LogScan>)
    requires forall n :: 0 <= n < |scans| ==> SingleLineScan(scans[n])
    ensures forall n :: 0 <= n < |Details(scans)| ==> Newline !in Details(scans)[n]
    decreases |scans|
  {
    if |scans| > 0 {
      DetailsSingleLine(scans[1..]);
      var s := scans[0];
      assert SingleLineScan(s);
      if s.errorLines != [] {
        var block := Block(s.log, s.errorLines);
        MapIndex(Indent, s.errorLines);
        forall n | 0 <= n < |block|
          ensures Newline !in block[n]
        {
          if 0 < n < |block| - 1 {
            assert block[n] == "  " + s.errorLines[n - 1];
          }
        }
      }
    }
  }

  /** The fallback text comes back exactly when no log that is read yields an error line. */
  lemma FallbackIff(logs: seq<LogLink>, responses: Responses)
    ensures var v := VisitOrder(logs);
            FailureReport(logs, responses) == NoDetails <==>
            forall n :: 0 <= n < |v| ==> LogErrorLines(responses, v[n]) == []
  {
    var v := VisitOrder(logs);
    var scans := ScanLogs(v, responses);
    var details := Details(scans);
    ScanLogsIndex(v, responses);
    DetailsEmptyIff(scans);
    if details != [] {
      JoinEndsWithSep(details, [Newline]);
      assert NoDetails[|NoDetails| - 1] == '.';
    }
  }

  /** A report with findings reads back, line by line, as its report lines. */
  lemma ReportLines(logs: seq<LogLink>, responses: Responses)
    requires forall n :: 0 <= n < |logs| ==> Newline !in logs[n].name
    requires FailureReport(logs, responses) != NoDetails
    ensures Split(FailureReport(logs, responses), Newline) == Details(ScanLogs(VisitOrder(logs), responses))
  {
    var v := VisitOrder(logs);
    forall n | 0 <= n < |v|
      ensures Newline !in v[n].name
    {
      VisitOrderSelects(logs);
      assert v[n] in multiset(logs);
    }
    ScanLogsSingleLine(v, responses);
    var scans := ScanLogs(v, responses);
    DetailsSingleLine(scans);
    SplitJoin(Details(scans), Newline);
  }

  /** The report as server.py builds it: partition, cap, then one fetch and scan per
      log, appending a block for each log with error lines. */
  method FindFailureReason(logs: seq<LogLink>, responses: Responses) returns (reason: string)
    ensures reason == FailureReport(logs, responses)
  {
    var priority, other := PartitionLogs(logs);
    var visits := priority + Take(other, MaxOtherLogs);
    var details: seq<string> := [];
    var i := 0;
    while i < |visits|
      invariant 0 <= i <= |visits|
      invariant details == Details(ScanLogs(visits[..i], responses))
    {
      var log := visits[i];
      PrefixSnoc(visits, i);
      ScanLogsSnoc(visits[..i], log, responses);
      var found := ReadLog(responses, log);
      DetailsSnoc(ScanLogs(visits[..i], responses), LogScan(log, found));
      if found != [] {
        details := details + Block(log, found);
      }
      i := i + 1;
    }
    assert visits[..i] == visits;
    if details != [] {
      reason := Join(details, [Newline]);
    } else {
      reason := NoDetails;
    }
  }
}
