/**
 The two job tools. `get_job_status` projects the job record onto a status
 reply; `analyze_job` decides from the record's `state` and `result` whether the
 job is still running, succeeded, failed or is in a state it does not know, and
 for a failed job investigates the `results.xml` artifact and the logs it links.

 The job record is what `get_job_status_data` returned: the decoded JSON reply,
 or an empty object when the request or the decoding failed. The results
 artifact is given already parsed (None when its download failed or came back
 empty), and the logs as a map from URL to downloaded body. A Python exception
 that the tools' catch-all handlers turn into an error message is an explicit
 outcome here.
 */
module Jobs {
  import opened Wrappers
  import opened Json
  import opened Seqs
  import opened ResultsXml
  import opened FailureReason

  /** States of a job that has not finished yet. */
  const WaitingStates: seq<string> := ["new", "pending", "running"]

  const CompleteState := "complete"

  /** Overall results that count as a success. */
  const SuccessResults: seq<string> := ["passed", "pass", "success"]

  const NotRetrievedText := "Could not retrieve job status for "

  /** The `state` of a job record, "unknown" when it has none. */
  function StateOf(fields: map<string, Value>): Value {
    Get(fields, "state", Str(Unknown))
  }

  /** The `result` of a job record, an empty object when it has none. */
  function JobResult(fields: map<string, Value>): Value {
    Get(fields, "result", Obj(map[]))
  }

  predicate IsWaiting(state: Value) {
    state.Str? && state.s in WaitingStates
  }

  predicate IsSuccess(overall: Value) {
    overall.Str? && overall.s in SuccessResults
  }

  // ---------------------------------------------------------------------------
  // get_job_status

  /** The status reply: the job id and five fields of the record. */
  datatype JobStatus = JobStatus(
    jobId: string,
    state: Value,
    result: Value,
    created: Value,
    updated: Value,
    environmentsRequested: Value)

  /** A status, the "could not retrieve" error, or the error reported when reading
      the record raised. */
  datatype StatusReply =
    | Status(status: JobStatus)
    | StatusError(message: string)
    | StatusRaised

  /** The keys the status reply reads from the record. */
  const StatusKeys: set<string> := {"state", "result", "created", "updated", "environments_requested"}

  /** Projects the job record onto the status reply. */
  function GetJobStatus(jobId: string, data: Value): (r: StatusReply)
    ensures r.StatusError? <==> !Truthy(data)
    ensures r.StatusError? ==> r.message == NotRetrievedText + jobId
    ensures r.StatusRaised? <==> Truthy(data) && !data.Obj?
    ensures r.Status? ==> data.Obj? && r.status.jobId == jobId
    ensures r.Status? ==>
              && ("state" !in data.fields ==> r.status.state == Str(Unknown))
              && ("result" !in data.fields ==> r.status.result == Obj(map[]))
              && ("created" !in data.fields ==> r.status.created == Null)
              && ("updated" !in data.fields ==> r.status.updated == Null)
              && ("environments_requested" !in data.fields ==> r.status.environmentsRequested == Arr([]))
  {
    if !Truthy(data) then StatusError(NotRetrievedText + jobId)
    else if !data.Obj? then StatusRaised
    else
      var f := data.fields;
      Status(JobStatus(
        jobId,
        StateOf(f),
        JobResult(f),
        Get(f, "created", Null),
        Get(f, "updated", Null),
        Get(f, "environments_requested", Arr([]))))
  }

  /** A field the record carries is reported as it is. */
  lemma StatusCopiesFields(jobId: string, data: Value)
    requires Truthy(data) && data.Obj?
    ensures var s := GetJobStatus(jobId, data).status;
            && ("state" in data.fields ==> s.state == data.fields["state"])
            && ("result" in data.fields ==> s.result == data.fields["result"])
            && ("created" in data.fields ==> s.created == data.fields["created"])
            && ("updated" in data.fields ==> s.updated == data.fields["updated"])
            && ("environments_requested" in data.fields ==> s.environmentsRequested == data.fields["environments_requested"])
  {
  }

  /** Two records that agree on the five status keys give the same reply: no other
      field of the record is looked at. */
  lemma StatusReadsOnlyItsKeys(jobId: string, a: map<string, Value>, b: map<string, Value>)
    requires a != map[] && b != map[]
    requires forall k :: k in StatusKeys ==> (k in a <==> k in b)
    requires forall k :: k in StatusKeys && k in a ==> a[k] == b[k]
    ensures GetJobStatus(jobId, Obj(a)) == GetJobStatus(jobId, Obj(b))
  {
    assert "state" in StatusKeys && "result" in StatusKeys && "created" in StatusKeys;
    assert "updated" in StatusKeys && "environments_requested" in StatusKeys;
  }

  // ---------------------------------------------------------------------------
  // analyze_job

  /** The overall result: the `overall` entry of an object result ("unknown" when it
      has none), a string result itself, "unknown" for anything else. */
  function OverallResult(result: Value): (r: Value)
    ensures result.Str? ==> r == result
    ensures result.Obj? && "overall" in result.fields ==> r == result.fields["overall"]
    ensures !result.Str? && !(result.Obj? && "overall" in result.fields) ==> r == Str(Unknown)
  {
    match result
    case Obj(fields) => Get(fields, "overall", Str(Unknown))
    case Str(_) => result
    case _ => Str(Unknown)
  }

  /** A job succeeded exactly when its result, or the `overall` entry of its result,
      is one of the success words. */
  lemma OverallSuccessIff(result: Value)
    ensures IsSuccess(OverallResult(result)) <==>
            || (result.Str? && result.s in SuccessResults)
            || (result.Obj? && "overall" in result.fields && IsSuccess(result.fields["overall"]))
  {
    assert Unknown !in SuccessResults by {
      assert Unknown[0] == 'u';
      assert SuccessResults[0][0] == 'p' && SuccessResults[1][0] == 'p' && SuccessResults[2][0] == 's';
    }
  }

  /** The Architecture and OS lines of a success summary: none, the architecture with
      the compose when it is set, or an exception from an ill-shaped environment. */
  datatype EnvLines =
    | NoEnvLines
    | EnvLines(arch: Value, compose: Option<Value>)
    | EnvRaised

  /** Reads the first requested environment. Indexing anything but a list, or reading
      a key of anything but an object, raises in server.py. */
  function EnvironmentLines(environments: Value): (r: EnvLines)
    ensures r.NoEnvLines? <==> !Truthy(environments)
    ensures r.EnvRaised? <==>
              && Truthy(environments)
              && !(&& environments.Arr?
                   && environments.items[0].Obj?
                   && Get(environments.items[0].fields, "os", Obj(map[])).Obj?)
    ensures r.EnvLines? ==>
              && environments.Arr? && |environments.items| > 0
              && var env := environments.items[0];
                 && env.Obj?
                 && r.arch == Get(env.fields, "arch", Str(Unknown))
                 && var os := Get(env.fields, "os", Obj(map[]));
                    && os.Obj?
                    && (r.compose.Some? <==> "compose" in os.fields && Truthy(os.fields["compose"]))
                    && (r.compose.Some? ==> r.compose.value == os.fields["compose"])
  {
    if !Truthy(environments) then NoEnvLines
    else if !environments.Arr? then EnvRaised
    else
      var env := environments.items[0];
      if !env.Obj? then EnvRaised
      else
        var os := Get(env.fields, "os", Obj(map[]));
        if !os.Obj? then EnvRaised
        else
          var compose := Get(os.fields, "compose", Null);
          EnvLines(Get(env.fields, "arch", Str(Unknown)), if Truthy(compose) then Some(compose) else None)
  }

  /** The facts of a success summary. */
  datatype Summary = Summary(overall: Value, created: Value, updated: Value, env: EnvLines)

  /** The log part of a failure analysis. */
  datatype LogFindings =
    | NoDetailedLogs
    | FailureDetails(logCount: nat, reason: string)

  /** The artifact part of a failure analysis. */
  datatype Findings =
    | NoXmlResults
    | XmlResults(failedTests: seq<FailedTest>, logs: LogFindings)

  /** The facts of a failure analysis. */
  datatype FailureAnalysis = FailureAnalysis(overall: Value, created: Value, updated: Value, findings: Findings)

  /** What `analyze_job` reports. */
  datatype Analysis =
    | NotRetrieved
    | StillRunning(waitingState: string)
    | Succeeded(summary: Summary)
    | Failed(failure: FailureAnalysis)
    | UnknownState(unknownState: Value)
    | AnalysisRaised

  /** The investigation of a failed job: the failed tests and, when the artifact
      links any logs, the failure reason found in them. */
  function Investigate(results: Option<ResultsDoc>, responses: Responses): (r: Findings)
    ensures r.NoXmlResults? <==> results.None?
    ensures r.XmlResults? ==> forall n :: 0 <= n < |r.failedTests| ==> r.failedTests[n].result in FailedResults
    ensures r.XmlResults? && r.logs.FailureDetails? ==> r.logs.logCount > 0
  {
    match results
    case None => NoXmlResults
    case Some(doc) =>
      var links := ExtractLogLinks(doc.logs);
      XmlResults(
        ExtractFailedTests(doc.testcases),
        if links == [] then NoDetailedLogs else FailureDetails(|links|, FailureReport(links, responses)))
  }

  /** Analyzes a job record. */
  function AnalyzeJob(data: Value, results: Option<ResultsDoc>, responses: Responses): (r: Analysis)
    ensures r.NotRetrieved? <==> !Truthy(data)
    ensures r.StillRunning? ==> r.waitingState in WaitingStates
    ensures r.UnknownState? ==> !IsWaiting(r.unknownState) && r.unknownState != Str(CompleteState)
    ensures r.Succeeded? ==>
              && data.Obj? && IsSuccess(r.summary.overall) && !r.summary.env.EnvRaised?
              && r.summary.overall == OverallResult(JobResult(data.fields))
              && r.summary.env == EnvironmentLines(Get(data.fields, "environments_requested", Arr([])))
              && r.summary.created == Get(data.fields, "created", Str(Unknown))
              && r.summary.updated == Get(data.fields, "updated", Str(Unknown))
    ensures r.Failed? ==>
              && data.Obj? && !IsSuccess(r.failure.overall)
              && r.failure.overall == OverallResult(JobResult(data.fields))
              && r.failure.created == Get(data.fields, "created", Str(Unknown))
              && r.failure.updated == Get(data.fields, "updated", Str(Unknown))
              && r.failure.findings == Investigate(results, responses)
  {
    if !Truthy(data) then NotRetrieved
    else if !data.Obj? then AnalysisRaised
    else
      var f := data.fields;
      var state := StateOf(f);
      if IsWaiting(state) then StillRunning(state.s)
      else if state == Str(CompleteState) then
        var overall := OverallResult(JobResult(f));
        var created := Get(f, "created", Str(Unknown));
        var updated := Get(f, "updated", Str(Unknown));
        if IsSuccess(overall) then
          var env := EnvironmentLines(Get(f, "environments_requested", Arr([])));
          if env.EnvRaised? then AnalysisRaised
          else Succeeded(Summary(overall, created, updated, env))
        else
          Failed(FailureAnalysis(overall, created, updated, Investigate(results, responses)))
      else UnknownState(state)
  }

  /** The analysis classifies the job by the same state and result the status reply
      shows: it fails to retrieve exactly when the status does, and otherwise a
      waiting state means still running, "complete" with a success result means
      success (unless the environment is ill-shaped), "complete" with any other
      result means failure, and any other state is unknown. */
  lemma AnalysisAgreesWithStatus(jobId: string, data: Value, results: Option<ResultsDoc>, responses: Responses)
    ensures var a := AnalyzeJob(data, results, responses);
            var r := GetJobStatus(jobId, data);
            && (a.NotRetrieved? <==> r.StatusError?)
            && (r.StatusRaised? ==> a.AnalysisRaised?)
            && (r.Status? ==>
                  var s := r.status;
                  var complete := s.state == Str(CompleteState);
                  var success := IsSuccess(OverallResult(s.result));
                  && (a.StillRunning? <==> IsWaiting(s.state))
                  && (a.StillRunning? ==> a.waitingState == s.state.s)
                  && (a.Succeeded? <==> complete && success && !EnvironmentLines(s.environmentsRequested).EnvRaised?)
                  && (a.Failed? <==> complete && !success)
                  && (a.AnalysisRaised? <==> complete && success && EnvironmentLines(s.environmentsRequested).EnvRaised?)
                  && (a.UnknownState? <==> !IsWaiting(s.state) && !complete)
                  && (a.UnknownState? ==> a.unknownState == s.state))
  {
    assert !IsWaiting(Str(CompleteState)) by {
      assert CompleteState[0] == 'c';
      assert WaitingStates[0][0] == 'n' && WaitingStates[1][0] == 'p' && WaitingStates[2][0] == 'r';
    }
  }

  /** Only a failed job looks at the artifacts: every other outcome is the same
      whatever the results document and the logs hold. */
  lemma OnlyFailureReadsArtifacts(data: Value, results: Option<ResultsDoc>, responses: Responses,
                                  results': Option<ResultsDoc>, responses': Responses)
    ensures AnalyzeJob(data, results, responses).Failed? == AnalyzeJob(data, results', responses').Failed?
    ensures !AnalyzeJob(data, results, responses).Failed? ==>
              AnalyzeJob(data, results, responses) == AnalyzeJob(data, results', responses')
  {
  }

  /** What a failure investigation holds: without a results document, nothing; with
      one, exactly the failing test cases in order, and a failure reason exactly when
      some log element links over http, drawn from all such logs. */
  lemma InvestigationMeaning(results: Option<ResultsDoc>, responses: Responses)
    ensures results.None? <==> Investigate(results, responses).NoXmlResults?
    ensures results.Some? ==>
              var doc := results.value;
              var found := Investigate(results, responses);
              && found.failedTests == Map(AsFailedTest, Filter(IsFailed, doc.testcases))
              && (found.logs.NoDetailedLogs? <==> forall n :: 0 <= n < |doc.logs| ==> !HasHttpHref(doc.logs[n]))
              && (found.logs.FailureDetails? ==>
                    && found.logs.logCount == |Filter(HasHttpHref, doc.logs)|
                    && found.logs.reason == FailureReport(ExtractLogLinks(doc.logs), responses))
  {
    if results.Some? {
      var doc := results.value;
      FailedTestsAreFilter(doc.testcases);
      LogLinksAreFilter(doc.logs);
      FilterEmptyIff(HasHttpHref, doc.logs);
    }
  }

  /** A finished job whose result object says "passed", with one requested x86_64
      environment on a named compose: a success summary with both environment lines,
      and "unknown" for the missing timestamps. */
  lemma SuccessExample(results: Option<ResultsDoc>, responses: Responses)
    ensures AnalyzeJob(
              Obj(map[
                "state" := Str("complete"),
                "result" := Obj(map["overall" := Str("passed")]),
                "environments_requested" := Arr([Obj(map["arch" := Str("x86_64"), "os" := Obj(map["compose" := Str("Fedora-39")])])])]),
              results, responses)
            == Succeeded(Summary(Str("passed"), Str(Unknown), Str(Unknown), EnvLines(Str("x86_64"), Some(Str("Fedora-39")))))
  {
    var env := Obj(map["arch" := Str("x86_64"), "os" := Obj(map["compose" := Str("Fedora-39")])]);
    var f := map[
      "state" := Str("complete"),
      "result" := Obj(map["overall" := Str("passed")]),
      "environments_requested" := Arr([env])];
    assert "created" !in f by {
      assert "created"[0] == 'c' && "state"[0] == 's' && "result"[0] == 'r' && "environments_requested"[0] == 'e';
      assert "created"[1] == 'r' && "complete"[1] == 'o';
    }
    assert "updated" !in f by {
      assert "updated"[0] == 'u' && "state"[0] == 's' && "result"[0] == 'r' && "environments_requested"[0] == 'e';
    }
    assert !IsWaiting(Str("complete")) by {
      assert "complete"[0] == 'c';
      assert WaitingStates[0][0] == 'n' && WaitingStates[1][0] == 'p' && WaitingStates[2][0] == 'r';
    }
    assert IsSuccess(Str("passed"));
    assert "state" in f && f != map[];
    assert StateOf(f) == Str("complete");
    assert OverallResult(JobResult(f)) == Str("passed");
    assert EnvironmentLines(Arr([env])) == EnvLines(Str("x86_64"), Some(Str("Fedora-39")));
  }
}
