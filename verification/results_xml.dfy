/**
 The two readers of a job's `results.xml` artifact. The document arrives already
 parsed: the `testcase` and `log` elements in document order, each with the
 attributes it carries. A document that does not parse is an empty one.
 */
module ResultsXml {
  import opened Wrappers
  import opened Text
  import opened Seqs

  /** A `<testcase>` element: its `name` and `result` attributes, when present. */
  datatype TestCase = TestCase(name: Option<string>, result: Option<string>)

  /** A `<log>` element: its `href` and `name` attributes, when present. */
  datatype LogElement = LogElement(href: Option<string>, name: Option<string>)

  /** The elements of a parsed results document, each kind in document order. */
  datatype ResultsDoc = ResultsDoc(testcases: seq<TestCase>, logs: seq<LogElement>)

  /** One entry of the failed-test list. */
  datatype FailedTest = FailedTest(name: string, result: string)

  /** One downloadable log: its display name and URL. */
  datatype LogLink = LogLink(name: string, url: string)

  /** The `result` attribute values that count as a failure. */
  const FailedResults: seq<string> := ["failed", "error"]

  /** The default the tools put in place of a missing attribute or field. */
  const Unknown := "unknown"
  const UnknownTest := "Unknown Test"
  const LinkScheme := "http"

  function ResultOf(t: TestCase): string {
    t.result.GetOr(Unknown)
  }

  predicate IsFailed(t: TestCase) {
    ResultOf(t) in FailedResults
  }

  function AsFailedTest(t: TestCase): FailedTest {
    FailedTest(t.name.GetOr(UnknownTest), ResultOf(t))
  }

  /** The failed and errored test cases, in document order. */
  function ExtractFailedTests(cases: seq<TestCase>): (r: seq<FailedTest>)
    ensures forall n :: 0 <= n < |r| ==> r[n].result in FailedResults
    ensures forall n :: 0 <= n < |cases| && IsFailed(cases[n]) ==> AsFailedTest(cases[n]) in r
    ensures IsSubseq(r, Map(AsFailedTest, cases))
  {
    if |cases| == 0 then []
    else
      var rest := ExtractFailedTests(cases[1..]);
      var all := Map(AsFailedTest, cases);
      assert all[1..] == Map(AsFailedTest, cases[1..]);
      if IsFailed(cases[0]) then
        var r := [AsFailedTest(cases[0])] + rest;
        assert r[1..] == rest;
        r
      else
        rest
  }

  /** The failed-test list is exactly the failing test cases, converted, in order. */
  lemma {:induction false} FailedTestsAreFilter(cases: seq<TestCase>)
    ensures ExtractFailedTests(cases) == Map(AsFailedTest, Filter(IsFailed, cases))
    decreases |cases|
  {
    if |cases| > 0 {
      FailedTestsAreFilter(cases[1..]);
      assert cases == [cases[0]] + cases[1..];
      FilterConcat(IsFailed, [cases[0]], cases[1..]);
      MapConcat(AsFailedTest, Filter(IsFailed, [cases[0]]), Filter(IsFailed, cases[1..]));
    }
  }

  /** Each reported test comes from a test case that carries that `result` attribute;
      its name is the case's `name` attribute, or "Unknown Test" when it has none. */
  lemma {:induction false} FailedTestOrigin(cases: seq<TestCase>, n: nat) returns (m: nat)
    requires n < |ExtractFailedTests(cases)|
    ensures m < |cases|
    ensures cases[m].result == Some(ExtractFailedTests(cases)[n].result)
    ensures ExtractFailedTests(cases)[n].name == cases[m].name.GetOr(UnknownTest)
    decreases |cases|
  {
    if IsFailed(cases[0]) && n == 0 {
      m := 0;
    } else {
      var k := if IsFailed(cases[0]) then n - 1 else n;
      var m' := FailedTestOrigin(cases[1..], k);
      m := m' + 1;
    }
  }

  function HrefOf(e: LogElement): string {
    e.href.GetOr("")
  }

  predicate HasHttpHref(e: LogElement) {
    StartsWith(HrefOf(e), LinkScheme)
  }

  function AsLogLink(e: LogElement): LogLink {
    LogLink(e.name.GetOr(Unknown), HrefOf(e))
  }

  /** The log elements whose `href` starts with "http", in document order. */
  function ExtractLogLinks(elements: seq<LogElement>): (r: seq<LogLink>)
    ensures forall n :: 0 <= n < |r| ==> StartsWith(r[n].url, LinkScheme)
    ensures forall n :: 0 <= n < |elements| && HasHttpHref(elements[n]) ==> AsLogLink(elements[n]) in r
    ensures IsSubseq(r, Map(AsLogLink, elements))
  {
    if |elements| == 0 then []
    else
      var rest := ExtractLogLinks(elements[1..]);
      var all := Map(AsLogLink, elements);
      assert all[1..] == Map(AsLogLink, elements[1..]);
      if HasHttpHref(elements[0]) then
        var r := [AsLogLink(elements[0])] + rest;
        assert r[1..] == rest;
        r
      else
        rest
  }

  /** The log list is exactly the http-linked log elements, converted, in order. */
  lemma {:induction false} LogLinksAreFilter(elements: seq<LogElement>)
    ensures ExtractLogLinks(elements) == Map(AsLogLink, Filter(HasHttpHref, elements))
    decreases |elements|
  {
    if |elements| > 0 {
      LogLinksAreFilter(elements[1..]);
      assert elements == [elements[0]] + elements[1..];
      FilterConcat(HasHttpHref, [elements[0]], elements[1..]);
      MapConcat(AsLogLink, Filter(HasHttpHref, [elements[0]]), Filter(HasHttpHref, elements[1..]));
    }
  }

  /** Each listed log comes from a log element that carries that `href` attribute;
      its name is the element's `name` attribute, or "unknown" when it has none. */
  lemma {:induction false} LogLinkOrigin(elements: seq<LogElement>, n: nat) returns (m: nat)
    requires n < |ExtractLogLinks(elements)|
    ensures m < |elements|
    ensures elements[m].href == Some(ExtractLogLinks(elements)[n].url)
    ensures ExtractLogLinks(elements)[n].name == elements[m].name.GetOr(Unknown)
    decreases |elements|
  {
    if HasHttpHref(elements[0]) && n == 0 {
      m := 0;
    } else {
      var k := if HasHttpHref(elements[0]) then n - 1 else n;
      var m' := LogLinkOrigin(elements[1..], k);
      m := m' + 1;
    }
  }

  /** A document with a passing, a failing and an attribute-less test case, and a
      linked, a relative and an href-less log element. */
  lemma ExtractionExample()
    ensures ExtractFailedTests([
              TestCase(Some("smoke"), Some("passed")),
              TestCase(Some("install"), Some("failed")),
              TestCase(None, None)])
            == [FailedTest("install", "failed")]
    ensures ExtractLogLinks([
              LogElement(Some("https://a/x.log"), None),
              LogElement(Some("logs/y.log"), Some("y")),
              LogElement(None, Some("z"))])
            == [LogLink(Unknown, "https://a/x.log")]
  {
    var cases := [TestCase(Some("smoke"), Some("passed")), TestCase(Some("install"), Some("failed")), TestCase(None, None)];
    assert !IsFailed(cases[0]) by { assert "passed"[0] == 'p'; }
    assert !IsFailed(cases[2]) by { assert "unknown"[0] == 'u'; }
    assert cases[1..][1..] == [cases[2]];
    assert [cases[2]][1..] == [];
    var logs := [LogElement(Some("https://a/x.log"), None), LogElement(Some("logs/y.log"), Some("y")), LogElement(None, Some("z"))];
    assert HasHttpHref(logs[0]) by { assert "https://a/x.log"[..4] == LinkScheme; }
    assert !HasHttpHref(logs[1]) by { assert "logs/y.log"[0] == 'l'; }
    assert logs[1..][1..] == [logs[2]];
    assert [logs[2]][1..] == [];
  }
}
