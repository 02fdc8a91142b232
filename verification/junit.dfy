/**
 * parse_junit_xml: the counts of every processed `testsuite` element are summed
 * and the failed `testcase` elements are listed as "classname::name".
 */
module JUnit {
  import opened Wrappers
  import opened Numbers
  import opened Xml
  import opened Records

  /** `int(suite.get(key, 0))`: an absent attribute reads as 0; a present one must convert. */
  function CountAttr(suite: Element, key: string): Result<int, Failure> {
    if key !in suite.attrs then Ok(0)
    else match ParseInt(suite.attrs[key])
      case Some(n) => Ok(n)
      case None => Err(BadNumber(suite.attrs[key]))
  }

  /** `float(suite.get('time', 0.0))`. */
  function TimeAttr(suite: Element): Result<FloatValue, Failure> {
    if "time" !in suite.attrs then Ok(Zero)
    else if IsFloatText(suite.attrs["time"]) then Ok(FloatOf(suite.attrs["time"]))
    else Err(BadNumber(suite.attrs["time"]))
  }

  datatype SuiteCounts = SuiteCounts(tests: int, failures: int, errors: int, skipped: int, time: FloatValue)

  /**
   * The attributes of one suite, in the order process_suite converts them;
   * the first one that does not convert is the failure.
   */
  function ReadSuite(suite: Element): Result<SuiteCounts, Failure> {
    var tests, failures, errors := CountAttr(suite, "tests"), CountAttr(suite, "failures"), CountAttr(suite, "errors");
    var skipped, time := CountAttr(suite, "skipped"), TimeAttr(suite);
    if tests.Err? then Err(tests.error)
    else if failures.Err? then Err(failures.error)
    else if errors.Err? then Err(errors.error)
    else if skipped.Err? then Err(skipped.error)
    else if time.Err? then Err(time.error)
    else Ok(SuiteCounts(tests.value, failures.value, errors.value, skipped.value, time.value))
  }

  /** A testcase with a `failure` or an `error` child. */
  predicate IsFailedCase(testcase: Element) {
    HasChild(testcase, "failure") || HasChild(testcase, "error")
  }

  /** `f"{classname}::{name}"` with the defaults "" and "unknown". */
  function CaseLabel(testcase: Element): string {
    Get(testcase, "classname", "") + "::" + Get(testcase, "name", "unknown")
  }

  /** What the testcase loop of process_suite appends for `cases`. */
  function FailedLabels(cases: seq<Element>): seq<string> {
    if cases == [] then []
    else
      var last := cases[|cases| - 1];
      FailedLabels(cases[..|cases| - 1]) + (if IsFailedCase(last) then [CaseLabel(last)] else [])
  }

  const NoTests := TestSummary(0, 0, 0, 0, [], [])

  /** The summary after process_suite has added a suite whose attributes read as `c`. */
  function Absorb(t: TestSummary, c: SuiteCounts, suite: Element): TestSummary {
    TestSummary(
      t.total + c.tests, t.failures + c.failures, t.errors + c.errors, t.skipped + c.skipped,
      t.timeTerms + [c.time],
      t.failedTestNames + FailedLabels(FindAll(suite, "testcase")))
  }

  /** Processing `suites` one after the other from zero counters; an exception ends the parse. */
  function Accumulate(suites: seq<Element>): Result<TestSummary, Failure> {
    if suites == [] then Ok(NoTests)
    else
      var last := suites[|suites| - 1];
      match Accumulate(suites[..|suites| - 1])
      case Err(e) => Err(e)
      case Ok(t) =>
        match ReadSuite(last)
        case Err(e) => Err(e)
        case Ok(c) => Ok(Absorb(t, c, last))
  }

  /** The suites parse_junit_xml processes: the `testsuite` children of a `testsuites` root, a `testsuite` root itself, or none. */
  function ProcessedSuites(root: Element): seq<Element> {
    if root.tag == "testsuites" then FindAll(root, "testsuite")
    else if root.tag == "testsuite" then [root]
    else []
  }

  /** The outcome of parse_junit_xml. */
  function JUnitReport(source: XmlSource): Result<TestSummary, Failure> {
    match source
    case Missing => Err(NotFound)
    case Unparsable => Err(Malformed)
    case Document(root) => Accumulate(ProcessedSuites(root))
  }

  /** The running totals parse_junit_xml keeps as the nonlocal variables of process_suite. */
  class Tally {
    var total: int
    var failures: int
    var errors: int
    var skipped: int
    var timeTerms: seq<FloatValue>
    var failedTests: seq<string>

    constructor ()
      ensures Summary() == NoTests
    {
      total, failures, errors, skipped := 0, 0, 0, 0;
      timeTerms, failedTests := [], [];
    }

    function Summary(): TestSummary
      reads this
    {
      TestSummary(total, failures, errors, skipped, timeTerms, failedTests)
    }

    /** process_suite: add one suite's counts and append its failed cases. */
    method ProcessSuite(suite: Element) returns (failure: Option<Failure>)
      modifies this
      ensures ReadSuite(suite).Err? ==> failure == Some(ReadSuite(suite).error)
      ensures ReadSuite(suite).Ok? ==>
        failure == None && Summary() == Absorb(old(Summary()), ReadSuite(suite).value, suite)
    {
      var tests := CountAttr(suite, "tests");
      if tests.Err? { return Some(tests.error); }
      total := total + tests.value;
      var f := CountAttr(suite, "failures");
      if f.Err? { return Some(f.error); }
      failures := failures + f.value;
      var e := CountAttr(suite, "errors");
      if e.Err? { return Some(e.error); }
      errors := errors + e.value;
      var s := CountAttr(suite, "skipped");
      if s.Err? { return Some(s.error); }
      skipped := skipped + s.value;
      var time := TimeAttr(suite);
      if time.Err? { return Some(time.error); }
      timeTerms := timeTerms + [time.value];

      AppendFailedCases(FindAll(suite, "testcase"));
      return None;
    }

    /** The testcase loop of process_suite: append the label of every failed case, in order. */
    method AppendFailedCases(cases: seq<Element>)
      modifies this
      ensures failedTests == old(failedTests) + FailedLabels(cases)
      ensures total == old(total) && failures == old(failures) && errors == old(errors)
      ensures skipped == old(skipped) && timeTerms == old(timeTerms)
    {
      for j := 0 to |cases|
        invariant failedTests == old(failedTests) + FailedLabels(cases[..j])
        invariant total == old(total) && failures == old(failures) && errors == old(errors)
        invariant skipped == old(skipped) && timeTerms == old(timeTerms)
      {
        assert cases[..j + 1][..j] == cases[..j];
        if IsFailedCase(cases[j]) {
          failedTests := failedTests + [CaseLabel(cases[j])];
        }
      }
      assert cases[..|cases|] == cases;
    }

    /** The loop over the `testsuite` children, from fresh counters; the first failure ends it. */
    method ProcessSuites(suites: seq<Element>) returns (failure: Option<Failure>)
      requires Summary() == NoTests
      modifies this
      ensures failure.Some? ==> Accumulate(suites) == Err(failure.value)
      ensures failure.None? ==> Accumulate(suites) == Ok(Summary())
    {
      for i := 0 to |suites|
        invariant Accumulate(suites[..i]) == Ok(Summary())
      {
        failure := ProcessSuite(suites[i]);
        assert suites[..i + 1][..i] == suites[..i];
        if failure.Some? {
          AccumulateStopsAtFailure(suites, i + 1);
          return;
        }
      }
      assert suites[..|suites|] == suites;
      return None;
    }
  }

  /** Once processing fails, the rest of the suites do not change the outcome. */
  lemma {:induction false} AccumulateStopsAtFailure(suites: seq<Element>, k: nat)
    requires k <= |suites| && Accumulate(suites[..k]).Err?
    ensures Accumulate(suites) == Accumulate(suites[..k])
    decreases |suites| - k
  {
    if k < |suites| {
      assert suites[..k + 1][..k] == suites[..k];
      AccumulateStopsAtFailure(suites, k + 1);
    } else {
      assert suites[..k] == suites;
    }
  }

  /** parse_junit_xml. */
  method ParseJUnitXml(source: XmlSource) returns (r: Result<TestSummary, Failure>)
    ensures r == JUnitReport(source)
    ensures source.Missing? ==> r == Err(NotFound)
    ensures source.Unparsable? ==> r == Err(Malformed)
    ensures source.Document? && source.root.tag != "testsuites" && source.root.tag != "testsuite" ==>
      r == Ok(NoTests)
  {
    match source
    case Missing => return Err(NotFound);
    case Unparsable => return Err(Malformed);
    case Document(root) =>
      var tally := new Tally();
      if root.tag == "testsuites" {
        var failure := tally.ProcessSuites(FindAll(root, "testsuite"));
        if failure.Some? {
          return Err(failure.value);
        }
      } else if root.tag == "testsuite" {
        var failure := tally.ProcessSuite(root);
        assert [root][..0] == [];
        assert Accumulate([root]) == if failure.Some? then Err(failure.value) else Ok(tally.Summary());
        if failure.Some? {
          return Err(failure.value);
        }
      }
      return Ok(tally.Summary());
  }

  // Reference definitions: sums and failed cases taken suite by suite from the front.

  /** Suites whose count and time attributes all convert. */
  predicate AllWellFormed(suites: seq<Element>) {
    forall i :: 0 <= i < |suites| ==> ReadSuite(suites[i]).Ok?
  }

  /** The sum of one count attribute over `suites`, an absent attribute counting as 0. */
  function SumCount(suites: seq<Element>, key: string): int
    requires forall i :: 0 <= i < |suites| ==> CountAttr(suites[i], key).Ok?
  {
    if suites == [] then 0 else CountAttr(suites[0], key).value + SumCount(suites[1..], key)
  }

  /** The failed testcases among `cases`, in order. */
  function FailedCases(cases: seq<Element>): seq<Element> {
    if cases == [] then []
    else (if IsFailedCase(cases[0]) then [cases[0]] else []) + FailedCases(cases[1..])
  }

  /** The failed testcases directly under each suite, suite after suite, in document order. */
  function FailedCasesOfSuites(suites: seq<Element>): seq<Element> {
    if suites == [] then []
    else FailedCases(FindAll(suites[0], "testcase")) + FailedCasesOfSuites(suites[1..])
  }

  function Labels(cases: seq<Element>): (r: seq<string>)
    ensures |r| == |cases| && forall i :: 0 <= i < |cases| ==> r[i] == CaseLabel(cases[i])
  {
    seq(|cases|, i requires 0 <= i < |cases| => CaseLabel(cases[i]))
  }

  lemma {:induction false} SumCountSnoc(suites: seq<Element>, key: string)
    requires suites != []
    requires forall i :: 0 <= i < |suites| ==> CountAttr(suites[i], key).Ok?
    ensures SumCount(suites, key) == SumCount(suites[..|suites| - 1], key) + CountAttr(suites[|suites| - 1], key).value
  {
    if |suites| > 1 {
      assert suites[1..][..|suites| - 2] == suites[..|suites| - 1][1..];
      SumCountSnoc(suites[1..], key);
    }
  }

  lemma {:induction false} FailedCasesSnoc(cases: seq<Element>)
    requires cases != []
    ensures var last := cases[|cases| - 1];
      FailedCases(cases) == FailedCases(cases[..|cases| - 1]) + (if IsFailedCase(last) then [last] else [])
  {
    var n := |cases| - 1;
    var last := cases[n];
    var tail := if IsFailedCase(last) then [last] else [];
    if n == 0 {
      assert cases[..n] == [] && cases[1..] == [];
      assert FailedCases(cases) == tail + [];
    } else {
      var first, rest, init := cases[0], cases[1..], cases[..n];
      var head := if IsFailedCase(first) then [first] else [];
      FailedCasesSnoc(rest);
      assert rest[..|rest| - 1] == init[1..] && rest[|rest| - 1] == last && init[0] == first;
      var middle := FailedCases(init[1..]);
      assert FailedCases(rest) == middle + tail;
      assert FailedCases(init) == head + middle;
      assert FailedCases(cases) == head + (middle + tail);
    }
  }

  lemma {:induction false} FailedCasesOfSuitesSnoc(suites: seq<Element>)
    requires suites != []
    ensures FailedCasesOfSuites(suites) ==
      FailedCasesOfSuites(suites[..|suites| - 1]) + FailedCases(FindAll(suites[|suites| - 1], "testcase"))
  {
    if |suites| > 1 {
      assert suites[1..][..|suites| - 2] == suites[..|suites| - 1][1..];
      FailedCasesOfSuitesSnoc(suites[1..]);
    }
  }

  /** The testcase loop appends exactly the labels of the failed cases, in order. */
  lemma {:induction false} FailedLabelsAreLabels(cases: seq<Element>)
    ensures FailedLabels(cases) == Labels(FailedCases(cases))
  {
    if cases != [] {
      var init, last := cases[..|cases| - 1], cases[|cases| - 1];
      FailedLabelsAreLabels(init);
      FailedCasesSnoc(cases);
      var tail := if IsFailedCase(last) then [last] else [];
      assert Labels(FailedCases(init) + tail) == Labels(FailedCases(init)) + Labels(tail);
    }
  }

  /** The step Accumulate takes for its last suite, when all suites before it converted. */
  lemma AccumulateSnoc(suites: seq<Element>)
    requires suites != [] && AllWellFormed(suites)
    requires Accumulate(suites[..|suites| - 1]).Ok?
    ensures var last := suites[|suites| - 1];
      Accumulate(suites) == Ok(Absorb(Accumulate(suites[..|suites| - 1]).value, ReadSuite(last).value, last))
  {
  }

  lemma WellFormedPrefix(suites: seq<Element>, k: nat)
    requires k <= |suites| && AllWellFormed(suites)
    ensures AllWellFormed(suites[..k])
  {
    forall i | 0 <= i < k ensures ReadSuite(suites[..k][i]).Ok? { assert ReadSuite(suites[i]).Ok?; }
  }

  lemma {:induction false} AccumulateCounts(suites: seq<Element>)
    requires AllWellFormed(suites)
    ensures Accumulate(suites).Ok?
    ensures var t := Accumulate(suites).value;
      && t.total == SumCount(suites, "tests")
      && t.failures == SumCount(suites, "failures")
      && t.errors == SumCount(suites, "errors")
      && t.skipped == SumCount(suites, "skipped")
  {
    if suites != [] {
      var init := suites[..|suites| - 1];
      WellFormedPrefix(suites, |suites| - 1);
      AccumulateCounts(init);
      AccumulateSnoc(suites);
      SumCountSnoc(suites, "tests");
      SumCountSnoc(suites, "failures");
      SumCountSnoc(suites, "errors");
      SumCountSnoc(suites, "skipped");
    }
  }

  lemma {:induction false} AccumulateTimes(suites: seq<Element>)
    requires AllWellFormed(suites)
    ensures Accumulate(suites).Ok?
    ensures var t := Accumulate(suites).value;
      && |t.timeTerms| == |suites|
      && (forall i :: 0 <= i < |suites| ==> t.timeTerms[i] == ReadSuite(suites[i]).value.time)
  {
    if suites != [] {
      var init := suites[..|suites| - 1];
      WellFormedPrefix(suites, |suites| - 1);
      AccumulateTimes(init);
      AccumulateSnoc(suites);
      var t, front := Accumulate(suites).value, Accumulate(init).value;
      assert t.timeTerms == front.timeTerms + [ReadSuite(suites[|init|]).value.time];
      forall i | 0 <= i < |suites| ensures t.timeTerms[i] == ReadSuite(suites[i]).value.time {
        if i < |init| {
          assert ReadSuite(init[i]).Ok? && t.timeTerms[i] == front.timeTerms[i];
        } else {
          assert i == |init|;
        }
      }
    }
  }

  lemma {:induction false} AccumulateNames(suites: seq<Element>)
    requires AllWellFormed(suites)
    ensures Accumulate(suites).Ok?
    ensures Accumulate(suites).value.failedTestNames == Labels(FailedCasesOfSuites(suites))
  {
    if suites != [] {
      var init, last := suites[..|suites| - 1], suites[|suites| - 1];
      WellFormedPrefix(suites, |suites| - 1);
      AccumulateNames(init);
      AccumulateSnoc(suites);
      FailedCasesOfSuitesSnoc(suites);
      var cases := FindAll(last, "testcase");
      FailedLabelsAreLabels(cases);
      LabelsAppend(FailedCasesOfSuites(init), FailedCases(cases));
    }
  }

  lemma LabelsAppend(a: seq<Element>, b: seq<Element>)
    ensures Labels(a + b) == Labels(a) + Labels(b)
  {
  }

  /**
   * When every processed suite converts, the totals are the sums of the suites'
   * attributes, there is one time term per suite, and the failed names are the
   * labels of the failed testcases in document order.
   */
  lemma AccumulateWellFormed(suites: seq<Element>)
    requires AllWellFormed(suites)
    ensures Accumulate(suites).Ok?
    ensures var t := Accumulate(suites).value;
      && t.total == SumCount(suites, "tests")
      && t.failures == SumCount(suites, "failures")
      && t.errors == SumCount(suites, "errors")
      && t.skipped == SumCount(suites, "skipped")
      && |t.timeTerms| == |suites|
      && (forall i :: 0 <= i < |suites| ==> t.timeTerms[i] == ReadSuite(suites[i]).value.time)
      && t.failedTestNames == Labels(FailedCasesOfSuites(suites))
  {
    AccumulateCounts(suites);
    AccumulateTimes(suites);
    AccumulateNames(suites);
  }

  /**
   * Processing fails exactly when some suite has an attribute that does not
   * convert, and the failure is that of the first such suite.
   */
  lemma {:induction false} AccumulateFailure(suites: seq<Element>)
    ensures Accumulate(suites).Err? <==> !AllWellFormed(suites)
    ensures Accumulate(suites).Err? ==>
      exists i :: 0 <= i < |suites| && AllWellFormed(suites[..i]) && ReadSuite(suites[i]).Err?
        && Accumulate(suites).error == ReadSuite(suites[i]).error
  {
    if suites != [] {
      var n := |suites| - 1;
      var init, last := suites[..n], suites[n];
      AccumulateFailure(init);
      WellFormedSnoc(suites);
      if Accumulate(init).Err? {
        var i :| 0 <= i < n && AllWellFormed(init[..i]) && ReadSuite(init[i]).Err?
          && Accumulate(init).error == ReadSuite(init[i]).error;
        assert init[..i] == suites[..i] && init[i] == suites[i];
      } else if ReadSuite(last).Err? {
        assert suites[..n] == init;
      }
    }
  }

  lemma WellFormedSnoc(suites: seq<Element>)
    requires suites != []
    ensures AllWellFormed(suites) <==>
      AllWellFormed(suites[..|suites| - 1]) && ReadSuite(suites[|suites| - 1]).Ok?
  {
    var n := |suites| - 1;
    if AllWellFormed(suites[..n]) && ReadSuite(suites[n]).Ok? {
      WellFormedExtend(suites);
    }
  }

  lemma WellFormedExtend(suites: seq<Element>)
    requires suites != []
    requires AllWellFormed(suites[..|suites| - 1]) && ReadSuite(suites[|suites| - 1]).Ok?
    ensures AllWellFormed(suites)
  {
    var n := |suites| - 1;
    forall i | 0 <= i < |suites| ensures ReadSuite(suites[i]).Ok? {
      if i < n {
        PrefixConverts(suites, n, i);
      } else {
        assert i == n;
      }
    }
  }

  lemma PrefixConverts(suites: seq<Element>, n: nat, i: nat)
    requires i < n <= |suites| && AllWellFormed(suites[..n])
    ensures ReadSuite(suites[i]).Ok?
  {
    ConvertsAt(suites[..n], i);
  }

  lemma ConvertsAt(suites: seq<Element>, i: nat)
    requires AllWellFormed(suites) && i < |suites|
    ensures ReadSuite(suites[i]).Ok?
  {
  }

  /** A `testsuites` root: the totals are the sums over its direct `testsuite` children. */
  lemma WrapperRootTotals(root: Element)
    requires root.tag == "testsuites" && AllWellFormed(FindAll(root, "testsuite"))
    ensures var suites := FindAll(root, "testsuite");
      && JUnitReport(Document(root)).Ok?
      && var t := JUnitReport(Document(root)).value;
      && t.total == SumCount(suites, "tests")
      && t.failures == SumCount(suites, "failures")
      && t.errors == SumCount(suites, "errors")
      && t.skipped == SumCount(suites, "skipped")
      && t.failedTestNames == Labels(FailedCasesOfSuites(suites))
  {
    AccumulateWellFormed(FindAll(root, "testsuite"));
  }

  /** A `testsuite` root: the totals are its own attributes and the names its own failed testcases. */
  lemma SuiteRootTotals(root: Element)
    requires root.tag == "testsuite" && ReadSuite(root).Ok?
    ensures var c := ReadSuite(root).value;
      JUnitReport(Document(root)) ==
        Ok(TestSummary(c.tests, c.failures, c.errors, c.skipped, [c.time],
          Labels(FailedCases(FindAll(root, "testcase")))))
  {
    assert [root][..0] == [];
    assert ProcessedSuites(root) == [root];
    var c := ReadSuite(root).value;
    assert Accumulate([root]) == Ok(Absorb(NoTests, c, root));
    var names := FailedLabels(FindAll(root, "testcase"));
    assert [] + [c.time] == [c.time] && [] + names == names;
    FailedLabelsAreLabels(FindAll(root, "testcase"));
  }

  const ExampleSuiteA := Element("testsuite", map["tests" := "5", "failures" := "1"], [])
  const ExampleSuiteB := Element("testsuite", map["tests" := "3", "failures" := "0"], [])
  const ExampleRoot := Element("testsuites", map[], [ExampleSuiteA, ExampleSuiteB])

  /** A suite that carries only `tests` and `failures`, both plain digit runs. */
  lemma ReadTestsAndFailures(suite: Element, tests: string, failures: string)
    requires suite.attrs == map["tests" := tests, "failures" := failures]
    requires |tests| > 0 && AllDigits(tests) && |failures| > 0 && AllDigits(failures)
    ensures ReadSuite(suite) == Ok(SuiteCounts(DigitsValue(tests), DigitsValue(failures), 0, 0, Zero))
  {
    CountOfDigits(suite, "tests");
    CountOfDigits(suite, "failures");
    OnlyTestsAndFailures(suite, tests, failures);
    var c := SuiteCounts(DigitsValue(tests), DigitsValue(failures), 0, 0, Zero);
    assert CountAttr(suite, "errors") == Ok(0) && CountAttr(suite, "skipped") == Ok(0) && TimeAttr(suite) == Ok(Zero);
  }

  lemma OnlyTestsAndFailures(suite: Element, tests: string, failures: string)
    requires suite.attrs == map["tests" := tests, "failures" := failures]
    ensures "errors" !in suite.attrs && "skipped" !in suite.attrs && "time" !in suite.attrs
  {
    assert "errors"[0] != "tests"[0] && "errors"[0] != "failures"[0];
    assert "skipped"[0] != "tests"[0] && "skipped"[0] != "failures"[0];
    assert "time"[1] != "tests"[1] && "time"[0] != "failures"[0];
  }

  /** A present attribute that is a plain digit run reads as its decimal value. */
  lemma CountOfDigits(suite: Element, key: string)
    requires key in suite.attrs && |suite.attrs[key]| > 0 && AllDigits(suite.attrs[key])
    ensures CountAttr(suite, key) == Ok(DigitsValue(suite.attrs[key]))
  {
    ParseIntOfDigits(suite.attrs[key]);
  }

  lemma ExampleSuitesRead()
    ensures ReadSuite(ExampleSuiteA) == Ok(SuiteCounts(5, 1, 0, 0, Zero))
    ensures ReadSuite(ExampleSuiteB) == Ok(SuiteCounts(3, 0, 0, 0, Zero))
  {
    ReadTestsAndFailures(ExampleSuiteA, "5", "1");
    ReadTestsAndFailures(ExampleSuiteB, "3", "0");
    assert DigitsValue("5") == 5 && DigitsValue("1") == 1 && DigitsValue("3") == 3 && DigitsValue("0") == 0;
  }

  lemma ExampleSuitesFound()
    ensures ProcessedSuites(ExampleRoot) == [ExampleSuiteA, ExampleSuiteB]
    ensures FindAll(ExampleSuiteA, "testcase") == [] && FindAll(ExampleSuiteB, "testcase") == []
  {
    var a, b := ExampleSuiteA, ExampleSuiteB;
    assert [a, b][..1] == [a] && [a][..0] == [];
    assert WithTag([a], "testsuite") == [a];
  }

  lemma AccumulateTwo(a: Element, b: Element)
    requires ReadSuite(a).Ok? && ReadSuite(b).Ok?
    ensures Accumulate([a, b]) == Ok(Absorb(Absorb(NoTests, ReadSuite(a).value, a), ReadSuite(b).value, b))
  {
    assert [a][..0] == [] && [a][0] == a;
    assert Accumulate([a]) == Ok(Absorb(NoTests, ReadSuite(a).value, a));
    assert [a, b][..1] == [a] && [a, b][1] == b;
  }

  lemma AbsorbWithoutCases(t: TestSummary, c: SuiteCounts, suite: Element)
    requires FindAll(suite, "testcase") == []
    ensures Absorb(t, c, suite) == TestSummary(t.total + c.tests, t.failures + c.failures,
      t.errors + c.errors, t.skipped + c.skipped, t.timeTerms + [c.time], t.failedTestNames)
  {
    assert FailedLabels([]) == [];
    assert t.failedTestNames + [] == t.failedTestNames;
  }

  /** A `testsuites` root over two suites without testcases that read as 5/1 and 3/0 tests/failures. */
  lemma TwoSuites(root: Element, a: Element, b: Element)
    requires root.tag == "testsuites" && FindAll(root, "testsuite") == [a, b]
    requires FindAll(a, "testcase") == [] && FindAll(b, "testcase") == []
    requires ReadSuite(a) == Ok(SuiteCounts(5, 1, 0, 0, Zero)) && ReadSuite(b) == Ok(SuiteCounts(3, 0, 0, 0, Zero))
    ensures JUnitReport(Document(root)) == Ok(TestSummary(8, 1, 0, 0, [Zero, Zero], []))
  {
    AccumulateTwo(a, b);
    var first := TestSummary(5, 1, 0, 0, [Zero], []);
    AbsorbWithoutCases(NoTests, SuiteCounts(5, 1, 0, 0, Zero), a);
    assert Absorb(NoTests, SuiteCounts(5, 1, 0, 0, Zero), a) == first;
    AbsorbWithoutCases(first, SuiteCounts(3, 0, 0, 0, Zero), b);
    assert [Zero] + [Zero] == [Zero, Zero];
  }

  /** Two suites with tests 5 and 3 and failures 1 and 0 under a `testsuites` root: 8 tests, 1 failure. */
  lemma TwoSuitesExample()
    ensures JUnitReport(Document(ExampleRoot)) == Ok(TestSummary(8, 1, 0, 0, [Zero, Zero], []))
  {
    ExampleSuitesRead();
    ExampleSuitesFound();
    TwoSuites(ExampleRoot, ExampleSuiteA, ExampleSuiteB);
  }
}
