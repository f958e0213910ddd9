/** Test runs: what the run of a test, a suite or a registry counts, records and reports. */
module RunModel {
  import opened Wrappers

  /** A name, up to the NUL that ends it in memory. */
  type Name = s: string | '\0' !in s

  /** An assertion that a test function makes; a failing fatal one ends the function. */
  datatype Assertion = Assertion(holds: bool, isFatal: bool)

  /** A test function is the assertions it makes. */
  datatype Test = Test(name: Name, active: bool, body: seq<Assertion>)

  /** A suite: whether its initialization and its cleanup function fail, what its set-up and tear-down functions
      assert, and its tests. */
  datatype Suite = Suite(name: Name, active: bool, initFails: bool, cleanupFails: bool,
                         setUp: seq<Assertion>, tearDown: seq<Assertion>, tests: seq<Test>)

  datatype FailureType = SuiteInactive | SuiteInitFailed | SuiteCleanupFailed | TestInactive | AssertFailed

  datatype Record = Record(kind: FailureType, suite: Suite, test: Option<Test>)

  datatype RunSummary = RunSummary(
    nSuitesRun: nat, nSuitesFailed: nat, nSuitesInactive: nat,
    nTestsRun: nat, nTestsFailed: nat, nTestsInactive: nat,
    nAsserts: nat, nAssertsFailed: nat, nFailureRecords: nat)

  /** The calls of the handlers; `F` stands for the failure list a handler is given. */
  datatype Event<F> =
    | SuiteStart(suite: Suite)
    | TestStart(test: Test, suite: Suite)
    | TestComplete(test: Test, suite: Suite, failure: F)
    | SuiteInitFailure(suite: Suite)
    | SuiteCleanupFailure(suite: Suite)
    | SuiteComplete(suite: Suite, failure: F)
    | AllTestsComplete(failure: F)

  datatype ErrorCode =
    | CUE_SUCCESS | CUE_NOREGISTRY | CUE_NOSUITE | CUE_NOTEST | CUE_TEST_NOT_IN_SUITE
    | CUE_SUITE_INACTIVE | CUE_TEST_INACTIVE | CUE_SINIT_FAILED | CUE_SCLEAN_FAILED

  /** The settings of a run: whether what is inactive counts as a failure, and whether a run goes on after an error. */
  datatype Settings = Settings(failureOnInactive: bool, ignoreErrors: bool)

  /** How far a run has come: the counts, the failure records, and the handlers called; a handler is given the index
      of the record that its failure list starts with. */
  datatype Progress = Progress(summary: RunSummary, records: seq<Record>, events: seq<Event<Option<nat>>>)

  /** Nothing counted, recorded or reported yet. */
  const START: Progress := Progress(RunSummary(0, 0, 0, 0, 0, 0, 0, 0, 0), [], [])

  function AddFailure(p: Progress, record: Record): Progress {
    p.(summary := p.summary.(nFailureRecords := p.summary.nFailureRecords + 1), records := p.records + [record])
  }

  function Notify(p: Progress, event: Event<Option<nat>>): Progress {
    p.(events := p.events + [event])
  }

  function Assert(p: Progress, a: Assertion, suite: Suite, test: Test): Progress {
    var counted := p.(summary := p.summary.(nAsserts := p.summary.nAsserts + 1));
    if a.holds then counted
    else
      AddFailure(counted.(summary := counted.summary.(nAssertsFailed := counted.summary.nAssertsFailed + 1)),
                 Record(AssertFailed, suite, Some(test)))
  }

  function AssertAll(p: Progress, asserts: seq<Assertion>, suite: Suite, test: Test): Progress
    decreases |asserts|
  {
    if asserts == [] then p
    else Assert(AssertAll(p, asserts[..|asserts| - 1], suite, test), asserts[|asserts| - 1], suite, test)
  }

  /** The assertions that are made when a failing fatal one ends the function. */
  function UpToFatal(asserts: seq<Assertion>): (made: seq<Assertion>)
    ensures made <= asserts
    ensures forall i :: 0 <= i < |made| - 1 ==> made[i].holds || !made[i].isFatal
    ensures |made| < |asserts| ==> made != [] && !made[|made| - 1].holds && made[|made| - 1].isFatal
  {
    if asserts == [] || (!asserts[0].holds && asserts[0].isFatal) then asserts[..if asserts == [] then 0 else 1]
    else [asserts[0]] + UpToFatal(asserts[1..])
  }

  /** The failure list since there were `start` records, if there are more now. */
  function Since(p: Progress, start: nat): Option<nat> {
    if |p.records| > start then Some(start) else None
  }

  function RunTest(p: Progress, suite: Suite, test: Test, settings: Settings): Progress {
    var started := Notify(p, TestStart(test, suite));
    var ran := if test.active then RanActive(started, suite, test) else RanInactive(started, suite, test, settings);
    var failure := Since(ran, |p.records|);
    var counted := if failure.Some? then ran.(summary := ran.summary.(nTestsFailed := ran.summary.nTestsFailed + 1))
       else ran;
    Notify(counted, TestComplete(test, suite, failure))
  }

  function RanActive(p: Progress, suite: Suite, test: Test): Progress {
    var setUp := AssertAll(p, suite.setUp, suite, test);
    var body := AssertAll(setUp, UpToFatal(test.body), suite, test);
    var tornDown := AssertAll(body, suite.tearDown, suite, test);
    tornDown.(summary := tornDown.summary.(nTestsRun := tornDown.summary.nTestsRun + 1))
  }

  function RanInactive(p: Progress, suite: Suite, test: Test, settings: Settings): Progress {
    var counted := p.(summary := p.summary.(nTestsInactive := p.summary.nTestsInactive + 1));
    if settings.failureOnInactive then AddFailure(counted, Record(TestInactive, suite, Some(test))) else counted
  }

  /** What a test does to the result of its suite: an inactive one that counts as a failure sets it. */
  function TestResult(result: ErrorCode, test: Test, settings: Settings): ErrorCode {
    if !test.active && settings.failureOnInactive then CUE_TEST_INACTIVE else result
  }

  function GoesOn(result: ErrorCode, settings: Settings): bool {
    result == CUE_SUCCESS || settings.ignoreErrors
  }

  /** A test of a suite: an inactive one is not started. */
  function RunOrSkip(p: Progress, suite: Suite, test: Test, settings: Settings): Progress {
    if test.active then RunTest(p, suite, test, settings) else RanInactive(p, suite, test, settings)
  }

  /** The tests of a suite from the `k`-th on, after `result`. */
  function RunTests(p: Progress, suite: Suite, k: nat, result: ErrorCode, settings: Settings): (Progress, ErrorCode)
    decreases |suite.tests| - k
  {
    if k >= |suite.tests| || !GoesOn(result, settings) then (p, result)
    else RunTests(RunOrSkip(p, suite, suite.tests[k], settings), suite, k + 1,
        TestResult(result, suite.tests[k], settings), settings)
  }

  /** The result of a suite's tests is their first error: setting it loses none, because the only error a test can
      cause is that one, and it comes up just when some test is inactive and that counts as a failure. */
  lemma {:induction false} FirstErrorKept(p: Progress, suite: Suite, k: nat, result: ErrorCode, settings: Settings)
    requires result == CUE_SUCCESS || result == CUE_TEST_INACTIVE
    ensures k < |suite.tests| ==>
              TestResult(result, suite.tests[k], settings)
                  == FirstError(result, TestResult(CUE_SUCCESS, suite.tests[k], settings))
    ensures RunTests(p, suite, k, result, settings).1
         == FirstError(result, if settings.failureOnInactive
                                  && exists i :: k <= i < |suite.tests| && !suite.tests[i].active
                               then CUE_TEST_INACTIVE else CUE_SUCCESS)
    decreases |suite.tests| - k
  {
    hide RunOrSkip;
    if k < |suite.tests| && GoesOn(result, settings) {
      FirstErrorKept(RunOrSkip(p, suite, suite.tests[k], settings), suite, k + 1,
          TestResult(result, suite.tests[k], settings), settings);
    }
  }

  function FirstError(result: ErrorCode, result2: ErrorCode): ErrorCode {
    if result == CUE_SUCCESS then result2 else result
  }

  function SuiteFailed(p: Progress, suite: Suite, kind: FailureType): Progress {
    AddFailure(p.(summary := p.summary.(nSuitesFailed := p.summary.nSuitesFailed + 1)), Record(kind, suite, None))
  }

  function CleanedUp(p: Progress, suite: Suite, result: ErrorCode): (Progress, ErrorCode) {
    if !suite.cleanupFails then (p, result)
    else (SuiteFailed(Notify(p, SuiteCleanupFailure(suite)), suite, SuiteCleanupFailed),
          if result == CUE_SUCCESS then CUE_SCLEAN_FAILED else result)
  }

  function RanSuite(p: Progress, suite: Suite, settings: Settings): (Progress, ErrorCode) {
    var (tested, result) := RunTests(p, suite, 0, CUE_SUCCESS, settings);
    CleanedUp(tested.(summary := tested.summary.(nSuitesRun := tested.summary.nSuitesRun + 1)), suite, result)
  }

  function SkippedSuite(p: Progress, suite: Suite, settings: Settings): (Progress, ErrorCode) {
    var counted := p.(summary := p.summary.(nSuitesInactive := p.summary.nSuitesInactive + 1));
    if settings.failureOnInactive then (AddFailure(counted, Record(SuiteInactive, suite, None)), CUE_SUITE_INACTIVE)
    else (counted, CUE_SUCCESS)
  }

  function InitFailed(p: Progress, suite: Suite): (Progress, ErrorCode) {
    (SuiteFailed(Notify(p, SuiteInitFailure(suite)), suite, SuiteInitFailed), CUE_SINIT_FAILED)
  }

  function RunSuite(p: Progress, suite: Suite, settings: Settings): (Progress, ErrorCode) {
    var started := Notify(p, SuiteStart(suite));
    var (ran, result) :=
      if !suite.active then SkippedSuite(started, suite, settings)
      else if suite.initFails then InitFailed(started, suite)
      else RanSuite(started, suite, settings);
    (Notify(ran, SuiteComplete(suite, Since(ran, |p.records|))), result)
  }

  /** The suites from the `k`-th on, after `result`, which is the first error. */
  function RunSuites(p: Progress, suites: seq<Suite>, k: nat, result: ErrorCode, settings: Settings)
    : (Progress, ErrorCode)
    decreases |suites| - k
  {
    if k >= |suites| || !GoesOn(result, settings) then (p, result)
    else
      var (ran, result2) := RunSuite(p, suites[k], settings);
      RunSuites(ran, suites, k + 1, FirstError(result, result2), settings)
  }

  /** The run of all suites of the registry, if there is one. */
  function RunAllTests(registry: Option<seq<Suite>>, settings: Settings): (Progress, ErrorCode) {
    if registry.None? then (START, CUE_NOREGISTRY)
    else
      var (ran, result) := RunSuites(START, registry.value, 0, CUE_SUCCESS, settings);
      (Notify(ran, AllTestsComplete(Since(ran, 0))), result)
  }

  /** The run of one suite. */
  function RunOneSuite(suite: Option<Suite>, settings: Settings): (Progress, ErrorCode) {
    if suite.None? then (START, CUE_NOSUITE)
    else
      var (ran, result) := RunSuite(START, suite.value, settings);
      (Notify(ran, AllTestsComplete(Since(ran, 0))), result)
  }

  /** What the comparison of names makes of a letter: its upper case. */
  function Upper(c: char): char {
    if 'a' <= c <= 'z' then c - 'a' + 'A' else c
  }

  /** Names are the same when they differ only in case. */
  predicate SameName(s: Name, t: Name) {
    |s| == |t| && forall i :: 0 <= i < |s| ==> Upper(s[i]) == Upper(t[i])
  }

  /** The two are the small and the capital form of the `k`-th letter. */
  predicate TwoCases(k: nat, c: char, d: char) {
    k < 26 && {c as int, d as int} == {'a' as int + k, 'A' as int + k}
  }

  /** Two characters count as the same if and only if they are, or are the two forms of a letter. */
  lemma SameCharacters(c: char, d: char)
    ensures Upper(c) == Upper(d) <==> c == d || exists k :: TwoCases(k, c, d)
  {
    if Upper(c) == Upper(d) && c != d {
      var k := Upper(c) as int - 'A' as int;
      assert TwoCases(k, c, d);
    }
  }

  /** The suite has a test of that name. */
  predicate HasTest(suite: Suite, name: Name) {
    exists i :: 0 <= i < |suite.tests| && SameName(suite.tests[i].name, name)
  }

  /** The run of one test of a suite: unlike in the run of a suite, an inactive test is started and its error reported
      in any case, and the handler for the end of the suite is given no failures. */
  function RunOneTest(suite: Option<Suite>, test: Option<Test>, settings: Settings): (Progress, ErrorCode) {
    if suite.None? then (START, CUE_NOSUITE)
    else if test.None? then (START, CUE_NOTEST)
    else if !suite.value.active then (SkippedSuite(START, suite.value, settings).0, CUE_SUITE_INACTIVE)
    else if !HasTest(suite.value, test.value.name) then (START, CUE_TEST_NOT_IN_SUITE)
    else
      var started := Notify(START, SuiteStart(suite.value));
      var (ran, result) := RanOneTest(started, suite.value, test.value, settings);
      var completed := Notify(ran, SuiteComplete(suite.value, None));
      (Notify(completed, AllTestsComplete(Since(completed, 0))), result)
  }

  function RanOneTest(p: Progress, suite: Suite, test: Test, settings: Settings): (Progress, ErrorCode) {
    if suite.initFails then InitFailed(p, suite)
    else CleanedUp(RunTest(p, suite, test, settings), suite, if test.active then CUE_SUCCESS else CUE_TEST_INACTIVE)
  }

  /** How many records there are of a kind. */
  function Count(records: seq<Record>, kind: FailureType): nat
    decreases |records|
  {
    if records == [] then 0
    else Count(records[..|records| - 1], kind) + if records[|records| - 1].kind == kind then 1 else 0
  }

  /** How many tests were reported with failures. */
  function FailedTests(events: seq<Event<Option<nat>>>): nat
    decreases |events|
  {
    if events == [] then 0
    else
      var last := events[|events| - 1];
      FailedTests(events[..|events| - 1]) + if last.TestComplete? && last.failure.Some? then 1 else 0
  }

  /** How many active tests were reported. */
  function CompletedTests(events: seq<Event<Option<nat>>>): nat
    decreases |events|
  {
    if events == [] then 0
    else
      var last := events[|events| - 1];
      CompletedTests(events[..|events| - 1]) + if last.TestComplete? && last.test.active then 1 else 0
  }

  /** Every count agrees with the records of its kind, and the tests run and failed with what was reported of them. */
  predicate Balanced(p: Progress, settings: Settings) {
    && p.summary.nFailureRecords == |p.records|
    && p.summary.nAssertsFailed == Count(p.records, AssertFailed)
    && p.summary.nSuitesFailed == Count(p.records, SuiteInitFailed) + Count(p.records, SuiteCleanupFailed)
    && Count(p.records, SuiteInactive) == (if settings.failureOnInactive then p.summary.nSuitesInactive else 0)
    && Count(p.records, TestInactive) == (if settings.failureOnInactive then p.summary.nTestsInactive else 0)
    && p.summary.nTestsFailed == FailedTests(p.events)
    && p.summary.nTestsRun == CompletedTests(p.events)
    && p.summary.nAssertsFailed <= p.summary.nAsserts
  }

  lemma CountAdded(records: seq<Record>, record: Record, kind: FailureType)
    ensures Count(records + [record], kind) == Count(records, kind) + if record.kind == kind then 1 else 0
  {
    assert (records + [record])[..|records|] == records;
  }

  lemma {:induction false} CountsAddUp(records: seq<Record>)
    ensures |records| == Count(records, SuiteInactive) + Count(records, SuiteInitFailed)
                         + Count(records, SuiteCleanupFailed)
                         + Count(records, TestInactive) + Count(records, AssertFailed)
    decreases |records|
  {
    if records != [] {
      CountsAddUp(records[..|records| - 1]);
    }
  }

  /** One more record, counted as what it is. */
  lemma RecordAdded(p: Progress, record: Record)
    ensures forall kind ::
              Count(AddFailure(p, record).records, kind)
                  == Count(p.records, kind) + if record.kind == kind then 1 else 0
  {
    forall kind
      ensures Count(p.records + [record], kind) == Count(p.records, kind) + if record.kind == kind then 1 else 0
    {
      CountAdded(p.records, record, kind);
    }
  }

  lemma NotifyKeeps(p: Progress, event: Event<Option<nat>>)
    ensures FailedTests(Notify(p, event).events)
         == FailedTests(p.events) + if event.TestComplete? && event.failure.Some? then 1 else 0
    ensures CompletedTests(Notify(p, event).events)
         == CompletedTests(p.events) + if event.TestComplete? && event.test.active then 1 else 0
  {
    assert (p.events + [event])[..|p.events|] == p.events;
  }

  /** What assertions do: they add records of their test, and nothing else but counts of assertions. */
  lemma {:induction false} AssertAllKeeps(p: Progress, asserts: seq<Assertion>, suite: Suite, test: Test,
                                          settings: Settings)
    ensures var q := AssertAll(p, asserts, suite, test);
      && (Balanced(p, settings) ==> Balanced(q, settings))
      && q.events == p.events && q.summary.nTestsFailed == p.summary.nTestsFailed
         && q.summary.nTestsRun == p.summary.nTestsRun
      && Extended(p, q, suite, Some(test))
      && q.summary.nAsserts == p.summary.nAsserts + |asserts|
    decreases |asserts|
  {
    hide Assert, Balanced, Extended;
    if asserts != [] {
      var front := AssertAll(p, asserts[..|asserts| - 1], suite, test);
      AssertAllKeeps(p, asserts[..|asserts| - 1], suite, test, settings);
      AssertKeeps(front, asserts[|asserts| - 1], suite, test, settings);
      ExtendedOn(p, front, AssertAll(p, asserts, suite, test), suite, Some(test), Some(test));
    } else {
      ExtendedBy(p, suite, Some(test));
    }
  }

  lemma AssertKeeps(p: Progress, a: Assertion, suite: Suite, test: Test, settings: Settings)
    ensures var q := Assert(p, a, suite, test);
      && (Balanced(p, settings) ==> Balanced(q, settings))
      && q.events == p.events && q.summary.nTestsFailed == p.summary.nTestsFailed
         && q.summary.nTestsRun == p.summary.nTestsRun
      && Extended(p, q, suite, Some(test))
      && q.summary.nAsserts == p.summary.nAsserts + 1
  {
    hide Count, FailedTests, CompletedTests;
    RecordAdded(p, Record(AssertFailed, suite, Some(test)));
  }

  /** The records of `q` are those of `p` and others of the suite, and of the test, if one is given. */
  predicate Extended(p: Progress, q: Progress, suite: Suite, test: Option<Test>) {
    && p.records <= q.records
    && forall i :: |p.records| <= i < |q.records| ==>
        q.records[i].suite == suite && (test.Some? ==> q.records[i].test == test)
  }

  lemma ExtendedBy(p: Progress, suite: Suite, test: Option<Test>)
    ensures Extended(p, p, suite, test)
  {
  }

  lemma ExtendedOn(p: Progress, q: Progress, s: Progress, suite: Suite, test: Option<Test>, later: Option<Test>)
    requires Extended(p, q, suite, test) && Extended(q, s, suite, later) && (later == None || later == test)
    ensures Extended(p, s, suite, later)
  {
  }

  lemma RanActiveKeeps(p: Progress, suite: Suite, test: Test, settings: Settings)
    ensures var q := RanActive(p, suite, test);
      && (Balanced(p, settings) ==> Balanced(q.(summary := q.summary.(nTestsRun := p.summary.nTestsRun)), settings))
      && q.events == p.events && q.summary.nTestsFailed == p.summary.nTestsFailed
         && q.summary.nTestsRun == p.summary.nTestsRun + 1
      && Extended(p, q, suite, Some(test))
  {
    hide AssertAll, Count, FailedTests, CompletedTests, UpToFatal;
    var setUp := AssertAll(p, suite.setUp, suite, test);
    AssertAllKeeps(p, suite.setUp, suite, test, settings);
    var body := AssertAll(setUp, UpToFatal(test.body), suite, test);
    AssertAllKeeps(setUp, UpToFatal(test.body), suite, test, settings);
    AssertAllKeeps(body, suite.tearDown, suite, test, settings);
  }

  lemma RanInactiveKeeps(p: Progress, suite: Suite, test: Test, settings: Settings)
    ensures var q := RanInactive(p, suite, test, settings);
      && (Balanced(p, settings) ==> Balanced(q, settings))
      && q.events == p.events && q.summary.nTestsFailed == p.summary.nTestsFailed
         && q.summary.nTestsRun == p.summary.nTestsRun
      && Extended(p, q, suite, Some(test))
  {
    hide Count, FailedTests, CompletedTests;
    RecordAdded(p, Record(TestInactive, suite, Some(test)));
  }

  /** The run of a test keeps the balance; the failures it is reported with are just the records since it began, all
      of them its own. */
  lemma RunTestKeeps(p: Progress, suite: Suite, test: Test, settings: Settings)
    ensures var q := RunTest(p, suite, test, settings);
      && (Balanced(p, settings) ==> Balanced(q, settings))
      && q.events == p.events + [TestStart(test, suite), TestComplete(test, suite, Since(q, |p.records|))]
      && Since(q, |p.records|) == (if q.records == p.records then None else Some(|p.records|))
      && Extended(p, q, suite, Some(test))
  {
    hide RanActive, RanInactive, Count, FailedTests, CompletedTests;
    var started := Notify(p, TestStart(test, suite));
    NotifyKeeps(p, TestStart(test, suite));
    RanActiveKeeps(started, suite, test, settings);
    RanInactiveKeeps(started, suite, test, settings);
    var ran := if test.active then RanActive(started, suite, test) else RanInactive(started, suite, test, settings);
    NotifyKeeps(ran, TestComplete(test, suite, Since(ran, |p.records|)));
  }

  /** Where a sequence of handler calls stands. */
  datatype Phase =
    | Idle
    | Opened(suite: Suite)             // a suite has started
    | Testing(suite: Suite)            // so have tests of it
    | InTest(suite: Suite, test: Test)
    | Closing(suite: Suite)            // its initialization or its cleanup has failed
    | Finished
    | Wrong

  function NextPhase(phase: Phase, event: Event<Option<nat>>): Phase {
    match (phase, event)
    case (Idle, SuiteStart(s)) => Opened(s)
    case (Idle, AllTestsComplete(_)) => Finished
    case (Opened(s), SuiteInitFailure(s')) => if s == s' then Closing(s) else Wrong
    case (Opened(s), TestStart(t, s')) => if s == s' then InTest(s, t) else Wrong
    case (Opened(s), SuiteCleanupFailure(s')) => if s == s' then Closing(s) else Wrong
    case (Opened(s), SuiteComplete(s', _)) => if s == s' then Idle else Wrong
    case (Testing(s), TestStart(t, s')) => if s == s' then InTest(s, t) else Wrong
    case (Testing(s), SuiteCleanupFailure(s')) => if s == s' then Closing(s) else Wrong
    case (Testing(s), SuiteComplete(s', _)) => if s == s' then Idle else Wrong
    case (InTest(s, t), TestComplete(t', s', _)) => if s == s' && t == t' then Testing(s) else Wrong
    case (Closing(s), SuiteComplete(s', _)) => if s == s' then Idle else Wrong
    case _ => Wrong
  }

  function PhaseAfter(events: seq<Event<Option<nat>>>): Phase
    decreases |events|
  {
    if events == [] then Idle else NextPhase(PhaseAfter(events[..|events| - 1]), events[|events| - 1])
  }

  lemma PhaseNotified(events: seq<Event<Option<nat>>>, event: Event<Option<nat>>)
    ensures PhaseAfter(events + [event]) == NextPhase(PhaseAfter(events), event)
  {
    assert (events + [event])[..|events|] == events;
  }

  /** Inside a suite, between its tests. */
  predicate Between(events: seq<Event<Option<nat>>>, suite: Suite) {
    PhaseAfter(events) == Opened(suite) || PhaseAfter(events) == Testing(suite)
  }

  lemma TestPhases(p: Progress, suite: Suite, test: Test, settings: Settings)
    requires Between(p.events, suite)
    ensures Between(RunOrSkip(p, suite, test, settings).events, suite)
    ensures Between(RunTest(p, suite, test, settings).events, suite)
  {
    hide RunTest, RanInactive, Balanced, PhaseAfter;
    RunTestKeeps(p, suite, test, settings);
    RanInactiveKeeps(p, suite, test, settings);
    var failure := Since(RunTest(p, suite, test, settings), |p.records|);
    PhaseNotified(p.events, TestStart(test, suite));
    PhaseNotified(p.events + [TestStart(test, suite)], TestComplete(test, suite, failure));
    assert p.events + [TestStart(test, suite), TestComplete(test, suite, failure)]
        == p.events + [TestStart(test, suite)] + [TestComplete(test, suite, failure)];
  }

  /** Tests of a suite keep the balance, record nothing that is not the suite's, and start and complete in turn. */
  lemma {:induction false} RunTestsKeeps(p: Progress, suite: Suite, k: nat, result: ErrorCode, settings: Settings)
    requires Between(p.events, suite)
    ensures var q := RunTests(p, suite, k, result, settings).0;
      && (Balanced(p, settings) ==> Balanced(q, settings))
      && Extended(p, q, suite, None) && Between(q.events, suite)
    decreases |suite.tests| - k
  {
    hide RunTest, RanInactive, Balanced, Extended, Between, TestResult;
    if k < |suite.tests| && GoesOn(result, settings) {
      var test := suite.tests[k];
      RunTestKeeps(p, suite, test, settings);
      RanInactiveKeeps(p, suite, test, settings);
      TestPhases(p, suite, test, settings);
      var on := RunOrSkip(p, suite, test, settings);
      RunTestsKeeps(on, suite, k + 1, TestResult(result, test, settings), settings);
      ExtendedOn(p, on, RunTests(p, suite, k, result, settings).0, suite, Some(test), None);
    } else {
      ExtendedBy(p, suite, None);
    }
  }

  lemma SuiteFailedKeeps(p: Progress, suite: Suite, kind: FailureType, settings: Settings)
    requires kind == SuiteInitFailed || kind == SuiteCleanupFailed
    ensures var q := SuiteFailed(p, suite, kind);
      (Balanced(p, settings) ==> Balanced(q, settings)) && Extended(p, q, suite, None) && q.events == p.events
  {
    hide Count, FailedTests, CompletedTests;
    RecordAdded(p, Record(kind, suite, None));
  }

  lemma SkippedSuiteKeeps(p: Progress, suite: Suite, settings: Settings)
    ensures var q := SkippedSuite(p, suite, settings).0;
      (Balanced(p, settings) ==> Balanced(q, settings)) && Extended(p, q, suite, None) && q.events == p.events
  {
    hide Count, FailedTests, CompletedTests;
    RecordAdded(p, Record(SuiteInactive, suite, None));
  }

  /** The suite's cleanup, and the end of the suite. */
  lemma CleanedUpKeeps(p: Progress, suite: Suite, result: ErrorCode, failure: Option<nat>, settings: Settings)
    requires Between(p.events, suite)
    ensures var q := CleanedUp(p, suite, result).0;
      && (Balanced(p, settings) ==>
          Balanced(q, settings) && Balanced(Notify(q, SuiteComplete(suite, failure)), settings))
      && Extended(p, q, suite, None)
      && PhaseAfter(Notify(q, SuiteComplete(suite, failure)).events) == Idle
  {
    hide Count, FailedTests, CompletedTests, PhaseAfter;
    var notified := Notify(p, SuiteCleanupFailure(suite));
    NotifyKeeps(p, SuiteCleanupFailure(suite));
    SuiteFailedKeeps(notified, suite, SuiteCleanupFailed, settings);
    PhaseNotified(p.events, SuiteCleanupFailure(suite));
    var q := CleanedUp(p, suite, result).0;
    NotifyKeeps(q, SuiteComplete(suite, failure));
    PhaseNotified(q.events, SuiteComplete(suite, failure));
  }

  /** A suite whose initialization has failed, up to its end. */
  lemma InitFailedKeeps(p: Progress, suite: Suite, failure: Option<nat>, settings: Settings)
    requires PhaseAfter(p.events) == Opened(suite)
    ensures var q := SuiteFailed(Notify(p, SuiteInitFailure(suite)), suite, SuiteInitFailed);
      && (Balanced(p, settings) ==>
          Balanced(q, settings) && Balanced(Notify(q, SuiteComplete(suite, failure)), settings))
      && Extended(p, q, suite, None)
      && PhaseAfter(Notify(q, SuiteComplete(suite, failure)).events) == Idle
  {
    hide Count, FailedTests, CompletedTests, PhaseAfter;
    var notified := Notify(p, SuiteInitFailure(suite));
    NotifyKeeps(p, SuiteInitFailure(suite));
    SuiteFailedKeeps(notified, suite, SuiteInitFailed, settings);
    PhaseNotified(p.events, SuiteInitFailure(suite));
    var q := SuiteFailed(notified, suite, SuiteInitFailed);
    NotifyKeeps(q, SuiteComplete(suite, failure));
    PhaseNotified(q.events, SuiteComplete(suite, failure));
  }

  /** The run of a suite keeps the balance; its handler calls form a whole block; and the failures it is reported with
      are just the records since it began, all of them its own. */
  lemma RunSuiteKeeps(p: Progress, suite: Suite, settings: Settings)
    requires PhaseAfter(p.events) == Idle
    ensures var q := RunSuite(p, suite, settings).0;
      && (Balanced(p, settings) ==> Balanced(q, settings))
      && PhaseAfter(q.events) == Idle && Extended(p, q, suite, None)
      && q.events != [] && q.events[|q.events| - 1] == SuiteComplete(suite, Since(q, |p.records|))
      && Since(q, |p.records|) == (if q.records == p.records then None else Some(|p.records|))
  {
    hide Count, FailedTests, CompletedTests, PhaseAfter, RunTests, CleanedUp, SkippedSuite, SuiteFailed;
    var started := Notify(p, SuiteStart(suite));
    NotifyKeeps(p, SuiteStart(suite));
    PhaseNotified(p.events, SuiteStart(suite));
    var q := RunSuite(p, suite, settings).0;
    var failure := Since(q, |p.records|);
    if !suite.active {
      SkippedSuiteKeeps(started, suite, settings);
      var skipped := SkippedSuite(started, suite, settings).0;
      NotifyKeeps(skipped, SuiteComplete(suite, failure));
      PhaseNotified(skipped.events, SuiteComplete(suite, failure));
    } else if suite.initFails {
      InitFailedKeeps(started, suite, failure, settings);
    } else {
      var (tested, result) := RunTests(started, suite, 0, CUE_SUCCESS, settings);
      RunTestsKeeps(started, suite, 0, CUE_SUCCESS, settings);
      var counted := tested.(summary := tested.summary.(nSuitesRun := tested.summary.nSuitesRun + 1));
      CleanedUpKeeps(counted, suite, result, failure, settings);
    }
  }

  lemma {:induction false} RunSuitesKeeps(p: Progress, suites: seq<Suite>, k: nat, result: ErrorCode,
                                          settings: Settings)
    requires PhaseAfter(p.events) == Idle && Balanced(p, settings)
    ensures var q := RunSuites(p, suites, k, result, settings).0;
      Balanced(q, settings) && PhaseAfter(q.events) == Idle
    decreases |suites| - k
  {
    if k < |suites| && GoesOn(result, settings) {
      hide RunSuite, Balanced, PhaseAfter;
      var (ran, result2) := RunSuite(p, suites[k], settings);
      RunSuiteKeeps(p, suites[k], settings);
      RunSuitesKeeps(ran, suites, k + 1, FirstError(result, result2), settings);
    }
  }

  /** The conservation law: every failure record stands for one failed assertion, one failed suite or, if inactivity
      counts as a failure, one inactive suite or test. */
  predicate Conserved(p: Progress, settings: Settings) {
    p.summary.nFailureRecords == |p.records|
    == p.summary.nAssertsFailed + p.summary.nSuitesFailed
       + if settings.failureOnInactive then p.summary.nSuitesInactive + p.summary.nTestsInactive else 0
  }

  lemma BalancedConserves(p: Progress, settings: Settings)
    requires Balanced(p, settings)
    ensures Conserved(p, settings)
  {
    CountsAddUp(p.records);
  }

  lemma AllComplete(p: Progress, settings: Settings)
    requires Balanced(p, settings) && PhaseAfter(p.events) == Idle
    ensures var q := Notify(p, AllTestsComplete(Since(p, 0)));
      Balanced(q, settings) && Conserved(q, settings) && PhaseAfter(q.events) == Finished
  {
    NotifyKeeps(p, AllTestsComplete(Since(p, 0)));
    PhaseNotified(p.events, AllTestsComplete(Since(p, 0)));
    BalancedConserves(Notify(p, AllTestsComplete(Since(p, 0))), settings);
  }

  /** Every run of a registry conserves its counts, and calls the handlers in the order it should. */
  lemma RunAllTestsConserves(registry: Option<seq<Suite>>, settings: Settings)
    ensures var q := RunAllTests(registry, settings).0;
      Conserved(q, settings) && q.summary.nTestsFailed == FailedTests(q.events)
         && q.summary.nTestsRun == CompletedTests(q.events)
      && PhaseAfter(q.events) == if registry.Some? then Finished else Idle
  {
    if registry.Some? {
      RunSuitesKeeps(START, registry.value, 0, CUE_SUCCESS, settings);
      AllComplete(RunSuites(START, registry.value, 0, CUE_SUCCESS, settings).0, settings);
    }
  }

  /** So does every run of one suite. */
  lemma RunOneSuiteConserves(suite: Option<Suite>, settings: Settings)
    ensures var q := RunOneSuite(suite, settings).0;
      Conserved(q, settings) && q.summary.nTestsFailed == FailedTests(q.events)
         && q.summary.nTestsRun == CompletedTests(q.events)
      && PhaseAfter(q.events) == if suite.Some? then Finished else Idle
  {
    if suite.Some? {
      RunSuiteKeeps(START, suite.value, settings);
      AllComplete(RunSuite(START, suite.value, settings).0, settings);
    }
  }

  /** So does every run of one test. */
  lemma RunOneTestConserves(suite: Option<Suite>, test: Option<Test>, settings: Settings)
    ensures var q := RunOneTest(suite, test, settings).0;
      Conserved(q, settings) && q.summary.nTestsFailed == FailedTests(q.events)
         && q.summary.nTestsRun == CompletedTests(q.events)
      && (PhaseAfter(q.events) == Finished
          <==> suite.Some? && test.Some? && suite.value.active && HasTest(suite.value, test.value.name))
      && (PhaseAfter(q.events) == Finished || q.events == [])
  {
    hide Count, FailedTests, CompletedTests, RunTest;
    assert Balanced(START, settings) by {
      BlankBalanced(settings);
    }
    if suite.Some? && test.Some? {
      SkippedSuiteKeeps(START, suite.value, settings);
      BalancedConserves(SkippedSuite(START, suite.value, settings).0, settings);
      if suite.value.active && HasTest(suite.value, test.value.name) {
        OneTestKeeps(suite.value, test.value, settings);
      }
    }
  }

  /** Nothing goes wrong in the run of one test: no initialization or cleanup fails, and every assertion of an active
      test holds; an inactive test goes wrong if that counts as a failure. */
  predicate Flawless(suite: Suite, test: Test, settings: Settings) {
    && !suite.initFails && !suite.cleanupFails
    && if test.active then AllHold(suite.setUp) && AllHold(test.body) && AllHold(suite.tearDown)
       else !settings.failureOnInactive
  }

  predicate AllHold(asserts: seq<Assertion>) {
    forall i :: 0 <= i < |asserts| ==> asserts[i].holds
  }

  /** Assertions leave a record if and only if one of them fails. */
  lemma {:induction false} RecordsOfAsserts(p: Progress, asserts: seq<Assertion>, suite: Suite, test: Test)
    ensures |p.records| <= |AssertAll(p, asserts, suite, test).records|
    ensures |AssertAll(p, asserts, suite, test).records| == |p.records| <==> AllHold(asserts)
    decreases |asserts|
  {
    if asserts != [] {
      RecordsOfAsserts(p, asserts[..|asserts| - 1], suite, test);
    }
  }

  /** The assertions up to the first failing fatal one all hold if and only if all do. */
  lemma MadeHold(asserts: seq<Assertion>)
    ensures AllHold(UpToFatal(asserts)) <==> AllHold(asserts)
  {
    hide UpToFatal;
    var made := UpToFatal(asserts);
    if |made| < |asserts| {
      assert !made[|made| - 1].holds && asserts[|made| - 1] == made[|made| - 1];
    }
  }

  lemma RecordsOfTest(p: Progress, suite: Suite, test: Test, settings: Settings)
    ensures var q := RunTest(p, suite, test, settings);
      && |p.records| <= |q.records|
      && (|q.records| == |p.records| <==>
            if test.active then AllHold(suite.setUp) && AllHold(test.body) && AllHold(suite.tearDown)
            else !settings.failureOnInactive)
  {
    hide AllHold, AssertAll, UpToFatal;
    if test.active {
      var started := Notify(p, TestStart(test, suite));
      var setUp := AssertAll(started, suite.setUp, suite, test);
      var body := AssertAll(setUp, UpToFatal(test.body), suite, test);
      RecordsOfAsserts(started, suite.setUp, suite, test);
      RecordsOfAsserts(setUp, UpToFatal(test.body), suite, test);
      MadeHold(test.body);
      RecordsOfAsserts(body, suite.tearDown, suite, test);
    }
  }

  /** In the run of one test the handler for the end of the suite is given no failure list. That is the right one, the
      list of all records of the run, if and only if nothing goes wrong; the handler for the end of the run always
      gets the right one. */
  lemma SuiteReportRight(suite: Suite, test: Test, settings: Settings)
    requires suite.active && HasTest(suite, test.name)
    ensures var q := RunOneTest(Some(suite), Some(test), settings).0;
      && |q.events| >= 2 && q.events[|q.events| - 1] == AllTestsComplete(Since(q, 0))
      && q.events[|q.events| - 2] == SuiteComplete(suite, None)
      && (Since(q, 0) == None <==> Flawless(suite, test, settings))
  {
    hide RunTest, AllHold;
    RecordsOfTest(Notify(START, SuiteStart(suite)), suite, test, settings);
  }

  lemma BlankBalanced(settings: Settings)
    ensures Balanced(START, settings)
  {
  }

  lemma OpenedFirst(suite: Suite)
    ensures PhaseAfter(Notify(START, SuiteStart(suite)).events) == Opened(suite)
  {
    PhaseNotified([], SuiteStart(suite));
  }

  lemma OneTestKeeps(suite: Suite, test: Test, settings: Settings)
    ensures var q := Notify(RanOneTest(Notify(START, SuiteStart(suite)), suite, test, settings).0,
            SuiteComplete(suite, None));
      Balanced(q, settings) && PhaseAfter(q.events) == Idle
      && Conserved(Notify(q, AllTestsComplete(Since(q, 0))), settings)
      && Balanced(Notify(q, AllTestsComplete(Since(q, 0))), settings)
      && PhaseAfter(Notify(q, AllTestsComplete(Since(q, 0))).events) == Finished
  {
    hide Count, FailedTests, CompletedTests, PhaseAfter, RunTest, CleanedUp, SuiteFailed;
    BlankBalanced(settings);
    var started := Notify(START, SuiteStart(suite));
    NotifyKeeps(START, SuiteStart(suite));
    OpenedFirst(suite);
    if suite.initFails {
      InitFailedKeeps(started, suite, None, settings);
    } else {
      RunTestKeeps(started, suite, test, settings);
      TestPhases(started, suite, test, settings);
      CleanedUpKeeps(RunTest(started, suite, test, settings), suite,
                     if test.active then CUE_SUCCESS else CUE_TEST_INACTIVE, None, settings);
    }
    AllComplete(Notify(RanOneTest(started, suite, test, settings).0, SuiteComplete(suite, None)), settings);
  }
}
