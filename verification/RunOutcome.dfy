/** What a run comes to, told from the suites and tests alone: which of them it starts, what it counts and records,
    and the error it ends with. */
module RunOutcome {
  import opened Wrappers
  import opened RunModel

  /** An inactive test that ends the run. */
  predicate Stops(test: Test, settings: Settings) {
    !test.active && settings.failureOnInactive && !settings.ignoreErrors
  }

  /** The tests that the run of a suite comes to: those up to the first that ends the run, or all if none does. */
  function Reached(tests: seq<Test>, settings: Settings): (reached: seq<Test>)
    ensures reached <= tests
    ensures forall i :: 0 <= i < |reached| - 1 ==> !Stops(reached[i], settings)
    ensures |reached| < |tests| ==> reached != [] && Stops(reached[|reached| - 1], settings)
  {
    if tests == [] || Stops(tests[0], settings) then tests[..if tests == [] then 0 else 1]
    else [tests[0]] + Reached(tests[1..], settings)
  }

  /** The assertions that an active test makes, with those of the functions around it. */
  function Made(suite: Suite, test: Test): seq<Assertion> {
    suite.setUp + UpToFatal(test.body) + suite.tearDown
  }

  /** How many of the assertions fail. */
  function Broken(asserts: seq<Assertion>): nat
    decreases |asserts|
  {
    if asserts == [] then 0
    else Broken(asserts[..|asserts| - 1]) + if asserts[|asserts| - 1].holds then 0 else 1
  }

  /** The error of a suite, from what is wrong with it. */
  function ErrorOf(suite: Suite, settings: Settings): ErrorCode {
    if !suite.active then (if settings.failureOnInactive then CUE_SUITE_INACTIVE else CUE_SUCCESS)
    else if suite.initFails then CUE_SINIT_FAILED
    else if settings.failureOnInactive && exists i :: 0 <= i < |suite.tests| && !suite.tests[i].active
    then CUE_TEST_INACTIVE
    else if suite.cleanupFails then CUE_SCLEAN_FAILED
    else CUE_SUCCESS
  }

  /** A suite that ends the run. */
  predicate Ends(suite: Suite, settings: Settings) {
    ErrorOf(suite, settings) != CUE_SUCCESS && !settings.ignoreErrors
  }

  /** The suites that a run starts: those up to the first that ends the run, or all if none does. */
  function Started(suites: seq<Suite>, settings: Settings): (started: seq<Suite>)
    ensures started <= suites
    ensures forall i :: 0 <= i < |started| - 1 ==> !Ends(started[i], settings)
    ensures |started| < |suites| ==> started != [] && Ends(started[|started| - 1], settings)
  {
    if suites == [] || Ends(suites[0], settings) then suites[..if suites == [] then 0 else 1]
    else [suites[0]] + Started(suites[1..], settings)
  }

  /** The suites before the `i`-th have no error, and that one has `error`. */
  predicate ErrorAt(error: ErrorCode, suites: seq<Suite>, i: nat, settings: Settings) {
    && i < |suites| && ErrorOf(suites[i], settings) == error
    && forall j :: 0 <= j < i ==> ErrorOf(suites[j], settings) == CUE_SUCCESS
  }

  /** The first error of the suites. */
  ghost predicate IsFirstError(result: ErrorCode, suites: seq<Suite>, settings: Settings) {
    if result == CUE_SUCCESS then forall i :: 0 <= i < |suites| ==> ErrorOf(suites[i], settings) == CUE_SUCCESS
    else exists i: nat :: ErrorAt(result, suites, i, settings)
  }

  /** A handler call without the failure list that goes with it. */
  type Call = Event<()>

  function CallOf(event: Event<Option<nat>>): Call {
    match event
    case SuiteStart(suite) => SuiteStart(suite)
    case TestStart(test, suite) => TestStart(test, suite)
    case TestComplete(test, suite, _) => TestComplete(test, suite, ())
    case SuiteInitFailure(suite) => SuiteInitFailure(suite)
    case SuiteCleanupFailure(suite) => SuiteCleanupFailure(suite)
    case SuiteComplete(suite, _) => SuiteComplete(suite, ())
    case AllTestsComplete(_) => AllTestsComplete(())
  }

  function Calls(events: seq<Event<Option<nat>>>): (calls: seq<Call>)
    ensures |calls| == |events|
    ensures forall i :: 0 <= i < |events| ==> calls[i] == CallOf(events[i])
  {
    seq(|events|, i requires 0 <= i < |events| => CallOf(events[i]))
  }

  /** The calls for one test of a suite: an active one is started and completed. */
  function OneTestCalls(suite: Suite, test: Test): seq<Call> {
    if test.active then [TestStart(test, suite), TestComplete(test, suite, ())] else []
  }

  /** The calls for tests of a suite, in order. */
  function TestCalls(suite: Suite, tests: seq<Test>): seq<Call> {
    if tests == [] then []
    else OneTestCalls(suite, tests[0]) + TestCalls(suite, tests[1..])
  }

  /** The calls for the cleanup of a suite. */
  function CleanupCalls(suite: Suite): seq<Call> {
    if suite.cleanupFails then [SuiteCleanupFailure(suite)] else []
  }

  /** The calls for a suite, from its start to its end. */
  function SuiteCalls(suite: Suite, settings: Settings): seq<Call> {
    [SuiteStart(suite)] + CallsInside(suite, settings) + [SuiteComplete(suite, ())]
  }

  function CallsInside(suite: Suite, settings: Settings): seq<Call> {
    if !suite.active then []
    else if suite.initFails then [SuiteInitFailure(suite)]
    else TestCalls(suite, Reached(suite.tests, settings)) + CleanupCalls(suite)
  }

  function RunCalls(suites: seq<Suite>, settings: Settings): seq<Call> {
    if suites == [] then [] else SuiteCalls(suites[0], settings) + RunCalls(suites[1..], settings)
  }

  /** The failures of a test: its failed assertions, or that it is inactive. */
  function TestFailures(suite: Suite, test: Test, settings: Settings): seq<Record> {
    if test.active then Copies(Broken(Made(suite, test)), Record(AssertFailed, suite, Some(test)))
    else if settings.failureOnInactive then [Record(TestInactive, suite, Some(test))]
    else []
  }

  function Copies<T>(n: nat, t: T): (copies: seq<T>)
    ensures |copies| == n && forall i :: 0 <= i < n ==> copies[i] == t
  {
    seq(n, _ => t)
  }

  function TestsFailures(suite: Suite, tests: seq<Test>, settings: Settings): seq<Record> {
    if tests == [] then []
    else TestFailures(suite, tests[0], settings) + TestsFailures(suite, tests[1..], settings)
  }

  function CleanupFailures(suite: Suite): seq<Record> {
    if suite.cleanupFails then [Record(SuiteCleanupFailed, suite, None)] else []
  }

  /** The failures of a suite, in the order in which they come up. */
  function SuiteFailures(suite: Suite, settings: Settings): seq<Record> {
    if !suite.active then (if settings.failureOnInactive then [Record(SuiteInactive, suite, None)] else [])
    else if suite.initFails then [Record(SuiteInitFailed, suite, None)]
    else TestsFailures(suite, Reached(suite.tests, settings), settings) + CleanupFailures(suite)
  }

  function RunFailures(suites: seq<Suite>, settings: Settings): seq<Record> {
    if suites == [] then [] else SuiteFailures(suites[0], settings) + RunFailures(suites[1..], settings)
  }

  const ZERO: RunSummary := RunSummary(0, 0, 0, 0, 0, 0, 0, 0, 0)

  function Plus(a: RunSummary, b: RunSummary): RunSummary {
    RunSummary(a.nSuitesRun + b.nSuitesRun, a.nSuitesFailed + b.nSuitesFailed, a.nSuitesInactive + b.nSuitesInactive,
               a.nTestsRun + b.nTestsRun, a.nTestsFailed + b.nTestsFailed, a.nTestsInactive + b.nTestsInactive,
               a.nAsserts + b.nAsserts, a.nAssertsFailed + b.nAssertsFailed, a.nFailureRecords + b.nFailureRecords)
  }

  /** What a test counts for: an inactive one is reported as failed only when it is started on its own. */
  function TestTally(suite: Suite, test: Test, started: bool, settings: Settings): RunSummary {
    var failures := |TestFailures(suite, test, settings)|;
    var tally := ZERO.(nFailureRecords := failures, nTestsFailed := if started && failures > 0 then 1 else 0);
    if test.active
    then tally.(nTestsRun := 1, nAsserts := |Made(suite, test)|, nAssertsFailed := Broken(Made(suite, test)))
    else tally.(nTestsInactive := 1)
  }

  function TestsTally(suite: Suite, tests: seq<Test>, settings: Settings): RunSummary {
    if tests == [] then ZERO
    else Plus(TestTally(suite, tests[0], tests[0].active, settings), TestsTally(suite, tests[1..], settings))
  }

  function CleanupTally(suite: Suite): RunSummary {
    if suite.cleanupFails then ZERO.(nSuitesFailed := 1, nFailureRecords := 1) else ZERO
  }

  function SuiteTally(suite: Suite, settings: Settings): RunSummary {
    if !suite.active then
      ZERO.(nSuitesInactive := 1, nFailureRecords := if settings.failureOnInactive then 1 else 0)
    else if suite.initFails then ZERO.(nSuitesFailed := 1, nFailureRecords := 1)
    else Plus(TestsTally(suite, Reached(suite.tests, settings), settings), CleanupTally(suite).(nSuitesRun := 1))
  }

  function RunTally(suites: seq<Suite>, settings: Settings): RunSummary {
    if suites == [] then ZERO else Plus(SuiteTally(suites[0], settings), RunTally(suites[1..], settings))
  }

  /** What there is in `q` besides what there was in `p`. */
  predicate Adds(p: Progress, q: Progress, calls: seq<Call>, failures: seq<Record>, tally: RunSummary) {
    && Calls(q.events) == Calls(p.events) + calls
    && q.records == p.records + failures
    && q.summary == Plus(p.summary, tally)
  }

  lemma AddsNothing(p: Progress)
    ensures Adds(p, p, [], [], ZERO)
  {
  }

  lemma AddsOn(p: Progress, q: Progress, r: Progress, calls: seq<Call>, failures: seq<Record>, tally: RunSummary,
               calls2: seq<Call>, failures2: seq<Record>, tally2: RunSummary)
    requires Adds(p, q, calls, failures, tally) && Adds(q, r, calls2, failures2, tally2)
    ensures Adds(p, r, calls + calls2, failures + failures2, Plus(tally, tally2))
  {
  }

  lemma NotifyAdds(p: Progress, event: Event<Option<nat>>)
    ensures Adds(p, Notify(p, event), [CallOf(event)], [], ZERO)
  {
  }

  lemma BrokenJoined(a: seq<Assertion>, b: seq<Assertion>)
    ensures Broken(a + b) == Broken(a) + Broken(b)
    decreases |b|
  {
    if b == [] {
      assert a + b == a;
    } else {
      var front := b[..|b| - 1];
      BrokenJoined(a, front);
      assert (a + b)[..|a + b| - 1] == a + front;
    }
  }

  /** What assertions add. */
  lemma {:induction false} AssertsAdd(p: Progress, asserts: seq<Assertion>, suite: Suite, test: Test)
    ensures Adds(p, AssertAll(p, asserts, suite, test), [],
                 Copies(Broken(asserts), Record(AssertFailed, suite, Some(test))),
                 ZERO.(nAsserts := |asserts|, nAssertsFailed := Broken(asserts), nFailureRecords := Broken(asserts)))
    decreases |asserts|
  {
    if asserts != [] {
      AssertsAdd(p, asserts[..|asserts| - 1], suite, test);
    }
  }

  /** What the run of an active test adds between its two calls. */
  lemma RanActiveAdds(p: Progress, suite: Suite, test: Test)
    ensures Adds(p, RanActive(p, suite, test), [],
                 Copies(Broken(Made(suite, test)), Record(AssertFailed, suite, Some(test))),
                 ZERO.(nTestsRun := 1, nAsserts := |Made(suite, test)|, nAssertsFailed := Broken(Made(suite, test)),
                       nFailureRecords := Broken(Made(suite, test))))
  {
    hide AssertAll, UpToFatal, Broken;
    var body := UpToFatal(test.body);
    AssertsAdd(p, suite.setUp, suite, test);
    var setUp := AssertAll(p, suite.setUp, suite, test);
    AssertsAdd(setUp, body, suite, test);
    AssertsAdd(AssertAll(setUp, body, suite, test), suite.tearDown, suite, test);
    BrokenJoined(suite.setUp, body);
    BrokenJoined(suite.setUp + body, suite.tearDown);
  }

  lemma RanInactiveAdds(p: Progress, suite: Suite, test: Test, settings: Settings)
    requires !test.active
    ensures Adds(p, RanInactive(p, suite, test, settings), [], TestFailures(suite, test, settings),
                 TestTally(suite, test, false, settings))
  {
  }

  /** What the run of a test adds. */
  lemma TestAdds(p: Progress, suite: Suite, test: Test, settings: Settings)
    ensures Adds(p, RunTest(p, suite, test, settings),
                 [TestStart(test, suite), TestComplete(test, suite, ())], TestFailures(suite, test, settings),
                 TestTally(suite, test, true, settings))
  {
    hide RanActive, RanInactive, Made, Broken;
    var started := Notify(p, TestStart(test, suite));
    if test.active {
      RanActiveAdds(started, suite, test);
    } else {
      RanInactiveAdds(started, suite, test, settings);
    }
  }

  /** What a test of a suite adds, started or not. */
  lemma RunOrSkipAdds(p: Progress, suite: Suite, test: Test, settings: Settings)
    ensures Adds(p, RunOrSkip(p, suite, test, settings), OneTestCalls(suite, test),
                 TestFailures(suite, test, settings), TestTally(suite, test, test.active, settings))
  {
    hide Adds, RunTest, RanInactive, TestFailures, TestTally;
    if test.active {
      TestAdds(p, suite, test, settings);
    } else {
      RanInactiveAdds(p, suite, test, settings);
    }
  }

  lemma ReachedFirst(tests: seq<Test>, k: nat, settings: Settings)
    requires k < |tests|
    ensures Reached(tests[k..], settings)
         == [tests[k]] + if Stops(tests[k], settings) then [] else Reached(tests[k + 1..], settings)
  {
    assert tests[k..][1..] == tests[k + 1..];
  }

  /** What comes to the tests with one more in front. */
  lemma TestsUnfold(suite: Suite, test: Test, rest: seq<Test>, settings: Settings)
    ensures TestCalls(suite, [test] + rest) == OneTestCalls(suite, test) + TestCalls(suite, rest)
    ensures TestsFailures(suite, [test] + rest, settings)
         == TestFailures(suite, test, settings) + TestsFailures(suite, rest, settings)
    ensures TestsTally(suite, [test] + rest, settings)
         == Plus(TestTally(suite, test, test.active, settings), TestsTally(suite, rest, settings))
  {
    assert ([test] + rest)[1..] == rest;
  }

  lemma NoTests(suite: Suite, settings: Settings)
    ensures TestCalls(suite, []) == [] && TestsFailures(suite, [], settings) == []
    ensures TestsTally(suite, [], settings) == ZERO
  {
  }

  /** What the tests of a suite add from the `k`-th on: those up to the first one that ends the run. */
  lemma {:induction false} TestsAdd(p: Progress, suite: Suite, k: nat, result: ErrorCode, settings: Settings)
    requires k <= |suite.tests| && (result == CUE_SUCCESS || settings.ignoreErrors)
    ensures var reached := Reached(suite.tests[k..], settings);
      Adds(p, RunTests(p, suite, k, result, settings).0, TestCalls(suite, reached),
           TestsFailures(suite, reached, settings), TestsTally(suite, reached, settings))
    decreases |suite.tests| - k
  {
    hide Adds, RunOrSkip, TestFailures, TestTally, OneTestCalls, Plus;
    if k == |suite.tests| {
      AddsNothing(p);
    } else {
      hide TestCalls, TestsFailures, TestsTally, Reached;
      var test := suite.tests[k];
      var on, result2 := RunOrSkip(p, suite, test, settings), TestResult(result, test, settings);
      var q := RunTests(on, suite, k + 1, result2, settings).0;
      var rest := if Stops(test, settings) then [] else Reached(suite.tests[k + 1..], settings);
      RunOrSkipAdds(p, suite, test, settings);
      if Stops(test, settings) {
        AddsNothing(on);
        NoTests(suite, settings);
      } else {
        TestsAdd(on, suite, k + 1, result2, settings);
      }
      AddsOn(p, on, q, OneTestCalls(suite, test), TestFailures(suite, test, settings),
             TestTally(suite, test, test.active, settings), TestCalls(suite, rest),
             TestsFailures(suite, rest, settings), TestsTally(suite, rest, settings));
      ReachedFirst(suite.tests, k, settings);
      TestsUnfold(suite, test, rest, settings);
    }
  }

  lemma PlusZero(tally: RunSummary)
    ensures Plus(tally, ZERO) == Plus(ZERO, tally) == tally
  {
  }

  /** What the cleanup of a suite adds. */
  lemma CleanedUpAdds(p: Progress, suite: Suite, result: ErrorCode)
    ensures Adds(p, CleanedUp(p, suite, result).0, CleanupCalls(suite), CleanupFailures(suite), CleanupTally(suite))
  {
  }

  lemma CleanupCounted(suite: Suite)
    ensures Plus(ZERO.(nSuitesRun := 1), CleanupTally(suite)) == CleanupTally(suite).(nSuitesRun := 1)
  {
    var one, cleanup := ZERO.(nSuitesRun := 1), CleanupTally(suite);
    assert one == RunSummary(1, 0, 0, 0, 0, 0, 0, 0, 0) && cleanup.nSuitesRun == 0;
    if suite.cleanupFails {
      assert cleanup == RunSummary(0, 1, 0, 0, 0, 0, 0, 0, 1);
    }
  }

  /** A suite is counted as run at the end of its tests. */
  lemma CountedAdds(p: Progress)
    ensures Adds(p, p.(summary := p.summary.(nSuitesRun := p.summary.nSuitesRun + 1)), [], [],
                 ZERO.(nSuitesRun := 1))
  {
  }

  /** What the run of an active suite whose initialization has not failed adds between its first and last calls. */
  lemma RanSuiteAdds(p: Progress, suite: Suite, settings: Settings)
    requires suite.active && !suite.initFails
    ensures Adds(p, RanSuite(p, suite, settings).0, CallsInside(suite, settings), SuiteFailures(suite, settings),
                 SuiteTally(suite, settings))
    ensures RanSuite(p, suite, settings).1 == ErrorOf(suite, settings)
  {
    hide Adds, RunTests, TestCalls, TestsFailures, TestsTally, Reached, CleanupCalls, CleanupFailures, CleanupTally;
    var (tested, result) := RunTests(p, suite, 0, CUE_SUCCESS, settings);
    var counted := tested.(summary := tested.summary.(nSuitesRun := tested.summary.nSuitesRun + 1));
    var reached := Reached(suite.tests, settings);
    assert suite.tests[0..] == suite.tests;
    TestsAdd(p, suite, 0, CUE_SUCCESS, settings);
    FirstErrorKept(p, suite, 0, CUE_SUCCESS, settings);
    CountedAdds(tested);
    CleanedUpAdds(counted, suite, result);
    CleanupCounted(suite);
    assert [] + CleanupCalls(suite) == CleanupCalls(suite) && [] + CleanupFailures(suite) == CleanupFailures(suite);
    AddsOn(tested, counted, CleanedUp(counted, suite, result).0, [], [], ZERO.(nSuitesRun := 1),
           CleanupCalls(suite), CleanupFailures(suite), CleanupTally(suite));
    AddsOn(p, tested, CleanedUp(counted, suite, result).0, TestCalls(suite, reached),
           TestsFailures(suite, reached, settings), TestsTally(suite, reached, settings), CleanupCalls(suite),
           CleanupFailures(suite), CleanupTally(suite).(nSuitesRun := 1));
  }

  lemma SkippedSuiteAdds(p: Progress, suite: Suite, settings: Settings)
    requires !suite.active
    ensures Adds(p, SkippedSuite(p, suite, settings).0, [], SuiteFailures(suite, settings),
                 SuiteTally(suite, settings))
  {
  }

  lemma InitFailedAdds(p: Progress, suite: Suite)
    ensures Adds(p, InitFailed(p, suite).0, [SuiteInitFailure(suite)], [Record(SuiteInitFailed, suite, None)],
                 ZERO.(nSuitesFailed := 1, nFailureRecords := 1))
  {
  }

  /** Calls before and after that leave no record are just two more calls. */
  lemma BetweenCalls(p: Progress, first: Event<Option<nat>>, q: Progress, last: Event<Option<nat>>, calls: seq<Call>,
                     failures: seq<Record>, tally: RunSummary)
    requires Adds(Notify(p, first), q, calls, failures, tally)
    ensures Adds(p, Notify(q, last), [CallOf(first)] + calls + [CallOf(last)], failures, tally)
  {
    hide Adds, Notify, CallOf, Plus;
    NotifyAdds(p, first);
    NotifyAdds(q, last);
    AddsOn(p, Notify(p, first), q, [CallOf(first)], [], ZERO, calls, failures, tally);
    PlusZero(tally);
    assert [] + failures == failures && failures + [] == failures;
    AddsOn(p, q, Notify(q, last), [CallOf(first)] + calls, failures, tally, [CallOf(last)], [], ZERO);
  }

  /** What the run of a suite adds, and the error it ends with. */
  lemma SuiteAdds(p: Progress, suite: Suite, settings: Settings)
    ensures Adds(p, RunModel.RunSuite(p, suite, settings).0, SuiteCalls(suite, settings),
                 SuiteFailures(suite, settings), SuiteTally(suite, settings))
    ensures RunModel.RunSuite(p, suite, settings).1 == ErrorOf(suite, settings)
  {
    hide Adds, RanSuite, Reached, TestCalls, TestsFailures, TestsTally;
    var started := Notify(p, SuiteStart(suite));
    if !suite.active {
      SkippedSuiteAdds(started, suite, settings);
    } else if suite.initFails {
      InitFailedAdds(started, suite);
    } else {
      RanSuiteAdds(started, suite, settings);
    }
    var ran := if !suite.active then SkippedSuite(started, suite, settings).0
               else if suite.initFails then InitFailed(started, suite).0
               else RanSuite(started, suite, settings).0;
    BetweenCalls(p, SuiteStart(suite), ran, SuiteComplete(suite, Since(ran, |p.records|)),
                 CallsInside(suite, settings), SuiteFailures(suite, settings), SuiteTally(suite, settings));
  }

  /** What the suites add from the `k`-th on: those up to the first one that ends the run. */
  lemma {:induction false} SuitesAdd(p: Progress, suites: seq<Suite>, k: nat, result: ErrorCode, settings: Settings)
    requires k <= |suites| && (result == CUE_SUCCESS || settings.ignoreErrors)
    ensures var started := Started(suites[k..], settings);
      Adds(p, RunSuites(p, suites, k, result, settings).0, RunCalls(started, settings),
           RunFailures(started, settings), RunTally(started, settings))
    decreases |suites| - k
  {
    hide Adds, RunModel.RunSuite, ErrorOf, SuiteCalls, SuiteFailures, SuiteTally;
    if k == |suites| {
      AddsNothing(p);
    } else {
      var suite := suites[k];
      var (ran, result2) := RunModel.RunSuite(p, suite, settings);
      SuiteAdds(p, suite, settings);
      var on := RunSuites(ran, suites, k + 1, FirstError(result, result2), settings).0;
      var rest := if Ends(suite, settings) then [] else Started(suites[k + 1..], settings);
      if Ends(suite, settings) {
        AddsNothing(ran);
      } else {
        SuitesAdd(ran, suites, k + 1, FirstError(result, result2), settings);
      }
      AddsOn(p, ran, on, SuiteCalls(suite, settings), SuiteFailures(suite, settings), SuiteTally(suite, settings),
             RunCalls(rest, settings), RunFailures(rest, settings), RunTally(rest, settings));
      StartedFirst(suites, k, settings);
      assert ([suite] + rest)[1..] == rest;
    }
  }

  lemma StartedFirst(suites: seq<Suite>, k: nat, settings: Settings)
    requires k < |suites|
    ensures Started(suites[k..], settings)
         == [suites[k]] + if Ends(suites[k], settings) then [] else Started(suites[k + 1..], settings)
  {
    assert suites[k..][1..] == suites[k + 1..];
  }

  /** The run of the suites from the `k`-th on ends with their first error. */
  lemma {:induction false} FirstErrorFound(p: Progress, suites: seq<Suite>, k: nat, result: ErrorCode,
                                           settings: Settings)
    requires k <= |suites|
    ensures result != CUE_SUCCESS ==> RunSuites(p, suites, k, result, settings).1 == result
    ensures result == CUE_SUCCESS ==>
              IsFirstError(RunSuites(p, suites, k, result, settings).1, Started(suites[k..], settings), settings)
    decreases |suites| - k
  {
    hide RunModel.RunSuite, ErrorOf, IsFirstError, Started;
    if k == |suites| {
      NoErrors(settings);
    } else if GoesOn(result, settings) {
      var (ran, result2) := RunModel.RunSuite(p, suites[k], settings);
      SuiteAdds(p, suites[k], settings);
      FirstErrorFound(ran, suites, k + 1, FirstError(result, result2), settings);
      if result == CUE_SUCCESS {
        StartedFirst(suites, k, settings);
        FirstOrLater(RunSuites(p, suites, k, result, settings).1, suites[k],
                     if Ends(suites[k], settings) then [] else Started(suites[k + 1..], settings), settings);
      }
    }
  }

  lemma NoErrors(settings: Settings)
    ensures Started([], settings) == [] && IsFirstError(CUE_SUCCESS, [], settings)
  {
  }

  lemma FirstOrLater(result: ErrorCode, suite: Suite, rest: seq<Suite>, settings: Settings)
    requires if ErrorOf(suite, settings) == CUE_SUCCESS then IsFirstError(result, rest, settings)
             else result == ErrorOf(suite, settings)
    ensures IsFirstError(result, [suite] + rest, settings)
  {
    hide ErrorOf;
    var suites := [suite] + rest;
    if ErrorOf(suite, settings) != CUE_SUCCESS {
      assert ErrorAt(result, suites, 0, settings);
    } else if result != CUE_SUCCESS {
      var i: nat :| ErrorAt(result, rest, i, settings);
      assert ErrorAt(result, suites, i + 1, settings);
    }
  }

  /** The run of a registry starts its suites, up to and including the first with an error unless errors are ignored,
      and their active tests, up to the first inactive one that ends the run; it calls the handlers for just these, in
      order, records just their failures, in order, counts just what they come to, and ends with the first error. */
  lemma AllTestsOutcome(suites: seq<Suite>, settings: Settings)
    ensures var (q, result) := RunModel.RunAllTests(Some(suites), settings);
      var started := Started(suites, settings);
      && Calls(q.events) == RunCalls(started, settings) + [AllTestsComplete(())]
      && q.events[|q.events| - 1] == AllTestsComplete(if q.records == [] then None else Some(0))
      && q.records == RunFailures(started, settings)
      && q.summary == RunTally(started, settings)
      && IsFirstError(result, started, settings)
  {
    hide RunSuites, Started, RunCalls, RunFailures, RunTally, IsFirstError;
    assert suites[0..] == suites;
    SuitesAdd(START, suites, 0, CUE_SUCCESS, settings);
    FirstErrorFound(START, suites, 0, CUE_SUCCESS, settings);
  }

  /** The run of one suite comes to just what is foreseen for that suite, whatever its error. */
  lemma OneSuiteOutcome(suite: Suite, settings: Settings)
    ensures var (q, result) := RunOneSuite(Some(suite), settings);
      && Calls(q.events) == SuiteCalls(suite, settings) + [AllTestsComplete(())]
      && q.events[|q.events| - 1] == AllTestsComplete(if q.records == [] then None else Some(0))
      && q.records == SuiteFailures(suite, settings)
      && q.summary == SuiteTally(suite, settings)
      && result == ErrorOf(suite, settings)
  {
    hide RunModel.RunSuite, SuiteCalls, SuiteFailures, SuiteTally, ErrorOf;
    SuiteAdds(START, suite, settings);
  }

  /** What the run of one test adds between the first and last calls of its suite. */
  lemma RanOneTestAdds(p: Progress, suite: Suite, test: Test, settings: Settings)
    requires !suite.initFails
    ensures Adds(p, RanOneTest(p, suite, test, settings).0,
                 [TestStart(test, suite), TestComplete(test, suite, ())] + CleanupCalls(suite),
                 TestFailures(suite, test, settings) + CleanupFailures(suite),
                 Plus(TestTally(suite, test, true, settings), CleanupTally(suite)))
  {
    hide Adds, RunModel.RunTest, CleanedUp, TestFailures, TestTally, CleanupCalls, CleanupFailures, CleanupTally;
    var q, result := RunModel.RunTest(p, suite, test, settings), if test.active then CUE_SUCCESS else CUE_TEST_INACTIVE;
    TestAdds(p, suite, test, settings);
    CleanedUpAdds(q, suite, result);
    AddsOn(p, q, CleanedUp(q, suite, result).0, [TestStart(test, suite), TestComplete(test, suite, ())],
           TestFailures(suite, test, settings), TestTally(suite, test, true, settings), CleanupCalls(suite),
           CleanupFailures(suite), CleanupTally(suite));
  }

  /** What has been added to nothing is all there is. */
  lemma AddedToNothing(p: Progress, event: Event<Option<nat>>, calls: seq<Call>, failures: seq<Record>,
                       tally: RunSummary)
    requires Adds(START, p, calls, failures, tally)
    ensures var q := Notify(p, event);
      Calls(q.events) == calls + [CallOf(event)] && q.records == failures && q.summary == tally
  {
    assert Calls(START.events) == [];
    assert [] + calls == calls && [] + failures == failures;
  }

  /** The calls, failures and counts of the run of one test that is not refused. */
  function OneTestCallsInside(suite: Suite, test: Test): seq<Call> {
    if suite.initFails then [SuiteInitFailure(suite)]
    else [TestStart(test, suite), TestComplete(test, suite, ())] + CleanupCalls(suite)
  }

  function OneTestFailures(suite: Suite, test: Test, settings: Settings): seq<Record> {
    if suite.initFails then [Record(SuiteInitFailed, suite, None)]
    else TestFailures(suite, test, settings) + CleanupFailures(suite)
  }

  function OneTestTally(suite: Suite, test: Test, settings: Settings): RunSummary {
    if suite.initFails then ZERO.(nSuitesFailed := 1, nFailureRecords := 1)
    else Plus(TestTally(suite, test, true, settings), CleanupTally(suite))
  }

  /** The run of one test starts that test even if it is inactive, which then is its error in any case, and does not
      count its suite as run. */
  lemma OneTestOutcome(suite: Suite, test: Test, settings: Settings)
    requires suite.active && HasTest(suite, test.name)
    ensures var (q, result) := RunOneTest(Some(suite), Some(test), settings);
      && Calls(q.events)
         == [SuiteStart(suite)] + OneTestCallsInside(suite, test) + [SuiteComplete(suite, ())]
            + [AllTestsComplete(())]
      && q.records == OneTestFailures(suite, test, settings)
      && q.summary == OneTestTally(suite, test, settings)
      && result == if suite.initFails then CUE_SINIT_FAILED
                   else if !test.active then CUE_TEST_INACTIVE
                   else if suite.cleanupFails then CUE_SCLEAN_FAILED
                   else CUE_SUCCESS
  {
    hide RunModel.RunTest, HasTest, Adds, TestFailures, TestTally, CleanupCalls, CleanupFailures, CleanupTally, Calls,
         Plus;
    var started := Notify(START, SuiteStart(suite));
    var ran := RanOneTest(started, suite, test, settings).0;
    if suite.initFails {
      InitFailedAdds(started, suite);
    } else {
      RanOneTestAdds(started, suite, test, settings);
    }
    BetweenCalls(START, SuiteStart(suite), ran, SuiteComplete(suite, None), OneTestCallsInside(suite, test),
                 OneTestFailures(suite, test, settings), OneTestTally(suite, test, settings));
    var completed := Notify(ran, SuiteComplete(suite, None));
    AddedToNothing(completed, AllTestsComplete(Since(completed, 0)),
                   [SuiteStart(suite)] + OneTestCallsInside(suite, test) + [SuiteComplete(suite, ())],
                   OneTestFailures(suite, test, settings), OneTestTally(suite, test, settings));
  }

  lemma RanOneTestError(p: Progress, suite: Suite, test: Test, settings: Settings)
    ensures RanOneTest(p, suite, test, settings).1
         in {CUE_SUCCESS, CUE_TEST_INACTIVE, CUE_SINIT_FAILED, CUE_SCLEAN_FAILED}
  {
  }

  /** When the run of one test is refused, and with which error; no handler is called then. */
  lemma OneTestRefused(suite: Option<Suite>, test: Option<Test>, settings: Settings)
    ensures var (q, result) := RunOneTest(suite, test, settings);
      && (result == CUE_NOSUITE <==> suite.None?)
      && (result == CUE_NOTEST <==> suite.Some? && test.None?)
      && (result == CUE_SUITE_INACTIVE <==> suite.Some? && test.Some? && !suite.value.active)
      && (result == CUE_TEST_NOT_IN_SUITE
          <==> suite.Some? && test.Some? && suite.value.active && !HasTest(suite.value, test.value.name))
      && (result in {CUE_NOSUITE, CUE_NOTEST, CUE_SUITE_INACTIVE, CUE_TEST_NOT_IN_SUITE} <==> q.events == [])
  {
    hide RanOneTest, HasTest;
    if suite.Some? && test.Some? {
      RanOneTestError(Notify(START, SuiteStart(suite.value)), suite.value, test.value, settings);
    }
  }

  /** How many assertions the tests make that are started. */
  function AssertsMade(calls: seq<Call>): nat {
    if calls == [] then 0
    else (if calls[0].TestStart? then |calls[0].suite.setUp| + |UpToFatal(calls[0].test.body)|
                                      + |calls[0].suite.tearDown| else 0) + AssertsMade(calls[1..])
  }

  /** How many suites are active and have an initialization that does not fail. */
  function Entered(suites: seq<Suite>): nat {
    if suites == [] then 0
    else (if suites[0].active && !suites[0].initFails then 1 else 0) + Entered(suites[1..])
  }

  lemma AssertsMadeJoined(a: seq<Call>, b: seq<Call>)
    ensures AssertsMade(a + b) == AssertsMade(a) + AssertsMade(b)
  {
    if a == [] {
      assert a + b == b;
    } else {
      AssertsMadeJoined(a[1..], b);
      assert (a + b)[1..] == a[1..] + b;
    }
  }

  /** The tally of the suites of a run: the assertions are those of the tests that are started, and the suites run are
      the active ones whose initialization does not fail. */
  lemma {:induction false} TallySums(suites: seq<Suite>, settings: Settings)
    ensures RunTally(suites, settings).nSuitesRun == Entered(suites)
    ensures RunTally(suites, settings).nAsserts == AssertsMade(RunCalls(suites, settings))
    ensures RunTally(suites, settings).nFailureRecords == |RunFailures(suites, settings)|
  {
    hide SuiteTally, SuiteCalls, SuiteFailures;
    if suites != [] {
      SuiteSums(suites[0], settings);
      TallySums(suites[1..], settings);
      AssertsMadeJoined(SuiteCalls(suites[0], settings), RunCalls(suites[1..], settings));
    }
  }

  lemma SuiteSums(suite: Suite, settings: Settings)
    ensures SuiteTally(suite, settings).nSuitesRun == Entered([suite])
    ensures SuiteTally(suite, settings).nAsserts == AssertsMade(SuiteCalls(suite, settings))
    ensures SuiteTally(suite, settings).nFailureRecords == |SuiteFailures(suite, settings)|
  {
    hide TestsTally, TestCalls, TestsFailures, Reached, AssertsMade;
    var reached := Reached(suite.tests, settings);
    var inside := CallsInside(suite, settings);
    TestsSums(suite, reached, settings);
    NoTestCall([]);
    NoTestCall([SuiteStart(suite)]);
    NoTestCall([SuiteComplete(suite, ())]);
    NoTestCall([SuiteInitFailure(suite)]);
    NoTestCall(CleanupCalls(suite));
    AssertsMadeJoined(TestCalls(suite, reached), CleanupCalls(suite));
    AssertsMadeJoined([SuiteStart(suite)], inside);
    AssertsMadeJoined([SuiteStart(suite)] + inside, [SuiteComplete(suite, ())]);
  }

  lemma NoTestCall(calls: seq<Call>)
    requires |calls| <= 1 && forall i :: 0 <= i < |calls| ==> !calls[i].TestStart?
    ensures AssertsMade(calls) == 0
  {
  }

  lemma OneTestSums(suite: Suite, test: Test, settings: Settings)
    ensures TestTally(suite, test, test.active, settings).nSuitesRun == 0
    ensures TestTally(suite, test, test.active, settings).nAsserts == AssertsMade(OneTestCalls(suite, test))
    ensures TestTally(suite, test, test.active, settings).nFailureRecords == |TestFailures(suite, test, settings)|
  {
    hide Broken, UpToFatal;
    if test.active {
      var calls := OneTestCalls(suite, test);
      NoTestCall(calls[1..]);
    }
  }

  lemma {:induction false} TestsSums(suite: Suite, tests: seq<Test>, settings: Settings)
    ensures TestsTally(suite, tests, settings).nSuitesRun == 0
    ensures TestsTally(suite, tests, settings).nAsserts == AssertsMade(TestCalls(suite, tests))
    ensures TestsTally(suite, tests, settings).nFailureRecords == |TestsFailures(suite, tests, settings)|
  {
    hide AssertsMade, OneTestCalls, TestTally, TestFailures;
    if tests == [] {
      NoTestCall([]);
    } else {
      TestsSums(suite, tests[1..], settings);
      OneTestSums(suite, tests[0], settings);
      AssertsMadeJoined(OneTestCalls(suite, tests[0]), TestCalls(suite, tests[1..]));
    }
  }
}
