/** The test-run engine: it counts, keeps the failure records in a linked list, and calls the handlers. */
module TestRun {
  import opened Wrappers
  import opened RunModel

  /** A failure record, linked to the ones before and after it. */
  class Failure {
    const what: Record
    var next: Failure?
    var prev: Failure?

    constructor (what: Record)
      ensures this.what == what && next == null && prev == null
    {
      this.what := what;
      next, prev := null, null;
    }
  }

  ghost function At(nodes: seq<Failure>, k: int): Failure? {
    if 0 <= k < |nodes| then nodes[k] else null
  }

  /** The failure records are linked in both directions, and are all different. */
  ghost predicate Linked(nodes: seq<Failure>)
    reads nodes`next, nodes`prev
  {
    && (forall i, j :: 0 <= i < j < |nodes| ==> nodes[i] != nodes[j])
    && (forall k :: 0 <= k < |nodes| ==> nodes[k].next == At(nodes, k + 1) && nodes[k].prev == At(nodes, k - 1))
  }

  ghost predicate Holds(nodes: seq<Failure>, records: seq<Record>) {
    |nodes| == |records| && forall k :: 0 <= k < |nodes| ==> nodes[k].what == records[k]
  }

  /** The failure list that starts with the record of that index. */
  ghost function List(nodes: seq<Failure>, failure: Option<nat>): Failure? {
    match failure case None => null case Some(k) => At(nodes, k)
  }

  /** A handler was called as the model says, with a failure list that starts where the model says. */
  ghost predicate Mirrors(call: Event<Failure?>, event: Event<Option<nat>>, nodes: seq<Failure>) {
    match event
    case SuiteStart(s) => call == SuiteStart(s)
    case TestStart(t, s) => call == TestStart(t, s)
    case TestComplete(t, s, f) => call == TestComplete(t, s, List(nodes, f)) && InList(nodes, f)
    case SuiteInitFailure(s) => call == SuiteInitFailure(s)
    case SuiteCleanupFailure(s) => call == SuiteCleanupFailure(s)
    case SuiteComplete(s, f) => call == SuiteComplete(s, List(nodes, f)) && InList(nodes, f)
    case AllTestsComplete(f) => call == AllTestsComplete(List(nodes, f)) && InList(nodes, f)
  }

  ghost predicate InList(nodes: seq<Failure>, failure: Option<nat>) {
    failure.Some? ==> failure.value < |nodes|
  }

  ghost predicate AllMirror(calls: seq<Event<Failure?>>, events: seq<Event<Option<nat>>>, nodes: seq<Failure>) {
    |calls| == |events| && forall i :: 0 <= i < |calls| ==> Mirrors(calls[i], events[i], nodes)
  }

  /** Longer lists of records do not change what handlers were given before. */
  lemma MirrorsLonger(calls: seq<Event<Failure?>>, events: seq<Event<Option<nat>>>, nodes: seq<Failure>, node: Failure)
    requires AllMirror(calls, events, nodes)
    ensures AllMirror(calls, events, nodes + [node])
  {
    forall i | 0 <= i < |calls| ensures Mirrors(calls[i], events[i], nodes + [node]) {
      assert Mirrors(calls[i], events[i], nodes);
    }
  }

  lemma HoldsLonger(nodes: seq<Failure>, records: seq<Record>, node: Failure, what: Record)
    requires Holds(nodes, records) && node.what == what
    ensures Holds(nodes + [node], records + [what]) && |nodes| == |records|
  {
  }

  /** Compares two names, whatever the case of their letters: 0 says that they are the same. */
  method CompareStrings(src: Name, dest: Name) returns (difference: int)
    ensures difference == 0 <==> SameName(src, dest)
  {
    var i := 0;
    while i < |src| && i < |dest| && Upper(src[i]) == Upper(dest[i])
      invariant i <= |src| && i <= |dest|
      invariant forall k :: 0 <= k < i ==> Upper(src[k]) == Upper(dest[k])
    {
      i := i + 1;
    }
    var left := if i < |src| then src[i] else '\0';
    var right := if i < |dest| then dest[i] else '\0';
    difference := left as int - right as int;
  }

  /** The first test of a suite with that name. */
  method GetTestByName(name: Name, suite: Suite) returns (test: Option<Test>)
    ensures test.Some? <==> HasTest(suite, name)
    ensures test.Some? ==>
              exists k :: 0 <= k < |suite.tests| && suite.tests[k] == test.value && SameName(suite.tests[k].name, name)
                          && forall i :: 0 <= i < k ==> !SameName(suite.tests[i].name, name)
  {
    for k := 0 to |suite.tests|
      invariant forall i :: 0 <= i < k ==> !SameName(suite.tests[i].name, name)
    {
      var difference := CompareStrings(suite.tests[k].name, name);
      if difference == 0 {
        return Some(suite.tests[k]);
      }
    }
    return None;
  }

  class TestRunner {
    var settings: Settings
    var summary: RunSummary
    var failureList: Failure?
    var lastFailure: Failure?
    var curSuite: Option<Suite>
    var curTest: Option<Test>
    var hasJumpBuf: bool
    var calls: seq<Event<Failure?>>
    ghost var nodes: seq<Failure>
    ghost var progress: Progress

    /** The counts, the list of failures and the calls of the handlers are those of the model; `lastFailure` is the
        last node of the list. */
    ghost predicate Valid()
      reads this`summary, this`failureList, this`lastFailure, this`calls, this`nodes, this`progress, nodes`next,
            nodes`prev
    {
      && summary == progress.summary && summary.nFailureRecords == |nodes|
      && Linked(nodes) && failureList == At(nodes, 0) && lastFailure == At(nodes, |nodes| - 1)
      && Holds(nodes, progress.records) && AllMirror(calls, progress.events, nodes)
    }

    constructor (settings: Settings)
      ensures Valid() && progress == START && this.settings == settings
    {
      this.settings := settings;
      summary, failureList, lastFailure := START.summary, null, null;
      curSuite, curTest, hasJumpBuf, calls := None, None, false, [];
      nodes, progress := [], START;
    }

    /** The nodes there were are still the first ones; the others are new. */
    twostate predicate Grown()
      reads this`nodes
    {
      && old(nodes) <= nodes
      && forall k :: |old(nodes)| <= k < |nodes| ==> fresh(nodes[k])
    }

    /** Appends a failure record. */
    method AddFailure(what: Record)
      requires Valid()
      modifies this`summary, this`failureList, this`lastFailure, this`nodes, this`progress, nodes`next
      ensures Valid() && Grown() && progress == RunModel.AddFailure(old(progress), what)
    {
      hide Linked, AllMirror, Holds;
      var failureNew := new Failure(what);
      MirrorsLonger(calls, progress.events, nodes, failureNew);
      HoldsLonger(nodes, progress.records, failureNew, what);
      AppendNode(failureNew);
      summary := summary.(nFailureRecords := summary.nFailureRecords + 1);
      lastFailure := failureNew;
      nodes := nodes + [failureNew];
      progress := RunModel.AddFailure(progress, what);
    }

    /** Walks to the end of the list and puts a new node there. */
    method AppendNode(failureNew: Failure)
      requires Linked(nodes) && failureList == At(nodes, 0) && failureNew !in nodes
      requires failureNew.next == null && failureNew.prev == null
      modifies this`failureList, nodes`next, failureNew`prev
      ensures Linked(nodes + [failureNew]) && failureList == At(nodes + [failureNew], 0)
    {
      if failureList != null {
        var temp: Failure := failureList;
        ghost var k: nat := 0;
        while temp.next != null
          invariant k < |nodes| && temp == nodes[k]
          decreases |nodes| - k
        {
          temp := temp.next;
          k := k + 1;
        }
        temp.next := failureNew;
        failureNew.prev := temp;
      } else {
        failureList := failureNew;
      }
    }

    /** Calls a handler. */
    method Notify(call: Event<Failure?>, ghost event: Event<Option<nat>>)
      requires Valid() && Mirrors(call, event, nodes)
      modifies this`calls, this`progress
      ensures Valid() && progress == RunModel.Notify(old(progress), event)
    {
      calls := calls + [call];
      progress := RunModel.Notify(progress, event);
    }

    /** Counts an assertion and records its failure. Answers whether control leaves the function that made it. */
    method AssertImplementation(a: Assertion) returns (jumps: bool)
      requires Valid() && curSuite.Some? && curTest.Some?
      modifies this`summary, this`failureList, this`lastFailure, this`nodes, this`progress, nodes`next
      ensures Valid() && Grown()
      ensures progress == Assert(old(progress), a, curSuite.value, curTest.value)
      ensures jumps == (!a.holds && a.isFatal && hasJumpBuf)
    {
      hide Linked, AllMirror, Holds;
      summary := summary.(nAsserts := summary.nAsserts + 1);
      progress := progress.(summary := summary);
      jumps := false;
      if !a.holds {
        summary := summary.(nAssertsFailed := summary.nAssertsFailed + 1);
        progress := progress.(summary := summary);
        AddFailure(Record(AssertFailed, curSuite.value, Some(curTest.value)));
        jumps := a.isFatal && hasJumpBuf;
      }
    }

    /** Runs a function: it makes its assertions one after the other, up to one that leaves it. */
    method CallFunction(asserts: seq<Assertion>)
      requires Valid() && curSuite.Some? && curTest.Some?
      modifies this`summary, this`failureList, this`lastFailure, this`nodes, this`progress, nodes`next
      ensures Valid() && Grown()
      ensures progress == AssertAll(old(progress), if hasJumpBuf then UpToFatal(asserts)
              else asserts, curSuite.value, curTest.value)
    {
      hide Linked, AllMirror, Holds, UpToFatal;
      ghost var made := if hasJumpBuf then UpToFatal(asserts) else asserts;
      var i := 0;
      while i < |asserts|
        invariant i <= |made| && (i == |made| ==> i == |asserts|)
        invariant Valid() && Grown()
        invariant progress == AssertAll(old(progress), made[..i], curSuite.value, curTest.value)
      {
        assert made[i] == asserts[i] && made[..i + 1][..i] == made[..i];
        var jumps := AssertImplementation(asserts[i]);
        i := i + 1;
        if jumps {
          break;
        }
      }
      assert made[..i] == made;
    }

    /** The failures recorded since there were `start` records, the last of which was `last`. */
    method FailuresSince(last: Failure?, start: nat) returns (failure: Failure?)
      requires Valid() && start <= |nodes| && last == At(nodes, start - 1)
      ensures failure == List(nodes, Since(progress, start)) && InList(nodes, Since(progress, start))
      ensures failure == if start < |nodes| then nodes[start] else null
    {
      if summary.nFailureRecords > start {
        if last != null {
          failure := last.next;
        } else {
          failure := failureList;
        }
      } else {
        failure := null;
      }
    }

    /** Runs one test. */
    method RunSingleTest(test: Test) returns (result: ErrorCode)
      requires Valid() && curSuite.Some? && curSuite.value.active && NoFatal(curSuite.value.tearDown)
      requires !hasJumpBuf
      modifies this`summary, this`failureList, this`lastFailure, this`nodes, this`progress, this`calls, this`curTest,
               this`hasJumpBuf, nodes`next
      ensures Valid() && Grown() && !hasJumpBuf && curTest == None
      ensures progress == RunModel.RunTest(old(progress), curSuite.value, test, settings)
      ensures result == if test.active then CUE_SUCCESS else CUE_TEST_INACTIVE
    {
      hide Valid, RunModel.RunTest, NoFatal;
      curTest := Some(test);
      result := RunAndReport(test);
      hasJumpBuf := false;
      curTest := None;
    }

    /** Runs the current test between the calls of its two handlers. */
    method RunAndReport(test: Test) returns (result: ErrorCode)
      requires Valid() && curSuite.Some? && curTest == Some(test) && NoFatal(curSuite.value.tearDown) && !hasJumpBuf
      modifies this`summary, this`failureList, this`lastFailure, this`nodes, this`progress, this`calls,
               this`hasJumpBuf, nodes`next
      ensures Valid() && Grown()
      ensures progress == RunModel.RunTest(old(progress), curSuite.value, test, settings)
      ensures result == if test.active then CUE_SUCCESS else CUE_TEST_INACTIVE
    {
      hide Linked, AllMirror, RanActive, RanInactive, Since;
      var start, last := summary.nFailureRecords, lastFailure;
      StartTest(test);
      result := RunOrCount(test);
      ReportTest(test, last, start);
    }

    /** Runs the functions of an active test; an inactive one is only counted. */
    method RunOrCount(test: Test) returns (result: ErrorCode)
      requires Valid() && curSuite.Some? && curTest == Some(test) && NoFatal(curSuite.value.tearDown) && !hasJumpBuf
      modifies this`summary, this`failureList, this`lastFailure, this`nodes, this`progress, this`hasJumpBuf, nodes`next
      ensures Valid() && Grown()
      ensures progress == if test.active then RanActive(old(progress), curSuite.value, test)
                          else RanInactive(old(progress), curSuite.value, test, settings)
      ensures result == if test.active then CUE_SUCCESS else CUE_TEST_INACTIVE
    {
      hide *;
      if test.active {
        RunFunctions(test);
        result := CUE_SUCCESS;
      } else {
        CountInactive(test);
        result := CUE_TEST_INACTIVE;
      }
    }

    method StartTest(test: Test)
      requires Valid() && curSuite.Some?
      modifies this`progress, this`calls
      ensures Valid() && progress == RunModel.Notify(old(progress), TestStart(test, curSuite.value))
    {
      hide Linked, AllMirror;
      Notify(TestStart(test, curSuite.value), TestStart(test, curSuite.value));
    }

    /** Counts a test with failures since it began, and reports them. */
    method ReportTest(test: Test, last: Failure?, start: nat)
      requires Valid() && curSuite.Some? && start <= |nodes| && last == At(nodes, start - 1)
      modifies this`summary, this`progress, this`calls
      ensures Valid()
      ensures var failure := Since(old(progress), start);
        progress == RunModel.Notify(if failure.Some? then
            old(progress).(summary := old(progress).summary.(nTestsFailed := old(progress).summary.nTestsFailed + 1))
                                    else old(progress), TestComplete(test, curSuite.value, failure))
    {
      hide Linked, AllMirror;
      var failure := FailuresSince(last, start);
      if failure != null {
        summary := summary.(nTestsFailed := summary.nTestsFailed + 1);
        progress := progress.(summary := summary);
      }
      Notify(TestComplete(test, curSuite.value, failure), TestComplete(test, curSuite.value, Since(progress, start)));
    }

    /** Runs the set-up function, the test function and the tear-down function. A failing fatal assertion leaves the
        test function; in the set-up function there is nowhere to go yet. */
    method RunFunctions(test: Test)
      requires Valid() && curSuite.Some? && curTest == Some(test) && NoFatal(curSuite.value.tearDown) && !hasJumpBuf
      modifies this`summary, this`failureList, this`lastFailure, this`nodes, this`progress, this`hasJumpBuf, nodes`next
      ensures Valid() && Grown()
      ensures progress == RanActive(old(progress), curSuite.value, test)
    {
      hide Valid, AssertAll, UpToFatal;
      CallFunction(curSuite.value.setUp);
      hasJumpBuf := true;
      CallFunction(test.body);
      NothingFatal(curSuite.value.tearDown);
      CallFunction(curSuite.value.tearDown);
      CountTest();
    }

    method CountTest()
      requires Valid()
      modifies this`summary, this`progress
      ensures Valid()
      ensures progress
           == old(progress).(summary := old(progress).summary.(nTestsRun := old(progress).summary.nTestsRun + 1))
    {
      hide Linked, AllMirror, Holds;
      summary := summary.(nTestsRun := summary.nTestsRun + 1);
      progress := progress.(summary := summary);
    }

    /** Counts an inactive test, and records it if that is a failure. */
    method CountInactive(test: Test)
      requires Valid() && curSuite.Some?
      modifies this`summary, this`failureList, this`lastFailure, this`nodes, this`progress, nodes`next
      ensures Valid() && Grown()
      ensures progress == RanInactive(old(progress), curSuite.value, test, settings)
    {
      hide Linked, AllMirror, Holds;
      summary := summary.(nTestsInactive := summary.nTestsInactive + 1);
      progress := progress.(summary := summary);
      if settings.failureOnInactive {
        AddFailure(Record(TestInactive, curSuite.value, Some(test)));
      }
    }

    /** Runs all tests of the current suite, unless an error stops the run. */
    method RunAllItsTests() returns (result: ErrorCode)
      requires Valid() && curSuite.Some? && curSuite.value.active && NoFatal(curSuite.value.tearDown) && !hasJumpBuf
      modifies this`summary, this`failureList, this`lastFailure, this`nodes, this`progress, this`calls, this`curTest,
               this`hasJumpBuf, nodes`next
      ensures Valid() && Grown() && !hasJumpBuf
      ensures (progress, result) == RunTests(old(progress), curSuite.value, 0, CUE_SUCCESS, settings)
    {
      hide Linked, AllMirror, Holds, RunModel.RunTest, RanInactive;
      result := CUE_SUCCESS;
      var k := 0;
      while k < |curSuite.value.tests| && (result == CUE_SUCCESS || settings.ignoreErrors)
        invariant k <= |curSuite.value.tests|
        invariant Valid() && Grown() && !hasJumpBuf
        invariant RunTests(progress, curSuite.value, k, result, settings)
                  == RunTests(old(progress), curSuite.value, 0, CUE_SUCCESS, settings)
      {
        var test := curSuite.value.tests[k];
        if test.active {
          var result2 := RunSingleTest(test);
          result := if result == CUE_SUCCESS then result2 else result;
        } else {
          CountInactive(test);
          if settings.failureOnInactive {
            result := CUE_TEST_INACTIVE;
          }
        }
        k := k + 1;
      }
    }

    /** Counts and records the failure of a suite. */
    method FailSuite(kind: FailureType)
      requires Valid() && curSuite.Some?
      modifies this`summary, this`failureList, this`lastFailure, this`nodes, this`progress, nodes`next
      ensures Valid() && Grown() && progress == SuiteFailed(old(progress), curSuite.value, kind)
    {
      hide Linked, AllMirror, Holds;
      summary := summary.(nSuitesFailed := summary.nSuitesFailed + 1);
      progress := progress.(summary := summary);
      AddFailure(Record(kind, curSuite.value, None));
    }

    /** Reports that the initialization of the current suite has failed. */
    method FailInit() returns (result: ErrorCode)
      requires Valid() && curSuite.Some?
      modifies this`summary, this`failureList, this`lastFailure, this`nodes, this`progress, this`calls, nodes`next
      ensures Valid() && Grown() && (progress, result) == InitFailed(old(progress), curSuite.value)
    {
      hide Linked, AllMirror, Holds;
      Notify(SuiteInitFailure(curSuite.value), SuiteInitFailure(curSuite.value));
      FailSuite(SuiteInitFailed);
      result := CUE_SINIT_FAILED;
    }

    /** Runs the cleanup function of the current suite. */
    method CleanUp(result0: ErrorCode) returns (result: ErrorCode)
      requires Valid() && curSuite.Some?
      modifies this`summary, this`failureList, this`lastFailure, this`nodes, this`progress, this`calls, nodes`next
      ensures Valid() && Grown() && (progress, result) == CleanedUp(old(progress), curSuite.value, result0)
    {
      hide Linked, AllMirror, Holds;
      result := result0;
      if curSuite.value.cleanupFails {
        Notify(SuiteCleanupFailure(curSuite.value), SuiteCleanupFailure(curSuite.value));
        FailSuite(SuiteCleanupFailed);
        result := if result == CUE_SUCCESS then CUE_SCLEAN_FAILED else result;
      }
    }

    /** Counts an inactive suite, and records it if that is a failure. */
    method SkipSuite(suite: Suite) returns (result: ErrorCode)
      requires Valid()
      modifies this`summary, this`failureList, this`lastFailure, this`nodes, this`progress, nodes`next
      ensures Valid() && Grown() && (progress, result) == SkippedSuite(old(progress), suite, settings)
    {
      hide Linked, AllMirror, Holds;
      summary := summary.(nSuitesInactive := summary.nSuitesInactive + 1);
      progress := progress.(summary := summary);
      result := CUE_SUCCESS;
      if settings.failureOnInactive {
        AddFailure(Record(SuiteInactive, suite, None));
        result := CUE_SUITE_INACTIVE;
      }
    }

    /** Runs the tests of an active suite whose initialization has not failed, and cleans up. */
    method RunActiveSuite() returns (result: ErrorCode)
      requires Valid() && curSuite.Some? && curSuite.value.active && NoFatal(curSuite.value.tearDown) && !hasJumpBuf
      modifies this`summary, this`failureList, this`lastFailure, this`nodes, this`progress, this`calls, this`curTest,
               this`hasJumpBuf, nodes`next
      ensures Valid() && Grown() && !hasJumpBuf
      ensures (progress, result) == RanSuite(old(progress), curSuite.value, settings)
    {
      hide Linked, AllMirror, Holds, RunTests;
      result := RunAllItsTests();
      summary := summary.(nSuitesRun := summary.nSuitesRun + 1);
      progress := progress.(summary := summary);
      result := CleanUp(result);
    }

    /** Runs one suite. */
    method RunSingleSuite(suite: Suite) returns (result: ErrorCode)
      requires Valid() && NoFatal(suite.tearDown) && !hasJumpBuf
      modifies this`summary, this`failureList, this`lastFailure, this`nodes, this`progress, this`calls, this`curSuite,
               this`curTest,
               this`hasJumpBuf, nodes`next
      ensures Valid() && Grown() && !hasJumpBuf && curSuite == None
      ensures (progress, result) == RunModel.RunSuite(old(progress), suite, settings)
    {
      hide Linked, AllMirror, RanSuite, SkippedSuite, SuiteFailed, Since;
      var start, last := summary.nFailureRecords, lastFailure;
      curTest, curSuite := None, Some(suite);
      StartSuite(suite);
      result := RunOrSkip(suite);
      ReportSuite(suite, last, start);
      curSuite := None;
    }

    /** Runs an active suite, if its initialization has not failed; an inactive one is only counted. */
    method RunOrSkip(suite: Suite) returns (result: ErrorCode)
      requires Valid() && curSuite == Some(suite) && NoFatal(suite.tearDown) && !hasJumpBuf
      modifies this`summary, this`failureList, this`lastFailure, this`nodes, this`progress, this`calls, this`curTest,
               this`hasJumpBuf, nodes`next
      ensures Valid() && Grown() && !hasJumpBuf
      ensures (progress, result)
           == if !suite.active then SkippedSuite(old(progress), suite, settings)
              else if suite.initFails then InitFailed(old(progress), suite)
              else RanSuite(old(progress), suite, settings)
    {
      hide *;
      if !suite.active {
        result := SkipSuite(suite);
      } else if suite.initFails {
        result := FailInit();
      } else {
        result := RunActiveSuite();
      }
    }

    method StartSuite(suite: Suite)
      requires Valid()
      modifies this`progress, this`calls
      ensures Valid() && progress == RunModel.Notify(old(progress), SuiteStart(suite))
    {
      hide Linked, AllMirror;
      Notify(SuiteStart(suite), SuiteStart(suite));
    }

    /** Reports the failures of a suite since it began. */
    method ReportSuite(suite: Suite, last: Failure?, start: nat)
      requires Valid() && start <= |nodes| && last == At(nodes, start - 1)
      modifies this`progress, this`calls
      ensures Valid() && progress == RunModel.Notify(old(progress), SuiteComplete(suite, Since(old(progress), start)))
    {
      hide Linked, AllMirror;
      var failure := FailuresSince(last, start);
      Notify(SuiteComplete(suite, failure), SuiteComplete(suite, Since(progress, start)));
    }

    /** Drops the results of the run before. */
    method ClearPreviousResults()
      requires Valid()
      modifies this`summary, this`failureList, this`lastFailure, this`nodes, this`progress, this`calls
      ensures Valid() && progress == START && nodes == []
    {
      summary, failureList, lastFailure, calls := START.summary, null, null, [];
      nodes, progress := [], START;
    }

    /** Reports all failures of a run. */
    method ReportAll()
      requires Valid()
      modifies this`progress, this`calls
      ensures Valid() && progress == RunModel.Notify(old(progress), AllTestsComplete(Since(old(progress), 0)))
    {
      hide Linked, AllMirror;
      Notify(AllTestsComplete(failureList), AllTestsComplete(Since(progress, 0)));
    }

    /** Runs all suites of the registry, if there is one, unless an error stops the run. */
    method RunAllTests(registry: Option<seq<Suite>>) returns (result: ErrorCode)
      requires Valid() && !hasJumpBuf
      requires registry.Some? ==> forall i :: 0 <= i < |registry.value| ==> NoFatal(registry.value[i].tearDown)
      modifies this`summary, this`failureList, this`lastFailure, this`nodes, this`progress, this`calls, this`curSuite,
               this`curTest, this`hasJumpBuf
      ensures Valid() && (progress, result) == RunModel.RunAllTests(registry, settings)
    {
      hide Linked, AllMirror, Holds, RunModel.RunSuite;
      ClearPreviousResults();
      if registry.None? {
        return CUE_NOREGISTRY;
      }
      result := CUE_SUCCESS;
      var k := 0;
      while k < |registry.value| && (result == CUE_SUCCESS || settings.ignoreErrors)
        invariant k <= |registry.value|
        invariant Valid() && !hasJumpBuf && forall i :: 0 <= i < |nodes| ==> fresh(nodes[i])
        invariant RunSuites(progress, registry.value, k, result, settings)
                  == RunSuites(START, registry.value, 0, CUE_SUCCESS, settings)
      {
        var result2 := RunSingleSuite(registry.value[k]);
        result := if result == CUE_SUCCESS then result2 else result;
        k := k + 1;
      }
      ReportAll();
    }

    /** Runs one suite, if it is given. */
    method RunSuite(suite: Option<Suite>) returns (result: ErrorCode)
      requires Valid() && !hasJumpBuf && (suite.Some? ==> NoFatal(suite.value.tearDown))
      modifies this`summary, this`failureList, this`lastFailure, this`nodes, this`progress, this`calls, this`curSuite,
               this`curTest, this`hasJumpBuf
      ensures Valid() && (progress, result) == RunOneSuite(suite, settings)
    {
      hide Linked, AllMirror, Holds, RunModel.RunSuite;
      ClearPreviousResults();
      if suite.None? {
        return CUE_NOSUITE;
      }
      result := RunSingleSuite(suite.value);
      ReportAll();
    }

    /** Runs one test of a suite, if both are given and the suite has a test of that name. */
    method RunTest(suite: Option<Suite>, test: Option<Test>) returns (result: ErrorCode)
      requires Valid() && !hasJumpBuf && (suite.Some? ==> NoFatal(suite.value.tearDown))
      modifies this`summary, this`failureList, this`lastFailure, this`nodes, this`progress, this`calls, this`curSuite,
               this`curTest, this`hasJumpBuf
      ensures Valid() && (progress, result) == RunOneTest(suite, test, settings)
    {
      hide Linked, AllMirror, Holds, RanOneTest, SkippedSuite;
      ClearPreviousResults();
      if suite.None? {
        return CUE_NOSUITE;
      }
      if test.None? {
        return CUE_NOTEST;
      }
      if !suite.value.active {
        result := SkipSuite(suite.value);
        return CUE_SUITE_INACTIVE;
      }
      var found := GetTestByName(test.value.name, suite.value);
      if found.None? {
        return CUE_TEST_NOT_IN_SUITE;
      }
      curTest, curSuite := None, suite;
      StartSuite(suite.value);
      result := RunInSuite(test.value);
      CompleteSuite(suite.value);
      ReportAll();
      curSuite := None;
    }

    /** Runs one test of the current suite, if its initialization has not failed, and cleans up. */
    method RunInSuite(test: Test) returns (result: ErrorCode)
      requires Valid() && curSuite.Some? && curSuite.value.active && NoFatal(curSuite.value.tearDown) && !hasJumpBuf
      modifies this`summary, this`failureList, this`lastFailure, this`nodes, this`progress, this`calls, this`curTest,
               this`hasJumpBuf, nodes`next
      ensures Valid() && (progress, result) == RanOneTest(old(progress), curSuite.value, test, settings)
    {
      hide Valid, RunModel.RunTest, InitFailed, CleanedUp;
      if curSuite.value.initFails {
        result := FailInit();
      } else {
        result := RunSingleTest(test);
        result := CleanUp(result);
      }
    }

    /** Reports the end of a suite, without failures. */
    method CompleteSuite(suite: Suite)
      requires Valid()
      modifies this`progress, this`calls
      ensures Valid() && progress == RunModel.Notify(old(progress), SuiteComplete(suite, None))
    {
      hide Linked, AllMirror;
      Notify(SuiteComplete(suite, null), SuiteComplete(suite, None));
    }
  }

  /** No assertion fails and is fatal. */
  predicate NoFatal(asserts: seq<Assertion>) {
    forall i :: 0 <= i < |asserts| ==> asserts[i].holds || !asserts[i].isFatal
  }

  /** A function without failing fatal assertions makes all of them. */
  lemma NothingFatal(asserts: seq<Assertion>)
    requires NoFatal(asserts)
    ensures UpToFatal(asserts) == asserts
  {
    var made := UpToFatal(asserts);
    assert forall i :: 0 <= i < |made| ==> made[i] == asserts[i];
  }
}
