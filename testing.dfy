/**
 * The bookkeeping of the small test framework in testing.py: a `Suite`
 * registers test functions and runs them in order, each `Test` runs its
 * setup, body and teardown, and a `Runner` tallies the results. Output
 * capture and terminal drawing are not modelled.
 */
module Testing {
  import opened Wrappers
  import opened Strings

  /**
   * A Python function as the framework sees it: its `__name__`, the number
   * of named arguments `inspect.getargspec` reports, and whether calling it
   * raises an `Exception`.
   */
  datatype Function = Function(name: string, argCount: nat, raises: bool)

  /** `lambda helper: None`, the default setup and teardown. */
  const NoAction: Function := Function("<lambda>", 1, false)

  /** `check_arguments`: a test, setup or teardown function takes exactly one argument. */
  function CheckArguments(f: Function): (r: Result<Function>)
    ensures r.Ok? <==> f.argCount == 1
    ensures r.Ok? ==> r.value == f
    ensures r.Err? ==> r.error == TypeError
  {
    if f.argCount != 1 then Err(TypeError) else Ok(f)
  }

  function ToUpper(c: char): char {
    if 'a' <= c <= 'z' then c - 'a' + 'A' else c
  }

  function ToLower(c: char): char {
    if 'A' <= c <= 'Z' then c - 'A' + 'a' else c
  }

  function LowerAll(s: string): (r: string)
    ensures |r| == |s|
    ensures forall i :: 0 <= i < |s| ==> r[i] == ToLower(s[i])
  {
    if |s| == 0 then "" else [ToLower(s[0])] + LowerAll(s[1..])
  }

  /** `str.capitalize`: the first character upper case, the rest lower case. */
  function Capitalize(s: string): (r: string)
    ensures |r| == |s|
    ensures |s| > 0 ==> r[0] == ToUpper(s[0])
    ensures forall i :: 0 < i < |s| ==> r[i] == ToLower(s[i])
  {
    if |s| == 0 then "" else [ToUpper(s[0])] + LowerAll(s[1..])
  }

  /** `s.replace(c, d)` for single characters keeps the length and changes only `c`. */
  lemma {:induction false} ReplaceCharAt(s: string, c: char, d: char)
    ensures |ReplaceAll(s, c, [d])| == |s|
    ensures forall i :: 0 <= i < |s| ==> ReplaceAll(s, c, [d])[i] == if s[i] == c then d else s[i]
  {
    if |s| > 0 {
      ReplaceCharAt(s[1..], c, d);
    }
  }

  /** The name a test gets: the function's name with `_` made a space, then capitalised. */
  function TestName(functionName: string): (r: string)
    ensures |r| == |functionName|
    ensures '_' !in r
  {
    ReplaceCharAt(functionName, '_', ' ');
    Capitalize(ReplaceAll(functionName, '_', " "))
  }

  /**
   * A test name has the length of the function name and no underscore;
   * every other character is kept up to case, the first upper case and
   * the rest lower case.
   */
  lemma TestNameChars(functionName: string)
    ensures |TestName(functionName)| == |functionName|
    ensures forall i :: 0 <= i < |functionName| && functionName[i] == '_' ==> TestName(functionName)[i] == ' '
    ensures |functionName| > 0 && functionName[0] != '_' ==> TestName(functionName)[0] == ToUpper(functionName[0])
    ensures forall i :: 0 < i < |functionName| && functionName[i] != '_' ==>
      TestName(functionName)[i] == ToLower(functionName[i])
  {
    ReplaceCharAt(functionName, '_', ' ');
  }

  /** A `Test`: its name, its function, and the suite's setup and teardown when it was registered. */
  datatype Test = Test(name: string, body: Function, setup: Function, teardown: Function)

  /** The parts of a test run, in the order they are called. */
  datatype Step = SetupStep | BodyStep | TeardownStep

  /** A `Test.Result`: `Success` or `Failure`, with the test's name. Output and traceback are not modelled. */
  datatype TestResult = TestResult(name: string, success: bool)

  /** The steps a run calls: up to and including the first that raises. */
  function StepsRun(t: Test): (steps: seq<Step>)
    ensures |steps| > 0 && steps[0] == SetupStep
    ensures BodyStep in steps <==> !t.setup.raises
    ensures TeardownStep in steps <==> !t.setup.raises && !t.body.raises
    ensures steps <= [SetupStep, BodyStep, TeardownStep]
  {
    if t.setup.raises then [SetupStep]
    else if t.body.raises then [SetupStep, BodyStep]
    else [SetupStep, BodyStep, TeardownStep]
  }

  /** `Test.run`: a failure exactly when setup, the test function or teardown raised. */
  function RunTest(t: Test): (r: TestResult)
    ensures r.name == t.name
    ensures !r.success <==> t.setup.raises || t.body.raises || t.teardown.raises
  {
    TestResult(t.name, !(t.setup.raises || t.body.raises || t.teardown.raises))
  }

  /** A result was a failure exactly when the last step it ran raised. */
  lemma FailureAtLastStep(t: Test)
    ensures !RunTest(t).success <==>
      match StepsRun(t)[|StepsRun(t)| - 1]
      case SetupStep => t.setup.raises
      case BodyStep => t.body.raises
      case TeardownStep => t.teardown.raises
  {
  }

  /** The results of running each test in turn. */
  function RunAll(tests: seq<Test>): seq<TestResult> {
    if |tests| == 0 then [] else RunAll(tests[..|tests| - 1]) + [RunTest(tests[|tests| - 1])]
  }

  /** One result per test, in registration order. */
  lemma {:induction false} RunAllInOrder(tests: seq<Test>)
    ensures |RunAll(tests)| == |tests|
    ensures forall i :: 0 <= i < |tests| ==> RunAll(tests)[i] == RunTest(tests[i])
  {
    if |tests| > 0 {
      var init := tests[..|tests| - 1];
      RunAllInOrder(init);
      assert forall i :: 0 <= i < |init| ==> init[i] == tests[i];
    }
  }

  /** One more test run: one more result, and the counters updated with it. */
  lemma RunAllStep(tests: seq<Test>, i: nat)
    requires i < |tests|
    ensures RunAll(tests[..i + 1]) == RunAll(tests[..i]) + [RunTest(tests[i])]
  {
    assert tests[..i + 1][..i] == tests[..i];
  }

  lemma UpdateAllSnoc(start: Tally, results: seq<TestResult>, r: TestResult)
    ensures UpdateAll(start, results + [r]) == Updated(UpdateAll(start, results), r)
  {
    assert (results + [r])[..|results|] == results;
  }

  /** The counters of a `Runner`. */
  datatype Tally = Tally(successes: nat, failures: nat, test: nat, firstFailure: Option<TestResult>)

  /** `Runner.update`: one more test, counted as a success or a failure; the first failure is kept. */
  function Updated(t: Tally, result: TestResult): (r: Tally)
    ensures r.test == t.test + 1
    ensures r.successes + r.failures == t.successes + t.failures + 1
    ensures result.success <==> r.successes == t.successes + 1
    ensures t.firstFailure.Some? ==> r.firstFailure == t.firstFailure
  {
    Tally(
      if result.success then t.successes + 1 else t.successes,
      if !result.success then t.failures + 1 else t.failures,
      t.test + 1,
      if !result.success && t.firstFailure.None? then Some(result) else t.firstFailure)
  }

  /** The counters after updating with each result in turn. */
  function UpdateAll(t: Tally, results: seq<TestResult>): Tally {
    if |results| == 0 then t else Updated(UpdateAll(t, results[..|results| - 1]), results[|results| - 1])
  }

  /** The first failing result, if any. */
  function FirstFailure(results: seq<TestResult>): Option<TestResult> {
    if |results| == 0 then None
    else if !results[0].success then Some(results[0])
    else FirstFailure(results[1..])
  }

  function CountSuccesses(results: seq<TestResult>): nat {
    if |results| == 0 then 0
    else CountSuccesses(results[..|results| - 1]) + (if results[|results| - 1].success then 1 else 0)
  }

  /** The counters of a new `Runner`. */
  const Fresh: Tally := Tally(0, 0, 0, None)

  /** Consistent counters: each test counted once, and a first failure recorded when there was one. */
  predicate Consistent(t: Tally) {
    t.successes + t.failures == t.test &&
    (t.firstFailure.Some? <==> t.failures > 0) &&
    (t.firstFailure.Some? ==> !t.firstFailure.value.success)
  }

  /** `update` keeps the counters consistent, and never replaces a first failure. */
  lemma UpdateConsistent(t: Tally, result: TestResult)
    requires Consistent(t)
    ensures Consistent(Updated(t, result))
    ensures t.firstFailure.Some? ==> Updated(t, result).firstFailure == t.firstFailure
  {
  }

  /**
   * From fresh counters, updating with a run's results counts every
   * result, counts its successes, and keeps its first failure.
   */
  lemma {:induction false} UpdateAllCounts(results: seq<TestResult>)
    ensures UpdateAll(Fresh, results).test == |results|
    ensures UpdateAll(Fresh, results).successes == CountSuccesses(results)
    ensures UpdateAll(Fresh, results).failures == |results| - CountSuccesses(results)
    ensures UpdateAll(Fresh, results).firstFailure == FirstFailure(results)
  {
    if |results| > 0 {
      var init := results[..|results| - 1];
      UpdateAllCounts(init);
      FirstFailureSnoc(init, results[|results| - 1]);
      assert init + [results[|results| - 1]] == results;
    }
  }

  lemma {:induction false} FirstFailureSnoc(results: seq<TestResult>, r: TestResult)
    ensures FirstFailure(results + [r]) ==
      if FirstFailure(results).Some? then FirstFailure(results)
      else if !r.success then Some(r) else None
  {
    if |results| > 0 {
      assert (results + [r])[1..] == results[1..] + [r];
      FirstFailureSnoc(results[1..], r);
    }
  }

  /**
   * A `Suite`: the tests registered so far, the results of running them,
   * and the setup and teardown new tests will capture.
   */
  class Suite {
    var tests: seq<Test>
    var results: seq<TestResult>
    var title: string
    var finished: bool
    var setupAction: Function
    var teardownAction: Function
    const stopOnError: bool

    constructor(title: string, stopOnError: bool := false)
      ensures tests == [] && results == [] && this.title == title && !finished
      ensures setupAction == NoAction && teardownAction == NoAction && this.stopOnError == stopOnError
    {
      tests := [];
      results := [];
      this.title := title;
      finished := false;
      setupAction := NoAction;
      teardownAction := NoAction;
      this.stopOnError := stopOnError;
    }

    /** `iter(suite)`: the results, allowed only once the suite has run. */
    function Iterate(): (r: Result<seq<TestResult>>)
      reads this
      ensures r.Ok? <==> finished
      ensures r.Ok? ==> r.value == results
      ensures r.Err? ==> r.error == AssertionError
    {
      if finished then Ok(results) else Err(AssertionError)
    }

    /** `get_tests`: the number of registered tests. */
    function TestCount(): (n: nat)
      reads this
      ensures n == |tests|
    {
      |tests|
    }

    method SetTitle(title: string)
      modifies this
      ensures this.title == title
      ensures tests == old(tests) && results == old(results) && finished == old(finished)
      ensures setupAction == old(setupAction) && teardownAction == old(teardownAction)
    {
      this.title := title;
    }

    /** The `setup` decorator: replaces the setup new tests capture, if `f` takes one argument. */
    method Setup(f: Function) returns (r: Result<Function>)
      modifies this
      ensures r == CheckArguments(f)
      ensures setupAction == (if r.Ok? then f else old(setupAction))
      ensures tests == old(tests) && results == old(results) && finished == old(finished)
      ensures teardownAction == old(teardownAction) && title == old(title)
    {
      r := CheckArguments(f);
      if r.Ok? {
        setupAction := r.value;
      }
    }

    /** The `teardown` decorator: replaces the teardown new tests capture, if `f` takes one argument. */
    method Teardown(f: Function) returns (r: Result<Function>)
      modifies this
      ensures r == CheckArguments(f)
      ensures teardownAction == (if r.Ok? then f else old(teardownAction))
      ensures tests == old(tests) && results == old(results) && finished == old(finished)
      ensures setupAction == old(setupAction) && title == old(title)
    {
      r := CheckArguments(f);
      if r.Ok? {
        teardownAction := r.value;
      }
    }

    /**
     * The `test` decorator: a test capturing the current setup and
     * teardown is registered, unless `f` does not take one argument.
     */
    method AddTest(f: Function) returns (r: Result<Function>)
      modifies this
      ensures r == CheckArguments(f)
      ensures tests == old(tests) + (if r.Ok? then [Test(TestName(f.name), f, setupAction, teardownAction)] else [])
      ensures results == old(results) && finished == old(finished) && title == old(title)
      ensures setupAction == old(setupAction) && teardownAction == old(teardownAction)
    {
      var test := Test(TestName(f.name), f, setupAction, teardownAction);
      r := CheckArguments(f);
      if r.Ok? {
        tests := tests + [test];
      }
    }

    /**
     * `run(callback)`: each test is run in registration order, handed to
     * the runner's `update` (when there is one) and appended to the
     * results; then the suite is finished.
     */
    method Run(callback: Runner?)
      modifies this, callback
      ensures results == old(results) + RunAll(tests) && finished
      ensures tests == old(tests) && title == old(title)
      ensures setupAction == old(setupAction) && teardownAction == old(teardownAction)
      ensures callback != null ==> callback.Counters() == UpdateAll(old(callback.Counters()), RunAll(tests))
      ensures callback != null ==> callback.tests == old(callback.tests)
    {
      var registered := tests;
      ghost var start := if callback != null then callback.Counters() else Fresh;
      ghost var done: seq<TestResult> := [];
      for i := 0 to |registered|
        invariant tests == registered && title == old(title)
        invariant setupAction == old(setupAction) && teardownAction == old(teardownAction)
        invariant done == RunAll(registered[..i])
        invariant results == old(results) + done
        invariant callback != null ==> callback.Counters() == UpdateAll(start, done)
        invariant callback != null ==> callback.tests == old(callback.tests)
      {
        var result := RunTest(registered[i]);
        RunAllStep(registered, i);
        UpdateAllSnoc(start, done, result);
        Record(result, callback);
        done := done + [result];
      }
      assert registered[..|registered|] == registered;
      finished := true;
    }

    /** The body of the loop in `run`: hand one result to the callback and append it. */
    method Record(result: TestResult, callback: Runner?)
      modifies this, callback
      ensures results == old(results) + [result]
      ensures tests == old(tests) && title == old(title) && finished == old(finished)
      ensures setupAction == old(setupAction) && teardownAction == old(teardownAction)
      ensures callback != null ==> callback.Counters() == Updated(old(callback.Counters()), result)
      ensures callback != null ==> callback.tests == old(callback.tests)
    {
      if callback != null {
        callback.Update(result);
      }
      results := results + [result];
    }
  }

  /** A `Runner`: counters over the results of one suite. */
  class Runner {
    const suite: Suite
    var successes: nat
    var failures: nat
    var test: nat
    var tests: nat
    var firstFailure: Option<TestResult>

    function Counters(): Tally
      reads this
    {
      Tally(successes, failures, test, firstFailure)
    }

    constructor(suite: Suite)
      ensures this.suite == suite && Counters() == Fresh && tests == 0
    {
      this.suite := suite;
      successes, failures := 0, 0;
      test, tests := 0, 0;
      firstFailure := None;
    }

    /** `update(result)`. */
    method Update(result: TestResult)
      modifies this
      ensures Counters() == Updated(old(Counters()), result)
      ensures tests == old(tests)
    {
      if result.success {
        successes := successes + 1;
      }
      if !result.success {
        failures := failures + 1;
      }
      if !result.success && firstFailure.None? {
        firstFailure := Some(result);
      }
      test := test + 1;
    }

    /** `run()`: records the number of tests, then runs the suite with this runner as its callback. */
    method Run()
      modifies this, suite
      ensures suite.tests == old(suite.tests) && suite.title == old(suite.title)
      ensures suite.setupAction == old(suite.setupAction) && suite.teardownAction == old(suite.teardownAction)
      ensures tests == |suite.tests|
      ensures suite.results == old(suite.results) + RunAll(suite.tests) && suite.finished
      ensures Counters() == UpdateAll(old(Counters()), RunAll(suite.tests))
    {
      tests := suite.TestCount();
      suite.Run(this);
    }
  }
}
