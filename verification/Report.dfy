/** Execution results and the JUnit report (internal/report/report.go, internal/report/junit.go). */
module Report {
  import opened Wrappers
  import SkipRules

  datatype Status = Pass | Fail | Skip | Unknown

  datatype Phase = InSteps | InTeardown | InSuiteTeardown

  /** A failure text kept by its parts, where the runner builds one from another. */
  datatype Message =
    | Text(text: string)
    | RetryInterrupted
    | SkipRuleBroken(error: SkipRules.RuleError)
    | NoCallConfiguration
    | UnknownKeyword(keyword: string)
    | MissingInput(keyword: string)
    | NameCollision(step: string)
    | GraphError(keyword: string)
    | KeywordStepFailed(keyword: string, step: string, inner: Message)

  datatype ErrorDetail = ErrorDetail(kind: string, path: string, message: Message)

  datatype SkipReason =
    | NotSkipped
    | Blocked                                        // by some dependency, whichever it was
    | DependsOn(blocker: string, failed: bool)
    | EarlierStepFailed
    | RuleTriggered(reason: Option<string>)
    | WhenFalse
    | WhenBroken(error: string)

  datatype StepResult = StepResult(
    name: string, provider: string, phase: Phase, status: Status, attempts: nat,
    failure: Option<ErrorDetail>, skipReason: SkipReason)

  datatype ScenarioResult = ScenarioResult(
    name: string, status: Status, failure: Option<ErrorDetail>, skipReason: SkipReason,
    steps: seq<StepResult>, teardown: seq<StepResult>, teardownFailures: seq<ErrorDetail>)

  datatype SuiteResult = SuiteResult(
    scenarios: seq<ScenarioResult>, teardown: seq<StepResult>, teardownFailures: seq<ErrorDetail>)
  {
    ghost predicate SomeScenarioFailed() {
      exists i :: 0 <= i < |scenarios| && scenarios[i].status == Fail
    }
  }

  method Failed(r: SuiteResult) returns (failed: bool)
    ensures failed <==> r.teardownFailures != [] || r.SomeScenarioFailed()
  {
    if |r.teardownFailures| > 0 {
      return true;
    }
    var i := 0;
    while i < |r.scenarios|
      invariant 0 <= i <= |r.scenarios|
      invariant forall j | 0 <= j < i :: r.scenarios[j].status != Fail
    {
      if r.scenarios[i].status == Fail {
        return true;
      }
      i := i + 1;
    }
    failed := false;
  }

  // ----- the first failed step -----

  /** Steps come before teardown steps. */
  function AllSteps(s: ScenarioResult): seq<StepResult> {
    s.steps + s.teardown
  }

  /** r is the earliest failed step of all, when there is one. */
  ghost predicate FirstFailure(all: seq<StepResult>, r: Option<StepResult>) {
    match r
    case None => forall i | 0 <= i < |all| :: all[i].status != Fail
    case Some(step) =>
      exists i :: 0 <= i < |all| && all[i] == step && step.status == Fail
                  && forall j | 0 <= j < i :: all[j].status != Fail
  }

  method FindFirstFailedStep(s: ScenarioResult) returns (r: Option<StepResult>)
    ensures FirstFailure(AllSteps(s), r)
  {
    var all := AllSteps(s);
    var i := 0;
    while i < |s.steps|
      invariant 0 <= i <= |s.steps|
      invariant forall j | 0 <= j < i :: all[j].status != Fail
    {
      if s.steps[i].status == Fail {
        assert all[i] == s.steps[i];
        return Some(s.steps[i]);
      }
      i := i + 1;
    }
    i := 0;
    while i < |s.teardown|
      invariant 0 <= i <= |s.teardown|
      invariant forall j | 0 <= j < |s.steps| + i :: all[j].status != Fail
    {
      if s.teardown[i].status == Fail {
        assert all[|s.steps| + i] == s.teardown[i];
        return Some(s.teardown[i]);
      }
      i := i + 1;
    }
    r := None;
  }

  // ----- JUnit -----

  datatype CaseFailure = CaseFailure(message: Message, step: Option<StepResult>)

  datatype TestCase = TestCase(name: string, failure: Option<CaseFailure>, skipped: Option<SkipReason>)

  datatype TestSuite = TestSuite(tests: nat, failures: nat, skipped: nat, cases: seq<TestCase>)

  function CountFailed(cases: seq<TestCase>): nat {
    if cases == [] then 0 else CountFailed(cases[..|cases| - 1]) + if cases[|cases| - 1].failure.Some? then 1 else 0
  }

  function CountSkipped(cases: seq<TestCase>): nat {
    if cases == [] then 0 else CountSkipped(cases[..|cases| - 1]) + if cases[|cases| - 1].skipped.Some? then 1 else 0
  }

  /** One test case tells the scenario's status, and a failed one its first failed step. */
  ghost predicate CaseOf(tc: TestCase, s: ScenarioResult) {
    && tc.name == s.name
    && (tc.failure.Some? <==> s.status == Fail)
    && (tc.skipped.Some? <==> s.status == Skip)
    && (tc.skipped.Some? ==> tc.skipped.value == s.skipReason)
    && (tc.failure.Some? ==> FirstFailure(AllSteps(s), tc.failure.value.step))
    && (tc.failure.Some? && s.failure.Some? && s.failure.value.message != Text("")
        ==> tc.failure.value.message == s.failure.value.message)
    && (tc.failure.Some? ==> tc.failure.value.message != Text(""))
  }

  function FailurePrefix(d: ErrorDetail): string {
    if d.kind == "" then "failure"
    else if d.kind == "assertion" then "assertion failed"
    else d.kind + " failed"
  }

  function FailureMessage(failure: Option<ErrorDetail>): (m: Message)
    ensures m != Text("")
  {
    match failure
    case None => Text("scenario failed")
    case Some(d) =>
      if d.message != Text("") then d.message
      else Text(FailurePrefix(d) + if d.path != "" then " at " + d.path else "")
  }

  function TeardownMessage(failures: seq<ErrorDetail>): Message {
    if failures == [] then Text("suite teardown failed")
    else if failures[0].message != Text("") then failures[0].message
    else TeardownMessage(failures[1..])
  }

  /** The first message that says something, or the default when none does. */
  lemma {:induction false} FirstMessageIsShown(failures: seq<ErrorDetail>)
    ensures (forall i | 0 <= i < |failures| :: failures[i].message == Text("")) ==>
              TeardownMessage(failures) == Text("suite teardown failed")
    ensures forall i | 0 <= i < |failures| && failures[i].message != Text("")
                       && (forall j | 0 <= j < i :: failures[j].message == Text("")) ::
              TeardownMessage(failures) == failures[i].message
  {
    if failures != [] && failures[0].message == Text("") {
      FirstMessageIsShown(failures[1..]);
      forall i | 0 <= i < |failures| && failures[i].message != Text("")
                 && (forall j | 0 <= j < i :: failures[j].message == Text(""))
        ensures TeardownMessage(failures) == failures[i].message
      {
        assert failures[1..][i - 1] == failures[i];
        assert forall j | 0 <= j < i - 1 :: failures[1..][j] == failures[j + 1];
      }
    }
  }

  method SuiteTeardownFailureMessage(failures: seq<ErrorDetail>) returns (m: Message)
    ensures m == TeardownMessage(failures)
  {
    var i := 0;
    while i < |failures|
      invariant 0 <= i <= |failures|
      invariant TeardownMessage(failures[i..]) == TeardownMessage(failures)
    {
      if failures[i].message != Text("") {
        return failures[i].message;
      }
      i := i + 1;
    }
    m := Text("suite teardown failed");
  }

  /** x is the report of r: one case per scenario in order, one more for a suite teardown that
      recorded steps, and counters that count those cases. */
  ghost predicate ReportOf(x: TestSuite, r: SuiteResult) {
    && |x.cases| == |r.scenarios| + (if r.teardown == [] then 0 else 1)
    && (forall i | 0 <= i < |r.scenarios| :: CaseOf(x.cases[i], r.scenarios[i]))
    && (r.teardown != [] ==> TeardownCaseOf(x.cases[|r.scenarios|], r))
    && x.tests == |x.cases| && x.failures == CountFailed(x.cases) && x.skipped == CountSkipped(x.cases)
  }

  ghost predicate TeardownCaseOf(tc: TestCase, r: SuiteResult) {
    && tc.name == "suite_teardown" && tc.skipped == None
    && (tc.failure.Some? <==> r.teardownFailures != [])
    && (tc.failure.Some? ==> tc.failure.value.message == TeardownMessage(r.teardownFailures))
  }

  method WriteJUnit(r: SuiteResult) returns (x: TestSuite)
    ensures ReportOf(x, r)
  {
    var failures, skipped, cases := 0, 0, [];
    var i := 0;
    while i < |r.scenarios|
      invariant 0 <= i <= |r.scenarios| && |cases| == i
      invariant forall j | 0 <= j < i :: CaseOf(cases[j], r.scenarios[j])
      invariant failures == CountFailed(cases) && skipped == CountSkipped(cases)
    {
      var tc := ScenarioCase(r.scenarios[i]);
      if tc.failure.Some? {
        failures := failures + 1;
      }
      if tc.skipped.Some? {
        skipped := skipped + 1;
      }
      assert (cases + [tc])[..i] == cases;
      cases := cases + [tc];
      i := i + 1;
    }
    x := TestSuite(|r.scenarios|, failures, skipped, cases);
    x := AppendSuiteTeardownCase(x, r);
  }

  method ScenarioCase(s: ScenarioResult) returns (tc: TestCase)
    ensures CaseOf(tc, s)
  {
    tc := TestCase(s.name, None, None);
    if s.status == Fail {
      var step := FindFirstFailedStep(s);
      tc := tc.(failure := Some(CaseFailure(FailureMessage(s.failure), step)));
    } else if s.status == Skip {
      tc := tc.(skipped := Some(s.skipReason));
    }
  }

  method AppendSuiteTeardownCase(x: TestSuite, r: SuiteResult) returns (y: TestSuite)
    requires x.tests == |x.cases|
    requires x.failures == CountFailed(x.cases) && x.skipped == CountSkipped(x.cases)
    ensures |y.cases| == |x.cases| + if r.teardown == [] then 0 else 1
    ensures forall i | 0 <= i < |x.cases| :: y.cases[i] == x.cases[i]
    ensures r.teardown != [] ==> TeardownCaseOf(y.cases[|x.cases|], r)
    ensures y.tests == |y.cases|
    ensures y.failures == CountFailed(y.cases) && y.skipped == CountSkipped(y.cases)
  {
    if |r.teardown| == 0 {
      return x;
    }
    var tc := TestCase("suite_teardown", None, None);
    var failures := x.failures;
    if |r.teardownFailures| > 0 {
      failures := failures + 1;
      var m := SuiteTeardownFailureMessage(r.teardownFailures);
      tc := tc.(failure := Some(CaseFailure(m, None)));
    }
    y := TestSuite(x.tests + 1, failures, x.skipped, x.cases + [tc]);
    assert y.cases[..|x.cases|] == x.cases;
  }

  /** The counters count: as many as there are cases with a failure, and with a skip. */
  lemma CountersCount(cases: seq<TestCase>)
    ensures CountFailed(cases) == |set i | 0 <= i < |cases| && cases[i].failure.Some?|
    ensures CountSkipped(cases) == |set i | 0 <= i < |cases| && cases[i].skipped.Some?|
  {
    FailedAreCounted(cases);
    SkippedAreCounted(cases);
  }

  lemma {:induction false} FailedAreCounted(cases: seq<TestCase>)
    ensures CountFailed(cases) == |set i | 0 <= i < |cases| && cases[i].failure.Some?|
  {
    if cases != [] {
      var n := |cases| - 1;
      FailedAreCounted(cases[..n]);
      var before := set i | 0 <= i < n && cases[..n][i].failure.Some?;
      var all := set i | 0 <= i < |cases| && cases[i].failure.Some?;
      assert all == if cases[n].failure.Some? then before + {n} else before;
    }
  }

  lemma {:induction false} SkippedAreCounted(cases: seq<TestCase>)
    ensures CountSkipped(cases) == |set i | 0 <= i < |cases| && cases[i].skipped.Some?|
  {
    if cases != [] {
      var n := |cases| - 1;
      SkippedAreCounted(cases[..n]);
      var before := set i | 0 <= i < n && cases[..n][i].skipped.Some?;
      var all := set i | 0 <= i < |cases| && cases[i].skipped.Some?;
      assert all == if cases[n].skipped.Some? then before + {n} else before;
    }
  }

  lemma {:induction false} SomeFailedCase(cases: seq<TestCase>)
    ensures CountFailed(cases) > 0 <==> exists i :: 0 <= i < |cases| && cases[i].failure.Some?
  {
    if cases != [] {
      var front := cases[..|cases| - 1];
      SomeFailedCase(front);
      if i :| 0 <= i < |cases| && cases[i].failure.Some? {
        assert i < |front| ==> front[i].failure.Some?;
      }
      if CountFailed(front) > 0 {
        var k :| 0 <= k < |front| && front[k].failure.Some?;
        assert cases[k].failure.Some?;
      }
    }
  }

  /** The report and the exit status agree, except exactly when a suite teardown failed without
      recording a step and every scenario was fine. */
  lemma ReportsAgreeExactly(r: SuiteResult, x: TestSuite)
    requires ReportOf(x, r)
    ensures (x.failures > 0 <==> r.teardownFailures != [] || r.SomeScenarioFailed())
       <==> !(r.teardown == [] && r.teardownFailures != [] && !r.SomeScenarioFailed())
  {
    SomeFailedCase(x.cases);
    if i :| 0 <= i < |r.scenarios| && r.scenarios[i].status == Fail {
      assert CaseOf(x.cases[i], r.scenarios[i]) && x.cases[i].failure.Some?;
    }
  }
}
