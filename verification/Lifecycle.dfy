/** A whole scenario: skip rules, hooks, steps, teardown; and the suite teardown
    (internal/runtime/runner.go, runScenario; skip.go, applyScenarioSkip; suite_teardown.go). */
module Lifecycle {
  import opened Wrappers
  import opened Model
  import opened Report
  import opened Engine
  import opened Scenarios
  import Refs
  import SkipRules

  /** New scenario state: every known step has an empty result. */
  function EmptyResults(names: set<string>): Results {
    map n | n in names :: EmptyObject
  }

  // ----- teardown steps -----

  function TeardownContext(phase: Phase): Context { Context(phase, [], "", map[]) }

  /** Teardown steps have no skip rules and no dependency cascade, only `when`. */
  function TeardownStep(w: World, phase: Phase, step: Step, results: Results, log: Log): (d: Done)
    requires step.name in results
    ensures d.results.Keys == results.Keys && log <= d.log
    ensures d.result.name == step.name && d.result.phase == phase
    ensures d.result.status == Pass || d.result.status == Fail || d.result.status == Skip
    ensures d.result.status == Fail <==> d.result.failure.Some?
  {
    var c := TeardownContext(phase);
    var (gate, log1) := WhenGate(w, c, step, results, log);
    if gate.Closed? then Done(SkipResult(c, step, gate.reason), results, log1)
    else ExecuteStep(w, c, step, results, log1)
  }

  /** What its `when` answers, asked first, decides: False skips the step, one that cannot be evaluated skips
      it too, and it is attempted exactly when it has none or its `when` holds. */
  lemma TeardownWhenDecides(w: World, phase: Phase, step: Step, results: Results, log: Log)
    requires step.name in results
    ensures var site := Site(step.name, phase, [], "", map[]);
            var answer := w.oracle.when(|log|, site, results);
            var d := TeardownStep(w, phase, step, results, log);
            && (d.result.status == Skip && d.result.skipReason == WhenFalse <==> step.when.Some? && answer == False)
            && (forall e :: d.result.status == Skip && d.result.skipReason == WhenBroken(e)
                            <==> step.when.Some? && answer == Unevaluable(e))
            && ((exists i | |log| <= i < |d.log| :: d.log[i] == At(Attempt(1), site)) <==> step.when.None? || answer == Holds)
            && (step.when.Some? ==> |log| < |d.log| && d.log[|log|] == At(CheckWhen, site))
            && (d.result.status == Skip ==> d.results == results)
  {
    var c := TeardownContext(phase);
    var asked := WhenGate(w, c, step, results, log).1;
    if step.when.None? || w.oracle.when(|log|, c.At(step.name), results) == Holds {
      StartsWithAttempt(w, c, step, results, asked);
      hide ExecuteStep;
      var d := TeardownStep(w, phase, step, results, log);
      assert d.log[|asked|] == At(Attempt(1), c.At(step.name));
    }
  }

  datatype Cleanup = Cleanup(steps: seq<StepResult>, failures: seq<ErrorDetail>, results: Results, log: Log)

  /** The teardown after its first n steps; a failed step does not stop the ones after it. */
  function CleanupAfter(w: World, phase: Phase, steps: seq<Step>, results: Results, log: Log, n: nat): (c: Cleanup)
    requires n <= |steps| && NameSet(steps) <= results.Keys
    ensures c.results.Keys == results.Keys && |c.steps| == n && log <= c.log
  {
    if n == 0 then Cleanup([], [], results, log)
    else
      var c := CleanupAfter(w, phase, steps, results, log, n - 1);
      var d := TeardownStep(w, phase, steps[n - 1], c.results, c.log);
      Cleaned(c, d)
  }

  function Cleaned(c: Cleanup, d: Done): Cleanup {
    Cleanup(c.steps + [d.result],
            if d.result.failure.Some? then c.failures + [d.result.failure.value] else c.failures,
            d.results, d.log)
  }

  /** The teardown gives every step its turn, in order, on what the steps before it left, and reports what
      came of it. */
  lemma {:induction false} TeardownTakesTurns(
    w: World, phase: Phase, steps: seq<Step>, results: Results, log: Log, n: nat, i: nat)
    requires i < n <= |steps| && NameSet(steps) <= results.Keys
    ensures var before := CleanupAfter(w, phase, steps, results, log, i);
            var d := TeardownStep(w, phase, steps[i], before.results, before.log);
            && CleanupAfter(w, phase, steps, results, log, n).steps[i] == d.result
            && CleanupAfter(w, phase, steps, results, log, i + 1).results == d.results
            && CleanupAfter(w, phase, steps, results, log, i + 1).log == d.log
    ensures CleanupAfter(w, phase, steps, results, log, 0) == Cleanup([], [], results, log)
  {
    hide TeardownStep;
    if i < n - 1 {
      TeardownTakesTurns(w, phase, steps, results, log, n - 1, i);
    }
  }

  /** The details of the failed steps, in order. */
  function FailuresOf(rs: seq<StepResult>): seq<ErrorDetail> {
    if rs == [] then []
    else FailuresOf(rs[..|rs| - 1])
         + var last := rs[|rs| - 1]; if last.status == Fail && last.failure.Some? then [last.failure.value] else []
  }

  /** One result per step so far, and exactly the failures of those that failed. */
  ghost predicate Reported(phase: Phase, steps: seq<Step>, c: Cleanup) {
    && |c.steps| <= |steps|
    && (forall i | 0 <= i < |c.steps| ::
          && c.steps[i].name == steps[i].name && c.steps[i].phase == phase
          && (c.steps[i].status == Fail <==> c.steps[i].failure.Some?))
    && c.failures == FailuresOf(c.steps)
  }

  lemma ReportedOneMore(phase: Phase, steps: seq<Step>, c: Cleanup, d: Done)
    requires Reported(phase, steps, c) && |c.steps| < |steps|
    requires d.result.name == steps[|c.steps|].name && d.result.phase == phase
    requires d.result.status == Fail <==> d.result.failure.Some?
    ensures Reported(phase, steps, Cleaned(c, d))
  {
  }

  /** A teardown reports on every one of its steps, whatever failed before it, and collects exactly
      the failures of the steps that failed. */
  lemma {:induction false} TeardownReportsAll(w: World, phase: Phase, steps: seq<Step>, results: Results, log: Log, n: nat)
    requires n <= |steps| && NameSet(steps) <= results.Keys
    ensures var c := CleanupAfter(w, phase, steps, results, log, n); Reported(phase, steps, c) && |c.steps| == n
  {
    hide TeardownStep;
    hide Cleaned;
    if n > 0 {
      TeardownReportsAll(w, phase, steps, results, log, n - 1);
      var c := CleanupAfter(w, phase, steps, results, log, n - 1);
      ReportedOneMore(phase, steps, c, TeardownStep(w, phase, steps[n - 1], c.results, c.log));
    }
  }

  /** The first collected failure is the first failed step's. */
  lemma {:induction false} FirstOfFailures(rs: seq<StepResult>, first: Option<StepResult>)
    requires FirstFailure(rs, first)
    requires forall i | 0 <= i < |rs| :: rs[i].status == Fail <==> rs[i].failure.Some?
    ensures first.None? <==> FailuresOf(rs) == []
    ensures first.Some? ==> Some(FailuresOf(rs)[0]) == first.value.failure
  {
    if rs != [] {
      var front, last := rs[..|rs| - 1], rs[|rs| - 1];
      var earlier := FirstInFront(rs, first);
      FirstOfFailures(front, earlier);
      hide FirstFailure;
    }
  }

  /** The first failed step but for the last, which is it if there is no earlier one. */
  lemma FirstInFront(rs: seq<StepResult>, first: Option<StepResult>) returns (earlier: Option<StepResult>)
    requires rs != [] && FirstFailure(rs, first)
    ensures FirstFailure(rs[..|rs| - 1], earlier)
    ensures earlier.Some? ==> first == earlier && first.value.status == Fail
    ensures earlier.None? ==> first == if rs[|rs| - 1].status == Fail then Some(rs[|rs| - 1]) else None
  {
    var front, last := rs[..|rs| - 1], rs[|rs| - 1];
    earlier := first;
    if first.Some? {
      var i :| 0 <= i < |rs| && rs[i] == first.value && rs[i].status == Fail && forall j | 0 <= j < i :: rs[j].status != Fail;
      assert forall j | 0 <= j < |front| :: front[j] == rs[j];
      if i < |front| {
        assert front[i] == first.value;
      } else {
        earlier := None;
      }
    }
  }

  // ----- hooks -----

  datatype HooksBegun = HooksBegun(count: nat, error: Option<string>, log: Log)

  /** Begins hooks k, k+1, … until one refuses. */
  function BeginHooks(w: World, hooks: nat, k: nat, log: Log): (b: HooksBegun)
    requires k <= hooks
    ensures k <= b.count <= hooks && (b.error.None? <==> b.count == hooks)
    decreases hooks - k
  {
    if k == hooks then HooksBegun(k, None, log)
    else match w.oracle.begins(|log|, k)
      case Some(error) => HooksBegun(k, Some(error), log + [HookRefused(k)])
      case None => BeginHooks(w, hooks, k + 1, log + [HookBegan(k)])
  }

  /** Ends the first k hooks, last begun first. */
  function EndedHooks(k: nat): Log {
    if k == 0 then [] else [HookEnded(k - 1)] + EndedHooks(k - 1)
  }

  // ----- a scenario -----

  datatype Breakdown = NoWorkspace(error: string) | BadDependencies(step: string)

  datatype ScenarioDone = ScenarioDone(outcome: Result<ScenarioResult, Breakdown>, log: Log)

  function ScenarioGate(w: World, sc: Scenario, results: Results, log: Log): (Gate, Log) {
    if !sc.hasSkipRules then (Open, log)
    else
      var rules := w.oracle.rules(|log|, TOP.At(""), results);
      (GateOf(SkipRules.DecisionFrom(rules, w.host, 0)), log + [At(CheckRules, TOP.At(""))])
  }

  /** A scenario that ended before its steps. */
  function EndedEarly(sc: Scenario, status: Status, failure: Option<ErrorDetail>, reason: SkipReason): ScenarioResult {
    ScenarioResult(sc.name, status, failure, reason, [], [], [])
  }

  function FirstSelfReference(steps: seq<Step>): (r: Option<string>)
    ensures r.None? <==> forall i | 0 <= i < |steps| :: steps[i].name !in Refs.Dependencies(steps[i])
  {
    if steps == [] then None
    else if steps[0].name in Refs.Dependencies(steps[0]) then Some(steps[0].name)
    else
      assert forall i | 0 < i < |steps| :: steps[i] == steps[1..][i - 1];
      FirstSelfReference(steps[1..])
  }

  function InitialResults(sc: Scenario): Results {
    EmptyResults(NameSet(sc.steps) + NameSet(sc.teardown))
  }

  function RunScenario(w: World, hooks: nat, sc: Scenario, workspace: Option<string>, log: Log): ScenarioDone {
    if workspace.Some? then ScenarioDone(Err(NoWorkspace(workspace.value)), log)
    else
      var (gate, log1) := ScenarioGate(w, sc, InitialResults(sc), log);
      match gate
      case Closed(reason) => ScenarioDone(Ok(EndedEarly(sc, Skip, None, reason)), log1)
      case Broken(e) => ScenarioDone(Ok(EndedEarly(sc, Fail, Some(ErrorDetail("skip", "", SkipRuleBroken(e))), NotSkipped)), log1)
      case Open => FromHooks(w, hooks, sc, log1)
  }

  /** From the first hook on. */
  function FromHooks(w: World, hooks: nat, sc: Scenario, log: Log): ScenarioDone {
    var begun := BeginHooks(w, hooks, 0, log);
    if begun.error.Some? then
      var detail := ErrorDetail("hook", "", Text("scenario hook BeginScenario failed: " + begun.error.value));
      ScenarioDone(Ok(EndedEarly(sc, Fail, Some(detail), NotSkipped)), begun.log + EndedHooks(begun.count))
    else
      var bad := FirstSelfReference(sc.steps);
      if bad.Some? then ScenarioDone(Err(BadDependencies(bad.value)), begun.log + EndedHooks(begun.count))
      else StepsAndTeardown(w, hooks, sc, begun.log)
  }

  function StepsAndTeardown(w: World, hooks: nat, sc: Scenario, log: Log): ScenarioDone {
    var p := After(w, sc.steps, Start(InitialResults(sc), log), |sc.steps|);
    var c := CleanupAfter(w, InTeardown, sc.teardown, p.results, p.log + EndedHooks(hooks), |sc.teardown|);
    ScenarioDone(Ok(Settled(sc, p, c)), c.log)
  }

  /** A teardown failure fails a scenario that had passed. */
  function Settled(sc: Scenario, p: Progress, c: Cleanup): ScenarioResult {
    var late := p.status == Pass && c.failures != [];
    ScenarioResult(sc.name,
                   if late then Fail else p.status,
                   if late then Some(c.failures[0]) else p.failure,
                   NotSkipped, p.steps, c.steps, c.failures)
  }

  // ----- what decides how far a scenario gets -----

  /** A scenario without a workspace breaks down before anything happens. Its own rules come first: the first
      that is not quiet ends it, skipped for the rule's reason or failed with what is wrong with the rule,
      and nothing else happens; without one the hooks begin. */
  lemma ScenarioRulesDecide(w: World, hooks: nat, sc: Scenario, log: Log, k: nat, decision: Result<SkipRules.Decision, SkipRules.RuleError>)
    ensures forall error :: RunScenario(w, hooks, sc, Some(error), log) == ScenarioDone(Err(NoWorkspace(error)), log)
    ensures var site := Site("", InSteps, [], "", map[]);
            var rules := w.oracle.rules(|log|, site, InitialResults(sc));
            var asked := log + [At(CheckRules, site)];
            var run := RunScenario(w, hooks, sc, None, log);
            && (!sc.hasSkipRules ==> run == FromHooks(w, hooks, sc, log))
            && (sc.hasSkipRules && (forall rule | rule in rules :: SkipRules.DecisionOf(rule, w.host) == Ok(SkipRules.Quiet)) ==>
                  run == FromHooks(w, hooks, sc, asked))
            && (sc.hasSkipRules && SkipRules.DecidedBy(rules, w.host, k, decision) ==>
                  && run.log == asked && run.outcome.Ok?
                  && run.outcome.value
                  == match decision
                     case Ok(d) => ScenarioResult(sc.name, Skip, None, RuleTriggered(d.reason), [], [], [])
                     case Err(e) =>
                       ScenarioResult(sc.name, Fail, Some(ErrorDetail("skip", "", SkipRuleBroken(e))), NotSkipped, [], [], []))
  {
    hide FromHooks;
    if sc.hasSkipRules {
      var rules := w.oracle.rules(|log|, TOP.At(""), InitialResults(sc));
      SkipRules.FirstLoudRuleDecides(rules, w.host);
      assert forall i | 0 <= i < |rules| :: rules[i] in rules;
      if SkipRules.DecidedBy(rules, w.host, k, decision) {
        SkipRules.DecidesFrom(rules, w.host, 0, k, decision);
      }
    }
    hide SkipRules.DecisionFrom;
  }

  /** Hook j begins when it is asked, as many events after `start` as there are hooks before it. */
  predicate Begins(w: World, start: nat, j: nat) {
    w.oracle.begins(start + j, j).None?
  }

  lemma {:induction false} HooksAsked(w: World, hooks: nat, start: nat, k: nat, log: Log, i: nat)
    requires k <= i <= hooks && |log| == start + k
    requires forall j: nat | k <= j < i :: Begins(w, start, j)
    requires i < hooks ==> !Begins(w, start, i)
    ensures BeginHooks(w, hooks, k, log)
         == if i == hooks then HooksBegun(hooks, None, log + BegunHooks(k, hooks))
            else HooksBegun(i, w.oracle.begins(start + i, i), log + BegunHooks(k, i) + [HookRefused(i)])
    decreases hooks - k
  {
    if k < i {
      assert Begins(w, start, k);
      HooksAsked(w, hooks, start, k + 1, log + [HookBegan(k)], i);
      assert log + [HookBegan(k)] + BegunHooks(k + 1, i) == log + BegunHooks(k, i);
    }
  }

  /** The hooks are asked in order, one event each. The first to refuse fails the scenario with its text,
      before any step, and those before it are ended. */
  lemma RefusingHookDecides(w: World, hooks: nat, sc: Scenario, log: Log, i: nat)
    requires i < hooks && (forall j: nat | j < i :: Begins(w, |log|, j)) && !Begins(w, |log|, i)
    ensures var run := FromHooks(w, hooks, sc, log);
            && run.log == log + BegunHooks(0, i) + [HookRefused(i)] + EndedHooks(i)
            && run.outcome.Ok? && run.outcome.value.failure.Some?
            && var text := "scenario hook BeginScenario failed: " + w.oracle.begins(|log| + i, i).value;
               run.outcome.value
               == ScenarioResult(sc.name, Fail, Some(ErrorDetail("hook", "", Text(text))), NotSkipped, [], [], [])
  {
    HooksAsked(w, hooks, |log|, 0, log, i);
    hide BeginHooks;
    hide BegunHooks;
    hide EndedHooks;
    hide StepsAndTeardown;
    hide FirstSelfReference;
  }

  /** When none refuses the steps follow, unless one of them refers to itself. */
  lemma BegunHooksDecide(w: World, hooks: nat, sc: Scenario, log: Log)
    requires forall j: nat | j < hooks :: Begins(w, |log|, j)
    ensures var run := FromHooks(w, hooks, sc, log);
            var begun := log + BegunHooks(0, hooks);
            if exists j :: 0 <= j < |sc.steps| && sc.steps[j].name in Refs.Dependencies(sc.steps[j])
            then run.outcome.Err? && run.log == begun + EndedHooks(hooks)
            else run == StepsAndTeardown(w, hooks, sc, begun)
  {
    HooksAsked(w, hooks, |log|, 0, log, hooks);
    SelfReferenceFound(sc.steps);
    hide BeginHooks;
    hide BegunHooks;
    hide EndedHooks;
    hide StepsAndTeardown;
    hide FirstSelfReference;
    hide Refs.Dependencies;
  }

  lemma SelfReferenceFound(steps: seq<Step>)
    ensures FirstSelfReference(steps).Some? <==> exists j :: 0 <= j < |steps| && steps[j].name in Refs.Dependencies(steps[j])
  {
    hide Refs.Dependencies;
  }

  // ----- what a scenario result tells -----

  lemma FullRun(w: World, hooks: nat, sc: Scenario, log: Log) returns (p: Progress, c: Cleanup)
    ensures StepsAndTeardown(w, hooks, sc, log).outcome == Ok(Settled(sc, p, c))
    ensures Consistent(sc.steps, p) && |p.steps| == |sc.steps|
    ensures Reported(InTeardown, sc.teardown, c) && |c.steps| == |sc.teardown|
  {
    hide RunOneStep;
    hide TeardownStep;
    p := After(w, sc.steps, Start(InitialResults(sc), log), |sc.steps|);
    c := CleanupAfter(w, InTeardown, sc.teardown, p.results, p.log + EndedHooks(hooks), |sc.teardown|);
    StepPhaseConsistent(w, sc.steps, InitialResults(sc), log, |sc.steps|);
    TeardownReportsAll(w, InTeardown, sc.teardown, p.results, p.log + EndedHooks(hooks), |sc.teardown|);
  }

  /** A scenario's result comes from one of the early ends, or from its steps and teardown. */
  lemma ResultSource(w: World, hooks: nat, sc: Scenario, workspace: Option<string>, log: Log)
    ensures var o := RunScenario(w, hooks, sc, workspace, log).outcome;
            o.Ok? ==>
              || (o.value.status == Skip && o.value == EndedEarly(sc, Skip, None, o.value.skipReason))
              || (&& o.value.failure.Some? && o.value.failure.value.kind in {"skip", "hook"}
                  && o.value == EndedEarly(sc, Fail, o.value.failure, NotSkipped))
              || exists log1 :: o == StepsAndTeardown(w, hooks, sc, log1).outcome
  {
    hide StepsAndTeardown;
  }

  /** Either the scenario ended before its steps, or it has one result per step and per teardown
      step, in file order, halting at the first failed step. */
  lemma ResultShape(w: World, hooks: nat, sc: Scenario, workspace: Option<string>, log: Log)
    ensures var o := RunScenario(w, hooks, sc, workspace, log).outcome;
            o.Ok? ==>
              || (o.value.steps == [] && o.value.teardown == [] && o.value.status != Pass)
              || (&& |o.value.steps| == |sc.steps| && |o.value.teardown| == |sc.teardown|
                  && HaltsAtFailure(o.value.steps)
                  && (forall i | 0 <= i < |sc.steps| :: o.value.steps[i].name == sc.steps[i].name)
                  && (forall i | 0 <= i < |sc.teardown| :: o.value.teardown[i].name == sc.teardown[i].name))
    ensures var o := RunScenario(w, hooks, sc, workspace, log).outcome;
            o.Ok? ==> o.value.teardownFailures == FailuresOf(o.value.teardown)
  {
    hide RunScenario;
    hide StepsAndTeardown;
    ResultSource(w, hooks, sc, workspace, log);
    var o := RunScenario(w, hooks, sc, workspace, log).outcome;
    if log1 :| o == StepsAndTeardown(w, hooks, sc, log1).outcome {
      var p, c := FullRun(w, hooks, sc, log1);
    }
  }

  /** A scenario fails with the detail of its first failed step, teardown included; only a broken
      skip rule or a refusing hook fails one that ran no step. */
  lemma FailureIsFirstFailedStep(
    w: World, hooks: nat, sc: Scenario, workspace: Option<string>, log: Log, r: ScenarioResult, first: Option<StepResult>)
    requires RunScenario(w, hooks, sc, workspace, log).outcome == Ok(r)
    requires FirstFailure(AllSteps(r), first)
    ensures first.Some? ==> r.status == Fail && r.failure.Some? && r.failure == first.value.failure
    ensures first.None? && r.status == Fail ==>
              r.steps == [] && r.teardown == [] && r.failure.Some? && r.failure.value.kind in {"skip", "hook"}
    ensures r.failure.Some? <==> r.status == Fail
  {
    hide RunScenario;
    hide StepsAndTeardown;
    ResultSource(w, hooks, sc, workspace, log);
    if log1 :| Ok(r) == StepsAndTeardown(w, hooks, sc, log1).outcome {
      var p, c := FullRun(w, hooks, sc, log1);
      SettledFailure(sc, p, c, first);
    }
  }

  /** So the step a JUnit case shows for a failed scenario is the one its failure detail is about. */
  lemma CaseShowsTheFailure(
    w: World, hooks: nat, sc: Scenario, workspace: Option<string>, log: Log, r: ScenarioResult, tc: TestCase)
    requires RunScenario(w, hooks, sc, workspace, log).outcome == Ok(r) && CaseOf(tc, r) && r.status == Fail
    ensures tc.failure.Some? && r.failure.Some?
    ensures match tc.failure.value.step
            case Some(step) => step.failure == r.failure
            case None => r.failure.value.kind in {"skip", "hook"}
  {
    hide RunScenario;
    FailureIsFirstFailedStep(w, hooks, sc, workspace, log, r, tc.failure.value.step);
  }

  lemma SettledFailure(sc: Scenario, p: Progress, c: Cleanup, first: Option<StepResult>)
    requires Consistent(sc.steps, p)
    requires Reported(InTeardown, sc.teardown, c)
    requires FirstFailure(AllSteps(Settled(sc, p, c)), first)
    ensures var r := Settled(sc, p, c);
            && (first.Some? <==> r.status == Fail)
            && (first.Some? ==> r.failure.Some? && r.failure == first.value.failure)
            && (r.failure.Some? <==> r.status == Fail)
  {
    var all := p.steps + c.steps;
    if p.status == Fail {
      var i :| 0 <= i < |p.steps| && p.steps[i].status == Fail && p.steps[i].failure == p.failure;
      assert all[i] == p.steps[i];
      var k :| 0 <= k < |all| && all[k] == first.value && all[k].status == Fail && forall j | 0 <= j < k :: all[j].status != Fail;
      assert k == i;
    } else {
      FirstAfterPrefix(p.steps, c.steps, first);
      FirstOfFailures(c.steps, first);
    }
  }

  lemma FirstAfterPrefix(a: seq<StepResult>, b: seq<StepResult>, first: Option<StepResult>)
    requires FirstFailure(a + b, first)
    requires forall i | 0 <= i < |a| :: a[i].status != Fail
    ensures FirstFailure(b, first)
  {
    var all := a + b;
    if first.Some? {
      var i :| 0 <= i < |all| && all[i] == first.value && all[i].status == Fail && forall j | 0 <= j < i :: all[j].status != Fail;
      assert b[i - |a|] == first.value;
      forall j | 0 <= j < i - |a| ensures b[j].status != Fail {
        assert all[|a| + j] == b[j];
      }
    } else {
      forall j | 0 <= j < |b| ensures b[j].status != Fail {
        assert all[|a| + j] == b[j];
      }
    }
  }

  // ----- hooks bracket the steps -----

  function HookEvents(log: Log): Log {
    if log == [] then []
    else HookEvents(log[..|log| - 1]) + if log[|log| - 1].At? then [] else [log[|log| - 1]]
  }

  /** Hooks k to n - 1 begin, in order. */
  function BegunHooks(k: nat, n: nat): Log
    decreases n - k
  {
    if k >= n then [] else [HookBegan(k)] + BegunHooks(k + 1, n)
  }

  lemma {:induction false} HookEventsAppend(a: Log, b: Log)
    ensures HookEvents(a + b) == HookEvents(a) + HookEvents(b)
  {
    if b == [] {
      assert a + b == a;
    } else {
      HookEventsAppend(a, b[..|b| - 1]);
      assert (a + b)[..|a + b| - 1] == a + b[..|b| - 1];
    }
  }

  predicate AllAt(log: Log) {
    forall k | 0 <= k < |log| :: log[k].At?
  }

  predicate NoneAt(log: Log) {
    forall k | 0 <= k < |log| :: !log[k].At?
  }

  lemma {:induction false} HookEventsOf(log: Log)
    ensures AllAt(log) ==> HookEvents(log) == []
    ensures NoneAt(log) ==> HookEvents(log) == log
  {
    if log != [] {
      HookEventsOf(log[..|log| - 1]);
    }
  }

  lemma StepsAddNoHookEvents(log: Log, during: Log)
    requires AllAt(during)
    ensures HookEvents(log + during) == HookEvents(log)
  {
    HookEventsAppend(log, during);
    HookEventsOf(during);
  }

  lemma HooksAddHookEvents(log: Log, hooks: Log)
    requires NoneAt(hooks)
    ensures HookEvents(log + hooks) == HookEvents(log) + hooks
  {
    HookEventsAppend(log, hooks);
    HookEventsOf(hooks);
  }

  function Refused(b: HooksBegun): Log {
    if b.error.Some? then [HookRefused(b.count)] else []
  }

  lemma {:induction false} HooksBeginInOrder(w: World, hooks: nat, k: nat, log: Log)
    requires k <= hooks
    ensures var b := BeginHooks(w, hooks, k, log);
            b.log == log + BegunHooks(k, b.count) + Refused(b)
    decreases hooks - k
  {
    if k < hooks && w.oracle.begins(|log|, k).None? {
      HooksBeginInOrder(w, hooks, k + 1, log + [HookBegan(k)]);
    }
  }

  lemma {:induction false} BegunHooksAt(k: nat, n: nat)
    requires k <= n
    ensures |BegunHooks(k, n)| == n - k && forall i | 0 <= i < n - k :: BegunHooks(k, n)[i] == HookBegan(k + i)
    decreases n - k
  {
    if k < n {
      BegunHooksAt(k + 1, n);
    }
  }

  lemma {:induction false} HooksEndBackwards(k: nat)
    ensures |EndedHooks(k)| == k && forall i | 0 <= i < k :: EndedHooks(k)[i] == HookEnded(k - 1 - i)
  {
    if k > 0 {
      HooksEndBackwards(k - 1);
    }
  }

  /** e happened on behalf of one of these teardown steps, in the teardown's phase or inside a call. */
  ghost predicate OfTeardown(phase: Phase, steps: seq<Step>, e: Event) {
    && e.At?
    && (exists i :: 0 <= i < |steps| && Owner(e) == steps[i].name)
    && e.site.phase == if e.site.frames == [] then phase else InSteps
  }

  /** No hook begins or ends from inside a teardown step. */
  lemma TeardownStepEvents(w: World, phase: Phase, step: Step, results: Results, log: Log, k: nat)
    requires step.name in results && |log| <= k < |TeardownStep(w, phase, step, results, log).log|
    ensures var e := TeardownStep(w, phase, step, results, log).log[k];
            && e.At? && Owner(e) == step.name
            && e.site.phase == if e.site.frames == [] then phase else InSteps
  {
    var c := TeardownContext(phase);
    var (gate, log1) := WhenGate(w, c, step, results, log);
    if !gate.Closed? {
      var d := ExecuteStep(w, c, step, results, log1);
      assert k >= |log1| ==> Within(w, c, step.name, d.log[k]);
      assert k < |log1| ==> d.log[k] == log1[k];
    }
  }

  lemma {:induction false} TeardownEvents(w: World, phase: Phase, steps: seq<Step>, results: Results, log: Log, n: nat, k: nat)
    requires n <= |steps| && NameSet(steps) <= results.Keys
    requires |log| <= k < |CleanupAfter(w, phase, steps, results, log, n).log|
    ensures OfTeardown(phase, steps, CleanupAfter(w, phase, steps, results, log, n).log[k])
  {
    hide TeardownStep;
    var c := CleanupAfter(w, phase, steps, results, log, n - 1);
    if k < |c.log| {
      TeardownEvents(w, phase, steps, results, log, n - 1, k);
    } else {
      TeardownStepEvents(w, phase, steps[n - 1], c.results, c.log, k);
    }
  }

  /** The steps run before the hooks are ended, the teardown after: what happens in between belongs to
      the one list, what happens after to the other. */
  lemma StepsThenHooksThenTeardown(w: World, hooks: nat, sc: Scenario, log: Log) returns (during: Log, cleanup: Log)
    ensures StepsAndTeardown(w, hooks, sc, log).log == log + during + EndedHooks(hooks) + cleanup
    ensures forall k | 0 <= k < |during| ::
              during[k].At? && during[k].site.phase == InSteps && Owner(during[k]) in NameSet(sc.steps)
    ensures forall k | 0 <= k < |cleanup| :: OfTeardown(InTeardown, sc.teardown, cleanup[k])
  {
    hide RunOneStep;
    hide TeardownStep;
    var p := After(w, sc.steps, Start(InitialResults(sc), log), |sc.steps|);
    during := StepEvents(w, sc.steps, InitialResults(sc), log);
    cleanup := CleanupEvents(w, InTeardown, sc.teardown, p.results, p.log + EndedHooks(hooks));
    hide After;
    hide CleanupAfter;
    hide OfTeardown;
    hide EndedHooks;
  }

  lemma StepEvents(w: World, steps: seq<Step>, results: Results, log: Log) returns (during: Log)
    requires NameSet(steps) <= results.Keys
    ensures After(w, steps, Start(results, log), |steps|).log == log + during
    ensures forall k | 0 <= k < |during| ::
              during[k].At? && during[k].site.phase == InSteps && Owner(during[k]) in NameSet(steps)
  {
    hide RunOneStep;
    var p := After(w, steps, Start(results, log), |steps|);
    AfterExtends(w, steps, Start(results, log), |steps|);
    during := p.log[|log|..];
    forall k | 0 <= k < |during|
      ensures during[k].At? && during[k].site.phase == InSteps && Owner(during[k]) in NameSet(steps)
    {
      EventsHaveOwners(w, steps, results, log, |steps|, |log| + k);
    }
  }

  lemma CleanupEvents(w: World, phase: Phase, steps: seq<Step>, results: Results, log: Log) returns (cleanup: Log)
    requires NameSet(steps) <= results.Keys
    ensures CleanupAfter(w, phase, steps, results, log, |steps|).log == log + cleanup
    ensures forall k | 0 <= k < |cleanup| :: OfTeardown(phase, steps, cleanup[k])
  {
    hide TeardownStep;
    var c := CleanupAfter(w, phase, steps, results, log, |steps|);
    cleanup := c.log[|log|..];
    forall k | 0 <= k < |cleanup| ensures OfTeardown(phase, steps, cleanup[k]) {
      TeardownEvents(w, phase, steps, results, log, |steps|, |log| + k);
    }
  }

  lemma {:induction false} AfterExtends(w: World, steps: seq<Step>, start: Progress, n: nat)
    requires n <= |steps| && NameSet(steps) <= start.results.Keys
    ensures start.log <= After(w, steps, start, n).log
  {
    hide RunOneStep;
    if n > 0 {
      AfterExtends(w, steps, start, n - 1);
    }
  }

  /** The hook events of one scenario: hooks 0 to k - 1 begin in order, hook k may refuse, and
      exactly those that began are ended, last first. */
  function Bracket(hooks: nat, k: nat): Log {
    BegunHooks(0, k) + (if k < hooks then [HookRefused(k)] else []) + EndedHooks(k)
  }

  lemma FullRunBracket(w: World, hooks: nat, sc: Scenario, log: Log)
    ensures HookEvents(StepsAndTeardown(w, hooks, sc, log).log) == HookEvents(log) + EndedHooks(hooks)
  {
    hide StepsAndTeardown;
    var during, cleanup := StepsThenHooksThenTeardown(w, hooks, sc, log);
    HooksEndBackwards(hooks);
    StepsAddNoHookEvents(log, during);
    HooksAddHookEvents(log + during, EndedHooks(hooks));
    StepsAddNoHookEvents(log + during + EndedHooks(hooks), cleanup);
  }

  lemma BegunLog(w: World, hooks: nat, log: Log)
    ensures var b := BeginHooks(w, hooks, 0, log);
            HookEvents(b.log) == HookEvents(log) + BegunHooks(0, b.count) + Refused(b)
  {
    var b := BeginHooks(w, hooks, 0, log);
    HooksBeginInOrder(w, hooks, 0, log);
    BegunHooksAt(0, b.count);
    hide HookEvents;
    hide BegunHooks;
    HooksAddHookEvents(log, BegunHooks(0, b.count));
    HooksAddHookEvents(log + BegunHooks(0, b.count), Refused(b));
  }

  lemma BracketFromHooks(w: World, hooks: nat, sc: Scenario, log: Log)
    ensures HookEvents(FromHooks(w, hooks, sc, log).log)
         == HookEvents(log) + Bracket(hooks, BeginHooks(w, hooks, 0, log).count)
  {
    hide StepsAndTeardown;
    hide HookEvents;
    hide BegunHooks;
    var b := BeginHooks(w, hooks, 0, log);
    BegunLog(w, hooks, log);
    HooksEndBackwards(b.count);
    hide EndedHooks;
    HooksAddHookEvents(b.log, EndedHooks(b.count));
    FullRunBracket(w, hooks, sc, b.log);
    hide BeginHooks;
    assert HookEvents(FromHooks(w, hooks, sc, log).log) == HookEvents(b.log) + EndedHooks(b.count);
    BracketParts(HookEvents(log), BegunHooks(0, b.count), Refused(b), EndedHooks(b.count));
  }

  lemma BracketParts(a: Log, b: Log, c: Log, d: Log)
    ensures a + b + c + d == a + (b + c + d)
  {
  }

  /** Hooks are bracketed on every path: a scenario that could not be set up, or that its skip rules
      ended, touches none; otherwise the hooks that began, and no others, are ended once each in
      reverse order, also when a later hook refuses or the dependencies turn out broken. */
  lemma HooksAreBracketed(w: World, hooks: nat, sc: Scenario, workspace: Option<string>, log: Log) returns (k: nat)
    ensures var d := RunScenario(w, hooks, sc, workspace, log);
            if workspace.Some? || ScenarioGate(w, sc, InitialResults(sc), log).0 != Open
            then HookEvents(d.log) == HookEvents(log)
            else k <= hooks && HookEvents(d.log) == HookEvents(log) + Bracket(hooks, k)
    ensures var d := RunScenario(w, hooks, sc, workspace, log);
            d.outcome.Ok? && d.outcome.value.steps != [] ==> HookEvents(d.log) == HookEvents(log) + Bracket(hooks, hooks)
  {
    hide FromHooks;
    hide HookEvents;
    hide Bracket;
    var (gate, log1) := ScenarioGate(w, sc, InitialResults(sc), log);
    assert log1 == log + log1[|log|..];
    StepsAddNoHookEvents(log, log1[|log|..]);
    var b := BeginHooks(w, hooks, 0, log1);
    BracketFromHooks(w, hooks, sc, log1);
    NoStepsWithoutHooks(w, hooks, sc, log1);
    k := b.count;
  }

  lemma NoStepsWithoutHooks(w: World, hooks: nat, sc: Scenario, log: Log)
    ensures var d := FromHooks(w, hooks, sc, log);
            d.outcome.Ok? && d.outcome.value.steps != [] ==> BeginHooks(w, hooks, 0, log).count == hooks
  {
  }

  // ----- the suite teardown -----

  /** A workspace that cannot be made is reported as a failed step of its own. */
  function RunSuiteTeardown(w: World, steps: seq<Step>, workspace: Option<string>, log: Log): Cleanup {
    if steps == [] then Cleanup([], [], map[], log)
    else if workspace.Some? then
      var detail := ErrorDetail("runtime", "", Text("suite teardown setup failed: " + workspace.value));
      Cleanup([StepResult("workspace", "", InSuiteTeardown, Fail, 0, Some(detail), NotSkipped)], [detail], map[], log)
    else CleanupAfter(w, InSuiteTeardown, steps, EmptyResults(NameSet(steps)), log, |steps|)
  }

  /** A suite-teardown failure never comes without a step that shows it. */
  lemma TeardownFailureHasStep(w: World, steps: seq<Step>, workspace: Option<string>, log: Log)
    ensures var c := RunSuiteTeardown(w, steps, workspace, log);
            && c.failures == FailuresOf(c.steps)
            && (c.steps == [] <==> steps == [])
            && (steps != [] && workspace.None? ==> |c.steps| == |steps|)
            && (steps != [] && workspace.Some? ==>
                  && c.log == log && |c.steps| == 1 && c.steps[0].status == Fail && c.steps[0].phase == InSuiteTeardown
                  && c.failures == [ErrorDetail("runtime", "", Text("suite teardown setup failed: " + workspace.value))])
  {
    if steps != [] && workspace.None? {
      TeardownReportsAll(w, InSuiteTeardown, steps, EmptyResults(NameSet(steps)), log, |steps|);
    }
  }

  /** So for every run whose scenarios produced results, the JUnit report counts a failure exactly
      when the command fails. */
  lemma WholeRunReportsAgree(
    w: World, scenarios: seq<ScenarioResult>, steps: seq<Step>, workspace: Option<string>, log: Log, x: TestSuite)
    requires var c := RunSuiteTeardown(w, steps, workspace, log);
             ReportOf(x, SuiteResult(scenarios, c.steps, c.failures))
    ensures var c := RunSuiteTeardown(w, steps, workspace, log);
            x.failures > 0 <==> c.failures != [] || SuiteResult(scenarios, c.steps, c.failures).SomeScenarioFailed()
    ensures x.tests == |scenarios| + if steps == [] then 0 else 1
  {
    hide RunSuiteTeardown;
    var c := RunSuiteTeardown(w, steps, workspace, log);
    TeardownFailureHasStep(w, steps, workspace, log);
    ReportsAgreeExactly(SuiteResult(scenarios, c.steps, c.failures), x);
  }
}
