/** The scenario loop in the runner's own form (internal/runtime/runner.go, tracker.go, skip.go,
    suite_teardown.go), proved to do what Scenarios and Lifecycle say. Which dependency is named as
    the blocker depends on map iteration order and is left open; nothing else is. */
module ScenarioRunner {
  import opened Wrappers
  import opened Model
  import opened Report
  import opened Engine
  import opened Scenarios
  import opened Lifecycle
  import opened StepRunner
  import Refs
  import SkipRules

  class DepTracker {
    var failed: set<string>
    var skipped: set<string>

    constructor ()
      ensures failed == {} && skipped == {}
    {
      failed, skipped := {}, {};
    }

    method MarkFailed(name: string)
      modifies this
      ensures failed == old(failed) + {name} && skipped == old(skipped)
    {
      failed := failed + {name};
    }

    method MarkSkipped(name: string)
      modifies this
      ensures skipped == old(skipped) + {name} && failed == old(failed)
    {
      skipped := skipped + {name};
    }

    /** Some dependency that ended badly, when there is one, whatever the iteration order. */
    method DependencyBlocker(deps: set<string>) returns (blocker: Option<(string, bool)>)
      ensures blocker.None? <==> deps !! failed + skipped
      ensures blocker.Some? ==> blocker.value.0 in deps && blocker.value.0 in failed + skipped
      ensures blocker.Some? ==> (blocker.value.1 <==> blocker.value.0 in failed)
    {
      var todo := deps;
      while todo != {}
        invariant todo <= deps && deps - todo !! failed + skipped
        decreases todo
      {
        var dep :| dep in todo;
        if dep in failed {
          return Some((dep, true));
        }
        if dep in skipped {
          return Some((dep, false));
        }
        todo := todo - {dep};
      }
      blocker := None;
    }
  }

  /** A scenario result while it is being filled in. */
  class ScenarioReport {
    const name: string
    var status: Status
    var failure: Option<ErrorDetail>
    var skipReason: SkipReason
    var steps: seq<StepResult>
    var teardown: seq<StepResult>
    var teardownFailures: seq<ErrorDetail>

    constructor (name: string)
      ensures Value() == ScenarioResult(name, Pass, None, NotSkipped, [], [], [])
    {
      this.name := name;
      status, failure, skipReason := Pass, None, NotSkipped;
      steps, teardown, teardownFailures := [], [], [];
    }

    function Value(): ScenarioResult
      reads this
    {
      ScenarioResult(name, status, failure, skipReason, steps, teardown, teardownFailures)
    }
  }

  // ----- what the choice of blocker does not change -----

  function Erase(r: StepResult): StepResult {
    if r.skipReason.DependsOn? then r.(skipReason := Blocked) else r
  }

  function EraseAll(rs: seq<StepResult>): seq<StepResult> {
    seq(|rs|, i requires 0 <= i < |rs| => Erase(rs[i]))
  }

  /** A cascaded skip names a dependency of its step, and how that one ended earlier in the list. */
  ghost predicate ReasonsHold(steps: seq<Step>, rs: seq<StepResult>) {
    |rs| <= |steps| &&
    forall i | 0 <= i < |rs| && rs[i].skipReason.DependsOn? ::
      && rs[i].skipReason.blocker in Refs.Dependencies(steps[i])
      && exists j :: 0 <= j < i && rs[j].name == rs[i].skipReason.blocker
                     && rs[j].status == if rs[i].skipReason.failed then Fail else Skip
  }

  /** The step phase as it stands in the objects, blockers erased. */
  function Standing(report: ScenarioReport, tracker: DepTracker, results: Results, log: Log): Progress
    reads report, tracker
  {
    Progress(EraseAll(report.steps), report.status, report.failure, tracker.failed, tracker.skipped, results, log)
  }

  ghost predicate TrackerOk(report: ScenarioReport, tracker: DepTracker)
    reads report, tracker
  {
    tracker.failed == NamesWith(report.steps, Fail) && tracker.skipped == NamesWith(report.steps, Skip)
  }

  lemma EraseSnoc(rs: seq<StepResult>, r: StepResult)
    ensures EraseAll(rs + [r]) == EraseAll(rs) + [Erase(r)]
  {
  }

  /** r, recorded next, gives a reason that holds. */
  ghost predicate ReasonHolds(steps: seq<Step>, rs: seq<StepResult>, r: StepResult)
    requires |rs| < |steps|
  {
    r.skipReason.DependsOn? ==>
      && r.skipReason.blocker in Refs.Dependencies(steps[|rs|])
      && r.skipReason.blocker in NamesWith(rs, if r.skipReason.failed then Fail else Skip)
  }

  lemma ReasonsSnoc(steps: seq<Step>, rs: seq<StepResult>, r: StepResult)
    requires ReasonsHold(steps, rs) && |rs| < |steps| && ReasonHolds(steps, rs, r)
    ensures ReasonsHold(steps, rs + [r])
  {
    var all := rs + [r];
    forall i | 0 <= i < |all| && all[i].skipReason.DependsOn?
      ensures all[i].skipReason.blocker in Refs.Dependencies(steps[i])
      ensures exists j :: 0 <= j < i && all[j].name == all[i].skipReason.blocker
                          && all[j].status == if all[i].skipReason.failed then Fail else Skip
    {
      var reason := all[i].skipReason;
      var j :| 0 <= j < i && rs[j].name == reason.blocker && rs[j].status == if reason.failed then Fail else Skip;
      assert all[j] == rs[j];
    }
  }

  // ----- one step -----

  /** Appends a result, marks the step for its dependents, and fails the scenario at its first
      failure. */
  method Record(report: ScenarioReport, tracker: DepTracker, ghost steps: seq<Step>, r: StepResult)
    requires |report.steps| < |steps| && ReasonHolds(steps, report.steps, r)
    requires TrackerOk(report, tracker) && ReasonsHold(steps, report.steps)
    modifies report, tracker
    ensures TrackerOk(report, tracker) && ReasonsHold(steps, report.steps)
    ensures Standing(report, tracker, map[], []) == Recorded(old(Standing(report, tracker, map[], [])), Erase(r), map[], [])
    ensures report.Value() == old(report.Value()).(steps := report.steps, status := report.status, failure := report.failure)
  {
    EraseSnoc(report.steps, r);
    ReasonsSnoc(steps, report.steps, r);
    NamesWithSnoc(report.steps, r, Fail);
    NamesWithSnoc(report.steps, r, Skip);
    report.steps := report.steps + [r];
    if r.status == Fail {
      tracker.MarkFailed(r.name);
      if report.failure.None? {
        report.failure := r.failure;
      }
      report.status := Fail;
    } else if r.status == Skip {
      tracker.MarkSkipped(r.name);
    }
  }

  /** The result to record when the step's own rules keep it from running. */
  method EvaluateStepSkip(runner: Runner, state: ScenarioState, step: Step) returns (r: Option<StepResult>)
    modifies runner
    ensures var (gate, log) := RulesGate(runner.w, step, state.results, old(runner.log));
            && runner.log == log
            && r == match gate
                    case Open => None
                    case Closed(reason) => Some(SkipResult(TOP, step, reason))
                    case Broken(e) => Some(BrokenRules(step, e))
  {
    if step.skipRules == [] {
      return None;
    }
    var rules := runner.w.oracle.rules(|runner.log|, TOP.At(step.name), state.results);
    var decision := SkipRules.EvaluateSkipRules(rules, runner.w.host);
    runner.Record(CheckRules, TOP.At(step.name));
    match decision {
      case Ok(Quiet) => r := None;
      case Ok(Skips(reason)) => r := Some(SkipResult(TOP, step, RuleTriggered(reason)));
      case Err(e) => r := Some(BrokenRules(step, e));
    }
  }

  /** The step's skip rules, then its `when`: the result to record if either keeps it from running. */
  method EvaluateGates(runner: Runner, state: ScenarioState, step: Step) returns (r: Option<StepResult>)
    modifies runner
    ensures var (gate, log) := OwnGate(runner.w, step, state.results, old(runner.log));
            && runner.log == log
            && r == match gate
                    case Open => None
                    case Closed(reason) => Some(SkipResult(TOP, step, reason))
                    case Broken(e) => Some(BrokenRules(step, e))
    ensures r.Some? ==> !r.value.skipReason.DependsOn?
  {
    r := EvaluateStepSkip(runner, state, step);
    if r.Some? {
      return;
    }
    var run := runner.EvalWhen(state, TOP, step);
    if run != Holds {
      r := Some(SkipResult(TOP, step, if run == False then WhenFalse else WhenBroken(run.error)));
    }
  }

  method RecordDepCascadeSkip(report: ScenarioReport, tracker: DepTracker, ghost steps: seq<Step>, step: Step,
                              blocker: string, failed: bool)
    requires |report.steps| < |steps| && steps[|report.steps|] == step
    requires TrackerOk(report, tracker) && ReasonsHold(steps, report.steps)
    requires blocker in Refs.Dependencies(step) && blocker in if failed then tracker.failed else tracker.skipped
    modifies report, tracker
    ensures TrackerOk(report, tracker) && ReasonsHold(steps, report.steps)
    ensures Standing(report, tracker, map[], [])
         == Recorded(old(Standing(report, tracker, map[], [])), SkipResult(TOP, step, Blocked), map[], [])
    ensures report.Value() == old(report.Value()).(steps := report.steps, status := report.status, failure := report.failure)
  {
    Record(report, tracker, steps, SkipResult(TOP, step, DependsOn(blocker, failed)));
  }

  method RunOneStep(runner: Runner, evaluator: Evaluator, state: ScenarioState, report: ScenarioReport,
                    tracker: DepTracker, ghost steps: seq<Step>, step: Step, deps: set<string>)
    requires |report.steps| < |steps| && steps[|report.steps|] == step && deps == Refs.Dependencies(step)
    requires step.name in state.results && evaluator.seedScope == ""
    requires TrackerOk(report, tracker) && ReasonsHold(steps, report.steps)
    modifies runner, evaluator, state, report, tracker
    ensures evaluator.seedScope == ""
    ensures TrackerOk(report, tracker) && ReasonsHold(steps, report.steps)
    ensures Standing(report, tracker, state.results, runner.log)
         == Scenarios.RunOneStep(runner.w, old(Standing(report, tracker, state.results, runner.log)), step)
    ensures report.Value() == old(report.Value()).(steps := report.steps, status := report.status, failure := report.failure)
  {
    var blocker := tracker.DependencyBlocker(deps);
    if blocker.Some? {
      RecordDepCascadeSkip(report, tracker, steps, step, blocker.value.0, blocker.value.1);
    } else if report.status == Fail {
      Record(report, tracker, steps, SkipResult(TOP, step, EarlierStepFailed));
    } else {
      RunUnblocked(runner, evaluator, state, report, tracker, steps, step);
    }
  }

  /** The step's own gates, then its execution. */
  method RunUnblocked(runner: Runner, evaluator: Evaluator, state: ScenarioState, report: ScenarioReport,
                      tracker: DepTracker, ghost steps: seq<Step>, step: Step)
    requires |report.steps| < |steps| && step.name in state.results && evaluator.seedScope == ""
    requires TrackerOk(report, tracker) && ReasonsHold(steps, report.steps)
    requires !HasBlocker(Standing(report, tracker, state.results, runner.log), step) && report.status != Fail
    modifies runner, evaluator, state, report, tracker
    ensures evaluator.seedScope == ""
    ensures TrackerOk(report, tracker) && ReasonsHold(steps, report.steps)
    ensures Standing(report, tracker, state.results, runner.log)
         == Scenarios.RunOneStep(runner.w, old(Standing(report, tracker, state.results, runner.log)), step)
    ensures report.Value() == old(report.Value()).(steps := report.steps, status := report.status, failure := report.failure)
  {
    hide OwnGate;
    hide HasBlocker;
    hide TrackerOk;
    hide ReasonsHold;
    var stepSkip := EvaluateGates(runner, state, step);
    if stepSkip.Some? {
      Record(report, tracker, steps, stepSkip.value);
    } else {
      ExecuteAndRecord(runner, evaluator, state, report, tracker, steps, step);
    }
  }

  method ExecuteAndRecord(runner: Runner, evaluator: Evaluator, state: ScenarioState, report: ScenarioReport,
                          tracker: DepTracker, ghost steps: seq<Step>, step: Step)
    requires |report.steps| < |steps| && step.name in state.results && evaluator.seedScope == ""
    requires TrackerOk(report, tracker) && ReasonsHold(steps, report.steps)
    modifies runner, evaluator, state, report, tracker
    ensures evaluator.seedScope == ""
    ensures TrackerOk(report, tracker) && ReasonsHold(steps, report.steps)
    ensures Standing(report, tracker, state.results, runner.log)
         == var d := ExecuteStep(runner.w, TOP, step, old(state.results), old(runner.log));
            Recorded(old(Standing(report, tracker, map[], [])), d.result, d.results, d.log)
    ensures report.Value() == old(report.Value()).(steps := report.steps, status := report.status, failure := report.failure)
  {
    var result := runner.ExecuteStepInPhase(evaluator, state, InSteps, [], map[], step);
    Record(report, tracker, steps, result);
  }

  lemma NextAfter(w: World, steps: seq<Step>, start: Progress, i: nat)
    requires i < |steps| && NameSet(steps) <= start.results.Keys
    ensures steps[i].name in start.results
    ensures After(w, steps, start, i + 1) == Scenarios.RunOneStep(w, After(w, steps, start, i), steps[i])
  {
  }

  /** One turn of the loop below. */
  method RunStepNumber(runner: Runner, evaluator: Evaluator, state: ScenarioState, report: ScenarioReport,
                       tracker: DepTracker, steps: seq<Step>, ghost start: Progress, i: nat, deps: set<string>)
    requires i < |steps| && deps == Refs.Dependencies(steps[i])
    requires NameSet(steps) <= start.results.Keys && evaluator.seedScope == ""
    requires TrackerOk(report, tracker) && ReasonsHold(steps, report.steps)
    requires Standing(report, tracker, state.results, runner.log) == After(runner.w, steps, start, i)
    requires start.steps == []
    modifies runner, evaluator, state, report, tracker
    ensures evaluator.seedScope == ""
    ensures TrackerOk(report, tracker) && ReasonsHold(steps, report.steps)
    ensures Standing(report, tracker, state.results, runner.log) == After(runner.w, steps, start, i + 1)
    ensures report.Value() == old(report.Value()).(steps := report.steps, status := report.status, failure := report.failure)
  {
    assert |EraseAll(report.steps)| == |report.steps| == i;
    NextAfter(runner.w, steps, start, i);
    hide After;
    hide Scenarios.RunOneStep;
    hide TrackerOk;
    hide ReasonsHold;
    hide Refs.Dependencies;
    RunOneStep(runner, evaluator, state, report, tracker, steps, steps[i], deps);
  }

  method RunScenarioSteps(runner: Runner, evaluator: Evaluator, state: ScenarioState, report: ScenarioReport,
                          tracker: DepTracker, steps: seq<Step>, depsByStep: map<string, set<string>>)
    requires forall i | 0 <= i < |steps| ::
               steps[i].name in depsByStep && depsByStep[steps[i].name] == Refs.Dependencies(steps[i])
    requires NameSet(steps) <= state.results.Keys && evaluator.seedScope == ""
    requires report.Value() == ScenarioResult(report.name, Pass, None, NotSkipped, [], [], [])
    requires tracker.failed == {} && tracker.skipped == {}
    modifies runner, evaluator, state, report, tracker
    ensures evaluator.seedScope == ""
    ensures ReasonsHold(steps, report.steps)
    ensures Standing(report, tracker, state.results, runner.log)
         == After(runner.w, steps, Start(old(state.results), old(runner.log)), |steps|)
    ensures report.Value() == old(report.Value()).(steps := report.steps, status := report.status, failure := report.failure)
  {
    ghost var start := Start(state.results, runner.log);
    assert TrackerOk(report, tracker) && ReasonsHold(steps, report.steps);
    assert Standing(report, tracker, state.results, runner.log) == After(runner.w, steps, start, 0);
    hide After;
    hide Scenarios.RunOneStep;
    hide TrackerOk;
    hide ReasonsHold;
    hide Refs.Dependencies;
    var i := 0;
    while i < |steps|
      invariant 0 <= i <= |steps|
      invariant evaluator.seedScope == ""
      invariant TrackerOk(report, tracker) && ReasonsHold(steps, report.steps)
      invariant Standing(report, tracker, state.results, runner.log) == After(runner.w, steps, start, i)
      invariant report.Value() == old(report.Value()).(steps := report.steps, status := report.status, failure := report.failure)
    {
      RunStepNumber(runner, evaluator, state, report, tracker, steps, start, i, depsByStep[steps[i].name]);
      i := i + 1;
    }
  }

  // ----- teardown -----

  method ExecuteTeardownStepInPhase(runner: Runner, evaluator: Evaluator, state: ScenarioState, phase: Phase, step: Step)
    returns (result: StepResult)
    requires step.name in state.results && evaluator.seedScope == ""
    modifies runner, evaluator, state
    ensures evaluator.seedScope == ""
    ensures Done(result, state.results, runner.log)
         == TeardownStep(runner.w, phase, step, old(state.results), old(runner.log))
  {
    var c := TeardownContext(phase);
    var run := runner.EvalWhen(state, c, step);
    if run != Holds {
      return SkipResult(c, step, if run == False then WhenFalse else WhenBroken(run.error));
    }
    result := runner.ExecuteStepInPhase(evaluator, state, phase, [], map[], step);
  }

  lemma CleanupOneMore(w: World, phase: Phase, steps: seq<Step>, results: Results, log: Log, n: nat)
    requires n < |steps| && NameSet(steps) <= results.Keys
    ensures CleanupAfter(w, phase, steps, results, log, n + 1)
         == var c := CleanupAfter(w, phase, steps, results, log, n);
            Cleaned(c, TeardownStep(w, phase, steps[n], c.results, c.log))
  {
  }

  method RunScenarioTeardown(runner: Runner, evaluator: Evaluator, state: ScenarioState, report: ScenarioReport,
                             steps: seq<Step>)
    requires NameSet(steps) <= state.results.Keys && evaluator.seedScope == ""
    requires report.teardown == [] && report.teardownFailures == []
    modifies runner, evaluator, state, report
    ensures Cleanup(report.teardown, report.teardownFailures, state.results, runner.log)
         == CleanupAfter(runner.w, InTeardown, steps, old(state.results), old(runner.log), |steps|)
    ensures report.Value() == WithTeardown(old(report.Value()), report.teardown, report.teardownFailures)
  {
    var i := 0;
    while i < |steps|
      invariant 0 <= i <= |steps|
      invariant evaluator.seedScope == ""
      invariant Cleanup(report.teardown, report.teardownFailures, state.results, runner.log)
             == CleanupAfter(runner.w, InTeardown, steps, old(state.results), old(runner.log), i)
      invariant report.Value() == WithTeardown(old(report.Value()), report.teardown, report.teardownFailures)
    {
      CleanupOneMore(runner.w, InTeardown, steps, old(state.results), old(runner.log), i);
      hide TeardownStep;
      hide CleanupAfter;
      var result := ExecuteTeardownStepInPhase(runner, evaluator, state, InTeardown, steps[i]);
      RecordTeardown(report, old(report.Value()), result);
      i := i + 1;
    }
  }

  /** The scenario result once its teardown has reported: a failure there fails one that had passed. */
  function WithTeardown(r: ScenarioResult, teardown: seq<StepResult>, failures: seq<ErrorDetail>): ScenarioResult {
    var late := r.status == Pass && failures != [];
    r.(teardown := teardown, teardownFailures := failures,
       status := if late then Fail else r.status, failure := if late then Some(failures[0]) else r.failure)
  }

  method RecordTeardown(report: ScenarioReport, ghost before: ScenarioResult, result: StepResult)
    requires report.Value() == WithTeardown(before, report.teardown, report.teardownFailures)
    requires result.status == Fail <==> result.failure.Some?
    modifies report
    ensures report.teardown == old(report.teardown) + [result]
    ensures report.teardownFailures
         == if result.failure.Some? then old(report.teardownFailures) + [result.failure.value] else old(report.teardownFailures)
    ensures report.Value() == WithTeardown(before, report.teardown, report.teardownFailures)
  {
    report.teardown := report.teardown + [result];
    if result.status == Fail {
      report.teardownFailures := report.teardownFailures + [result.failure.value];
      if report.status == Pass {
        report.status := Fail;
        report.failure := result.failure;
      }
    }
  }

  method RunSuiteTeardown(runner: Runner, steps: seq<Step>, workspace: Option<string>)
    returns (results: seq<StepResult>, failures: seq<ErrorDetail>)
    modifies runner
    ensures var c := Lifecycle.RunSuiteTeardown(runner.w, steps, workspace, old(runner.log));
            results == c.steps && failures == c.failures && runner.log == c.log
  {
    if |steps| == 0 {
      return [], [];
    }
    if workspace.Some? {
      var detail := ErrorDetail("runtime", "", Text("suite teardown setup failed: " + workspace.value));
      return [StepResult("workspace", "", InSuiteTeardown, Fail, 0, Some(detail), NotSkipped)], [detail];
    }
    var state := new ScenarioState(NameSet(steps));
    var evaluator := new Evaluator();
    results, failures := RunSuiteTeardownSteps(runner, evaluator, state, steps);
  }

  method RunSuiteTeardownSteps(runner: Runner, evaluator: Evaluator, state: ScenarioState, steps: seq<Step>)
    returns (results: seq<StepResult>, failures: seq<ErrorDetail>)
    requires NameSet(steps) <= state.results.Keys && evaluator.seedScope == ""
    modifies runner, evaluator, state
    ensures Cleanup(results, failures, state.results, runner.log)
         == CleanupAfter(runner.w, InSuiteTeardown, steps, old(state.results), old(runner.log), |steps|)
  {
    results, failures := [], [];
    var i := 0;
    while i < |steps|
      invariant 0 <= i <= |steps|
      invariant evaluator.seedScope == ""
      invariant Cleanup(results, failures, state.results, runner.log)
             == CleanupAfter(runner.w, InSuiteTeardown, steps, old(state.results), old(runner.log), i)
    {
      CleanupOneMore(runner.w, InSuiteTeardown, steps, old(state.results), old(runner.log), i);
      hide TeardownStep;
      hide CleanupAfter;
      var result := ExecuteTeardownStepInPhase(runner, evaluator, state, InSuiteTeardown, steps[i]);
      results := results + [result];
      if result.status == Fail {
        failures := failures + [result.failure.value];
      }
      i := i + 1;
    }
  }

  // ----- hooks -----

  method BeginHooks(runner: Runner, hooks: nat) returns (began: nat, error: Option<string>)
    modifies runner
    ensures HooksBegun(began, error, runner.log) == Lifecycle.BeginHooks(runner.w, hooks, 0, old(runner.log))
  {
    began := 0;
    while began < hooks
      invariant began <= hooks
      invariant Lifecycle.BeginHooks(runner.w, hooks, began, runner.log)
             == Lifecycle.BeginHooks(runner.w, hooks, 0, old(runner.log))
    {
      error := runner.w.oracle.begins(|runner.log|, began);
      if error.Some? {
        runner.RecordHook(HookRefused(began));
        return;
      }
      runner.RecordHook(HookBegan(began));
      began := began + 1;
    }
    error := None;
  }

  method EndHooks(runner: Runner, began: nat)
    modifies runner
    ensures runner.log == old(runner.log) + EndedHooks(began)
  {
    var i := began;
    while i > 0
      invariant 0 <= i <= began
      invariant runner.log + EndedHooks(i) == old(runner.log) + EndedHooks(began)
    {
      i := i - 1;
      runner.RecordHook(HookEnded(i));
    }
  }

  // ----- a scenario -----

  function EraseOutcome(o: Result<ScenarioResult, Breakdown>): Result<ScenarioResult, Breakdown> {
    match o
    case Ok(r) => Ok(r.(steps := EraseAll(r.steps)))
    case Err(e) => Err(e)
  }

  /** Whatever order dependency maps are iterated in, a scenario's statuses, failures, results and
      everything it does are the ones of the specification; only which blocker a cascaded skip names
      is open, and the one it names did end that way. */
  method RunScenario(runner: Runner, hooks: nat, scenario: Scenario, workspace: Option<string>)
    returns (outcome: Result<ScenarioResult, Breakdown>)
    requires DistinctNames(scenario.steps)
    modifies runner
    ensures ScenarioDone(EraseOutcome(outcome), runner.log)
         == Lifecycle.RunScenario(runner.w, hooks, scenario, workspace, old(runner.log))
    ensures outcome.Ok? ==> ReasonsHold(scenario.steps, outcome.value.steps)
  {
    if workspace.Some? {
      return Err(NoWorkspace(workspace.value));
    }
    var report := new ScenarioReport(scenario.name);
    var state := new ScenarioState(NameSet(scenario.steps) + NameSet(scenario.teardown));
    var evaluator := new Evaluator();
    var handled := ApplyScenarioSkip(runner, scenario, state, report);
    if handled {
      assert EraseAll(report.steps) == [];
      return Ok(report.Value());
    }
    outcome := RunFromHooks(runner, hooks, scenario, state, evaluator, report);
  }

  /** Whether the scenario's own skip rules end it, and how. */
  method ApplyScenarioSkip(runner: Runner, scenario: Scenario, state: ScenarioState, report: ScenarioReport)
    returns (handled: bool)
    requires report.Value() == ScenarioResult(scenario.name, Pass, None, NotSkipped, [], [], [])
    modifies runner, report
    ensures var (gate, log) := ScenarioGate(runner.w, scenario, state.results, old(runner.log));
            && runner.log == log
            && (handled <==> gate != Open)
            && report.Value() == match gate
                                 case Open => old(report.Value())
                                 case Closed(reason) => EndedEarly(scenario, Skip, None, reason)
                                 case Broken(e) => EndedEarly(scenario, Fail, Some(ErrorDetail("skip", "", SkipRuleBroken(e))), NotSkipped)
  {
    if !scenario.hasSkipRules {
      return false;
    }
    var rules := runner.w.oracle.rules(|runner.log|, TOP.At(""), state.results);
    var decision := SkipRules.EvaluateSkipRules(rules, runner.w.host);
    runner.Record(CheckRules, TOP.At(""));
    match decision {
      case Ok(Quiet) => handled := false;
      case Ok(Skips(reason)) =>
        report.status, report.skipReason := Skip, RuleTriggered(reason);
        handled := true;
      case Err(e) =>
        report.status, report.failure := Fail, Some(ErrorDetail("skip", "", SkipRuleBroken(e)));
        handled := true;
    }
  }

  method RunFromHooks(runner: Runner, hooks: nat, scenario: Scenario, state: ScenarioState, evaluator: Evaluator,
                      report: ScenarioReport)
    returns (outcome: Result<ScenarioResult, Breakdown>)
    requires DistinctNames(scenario.steps)
    requires state.results == InitialResults(scenario) && evaluator.seedScope == ""
    requires report.Value() == ScenarioResult(scenario.name, Pass, None, NotSkipped, [], [], [])
    modifies runner, state, evaluator, report
    ensures ScenarioDone(EraseOutcome(outcome), runner.log) == FromHooks(runner.w, hooks, scenario, old(runner.log))
    ensures outcome.Ok? ==> ReasonsHold(scenario.steps, outcome.value.steps)
  {
    var began, error := BeginHooks(runner, hooks);
    if error.Some? {
      report.status := Fail;
      report.failure := Some(ErrorDetail("hook", "", Text("scenario hook BeginScenario failed: " + error.value)));
      EndHooks(runner, began);
      assert EraseAll(report.steps) == [];
      return Ok(report.Value());
    }
    var depsByStep, bad := CollectDependencies(scenario.steps);
    if bad.Some? {
      EndHooks(runner, began);
      return Err(BadDependencies(bad.value));
    }
    hide StepsAndTeardown;
    outcome := RunStepsAndTeardown(runner, hooks, scenario, state, evaluator, report, depsByStep);
  }

  method CollectDependencies(steps: seq<Step>) returns (depsByStep: map<string, set<string>>, bad: Option<string>)
    requires DistinctNames(steps)
    ensures bad == FirstSelfReference(steps)
    ensures bad.None? ==> forall i | 0 <= i < |steps| ::
              steps[i].name in depsByStep && depsByStep[steps[i].name] == Refs.Dependencies(steps[i])
  {
    depsByStep := map[];
    var i := 0;
    while i < |steps|
      invariant 0 <= i <= |steps|
      invariant FirstSelfReference(steps[i..]) == FirstSelfReference(steps)
      invariant forall j | 0 <= j < i ::
                  steps[j].name in depsByStep && depsByStep[steps[j].name] == Refs.Dependencies(steps[j])
    {
      assert steps[i..][1..] == steps[i + 1..] && steps[i..][0] == steps[i];
      hide Refs.Dependencies;
      var deps := Refs.StepDependencies(steps[i]);
      if deps.Err? {
        bad := Some(steps[i].name);
        return;
      }
      depsByStep := depsByStep[steps[i].name := deps.value];
      i := i + 1;
    }
    bad := None;
  }

  method RunStepsAndTeardown(runner: Runner, hooks: nat, scenario: Scenario, state: ScenarioState, evaluator: Evaluator,
                             report: ScenarioReport, depsByStep: map<string, set<string>>)
    returns (outcome: Result<ScenarioResult, Breakdown>)
    requires forall i | 0 <= i < |scenario.steps| ::
               && scenario.steps[i].name in depsByStep
               && depsByStep[scenario.steps[i].name] == Refs.Dependencies(scenario.steps[i])
    requires state.results == InitialResults(scenario) && evaluator.seedScope == ""
    requires report.Value() == ScenarioResult(scenario.name, Pass, None, NotSkipped, [], [], [])
    modifies runner, state, evaluator, report
    ensures ScenarioDone(EraseOutcome(outcome), runner.log) == StepsAndTeardown(runner.w, hooks, scenario, old(runner.log))
    ensures outcome.Ok? && ReasonsHold(scenario.steps, outcome.value.steps)
  {
    hide Scenarios.RunOneStep;
    hide TeardownStep;
    var tracker := new DepTracker();
    RunScenarioSteps(runner, evaluator, state, report, tracker, scenario.steps, depsByStep);
    EndHooks(runner, hooks);
    RunScenarioTeardown(runner, evaluator, state, report, scenario.teardown);
    outcome := Ok(report.Value());
  }
}
