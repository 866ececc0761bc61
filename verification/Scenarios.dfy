/** A scenario's steps in file order (internal/runtime/runner.go, runOneStep; tracker.go): what every
    run of the step phase looks like, as functions over the oracle of Engine. */
module Scenarios {
  import opened Wrappers
  import opened Model
  import opened Report
  import opened Engine
  import Refs
  import SkipRules

  const TOP := Context(InSteps, [], "", map[])

  /** The step phase so far. `failed` and `skipped` are the dependency tracker's sets. */
  datatype Progress = Progress(
    steps: seq<StepResult>, status: Status, failure: Option<ErrorDetail>,
    failed: set<string>, skipped: set<string>, results: Results, log: Log)

  /** Before the first step. */
  function Start(results: Results, log: Log): Progress {
    Progress([], Pass, None, {}, {}, results, log)
  }

  datatype Gate = Open | Closed(reason: SkipReason) | Broken(error: SkipRules.RuleError)

  /** What evaluated skip rules mean for the step or scenario they guard. */
  function GateOf(decision: Result<SkipRules.Decision, SkipRules.RuleError>): Gate {
    match decision
    case Ok(Quiet) => Open
    case Ok(Skips(reason)) => Closed(RuleTriggered(reason))
    case Err(e) => Broken(e)
  }

  function RulesGate(w: World, step: Step, results: Results, log: Log): (Gate, Log) {
    if step.skipRules == [] then (Open, log)
    else
      var rules := w.oracle.rules(|log|, TOP.At(step.name), results);
      (GateOf(SkipRules.DecisionFrom(rules, w.host, 0)), log + [At(CheckRules, TOP.At(step.name))])
  }

  /** `when` never fails a step: one that cannot be evaluated skips it. */
  function WhenGate(w: World, c: Context, step: Step, results: Results, log: Log): (r: (Gate, Log))
    ensures !r.0.Broken?
  {
    if step.when.None? then (Open, log)
    else
      var gate := match w.oracle.when(|log|, c.At(step.name), results)
                  case Holds => Open
                  case False => Closed(WhenFalse)
                  case Unevaluable(e) => Closed(WhenBroken(e));
      (gate, log + [At(CheckWhen, c.At(step.name))])
  }

  /** The step's own say: its skip rules, then its `when`. */
  function OwnGate(w: World, step: Step, results: Results, log: Log): (Gate, Log) {
    var (rules, log1) := RulesGate(w, step, results, log);
    if rules != Open then (rules, log1) else WhenGate(w, TOP, step, results, log1)
  }

  function SkipResult(c: Context, step: Step, reason: SkipReason): StepResult {
    StepResult(step.name, step.provider, c.phase, Skip, 0, None, reason)
  }

  function BrokenRules(step: Step, error: SkipRules.RuleError): StepResult {
    StepResult(step.name, step.provider, InSteps, Fail, 0, Some(ErrorDetail("skip", "", SkipRuleBroken(error))), NotSkipped)
  }

  /** A dependency of the step failed or was skipped. */
  predicate HasBlocker(p: Progress, step: Step) {
    !(Refs.Dependencies(step) !! p.failed + p.skipped)
  }

  /** The rules the step is asked about at its turn. */
  function RulesOf(w: World, p: Progress, step: Step): seq<SkipRules.Rule> {
    if step.skipRules == [] then [] else w.oracle.rules(|p.log|, TOP.At(step.name), p.results)
  }

  predicate RulesQuiet(w: World, p: Progress, step: Step) {
    forall i | 0 <= i < |RulesOf(w, p, step)| :: SkipRules.DecisionOf(RulesOf(w, p, step)[i], w.host) == Ok(SkipRules.Quiet)
  }

  /** The step has no `when`, or it holds; it is asked after the rules. */
  predicate WhenHolds(w: World, p: Progress, step: Step) {
    var tick := |p.log| + if step.skipRules == [] then 0 else 1;
    step.when.None? || w.oracle.when(tick, TOP.At(step.name), p.results) == Holds
  }

  /** The step is the one that runs next: nothing blocks it, nothing failed, its rules are quiet and its
      `when` holds. */
  predicate Runs(w: World, p: Progress, step: Step) {
    !HasBlocker(p, step) && p.status != Fail && RulesQuiet(w, p, step) && WhenHolds(w, p, step)
  }

  /** The step is skipped at its turn by its own rule, the first that is not quiet, or by its `when`. */
  ghost predicate SkipsItself(w: World, p: Progress, step: Step) {
    && !HasBlocker(p, step) && p.status != Fail
    && ((exists k, d :: SkipRules.DecidedBy(RulesOf(w, p, step), w.host, k, Ok(d)))
        || (RulesQuiet(w, p, step) && !WhenHolds(w, p, step)))
  }

  lemma GatesSay(w: World, p: Progress, step: Step)
    ensures OwnGate(w, step, p.results, p.log).0 == Open <==> RulesQuiet(w, p, step) && WhenHolds(w, p, step)
    ensures OwnGate(w, step, p.results, p.log).0.Closed? <==>
              || (exists k, d :: SkipRules.DecidedBy(RulesOf(w, p, step), w.host, k, Ok(d)))
              || (RulesQuiet(w, p, step) && !WhenHolds(w, p, step))
  {
    RulesSay(w, p, step);
    hide RulesGate;
    hide RulesQuiet;
    hide SkipRules.DecidedBy;
  }

  lemma RulesSay(w: World, p: Progress, step: Step)
    ensures var (gate, log) := RulesGate(w, step, p.results, p.log);
            && |log| == |p.log| + (if step.skipRules == [] then 0 else 1)
            && (gate == Open <==> RulesQuiet(w, p, step))
            && (gate.Closed? <==> exists k, d :: SkipRules.DecidedBy(RulesOf(w, p, step), w.host, k, Ok(d)))
  {
    var rules := RulesOf(w, p, step);
    SkipRules.FirstLoudRuleDecides(rules, w.host);
    if k, d :| SkipRules.DecidedBy(rules, w.host, k, Ok(d)) {
      SkipRules.DecidesFrom(rules, w.host, 0, k, Ok(d));
    }
    hide SkipRules.DecisionFrom;
    hide SkipRules.DecisionOf;
  }

  function Recorded(p: Progress, r: StepResult, results: Results, log: Log): Progress {
    Progress(p.steps + [r],
             if r.status == Fail then Fail else p.status,
             if r.status == Fail && p.failure.None? then r.failure else p.failure,
             if r.status == Fail then p.failed + {r.name} else p.failed,
             if r.status == Skip then p.skipped + {r.name} else p.skipped,
             results, log)
  }

  function RunOneStep(w: World, p: Progress, step: Step): (q: Progress)
    requires step.name in p.results
    ensures q.results.Keys == p.results.Keys
    ensures p.steps < q.steps && |q.steps| == |p.steps| + 1 && p.log <= q.log
    ensures q.status == Pass ==> p.status == Pass
  {
    if HasBlocker(p, step) then Recorded(p, SkipResult(TOP, step, Blocked), p.results, p.log)
    else if p.status == Fail then Recorded(p, SkipResult(TOP, step, EarlierStepFailed), p.results, p.log)
    else
      var (gate, log) := OwnGate(w, step, p.results, p.log);
      match gate
      case Closed(reason) => Recorded(p, SkipResult(TOP, step, reason), p.results, log)
      case Broken(e) => Recorded(p, BrokenRules(step, e), p.results, log)
      case Open => var d := ExecuteStep(w, TOP, step, p.results, log); Recorded(p, d.result, d.results, d.log)
  }

  // ----- what decides, by the rules and the oracle's answers -----

  /** With nothing in its way and all its rules quiet, the step is left to its `when`, asked next: False
      skips it, one that cannot be evaluated skips it too, and it is attempted exactly when it has none or
      its `when` holds. */
  lemma WhenDecides(w: World, p: Progress, step: Step)
    requires step.name in p.results && Refs.Dependencies(step) !! p.failed + p.skipped && p.status != Fail
    requires step.skipRules == [] ||
             forall rule | rule in w.oracle.rules(|p.log|, Site(step.name, InSteps, [], "", map[]), p.results) ::
               SkipRules.DecisionOf(rule, w.host) == Ok(SkipRules.Quiet)
    ensures var site := Site(step.name, InSteps, [], "", map[]);
            var k := |p.log| + if step.skipRules == [] then 0 else 1;
            var answer := w.oracle.when(k, site, p.results);
            var q := RunOneStep(w, p, step);
            var r := q.steps[|p.steps|];
            && (r.status == Skip && r.skipReason == WhenFalse <==> step.when.Some? && answer == False)
            && (forall e :: r.status == Skip && r.skipReason == WhenBroken(e) <==> step.when.Some? && answer == Unevaluable(e))
            && ((exists i | |p.log| <= i < |q.log| :: q.log[i] == At(Attempt(1), site)) <==> step.when.None? || answer == Holds)
            && (step.when.Some? ==> k < |q.log| && q.log[k] == At(CheckWhen, site))
  {
    var asked := if step.skipRules == [] then p.log else p.log + [At(CheckRules, TOP.At(step.name))];
    QuietRulesOpen(w, step, p.results, p.log);
    if step.when.None? || w.oracle.when(|asked|, TOP.At(step.name), p.results) == Holds {
      OpenStepRuns(w, p, step, asked);
    } else {
      ClosedStepSkips(w, p, step, asked);
    }
    hide RunOneStep;
    hide ExecuteStep;
  }

  /** The step's rules leave it alone; `asked` is the log they leave. */
  predicate RulesLeaveAlone(w: World, p: Progress, step: Step, asked: Log) {
    && Refs.Dependencies(step) !! p.failed + p.skipped && p.status != Fail
    && RulesGate(w, step, p.results, p.log) == (Open, asked)
    && p.log <= asked
  }

  lemma OpenStepRuns(w: World, p: Progress, step: Step, asked: Log)
    requires step.name in p.results && RulesLeaveAlone(w, p, step, asked)
    requires step.when.None? || w.oracle.when(|asked|, TOP.At(step.name), p.results) == Holds
    ensures var q := RunOneStep(w, p, step);
            var log := if step.when.None? then asked else asked + [At(CheckWhen, TOP.At(step.name))];
            && q.steps[|p.steps|].status != Skip
            && log + [At(Attempt(1), TOP.At(step.name))] <= q.log
            && q.log[|log|] == At(Attempt(1), TOP.At(step.name))
            && (step.when.Some? ==> q.log[|asked|] == At(CheckWhen, TOP.At(step.name)))
  {
    hide RulesGate;
    hide ExecuteStep;
    StartsWithAttempt(w, TOP, step, p.results,
                      if step.when.None? then asked else asked + [At(CheckWhen, TOP.At(step.name))]);
  }

  lemma ClosedStepSkips(w: World, p: Progress, step: Step, asked: Log)
    requires step.name in p.results && RulesLeaveAlone(w, p, step, asked)
    requires step.when.Some? && w.oracle.when(|asked|, TOP.At(step.name), p.results) != Holds
    ensures var q := RunOneStep(w, p, step);
            var answer := w.oracle.when(|asked|, TOP.At(step.name), p.results);
            && q.steps[|p.steps|]
               == SkipResult(TOP, step, if answer == False then WhenFalse else WhenBroken(answer.error))
            && q.log == asked + [At(CheckWhen, TOP.At(step.name))]
  {
    hide RulesGate;
    hide ExecuteStep;
  }

  lemma QuietRulesOpen(w: World, step: Step, results: Results, log: Log)
    requires step.skipRules == [] ||
             forall rule | rule in w.oracle.rules(|log|, TOP.At(step.name), results) ::
               SkipRules.DecisionOf(rule, w.host) == Ok(SkipRules.Quiet)
    ensures RulesGate(w, step, results, log)
         == (Open, if step.skipRules == [] then log else log + [At(CheckRules, TOP.At(step.name))])
  {
    if step.skipRules != [] {
      var rules := w.oracle.rules(|log|, TOP.At(step.name), results);
      SkipRules.FirstLoudRuleDecides(rules, w.host);
      assert forall i | 0 <= i < |rules| :: rules[i] in rules;
    }
  }

  /** Otherwise the first rule that is not quiet decides: the step is skipped for the rule's reason, or fails
      with what is wrong with the rule, and nothing else happens. */
  lemma LoudRuleDecides(w: World, p: Progress, step: Step, k: nat, decision: Result<SkipRules.Decision, SkipRules.RuleError>)
    requires step.name in p.results && Refs.Dependencies(step) !! p.failed + p.skipped && p.status != Fail
    requires step.skipRules != []
    requires SkipRules.DecidedBy(
               w.oracle.rules(|p.log|, Site(step.name, InSteps, [], "", map[]), p.results), w.host, k, decision)
    ensures var q := RunOneStep(w, p, step);
            var r := q.steps[|p.steps|];
            && q.log == p.log + [At(CheckRules, Site(step.name, InSteps, [], "", map[]))] && q.results == p.results
            && match decision
               case Ok(d) => r.status == Skip && r.skipReason == RuleTriggered(d.reason) && q.status == p.status
               case Err(e) => r.status == Fail && r.failure == Some(ErrorDetail("skip", "", SkipRuleBroken(e))) && q.status == Fail
  {
    var rules := w.oracle.rules(|p.log|, TOP.At(step.name), p.results);
    SkipRules.DecidesFrom(rules, w.host, 0, k, decision);
    hide SkipRules.DecisionFrom;
  }

  /** Before that, a step with a failed or skipped dependency, and any step after a failure, is skipped
      without being asked about. */
  lemma NotAskedAbout(w: World, p: Progress, step: Step)
    requires step.name in p.results
    requires !(Refs.Dependencies(step) !! p.failed + p.skipped) || p.status == Fail
    ensures var q := RunOneStep(w, p, step);
            var r := q.steps[|p.steps|];
            && q.log == p.log && q.results == p.results && q.status == p.status
            && r.status == Skip
            && r.skipReason == if Refs.Dependencies(step) !! p.failed + p.skipped then EarlierStepFailed else Blocked
  {
  }

  /** The phase after its first n steps. */
  function After(w: World, steps: seq<Step>, start: Progress, n: nat): (p: Progress)
    requires n <= |steps| && NameSet(steps) <= start.results.Keys
    ensures p.results.Keys == start.results.Keys && |p.steps| == |start.steps| + n
  {
    if n == 0 then start else RunOneStep(w, After(w, steps, start, n - 1), steps[n - 1])
  }

  // ----- the result list -----

  ghost predicate OneResultPerStep(steps: seq<Step>, p: Progress) {
    && |p.steps| <= |steps|
    && forall i | 0 <= i < |p.steps| ::
         p.steps[i].name == steps[i].name && p.steps[i].provider == steps[i].provider && p.steps[i].phase == InSteps
  }

  /** Passes and skips, then at most one failure, then only skips. */
  ghost predicate HaltsAtFailure(rs: seq<StepResult>) {
    && (forall i | 0 <= i < |rs| :: rs[i].status == Pass || rs[i].status == Fail || rs[i].status == Skip)
    && forall i, j | 0 <= i < j < |rs| && rs[i].status == Fail :: rs[j].status == Skip
  }

  function NamesWith(rs: seq<StepResult>, status: Status): set<string> {
    set i | 0 <= i < |rs| && rs[i].status == status :: rs[i].name
  }

  /** Result list, scenario status, failure detail and tracker tell the same story. */
  ghost predicate Consistent(steps: seq<Step>, p: Progress) {
    && OneResultPerStep(steps, p) && HaltsAtFailure(p.steps)
    && p.failed == NamesWith(p.steps, Fail) && p.skipped == NamesWith(p.steps, Skip)
    && (p.status == Pass || p.status == Fail)
    && (p.status == Pass ==> p.failure.None? && forall i | 0 <= i < |p.steps| :: p.steps[i].status != Fail)
    && (p.status == Fail ==>
          p.failure.Some? && exists i :: 0 <= i < |p.steps| && p.steps[i].status == Fail && p.steps[i].failure == p.failure)
  }

  lemma RecordKeepsConsistent(steps: seq<Step>, p: Progress, r: StepResult, results: Results, log: Log)
    requires Consistent(steps, p) && |p.steps| < |steps|
    requires var step := steps[|p.steps|];
             r.name == step.name && r.provider == step.provider && r.phase == InSteps
    requires r.status == Skip || (p.status == Pass && (r.status == Pass || (r.status == Fail && r.failure.Some?)))
    ensures Consistent(steps, Recorded(p, r, results, log))
  {
    hide Refs.Dependencies;
    var q := Recorded(p, r, results, log);
    forall status ensures NamesWith(q.steps, status)
                       == NamesWith(p.steps, status) + if r.status == status then {r.name} else {}
    {
      NamesWithSnoc(p.steps, r, status);
    }
    if p.status == Fail {
      var i :| 0 <= i < |p.steps| && p.steps[i].status == Fail && p.steps[i].failure == p.failure;
      assert q.steps[i] == p.steps[i];
    } else if r.status == Fail {
      assert q.steps[|p.steps|] == r;
    }
  }

  lemma NamesWithSnoc(rs: seq<StepResult>, r: StepResult, status: Status)
    ensures NamesWith(rs + [r], status) == NamesWith(rs, status) + if r.status == status then {r.name} else {}
  {
    var all := rs + [r];
    assert all[|rs|] == r;
    forall name | name in NamesWith(rs, status) ensures name in NamesWith(all, status) {
      var i :| 0 <= i < |rs| && rs[i].status == status && rs[i].name == name;
      assert all[i] == rs[i];
    }
  }

  lemma StepRecords(w: World, p: Progress, step: Step)
    requires step.name in p.results && (p.status == Pass || p.status == Fail)
    ensures var q := RunOneStep(w, p, step);
            var r := q.steps[|p.steps|];
            && q == Recorded(p, r, q.results, q.log)
            && r.name == step.name && r.provider == step.provider && r.phase == InSteps
            && (r.status == Skip || (p.status == Pass && (r.status == Pass || (r.status == Fail && r.failure.Some?))))
  {
    hide OwnGate;
    hide HasBlocker;
    hide ExecuteStep;
    hide Logs;
  }

  lemma StepKeepsConsistent(w: World, steps: seq<Step>, p: Progress)
    requires Consistent(steps, p) && |p.steps| < |steps| && steps[|p.steps|].name in p.results
    ensures Consistent(steps, RunOneStep(w, p, steps[|p.steps|]))
  {
    StepRecords(w, p, steps[|p.steps|]);
    var q := RunOneStep(w, p, steps[|p.steps|]);
    hide *;
    RecordKeepsConsistent(steps, p, q.steps[|p.steps|], q.results, q.log);
  }

  /** Every run of the step phase, of any scenario, is consistent after each of its steps. */
  lemma {:induction false} StepPhaseConsistent(w: World, steps: seq<Step>, results: Results, log: Log, n: nat)
    requires n <= |steps| && NameSet(steps) <= results.Keys
    ensures var p := After(w, steps, Start(results, log), n);
            Consistent(steps, p) && |p.steps| == n
  {
    hide RunOneStep;
    if n > 0 {
      StepPhaseConsistent(w, steps, results, log, n - 1);
      StepKeepsConsistent(w, steps, After(w, steps, Start(results, log), n - 1));
    }
  }

  /** Later steps do not rewrite earlier results. */
  lemma {:induction false} ResultsStay(w: World, steps: seq<Step>, start: Progress, m: nat, n: nat)
    requires m <= n <= |steps| && NameSet(steps) <= start.results.Keys
    ensures After(w, steps, start, m).steps <= After(w, steps, start, n).steps
    ensures After(w, steps, start, n).status == Pass ==> After(w, steps, start, m).status == Pass
  {
    hide RunOneStep;
    if m < n {
      ResultsStay(w, steps, start, m, n - 1);
    }
  }

  /** Only passing steps leave a result behind. */
  lemma {:induction false} OnlyPassesWriteResults(w: World, steps: seq<Step>, results: Results, log: Log, n: nat, name: string)
    requires n <= |steps| && NameSet(steps) <= results.Keys && name in results
    requires name !in NamesWith(After(w, steps, Start(results, log), n).steps, Pass)
    ensures After(w, steps, Start(results, log), n).results[name] == results[name]
  {
    hide RunOneStep;
    if n > 0 {
      var p := After(w, steps, Start(results, log), n - 1);
      var q := RunOneStep(w, p, steps[n - 1]);
      NamesWithSnoc(p.steps, q.steps[|p.steps|], Pass);
      assert q.steps == p.steps + [q.steps[|p.steps|]];
      StepWritesIfPassed(w, p, steps[n - 1], name);
      OnlyPassesWriteResults(w, steps, results, log, n - 1, name);
    }
  }

  lemma StepWritesIfPassed(w: World, p: Progress, step: Step, name: string)
    requires step.name in p.results && name in p.results
    ensures var q := RunOneStep(w, p, step);
            var r := q.steps[|p.steps|];
            q.results[name] == p.results[name] || (r.name == name && r.status == Pass)
  {
  }

  /** Once a step failed nothing more happens in this phase: no rule, no `when`, no provider. */
  lemma {:induction false} FailureSilencesTheRest(w: World, steps: seq<Step>, start: Progress, m: nat, n: nat)
    requires m <= n <= |steps| && NameSet(steps) <= start.results.Keys
    requires After(w, steps, start, m).status == Fail
    ensures var p, q := After(w, steps, start, m), After(w, steps, start, n);
            q.log == p.log && q.results == p.results && q.status == Fail && q.failure == p.failure
  {
    hide RunOneStep;
    if m < n {
      FailureSilencesTheRest(w, steps, start, m, n - 1);
      HaltedStep(w, After(w, steps, start, n - 1), steps[n - 1]);
    }
  }

  lemma HaltedStep(w: World, p: Progress, step: Step)
    requires step.name in p.results && p.status == Fail
    ensures var q := RunOneStep(w, p, step);
            q.log == p.log && q.results == p.results && q.status == Fail && q.failure == p.failure
  {
  }

  // ----- dependencies -----

  /** The list a loaded scenario has: distinct names, references only backwards. */
  predicate Loaded(steps: seq<Step>) {
    DistinctNames(steps) && Refs.InOrder(steps, {})
  }

  lemma StatusSaysHow(w: World, p: Progress, step: Step)
    requires step.name in p.results
    ensures var status := RunOneStep(w, p, step).steps[|p.steps|].status;
            && (status == Pass ==> Runs(w, p, step))
            && (status == Skip <==> HasBlocker(p, step) || p.status == Fail || SkipsItself(w, p, step))
  {
    GatesSay(w, p, step);
    hide OwnGate;
    hide ExecuteStep;
    hide HasBlocker;
    hide RulesQuiet;
    hide WhenHolds;
    hide SkipRules.DecidedBy;
  }

  /** Step i of the finished phase was decided at its own turn. */
  lemma DecidedAtItsTurn(w: World, steps: seq<Step>, results: Results, log: Log, n: nat, i: nat)
    requires i < n <= |steps| && NameSet(steps) <= results.Keys
    ensures var p, q := After(w, steps, Start(results, log), i), After(w, steps, Start(results, log), n);
            && |p.steps| == i && |q.steps| == n && Consistent(steps, p)
            && q.steps[i] == RunOneStep(w, p, steps[i]).steps[i]
  {
    hide RunOneStep;
    var start := Start(results, log);
    StepPhaseConsistent(w, steps, results, log, i);
    StepPhaseConsistent(w, steps, results, log, n);
    ResultsStay(w, steps, start, i + 1, n);
    assert After(w, steps, start, i + 1) == RunOneStep(w, After(w, steps, start, i), steps[i]);
  }

  lemma PathTail(steps: seq<Step>, path: seq<nat>)
    requires Refs.DependencyPath(steps, path) && |path| > 1
    ensures Refs.Edge(steps, path[0], path[1]) && Refs.DependencyPath(steps, path[1..])
  {
  }

  lemma PathCons(steps: seq<Step>, i: nat, rest: seq<nat>)
    requires Refs.DependencyPath(steps, rest) && Refs.Edge(steps, i, rest[0])
    ensures Refs.DependencyPath(steps, [i] + rest)
  {
  }

  /** When step i got to run, the step j it depends on had passed. */
  lemma DirectDependencyPassed(w: World, steps: seq<Step>, results: Results, log: Log, n: nat, i: nat, j: nat)
    requires i < n <= |steps| && NameSet(steps) <= results.Keys && Loaded(steps)
    requires Refs.Edge(steps, i, j)
    requires !HasBlocker(After(w, steps, Start(results, log), i), steps[i])
    ensures j < i && After(w, steps, Start(results, log), n).steps[j].status == Pass
  {
    hide RunOneStep;
    var p := After(w, steps, Start(results, log), i);
    Refs.DistinctNamesAreSafe(steps, {});
    Refs.EdgesPointBackwards(steps, {}, i, j);
    StepPhaseConsistent(w, steps, results, log, i);
    ResultsStay(w, steps, Start(results, log), i, n);
    assert p.steps[j].name in Refs.Dependencies(steps[i]);
    assert p.steps[j].name !in NamesWith(p.steps, Fail) && p.steps[j].name !in NamesWith(p.steps, Skip);
  }

  /** A step that got to run had every step it transitively depends on pass. */
  lemma {:induction false} TransitiveDependenciesPassed(
    w: World, steps: seq<Step>, results: Results, log: Log, n: nat, path: seq<nat>)
    requires n <= |steps| && NameSet(steps) <= results.Keys && Loaded(steps)
    requires Refs.DependencyPath(steps, path) && path[0] < n
    requires Runs(w, After(w, steps, Start(results, log), path[0]), steps[path[0]])
    ensures forall m | 0 < m < |path| ::
              path[m] < path[0] && After(w, steps, Start(results, log), n).steps[path[m]].status == Pass
    decreases |path|
  {
    hide RunOneStep;
    if |path| > 1 {
      var i, j, rest := path[0], path[1], path[1..];
      PathTail(steps, path);
      DirectDependencyPassed(w, steps, results, log, n, i, j);
      DecidedAtItsTurn(w, steps, results, log, n, j);
      StatusSaysHow(w, After(w, steps, Start(results, log), j), steps[j]);
      TransitiveDependenciesPassed(w, steps, results, log, n, rest);
      forall m | 0 < m < |path|
        ensures path[m] < i && After(w, steps, Start(results, log), n).steps[path[m]].status == Pass
      {
        if m > 1 {
          assert path[m] == rest[m - 1];
        }
      }
    }
  }

  // ----- the log -----

  /** The top-level step on whose behalf e happened, however deep in keyword calls. */
  function Owner(e: Event): string
    requires e.At?
  {
    if e.site.frames == [] then e.site.step else e.site.frames[0].caller
  }

  /** Deciding whether a top-level step runs, as opposed to running it. */
  predicate Gating(e: Event) {
    e.At? && e.site.frames == [] && (e.action == CheckRules || e.action == CheckWhen)
  }

  lemma EventsOfAStep(w: World, p: Progress, step: Step, k: nat)
    requires step.name in p.results
    requires |p.log| <= k < |RunOneStep(w, p, step).log|
    ensures var e := RunOneStep(w, p, step).log[k];
            && e.At? && e.site.phase == InSteps && Owner(e) == step.name
            && (!Gating(e) ==> Runs(w, p, step))
  {
    var log := OwnGate(w, step, p.results, p.log).1;
    GatesSay(w, p, step);
    GateEvents(w, step, p.results, p.log);
    if Runs(w, p, step) {
      var d := ExecuteStep(w, TOP, step, p.results, log);
      assert k >= |log| ==> Within(w, TOP, step.name, d.log[k]);
      assert k < |log| ==> d.log[k] == log[k];
    }
    hide OwnGate;
  }

  lemma GateEvents(w: World, step: Step, results: Results, log: Log)
    ensures var after := OwnGate(w, step, results, log).1;
            && log <= after
            && forall k | |log| <= k < |after| ::
                 after[k].At? && after[k].site == TOP.At(step.name) && Gating(after[k])
  {
  }

  lemma {:induction false} EventsHaveOwners(w: World, steps: seq<Step>, results: Results, log: Log, n: nat, k: nat)
    requires n <= |steps| && NameSet(steps) <= results.Keys
    requires |log| <= k < |After(w, steps, Start(results, log), n).log|
    ensures var e := After(w, steps, Start(results, log), n).log[k];
            && e.At? && e.site.phase == InSteps
            && exists i :: 0 <= i < n && Owner(e) == steps[i].name
                           && (!Gating(e) ==> Runs(w, After(w, steps, Start(results, log), i), steps[i]))
  {
    hide RunOneStep;
    var p := After(w, steps, Start(results, log), n - 1);
    if k < |p.log| {
      EventsHaveOwners(w, steps, results, log, n - 1, k);
    } else {
      EventsOfAStep(w, p, steps[n - 1], k);
    }
  }

  /** No provider is attempted, and no expression of a step evaluated beyond its rules and `when`,
      on behalf of a step unless every step it transitively depends on passed. */
  lemma ReachedOnlyIfDependenciesPassed(
    w: World, steps: seq<Step>, results: Results, log: Log, k: nat, path: seq<nat>)
    requires NameSet(steps) <= results.Keys && Loaded(steps) && Refs.DependencyPath(steps, path)
    requires |log| <= k < |After(w, steps, Start(results, log), |steps|).log|
    requires var e := After(w, steps, Start(results, log), |steps|).log[k];
             !Gating(e) && (e.At? ==> Owner(e) == steps[path[0]].name)
    ensures forall m | 0 < m < |path| ::
              path[m] < |steps| && After(w, steps, Start(results, log), |steps|).steps[path[m]].status == Pass
  {
    hide RunOneStep;
    EventsHaveOwners(w, steps, results, log, |steps|, k);
    var e := After(w, steps, Start(results, log), |steps|).log[k];
    var i :| 0 <= i < |steps| && Owner(e) == steps[i].name
             && (!Gating(e) ==> Runs(w, After(w, steps, Start(results, log), i), steps[i]));
    assert i == path[0];
    TransitiveDependenciesPassed(w, steps, results, log, |steps|, path);
  }

  // ----- skips -----

  /** path leads along dependencies from step i to one that skips itself. */
  ghost predicate LeadsToSkip(w: World, steps: seq<Step>, start: Progress, i: nat, path: seq<nat>)
    requires NameSet(steps) <= start.results.Keys
  {
    && Refs.DependencyPath(steps, path) && path[0] == i
    && var last := path[|path| - 1];
       last < |steps| && SkipsItself(w, After(w, steps, start, last), steps[last])
  }

  lemma SkippedBlocker(w: World, steps: seq<Step>, results: Results, log: Log, i: nat) returns (j: nat)
    requires NameSet(steps) <= results.Keys && i < |steps|
    requires After(w, steps, Start(results, log), |steps|).status == Pass
    requires HasBlocker(After(w, steps, Start(results, log), i), steps[i])
    ensures j < i && Refs.Edge(steps, i, j)
    ensures After(w, steps, Start(results, log), |steps|).steps[j].status == Skip
  {
    hide RunOneStep;
    var p := After(w, steps, Start(results, log), i);
    StepPhaseConsistent(w, steps, results, log, i);
    ResultsStay(w, steps, Start(results, log), i, |steps|);
    var d :| d in Refs.Dependencies(steps[i]) && d in p.failed + p.skipped;
    assert p.failed == {};
    j :| 0 <= j < |p.steps| && p.steps[j].status == Skip && p.steps[j].name == d;
  }

  lemma {:induction false} SkippedHasCause(
    w: World, steps: seq<Step>, results: Results, log: Log, i: nat) returns (path: seq<nat>)
    requires NameSet(steps) <= results.Keys && Loaded(steps) && i < |steps|
    requires After(w, steps, Start(results, log), |steps|).status == Pass
    requires After(w, steps, Start(results, log), |steps|).steps[i].status == Skip
    ensures LeadsToSkip(w, steps, Start(results, log), i, path)
    decreases i
  {
    hide RunOneStep;
    hide OwnGate;
    hide Consistent;
    hide HasBlocker;
    var start := Start(results, log);
    var p := After(w, steps, start, i);
    DecidedAtItsTurn(w, steps, results, log, |steps|, i);
    StatusSaysHow(w, p, steps[i]);
    ResultsStay(w, steps, start, i, |steps|);
    if HasBlocker(p, steps[i]) {
      var j := SkippedBlocker(w, steps, results, log, i);
      var rest := SkippedHasCause(w, steps, results, log, j);
      path := [i] + rest;
      PathCons(steps, i, rest);
    } else {
      path := [i];
    }
  }

  lemma {:induction false} CauseMeansSkipped(
    w: World, steps: seq<Step>, results: Results, log: Log, i: nat, path: seq<nat>)
    requires NameSet(steps) <= results.Keys && Loaded(steps) && i < |steps|
    requires LeadsToSkip(w, steps, Start(results, log), i, path)
    ensures After(w, steps, Start(results, log), |steps|).steps[i].status == Skip
    decreases |path|
  {
    hide RunOneStep;
    var start := Start(results, log);
    var p := After(w, steps, start, i);
    DecidedAtItsTurn(w, steps, results, log, |steps|, i);
    StatusSaysHow(w, p, steps[i]);
    if |path| > 1 {
      var j, rest := path[1], path[1..];
      PathTail(steps, path);
      CauseMeansSkipped(w, steps, results, log, j, rest);
      Refs.DistinctNamesAreSafe(steps, {});
      Refs.EdgesPointBackwards(steps, {}, i, j);
      ResultsStay(w, steps, start, i, |steps|);
      assert p.steps[j].name in NamesWith(p.steps, Skip);
    }
  }

  /** In a run without failures a step is skipped exactly when it, or a step it transitively depends
      on, was skipped by its own rule or `when`. */
  lemma SkippedExactly(w: World, steps: seq<Step>, results: Results, log: Log, i: nat)
    requires NameSet(steps) <= results.Keys && Loaded(steps) && i < |steps|
    requires After(w, steps, Start(results, log), |steps|).status == Pass
    ensures |After(w, steps, Start(results, log), |steps|).steps| == |steps|
    ensures After(w, steps, Start(results, log), |steps|).steps[i].status == Skip
       <==> exists path :: LeadsToSkip(w, steps, Start(results, log), i, path)
  {
    hide RunOneStep;
    StepPhaseConsistent(w, steps, results, log, |steps|);
    if After(w, steps, Start(results, log), |steps|).steps[i].status == Skip {
      var path := SkippedHasCause(w, steps, results, log, i);
    }
    if path :| LeadsToSkip(w, steps, Start(results, log), i, path) {
      CauseMeansSkipped(w, steps, results, log, i, path);
    }
  }
}
