/** The runner's own form (internal/runtime/runner.go, context.go, tracker.go; internal/lang/eval.go):
    objects whose fields each call updates, proved to do what the functions of Engine say. */
module StepRunner {
  import opened Wrappers
  import opened Model
  import opened Report
  import opened Engine
  import Refs
  import Seeds

  class ScenarioState {
    var results: Results

    /** Every known step starts with an empty result. */
    constructor (names: set<string>)
      ensures results == map n | n in names :: EmptyObject
    {
      results := map n | n in names :: EmptyObject;
    }

    method GetResultMap() returns (m: Results)
      ensures m == results
    {
      m := results;
    }

    method SetStepResult(step: string, value: Value)
      modifies this
      ensures results == old(results)[step := value]
    {
      results := results[step := value];
    }
  }

  class Evaluator {
    var seedScope: string

    constructor ()
      ensures seedScope == ""
    {
      seedScope := "";
    }

    /** Pushes part, and hands back what the restore function will put back. */
    method PushSeedScope(part: string) returns (previous: string)
      modifies this
      ensures previous == old(seedScope)
      ensures seedScope == Seeds.Push(old(seedScope), part)
    {
      previous := seedScope;
      if seedScope == "" {
        seedScope := part;
      } else {
        seedScope := seedScope + [Seeds.NUL] + part;
      }
    }

    method Restore(previous: string)
      modifies this
      ensures seedScope == previous
    {
      seedScope := previous;
    }
  }

  class Runner {
    const w: World
    var log: Log

    constructor (w: World)
      ensures this.w == w && log == []
    {
      this.w := w;
      log := [];
    }

    method Record(action: Action, site: Site)
      modifies this
      ensures log == old(log) + [At(action, site)]
    {
      log := log + [At(action, site)];
    }

    method RecordHook(event: Event)
      modifies this
      ensures log == old(log) + [event]
    {
      log := log + [event];
    }

    method ExecuteStepInPhase(evaluator: Evaluator, state: ScenarioState, phase: Phase, frames: seq<Frame>,
                              input: Results, step: Step)
      returns (result: StepResult)
      requires Ready(w, Context(phase, frames, evaluator.seedScope, input), step, state.results)
      modifies this, evaluator, state
      ensures evaluator.seedScope == old(evaluator.seedScope)
      ensures Done(result, state.results, log)
           == ExecuteStep(w, Context(phase, frames, old(evaluator.seedScope), input), step, old(state.results), old(log))
      decreases |Callable(w, state.results.Keys)|, 4, 0
    {
      ghost var c := Context(phase, frames, evaluator.seedScope, input);
      var attempt := 1;
      while attempt <= MaxAttempts(step)
        invariant 1 <= attempt <= MaxAttempts(step)
        invariant evaluator.seedScope == c.scope && state.results == old(state.results)
        invariant AttemptsFrom(w, c, step, state.results, log, attempt)
               == ExecuteStep(w, c, step, old(state.results), old(log))
      {
        result := ExecuteStepAttempt(evaluator, state, phase, frames, input, step, attempt);
        if result.status == Pass || attempt == MaxAttempts(step) {
          return;
        }
        if SleepsBetween(step) {
          var slept := w.oracle.sleeps(|log|);
          Record(Sleep, Context(phase, frames, evaluator.seedScope, input).At(step.name));
          if !slept {
            result := result.(status := Fail, failure := Some(ErrorDetail("runtime", "", RetryInterrupted)));
            return;
          }
        }
        attempt := attempt + 1;
      }
      assert false;
    }

    method ExecuteStepAttempt(evaluator: Evaluator, state: ScenarioState, phase: Phase, frames: seq<Frame>,
                              input: Results, step: Step, attempt: nat)
      returns (result: StepResult)
      requires Ready(w, Context(phase, frames, evaluator.seedScope, input), step, state.results)
      modifies this, evaluator, state
      ensures evaluator.seedScope == old(evaluator.seedScope)
      ensures Done(result, state.results, log)
           == AttemptStep(w, Context(phase, frames, old(evaluator.seedScope), input), step,
                          old(state.results), old(log), attempt)
      decreases |Callable(w, state.results.Keys)|, 2, 0
    {
      var c := Context(phase, frames, evaluator.seedScope, input);
      var tick := |log|;
      Record(Attempt(attempt), c.At(step.name));
      if step.provider == "keyword" {
        result := ExecuteKeywordStep(evaluator, state, c, step, attempt);
        return;
      }
      var scope := state.GetResultMap();
      match w.oracle.attempt(tick, c.At(step.name), scope) {
        case Failed(detail) =>
          result := FailResult(c, step, attempt, detail);
        case Passed(value) =>
          state.SetStepResult(step.name, value);
          result := PassResult(c, step, attempt);
      }
    }

    method ExecuteKeywordStep(evaluator: Evaluator, state: ScenarioState, c: Context, step: Step, attempt: nat)
      returns (result: StepResult)
      requires Ready(w, c, step, state.results) && c.scope == evaluator.seedScope
      modifies this, evaluator, state
      ensures evaluator.seedScope == old(evaluator.seedScope)
      ensures Done(result, state.results, log) == KeywordStep(w, c, step, old(state.results), old(log), attempt)
      decreases |Callable(w, state.results.Keys)|, 1, 1
    {
      if !step.hasKeywordCall {
        return FailResult(c, step, attempt, ErrorDetail("keyword", "", NoCallConfiguration));
      }
      var scope := state.GetResultMap();
      if step.vars != [] {
        var varsError := w.oracle.vars(|log|, c.At(step.name), scope);
        Record(EvalVars, c.At(step.name));
        if varsError.Some? {
          return FailResult(c, step, attempt, varsError.value);
        }
      }
      var call := w.oracle.call(|log|, c.At(step.name), scope);
      Record(EvalCall, c.At(step.name));
      if call.Err? {
        return FailResult(c, step, attempt, ErrorDetail("eval", "", Text(call.error)));
      }
      result := CallEvaluated(evaluator, state, c, step, attempt, call.value);
    }

    /** The rest of executeKeywordStep, once the called keyword and its inputs are known. */
    method CallEvaluated(evaluator: Evaluator, state: ScenarioState, c: Context, step: Step, attempt: nat,
                         target: CallTarget)
      returns (result: StepResult)
      requires Ready(w, c, step, state.results) && c.scope == evaluator.seedScope
      modifies this, evaluator, state
      ensures evaluator.seedScope == old(evaluator.seedScope)
      ensures Done(result, state.results, log) == CallStep(w, c, step, old(state.results), old(log), attempt, target)
      decreases |Callable(w, state.results.Keys)|, 1, 0
    {
      hide Under;
      hide Within;
      hide KeywordState;
      if target.keyword !in w.keywords {
        return FailResult(c, step, attempt, ErrorDetail("keyword", "", UnknownKeyword(target.keyword)));
      }
      var keyword := w.keywords[target.keyword];
      if !(keyword.inputs <= target.inputs.Keys) {
        return FailResult(c, step, attempt, ErrorDetail("keyword", "", MissingInput(keyword.name)));
      }
      var outerResults := state.GetResultMap();
      var keywordState, collision := NewKeywordState(outerResults, keyword.steps);
      if collision.Some? {
        return FailResult(c, step, attempt, ErrorDetail("keyword", "", NameCollision(collision.value)));
      }
      EnterKeyword(w, c, step.name, state.results.Keys, target);
      var inside := c.Call(step.name, target);
      var previous := evaluator.PushSeedScope(step.name);
      var failure := ExecuteKeywordSteps(evaluator, keywordState, inside, keyword, outerResults.Keys);
      if failure.Some? {
        result := FailResult(c, step, attempt, failure.value);
      } else {
        var outputs := EvaluateKeywordOutputs(keywordState, inside, step.name, keyword);
        if outputs.Err? {
          result := FailResult(c, step, attempt, ErrorDetail("keyword", "", Text(outputs.error)));
        } else {
          state.SetStepResult(step.name, outputs.value);
          result := PassResult(c, step, attempt);
        }
      }
      evaluator.Restore(previous);
    }

    method EvaluateKeywordOutputs(state: ScenarioState, c: Context, caller: string, keyword: Keyword)
      returns (r: Result<Value, string>)
      requires KnownKeywords(w, c.frames) && NoKeywordTwice(c.frames)
      modifies this
      ensures (r, log) == KeywordOutputs(w, c, caller, keyword, state.results, old(log))
    {
      if keyword.outputs == {} {
        return Ok(EmptyObject);
      }
      var inner := state.GetResultMap();
      r := w.oracle.outputs(|log|, c.At(caller), inner);
      Record(EvalOutputs, c.At(caller));
    }

    method NewKeywordState(outer: Results, steps: seq<Step>) returns (state: ScenarioState, collision: Option<string>)
      ensures fresh(state)
      ensures collision == FirstCollision(steps, outer.Keys)
      ensures collision.None? ==> state.results == KeywordState(outer, steps)
    {
      var names;
      names, collision := CollectNames(outer.Keys, steps);
      if collision.Some? {
        state := new ScenarioState({});
        return;
      }
      state := new ScenarioState(names);
      CopyResults(state, outer);
    }

    /** All names of the keyword's state, unless a keyword step takes an outer name. */
    method CollectNames(outer: set<string>, steps: seq<Step>) returns (names: set<string>, collision: Option<string>)
      ensures collision == FirstCollision(steps, outer)
      ensures collision.None? ==> names == outer + NameSet(steps)
    {
      names := outer;
      var i := 0;
      while i < |steps|
        invariant 0 <= i <= |steps|
        invariant FirstCollision(steps[i..], outer) == FirstCollision(steps, outer)
        invariant names + NameSet(steps[i..]) == outer + NameSet(steps)
      {
        assert steps[i..][1..] == steps[i + 1..];
        NameSetCons(steps[i..]);
        if steps[i].name in outer {
          collision := Some(steps[i].name);
          return;
        }
        names := names + {steps[i].name};
        i := i + 1;
      }
      collision := None;
    }

    method CopyResults(state: ScenarioState, outer: Results)
      requires outer.Keys <= state.results.Keys
      modifies state
      ensures state.results.Keys == old(state.results.Keys)
      ensures forall n | n in state.results :: state.results[n] == if n in outer then outer[n] else old(state.results)[n]
    {
      var todo := outer.Keys;
      while todo != {}
        invariant todo <= outer.Keys && state.results.Keys == old(state.results.Keys)
        invariant forall n | n in state.results ::
                    state.results[n] == if n in outer && n !in todo then outer[n] else old(state.results)[n]
        decreases todo
      {
        var name :| name in todo;
        state.SetStepResult(name, outer[name]);
        todo := todo - {name};
      }
    }

    method ExecuteKeywordSteps(evaluator: Evaluator, state: ScenarioState, c: Context, keyword: Keyword,
                               externalDeps: set<string>)
      returns (failure: Option<ErrorDetail>)
      requires c.scope == evaluator.seedScope && c.phase == InSteps
      requires NameSet(keyword.steps) <= state.results.Keys
      requires keyword.steps != [] ==> StackOk(w, c.frames, state.results.Keys)
      modifies this, evaluator, state
      ensures evaluator.seedScope == old(evaluator.seedScope)
      ensures KeywordDone(failure, state.results, log)
           == if Refs.InOrder(keyword.steps, externalDeps)
              then KeywordSteps(w, c, keyword, keyword.steps, old(state.results), old(log))
              else KeywordDone(Some(ErrorDetail("keyword", "", GraphError(keyword.name))), old(state.results), old(log))
      decreases |Callable(w, state.results.Keys)|, if keyword.steps == [] then 0 else 5, |keyword.steps|
    {
      var graphError := Refs.ValidateStepOrder(keyword.steps, externalDeps);
      if graphError.Some? {
        return Some(ErrorDetail("keyword", "", GraphError(keyword.name)));
      }
      var i := 0;
      while i < |keyword.steps|
        invariant 0 <= i <= |keyword.steps|
        invariant evaluator.seedScope == c.scope && state.results.Keys == old(state.results.Keys)
        invariant NameSet(keyword.steps[i..]) <= state.results.Keys
        invariant KeywordSteps(w, c, keyword, keyword.steps[i..], state.results, log)
               == KeywordSteps(w, c, keyword, keyword.steps, old(state.results), old(log))
      {
        assert keyword.steps[i..][1..] == keyword.steps[i + 1..];
        hide StackOk;
        failure := ExecuteKeywordSubStep(evaluator, state, c, keyword, keyword.steps[i..]);
        hide KeywordSteps;
        if failure.Some? {
          return;
        }
        i := i + 1;
      }
      failure := None;
    }

    /** The first of the remaining steps: skipped by its `when`, or run. */
    method ExecuteKeywordSubStep(evaluator: Evaluator, state: ScenarioState, c: Context, keyword: Keyword, rest: seq<Step>)
      returns (failure: Option<ErrorDetail>)
      requires c.scope == evaluator.seedScope && c.phase == InSteps && rest != []
      requires NameSet(rest) <= state.results.Keys && StackOk(w, c.frames, state.results.Keys)
      modifies this, evaluator, state
      ensures evaluator.seedScope == old(evaluator.seedScope)
      ensures state.results.Keys == old(state.results.Keys) && NameSet(rest[1..]) <= state.results.Keys
      ensures KeywordSteps(w, c, keyword, rest, old(state.results), old(log))
           == if failure.Some? then KeywordDone(failure, state.results, log)
              else KeywordSteps(w, c, keyword, rest[1..], state.results, log)
      decreases |Callable(w, state.results.Keys)|, 4, 1
    {
      hide Under;
      hide Within;
      hide StackOk;
      var step := rest[0];
      NameSetCons(rest);
      var run := EvalWhen(state, c, step);
      if run != Holds {
        return None;
      }
      var result := ExecuteStepInPhase(evaluator, state, c.phase, c.frames, c.input, step);
      failure :=
        if result.status == Fail then
          Some(ErrorDetail("keyword", step.name,
                           KeywordStepFailed(keyword.name, step.name, result.failure.value.message)))
        else None;
    }

    method EvalWhen(state: ScenarioState, c: Context, step: Step) returns (run: Condition)
      modifies this
      ensures run == if step.when.None? then Holds else w.oracle.when(|old(log)|, c.At(step.name), state.results)
      ensures log == if step.when.None? then old(log) else old(log) + [At(CheckWhen, c.At(step.name))]
    {
      if step.when.None? {
        return Holds;
      }
      run := w.oracle.when(|log|, c.At(step.name), state.results);
      Record(CheckWhen, c.At(step.name));
    }
  }
}
