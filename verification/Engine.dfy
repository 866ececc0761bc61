/** How one step runs: retries, keyword calls and the frame of both (internal/runtime/runner.go,
    internal/runtime/context.go), as functions the imperative runner refines. Providers and
    expressions answer through an arbitrary oracle. */
module Engine {
  import opened Wrappers
  import opened Model
  import opened Report
  import Refs
  import Seeds
  import SkipRules

  datatype Value = EmptyObject | Produced(id: nat)

  type Results = map<string, Value>

  /** One keyword call in progress. */
  datatype Frame = Frame(caller: string, keyword: string)

  datatype Site = Site(step: string, phase: Phase, frames: seq<Frame>, scope: string, input: Results)

  datatype Action =
    | CheckRules | CheckWhen | Attempt(n: nat) | EvalVars | EvalCall | EvalOutputs | Sleep

  /** What the run did, in order. */
  datatype Event = At(action: Action, site: Site) | HookBegan(hook: nat) | HookRefused(hook: nat) | HookEnded(hook: nat)

  type Log = seq<Event>

  datatype Outcome = Passed(value: Value) | Failed(detail: ErrorDetail)
  datatype Condition = Holds | False | Unevaluable(error: string)
  datatype CallTarget = CallTarget(keyword: string, inputs: Results)

  /** Everything outside the engine. The first argument of each answer is how much has happened so
      far, so no two questions need get the same answer. */
  datatype Oracle = Oracle(
    rules: (nat, Site, Results) -> seq<SkipRules.Rule>,
    when: (nat, Site, Results) -> Condition,
    attempt: (nat, Site, Results) -> Outcome,
    vars: (nat, Site, Results) -> Option<ErrorDetail>,
    call: (nat, Site, Results) -> Result<CallTarget, string>,
    outputs: (nat, Site, Results) -> Result<Value, string>,
    sleeps: nat -> bool,
    begins: (nat, nat) -> Option<string>)

  datatype World = World(keywords: map<string, Keyword>, host: SkipRules.Host, oracle: Oracle)

  /** Where a step runs: its phase, the keyword calls around it, their seed scope and input. */
  datatype Context = Context(phase: Phase, frames: seq<Frame>, scope: string, input: Results)
  {
    function At(step: string): Site { Site(step, phase, frames, scope, input) }

    /** The context of the steps of a keyword called by `caller`. */
    function Call(caller: string, target: CallTarget): Context {
      Context(InSteps, frames + [Frame(caller, target.keyword)], Seeds.Push(scope, caller), target.inputs)
    }
  }

  datatype Done = Done(result: StepResult, results: Results, log: Log)

  datatype KeywordDone = KeywordDone(failure: Option<ErrorDetail>, results: Results, log: Log)

  // ----- the keyword call stack -----

  function Callers(frames: seq<Frame>): seq<string> {
    seq(|frames|, i requires 0 <= i < |frames| => frames[i].caller)
  }

  predicate NoKeywordTwice(frames: seq<Frame>) {
    forall i, j | 0 <= i < j < |frames| :: frames[i].keyword != frames[j].keyword
  }

  predicate KnownKeywords(w: World, frames: seq<Frame>) {
    forall i | 0 <= i < |frames| :: frames[i].keyword in w.keywords
  }

  /** Every keyword being executed has put its step names among the result keys. */
  predicate StackOk(w: World, frames: seq<Frame>, keys: set<string>) {
    && KnownKeywords(w, frames) && NoKeywordTwice(frames)
    && forall i | 0 <= i < |frames| ::
         w.keywords[frames[i].keyword].steps != [] && NameSet(w.keywords[frames[i].keyword].steps) <= keys
  }

  /** The keywords a call can still enter: not empty, and no step name taken. */
  ghost function Callable(w: World, keys: set<string>): set<string> {
    set k | k in w.keywords && w.keywords[k].steps != [] && NameSet(w.keywords[k].steps) !! keys
  }

  lemma CallShrinks(w: World, keys: set<string>, k: string)
    requires k in Callable(w, keys)
    ensures |Callable(w, keys + NameSet(w.keywords[k].steps))| < |Callable(w, keys)|
  {
    var steps := w.keywords[k].steps;
    assert steps[0].name in NameSet(steps);
    var after := Callable(w, keys + NameSet(steps));
    assert after <= Callable(w, keys) - {k};
    SubsetSize(after, Callable(w, keys) - {k});
  }

  lemma {:induction false} SubsetSize(a: set<string>, b: set<string>)
    requires a <= b
    ensures |a| <= |b|
  {
    if x :| x in a {
      SubsetSize(a - {x}, b - {x});
    }
  }

  // ----- what a step may leave behind -----

  /** e happened in context c or in a keyword call made from it. The seed scope is then the calling
      steps' names pushed in order, and no keyword is being executed twice. */
  ghost predicate Under(w: World, c: Context, e: Event) {
    && e.At?
    && c.frames <= e.site.frames
    && KnownKeywords(w, e.site.frames) && NoKeywordTwice(e.site.frames)
    && e.site.scope == Seeds.PushAll(c.scope, Callers(e.site.frames[|c.frames|..]))
    && e.site.phase == (if e.site.frames == c.frames then c.phase else InSteps)
    && (e.site.frames == c.frames ==> e.site.input == c.input)
  }

  /** e happened while the step `name` ran in context c: at the step itself, or inside a call it made. */
  ghost predicate Within(w: World, c: Context, name: string, e: Event) {
    && Under(w, c, e)
    && if e.site.frames == c.frames then e.site == c.At(name) else e.site.frames[|c.frames|].caller == name
  }

  ghost predicate Logs(w: World, c: Context, name: string, before: Log, after: Log) {
    && before <= after
    && forall k | |before| <= k < |after| :: Within(w, c, name, after[k])
  }

  /** What running a step promises: it passes or fails; passing writes its own result and nothing
      else; failing writes nothing and says why. */
  ghost predicate StepContract(w: World, c: Context, step: Step, results: Results, log: Log, d: Done) {
    && d.result.name == step.name && d.result.provider == step.provider && d.result.phase == c.phase
    && d.result.skipReason == NotSkipped
    && (d.result.status == Pass || d.result.status == Fail)
    && d.results.Keys == results.Keys
    && (d.result.status == Pass ==>
          d.result.failure.None? && step.name in results && d.results == results[step.name := d.results[step.name]])
    && (d.result.status == Fail ==> d.result.failure.Some? && d.results == results)
    && Logs(w, c, step.name, log, d.log)
  }

  predicate Ready(w: World, c: Context, step: Step, results: Results) {
    step.name in results && StackOk(w, c.frames, results.Keys)
  }

  function PassResult(c: Context, step: Step, n: nat): StepResult {
    StepResult(step.name, step.provider, c.phase, Pass, n, None, NotSkipped)
  }

  function FailResult(c: Context, step: Step, n: nat, detail: ErrorDetail): StepResult {
    StepResult(step.name, step.provider, c.phase, Fail, n, Some(detail), NotSkipped)
  }

  function MaxAttempts(step: Step): nat {
    if step.retry.None? || step.retry.value.attempts < 1 then 1 else step.retry.value.attempts
  }

  function SleepsBetween(step: Step): bool {
    step.retry.Some? && step.retry.value.interval > 0
  }

  // ----- running a step -----

  function ExecuteStep(w: World, c: Context, step: Step, results: Results, log: Log): (d: Done)
    requires Ready(w, c, step, results)
    ensures StepContract(w, c, step, results, log, d)
    ensures 1 <= d.result.attempts <= MaxAttempts(step)
    decreases |Callable(w, results.Keys)|, 4, 0
  {
    AttemptsFrom(w, c, step, results, log, 1)
  }

  function AttemptsFrom(w: World, c: Context, step: Step, results: Results, log: Log, n: nat): (d: Done)
    requires Ready(w, c, step, results) && 1 <= n <= MaxAttempts(step)
    ensures StepContract(w, c, step, results, log, d)
    ensures n <= d.result.attempts <= MaxAttempts(step)
    decreases |Callable(w, results.Keys)|, 3, MaxAttempts(step) - n
  {
    var d := AttemptStep(w, c, step, results, log, n);
    if d.result.status == Pass || n == MaxAttempts(step) then d
    else if SleepsBetween(step) then
      var slept := d.log + [At(Sleep, c.At(step.name))];
      if w.oracle.sleeps(|d.log|) then AttemptsFrom(w, c, step, d.results, slept, n + 1)
      else Done(FailResult(c, step, n, ErrorDetail("runtime", "", RetryInterrupted)), d.results, slept)
    else AttemptsFrom(w, c, step, d.results, d.log, n + 1)
  }

  function AttemptStep(w: World, c: Context, step: Step, results: Results, log: Log, n: nat): (d: Done)
    requires Ready(w, c, step, results)
    ensures StepContract(w, c, step, results, log, d) && d.result.attempts == n
    decreases |Callable(w, results.Keys)|, 2, 0
  {
    var tried := log + [At(Attempt(n), c.At(step.name))];
    if step.provider == "keyword" then KeywordStep(w, c, step, results, tried, n)
    else match w.oracle.attempt(|log|, c.At(step.name), results)
      case Passed(v) => Done(PassResult(c, step, n), results[step.name := v], tried)
      case Failed(e) => Done(FailResult(c, step, n, e), results, tried)
  }

  lemma NameSetCons(steps: seq<Step>)
    requires steps != []
    ensures NameSet(steps) == {steps[0].name} + NameSet(steps[1..])
  {
  }

  function FirstCollision(steps: seq<Step>, keys: set<string>): (r: Option<string>)
    ensures r.None? <==> NameSet(steps) !! keys
  {
    if steps == [] then None
    else if steps[0].name in keys then assert steps[0].name in NameSet(steps); Some(steps[0].name)
    else assert NameSet(steps) == {steps[0].name} + NameSet(steps[1..]); FirstCollision(steps[1..], keys)
  }

  /** The state a keyword starts from: the caller's results, and empty results for its own steps. */
  function KeywordState(outer: Results, steps: seq<Step>): (r: Results)
    ensures r.Keys == outer.Keys + NameSet(steps)
    ensures forall k | k in r :: r[k] == if k in outer then outer[k] else EmptyObject
  {
    map k | k in outer.Keys + NameSet(steps) :: if k in outer then outer[k] else EmptyObject
  }

  /** A call gets as far as running the keyword's steps exactly when the keyword exists, has its
      inputs, takes no name of the caller's state, and its steps are in order there. */
  function CallError(w: World, results: Results, target: CallTarget): (r: Option<Message>)
    ensures r.None? <==>
              && target.keyword in w.keywords
              && var keyword := w.keywords[target.keyword];
                 && keyword.inputs <= target.inputs.Keys
                 && NameSet(keyword.steps) !! results.Keys
                 && Refs.InOrder(keyword.steps, results.Keys)
  {
    if target.keyword !in w.keywords then Some(UnknownKeyword(target.keyword))
    else
      var keyword := w.keywords[target.keyword];
      if !(keyword.inputs <= target.inputs.Keys) then Some(MissingInput(keyword.name))
      else
        var collision := FirstCollision(keyword.steps, results.Keys);
        if collision.Some? then Some(NameCollision(collision.value))
        else if !Refs.InOrder(keyword.steps, results.Keys) then Some(GraphError(keyword.name))
        else None
  }

  function KeywordStep(w: World, c: Context, step: Step, results: Results, log: Log, n: nat): (d: Done)
    requires Ready(w, c, step, results)
    ensures StepContract(w, c, step, results, log, d) && d.result.attempts == n
    decreases |Callable(w, results.Keys)|, 1, 2
  {
    var site := c.At(step.name);
    if !step.hasKeywordCall then
      Done(FailResult(c, step, n, ErrorDetail("keyword", "", NoCallConfiguration)), results, log)
    else
      var logV := if step.vars == [] then log else log + [At(EvalVars, site)];
      var varsError := if step.vars == [] then None else w.oracle.vars(|log|, site, results);
      if varsError.Some? then Done(FailResult(c, step, n, varsError.value), results, logV)
      else
        var logC := logV + [At(EvalCall, site)];
        match w.oracle.call(|logV|, site, results)
        case Err(text) => Done(FailResult(c, step, n, ErrorDetail("eval", "", Text(text))), results, logC)
        case Ok(target) => CallStep(w, c, step, results, logC, n, target)
  }

  function CallStep(w: World, c: Context, step: Step, results: Results, log: Log, n: nat, target: CallTarget): (d: Done)
    requires Ready(w, c, step, results)
    ensures StepContract(w, c, step, results, log, d) && d.result.attempts == n
    decreases |Callable(w, results.Keys)|, 1, 1
  {
    var callError := CallError(w, results, target);
    if callError.Some? then Done(FailResult(c, step, n, ErrorDetail("keyword", "", callError.value)), results, log)
    else CallKeyword(w, c, step, results, log, n, target)
  }

  /** A keyword's outputs are evaluated in its own state, under the calling step's name. */
  function KeywordOutputs(w: World, c: Context, caller: string, keyword: Keyword, results: Results, log: Log)
    : (r: (Result<Value, string>, Log))
    requires KnownKeywords(w, c.frames) && NoKeywordTwice(c.frames)
    ensures log <= r.1 && forall i | |log| <= i < |r.1| :: Under(w, c, r.1[i])
  {
    if keyword.outputs == {} then (Ok(EmptyObject), log)
    else (w.oracle.outputs(|log|, c.At(caller), results), log + [At(EvalOutputs, c.At(caller))])
  }

  function CallKeyword(w: World, c: Context, step: Step, results: Results, log: Log, n: nat, target: CallTarget): (d: Done)
    requires Ready(w, c, step, results) && CallError(w, results, target).None?
    ensures StepContract(w, c, step, results, log, d) && d.result.attempts == n
    decreases |Callable(w, results.Keys)|, 1, 0
  {
    var keyword := w.keywords[target.keyword];
    var inside := c.Call(step.name, target);
    EnterKeyword(w, c, step.name, results.Keys, target);
    var k := KeywordSteps(w, inside, keyword, keyword.steps, KeywordState(results, keyword.steps), log);
    if k.failure.Some? then Done(FailResult(c, step, n, k.failure.value), results, k.log)
    else
      var (outputs, logO) := KeywordOutputs(w, inside, step.name, keyword, k.results, k.log);
      match outputs
      case Err(text) => Done(FailResult(c, step, n, ErrorDetail("keyword", "", Text(text))), results, logO)
      case Ok(v) => Done(PassResult(c, step, n), results[step.name := v], logO)
  }

  function KeywordSteps(w: World, c: Context, keyword: Keyword, rest: seq<Step>, results: Results, log: Log): (k: KeywordDone)
    requires NameSet(rest) <= results.Keys
    requires rest != [] ==> StackOk(w, c.frames, results.Keys)
    ensures k.results.Keys == results.Keys
    ensures forall name | name in results && name !in NameSet(rest) :: k.results[name] == results[name]
    ensures log <= k.log
    ensures forall i | |log| <= i < |k.log| :: Under(w, c, k.log[i])
    decreases |Callable(w, results.Keys)|, if rest == [] then 0 else 5, |rest|
  {
    if rest == [] then KeywordDone(None, results, log)
    else
      var step := rest[0];
      assert NameSet(rest) == {step.name} + NameSet(rest[1..]);
      var logW := if step.when.None? then log else log + [At(CheckWhen, c.At(step.name))];
      if step.when.Some? && w.oracle.when(|log|, c.At(step.name), results) != Holds then
        KeywordSteps(w, c, keyword, rest[1..], results, logW)
      else
        var d := ExecuteStep(w, c, step, results, logW);
        if d.result.status == Fail then
          KeywordDone(Some(ErrorDetail("keyword", step.name,
                                       KeywordStepFailed(keyword.name, step.name, d.result.failure.value.message))),
                      d.results, d.log)
        else KeywordSteps(w, c, keyword, rest[1..], d.results, d.log)
  }

  /** A call that may proceed keeps the stack well-formed and enters a keyword that is not on it. */
  lemma EnterKeyword(w: World, c: Context, caller: string, keys: set<string>, target: CallTarget)
    requires StackOk(w, c.frames, keys) && target.keyword in w.keywords
    requires NameSet(w.keywords[target.keyword].steps) !! keys
    ensures var steps := w.keywords[target.keyword].steps;
            var inside := c.Call(caller, target);
            && KnownKeywords(w, inside.frames) && NoKeywordTwice(inside.frames)
            && (steps != [] ==> StackOk(w, inside.frames, keys + NameSet(steps)))
            && (steps != [] ==> |Callable(w, keys + NameSet(steps))| < |Callable(w, keys)|)
            && (steps == [] ==> keys + NameSet(steps) == keys)
    ensures forall e | Under(w, c.Call(caller, target), e) :: Within(w, c, caller, e)
  {
    var steps := w.keywords[target.keyword].steps;
    var inside := c.Call(caller, target);
    forall i | 0 <= i < |c.frames| ensures c.frames[i].keyword != target.keyword {
      var running := w.keywords[c.frames[i].keyword].steps;
      assert running[0].name in NameSet(running);
    }
    if steps != [] {
      CallShrinks(w, keys, target.keyword);
    }
    forall e | Under(w, inside, e) ensures Within(w, c, caller, e) {
      NestedWithin(w, c, caller, target, e);
    }
  }

  lemma NestedWithin(w: World, c: Context, caller: string, target: CallTarget, e: Event)
    requires Under(w, c.Call(caller, target), e)
    ensures Within(w, c, caller, e)
  {
    var inside := c.Call(caller, target);
    var all, deeper := e.site.frames[|c.frames|..], e.site.frames[|inside.frames|..];
    assert e.site.frames[|c.frames|] == inside.frames[|c.frames|];
    assert Callers(all)[1..] == Callers(deeper);
    assert Callers(all)[0] == caller;
  }

  // ----- whole runs of one step -----

  /** However keywords call each other, and whatever names the calls compute, no keyword is ever
      inside itself, calls nest no deeper than there are keywords, and everything generated inside a
      call is seeded under the calling steps' names, outermost first. */
  lemma CallStackBounded(w: World, phase: Phase, step: Step, results: Results, log: Log, k: nat)
    requires step.name in results
    requires var d := ExecuteStep(w, Context(phase, [], "", map[]), step, results, log); |log| <= k < |d.log|
    ensures var e := ExecuteStep(w, Context(phase, [], "", map[]), step, results, log).log[k];
            && e.At? && NoKeywordTwice(e.site.frames) && |e.site.frames| <= |w.keywords|
            && e.site.scope == Seeds.ScopeOf(Callers(e.site.frames))
  {
    var d := ExecuteStep(w, Context(phase, [], "", map[]), step, results, log);
    assert Within(w, Context(phase, [], "", map[]), step.name, d.log[k]);
    var frames := d.log[k].site.frames;
    assert frames[0..] == frames;
    DistinctKeywordsFit(frames, w.keywords.Keys);
  }

  lemma {:induction false} DistinctKeywordsFit(frames: seq<Frame>, names: set<string>)
    requires NoKeywordTwice(frames) && forall i | 0 <= i < |frames| :: frames[i].keyword in names
    ensures |frames| <= |names|
  {
    if frames != [] {
      DistinctKeywordsFit(frames[1..], names - {frames[0].keyword});
    }
  }

  /** Attempts n to k at one site, with the pause that follows each attempt but the last. */
  function Trace(pause: bool, site: Site, n: nat, k: nat): Log
    decreases k - n
  {
    [At(Attempt(n), site)]
    + if n >= k then [] else (if pause then [At(Sleep, site)] else []) + Trace(pause, site, n + 1, k)
  }

  lemma AttemptIsLogged(w: World, c: Context, step: Step, results: Results, log: Log, n: nat)
    requires Ready(w, c, step, results)
    ensures log + [At(Attempt(n), c.At(step.name))] <= AttemptStep(w, c, step, results, log, n).log
  {
    hide Within;
    hide KeywordStep;
  }

  /** Running a step starts with its first attempt. */
  lemma StartsWithAttempt(w: World, c: Context, step: Step, results: Results, log: Log)
    requires Ready(w, c, step, results)
    ensures log + [At(Attempt(1), c.At(step.name))] <= ExecuteStep(w, c, step, results, log).log
  {
    AttemptIsLogged(w, c, step, results, log, 1);
    AttemptsUnfold(w, c, step, results, log, 1);
    hide AttemptStep;
    hide Within;
  }

  /** What the log holds once an attempt is to be followed by another. */
  function BeforeRetry(c: Context, step: Step, log: Log): Log {
    if SleepsBetween(step) then log + [At(Sleep, c.At(step.name))] else log
  }

  /** An attempt or a pause of a step in context c itself, not inside a keyword call it makes. */
  predicate Own(c: Context, e: Event) {
    e.At? && e.site.frames == c.frames && (e.action.Attempt? || e.action == Sleep)
  }

  function OwnOf(c: Context, log: Log): Log {
    if log == [] then []
    else OwnOf(c, log[..|log| - 1]) + if Own(c, log[|log| - 1]) then [log[|log| - 1]] else []
  }

  lemma OwnOfOneMore(c: Context, log: Log, e: Event)
    ensures OwnOf(c, log + [e]) == OwnOf(c, log) + if Own(c, e) then [e] else []
  {
    assert (log + [e])[..|log|] == log;
  }

  /** after extends before by events that are not own ones. */
  predicate AddsNoOwn(c: Context, before: Log, after: Log) {
    before <= after && forall k | |before| <= k < |after| :: !Own(c, after[k])
  }

  lemma {:induction false} OwnOfUnchanged(c: Context, before: Log, after: Log)
    requires AddsNoOwn(c, before, after)
    ensures OwnOf(c, after) == OwnOf(c, before)
  {
    if |before| < |after| {
      OwnOfUnchanged(c, before, after[..|after| - 1]);
    } else {
      assert after == before;
    }
  }

  /** Whatever a called keyword does, the caller neither attempts nor pauses meanwhile. */
  lemma CalledKeywordAddsNoOwn(w: World, c: Context, step: Step, results: Results, log: Log, n: nat, target: CallTarget)
    requires Ready(w, c, step, results) && CallError(w, results, target).None?
    ensures AddsNoOwn(c, log, CallKeyword(w, c, step, results, log, n, target).log)
  {
    var keyword := w.keywords[target.keyword];
    var inside := c.Call(step.name, target);
    EnterKeyword(w, c, step.name, results.Keys, target);
    var k := KeywordSteps(w, inside, keyword, keyword.steps, KeywordState(results, keyword.steps), log);
    var logO := KeywordOutputs(w, inside, step.name, keyword, k.results, k.log).1;
    forall i | |log| <= i < |logO| ensures !Own(c, logO[i]) {
      assert i < |k.log| ==> logO[i] == k.log[i];
      assert Under(w, inside, logO[i]);
    }
    hide KeywordSteps;
    hide KeywordOutputs;
  }

  lemma KeywordStepAddsNoOwn(w: World, c: Context, step: Step, results: Results, log: Log, n: nat)
    requires Ready(w, c, step, results)
    ensures AddsNoOwn(c, log, KeywordStep(w, c, step, results, log, n).log)
  {
    var logV := if step.vars == [] then log else log + [At(EvalVars, c.At(step.name))];
    var logC := logV + [At(EvalCall, c.At(step.name))];
    assert AddsNoOwn(c, log, log) && AddsNoOwn(c, log, logV) && AddsNoOwn(c, log, logC);
    var call := w.oracle.call(|logV|, c.At(step.name), results);
    if call.Ok? && CallError(w, results, call.value).None? {
      CalledKeywordAddsNoOwn(w, c, step, results, logC, n, call.value);
      AddsNoOwnTransitive(c, log, logC, CallKeyword(w, c, step, results, logC, n, call.value).log);
    }
    hide AddsNoOwn;
    hide CallKeyword;
    hide StepContract;
  }

  lemma AddsNoOwnTransitive(c: Context, a: Log, b: Log, d: Log)
    requires AddsNoOwn(c, a, b) && AddsNoOwn(c, b, d)
    ensures AddsNoOwn(c, a, d)
  {
    assert forall k | |a| <= k < |b| :: d[k] == b[k];
  }

  lemma AttemptIsOwn(w: World, c: Context, step: Step, results: Results, log: Log, n: nat)
    requires Ready(w, c, step, results)
    ensures OwnOf(c, AttemptStep(w, c, step, results, log, n).log) == OwnOf(c, log) + [At(Attempt(n), c.At(step.name))]
  {
    var tried := log + [At(Attempt(n), c.At(step.name))];
    OwnOfOneMore(c, log, At(Attempt(n), c.At(step.name)));
    if step.provider == "keyword" {
      KeywordStepAddsNoOwn(w, c, step, results, tried, n);
      OwnOfUnchanged(c, tried, KeywordStep(w, c, step, results, tried, n).log);
      hide KeywordStep;
    }
  }

  /** An attempt that failed is followed by another: attempts are left and the pause is not cut short. */
  predicate Retries(w: World, step: Step, d: Done, n: nat) {
    d.result.status == Fail && n < MaxAttempts(step) && (SleepsBetween(step) ==> w.oracle.sleeps(|d.log|))
  }

  /** The pause after attempt n was cut short, which fails the step for that reason. */
  predicate CutShort(w: World, c: Context, step: Step, last: Done, n: nat, d: Done) {
    && last.result.status == Fail && n < MaxAttempts(step) && SleepsBetween(step) && !w.oracle.sleeps(|last.log|)
    && d == Done(FailResult(c, step, n, ErrorDetail("runtime", "", RetryInterrupted)), last.results, BeforeRetry(c, step, last.log))
  }

  lemma AttemptsUnfold(w: World, c: Context, step: Step, results: Results, log: Log, n: nat)
    requires Ready(w, c, step, results) && 1 <= n <= MaxAttempts(step)
    ensures var last := AttemptStep(w, c, step, results, log, n);
            var d := AttemptsFrom(w, c, step, results, log, n);
            && last.result.attempts == n
            && if Retries(w, step, last, n) then
                 && Retried(w, c, step, results, n, log, BeforeRetry(c, step, last.log))
                 && d == AttemptsFrom(w, c, step, results, BeforeRetry(c, step, last.log), n + 1)
               else Settles(w, c, step, last, n, d)
  {
    hide AttemptStep;
    hide Logs;
  }

  /** After the own events `own`, d adds attempts n to the number it reports, with a pause between any
      two; a last pause shows only when it was cut short. */
  predicate Numbered(c: Context, step: Step, own: Log, n: nat, d: Done) {
    var trace := own + Trace(SleepsBetween(step), c.At(step.name), n, d.result.attempts);
    || OwnOf(c, d.log) == trace
    || (&& OwnOf(c, d.log) == trace + [At(Sleep, c.At(step.name))]
        && d.result.failure == Some(ErrorDetail("runtime", "", RetryInterrupted))
        && d.result.attempts < MaxAttempts(step))
  }

  lemma NumberedLater(c: Context, step: Step, own: Log, n: nat, d: Done)
    requires n < d.result.attempts
    requires Numbered(c, step, own + [At(Attempt(n), c.At(step.name))]
                                   + (if SleepsBetween(step) then [At(Sleep, c.At(step.name))] else []), n + 1, d)
    ensures Numbered(c, step, own, n, d)
  {
    TraceUnfolds(own, SleepsBetween(step), c.At(step.name), n, d.result.attempts);
    hide Trace;
    hide OwnOf;
  }

  lemma NumberedHere(w: World, c: Context, step: Step, own: Log, last: Done, n: nat, d: Done)
    requires OwnOf(c, last.log) == own + [At(Attempt(n), c.At(step.name))] && last.result.attempts == n
    requires Settles(w, c, step, last, n, d)
    ensures Numbered(c, step, own, n, d)
  {
    OwnOfOneMore(c, last.log, At(Sleep, c.At(step.name)));
    hide OwnOf;
    assert Trace(SleepsBetween(step), c.At(step.name), n, n) == [At(Attempt(n), c.At(step.name))];
  }

  /** The attempts of any step, calls nested in them or not, are numbered upwards without a gap. */
  lemma {:induction false} AttemptsAreNumbered(w: World, c: Context, step: Step, results: Results, log: Log, n: nat)
    requires Ready(w, c, step, results) && 1 <= n <= MaxAttempts(step)
    ensures Numbered(c, step, OwnOf(c, log), n, AttemptsFrom(w, c, step, results, log, n))
    decreases MaxAttempts(step) - n
  {
    hide *;
    var last := AttemptStep(w, c, step, results, log, n);
    var d := AttemptsFrom(w, c, step, results, log, n);
    AttemptIsOwn(w, c, step, results, log, n);
    AttemptsUnfold(w, c, step, results, log, n);
    if Retries(w, step, last, n) {
      AttemptsLeft(w, step, last, n);
      OwnBeforeRetry(c, step, last.log);
      AttemptsAreNumbered(w, c, step, results, BeforeRetry(c, step, last.log), n + 1);
      NumberedLater(c, step, OwnOf(c, log), n, d);
    } else {
      NumberedHere(w, c, step, OwnOf(c, log), last, n, d);
    }
  }

  lemma AttemptsLeft(w: World, step: Step, last: Done, n: nat)
    requires Retries(w, step, last, n)
    ensures n < MaxAttempts(step)
  {
  }

  lemma OwnBeforeRetry(c: Context, step: Step, log: Log)
    ensures OwnOf(c, BeforeRetry(c, step, log))
         == OwnOf(c, log) + if SleepsBetween(step) then [At(Sleep, c.At(step.name))] else []
  {
    OwnOfOneMore(c, log, At(Sleep, c.At(step.name)));
    hide OwnOf;
  }

  /** Attempt n, started on `log`, fails, leaves the results alone and is followed, after its pause, by
      another. */
  ghost predicate Retried(w: World, c: Context, step: Step, results: Results, n: nat, log: Log, next: Log)
    requires Ready(w, c, step, results)
  {
    var d := AttemptStep(w, c, step, results, log, n);
    d.result.status == Fail && d.results == results && next == BeforeRetry(c, step, d.log)
  }

  /** logs are the logs the attempts from number n on start with. */
  ghost predicate RetriedThrough(w: World, c: Context, step: Step, results: Results, n: nat, logs: seq<Log>)
    requires Ready(w, c, step, results)
  {
    forall j | 0 <= j < |logs| - 1 :: Retried(w, c, step, results, n + j, logs[j], logs[j + 1])
  }

  /** d is what `last`, attempt number n, settles: it passed, or used up the attempts, or the pause after
      it was cut short. */
  predicate Settles(w: World, c: Context, step: Step, last: Done, n: nat, d: Done) {
    || (d == last && (last.result.status == Pass || n == MaxAttempts(step)))
    || CutShort(w, c, step, last, n, d)
  }

  /** logs tells how d came about from `log`: failed attempts from number n on, then the one that
      settled it. */
  ghost predicate Tells(w: World, c: Context, step: Step, results: Results, log: Log, n: nat, logs: seq<Log>, d: Done)
    requires Ready(w, c, step, results)
  {
    && logs != [] && logs[0] == log && RetriedThrough(w, c, step, results, n, logs)
    && var k := n + |logs| - 1;
       && d.result.attempts == k
       && Settles(w, c, step, AttemptStep(w, c, step, results, logs[|logs| - 1], k), k, d)
  }

  lemma TellsMore(w: World, c: Context, step: Step, results: Results, log: Log, n: nat, next: Log, rest: seq<Log>, d: Done)
    requires Ready(w, c, step, results) && Retried(w, c, step, results, n, log, next)
    requires Tells(w, c, step, results, next, n + 1, rest, d)
    ensures Tells(w, c, step, results, log, n, [log] + rest, d)
  {
    RetriedFirst(w, c, step, results, n, log, rest);
    hide Settles;
    hide RetriedThrough;
    hide AttemptStep;
    assert ([log] + rest)[|rest|] == rest[|rest| - 1];
  }

  /** Any step, calls nested in its attempts or not, is retried until an attempt passes, the attempts are
      used up, or a pause is cut short; what it reports, stores and logs is the last attempt's. */
  lemma {:induction false} RetryStopsAtSuccess(w: World, c: Context, step: Step, results: Results, log: Log, n: nat)
    returns (logs: seq<Log>)
    requires Ready(w, c, step, results) && 1 <= n <= MaxAttempts(step)
    ensures Tells(w, c, step, results, log, n, logs, AttemptsFrom(w, c, step, results, log, n))
    decreases MaxAttempts(step) - n
  {
    hide *;
    AttemptsUnfold(w, c, step, results, log, n);
    var last := AttemptStep(w, c, step, results, log, n);
    var d := AttemptsFrom(w, c, step, results, log, n);
    if Retries(w, step, last, n) {
      AttemptsLeft(w, step, last, n);
      var next := BeforeRetry(c, step, last.log);
      var rest := RetryStopsAtSuccess(w, c, step, results, next, n + 1);
      TellsMore(w, c, step, results, log, n, next, rest, d);
      logs := [log] + rest;
    } else {
      TellsAtOnce(w, c, step, results, log, n, d);
      logs := [log];
    }
  }

  lemma TellsAtOnce(w: World, c: Context, step: Step, results: Results, log: Log, n: nat, d: Done)
    requires Ready(w, c, step, results) && Settles(w, c, step, AttemptStep(w, c, step, results, log, n), n, d)
    ensures Tells(w, c, step, results, log, n, [log], d)
  {
    hide StepContract;
  }

  lemma RetriedFirst(w: World, c: Context, step: Step, results: Results, n: nat, log: Log, rest: seq<Log>)
    requires Ready(w, c, step, results) && rest != [] && RetriedThrough(w, c, step, results, n + 1, rest)
    requires Retried(w, c, step, results, n, log, rest[0])
    ensures RetriedThrough(w, c, step, results, n, [log] + rest)
  {
    hide Retried;
    var logs := [log] + rest;
    forall j | 0 <= j < |logs| - 1 ensures Retried(w, c, step, results, n + j, logs[j], logs[j + 1]) {
      if j > 0 {
        assert Retried(w, c, step, results, n + 1 + (j - 1), rest[j - 1], rest[j - 1 + 1]);
      }
    }
  }

  // ----- provider steps -----

  /** Which of a provider step's logged attempts answered with success. */
  ghost predicate PassedAt(w: World, c: Context, step: Step, results: Results, log: Log, i: nat)
    requires i < |log|
  {
    log[i].At? && log[i].action.Attempt? && w.oracle.attempt(i, c.At(step.name), results).Passed?
  }

  /** The retry loop of a provider step on its own, without the keyword machinery around it. */
  function RetryLoop(w: World, c: Context, step: Step, results: Results, log: Log, n: nat): Done
    requires 1 <= n <= MaxAttempts(step)
    decreases MaxAttempts(step) - n
  {
    var tried := log + [At(Attempt(n), c.At(step.name))];
    match w.oracle.attempt(|log|, c.At(step.name), results)
    case Passed(v) => Done(PassResult(c, step, n), results[step.name := v], tried)
    case Failed(e) =>
      if n == MaxAttempts(step) then Done(FailResult(c, step, n, e), results, tried)
      else if SleepsBetween(step) && !w.oracle.sleeps(|tried|) then
        Done(FailResult(c, step, n, ErrorDetail("runtime", "", RetryInterrupted)), results, BeforeRetry(c, step, tried))
      else RetryLoop(w, c, step, results, BeforeRetry(c, step, tried), n + 1)
  }

  lemma {:induction false} ProviderStepsRetry(w: World, c: Context, step: Step, results: Results, log: Log, n: nat)
    requires Ready(w, c, step, results) && 1 <= n <= MaxAttempts(step) && step.provider != "keyword"
    ensures AttemptsFrom(w, c, step, results, log, n) == RetryLoop(w, c, step, results, log, n)
    decreases MaxAttempts(step) - n
  {
    var d := AttemptStep(w, c, step, results, log, n);
    if d.result.status == Fail && n < MaxAttempts(step) {
      ProviderStepsRetry(w, c, step, results, BeforeRetry(c, step, d.log), n + 1);
    }
  }

  /** A provider step logs nothing but its attempts and pauses. */
  lemma {:induction false} ProviderLogIsTrace(w: World, c: Context, step: Step, results: Results, log: Log, n: nat)
    requires 1 <= n <= MaxAttempts(step)
    ensures var d := RetryLoop(w, c, step, results, log, n);
            var trace := log + Trace(SleepsBetween(step), c.At(step.name), n, d.result.attempts);
            && n <= d.result.attempts <= MaxAttempts(step)
            && (d.log == trace || (d.log == trace + [At(Sleep, c.At(step.name))]
                                   && d.result.failure == Some(ErrorDetail("runtime", "", RetryInterrupted))
                                   && d.result.attempts < MaxAttempts(step)))
    decreases MaxAttempts(step) - n
  {
    var pause, site := SleepsBetween(step), c.At(step.name);
    var tried := log + [At(Attempt(n), site)];
    var d := RetryLoop(w, c, step, results, log, n);
    if n < MaxAttempts(step) && w.oracle.attempt(|log|, site, results).Failed? && (pause ==> w.oracle.sleeps(|tried|)) {
      ProviderLogIsTrace(w, c, step, results, BeforeRetry(c, step, tried), n + 1);
      TraceUnfolds(log, pause, site, n, d.result.attempts);
    } else {
      assert Trace(pause, site, n, n) == [At(Attempt(n), site)];
    }
  }

  lemma TraceUnfolds(log: Log, pause: bool, site: Site, n: nat, k: nat)
    requires n < k
    ensures log + Trace(pause, site, n, k)
         == log + [At(Attempt(n), site)] + (if pause then [At(Sleep, site)] else []) + Trace(pause, site, n + 1, k)
  {
  }

  /** Event i was the last thing the step did, and its answer is what the step reports and stores. */
  ghost predicate Decided(w: World, c: Context, step: Step, results: Results, d: Done, i: nat) {
    && d.result.status == Pass && i == |d.log| - 1
    && var answer := w.oracle.attempt(i, c.At(step.name), results);
       answer.Passed? && d.results == results[step.name := answer.value]
  }

  /** In terms of the provider's answers: none but the last can be a success, and it is what the step
      stores. The step fails only when the attempts are used up, or the pause before the next one was
      cut short. */
  lemma {:induction false} ProviderSuccessIsFinal(w: World, c: Context, step: Step, results: Results, log: Log, n: nat)
    requires 1 <= n <= MaxAttempts(step)
    ensures var d := RetryLoop(w, c, step, results, log, n);
            && |log| < |d.log| && log <= d.log
            && (forall i | |log| <= i < |d.log| && PassedAt(w, c, step, results, d.log, i) ::
                  Decided(w, c, step, results, d, i))
            && (d.result.status == Pass ==> PassedAt(w, c, step, results, d.log, |d.log| - 1))
            && (d.result.status == Fail ==>
                  || (&& d.result.attempts == MaxAttempts(step)
                      && var answer := w.oracle.attempt(|d.log| - 1, c.At(step.name), results);
                         answer.Failed? && d.result.failure == Some(answer.detail))
                  || (&& SleepsBetween(step) && !w.oracle.sleeps(|d.log| - 1)
                      && d.result.failure == Some(ErrorDetail("runtime", "", RetryInterrupted))))
    decreases MaxAttempts(step) - n
  {
    var tried := log + [At(Attempt(n), c.At(step.name))];
    var next := BeforeRetry(c, step, tried);
    if n < MaxAttempts(step) && w.oracle.attempt(|log|, c.At(step.name), results).Failed?
       && (SleepsBetween(step) ==> w.oracle.sleeps(|tried|)) {
      ProviderSuccessIsFinal(w, c, step, results, next, n + 1);
      var d := RetryLoop(w, c, step, results, next, n + 1);
      hide RetryLoop;
      hide Decided;
      assert d.log[|log|] == next[|log|];
      assert !PassedAt(w, c, step, results, d.log, |log|);
      assert |log| + 1 < |next| ==> d.log[|log| + 1] == next[|log| + 1] && !PassedAt(w, c, step, results, d.log, |log| + 1);
    }
  }

  /** A provider that never succeeds, and is never interrupted, is asked as often as the retry block says,
      once when there is none or it asks for less, with a pause in between exactly when it gives an
      interval; and the last answer is what is wrong with the step. */
  lemma FailingProviderIsAskedAsWritten(w: World, c: Context, step: Step, results: Results, log: Log)
    requires Ready(w, c, step, results) && step.provider != "keyword"
    requires forall tick :: w.oracle.attempt(tick, c.At(step.name), results).Failed? && w.oracle.sleeps(tick)
    ensures var d := ExecuteStep(w, c, step, results, log);
            var times: nat, pause := match step.retry
                                     case Some(Retry(attempts, interval)) => (if attempts >= 1 then attempts else 1)
                                     case None => 1, step.retry.Some? && step.retry.value.interval > 0;
            && d.log == log + Trace(pause, c.At(step.name), 1, times)
            && d.result.status == Fail && d.result.attempts == times
            && d.result.failure == Some(w.oracle.attempt(|d.log| - 1, c.At(step.name), results).detail)
  {
    ProviderStepsRetry(w, c, step, results, log, 1);
    ProviderSuccessIsFinal(w, c, step, results, log, 1);
    ProviderLogIsTrace(w, c, step, results, log, 1);
    hide RetryLoop;
    hide AttemptsFrom;
    hide Trace;
    hide Logs;
  }

  // ----- a keyword's steps, by what the oracle answered -----

  /** What one of a keyword's steps finds, and so what it leaves to the next. */
  datatype Turn = Turn(results: Results, log: Log)

  /** The log a step starts to run on. */
  function Asked(c: Context, step: Step, log: Log): Log {
    if step.when.None? then log else log + [At(CheckWhen, c.At(step.name))]
  }

  /** The step has a `when`, and the answer to it, given here, is not that it holds. */
  predicate WhenRefuses(w: World, c: Context, step: Step, t: Turn) {
    step.when.Some? && w.oracle.when(|t.log|, c.At(step.name), t.results) != Holds
  }

  /** The step is not run: only its `when` is asked. */
  predicate PassedOver(w: World, c: Context, step: Step, t: Turn, next: Turn) {
    WhenRefuses(w, c, step, t) && next == Turn(t.results, Asked(c, step, t.log))
  }

  /** The step is run from here, its first attempt logged first, and reports d. */
  ghost predicate Ran(w: World, c: Context, step: Step, t: Turn, d: Done) {
    && !WhenRefuses(w, c, step, t) && Ready(w, c, step, t.results)
    && d == ExecuteStep(w, c, step, t.results, Asked(c, step, t.log))
    && Asked(c, step, t.log) + [At(Attempt(1), c.At(step.name))] <= d.log
  }

  ghost predicate TookTurn(w: World, c: Context, step: Step, t: Turn, next: Turn) {
    || PassedOver(w, c, step, t, next)
    || (exists d :: Ran(w, c, step, t, d) && d.result.status == Pass && next == Turn(d.results, d.log))
  }

  /** The step is run from here and fails, which is what `failure` tells; log is what it leaves. */
  ghost predicate FailedHere(w: World, c: Context, keyword: Keyword, step: Step, t: Turn, failure: Option<ErrorDetail>, log: Log) {
    exists d ::
      && Ran(w, c, step, t, d) && d.result.status == Fail && d.result.failure.Some? && d.log == log
      && failure == Some(ErrorDetail("keyword", step.name,
                                     KeywordStepFailed(keyword.name, step.name, d.result.failure.value.message)))
  }

  /** turns are the turns the steps take one after the other, the last one still open. */
  ghost predicate Turns(w: World, c: Context, steps: seq<Step>, turns: seq<Turn>) {
    && 0 < |turns| <= |steps| + 1
    && forall j | 0 <= j < |turns| - 1 :: TookTurn(w, c, steps[j], turns[j], turns[j + 1])
  }

  predicate CanRunSteps(w: World, c: Context, rest: seq<Step>, results: Results) {
    NameSet(rest) <= results.Keys && (rest != [] ==> StackOk(w, c.frames, results.Keys))
  }

  /** The first step takes its turn, and the others follow, or it fails and that is all. */
  lemma FirstTurn(w: World, c: Context, keyword: Keyword, rest: seq<Step>, results: Results, log: Log)
    returns (next: Option<Turn>)
    requires rest != [] && CanRunSteps(w, c, rest, results)
    ensures var k := KeywordSteps(w, c, keyword, rest, results, log);
            match next
            case None => FailedHere(w, c, keyword, rest[0], Turn(results, log), k.failure, k.log) && k.results == results
            case Some(t) =>
              && TookTurn(w, c, rest[0], Turn(results, log), t) && CanRunSteps(w, c, rest[1..], t.results)
              && k == KeywordSteps(w, c, keyword, rest[1..], t.results, t.log)
  {
    var step, t := rest[0], Turn(results, log);
    NameSetCons(rest);
    if WhenRefuses(w, c, step, t) {
      next := Some(Turn(results, Asked(c, step, log)));
      assert PassedOver(w, c, step, t, next.value);
    } else {
      var d := ExecuteStep(w, c, step, results, Asked(c, step, log));
      StartsWithAttempt(w, c, step, results, Asked(c, step, log));
      assert Ran(w, c, step, t, d);
      next := if d.result.status == Fail then None else Some(Turn(d.results, d.log));
    }
    hide ExecuteStep;
    hide StackOk;
    hide Logs;
  }

  /** A keyword's steps all get their turn, in order, until one fails: each is passed over because its
      `when`, asked there and then, does not hold, or is run and passes, and hands on what it left. The
      keyword reports no failure exactly when all have had theirs, and the failure of the last one that ran
      otherwise. */
  lemma {:induction false} KeywordStepsTakeTurns(
    w: World, c: Context, keyword: Keyword, rest: seq<Step>, results: Results, log: Log) returns (turns: seq<Turn>)
    requires CanRunSteps(w, c, rest, results)
    ensures var k := KeywordSteps(w, c, keyword, rest, results, log);
            && Turns(w, c, rest, turns) && turns[0] == Turn(results, log)
            && (k.failure.None? <==> |turns| == |rest| + 1)
            && (k.failure.None? ==> turns[|rest|] == Turn(k.results, k.log))
            && (k.failure.Some? ==>
                  && FailedHere(w, c, keyword, rest[|turns| - 1], turns[|turns| - 1], k.failure, k.log)
                  && k.results == turns[|turns| - 1].results)
    decreases |rest|
  {
    var here := Turn(results, log);
    if rest == [] {
      turns := [here];
    } else {
      var next := FirstTurn(w, c, keyword, rest, results, log);
      hide *;
      if next.None? {
        turns := [here];
        TurnsAlone(w, c, rest, here);
        var k := KeywordSteps(w, c, keyword, rest, results, log);
        FailureIsTold(w, c, keyword, rest[0], here, k.failure, k.log);
      } else {
        var later := KeywordStepsTakeTurns(w, c, keyword, rest[1..], next.value.results, next.value.log);
        turns := [here] + later;
        TurnsMore(w, c, rest, here, later);
      }
    }
  }

  lemma FailureIsTold(w: World, c: Context, keyword: Keyword, step: Step, t: Turn, failure: Option<ErrorDetail>, log: Log)
    requires FailedHere(w, c, keyword, step, t, failure, log)
    ensures failure.Some? && failure.value.path == step.name && failure.value.kind == "keyword"
  {
  }

  lemma TurnsAlone(w: World, c: Context, steps: seq<Step>, t: Turn)
    ensures Turns(w, c, steps, [t])
  {
  }

  lemma TurnsMore(w: World, c: Context, steps: seq<Step>, t: Turn, later: seq<Turn>)
    requires steps != [] && Turns(w, c, steps[1..], later) && TookTurn(w, c, steps[0], t, later[0])
    ensures Turns(w, c, steps, [t] + later)
    ensures ([t] + later)[|later|] == later[|later| - 1]
  {
    hide TookTurn;
    var turns := [t] + later;
    forall j | 0 <= j < |turns| - 1 ensures TookTurn(w, c, steps[j], turns[j], turns[j + 1]) {
      if j > 0 {
        assert TookTurn(w, c, steps[1..][j - 1], later[j - 1], later[j - 1 + 1]);
      }
    }
  }

  /** Event i shows that the step got its turn: its `when`, asked there, does not hold, or its first attempt
      is made, right after a `when` that holds if it has one. */
  predicate Reached(w: World, c: Context, step: Step, log: Log, i: nat, seen: Results) {
    && i < |log|
    && var site := c.At(step.name);
       || (step.when.Some? && log[i] == At(CheckWhen, site) && w.oracle.when(i, site, seen) != Holds)
       || (&& log[i] == At(Attempt(1), site)
           && (step.when.Some? ==> i > 0 && log[i - 1] == At(CheckWhen, site) && w.oracle.when(i - 1, site, seen) == Holds))
  }

  /** What a step's turn logs: where it shows, and nothing of other steps in this context. */
  ghost predicate LogsTurn(w: World, c: Context, step: Step, t: Turn, after: Log, i: nat) {
    && Logs(w, c, step.name, t.log, after)
    && |t.log| <= i && Reached(w, c, step, after, i, t.results)
  }

  lemma TurnIsLogged(w: World, c: Context, step: Step, t: Turn, next: Turn) returns (i: nat)
    requires KnownKeywords(w, c.frames) && NoKeywordTwice(c.frames) && TookTurn(w, c, step, t, next)
    ensures LogsTurn(w, c, step, t, next.log, i)
  {
    if PassedOver(w, c, step, t, next) {
      WhenIsWithin(w, c, step);
      i := |t.log|;
    } else {
      var d :| Ran(w, c, step, t, d) && next == Turn(d.results, d.log);
      i := RunIsLogged(w, c, step, t, d);
    }
  }

  lemma WhenIsWithin(w: World, c: Context, step: Step)
    requires KnownKeywords(w, c.frames) && NoKeywordTwice(c.frames)
    ensures Within(w, c, step.name, At(CheckWhen, c.At(step.name)))
  {
    assert c.frames[|c.frames|..] == [];
  }

  lemma RunIsLogged(w: World, c: Context, step: Step, t: Turn, d: Done) returns (i: nat)
    requires Ran(w, c, step, t, d)
    ensures LogsTurn(w, c, step, t, d.log, i) && d.log[i] == At(Attempt(1), c.At(step.name))
  {
    WhenIsWithin(w, c, step);
    hide Within;
    hide StackOk;
    hide ExecuteStep;
    i := |Asked(c, step, t.log)|;
    assert d.log[i] == At(Attempt(1), c.At(step.name));
    assert step.when.Some? ==> d.log[|t.log|] == At(CheckWhen, c.At(step.name));
  }

  /** e did not happen at the site of another step of this context. */
  predicate NotOfAnother(c: Context, name: string, e: Event) {
    e.At? && (e.site.frames == c.frames ==> e.site.step == name)
  }

  /** What has been shown stays shown, and is not about another step. */
  lemma LogsTurnStays(w: World, c: Context, step: Step, t: Turn, after: Log, i: nat, whole: Log)
    requires LogsTurn(w, c, step, t, after, i) && after <= whole
    ensures |t.log| <= i < |after| && Reached(w, c, step, whole, i, t.results)
    ensures forall k | |t.log| <= k < |after| :: NotOfAnother(c, step.name, whole[k])
  {
    forall k | |t.log| <= k < |after| ensures NotOfAnother(c, step.name, whole[k]) {
      assert Within(w, c, step.name, after[k]);
    }
  }

  /** at and seen are where the steps got their turns, and what each found. */
  predicate ReachedInOrder(w: World, c: Context, steps: seq<Step>, start: nat, log: Log, at: seq<nat>, seen: seq<Results>) {
    && |at| == |seen| <= |steps|
    && (forall j | 0 <= j < |at| :: start <= at[j] && Reached(w, c, steps[j], log, at[j], seen[j]))
    && (forall i, j | 0 <= i < j < |at| :: at[i] < at[j])
  }

  predicate Elsewhere(c: Context, step: Step, e: Event) {
    e.At? && e.site != c.At(step.name)
  }

  /** From `start` on, nothing happens at the sites of the steps from number n on. */
  predicate SilentFrom(c: Context, steps: seq<Step>, n: nat, start: nat, log: Log) {
    forall k, m | start <= k < |log| && n <= m < |steps| :: Elsewhere(c, steps[m], log[k])
  }

  lemma ReachedMore(w: World, c: Context, steps: seq<Step>, start: nat, next: nat, log: Log, i: nat, found: Results,
                    at: seq<nat>, seen: seq<Results>)
    requires steps != [] && start <= i < next && Reached(w, c, steps[0], log, i, found)
    requires ReachedInOrder(w, c, steps[1..], next, log, at, seen)
    ensures ReachedInOrder(w, c, steps, start, log, [i] + at, [found] + seen) && |at| < |steps|
  {
    hide Reached;
  }

  lemma SilentMore(c: Context, steps: seq<Step>, n: nat, start: nat, next: nat, log: Log)
    requires steps != [] && start <= next <= |log| && SilentFrom(c, steps[1..], n, next, log)
    requires forall k | start <= k < next :: NotOfAnother(c, steps[0].name, log[k])
    requires DistinctNames(steps)
    ensures SilentFrom(c, steps, n + 1, start, log)
  {
    forall k, m | start <= k < |log| && n + 1 <= m < |steps| ensures Elsewhere(c, steps[m], log[k]) {
      if k < next {
        assert NotOfAnother(c, steps[0].name, log[k]) && steps[m].name != steps[0].name;
      } else {
        assert Elsewhere(c, steps[1..][m - 1], log[k]);
      }
    }
  }

  /** In the log: every step up to the one that failed, and every step when none did, shows that it got its
      turn, in order; the failure is that of the last of them, which was attempted; and, names being
      distinct, nothing happens at the site of a step after it. */
  lemma {:induction false} KeywordStepsAreReached(
    w: World, c: Context, keyword: Keyword, rest: seq<Step>, results: Results, log: Log)
    returns (at: seq<nat>, seen: seq<Results>)
    requires CanRunSteps(w, c, rest, results)
    ensures var k := KeywordSteps(w, c, keyword, rest, results, log);
            && ReachedInOrder(w, c, rest, |log|, k.log, at, seen)
            && (k.failure.None? ==> |at| == |rest|)
            && (k.failure.Some? ==>
                  && at != [] && k.failure.value.path == rest[|at| - 1].name
                  && at[|at| - 1] < |k.log| && k.log[at[|at| - 1]] == At(Attempt(1), c.At(rest[|at| - 1].name)))
            && (DistinctNames(rest) ==> SilentFrom(c, rest, |at|, |log|, k.log))
    decreases |rest|
  {
    hide *;
    if rest == [] {
      NothingToReach(w, c, keyword, results, log);
      at, seen := [], [];
      return;
    }
    StackIsKnown(w, c, rest, results);
    DistinctRest(rest);
    var k := KeywordSteps(w, c, keyword, rest, results, log);
    var here := Turn(results, log);
    var next := FirstTurn(w, c, keyword, rest, results, log);
    if next.None? {
      var i := FailureIsLogged(w, c, keyword, rest[0], here, k.failure, k.log);
      LogsTurnStays(w, c, rest[0], here, k.log, i, k.log);
      ReachedAlone(w, c, rest, here, k.log, i);
      at, seen := [i], [results];
    } else {
      var i := TurnIsLogged(w, c, rest[0], here, next.value);
      LogsTurnStays(w, c, rest[0], here, next.value.log, i, k.log);
      var laterAt, laterSeen := KeywordStepsAreReached(w, c, keyword, rest[1..], next.value.results, next.value.log);
      ReachedMore(w, c, rest, |log|, |next.value.log|, k.log, i, results, laterAt, laterSeen);
      at, seen := [i] + laterAt, [results] + laterSeen;
      assert laterAt != [] ==> at[|at| - 1] == laterAt[|laterAt| - 1] && rest[|at| - 1] == rest[1..][|laterAt| - 1];
      if DistinctNames(rest) {
        SilentMore(c, rest, |laterAt|, |log|, |next.value.log|, k.log);
      }
    }
  }

  lemma NothingToReach(w: World, c: Context, keyword: Keyword, results: Results, log: Log)
    ensures CanRunSteps(w, c, [], results)
    ensures KeywordSteps(w, c, keyword, [], results, log) == KeywordDone(None, results, log)
    ensures ReachedInOrder(w, c, [], |log|, log, [], []) && SilentFrom(c, [], 0, |log|, log)
  {
  }

  lemma DistinctRest(steps: seq<Step>)
    requires steps != []
    ensures DistinctNames(steps) ==> DistinctNames(steps[1..])
  {
  }

  lemma StackIsKnown(w: World, c: Context, rest: seq<Step>, results: Results)
    requires rest != [] && CanRunSteps(w, c, rest, results)
    ensures KnownKeywords(w, c.frames) && NoKeywordTwice(c.frames)
    ensures NameSet(rest) <= results.Keys && StackOk(w, c.frames, results.Keys)
  {
  }

  lemma FailureIsLogged(w: World, c: Context, keyword: Keyword, step: Step, t: Turn, failure: Option<ErrorDetail>, log: Log)
    returns (i: nat)
    requires FailedHere(w, c, keyword, step, t, failure, log)
    ensures LogsTurn(w, c, step, t, log, i) && log[i] == At(Attempt(1), c.At(step.name))
    ensures failure.Some? && failure.value.path == step.name
  {
    FailureIsTold(w, c, keyword, step, t, failure, log);
    var d :| Ran(w, c, step, t, d) && d.log == log;
    i := RunIsLogged(w, c, step, t, d);
    hide Ran;
    hide LogsTurn;
  }

  lemma ReachedAlone(w: World, c: Context, steps: seq<Step>, t: Turn, log: Log, i: nat)
    requires steps != [] && |t.log| <= i && Reached(w, c, steps[0], log, i, t.results)
    requires forall k | |t.log| <= k < |log| :: NotOfAnother(c, steps[0].name, log[k])
    ensures ReachedInOrder(w, c, steps, |t.log|, log, [i], [t.results])
    ensures DistinctNames(steps) ==> SilentFrom(c, steps, 1, |t.log|, log)
  {
    hide Reached;
    if DistinctNames(steps) {
      forall k, m | |t.log| <= k < |log| && 1 <= m < |steps| ensures Elsewhere(c, steps[m], log[k]) {
        assert NotOfAnother(c, steps[0].name, log[k]) && steps[m].name != steps[0].name;
      }
    }
  }

  // ----- a keyword attempt, by what the oracle answered -----

  /** What a keyword attempt comes to before its call runs: it needs a call block, its variables, and an
      answer to what is called, asked in that order; and a known keyword given its inputs, whose step
      names are free and whose steps are in order. Otherwise it fails, saying which, and nothing is run. */
  lemma KeywordAttempt(w: World, c: Context, step: Step, results: Results, log: Log, n: nat)
    requires Ready(w, c, step, results) && step.provider == "keyword"
    ensures var d := AttemptStep(w, c, step, results, log, n);
            var site := c.At(step.name);
            var tried := log + [At(Attempt(n), site)];
            var ready := if step.vars == [] then tried else tried + [At(EvalVars, site)];
            var unbound := if step.vars == [] then None else w.oracle.vars(|tried|, site, results);
            var called := ready + [At(EvalCall, site)];
            if !step.hasKeywordCall then
              d == Done(FailResult(c, step, n, ErrorDetail("keyword", "", NoCallConfiguration)), results, tried)
            else if unbound.Some? then d == Done(FailResult(c, step, n, unbound.value), results, ready)
            else
              var answer := w.oracle.call(|ready|, site, results);
              if answer.Err? then d == Done(FailResult(c, step, n, ErrorDetail("eval", "", Text(answer.error))), results, called)
              else
                var target := answer.value;
                var accepted :=
                  && target.keyword in w.keywords
                  && w.keywords[target.keyword].inputs <= target.inputs.Keys
                  && NameSet(w.keywords[target.keyword].steps) !! results.Keys
                  && Refs.InOrder(w.keywords[target.keyword].steps, results.Keys);
                if accepted then CallError(w, results, target).None? && d == CallKeyword(w, c, step, results, called, n, target)
                else && d.result.status == Fail && d.result.failure.Some? && d.result.failure.value.kind == "keyword"
                     && d.results == results && d.log == called
  {
    var site := c.At(step.name);
    var tried := log + [At(Attempt(n), site)];
    var ready := if step.vars == [] then tried else tried + [At(EvalVars, site)];
    var answer := w.oracle.call(|ready|, site, results);
    if answer.Ok? {
      CallIsAccepted(w, c, step, results, ready + [At(EvalCall, site)], n, answer.value);
    }
    assert AttemptStep(w, c, step, results, log, n) == KeywordStep(w, c, step, results, tried, n);
    hide CallStep;
    hide CallKeyword;
    hide CallError;
    hide Refs.InOrder;
    hide Logs;
  }

  lemma CallIsAccepted(w: World, c: Context, step: Step, results: Results, log: Log, n: nat, target: CallTarget)
    requires Ready(w, c, step, results)
    ensures var d := CallStep(w, c, step, results, log, n, target);
            if CallError(w, results, target).None? then d == CallKeyword(w, c, step, results, log, n, target)
            else && d.result.status == Fail && d.result.failure.Some? && d.result.failure.value.kind == "keyword"
                 && d.results == results && d.log == log
  {
    hide CallKeyword;
    hide CallError;
    hide Logs;
  }

  /** The context of a called keyword: one frame deeper, seeded under the calling step's name, and with the
      call's inputs as input. */
  function Inside(c: Context, step: Step, target: CallTarget): Context {
    Context(InSteps, c.frames + [Frame(step.name, target.keyword)], Seeds.Push(c.scope, step.name), target.inputs)
  }

  /** The call itself: the keyword's steps take their turns from the caller's results and empty results of
      their own. The call fails with the failure of the one that failed, if any, and otherwise passes
      exactly when the outputs can be evaluated, in what the steps left; their value is then stored under
      the calling step, the empty object if the keyword has none. A failed call stores nothing. */
  lemma CallRunsTheKeyword(w: World, c: Context, step: Step, results: Results, log: Log, n: nat, target: CallTarget)
    returns (turns: seq<Turn>)
    requires Ready(w, c, step, results) && CallError(w, results, target).None?
    ensures var d := CallKeyword(w, c, step, results, log, n, target);
            var keyword, inside := w.keywords[target.keyword], Inside(c, step, target);
            && Turns(w, inside, keyword.steps, turns) && turns[0].log == log
            && turns[0].results
               == (map k | k in results.Keys + NameSet(keyword.steps) :: if k in results then results[k] else EmptyObject)
            && var last := turns[|turns| - 1];
               if |turns| <= |keyword.steps| then
                 && FailedHere(w, inside, keyword, keyword.steps[|turns| - 1], last, d.result.failure, d.log)
                 && d.result.status == Fail && d.results == results
               else if keyword.outputs == {} then
                 d == Done(PassResult(c, step, n), results[step.name := EmptyObject], last.log)
               else match w.oracle.outputs(|last.log|, inside.At(step.name), last.results)
                 case Ok(v) =>
                   d == Done(PassResult(c, step, n), results[step.name := v], last.log + [At(EvalOutputs, inside.At(step.name))])
                 case Err(text) =>
                   d == Done(FailResult(c, step, n, ErrorDetail("keyword", "", Text(text))), results,
                             last.log + [At(EvalOutputs, inside.At(step.name))])
  {
    var keyword, inside := w.keywords[target.keyword], Inside(c, step, target);
    EnterKeyword(w, c, step.name, results.Keys, target);
    assert inside == c.Call(step.name, target);
    assert CanRunSteps(w, inside, keyword.steps, KeywordState(results, keyword.steps));
    turns := KeywordStepsTakeTurns(w, inside, keyword, keyword.steps, KeywordState(results, keyword.steps), log);
    hide KeywordSteps;
    hide Turns;
    hide FailedHere;
    hide StackOk;
    hide Logs;
    hide Under;
  }

  /** What happens directly inside the call happens under it: at that frame, with that seed scope, and with
      the call's inputs. */
  lemma CallCarriesInputs(w: World, c: Context, step: Step, results: Results, log: Log, n: nat, target: CallTarget, i: nat)
    requires Ready(w, c, step, results) && CallError(w, results, target).None?
    requires |log| <= i < |CallKeyword(w, c, step, results, log, n, target).log|
    ensures var e := CallKeyword(w, c, step, results, log, n, target).log[i];
            && e.At? && |c.frames| < |e.site.frames|
            && c.frames + [Frame(step.name, target.keyword)] <= e.site.frames
            && (|e.site.frames| == |c.frames| + 1 ==>
                  && e.site.phase == InSteps && e.site.scope == Seeds.Push(c.scope, step.name)
                  && e.site.input == target.inputs)
  {
    var keyword := w.keywords[target.keyword];
    var inside := c.Call(step.name, target);
    EnterKeyword(w, c, step.name, results.Keys, target);
    var k := KeywordSteps(w, inside, keyword, keyword.steps, KeywordState(results, keyword.steps), log);
    var logO := KeywordOutputs(w, inside, step.name, keyword, k.results, k.log).1;
    var whole := CallKeyword(w, c, step, results, log, n, target).log;
    assert whole <= logO;
    assert Under(w, inside, whole[i]) by {
      assert i < |k.log| ==> whole[i] == k.log[i];
    }
    hide KeywordSteps;
    hide KeywordOutputs;
    assert Callers(whole[i].site.frames[|inside.frames|..]) == [] || |whole[i].site.frames| > |inside.frames|;
  }

  /** Keyword steps run one after the other and stop at the first failure: the second half of the
      list starts from what the first half left, and only if that did not fail. */
  lemma {:induction false} KeywordStepsCompose(
    w: World, c: Context, keyword: Keyword, first: seq<Step>, second: seq<Step>, results: Results, log: Log)
    requires NameSet(first + second) <= results.Keys && StackOk(w, c.frames, results.Keys)
    requires NameSet(first) <= results.Keys && NameSet(second) <= results.Keys
    ensures KeywordSteps(w, c, keyword, first + second, results, log)
         == var k := KeywordSteps(w, c, keyword, first, results, log);
            if k.failure.Some? then k else KeywordSteps(w, c, keyword, second, k.results, k.log)
    decreases |first|
  {
    hide ExecuteStep;
    if first == [] {
      assert first + second == second;
    } else {
      var step, all, rest := first[0], first + second, first[1..] + second;
      assert all[1..] == rest && all[0] == step;
      NameSetCons(all);
      NameSetCons(first);
      var site := c.At(step.name);
      var logW := if step.when.None? then log else log + [At(CheckWhen, site)];
      if step.when.Some? && w.oracle.when(|log|, site, results) != Holds {
        KeywordStepsCompose(w, c, keyword, first[1..], second, results, logW);
      } else {
        var d := ExecuteStep(w, c, step, results, logW);
        KeywordStepsCompose(w, c, keyword, first[1..], second, d.results, d.log);
      }
    }
  }

  /** A keyword whose steps get to run, and whose step names are distinct as the loader requires, has
      no dependency cycle: the names of the caller's state, external here, were refused before. */
  lemma KeywordStepsAreAcyclic(w: World, results: Results, target: CallTarget)
    requires CallError(w, results, target).None? && DistinctNames(w.keywords[target.keyword].steps)
    ensures Refs.Acyclic(w.keywords[target.keyword].steps)
  {
    Refs.DistinctNamesAreSafe(w.keywords[target.keyword].steps, results.Keys);
    Refs.NoDependencyCycle(w.keywords[target.keyword].steps, results.Keys);
  }
}
