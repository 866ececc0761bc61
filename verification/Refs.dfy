/** Load-time reference checks (internal/lang/refs.go) and what they promise the runtime
    (internal/runtime/runner.go, evaluateStepVars). */
module Refs {
  import opened Wrappers
  import opened Model

  // ----- collecting references -----

  function ResultRefs(exprs: seq<Expr>): set<string> {
    if exprs == [] then {} else exprs[0].resultRefs + ResultRefs(exprs[1..])
  }

  function VarRefs(exprs: seq<Expr>): set<string> {
    if exprs == [] then {} else exprs[0].varRefs + VarRefs(exprs[1..])
  }

  function VarExprs(vars: seq<StepVar>): seq<Expr> {
    seq(|vars|, i requires 0 <= i < |vars| => vars[i].expr)
  }

  function VarNames(vars: seq<StepVar>): set<string> {
    set i | 0 <= i < |vars| :: vars[i].name
  }

  /** Everything the step waits for: depends_on, and result.x in any collected expression. */
  function Dependencies(step: Step): set<string> {
    (set d | d in step.dependsOn)
    + (if step.when.Some? then step.when.value.resultRefs else {})
    + ResultRefs(VarExprs(step.vars)) + ResultRefs(step.body) + ResultRefs(step.skipRules)
  }

  lemma {:induction false} ResultRefsRead(exprs: seq<Expr>, d: string)
    ensures d in ResultRefs(exprs) <==> exists e :: e in exprs && d in e.resultRefs
  {
    if exprs != [] {
      ResultRefsRead(exprs[1..], d);
      assert forall e :: e in exprs <==> e == exprs[0] || e in exprs[1..];
    }
  }

  /** A step waits for d when depends_on names it, or when its `when`, a variable, an expression of its body
      or a skip rule reads result.d; and for nothing else. */
  lemma DependsOnExactly(step: Step, d: string)
    ensures d in Dependencies(step) <==>
              || d in step.dependsOn
              || (step.when.Some? && d in step.when.value.resultRefs)
              || (exists v :: v in step.vars && d in v.expr.resultRefs)
              || (exists e :: e in step.body && d in e.resultRefs)
              || (exists e :: e in step.skipRules && d in e.resultRefs)
  {
    ResultRefsRead(VarExprs(step.vars), d);
    ResultRefsRead(step.body, d);
    ResultRefsRead(step.skipRules, d);
    forall v | v in step.vars ensures v.expr in VarExprs(step.vars) {
      var i :| 0 <= i < |step.vars| && step.vars[i] == v;
      assert VarExprs(step.vars)[i] == v.expr;
    }
    forall e | e in VarExprs(step.vars) ensures exists v :: v in step.vars && v.expr == e {
      var i :| 0 <= i < |step.vars| && VarExprs(step.vars)[i] == e;
      assert step.vars[i].expr == e;
    }
  }

  method CollectResultRefs(exprs: seq<Expr>, into: set<string>) returns (deps: set<string>)
    ensures deps == into + ResultRefs(exprs)
  {
    deps := into;
    var i := 0;
    while i < |exprs|
      invariant 0 <= i <= |exprs|
      invariant deps + ResultRefs(exprs[i..]) == into + ResultRefs(exprs)
    {
      assert exprs[i..][1..] == exprs[i + 1..];
      deps := deps + exprs[i].resultRefs;
      i := i + 1;
    }
  }

  datatype OrderError =
    | DependsOnItself(step: string)
    | DefinedLater(step: string, dep: string)
    | UnknownDependency(step: string, dep: string)

  method StepDependencies(step: Step) returns (r: Result<set<string>, OrderError>)
    ensures r == if step.name in Dependencies(step) then Err(DependsOnItself(step.name)) else Ok(Dependencies(step))
  {
    var deps: set<string> := set d | d in step.dependsOn;
    if step.when.Some? {
      deps := deps + step.when.value.resultRefs;
    }
    deps := CollectResultRefs(VarExprs(step.vars), deps);
    deps := CollectResultRefs(step.body, deps);
    deps := CollectResultRefs(step.skipRules, deps);
    assert deps == Dependencies(step);
    if step.name in deps {
      return Err(DependsOnItself(step.name));
    }
    r := Ok(deps);
  }

  // ----- step order -----

  /** Step i reads only external names and names of earlier steps, and not itself. */
  predicate StepInOrder(steps: seq<Step>, external: set<string>, i: nat)
    requires i < |steps|
  {
    && steps[i].name !in Dependencies(steps[i])
    && Dependencies(steps[i]) <= external + NameSet(steps[..i])
  }

  predicate InOrder(steps: seq<Step>, external: set<string>) {
    forall i | 0 <= i < |steps| :: StepInOrder(steps, external, i)
  }

  /** e explains why step i is out of order. */
  ghost predicate Explains(steps: seq<Step>, external: set<string>, i: nat, e: OrderError)
    requires i < |steps|
  {
    var deps := Dependencies(steps[i]);
    && e.step == steps[i].name
    && match e
       case DependsOnItself(_) => steps[i].name in deps
       case DefinedLater(_, d) =>
         d in deps && d !in external && d !in NameSet(steps[..i]) && d in NameSet(steps) && d != steps[i].name
       case UnknownDependency(_, d) => d in deps && d !in external && d !in NameSet(steps)
  }

  /** ValidateStepOrder accepts exactly the lists in order; a rejection names the first step that is
      not, and a dependency that is really missing there. */
  method ValidateStepOrder(steps: seq<Step>, external: set<string>) returns (err: Option<OrderError>)
    ensures err.None? <==> InOrder(steps, external)
    ensures err.Some? ==> exists i :: 0 <= i < |steps| && Explains(steps, external, i, err.value)
                                   && forall j | 0 <= j < i :: StepInOrder(steps, external, j)
  {
    var known: set<string> := {};
    var k := 0;
    while k < |steps|
      invariant 0 <= k <= |steps|
      invariant known == NameSet(steps[..k])
    {
      known := known + {steps[k].name};
      k := k + 1;
    }
    assert steps[..|steps|] == steps;
    var seen: set<string> := {};
    var i := 0;
    while i < |steps|
      invariant 0 <= i <= |steps|
      invariant seen == NameSet(steps[..i])
      invariant forall j | 0 <= j < i :: StepInOrder(steps, external, j)
    {
      err := ValidateStepRefs(steps[i], seen, known, external);
      if err.Some? {
        assert Explains(steps, external, i, err.value) && !StepInOrder(steps, external, i);
        return;
      }
      seen := seen + {steps[i].name};
      i := i + 1;
    }
    err := None;
  }

  /** One step against the names seen so far, all names, and the external ones. */
  method ValidateStepRefs(step: Step, seen: set<string>, known: set<string>, external: set<string>)
    returns (err: Option<OrderError>)
    requires step.name in known
    ensures err.None? <==> step.name !in Dependencies(step) && Dependencies(step) <= external + seen
    ensures err.Some? ==>
              && err.value.step == step.name
              && match err.value
                 case DependsOnItself(_) => step.name in Dependencies(step)
                 case DefinedLater(_, d) => d in Dependencies(step) - external - seen && d in known && d != step.name
                 case UnknownDependency(_, d) => d in Dependencies(step) - external - seen && d !in known
  {
    var i := 0;
    while i < |step.dependsOn|
      invariant 0 <= i <= |step.dependsOn|
      invariant forall j | 0 <= j < i :: step.dependsOn[j] in external + seen + {step.name}
    {
      var dep := step.dependsOn[i];
      if dep != step.name && dep !in seen && dep !in external {
        assert dep in Dependencies(step) && dep !in external + seen;
        return Some(if dep in known then DefinedLater(step.name, dep) else UnknownDependency(step.name, dep));
      }
      i := i + 1;
    }
    var deps := StepDependencies(step);
    if deps.Err? {
      return Some(deps.error);
    }
    var todo := deps.value;
    while todo != {}
      invariant todo <= deps.value
      invariant deps.value - todo <= external + seen
      decreases todo
    {
      var dep :| dep in todo;
      if dep !in step.dependsOn && dep !in seen && dep !in external {
        return Some(if dep in known then DefinedLater(step.name, dep) else UnknownDependency(step.name, dep));
      }
      assert dep in external + seen;
      todo := todo - {dep};
    }
    err := None;
  }

  // ----- the dependency graph -----

  /** Step i depends on step j of the same list. */
  predicate Edge(steps: seq<Step>, i: nat, j: nat) {
    i < |steps| && j < |steps| && steps[j].name in Dependencies(steps[i])
  }

  /** p follows dependencies from its first to its last step. */
  ghost predicate DependencyPath(steps: seq<Step>, p: seq<nat>) {
    && |p| > 0 && p[0] < |steps|
    && forall k | 0 <= k < |p| - 1 :: Edge(steps, p[k], p[k + 1])
  }

  /** No path leads back to where it started. */
  ghost predicate Acyclic(steps: seq<Step>) {
    forall p | DependencyPath(steps, p) && |p| > 1 :: p[0] != p[|p| - 1]
  }

  /** No step may refer to a later one: its name is neither external nor the name of an even earlier
      step. */
  predicate NoNameForward(names: seq<string>, external: set<string>) {
    forall i, j | 0 <= i < j < |names| && names[i] != names[j] :: names[j] !in external && names[j] !in names[..i]
  }

  /** File order is a topological order of the dependencies. */
  lemma EdgesPointBackwards(steps: seq<Step>, external: set<string>, i: nat, j: nat)
    requires InOrder(steps, external) && NoNameForward(StepNames(steps), external)
    requires Edge(steps, i, j)
    ensures j < i
  {
    assert StepInOrder(steps, external, i);
    EarlierNames(steps, i);
    assert StepNames(steps)[i] == steps[i].name && StepNames(steps)[j] == steps[j].name;
  }

  lemma EarlierNames(steps: seq<Step>, n: nat)
    requires n <= |steps|
    ensures forall name | name in NameSet(steps[..n]) :: name in StepNames(steps)[..n]
  {
    forall name | name in NameSet(steps[..n]) ensures name in StepNames(steps)[..n] {
      var k :| 0 <= k < n && steps[..n][k].name == name;
      assert StepNames(steps)[..n][k] == name;
    }
  }

  /** So every dependency path strictly descends, and there is no cycle. */
  lemma {:induction false} PathsDescend(steps: seq<Step>, external: set<string>, p: seq<nat>)
    requires InOrder(steps, external) && NoNameForward(StepNames(steps), external)
    requires DependencyPath(steps, p) && |p| > 1
    ensures p[|p| - 1] < p[0]
  {
    var front := p[..|p| - 1];
    EdgesPointBackwards(steps, external, p[|p| - 2], p[|p| - 1]);
    if |p| > 2 {
      assert forall k | 0 <= k < |front| - 1 :: Edge(steps, front[k], front[k + 1]);
      PathsDescend(steps, external, front);
    }
  }

  lemma NoDependencyCycle(steps: seq<Step>, external: set<string>)
    requires InOrder(steps, external) && NoNameForward(StepNames(steps), external)
    ensures Acyclic(steps)
  {
    forall p | DependencyPath(steps, p) && |p| > 1 ensures p[0] != p[|p| - 1] {
      PathsDescend(steps, external, p);
    }
  }

  function Plain(name: string, dependsOn: seq<string>): Step {
    Step(name, "http", dependsOn, None, [], [], [], [], false, None)
  }

  /** Steps of these names, of which only i and j depend on anything: on each other. */
  function Mutual(names: seq<string>, i: nat, j: nat): seq<Step>
    requires i < |names| && j < |names|
  {
    seq(|names|, k requires 0 <= k < |names| =>
      Plain(names[k], if k == i then [names[j]] else if k == j then [names[i]] else []))
  }

  lemma MutualCycle(names: seq<string>, external: set<string>, i: nat, j: nat)
    requires i < j < |names| && names[i] != names[j]
    requires names[j] in external || names[j] in names[..i]
    ensures var steps := Mutual(names, i, j);
            StepNames(steps) == names && InOrder(steps, external) && !Acyclic(steps)
  {
    var steps := Mutual(names, i, j);
    assert StepNames(steps) == names;
    forall k | 0 <= k < |steps| ensures StepInOrder(steps, external, k) {
      assert Dependencies(steps[k]) == if k == i then {names[j]} else if k == j then {names[i]} else {};
      if k == i && names[j] in names[..i] {
        var h :| 0 <= h < i && names[..i][h] == names[j];
        assert steps[..i][h].name == names[j];
      }
      if k == j {
        assert steps[..j][i].name == names[i];
      }
    }
    var p: seq<nat> := [i, j, i];
    assert Edge(steps, p[0], p[1]) && Edge(steps, p[1], p[2]);
    assert DependencyPath(steps, p);
  }

  /** Exactly when validation rules out cycles: for lists of these names and these externals, the ones
      accepted are all acyclic if and only if no name can be referred to before its step. */
  lemma AcyclicExactly(names: seq<string>, external: set<string>)
    ensures (forall steps | StepNames(steps) == names && InOrder(steps, external) :: Acyclic(steps))
       <==> NoNameForward(names, external)
  {
    if NoNameForward(names, external) {
      forall steps | StepNames(steps) == names && InOrder(steps, external) ensures Acyclic(steps) {
        NoDependencyCycle(steps, external);
      }
    } else {
      var i: nat, j: nat :| i < j < |names| && names[i] != names[j] && (names[j] in external || names[j] in names[..i]);
      MutualCycle(names, external, i, j);
    }
  }

  /** Distinct names that are not external meet the condition; both callers provide them. */
  lemma DistinctNamesAreSafe(steps: seq<Step>, external: set<string>)
    requires DistinctNames(steps) && NameSet(steps) !! external
    ensures NoNameForward(StepNames(steps), external)
  {
    var names := StepNames(steps);
    forall i, j | 0 <= i < j < |names| && names[i] != names[j] ensures names[j] !in external && names[j] !in names[..i] {
      assert steps[j].name in NameSet(steps);
    }
  }

  /** The loader checks a scenario's steps, whose names are distinct, with nothing external. */
  lemma LoadedStepsAreAcyclic(steps: seq<Step>)
    requires DistinctNames(steps) && InOrder(steps, {})
    ensures Acyclic(steps)
  {
    DistinctNamesAreSafe(steps, {});
    NoDependencyCycle(steps, {});
  }

  // ----- step-local variables -----

  datatype VarsError =
    | ReferencesItself(variable: string)
    | NotYetDefined(variable: string, ref: string)
    | DuplicateVariable(variable: string)
    | UsedInWhen(ref: string)
    | UsedInSkipRule(ref: string)
    | UnknownVariable(ref: string)

  /** Every variable is new and reads only variables declared before it. */
  predicate DeclaredBeforeUse(vars: seq<StepVar>) {
    forall i | 0 <= i < |vars| ::
      vars[i].name !in VarNames(vars[..i]) && vars[i].expr.varRefs <= VarNames(vars[..i])
  }

  predicate VarsWellScoped(step: Step) {
    && DeclaredBeforeUse(step.vars)
    && (step.when.Some? ==> step.when.value.varRefs == {})
    && VarRefs(step.skipRules) == {}
    && VarRefs(step.body) <= VarNames(step.vars)
  }

  method CollectVarRefs(exprs: seq<Expr>) returns (seen: set<string>)
    ensures seen == VarRefs(exprs)
  {
    seen := {};
    var i := 0;
    while i < |exprs|
      invariant 0 <= i <= |exprs|
      invariant seen + VarRefs(exprs[i..]) == VarRefs(exprs)
    {
      assert exprs[i..][1..] == exprs[i + 1..];
      seen := seen + exprs[i].varRefs;
      i := i + 1;
    }
  }

  /** The variables before number i are well declared, and e is what is wrong with number i. */
  ghost predicate BadVariable(vars: seq<StepVar>, i: nat, e: VarsError)
    requires i < |vars|
  {
    var v, declared := vars[i], VarNames(vars[..i]);
    && DeclaredBeforeUse(vars[..i])
    && match e
       case ReferencesItself(name) => name == v.name && name in v.expr.varRefs
       case NotYetDefined(name, ref) => name == v.name && ref in v.expr.varRefs && ref !in declared && ref != name
       case DuplicateVariable(name) => name == v.name && name in declared && v.expr.varRefs <= declared
       case _ => false
  }

  /** e is the first thing wrong with the step, in the order variables, when, skip rules, body. */
  ghost predicate ExplainsVars(step: Step, e: VarsError) {
    match e
    case UsedInWhen(ref) => DeclaredBeforeUse(step.vars) && step.when.Some? && ref in step.when.value.varRefs
    case UsedInSkipRule(ref) =>
      && DeclaredBeforeUse(step.vars) && (step.when.Some? ==> step.when.value.varRefs == {})
      && ref in VarRefs(step.skipRules)
    case UnknownVariable(ref) =>
      && DeclaredBeforeUse(step.vars) && (step.when.Some? ==> step.when.value.varRefs == {})
      && VarRefs(step.skipRules) == {} && ref in VarRefs(step.body) && ref !in VarNames(step.vars)
    case _ => exists i :: 0 <= i < |step.vars| && BadVariable(step.vars, i, e)
  }

  lemma BadVariableRejects(vars: seq<StepVar>, i: nat, e: VarsError)
    requires i < |vars| && BadVariable(vars, i, e)
    ensures !DeclaredBeforeUse(vars)
  {
    var declared := VarNames(vars[..i]);
    assert vars[i].name in declared || !(vars[i].expr.varRefs <= declared);
  }

  /** One variable against the names declared before it. */
  method ValidateVariable(vars: seq<StepVar>, i: nat, declared: set<string>) returns (err: Option<VarsError>)
    requires i < |vars| && declared == VarNames(vars[..i]) && DeclaredBeforeUse(vars[..i])
    ensures err.None? ==> DeclaredBeforeUse(vars[..i + 1])
    ensures err.Some? ==> BadVariable(vars, i, err.value)
  {
    var v := vars[i];
    var todo := v.expr.varRefs;
    while todo != {}
      invariant todo <= v.expr.varRefs
      invariant v.expr.varRefs - todo <= declared - {v.name}
      decreases todo
    {
      var ref :| ref in todo;
      if ref == v.name {
        return Some(ReferencesItself(v.name));
      }
      if ref !in declared {
        return Some(NotYetDefined(v.name, ref));
      }
      todo := todo - {ref};
    }
    assert v.expr.varRefs - todo == v.expr.varRefs;
    if v.name in declared {
      return Some(DuplicateVariable(v.name));
    }
    GoodVariable(vars, i);
    err := None;
  }

  /** Accepts exactly the well-scoped steps; a rejection names what is wrong first. */
  method ValidateStepVars(step: Step) returns (err: Option<VarsError>)
    ensures err.None? <==> VarsWellScoped(step)
    ensures err.Some? ==> ExplainsVars(step, err.value)
  {
    var declared: set<string> := {};
    var i := 0;
    while i < |step.vars|
      invariant 0 <= i <= |step.vars|
      invariant declared == VarNames(step.vars[..i])
      invariant DeclaredBeforeUse(step.vars[..i])
    {
      err := ValidateVariable(step.vars, i, declared);
      if err.Some? {
        BadVariableRejects(step.vars, i, err.value);
        return;
      }
      assert step.vars[..i + 1] == step.vars[..i] + [step.vars[i]];
      declared := declared + {step.vars[i].name};
      i := i + 1;
    }
    assert step.vars[..|step.vars|] == step.vars;
    if step.when.Some? && step.when.value.varRefs != {} {
      var ref :| ref in step.when.value.varRefs;
      return Some(UsedInWhen(ref));
    }
    var inRules := CollectVarRefs(step.skipRules);
    if inRules != {} {
      var ref :| ref in inRules;
      return Some(UsedInSkipRule(ref));
    }
    var seen := CollectVarRefs(step.body);
    if !(seen <= declared) {
      var ref :| ref in seen && ref !in declared;
      return Some(UnknownVariable(ref));
    }
    err := None;
  }

  lemma GoodVariable(vars: seq<StepVar>, i: nat)
    requires i < |vars| && DeclaredBeforeUse(vars[..i])
    requires vars[i].name !in VarNames(vars[..i]) && vars[i].expr.varRefs <= VarNames(vars[..i])
    ensures DeclaredBeforeUse(vars[..i + 1])
  {
    forall k | 0 <= k < i + 1 ensures vars[..i + 1][..k] == vars[..i][..k] || k == i {
    }
    assert vars[..i + 1][..i] == vars[..i];
  }

  // ----- evaluating the variables -----

  /** One evaluation the runtime made: of which variable, with which values in sight. */
  datatype Evaluation<V> = Evaluation(variable: string, seen: map<string, V>)

  datatype VarFailure<E> = VarFailure(variable: string, error: E)

  /** The evaluation e of v succeeded, and next is what it saw with its value added. */
  ghost predicate Binds<V, E>(v: StepVar, eval: (Expr, map<string, V>) -> Result<V, E>, e: Evaluation<V>, next: map<string, V>) {
    var val := eval(v.expr, e.seen);
    val.Ok? && next == e.seen[v.name := val.value]
  }

  /** log are the first evaluations of the vars block in declaration order: the first sees nothing, each
      later one what its predecessor saw and returned. */
  ghost predicate EvaluatedInOrder<V, E>(vars: seq<StepVar>, eval: (Expr, map<string, V>) -> Result<V, E>, log: seq<Evaluation<V>>) {
    && |log| <= |vars|
    && (forall k | 0 <= k < |log| :: log[k].variable == vars[k].name && log[k].seen.Keys == VarNames(vars[..k]))
    && (log != [] ==> log[0].seen == map[])
    && forall k | 0 <= k < |log| - 1 :: Binds(vars[k], eval, log[k], log[k + 1].seen)
  }

  /** What the next evaluation sees after these. */
  ghost predicate Yields<V, E>(vars: seq<StepVar>, eval: (Expr, map<string, V>) -> Result<V, E>, log: seq<Evaluation<V>>, values: map<string, V>) {
    && EvaluatedInOrder(vars, eval, log)
    && values.Keys == VarNames(vars[..|log|])
    && if log == [] then values == map[] else Binds(vars[|log| - 1], eval, log[|log| - 1], values)
  }

  lemma VarNamesSnoc(vars: seq<StepVar>, n: nat)
    requires n < |vars|
    ensures VarNames(vars[..n + 1]) == VarNames(vars[..n]) + {vars[n].name}
  {
    assert vars[..n + 1] == vars[..n] + [vars[n]];
  }

  lemma NextEvaluation<V, E>(vars: seq<StepVar>, eval: (Expr, map<string, V>) -> Result<V, E>, log: seq<Evaluation<V>>, values: map<string, V>)
    requires Yields(vars, eval, log, values) && |log| < |vars|
    ensures EvaluatedInOrder(vars, eval, log + [Evaluation(vars[|log|].name, values)])
  {
    hide Binds;
    hide VarNames;
    var longer := log + [Evaluation(vars[|log|].name, values)];
    forall k | 0 <= k < |longer| - 1 ensures Binds(vars[k], eval, longer[k], longer[k + 1].seen) {
      assert longer[k] == log[k];
      assert k < |log| - 1 ==> longer[k + 1] == log[k + 1];
    }
  }

  lemma NextValue<V, E>(vars: seq<StepVar>, eval: (Expr, map<string, V>) -> Result<V, E>, log: seq<Evaluation<V>>, values: map<string, V>)
    requires Yields(vars, eval, log, values) && |log| < |vars| && eval(vars[|log|].expr, values).Ok?
    ensures var v := vars[|log|];
            Yields(vars, eval, log + [Evaluation(v.name, values)], values[v.name := eval(v.expr, values).value])
  {
    NextEvaluation(vars, eval, log, values);
    VarNamesSnoc(vars, |log|);
    hide EvaluatedInOrder;
    hide VarNames;
  }

  /** Evaluates the vars block in source order, accumulating the map each expression sees. */
  method EvaluateStepVars<V, E>(step: Step, eval: (Expr, map<string, V>) -> Result<V, E>)
    returns (r: Result<map<string, V>, VarFailure<E>>, log: seq<Evaluation<V>>)
    ensures EvaluatedInOrder(step.vars, eval, log)
    ensures r.Ok? ==> |log| == |step.vars| && Yields(step.vars, eval, log, r.value)
    ensures r.Err? ==>
              && |log| > 0
              && r.error.variable == step.vars[|log| - 1].name
              && eval(step.vars[|log| - 1].expr, log[|log| - 1].seen) == Err(r.error.error)
  {
    var values: map<string, V> := map[];
    log := [];
    var i := 0;
    while i < |step.vars|
      invariant 0 <= i <= |step.vars| && |log| == i
      invariant Yields(step.vars, eval, log, values)
    {
      NextEvaluation(step.vars, eval, log, values);
      var v := step.vars[i];
      var val := eval(v.expr, values);
      if val.Ok? {
        NextValue(step.vars, eval, log, values);
      }
      hide Yields;
      hide EvaluatedInOrder;
      log := log + [Evaluation(v.name, values)];
      if val.Err? {
        return Err(VarFailure(v.name, val.error)), log;
      }
      values := values[v.name := val.value];
      i := i + 1;
    }
    r := Ok(values);
  }

  /** Validation is what makes that safe: on a well-scoped step no evaluation reads an unbound
      variable, no variable is evaluated twice, and the collected body finds every name bound. */
  lemma ValidatedVarsAreBound<V, E>(step: Step, eval: (Expr, map<string, V>) -> Result<V, E>, log: seq<Evaluation<V>>)
    requires VarsWellScoped(step) && EvaluatedInOrder(step.vars, eval, log)
    ensures forall k | 0 <= k < |log| :: step.vars[k].expr.varRefs <= log[k].seen.Keys
    ensures forall j, k | 0 <= j < k < |log| :: log[j].variable != log[k].variable
    ensures |log| == |step.vars| ==> forall e | e in step.body :: e.varRefs <= VarNames(step.vars)
  {
    forall j, k | 0 <= j < k < |log| ensures log[j].variable != log[k].variable {
      assert step.vars[..k][j] == step.vars[j];
    }
    VarRefsBound(step.body, VarNames(step.vars));
  }

  /** And what an evaluation returned is what every later one sees: no value is overwritten. */
  lemma {:induction false} ValidatedValuesStay<V, E>(
    step: Step, eval: (Expr, map<string, V>) -> Result<V, E>, log: seq<Evaluation<V>>, j: nat, k: nat)
    requires VarsWellScoped(step) && EvaluatedInOrder(step.vars, eval, log) && j < k < |log|
    ensures var val := eval(step.vars[j].expr, log[j].seen);
            val.Ok? && step.vars[j].name in log[k].seen && log[k].seen[step.vars[j].name] == val.value
    decreases k
  {
    assert Binds(step.vars[k - 1], eval, log[k - 1], log[k - 1 + 1].seen);
    if j < k - 1 {
      ValidatedValuesStay(step, eval, log, j, k - 1);
      assert step.vars[..k - 1][j] == step.vars[j];
      assert step.vars[k - 1].name !in VarNames(step.vars[..k - 1]);
    }
  }

  /** Every expression of the step finds the variables it reads: those of the vars block what is
      declared before them, `when` and skip rules none, everything else all of them. */
  predicate AllUsesBound(step: Step) {
    && (forall i | 0 <= i < |step.vars| :: step.vars[i].expr.varRefs <= VarNames(step.vars[..i]))
    && (step.when.Some? ==> step.when.value.varRefs == {})
    && (forall e | e in step.skipRules :: e.varRefs == {})
    && (forall e | e in step.body + step.uncollected :: e.varRefs <= VarNames(step.vars))
  }

  /** Validation guarantees that exactly when the expressions the collectors do not visit happen to
      read declared variables only. */
  lemma AllUsesBoundExactly(step: Step)
    requires VarsWellScoped(step)
    ensures AllUsesBound(step) <==> VarRefs(step.uncollected) <= VarNames(step.vars)
  {
    VarRefsBound(step.uncollected, VarNames(step.vars));
    VarRefsBound(step.body, VarNames(step.vars));
    VarRefsBound(step.skipRules, {});
    assert forall e :: e in step.body + step.uncollected <==> e in step.body || e in step.uncollected;
  }

  lemma {:induction false} VarRefsBound(exprs: seq<Expr>, names: set<string>)
    ensures VarRefs(exprs) <= names <==> forall e | e in exprs :: e.varRefs <= names
  {
    if exprs != [] {
      VarRefsBound(exprs[1..], names);
      assert forall e :: e in exprs <==> e == exprs[0] || e in exprs[1..];
    }
  }

  /** That is not a given: an expression they do not visit passes validation with a variable nobody
      declared. */
  lemma UncollectedMayBeUnbound(name: string)
    ensures var step := Plain("s", []).(uncollected := [Expr({}, {name})]);
            VarsWellScoped(step) && !AllUsesBound(step)
  {
  }
}
