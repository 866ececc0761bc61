/** skip_if / skip_unless rules against the host (internal/runtime/skip.go). */
module SkipRules {
  import opened Wrappers

  /** An evaluated expression, as far as skip rules look into it. A list or map element that is not a
      string is None. */
  datatype Value =
    | Null
    | Bool(b: bool)
    | Str(s: string)
    | Strings(items: seq<Option<string>>)
    | Table(entries: map<string, Option<string>>)
    | Other

  /** An attribute that is not written is None; an expression may fail to evaluate. */
  type Attribute = Option<Result<Value, string>>

  datatype Kind = SkipIf | SkipUnless | UnknownKind

  datatype Rule = Rule(kind: Kind, os: Attribute, arch: Attribute, envSet: Attribute, env: Attribute,
                       condition: Attribute, reason: Attribute)

  datatype Host = Host(os: string, arch: string, env: map<string, string>)

  datatype Failure = BadAttribute(name: string) | BadKind | BadReason

  datatype Decision = Quiet | Skips(reason: Option<string>)

  // ----- what an attribute asks for -----

  predicate IsStringList(v: Result<Value, string>) {
    v.Ok? && v.value.Strings? && forall i | 0 <= i < |v.value.items| :: v.value.items[i].Some?
  }

  predicate IsStringTable(v: Result<Value, string>) {
    v.Ok? && (v.value.Null? || (v.value.Table? && forall k | k in v.value.entries :: v.value.entries[k].Some?))
  }

  predicate IsCondition(v: Result<Value, string>) {
    v.Ok? && (v.value.Null? || v.value.Bool?)
  }

  predicate Listed(v: Value, name: string) {
    v.Strings? && Some(name) in v.items
  }

  predicate AllSet(v: Value, host: Host) {
    v.Strings? && forall i | 0 <= i < |v.items| && v.items[i].Some? ::
      v.items[i].value in host.env && host.env[v.items[i].value] != ""
  }

  predicate AllEqual(v: Value, host: Host) {
    v.Table? && forall k | k in v.entries && v.entries[k].Some? :: k in host.env && host.env[k] == v.entries[k].value
  }

  /** The first attribute, in the order they are looked at, whose value is unusable. */
  function BadAttributeOf(r: Rule): Option<Failure> {
    if r.os.Some? && !IsStringList(r.os.value) then Some(BadAttribute("os"))
    else if r.arch.Some? && !IsStringList(r.arch.value) then Some(BadAttribute("arch"))
    else if r.envSet.Some? && !IsStringList(r.envSet.value) then Some(BadAttribute("env_set"))
    else if r.env.Some? && !IsStringTable(r.env.value) then Some(BadAttribute("env"))
    else if r.condition.Some? && !IsCondition(r.condition.value) then Some(BadAttribute("condition"))
    else None
  }

  /** Every written attribute is satisfied. */
  predicate Matches(r: Rule, host: Host) {
    && (r.os.Some? ==> r.os.value.Ok? && Listed(r.os.value.value, host.os))
    && (r.arch.Some? ==> r.arch.value.Ok? && Listed(r.arch.value.value, host.arch))
    && (r.envSet.Some? ==> r.envSet.value.Ok? && AllSet(r.envSet.value.value, host))
    && (r.env.Some? ==> r.env.value.Ok? && AllEqual(r.env.value.value, host))
    && (r.condition.Some? ==> r.condition.value == Ok(Bool(true)))
  }

  // ----- looking at one attribute -----

  method EvalStringList(v: Result<Value, string>) returns (items: Option<seq<string>>)
    ensures items.Some? <==> IsStringList(v)
    ensures items.Some? ==> |items.value| == |v.value.items|
    ensures items.Some? ==> forall i | 0 <= i < |items.value| :: v.value.items[i] == Some(items.value[i])
  {
    if v.Err? || !v.value.Strings? {
      return None;
    }
    var out: seq<string> := [];
    var i := 0;
    while i < |v.value.items|
      invariant 0 <= i <= |v.value.items| && |out| == i
      invariant forall j | 0 <= j < i :: v.value.items[j] == Some(out[j])
    {
      if v.value.items[i].None? {
        return None;
      }
      out := out + [v.value.items[i].value];
      i := i + 1;
    }
    items := Some(out);
  }

  method MatchList(v: Result<Value, string>, actual: string) returns (r: Option<bool>)
    ensures r == if IsStringList(v) then Some(Listed(v.value, actual)) else None
  {
    var items := EvalStringList(v);
    if items.None? {
      return None;
    }
    r := Some(actual in items.value);
    assert actual in items.value ==> exists i :: 0 <= i < |items.value| && v.value.items[i] == Some(actual);
  }

  method MatchEnvSet(v: Result<Value, string>, host: Host) returns (r: Option<bool>)
    ensures r == if IsStringList(v) then Some(AllSet(v.value, host)) else None
  {
    var names := EvalStringList(v);
    if names.None? {
      return None;
    }
    var missing := 0;
    var i := 0;
    while i < |names.value|
      invariant 0 <= i <= |names.value|
      invariant missing == 0 <==> forall j | 0 <= j < i :: names.value[j] in host.env && host.env[names.value[j]] != ""
    {
      if names.value[i] !in host.env || host.env[names.value[i]] == "" {
        missing := missing + 1;
      }
      i := i + 1;
    }
    assert forall j | 0 <= j < |names.value| :: v.value.items[j].value == names.value[j];
    r := Some(missing == 0);
  }

  /** The env map is visited in any order; the answer does not depend on it. */
  method MatchEnv(v: Result<Value, string>, host: Host) returns (r: Option<bool>)
    ensures r == if IsStringTable(v) then Some(AllEqual(v.value, host)) else None
  {
    if v.Err? {
      return None;
    }
    if v.value.Null? {
      return Some(false);
    }
    if !v.value.Table? {
      return None;
    }
    var entries, mismatches := v.value.entries, 0;
    var todo := entries.Keys;
    while todo != {}
      invariant todo <= entries.Keys
      invariant forall k | k in entries.Keys - todo :: entries[k].Some?
      invariant mismatches == 0 <==>
                forall k | k in entries.Keys - todo :: k in host.env && Some(host.env[k]) == entries[k]
      decreases todo
    {
      var name :| name in todo;
      if entries[name].None? {
        return None;
      }
      if name !in host.env || host.env[name] != entries[name].value {
        mismatches := mismatches + 1;
        assert name !in todo - {name};
      }
      todo := todo - {name};
    }
    assert entries.Keys - todo == entries.Keys;
    r := Some(mismatches == 0);
  }

  method MatchCondition(v: Result<Value, string>) returns (r: Option<bool>)
    ensures r == if IsCondition(v) then Some(v.value == Bool(true)) else None
  {
    if v.Err? || !(v.value.Null? || v.value.Bool?) {
      return None;
    }
    r := Some(v.value.Bool? && v.value.b);
  }

  // ----- rules -----

  method MatchSkipAttributes(rule: Rule, host: Host) returns (r: Result<bool, Failure>)
    ensures r == match BadAttributeOf(rule) case Some(f) => Err(f) case None => Ok(Matches(rule, host))
  {
    var matched := true;
    var ok: Option<bool>;
    if rule.os.Some? {
      ok := MatchList(rule.os.value, host.os);
      if ok.None? { return Err(BadAttribute("os")); }
      matched := matched && ok.value;
    }
    if rule.arch.Some? {
      ok := MatchList(rule.arch.value, host.arch);
      if ok.None? { return Err(BadAttribute("arch")); }
      matched := matched && ok.value;
    }
    if rule.envSet.Some? {
      ok := MatchEnvSet(rule.envSet.value, host);
      if ok.None? { return Err(BadAttribute("env_set")); }
      matched := matched && ok.value;
    }
    if rule.env.Some? {
      ok := MatchEnv(rule.env.value, host);
      if ok.None? { return Err(BadAttribute("env")); }
      matched := matched && ok.value;
    }
    if rule.condition.Some? {
      ok := MatchCondition(rule.condition.value);
      if ok.None? { return Err(BadAttribute("condition")); }
      matched := matched && ok.value;
    }
    r := Ok(matched);
  }

  /** What one rule decides. */
  predicate Triggers(rule: Rule, host: Host) {
    match rule.kind
    case SkipIf => Matches(rule, host)
    case SkipUnless => !Matches(rule, host)
    case UnknownKind => false
  }

  /** An explicit string wins; none, or null, falls back to the reasons collected while matching. */
  function ReasonOf(rule: Rule): Result<Option<string>, Failure> {
    match rule.reason
    case None => Ok(None)
    case Some(Ok(Null)) => Ok(None)
    case Some(Ok(Str(s))) => Ok(Some(s))
    case _ => Err(BadReason)
  }

  function DecisionOf(rule: Rule, host: Host): Result<Decision, Failure> {
    var bad := BadAttributeOf(rule);
    if bad.Some? then Err(bad.value)
    else if rule.kind.UnknownKind? then Err(BadKind)
    else if !Triggers(rule, host) then Ok(Quiet)
    else match ReasonOf(rule) case Ok(reason) => Ok(Skips(reason)) case Err(f) => Err(f)
  }

  method EvaluateSkipRule(rule: Rule, host: Host) returns (r: Result<Decision, Failure>)
    ensures r == DecisionOf(rule, host)
  {
    var matched := MatchSkipAttributes(rule, host);
    if matched.Err? {
      return Err(matched.error);
    }
    var triggered := false;
    match rule.kind {
      case SkipIf => triggered := matched.value;
      case SkipUnless => triggered := !matched.value;
      case UnknownKind => return Err(BadKind);
    }
    if !triggered {
      return Ok(Quiet);
    }
    var reason := ReasonOf(rule);
    r := if reason.Ok? then Ok(Skips(reason.value)) else Err(reason.error);
  }

  datatype RuleError = RuleError(index: nat, failure: Failure)

  /** What the rules from index i on decide. */
  function DecisionFrom(rules: seq<Rule>, host: Host, i: nat): Result<Decision, RuleError>
    requires i <= |rules|
    decreases |rules| - i
  {
    if i == |rules| then Ok(Quiet)
    else match DecisionOf(rules[i], host)
      case Err(f) => Err(RuleError(i, f))
      case Ok(Quiet) => DecisionFrom(rules, host, i + 1)
      case Ok(d) => Ok(d)
  }

  method EvaluateSkipRules(rules: seq<Rule>, host: Host) returns (r: Result<Decision, RuleError>)
    ensures r == DecisionFrom(rules, host, 0)
  {
    var i := 0;
    while i < |rules|
      invariant 0 <= i <= |rules|
      invariant DecisionFrom(rules, host, i) == DecisionFrom(rules, host, 0)
    {
      var decision := EvaluateSkipRule(rules[i], host);
      if decision.Err? {
        return Err(RuleError(i, decision.error));
      }
      if decision.value.Skips? {
        return Ok(decision.value);
      }
      i := i + 1;
    }
    r := Ok(Quiet);
  }

  /** Rule k is the first that is not quiet, and r is what it decides. */
  ghost predicate DecidedBy(rules: seq<Rule>, host: Host, k: nat, r: Result<Decision, RuleError>) {
    && k < |rules|
    && (forall j | 0 <= j < k :: DecisionOf(rules[j], host) == Ok(Quiet))
    && match DecisionOf(rules[k], host)
       case Err(f) => r == Err(RuleError(k, f))
       case Ok(d) => d.Skips? && r == Ok(d)
  }

  lemma {:induction false} LoudFrom(rules: seq<Rule>, host: Host, i: nat)
    requires i <= |rules| && forall j | 0 <= j < i :: DecisionOf(rules[j], host) == Ok(Quiet)
    ensures DecisionFrom(rules, host, i) == Ok(Quiet)
       <==> forall j | 0 <= j < |rules| :: DecisionOf(rules[j], host) == Ok(Quiet)
    ensures DecisionFrom(rules, host, i) != Ok(Quiet) ==> exists k :: DecidedBy(rules, host, k, DecisionFrom(rules, host, i))
    decreases |rules| - i
  {
    if i < |rules| {
      if DecisionOf(rules[i], host) == Ok(Quiet) {
        LoudFrom(rules, host, i + 1);
      } else {
        assert DecidedBy(rules, host, i, DecisionFrom(rules, host, i));
      }
    }
  }

  /** The first rule that is not quiet decides, be it a skip or an error; only if all are quiet does
      the scenario or step go ahead. */
  lemma FirstLoudRuleDecides(rules: seq<Rule>, host: Host)
    ensures DecisionFrom(rules, host, 0) == Ok(Quiet)
       <==> forall i | 0 <= i < |rules| :: DecisionOf(rules[i], host) == Ok(Quiet)
    ensures DecisionFrom(rules, host, 0) != Ok(Quiet) ==> exists k :: DecidedBy(rules, host, k, DecisionFrom(rules, host, 0))
  {
    LoudFrom(rules, host, 0);
  }

  lemma {:induction false} DecidesFrom(rules: seq<Rule>, host: Host, i: nat, k: nat, r: Result<Decision, RuleError>)
    requires i <= k && DecidedBy(rules, host, k, r)
    ensures DecisionFrom(rules, host, i) == r
    decreases k - i
  {
    if i < k {
      DecidesFrom(rules, host, i + 1, k, r);
    }
  }

  /** What the rules mean on a host, attribute by attribute: a skip_if rule skips, for the reason it gives,
      exactly when every attribute it writes is usable and satisfied; a skip_unless rule is quiet exactly
      then. */
  lemma RuleMeaning(rule: Rule, host: Host, reason: Option<string>)
    ensures var lists := (a: Attribute, name: string) =>
                           a.Some? ==> a.value.Ok? && a.value.value.Strings? && None !in a.value.value.items
                                       && Some(name) in a.value.value.items;
            var allHold :=
              && lists(rule.os, host.os)
              && lists(rule.arch, host.arch)
              && (rule.envSet.Some? ==>
                    && rule.envSet.value.Ok? && rule.envSet.value.value.Strings? && None !in rule.envSet.value.value.items
                    && forall name | Some(name) in rule.envSet.value.value.items :: name in host.env && host.env[name] != "")
              && (rule.env.Some? ==>
                    && rule.env.value.Ok? && rule.env.value.value.Table?
                    && forall name | name in rule.env.value.value.entries ::
                         name in host.env && rule.env.value.value.entries[name] == Some(host.env[name]))
              && (rule.condition.Some? ==> rule.condition.value == Ok(Bool(true)));
            var given := match reason
                         case Some(text) => rule.reason == Some(Ok(Str(text)))
                         case None => rule.reason == None || rule.reason == Some(Ok(Null));
            match rule.kind
            case SkipIf => DecisionOf(rule, host) == Ok(Skips(reason)) <==> allHold && given
            case SkipUnless => DecisionOf(rule, host) == Ok(Quiet) <==> allHold
            case UnknownKind => DecisionOf(rule, host).Err?
  {
  }

  /** skip_if and skip_unless over the same attributes are exact opposites: an unusable attribute is the
      same error for both, and otherwise, on every host, one of them is quiet and the other gives the
      reason, or the error in evaluating it. */
  lemma IfAndUnlessAreOpposite(rule: Rule, host: Host)
    ensures var yes, no := DecisionOf(rule.(kind := SkipIf), host), DecisionOf(rule.(kind := SkipUnless), host);
            var loud := match ReasonOf(rule) case Ok(reason) => Ok(Skips(reason)) case Err(f) => Err(f);
            match BadAttributeOf(rule)
            case Some(f) => yes == no == Err(f)
            case None => (yes == Ok(Quiet) && no == loud) || (yes == loud && no == Ok(Quiet))
  {
  }
}
