/** The structural JSON matcher (internal/assertion/json.go, internal/assertion/matcher.go). */
module Matcher {
  import opened Wrappers

  datatype Type =
    | DynamicT | StringT | NumberT | BoolT
    | ListT(elem: Type) | MapT(elem: Type) | SetT(elem: Type)
    | TupleT(elems: seq<Type>) | ObjectT(attrs: map<string, Type>)

  /** A known cty value. Equality of two of these, types included, is cty's RawEquals. */
  datatype Value =
    | Null(ty: Type)
    | Str(s: string)
    | Num(n: real)
    | Bool(b: bool)
    | Obj(attrs: map<string, Value>)
    | Map(elemType: Type, attrs: map<string, Value>)
    | List(elemType: Type, elems: seq<Value>)
    | Tuple(elems: seq<Value>)
    | Set(elemType: Type, members: set<Value>)

  const MATCHER_KEY := "__tales_matcher"

  const BUILT_IN := {"exists", "not_exists", "any", "is_string", "is_number", "is_bool", "is_array", "is_object",
                     "contains", "one_of"}

  /** Matchers whose meaning is left to a parameter: regular expressions, uuids and numeric thresholds. */
  const EXTERNAL_MATCHERS := {"matches", "uuid", "lt", "lte", "gt", "gte", "between"}

  type External = (string, map<string, Value>, Value) -> bool

  datatype Call = Call(name: string, args: map<string, Value>)

  /** The cty type of a value. */
  function TypeOf(v: Value): Type {
    match v
    case Null(ty) => ty
    case Str(_) => StringT
    case Num(_) => NumberT
    case Bool(_) => BoolT
    case Obj(attrs) => ObjectT(map k | k in attrs :: TypeOf(attrs[k]))
    case Map(elem, _) => MapT(elem)
    case List(elem, _) => ListT(elem)
    case Tuple(elems) => TupleT(seq(|elems|, i requires 0 <= i < |elems| => TypeOf(elems[i])))
    case Set(elem, _) => SetT(elem)
  }

  function IsMatcher(v: Value): Option<Call> {
    if v.Obj? && MATCHER_KEY in v.attrs && v.attrs[MATCHER_KEY].Str?
    then Some(Call(v.attrs[MATCHER_KEY].s, v.attrs - {MATCHER_KEY}))
    else None
  }

  datatype Wrapper = Wrapper(optional: bool, inner: Value)

  /** A well-formed optional(x) or required(x). */
  function FieldWrapper(v: Value): (w: Option<Wrapper>)
    ensures w.Some? ==> v.Obj? && "value" in v.attrs && w.value.inner == v.attrs["value"]
  {
    var m := IsMatcher(v);
    if m.Some? && (m.value.name == "optional" || m.value.name == "required") && "value" in m.value.args
    then Some(Wrapper(m.value.name == "optional", m.value.args["value"]))
    else None
  }

  predicate IsArray(v: Value) { v.List? || v.Tuple? }
  predicate IsObject(v: Value) { v.Obj? || v.Map? }

  predicate OccursAt(s: string, t: string, i: nat) {
    i + |t| <= |s| && s[i..i + |t|] == t
  }

  predicate HasSubstring(s: string, t: string) {
    exists i | 0 <= i <= |s| :: OccursAt(s, t, i)
  }

  /** The verdict of a matcher that is not a field wrapper; an unknown name never matches. */
  predicate Applies(ext: External, call: Call, actual: Value) {
    match call.name
    case "exists" => !actual.Null?
    case "not_exists" => actual.Null?
    case "any" => true
    case "is_string" => actual.Str? || actual == Null(StringT)
    case "is_number" => actual.Num? || actual == Null(NumberT)
    case "is_bool" => actual.Bool? || actual == Null(BoolT)
    case "is_array" => IsArray(actual) || (actual.Null? && (actual.ty.ListT? || actual.ty.TupleT?))
    case "is_object" => IsObject(actual) || (actual.Null? && (actual.ty.ObjectT? || actual.ty.MapT?))
    case "contains" =>
      && "value" in call.args
      && (if actual.Str? && call.args["value"].Str? then HasSubstring(actual.s, call.args["value"].s)
          else IsArray(actual) && call.args["value"] in actual.elems)
    case "one_of" => "value" in call.args && IsArray(call.args["value"]) && actual in call.args["value"].elems
    case _ => call.name in EXTERNAL_MATCHERS && ext(call.name, call.args, actual)
  }

  /** An expectation under which a missing key passes. */
  predicate AbsentOk(expected: Value) {
    var m := IsMatcher(expected);
    var w := FieldWrapper(expected);
    (w.Some? && w.value.optional) || (m.Some? && m.value.name == "not_exists")
  }

  // ----- the meaning of a match -----

  predicate Matches(ext: External, expected: Value, actual: Value, strict: bool)
    decreases expected
  {
    var w := FieldWrapper(expected);
    var m := IsMatcher(expected);
    if w.Some? then Matches(ext, w.value.inner, actual, strict)
    else if m.Some? then Applies(ext, m.value, actual)
    else match expected
      case Null(_) => actual.Null?
      case Obj(fields) =>
        && IsObject(actual)
        && (forall k | k in fields :: if k in actual.attrs then Matches(ext, fields[k], actual.attrs[k], strict) else AbsentOk(fields[k]))
        && (strict ==> actual.attrs.Keys <= fields.Keys)
      case Tuple(items) =>
        && IsArray(actual) && |items| == |actual.elems|
        && (forall i | 0 <= i < |items| :: Matches(ext, items[i], actual.elems[i], strict))
      case List(_, items) =>
        && IsArray(actual) && |items| == |actual.elems|
        && (forall i | 0 <= i < |items| :: Matches(ext, items[i], actual.elems[i], strict))
      case _ => expected == actual
  }

  // ----- trees: what a value says once list/tuple and object/map are identified -----

  datatype Tree =
    | Nothing | Text(s: string) | Number(n: real) | Truth(b: bool)
    | Fields(fields: map<string, Tree>) | Items(items: seq<Tree>) | Opaque(v: Value)

  function TreeOf(v: Value): Tree {
    match v
    case Null(_) => Nothing
    case Str(s) => Text(s)
    case Num(n) => Number(n)
    case Bool(b) => Truth(b)
    case Obj(attrs) => Fields(map k | k in attrs :: TreeOf(attrs[k]))
    case Map(_, attrs) => Fields(map k | k in attrs :: TreeOf(attrs[k]))
    case List(_, elems) => Items(seq(|elems|, i requires 0 <= i < |elems| => TreeOf(elems[i])))
    case Tuple(elems) => Items(seq(|elems|, i requires 0 <= i < |elems| => TreeOf(elems[i])))
    case Set(_, _) => Opaque(v)
  }

  /** s occurs in t: equal leaves, arrays item by item, objects on at least the fields of s. */
  predicate Embeds(s: Tree, t: Tree) {
    match s
    case Fields(f) => t.Fields? && f.Keys <= t.fields.Keys && forall k | k in f :: k in t.fields && Embeds(f[k], t.fields[k])
    case Items(a) => t.Items? && |a| == |t.items| && forall i | 0 <= i < |a| :: Embeds(a[i], t.items[i])
    case _ => s == t
  }

  /** No matcher occurs anywhere in the expectation. */
  predicate NoNestedMatcher(v: Value)
    decreases v
  {
    IsMatcher(v).None? &&
    match v
    case Obj(attrs) => forall k | k in attrs :: NoNestedMatcher(attrs[k])
    case List(_, elems) => forall i | 0 <= i < |elems| :: NoNestedMatcher(elems[i])
    case Tuple(elems) => forall i | 0 <= i < |elems| :: NoNestedMatcher(elems[i])
    case _ => true
  }

  /** No map-typed value is reached through objects, lists and tuples. */
  predicate NoMapPart(v: Value) {
    match v
    case Obj(attrs) => forall k | k in attrs :: NoMapPart(attrs[k])
    case List(_, elems) => forall i | 0 <= i < |elems| :: NoMapPart(elems[i])
    case Tuple(elems) => forall i | 0 <= i < |elems| :: NoMapPart(elems[i])
    case Map(_, _) => false
    case _ => true
  }

  predicate TreeMatch(s: Tree, t: Tree, strict: bool) {
    if strict then s == t else Embeds(s, t)
  }

  /** A literal object asks for its own keys, and strictly for no others. */
  lemma LiteralObject(ext: External, fields: map<string, Value>, actual: Value, strict: bool)
    requires NoNestedMatcher(Obj(fields)) && IsObject(actual)
    ensures Matches(ext, Obj(fields), actual, strict) <==>
              && fields.Keys <= actual.attrs.Keys
              && (strict ==> actual.attrs.Keys <= fields.Keys)
              && forall k | k in fields :: Matches(ext, fields[k], actual.attrs[k], strict)
  {
  }

  lemma LiteralFields(ext: External, fields: map<string, Value>, actual: Value, strict: bool)
    requires NoNestedMatcher(Obj(fields)) && IsObject(actual)
    requires forall k | k in fields && k in actual.attrs ::
               Matches(ext, fields[k], actual.attrs[k], strict) <==> TreeMatch(TreeOf(fields[k]), TreeOf(actual.attrs[k]), strict)
    ensures Matches(ext, Obj(fields), actual, strict) <==> TreeMatch(TreeOf(Obj(fields)), TreeOf(actual), strict)
  {
    hide Matches;
    hide TreeMatch;
    LiteralObject(ext, fields, actual, strict);
    if strict {
      StrictTrees(fields, actual);
    } else {
      PartialTrees(fields, actual);
    }
  }

  lemma StrictTrees(fields: map<string, Value>, actual: Value)
    requires IsObject(actual)
    ensures TreeMatch(TreeOf(Obj(fields)), TreeOf(actual), true) <==>
              && fields.Keys == actual.attrs.Keys
              && forall k | k in fields :: TreeMatch(TreeOf(fields[k]), TreeOf(actual.attrs[k]), true)
  {
    var expected, got := TreeOf(Obj(fields)), TreeOf(actual);
    assert expected.fields.Keys == fields.Keys && got.fields.Keys == actual.attrs.Keys;
    assert forall k | k in fields :: expected.fields[k] == TreeOf(fields[k]);
    assert forall k | k in actual.attrs :: got.fields[k] == TreeOf(actual.attrs[k]);
    hide TreeOf;
    if fields.Keys == actual.attrs.Keys && forall k | k in fields :: TreeOf(fields[k]) == TreeOf(actual.attrs[k]) {
      assert expected.fields == got.fields;
    }
  }

  lemma PartialTrees(fields: map<string, Value>, actual: Value)
    requires IsObject(actual)
    ensures TreeMatch(TreeOf(Obj(fields)), TreeOf(actual), false) <==>
              && fields.Keys <= actual.attrs.Keys
              && forall k | k in fields :: TreeMatch(TreeOf(fields[k]), TreeOf(actual.attrs[k]), false)
  {
    var s, t := TreeOf(Obj(fields)).fields, TreeOf(actual).fields;
    assert s.Keys == fields.Keys && t.Keys == actual.attrs.Keys;
    assert forall k | k in fields :: s[k] == TreeOf(fields[k]);
    assert forall k | k in actual.attrs :: t[k] == TreeOf(actual.attrs[k]);
  }

  /** Without matchers and map-typed parts, strict matching is equality of trees and partial matching is
      embedding. */
  lemma {:induction false} LiteralMatch(ext: External, expected: Value, actual: Value, strict: bool)
    requires NoNestedMatcher(expected) && NoMapPart(expected)
    ensures Matches(ext, expected, actual, strict) <==>
            TreeMatch(TreeOf(expected), TreeOf(actual), strict)
    decreases expected
  {
    match expected
    case Obj(fields) =>
      if IsObject(actual) {
        forall k | k in fields && k in actual.attrs
          ensures Matches(ext, fields[k], actual.attrs[k], strict) <==>
                  TreeMatch(TreeOf(fields[k]), TreeOf(actual.attrs[k]), strict)
        {
          LiteralMatch(ext, fields[k], actual.attrs[k], strict);
        }
        LiteralFields(ext, fields, actual, strict);
      }
    case Tuple(items) => LiteralItems(ext, items, expected, actual, strict);
    case List(_, items) => LiteralItems(ext, items, expected, actual, strict);
    case _ =>
  }

  lemma {:induction false} LiteralItems(ext: External, items: seq<Value>, expected: Value, actual: Value, strict: bool)
    requires IsArray(expected) && items == expected.elems && NoNestedMatcher(expected) && NoMapPart(expected)
    ensures Matches(ext, expected, actual, strict) <==>
            TreeMatch(TreeOf(expected), TreeOf(actual), strict)
    decreases expected, 0
  {
    if IsArray(actual) && |items| == |actual.elems| {
      forall i | 0 <= i < |items|
        ensures Matches(ext, items[i], actual.elems[i], strict) <==>
                TreeMatch(TreeOf(items[i]), TreeOf(actual.elems[i]), strict)
      {
        LiteralMatch(ext, items[i], actual.elems[i], strict);
      }
      var te, ta := TreeOf(expected).items, TreeOf(actual).items;
      assert |te| == |items| && |ta| == |items|;
      assert forall i | 0 <= i < |items| :: te[i] == TreeOf(items[i]) && ta[i] == TreeOf(actual.elems[i]);
    } else if IsArray(actual) {
      assert |TreeOf(expected).items| == |items| && |TreeOf(actual).items| == |actual.elems|;
    }
  }

  /** The same value with every map-typed part written as an object. */
  function Objectify(v: Value): Value {
    match v
    case Obj(attrs) => Obj(map k | k in attrs :: Objectify(attrs[k]))
    case List(_, elems) => Tuple(seq(|elems|, i requires 0 <= i < |elems| => Objectify(elems[i])))
    case Tuple(elems) => Tuple(seq(|elems|, i requires 0 <= i < |elems| => Objectify(elems[i])))
    case Map(_, attrs) => Obj(attrs)
    case _ => v
  }

  lemma {:induction false} ObjectifyKeepsTree(v: Value)
    ensures TreeOf(Objectify(v)) == TreeOf(v)
  {
    match v
    case Obj(attrs) =>
      forall k | k in attrs ensures TreeOf(Objectify(attrs[k])) == TreeOf(attrs[k]) { ObjectifyKeepsTree(attrs[k]); }
      assert TreeOf(Objectify(v)).fields == TreeOf(v).fields;
    case List(_, elems) =>
      forall i | 0 <= i < |elems| ensures TreeOf(Objectify(elems[i])) == TreeOf(elems[i]) { ObjectifyKeepsTree(elems[i]); }
      assert TreeOf(Objectify(v)).items == TreeOf(v).items;
    case Tuple(elems) =>
      forall i | 0 <= i < |elems| ensures TreeOf(Objectify(elems[i])) == TreeOf(elems[i]) { ObjectifyKeepsTree(elems[i]); }
      assert TreeOf(Objectify(v)).items == TreeOf(v).items;
    case _ =>
  }

  lemma {:induction false} MapPartRefusesObject(ext: External, v: Value, strict: bool)
    requires NoNestedMatcher(v) && !NoMapPart(v)
    ensures !Matches(ext, v, Objectify(v), strict)
    decreases v
  {
    match v
    case Obj(attrs) =>
      var k :| k in attrs && !NoMapPart(attrs[k]);
      MapPartRefusesObject(ext, attrs[k], strict);
    case List(_, elems) =>
      var i :| 0 <= i < |elems| && !NoMapPart(elems[i]);
      MapPartRefusesObject(ext, elems[i], strict);
    case Tuple(elems) =>
      var i :| 0 <= i < |elems| && !NoMapPart(elems[i]);
      MapPartRefusesObject(ext, elems[i], strict);
    case _ =>
  }

  lemma {:induction false} EmbedsItself(t: Tree)
    ensures Embeds(t, t)
  {
    match t
    case Fields(f) => forall k | k in f ensures Embeds(f[k], f[k]) { EmbedsItself(f[k]); }
    case Items(a) => forall i | 0 <= i < |a| ensures Embeds(a[i], a[i]) { EmbedsItself(a[i]); }
    case _ =>
  }

  /** In either mode, a matcher-free expectation is compared by its tree exactly when it has no
      map-typed part: as an expectation a map, unlike an object, is compared with its type. */
  lemma MatchIsTreeMatchExactly(ext: External, v: Value, strict: bool)
    requires NoNestedMatcher(v)
    ensures (forall actual :: Matches(ext, v, actual, strict) <==> TreeMatch(TreeOf(v), TreeOf(actual), strict))
       <==> NoMapPart(v)
  {
    if NoMapPart(v) {
      forall actual ensures Matches(ext, v, actual, strict) <==> TreeMatch(TreeOf(v), TreeOf(actual), strict) {
        LiteralMatch(ext, v, actual, strict);
      }
    } else {
      ObjectifyKeepsTree(v);
      MapPartRefusesObject(ext, v, strict);
      EmbedsItself(TreeOf(v));
    }
  }

  /** The smallest such case: headers taken from an earlier mail step, as the expected value, do not
      match the same headers parsed from JSON. */
  lemma MapExpectationRefusesObject(ext: External, key: string, value: string, strict: bool)
    ensures var headers := map[key := Str(value)];
            && TreeOf(Map(StringT, headers)) == TreeOf(Obj(headers))
            && !Matches(ext, Map(StringT, headers), Obj(headers), strict)
  {
  }

  /** Whatever matches strictly matches partially, matchers and wrappers included. */
  lemma {:induction false} StrictImpliesPartial(ext: External, expected: Value, actual: Value)
    requires Matches(ext, expected, actual, true)
    ensures Matches(ext, expected, actual, false)
    decreases expected
  {
    var w := FieldWrapper(expected);
    if w.Some? {
      StrictImpliesPartial(ext, w.value.inner, actual);
    } else if IsMatcher(expected).None? {
      match expected
      case Obj(fields) =>
        forall k | k in fields && k in actual.attrs ensures Matches(ext, fields[k], actual.attrs[k], false) {
          StrictImpliesPartial(ext, fields[k], actual.attrs[k]);
        }
      case Tuple(items) =>
        forall i | 0 <= i < |items| ensures Matches(ext, items[i], actual.elems[i], false) {
          StrictImpliesPartial(ext, items[i], actual.elems[i]);
        }
      case List(_, items) =>
        forall i | 0 <= i < |items| ensures Matches(ext, items[i], actual.elems[i], false) {
          StrictImpliesPartial(ext, items[i], actual.elems[i]);
        }
      case _ =>
    }
  }

  function Required(x: Value): Value {
    Obj(map[MATCHER_KEY := Str("required"), "value" := x])
  }

  /** Among other fields, wrapping one in required(...) changes nothing exactly when its bare form does
      not tolerate a missing key, or the other fields accept no object without that key anyway. */
  lemma RequiredInContext(ext: External, others: map<string, Value>, key: string, x: Value)
    requires IsMatcher(Obj(others[key := x])).None?
    ensures var bare, wrapped := Obj(others[key := x]), Obj(others[key := Required(x)]);
            (forall actual, strict :: Matches(ext, wrapped, actual, strict) == Matches(ext, bare, actual, strict))
            <==> (!AbsentOk(x) || forall actual, strict | IsObject(actual) && key !in actual.attrs ::
                                    !Matches(ext, bare, actual, strict))
  {
  }

  /** The documentation calls required(...) a no-op. For a field on its own it is one exactly on
      expectations that do not tolerate a missing key: required(not_exists()) and
      required(optional(x)) refuse the absence that their bare forms accept. */
  lemma RequiredIsNoOpExactly(ext: External, key: string, x: Value)
    requires key != MATCHER_KEY || !x.Str?
    ensures (forall actual, strict ::
               Matches(ext, Obj(map[key := Required(x)]), actual, strict) == Matches(ext, Obj(map[key := x]), actual, strict))
            <==> !AbsentOk(x)
  {
    RequiredInContext(ext, map[], key, x);
    assert map[][key := x] == map[key := x] && map[][key := Required(x)] == map[key := Required(x)];
    var nothing := Obj(map[]);
    assert Matches(ext, Obj(map[key := x]), nothing, false) == AbsentOk(map[key := x][key]);
  }

  // ----- the loops that decide it -----

  datatype Segment = Field(key: string) | Index(i: nat)

  /** Following `path` inside both values ends at a place where they genuinely disagree. */
  predicate Blames(ext: External, expected: Value, actual: Value, strict: bool, path: seq<Segment>)
    decreases expected
  {
    var w := FieldWrapper(expected);
    var m := IsMatcher(expected);
    if w.Some? then Blames(ext, w.value.inner, actual, strict, path)
    else if m.Some? then path == [] && !Applies(ext, m.value, actual)
    else if expected.Null? then path == [] && !actual.Null?
    else if expected.Obj? && IsObject(actual) then
      if path == [] then strict && !(actual.attrs.Keys <= expected.attrs.Keys)
      else
        && path[0].Field? && path[0].key in expected.attrs
        && (if path[0].key in actual.attrs
            then Blames(ext, expected.attrs[path[0].key], actual.attrs[path[0].key], strict, path[1..])
            else path[1..] == [] && !AbsentOk(expected.attrs[path[0].key]))
    else if IsArray(expected) && IsArray(actual) && |expected.elems| == |actual.elems| then
      && path != [] && path[0].Index? && path[0].i < |expected.elems|
      && Blames(ext, expected.elems[path[0].i], actual.elems[path[0].i], strict, path[1..])
    else path == [] && expected != actual
  }

  /** A blamed place refutes the match. */
  lemma {:induction false} BlameRefutes(ext: External, expected: Value, actual: Value, strict: bool, path: seq<Segment>)
    requires Blames(ext, expected, actual, strict, path)
    ensures !Matches(ext, expected, actual, strict)
    decreases expected
  {
    var w := FieldWrapper(expected);
    if w.Some? {
      BlameRefutes(ext, w.value.inner, actual, strict, path);
    } else if IsMatcher(expected).None? && path != [] {
      match path[0]
      case Field(k) =>
        if k in actual.attrs {
          BlameRefutes(ext, expected.attrs[k], actual.attrs[k], strict, path[1..]);
        }
      case Index(i) =>
        BlameRefutes(ext, expected.elems[i], actual.elems[i], strict, path[1..]);
    }
  }

  /** The result of matching below `path`: nothing when it matches, else a path to a genuine mismatch. */
  ghost predicate Decides(ext: External, expected: Value, actual: Value, strict: bool, path: seq<Segment>, r: Option<seq<Segment>>) {
    && (r.None? <==> Matches(ext, expected, actual, strict))
    && (r.Some? ==> path <= r.value && Blames(ext, expected, actual, strict, r.value[|path|..]))
  }

  method MatchJSON(ext: External, expected: Value, actual: Value, strict: bool, path: seq<Segment>)
    returns (r: Option<seq<Segment>>)
    ensures Decides(ext, expected, actual, strict, path, r)
    decreases expected, 2
  {
    var w := FieldWrapper(expected);
    if w.Some? {
      r := MatchJSON(ext, w.value.inner, actual, strict, path);
      return;
    }
    var m := IsMatcher(expected);
    if m.Some? {
      var ok := ApplyMatcher(ext, m.value, actual);
      return if ok then None else Some(path);
    }
    if expected.Null? {
      return if actual.Null? then None else Some(path);
    }
    if actual.Null? {
      return Some(path);
    }
    if expected.Obj? {
      r := MatchObject(ext, expected, actual, strict, path);
      return;
    }
    if IsArray(expected) {
      r := MatchArray(ext, expected, actual, strict, path);
      return;
    }
    r := if expected == actual then None else Some(path);
  }

  /** A missing key is to blame unless the expectation tolerates it. */
  lemma BlameMissing(ext: External, expected: Value, actual: Value, strict: bool, key: string)
    requires expected.Obj? && IsMatcher(expected).None? && IsObject(actual)
    requires key in expected.attrs && key !in actual.attrs && !AbsentOk(expected.attrs[key])
    ensures Blames(ext, expected, actual, strict, [Field(key)])
  {
  }

  /** What is to blame inside a field is to blame from outside. */
  lemma BlameField(ext: External, expected: Value, actual: Value, strict: bool, key: string, path: seq<Segment>)
    requires expected.Obj? && IsMatcher(expected).None? && IsObject(actual)
    requires key in expected.attrs && key in actual.attrs
    requires Blames(ext, expected.attrs[key], actual.attrs[key], strict, path)
    ensures Blames(ext, expected, actual, strict, [Field(key)] + path)
  {
    assert ([Field(key)] + path)[1..] == path;
  }

  /** One field of an object, and the path to blame when it does not match. */
  method MatchField(ext: External, expected: Value, actual: Value, strict: bool, path: seq<Segment>, key: string)
    returns (r: Option<seq<Segment>>)
    requires expected.Obj? && IsMatcher(expected).None? && IsObject(actual) && key in expected.attrs
    ensures r.None? <==> if key in actual.attrs then Matches(ext, expected.attrs[key], actual.attrs[key], strict)
                         else AbsentOk(expected.attrs[key])
    ensures r.Some? ==> path <= r.value && Blames(ext, expected, actual, strict, r.value[|path|..])
    decreases expected, 0
  {
    var field := expected.attrs[key];
    var w := FieldWrapper(field);
    var at := path + [Field(key)];
    if key !in actual.attrs {
      var m := IsMatcher(field);
      if (w.Some? && w.value.optional) || (m.Some? && m.value.name == "not_exists") {
        return None;
      }
      BlameMissing(ext, expected, actual, strict, key);
      assert at[|path|..] == [Field(key)];
      return Some(at);
    }
    var target := if w.Some? then w.value.inner else field;
    r := MatchJSON(ext, target, actual.attrs[key], strict, at);
    if r.Some? {
      BlameField(ext, expected, actual, strict, key, r.value[|at|..]);
      assert r.value[|path|..] == [Field(key)] + r.value[|at|..];
    }
  }

  /** Fields are visited in an arbitrary order, as Go ranges over a map. */
  method MatchObject(ext: External, expected: Value, actual: Value, strict: bool, path: seq<Segment>)
    returns (r: Option<seq<Segment>>)
    requires expected.Obj? && IsMatcher(expected).None?
    ensures Decides(ext, expected, actual, strict, path, r)
    decreases expected, 1
  {
    if !IsObject(actual) {
      return Some(path);
    }
    var fields, present := expected.attrs, actual.attrs;
    var allowed: set<string> := {};
    var todo := fields.Keys;
    while todo != {}
      invariant todo <= fields.Keys
      invariant allowed == (fields.Keys - todo) * present.Keys
      invariant forall k | k in fields.Keys - todo ::
                  if k in present then Matches(ext, fields[k], present[k], strict) else AbsentOk(fields[k])
      decreases todo
    {
      var key :| key in todo;
      todo := todo - {key};
      r := MatchField(ext, expected, actual, strict, path, key);
      if r.Some? {
        BlameRefutes(ext, expected, actual, strict, r.value[|path|..]);
        hide Matches;
        hide Blames;
        return;
      }
      hide Matches;
      hide Blames;
      hide AbsentOk;
      if key in present {
        allowed := allowed + {key};
      }
    }
    if strict && !(present.Keys <= allowed) {
      return Some(path);
    }
    r := None;
  }

  method MatchArray(ext: External, expected: Value, actual: Value, strict: bool, path: seq<Segment>)
    returns (r: Option<seq<Segment>>)
    requires IsArray(expected)
    ensures Decides(ext, expected, actual, strict, path, r)
    decreases expected, 0
  {
    if !IsArray(actual) || |expected.elems| != |actual.elems| {
      return Some(path);
    }
    var i := 0;
    while i < |expected.elems|
      invariant 0 <= i <= |expected.elems|
      invariant forall j | 0 <= j < i :: Matches(ext, expected.elems[j], actual.elems[j], strict)
    {
      r := MatchJSON(ext, expected.elems[i], actual.elems[i], strict, path + [Index(i)]);
      if r.Some? {
        assert r.value[|path|..][1..] == r.value[|path| + 1..];
        BlameRefutes(ext, expected, actual, strict, r.value[|path|..]);
        return;
      }
      i := i + 1;
    }
    r := None;
  }

  predicate Accepts(ext: External, name: string, actual: Value) {
    Applies(ext, Call(name, map[]), actual)
  }

  const TYPE_MATCHERS := ["is_string", "is_number", "is_bool", "is_array", "is_object"]

  /** What the built-in matchers say about each other: exists and not_exists are opposites; no value
      satisfies two type matchers, and which one it satisfies is decided by its type, typed nulls
      included; any accepts everything and an unknown name nothing; an array contains a value exactly
      when the value is one of the array. */
  lemma MatcherLaws(ext: External, v: Value, w: Value, name: string)
    ensures Accepts(ext, "exists", v) <==> !Accepts(ext, "not_exists", v)
    ensures forall i, j | 0 <= i < j < |TYPE_MATCHERS| ::
              !(Accepts(ext, TYPE_MATCHERS[i], v) && Accepts(ext, TYPE_MATCHERS[j], v))
    ensures TypeOf(v) == TypeOf(w) ==>
              forall i | 0 <= i < |TYPE_MATCHERS| :: Accepts(ext, TYPE_MATCHERS[i], v) <==> Accepts(ext, TYPE_MATCHERS[i], w)
    ensures Accepts(ext, "any", v)
    ensures name !in BUILT_IN && name !in EXTERNAL_MATCHERS ==> !Accepts(ext, name, v)
    ensures IsArray(v) ==>
              (Applies(ext, Call("contains", map["value" := w]), v) <==> Applies(ext, Call("one_of", map["value" := v]), w))
  {
    forall i | 0 <= i < |TYPE_MATCHERS| ensures Accepts(ext, TYPE_MATCHERS[i], v) <==> KindOf(TypeOf(v)) == i {
      TypeMatcherKind(ext, v, i);
    }
    forall i | 0 <= i < |TYPE_MATCHERS| ensures Accepts(ext, TYPE_MATCHERS[i], w) <==> KindOf(TypeOf(w)) == i {
      TypeMatcherKind(ext, w, i);
    }
  }

  /** The position of the type matcher a type satisfies, or one past the last. */
  function KindOf(ty: Type): nat {
    match ty
    case StringT => 0
    case NumberT => 1
    case BoolT => 2
    case ListT(_) => 3
    case TupleT(_) => 3
    case ObjectT(_) => 4
    case MapT(_) => 4
    case _ => 5
  }

  lemma TypeMatcherKind(ext: External, v: Value, i: nat)
    requires i < |TYPE_MATCHERS|
    ensures Accepts(ext, TYPE_MATCHERS[i], v) <==> KindOf(TypeOf(v)) == i
  {
  }

  // ----- what each matcher means in a match -----

  /** A matcher without arguments, as an expectation. */
  function Bare(name: string): Value { Obj(map[MATCHER_KEY := Str(name)]) }

  /** A matcher with one argument. */
  function With(name: string, arg: Value): Value { Obj(map[MATCHER_KEY := Str(name), "value" := arg]) }

  lemma BareIsMatcher(name: string, arg: Value)
    ensures IsMatcher(Bare(name)) == Some(Call(name, map[])) && FieldWrapper(Bare(name)) == None
    ensures IsMatcher(With(name, arg)) == Some(Call(name, map["value" := arg]))
    ensures FieldWrapper(With(name, arg))
         == if name == "optional" || name == "required" then Some(Wrapper(name == "optional", arg)) else None
  {
    assert map[MATCHER_KEY := Str(name)] - {MATCHER_KEY} == map[];
    assert map[MATCHER_KEY := Str(name), "value" := arg] - {MATCHER_KEY} == map["value" := arg];
  }

  lemma OneField(ext: External, key: string, x: Value, actual: Value, strict: bool)
    requires x.Obj?
    ensures Matches(ext, Obj(map[key := x]), actual, strict) <==>
              && IsObject(actual)
              && (if key in actual.attrs then Matches(ext, x, actual.attrs[key], strict) else AbsentOk(x))
              && (strict ==> actual.attrs.Keys <= {key})
  {
  }

  /** What each field expectation asks of an object: exists() a value that is not null, not_exists() no value
      or null, any() any value, optional(x) that a value, if there is one, matches x, and required(x) that
      there is one that does. */
  lemma FieldMeanings(ext: External, key: string, x: Value, actual: Value)
    ensures Matches(ext, Obj(map[key := Bare("exists")]), actual, false)
       <==> IsObject(actual) && key in actual.attrs && !actual.attrs[key].Null?
    ensures Matches(ext, Obj(map[key := Bare("not_exists")]), actual, false)
       <==> IsObject(actual) && (key in actual.attrs ==> actual.attrs[key].Null?)
    ensures Matches(ext, Obj(map[key := Bare("any")]), actual, false)
       <==> IsObject(actual) && key in actual.attrs
    ensures Matches(ext, Obj(map[key := With("optional", x)]), actual, false)
       <==> IsObject(actual) && (key in actual.attrs ==> Matches(ext, x, actual.attrs[key], false))
    ensures Matches(ext, Obj(map[key := With("required", x)]), actual, false)
       <==> IsObject(actual) && key in actual.attrs && Matches(ext, x, actual.attrs[key], false)
  {
    BareField(ext, key, "exists", actual);
    BareField(ext, key, "not_exists", actual);
    BareField(ext, key, "any", actual);
    WrappedField(ext, key, "optional", x, actual);
    WrappedField(ext, key, "required", x, actual);
    hide Matches;
  }

  lemma BareField(ext: External, key: string, name: string, actual: Value)
    ensures Matches(ext, Obj(map[key := Bare(name)]), actual, false) <==>
              && IsObject(actual)
              && if key in actual.attrs then Applies(ext, Call(name, map[]), actual.attrs[key]) else name == "not_exists"
  {
    OneField(ext, key, Bare(name), actual, false);
    BareIsMatcher(name, actual);
    if IsObject(actual) && key in actual.attrs {
      BareMeans(ext, name, actual.attrs[key], false);
    }
    hide Matches;
    hide IsMatcher;
    hide FieldWrapper;
    hide Applies;
  }

  lemma WrappedField(ext: External, key: string, name: string, x: Value, actual: Value)
    requires name == "optional" || name == "required"
    ensures Matches(ext, Obj(map[key := With(name, x)]), actual, false) <==>
              && IsObject(actual)
              && if key in actual.attrs then Matches(ext, x, actual.attrs[key], false) else name == "optional"
  {
    OneField(ext, key, With(name, x), actual, false);
    BareIsMatcher(name, x);
    hide IsMatcher;
    hide FieldWrapper;
    if IsObject(actual) && key in actual.attrs {
      assert Matches(ext, With(name, x), actual.attrs[key], false) == Matches(ext, x, actual.attrs[key], false);
    }
    hide Matches;
  }

  lemma BareMeans(ext: External, name: string, actual: Value, strict: bool)
    ensures Matches(ext, Bare(name), actual, strict) <==> Applies(ext, Call(name, map[]), actual)
  {
    BareIsMatcher(name, actual);
    hide IsMatcher;
    hide Applies;
  }

  lemma WithMeans(ext: External, name: string, x: Value, actual: Value, strict: bool)
    requires name != "optional" && name != "required"
    ensures Matches(ext, With(name, x), actual, strict) <==> Applies(ext, Call(name, map["value" := x]), actual)
  {
    BareIsMatcher(name, x);
    hide IsMatcher;
    hide Applies;
  }

  /** Which type matcher a value matches: the one for how it is made, a null the one for its type, and
      none of the others. */
  lemma TypeMeanings(ext: External, name: string, actual: Value, strict: bool)
    requires name in TYPE_MATCHERS
    ensures Matches(ext, Bare(name), actual, strict) <==>
            match actual
            case Str(_) => name == "is_string"
            case Num(_) => name == "is_number"
            case Bool(_) => name == "is_bool"
            case List(_, _) => name == "is_array"
            case Tuple(_) => name == "is_array"
            case Obj(_) => name == "is_object"
            case Map(_, _) => name == "is_object"
            case Set(_, _) => false
            case Null(ty) =>
              match ty
              case StringT => name == "is_string"
              case NumberT => name == "is_number"
              case BoolT => name == "is_bool"
              case ListT(_) => name == "is_array"
              case TupleT(_) => name == "is_array"
              case ObjectT(_) => name == "is_object"
              case MapT(_) => name == "is_object"
              case _ => false
  {
    BareMeans(ext, name, actual, strict);
    hide Matches;
  }

  /** What the other matchers ask of a value: exists() that it is not null, not_exists() that it is, any()
      nothing, contains(x) the text x inside a string or exactly x among the elements of an array, one_of(x)
      that it be exactly one of the elements of x. */
  lemma ValueMeanings(ext: External, x: Value, actual: Value, strict: bool)
    ensures Matches(ext, Bare("exists"), actual, strict) <==> !actual.Null?
    ensures Matches(ext, Bare("not_exists"), actual, strict) <==> actual.Null?
    ensures Matches(ext, Bare("any"), actual, strict)
    ensures Matches(ext, With("contains", x), actual, strict)
       <==> if actual.Str? && x.Str? then exists a, b :: actual.s == a + x.s + b
            else (actual.List? || actual.Tuple?) && x in actual.elems
    ensures Matches(ext, With("one_of", x), actual, strict) <==> (x.List? || x.Tuple?) && actual in x.elems
  {
    BareMeans(ext, "exists", actual, strict);
    BareMeans(ext, "not_exists", actual, strict);
    BareMeans(ext, "any", actual, strict);
    WithMeans(ext, "contains", x, actual, strict);
    WithMeans(ext, "one_of", x, actual, strict);
    hide Matches;
    if actual.Str? && x.Str? {
      SubstringMeans(actual.s, x.s);
    }
    hide HasSubstring;
  }

  /** A wrapper without an argument wraps nothing, and matches nothing. */
  lemma EmptyWrapper(ext: External, name: string, actual: Value, strict: bool)
    requires name == "optional" || name == "required"
    ensures !Matches(ext, Bare(name), actual, strict)
  {
    BareMeans(ext, name, actual, strict);
    hide Matches;
  }

  /** An external matcher matches what it says, a name nobody knows nothing. */
  lemma OtherNames(ext: External, name: string, x: Value, actual: Value, strict: bool)
    requires name !in BUILT_IN && name != "optional" && name != "required"
    ensures Matches(ext, With(name, x), actual, strict)
       <==> name in EXTERNAL_MATCHERS && ext(name, map["value" := x], actual)
  {
    WithMeans(ext, name, x, actual, strict);
    hide Matches;
  }

  lemma SubstringMeans(s: string, t: string)
    ensures HasSubstring(s, t) <==> exists a, b :: s == a + t + b
  {
    if i :| 0 <= i <= |s| && OccursAt(s, t, i) {
      assert s == s[..i] + t + s[i + |t|..];
    }
    if a, b :| s == a + t + b {
      assert OccursAt(s, t, |a|);
    }
  }

  /** The built-in handlers, each on the value's type as the code tests it. */
  method ApplyMatcher(ext: External, call: Call, actual: Value) returns (ok: bool)
    ensures ok <==> Applies(ext, call, actual)
  {
    var ty := TypeOf(actual);
    match call.name {
      case "exists" => ok := !actual.Null?;
      case "not_exists" => ok := actual.Null?;
      case "any" => ok := true;
      case "is_string" => ok := ty == StringT;
      case "is_number" => ok := ty == NumberT;
      case "is_bool" => ok := ty == BoolT;
      case "is_array" => ok := ty.ListT? || ty.TupleT?;
      case "is_object" => ok := ty.ObjectT? || ty.MapT?;
      case "contains" => ok := MatchContains(call.args, actual);
      case "one_of" => ok := MatchOneOf(call.args, actual);
      case _ => ok := call.name in EXTERNAL_MATCHERS && ext(call.name, call.args, actual);
    }
  }

  /** A string contains a substring; an array contains an element exactly equal to the needle. */
  method MatchContains(args: map<string, Value>, actual: Value) returns (ok: bool)
    ensures ok <==> && "value" in args
                    && if actual.Str? && args["value"].Str? then HasSubstring(actual.s, args["value"].s)
                       else IsArray(actual) && args["value"] in actual.elems
  {
    if "value" !in args {
      return false;
    }
    var needle := args["value"];
    if actual.Str? && needle.Str? {
      ok := Contains(actual.s, needle.s);
    } else if IsArray(actual) {
      ok := AnyEqual(actual.elems, needle);
    } else {
      ok := false;
    }
  }

  method Contains(s: string, t: string) returns (found: bool)
    ensures found <==> HasSubstring(s, t)
  {
    var i := 0;
    while i + |t| <= |s|
      invariant 0 <= i
      invariant forall j | 0 <= j < i :: !OccursAt(s, t, j)
    {
      if s[i..i + |t|] == t {
        assert OccursAt(s, t, i);
        return true;
      }
      i := i + 1;
    }
    found := false;
  }

  method MatchOneOf(args: map<string, Value>, actual: Value) returns (ok: bool)
    ensures ok <==> "value" in args && IsArray(args["value"]) && actual in args["value"].elems
  {
    if "value" !in args || !IsArray(args["value"]) {
      return false;
    }
    ok := AnyEqual(args["value"].elems, actual);
  }

  method AnyEqual(elems: seq<Value>, wanted: Value) returns (found: bool)
    ensures found <==> wanted in elems
  {
    var i := 0;
    while i < |elems|
      invariant 0 <= i <= |elems|
      invariant wanted !in elems[..i]
    {
      if elems[i] == wanted {
        return true;
      }
      i := i + 1;
    }
    found := false;
  }

  // ----- exact equality -----

  /** Equal: wrappers and matchers as in MatchJSON, raw equality otherwise. */
  predicate Equal(ext: External, expected: Value, actual: Value)
    decreases expected
  {
    var w := FieldWrapper(expected);
    if w.Some? then Equal(ext, w.value.inner, actual)
    else if IsMatcher(expected).Some? then Applies(ext, IsMatcher(expected).value, actual)
    else expected == actual
  }

  lemma {:induction false} MatchesItself(ext: External, v: Value, strict: bool)
    requires NoNestedMatcher(v)
    ensures Matches(ext, v, v, strict)
    decreases v
  {
    match v
    case Obj(attrs) =>
      forall k | k in attrs ensures Matches(ext, attrs[k], attrs[k], strict) { MatchesItself(ext, attrs[k], strict); }
    case List(_, elems) =>
      forall i | 0 <= i < |elems| ensures Matches(ext, elems[i], elems[i], strict) { MatchesItself(ext, elems[i], strict); }
    case Tuple(elems) =>
      forall i | 0 <= i < |elems| ensures Matches(ext, elems[i], elems[i], strict) { MatchesItself(ext, elems[i], strict); }
    case _ =>
  }

  /** Exact equality is the finest comparison: on matcher-free expectations it implies the match in
      both modes; on a bare matcher the two agree. */
  lemma {:induction false} EqualRefinesMatch(ext: External, expected: Value, actual: Value, strict: bool)
    ensures NoNestedMatcher(expected) && Equal(ext, expected, actual) ==> Matches(ext, expected, actual, strict)
    ensures IsMatcher(expected).Some? && FieldWrapper(expected).None? ==>
              (Equal(ext, expected, actual) <==> Matches(ext, expected, actual, strict))
  {
    if NoNestedMatcher(expected) {
      MatchesItself(ext, expected, strict);
    }
  }
}
