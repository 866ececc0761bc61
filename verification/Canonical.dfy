/** Canonical JSON encoding of cty values (internal/lang/functions.go, jsonencode). */
module Canonical {
  import opened Wrappers
  import opened Sorting

  /** A value in the iteration order one run happens to see: set elements come in some order. */
  datatype Value =
    | Null
    | Unknown
    | Capsule
    | Str(s: string)
    | Bool(b: bool)
    | Num(text: string)
    | Object(attrs: map<string, Value>)
    | Array(elems: seq<Value>)
    | Set(members: seq<Value>)

  /** What ctyToCanonical hands to encoding/json. */
  datatype Json =
    | JNull | JString(s: string) | JBool(b: bool) | JNumber(text: string)
    | JObject(fields: map<string, Json>) | JArray(items: seq<Json>)

  datatype EncodeError = UnknownValue | UnsupportedType

  /** encoding/json's string literal for s, whatever escaping it applies. */
  type Quote = string -> string

  // ----- json.Marshal -----

  ghost function SortedKeys(keys: set<string>): seq<string> {
    if keys == {} then []
    else
      LeastExists(keys);
      var k :| Least(keys, k);
      [k] + SortedKeys(keys - {k})
  }

  ghost predicate Least(keys: set<string>, k: string) {
    k in keys && forall x | x in keys :: !Less(x, k)
  }

  lemma LeastOfTwo(keys: set<string>, k: string, m: string)
    requires k in keys && Least(keys - {k}, m)
    ensures Least(keys, if Less(k, m) then k else m)
  {
    hide Less;
    LessTotal(k, k);
    LessTotal(k, m);
    forall x | x in keys ensures !Less(x, if Less(k, m) then k else m) {
      if Less(k, m) && Less(x, k) {
        LessTransitive(x, k, m);
      }
    }
  }

  lemma {:induction false} LeastExists(keys: set<string>)
    requires keys != {}
    ensures exists k :: Least(keys, k)
  {
    hide Less;
    var k :| k in keys;
    LessTotal(k, k);
    if keys == {k} {
      assert Least(keys, k);
    } else {
      LeastExists(keys - {k});
      var m :| Least(keys - {k}, m);
      hide Least;
      LeastOfTwo(keys, k, m);
    }
  }

  lemma {:induction false} SortedKeysEnumerate(keys: set<string>)
    ensures forall k :: k in SortedKeys(keys) <==> k in keys
  {
    if keys != {} {
      var k := SortedKeys(keys)[0];
      assert k in keys;
      SortedKeysEnumerate(keys - {k});
    }
  }

  ghost function Joined(parts: seq<string>): string {
    if parts == [] then "" else if |parts| == 1 then parts[0] else parts[0] + "," + Joined(parts[1..])
  }

  /** Compact JSON: object keys sorted, array items in order. */
  ghost function Marshal(quote: Quote, j: Json): string
    decreases j, 0
  {
    match j
    case JNull => "null"
    case JString(s) => quote(s)
    case JBool(b) => if b then "true" else "false"
    case JNumber(text) => text
    case JObject(fields) =>
      SortedKeysEnumerate(fields.Keys);
      "{" + Joined(MarshalFields(quote, j, SortedKeys(fields.Keys))) + "}"
    case JArray(items) => "[" + Joined(seq(|items|, i requires 0 <= i < |items| => Marshal(quote, items[i]))) + "]"
  }

  ghost function MarshalFields(quote: Quote, j: Json, keys: seq<string>): seq<string>
    requires j.JObject? && forall k | k in keys :: k in j.fields
    decreases j, 0, |keys|
  {
    if keys == [] then []
    else [quote(keys[0]) + ":" + Marshal(quote, j.fields[keys[0]])] + MarshalFields(quote, j, keys[1..])
  }

  ghost function Marshaller(quote: Quote): Json -> string {
    (j: Json) => Marshal(quote, j)
  }

  lemma MarshalArray(quote: Quote, items: seq<Json>)
    ensures Marshal(quote, JArray(items)) == "[" + Joined(Map(Marshaller(quote), items)) + "]"
  {
    assert seq(|items|, i requires 0 <= i < |items| => Marshal(quote, items[i])) == Map(Marshaller(quote), items);
  }

  lemma {:induction false} MarshalFieldsAgree(quote: Quote, a: Json, b: Json, keys: seq<string>)
    requires a.JObject? && b.JObject? && forall k | k in keys :: k in a.fields && k in b.fields
    requires forall k | k in keys :: Marshal(quote, a.fields[k]) == Marshal(quote, b.fields[k])
    ensures MarshalFields(quote, a, keys) == MarshalFields(quote, b, keys)
  {
    if keys != [] {
      MarshalFieldsAgree(quote, a, b, keys[1..]);
    }
  }

  lemma MarshalObjectsAgree(quote: Quote, a: Json, b: Json)
    requires a.JObject? && b.JObject? && a.fields.Keys == b.fields.Keys
    requires forall k | k in a.fields :: Marshal(quote, a.fields[k]) == Marshal(quote, b.fields[k])
    ensures Marshal(quote, a) == Marshal(quote, b)
  {
    SortedKeysEnumerate(a.fields.Keys);
    MarshalFieldsAgree(quote, a, b, SortedKeys(a.fields.Keys));
  }

  // ----- the canonical form -----

  /** No unknown value and no capsule anywhere. */
  predicate Encodable(v: Value) {
    match v
    case Unknown => false
    case Capsule => false
    case Object(attrs) => forall k | k in attrs :: Encodable(attrs[k])
    case Array(elems) => forall i | 0 <= i < |elems| :: Encodable(elems[i])
    case Set(members) => forall i | 0 <= i < |members| :: Encodable(members[i])
    case _ => true
  }

  /** The order sort.SliceStable is given: that of the encodings. */
  ghost function EncodesBefore(quote: Quote): (Json, Json) -> bool {
    (a: Json, b: Json) => Less(Marshaller(quote)(a), Marshaller(quote)(b))
  }

  /** The canonical form of an encodable value. */
  ghost function Canon(quote: Quote, v: Value): Json {
    match v
    case Null => JNull
    case Str(s) => JString(s)
    case Bool(b) => JBool(b)
    case Num(text) => JNumber(text)
    case Object(attrs) => JObject(map k | k in attrs :: Canon(quote, attrs[k]))
    case Array(elems) => JArray(seq(|elems|, i requires 0 <= i < |elems| => Canon(quote, elems[i])))
    case Set(members) =>
      JArray(StableSort(seq(|members|, i requires 0 <= i < |members| => Canon(quote, members[i])), EncodesBefore(quote)))
    case _ => JNull
  }

  ghost function Encoded(quote: Quote, v: Value): string { Marshal(quote, Canon(quote, v)) }

  ghost function Canonizer(quote: Quote): Value -> Json { (v: Value) => Canon(quote, v) }

  ghost function Encoder(quote: Quote): Value -> string { (v: Value) => Encoded(quote, v) }

  ghost predicate Rearranges(s: seq<Value>, t: seq<Value>) { multiset(s) == multiset(t) }

  /** The same value, the elements of every set met in some other order. */
  ghost predicate SameUpToOrder(v: Value, w: Value)
    decreases v
  {
    match v
    case Object(attrs) =>
      w.Object? && attrs.Keys == w.attrs.Keys && forall k | k in attrs :: SameUpToOrder(attrs[k], w.attrs[k])
    case Array(elems) =>
      w.Array? && |elems| == |w.elems| && forall i | 0 <= i < |elems| :: SameUpToOrder(elems[i], w.elems[i])
    case Set(members) =>
      w.Set? && exists ws :: Aligned(members, ws, w.members)
    case _ => v == w
  }

  /** ws lists ys so that it agrees with xs item by item. */
  ghost predicate Aligned(xs: seq<Value>, ws: seq<Value>, ys: seq<Value>)
    decreases xs
  {
    Rearranges(ws, ys) && |ws| == |xs| && forall i | 0 <= i < |xs| :: SameUpToOrder(xs[i], ws[i])
  }

  lemma EncoderIsComposed(quote: Quote, vs: seq<Value>)
    ensures Map(Marshaller(quote), Map(Canonizer(quote), vs)) == Map(Encoder(quote), vs)
  {
  }

  lemma CanonArray(quote: Quote, elems: seq<Value>)
    ensures Encoded(quote, Array(elems)) == "[" + Joined(Map(Encoder(quote), elems)) + "]"
  {
    MarshalArray(quote, Canon(quote, Array(elems)).items);
    assert Canon(quote, Array(elems)).items == Map(Canonizer(quote), elems);
    EncoderIsComposed(quote, elems);
  }

  lemma CanonSetItems(quote: Quote, members: seq<Value>)
    ensures Canon(quote, Set(members)).items == StableSort(Map(Canonizer(quote), members), EncodesBefore(quote))
  {
    assert Map(Canonizer(quote), members) == seq(|members|, i requires 0 <= i < |members| => Canon(quote, members[i]));
  }

  /** Sorting canonical items by encoding sorts the encodings. */
  lemma SortedItemsEncode(quote: Quote, items: seq<Json>)
    ensures Map(Marshaller(quote), StableSort(items, EncodesBefore(quote))) == StableSort(Map(Marshaller(quote), items), Less)
  {
    MapStableSort(Marshaller(quote), items, EncodesBefore(quote), Less);
  }

  /** A set is encoded as the sorted list of its members' encodings. */
  lemma CanonSet(quote: Quote, members: seq<Value>)
    ensures Encoded(quote, Set(members)) == "[" + Joined(StableSort(Map(Encoder(quote), members), Less)) + "]"
  {
    CanonSetItems(quote, members);
    SortedItemsEncode(quote, Map(Canonizer(quote), members));
    EncoderIsComposed(quote, members);
    MarshalArray(quote, Canon(quote, Set(members)).items);
  }

  lemma ObjectsEncodeAlike(quote: Quote, v: Value, w: Value)
    requires v.Object? && w.Object? && v.attrs.Keys == w.attrs.Keys
    requires forall k | k in v.attrs :: Encoded(quote, v.attrs[k]) == Encoded(quote, w.attrs[k])
    ensures Encoded(quote, v) == Encoded(quote, w)
  {
    var a, b := Canon(quote, v), Canon(quote, w);
    assert a.fields.Keys == v.attrs.Keys && b.fields.Keys == w.attrs.Keys;
    forall k | k in a.fields ensures Marshal(quote, a.fields[k]) == Marshal(quote, b.fields[k]) {
      assert Encoded(quote, v.attrs[k]) == Encoded(quote, w.attrs[k]);
    }
    MarshalObjectsAgree(quote, a, b);
  }

  lemma ArraysEncodeAlike(quote: Quote, xs: seq<Value>, ys: seq<Value>)
    requires |xs| == |ys| && forall i | 0 <= i < |xs| :: Encoded(quote, xs[i]) == Encoded(quote, ys[i])
    ensures Encoded(quote, Array(xs)) == Encoded(quote, Array(ys))
  {
    CanonArray(quote, xs);
    CanonArray(quote, ys);
    assert Map(Encoder(quote), xs) == Map(Encoder(quote), ys);
  }

  lemma SetsEncodeAlike(quote: Quote, xs: seq<Value>, ws: seq<Value>, ys: seq<Value>)
    requires |xs| == |ws| && forall i | 0 <= i < |xs| :: Encoded(quote, xs[i]) == Encoded(quote, ws[i])
    requires Rearranges(ws, ys)
    ensures Encoded(quote, Set(xs)) == Encoded(quote, Set(ys))
  {
    var enc := Encoder(quote);
    assert Map(enc, xs) == Map(enc, ws);
    MapMultiset(enc, ws, ys);
    SortStringsUnique(Map(enc, xs), Map(enc, ys));
    CanonSet(quote, xs);
    CanonSet(quote, ys);
  }

  lemma RearrangedEncodable(s: seq<Value>, t: seq<Value>)
    requires Rearranges(s, t)
    ensures (forall i | 0 <= i < |s| :: Encodable(s[i])) <==> (forall i | 0 <= i < |t| :: Encodable(t[i]))
  {
    forall i | 0 <= i < |s| ensures s[i] in t { assert s[i] in multiset(s); }
    forall i | 0 <= i < |t| ensures t[i] in s { assert t[i] in multiset(t); }
  }

  /** The encoded output does not depend on the order in which set elements are met, at any depth,
      whether or not two of them encode alike. */
  lemma {:induction false} EncodingIgnoresSetOrder(quote: Quote, v: Value, w: Value)
    requires SameUpToOrder(v, w)
    ensures Encoded(quote, v) == Encoded(quote, w)
    decreases v
  {
    match v
    case Object(attrs) =>
      forall k | k in attrs ensures Encoded(quote, attrs[k]) == Encoded(quote, w.attrs[k]) {
        EncodingIgnoresSetOrder(quote, attrs[k], w.attrs[k]);
      }
      ObjectsEncodeAlike(quote, v, w);
    case Array(elems) =>
      forall i | 0 <= i < |elems| ensures Encoded(quote, elems[i]) == Encoded(quote, w.elems[i]) {
        EncodingIgnoresSetOrder(quote, elems[i], w.elems[i]);
      }
      ArraysEncodeAlike(quote, elems, w.elems);
    case Set(members) =>
      var ws :| Aligned(members, ws, w.members);
      forall i | 0 <= i < |members| ensures Encoded(quote, members[i]) == Encoded(quote, ws[i]) {
        EncodingIgnoresSetOrder(quote, members[i], ws[i]);
      }
      SetsEncodeAlike(quote, members, ws, w.members);
    case _ =>
  }

  /** So is whether a value can be encoded at all. */
  lemma {:induction false} EncodableIgnoresSetOrder(v: Value, w: Value)
    requires SameUpToOrder(v, w)
    ensures Encodable(v) <==> Encodable(w)
    decreases v
  {
    match v
    case Object(attrs) =>
      forall k | k in attrs ensures Encodable(attrs[k]) <==> Encodable(w.attrs[k]) {
        EncodableIgnoresSetOrder(attrs[k], w.attrs[k]);
      }
    case Array(elems) =>
      forall i | 0 <= i < |elems| ensures Encodable(elems[i]) <==> Encodable(w.elems[i]) {
        EncodableIgnoresSetOrder(elems[i], w.elems[i]);
      }
    case Set(members) =>
      var ws :| Aligned(members, ws, w.members);
      forall i | 0 <= i < |members| ensures Encodable(members[i]) <==> Encodable(ws[i]) {
        EncodableIgnoresSetOrder(members[i], ws[i]);
      }
      RearrangedEncodable(ws, w.members);
    case _ =>
  }

  /** The canonical form of a set is a rearrangement of its members' canonical forms, in
      non-decreasing order of encoding, equal encodings kept in iteration order. */
  lemma SetIsSortedPermutation(quote: Quote, members: seq<Value>)
    ensures var items := Map(Canonizer(quote), members);
            var canon := Canon(quote, Set(members)).items;
            && multiset(canon) == multiset(items)
            && SortedBy(Map(Marshaller(quote), canon), Less)
            && (forall pivot :: Ties(canon, pivot, EncodesBefore(quote)) == Ties(items, pivot, EncodesBefore(quote)))
  {
    var items := Map(Canonizer(quote), members);
    CanonSetItems(quote, members);
    StableSortPermutes(items, EncodesBefore(quote));
    SortedItemsEncode(quote, items);
    LessIsStrictWeak();
    StableSortSorts(Map(Marshaller(quote), items), Less);
    EncodesBeforeIsStrictWeak(quote);
    forall pivot ensures Ties(StableSort(items, EncodesBefore(quote)), pivot, EncodesBefore(quote)) == Ties(items, pivot, EncodesBefore(quote)) {
      StableSortStable(items, pivot, EncodesBefore(quote));
    }
  }

  lemma EncodesBeforeIsStrictWeak(quote: Quote)
    ensures StrictWeak(EncodesBefore(quote))
  {
    var before, f := EncodesBefore(quote), Marshaller(quote);
    forall x ensures !before(x, x) { LessTotal(f(x), f(x)); }
    forall x, y, z | before(x, y) && before(y, z) ensures before(x, z) {
      LessTransitive(f(x), f(y), f(z));
    }
    forall x, y, z | before(x, z) ensures before(x, y) || before(y, z) {
      LessTotal(f(x), f(y));
      LessTotal(f(y), f(z));
      if before(y, x) {
        LessTransitive(f(y), f(x), f(z));
      }
    }
  }

  // ----- what the encoding keeps -----

  /** The value a JSON document denotes. */
  function ValueOf(j: Json): Value {
    match j
    case JNull => Null
    case JString(s) => Str(s)
    case JBool(b) => Bool(b)
    case JNumber(text) => Num(text)
    case JObject(fields) => Object(map k | k in fields :: ValueOf(fields[k]))
    case JArray(items) => Array(seq(|items|, i requires 0 <= i < |items| => ValueOf(items[i])))
  }

  ghost function Reader(): Json -> Value { (j: Json) => ValueOf(j) }

  /** w is v with every set written as the list of its elements, in some order. */
  ghost predicate ListsSets(v: Value, w: Value)
    decreases v
  {
    match v
    case Object(attrs) =>
      w.Object? && attrs.Keys == w.attrs.Keys && forall k | k in attrs :: ListsSets(attrs[k], w.attrs[k])
    case Array(elems) =>
      w.Array? && |elems| == |w.elems| && forall i | 0 <= i < |elems| :: ListsSets(elems[i], w.elems[i])
    case Set(members) =>
      w.Array? && exists ws :: ListedAs(members, ws, w.elems)
    case _ => v == w
  }

  /** ys, rearranged as ws, lists the values of xs. */
  ghost predicate ListedAs(xs: seq<Value>, ws: seq<Value>, ys: seq<Value>)
    decreases xs
  {
    Rearranges(ws, ys) && |ws| == |xs| && forall i | 0 <= i < |xs| :: ListsSets(xs[i], ws[i])
  }

  lemma ReadsSetBack(quote: Quote, members: seq<Value>)
    requires forall i | 0 <= i < |members| :: ListsSets(members[i], ValueOf(Canon(quote, members[i])))
    ensures ListsSets(Set(members), ValueOf(Canon(quote, Set(members))))
  {
    var items, sorted := Map(Canonizer(quote), members), StableSort(Map(Canonizer(quote), members), EncodesBefore(quote));
    CanonSetItems(quote, members);
    assert Canon(quote, Set(members)) == JArray(sorted);
    hide Canon;
    StableSortPermutes(items, EncodesBefore(quote));
    MapMultiset(Reader(), items, sorted);
    ReadsArray(sorted);
    ReadsItems(quote, members);
    hide *;
    ListedBack(members, Map(Reader(), items), Map(Reader(), sorted));
  }

  lemma ReadsArray(items: seq<Json>)
    ensures ValueOf(JArray(items)) == Array(Map(Reader(), items))
  {
    assert ValueOf(JArray(items)).elems == Map(Reader(), items);
  }

  lemma ReadsItems(quote: Quote, members: seq<Value>)
    requires forall i | 0 <= i < |members| :: ListsSets(members[i], ValueOf(Canon(quote, members[i])))
    ensures var ws := Map(Reader(), Map(Canonizer(quote), members));
            |ws| == |members| && forall i | 0 <= i < |members| :: ListsSets(members[i], ws[i])
  {
    hide ListsSets;
  }

  lemma ListedBack(members: seq<Value>, ws: seq<Value>, ys: seq<Value>)
    requires multiset(ws) == multiset(ys) && |ws| == |members|
    requires forall i | 0 <= i < |members| :: ListsSets(members[i], ws[i])
    ensures ListsSets(Set(members), Array(ys))
  {
    assert ListedAs(members, ws, ys);
  }

  /** Round trip: reading the canonical form back gives the value, every scalar, attribute and element of
      it, with sets become lists. */
  lemma {:induction false} CanonRoundTrip(quote: Quote, v: Value)
    requires Encodable(v)
    ensures ListsSets(v, ValueOf(Canon(quote, v)))
  {
    match v
    case Object(attrs) =>
      forall k | k in attrs ensures ListsSets(attrs[k], ValueOf(Canon(quote, attrs[k]))) {
        CanonRoundTrip(quote, attrs[k]);
      }
      var fields := Canon(quote, v).fields;
      assert fields.Keys == attrs.Keys;
      assert forall k | k in attrs :: ValueOf(Canon(quote, v)).attrs[k] == ValueOf(fields[k]);
    case Array(elems) =>
      forall i | 0 <= i < |elems| ensures ListsSets(elems[i], ValueOf(Canon(quote, elems[i]))) {
        CanonRoundTrip(quote, elems[i]);
      }
    case Set(members) =>
      forall i | 0 <= i < |members| ensures ListsSets(members[i], ValueOf(Canon(quote, members[i]))) {
        CanonRoundTrip(quote, members[i]);
      }
      ReadsSetBack(quote, members);
    case _ =>
  }

  predicate SetFree(v: Value) {
    match v
    case Object(attrs) => forall k | k in attrs :: SetFree(attrs[k])
    case Array(elems) => forall i | 0 <= i < |elems| :: SetFree(elems[i])
    case Set(_) => false
    case _ => true
  }

  lemma {:induction false} NothingToList(v: Value, w: Value)
    requires SetFree(v) && ListsSets(v, w)
    ensures v == w
    decreases v
  {
    match v
    case Object(attrs) =>
      forall k | k in attrs ensures attrs[k] == w.attrs[k] { NothingToList(attrs[k], w.attrs[k]); }
      assert attrs == w.attrs;
    case Array(elems) =>
      forall i | 0 <= i < |elems| ensures elems[i] == w.elems[i] { NothingToList(elems[i], w.elems[i]); }
      assert elems == w.elems;
    case _ =>
  }

  /** So without sets the canonical form determines the value. */
  lemma SetFreeRoundTrip(quote: Quote, v: Value)
    requires Encodable(v) && SetFree(v)
    ensures ValueOf(Canon(quote, v)) == v
  {
    CanonRoundTrip(quote, v);
    NothingToList(v, ValueOf(Canon(quote, v)));
  }

  lemma {:induction false} SortedKeysAscend(keys: set<string>)
    ensures SortedBy(SortedKeys(keys), Less)
    ensures forall i, j | 0 <= i < j < |SortedKeys(keys)| :: SortedKeys(keys)[i] != SortedKeys(keys)[j]
  {
    hide Less;
    if keys != {} {
      var all := SortedKeys(keys);
      var k, rest := all[0], all[1..];
      assert rest == SortedKeys(keys - {k}) && Least(keys, k);
      SortedKeysEnumerate(keys - {k});
      SortedKeysAscend(keys - {k});
      hide SortedKeys;
      forall i, j | 0 <= i < j < |all| ensures !Less(all[j], all[i]) && all[i] != all[j] {
        assert all[j] == rest[j - 1] && rest[j - 1] in keys - {k};
        assert i > 0 ==> all[i] == rest[i - 1];
      }
    }
  }

  lemma {:induction false} FieldTexts(quote: Quote, j: Json, keys: seq<string>)
    requires j.JObject? && forall k | k in keys :: k in j.fields
    ensures MarshalFields(quote, j, keys)
         == seq(|keys|, i requires 0 <= i < |keys| => quote(keys[i]) + ":" + Marshal(quote, j.fields[keys[i]]))
  {
    if keys != [] {
      FieldTexts(quote, j, keys[1..]);
    }
  }

  lemma ObjectText(quote: Quote, attrs: map<string, Value>, keys: seq<string>)
    requires forall k | k in keys :: k in attrs
    ensures var j := Canon(quote, Object(attrs));
            && j.JObject? && j.fields.Keys == attrs.Keys
            && MarshalFields(quote, j, keys)
            == seq(|keys|, i requires 0 <= i < |keys| => quote(keys[i]) + ":" + Encoded(quote, attrs[keys[i]]))
  {
    var j := Canon(quote, Object(attrs));
    assert j.fields.Keys == attrs.Keys;
    FieldTexts(quote, j, keys);
    assert forall i | 0 <= i < |keys| :: j.fields[keys[i]] == Canon(quote, attrs[keys[i]]);
    hide Marshal;
    hide MarshalFields;
  }

  /** Joining puts one comma between neighbours and nothing else. */
  lemma {:induction false} JoinedByCommas(first: seq<string>, second: seq<string>)
    requires first != [] && second != []
    ensures Joined(first + second) == Joined(first) + "," + Joined(second)
  {
    var all := first + second;
    if |first| == 1 {
      assert all[1..] == second;
    } else {
      JoinedByCommas(first[1..], second);
      assert all[1..] == first[1..] + second;
    }
  }

  /** An object is written with each of its keys once, in ascending order, before its value's encoding. */
  lemma ObjectEncoding(quote: Quote, attrs: map<string, Value>) returns (keys: seq<string>)
    ensures SortedBy(keys, Less) && (forall i, j | 0 <= i < j < |keys| :: keys[i] != keys[j])
    ensures forall k :: k in keys <==> k in attrs
    ensures Encoded(quote, Object(attrs))
         == "{" + Joined(seq(|keys|, i requires 0 <= i < |keys| => quote(keys[i]) + ":" + Encoded(quote, attrs[keys[i]]))) + "}"
  {
    keys := SortedKeys(attrs.Keys);
    SortedKeysEnumerate(attrs.Keys);
    SortedKeysAscend(attrs.Keys);
    ObjectText(quote, attrs, keys);
    hide SortedKeys;
    hide SortedBy;
    hide Joined;
    hide MarshalFields;
    hide Canon;
  }

  // ----- the code that computes it -----

  /** json.Marshal, as the methods below call it. */
  ghost predicate IsMarshal(marshal: Json -> string, quote: Quote) {
    forall j :: marshal(j) == Marshal(quote, j)
  }

  method ToCanonical(marshal: Json -> string, ghost quote: Quote, v: Value) returns (r: Result<Json, EncodeError>)
    requires IsMarshal(marshal, quote)
    ensures r.Ok? <==> Encodable(v)
    ensures r.Ok? ==> r.value == Canon(quote, v)
    decreases v, 1
  {
    match v
    case Null => r := Ok(JNull);
    case Unknown => r := Err(UnknownValue);
    case Str(s) => r := Ok(JString(s));
    case Bool(b) => r := Ok(JBool(b));
    case Num(text) => r := Ok(JNumber(text));
    case Object(_) => r := ObjectToCanonical(marshal, quote, v);
    case Array(elems) =>
      var items := ItemsToCanonical(marshal, quote, v, elems);
      r := if items.Ok? then Ok(JArray(items.value)) else Err(items.error);
      if items.Ok? {
        assert Canon(quote, v).items == items.value;
      }
    case Set(members) =>
      var items := ItemsToCanonical(marshal, quote, v, members);
      if items.Err? {
        return Err(items.error);
      }
      var sorted := SortedByEncoding(marshal, quote, items.value);
      CanonSetItems(quote, members);
      r := Ok(JArray(sorted));
    case Capsule => r := Err(UnsupportedType);
  }

  method ObjectToCanonical(marshal: Json -> string, ghost quote: Quote, v: Value) returns (r: Result<Json, EncodeError>)
    requires IsMarshal(marshal, quote) && v.Object?
    ensures r.Ok? <==> Encodable(v)
    ensures r.Ok? ==> r.value == Canon(quote, v)
    decreases v, 0
  {
    var out: map<string, Json> := map[];
    var todo := v.attrs.Keys;
    while todo != {}
      invariant todo <= v.attrs.Keys
      invariant out.Keys == v.attrs.Keys - todo
      invariant forall k | k in out :: Encodable(v.attrs[k]) && out[k] == Canon(quote, v.attrs[k])
      decreases todo
    {
      var key :| key in todo;
      todo := todo - {key};
      var child := ToCanonical(marshal, quote, v.attrs[key]);
      if child.Err? {
        return Err(child.error);
      }
      out := out[key := child.value];
    }
    assert out == Canon(quote, v).fields;
    r := Ok(JObject(out));
  }

  /** The element loop shared by lists, tuples and sets. */
  method ItemsToCanonical(marshal: Json -> string, ghost quote: Quote, ghost whole: Value, elems: seq<Value>)
    returns (r: Result<seq<Json>, EncodeError>)
    requires IsMarshal(marshal, quote)
    requires (whole.Array? && whole.elems == elems) || (whole.Set? && whole.members == elems)
    ensures r.Ok? <==> Encodable(whole)
    ensures r.Ok? ==> r.value == Map(Canonizer(quote), elems)
    decreases whole, 0
  {
    var items: seq<Json> := [];
    var i := 0;
    while i < |elems|
      invariant 0 <= i <= |elems|
      invariant |items| == i
      invariant forall j | 0 <= j < i :: Encodable(elems[j]) && items[j] == Canon(quote, elems[j])
    {
      var child := ToCanonical(marshal, quote, elems[i]);
      if child.Err? {
        return Err(child.error);
      }
      items := items + [child.value];
      i := i + 1;
    }
    r := Ok(items);
  }

  /** ctySetToCanonical after its element loop: encode every item, sort the indexes by encoding, gather. */
  method SortedByEncoding(marshal: Json -> string, ghost quote: Quote, items: seq<Json>) returns (sorted: seq<Json>)
    requires IsMarshal(marshal, quote)
    ensures sorted == StableSort(items, EncodesBefore(quote))
  {
    var encoded: seq<string> := [];
    var indexes: seq<int> := [];
    var i := 0;
    while i < |items|
      invariant 0 <= i <= |items|
      invariant |encoded| == |indexes| == i
      invariant forall j | 0 <= j < i :: encoded[j] == Marshal(quote, items[j]) && indexes[j] == j
    {
      encoded := encoded + [marshal(items[i])];
      indexes := indexes + [i];
      i := i + 1;
    }
    var less := (a: int, b: int) => 0 <= a < |encoded| && 0 <= b < |encoded| && Less(encoded[a], encoded[b]);
    SortedIndexes(quote, items, indexes, less);
    sorted := Gather(items, StableSort(indexes, less));
  }

  predicate InRange(n: nat, order: seq<int>) { forall i | 0 <= i < |order| :: 0 <= order[i] < n }

  function Gather(items: seq<Json>, order: seq<int>): (r: seq<Json>)
    requires InRange(|items|, order)
    ensures |r| == |order| && forall i | 0 <= i < |order| :: r[i] == items[order[i]]
  {
    seq(|order|, i requires 0 <= i < |order| => items[order[i]])
  }

  ghost function ItemAt(items: seq<Json>): int -> Json {
    (j: int) => if 0 <= j < |items| then items[j] else JNull
  }

  lemma SortedIndexesInRange(n: nat, indexes: seq<int>, less: (int, int) -> bool)
    requires InRange(n, indexes)
    ensures InRange(n, StableSort(indexes, less))
  {
    var order := StableSort(indexes, less);
    StableSortPermutes(indexes, less);
    forall i | 0 <= i < |order| ensures 0 <= order[i] < n {
      assert order[i] in multiset(indexes);
    }
  }

  lemma EncodesBeforeAt(quote: Quote, items: seq<Json>, a: int, b: int)
    requires 0 <= a < |items| && 0 <= b < |items|
    ensures EncodesBefore(quote)(ItemAt(items)(a), ItemAt(items)(b)) == Less(Marshal(quote, items[a]), Marshal(quote, items[b]))
  {
    var x, y := ItemAt(items)(a), ItemAt(items)(b);
    assert x == items[a] && y == items[b];
    assert EncodesBefore(quote)(x, y) == Less(Marshaller(quote)(x), Marshaller(quote)(y));
    assert Marshaller(quote)(x) == Marshal(quote, x) && Marshaller(quote)(y) == Marshal(quote, y);
  }

  /** Sorting indexes by encoding and gathering is sorting the items. */
  lemma SortedIndexes(quote: Quote, items: seq<Json>, indexes: seq<int>, less: (int, int) -> bool)
    requires |indexes| == |items| && forall j | 0 <= j < |items| :: indexes[j] == j
    requires forall a, b | 0 <= a < |items| && 0 <= b < |items| ::
               less(a, b) == Less(Marshal(quote, items[a]), Marshal(quote, items[b]))
    ensures InRange(|items|, StableSort(indexes, less))
    ensures Gather(items, StableSort(indexes, less)) == StableSort(items, EncodesBefore(quote))
  {
    SortedIndexesInRange(|items|, indexes, less);
    var item, before := ItemAt(items), EncodesBefore(quote);
    forall a, b | a in indexes && b in indexes ensures less(a, b) == before(item(a), item(b)) {
      EncodesBeforeAt(quote, items, a, b);
    }
    GatherSorted(items, indexes, less, before);
  }

  lemma GatherSorted(items: seq<Json>, indexes: seq<int>, less: (int, int) -> bool, before: (Json, Json) -> bool)
    requires |indexes| == |items| && forall j | 0 <= j < |items| :: indexes[j] == j
    requires InRange(|items|, StableSort(indexes, less))
    requires forall a, b | a in indexes && b in indexes :: less(a, b) == before(ItemAt(items)(a), ItemAt(items)(b))
    ensures Gather(items, StableSort(indexes, less)) == StableSort(items, before)
  {
    MapStableSort(ItemAt(items), indexes, less, before);
    assert Map(ItemAt(items), indexes) == items;
    assert Gather(items, StableSort(indexes, less)) == Map(ItemAt(items), StableSort(indexes, less));
  }
}
