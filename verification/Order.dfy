/** Recovering the textual order of interleaved step and case blocks (internal/parser/order.go,
    with the decoding that loses it in internal/parser/decode.go). */
module Order {
  import opened Wrappers

  datatype StepKey = StepKey(provider: string, name: string)

  datatype SourceStep = SourceStep(key: StepKey, line: int)

  /** One child block of a scenario, keyword or teardown body. */
  datatype Block = Block(blockType: string, labels: seq<string>, line: int)

  /** A decoded step; reordering sets its line. */
  class Step {
    const provider: string
    const name: string
    var line: int

    constructor (provider: string, name: string)
      ensures this.provider == provider && this.name == name && line == 0
    {
      this.provider := provider;
      this.name := name;
      line := 0;
    }

    function Key(): StepKey { StepKey(provider, name) }
  }

  predicate DistinctSteps(steps: seq<Step>) {
    forall i, j | 0 <= i < j < |steps| :: steps[i].Key() != steps[j].Key()
  }

  predicate DistinctSources(order: seq<SourceStep>) {
    forall i, j | 0 <= i < j < |order| :: order[i].key != order[j].key
  }

  // ----- source order -----

  predicate IsStepBlock(b: Block) { b.blockType == "step" && |b.labels| == 2 }
  predicate IsCaseBlock(b: Block) { b.blockType == "case" && |b.labels| == 2 }

  function SourceOf(b: Block): SourceStep
    requires |b.labels| == 2
  {
    SourceStep(StepKey(b.labels[0], b.labels[1]), b.line)
  }

  /** The step and case blocks of a body, in textual order. */
  function SourceOrder(body: seq<Block>): seq<SourceStep> {
    if body == [] then []
    else (if IsStepBlock(body[0]) || IsCaseBlock(body[0]) then [SourceOf(body[0])] else []) + SourceOrder(body[1..])
  }

  lemma {:induction false} SourceOrderSnoc(body: seq<Block>, b: Block)
    ensures SourceOrder(body + [b]) == SourceOrder(body) + if IsStepBlock(b) || IsCaseBlock(b) then [SourceOf(b)] else []
  {
    if body == [] {
    } else {
      SourceOrderSnoc(body[1..], b);
      assert (body + [b])[1..] == body[1..] + [b];
    }
  }

  /** at are the places of the step and case blocks with two labels among the first n blocks, from the top
      of the body down, and order is what they say. */
  ghost predicate ListsBlocks(body: seq<Block>, n: nat, at: seq<nat>, order: seq<SourceStep>)
    requires n <= |body|
  {
    && |at| == |order|
    && (forall i: nat :: i in at <==> i < n && body[i].blockType in ["step", "case"] && |body[i].labels| == 2)
    && (forall j, k | 0 <= j < k < |at| :: at[j] < at[k])
    && (forall k | 0 <= k < |at| :: PlacedAt(body, at[k], order[k]))
  }

  predicate PlacedAt(body: seq<Block>, i: nat, s: SourceStep) {
    i < |body| && |body[i].labels| == 2 && s == SourceStep(StepKey(body[i].labels[0], body[i].labels[1]), body[i].line)
  }

  lemma OneMoreBlock(body: seq<Block>, n: nat, at: seq<nat>, order: seq<SourceStep>)
    requires n < |body| && ListsBlocks(body, n, at, order)
    ensures if IsStepBlock(body[n]) || IsCaseBlock(body[n])
            then ListsBlocks(body, n + 1, at + [n], order + [SourceOf(body[n])])
            else ListsBlocks(body, n + 1, at, order)
  {
    if IsStepBlock(body[n]) || IsCaseBlock(body[n]) {
      assert PlacedAt(body, n, SourceOf(body[n]));
      hide PlacedAt;
      forall k | 0 <= k < |at| ensures at[k] < n {
        assert at[k] in at;
      }
    }
  }

  /** It lists exactly those of the whole body. */
  lemma {:induction false} SourceOrderLists(body: seq<Block>, n: nat) returns (at: seq<nat>)
    requires n <= |body|
    ensures ListsBlocks(body, n, at, SourceOrder(body[..n]))
  {
    hide *;
    if n == 0 {
      NothingListed(body);
      at := [];
    } else {
      at := SourceOrderLists(body, n - 1);
      OneMoreBlock(body, n - 1, at, SourceOrder(body[..n - 1]));
      SourceOrderPrefix(body, n - 1);
      at := if IsStepBlock(body[n - 1]) || IsCaseBlock(body[n - 1]) then at + [n - 1] else at;
    }
  }

  lemma NothingListed(body: seq<Block>)
    ensures ListsBlocks(body, 0, [], SourceOrder(body[..0]))
  {
  }

  lemma SourceOrderPrefix(body: seq<Block>, n: nat)
    requires n < |body|
    ensures SourceOrder(body[..n + 1])
         == if IsStepBlock(body[n]) || IsCaseBlock(body[n]) then SourceOrder(body[..n]) + [SourceOf(body[n])]
            else SourceOrder(body[..n])
  {
    SourceOrderSnoc(body[..n], body[n]);
    assert body[..n + 1] == body[..n] + [body[n]];
  }

  method CollectSourceOrder(body: seq<Block>) returns (order: seq<SourceStep>)
    ensures order == SourceOrder(body)
  {
    order := [];
    var i := 0;
    while i < |body|
      invariant 0 <= i <= |body|
      invariant order + SourceOrder(body[i..]) == SourceOrder(body)
    {
      assert body[i..][1..] == body[i + 1..];
      if (body[i].blockType == "step" || body[i].blockType == "case") && |body[i].labels| == 2 {
        order := order + [SourceOf(body[i])];
      }
      i := i + 1;
    }
  }

  /** The keys gohcl decodes: all step blocks, then all case blocks. */
  function DecodedKeys(body: seq<Block>): seq<StepKey> {
    KeysOfType(body, true) + KeysOfType(body, false)
  }

  function KeysOfType(body: seq<Block>, steps: bool): seq<StepKey> {
    if body == [] then []
    else (if (if steps then IsStepBlock(body[0]) else IsCaseBlock(body[0])) then [SourceOf(body[0]).key] else [])
         + KeysOfType(body[1..], steps)
  }

  function SourceKeys(order: seq<SourceStep>): seq<StepKey> {
    seq(|order|, i requires 0 <= i < |order| => order[i].key)
  }

  function StepKeys(steps: seq<Step>): seq<StepKey> {
    seq(|steps|, i requires 0 <= i < |steps| => steps[i].Key())
  }

  lemma SourceKeysCons(first: SourceStep, order: seq<SourceStep>)
    ensures SourceKeys([first] + order) == [first.key] + SourceKeys(order)
  {
  }

  lemma InsertedAnywhere<T>(x: T, a: seq<T>, b: seq<T>)
    ensures multiset(([x] + a) + b) == multiset([x] + (a + b))
    ensures multiset(a + ([x] + b)) == multiset([x] + (a + b))
  {
  }

  lemma SameAfterCons<T>(x: T, a: seq<T>, b: seq<T>)
    requires multiset(a) == multiset(b)
    ensures multiset([x] + a) == multiset([x] + b)
  {
  }

  /** Decoding loses the order but nothing else. */
  lemma {:induction false} DecodingPermutes(body: seq<Block>)
    ensures multiset(DecodedKeys(body)) == multiset(SourceKeys(SourceOrder(body)))
  {
    if body != [] {
      var b, rest := body[0], body[1..];
      DecodingPermutes(rest);
      var steps, cases, source := KeysOfType(rest, true), KeysOfType(rest, false), SourceOrder(rest);
      if IsStepBlock(b) {
        assert KeysOfType(body, true) == [SourceOf(b).key] + steps && KeysOfType(body, false) == [] + cases == cases;
        assert SourceOrder(body) == [SourceOf(b)] + source;
        Added(SourceOf(b), steps, cases, source);
      } else if IsCaseBlock(b) {
        assert KeysOfType(body, true) == [] + steps == steps && KeysOfType(body, false) == [SourceOf(b).key] + cases;
        assert SourceOrder(body) == [SourceOf(b)] + source;
        Added(SourceOf(b), steps, cases, source);
      } else {
        assert KeysOfType(body, true) == [] + steps == steps && KeysOfType(body, false) == [] + cases == cases;
        assert SourceOrder(body) == [] + source == source;
      }
    }
  }

  lemma Added(first: SourceStep, steps: seq<StepKey>, cases: seq<StepKey>, source: seq<SourceStep>)
    requires multiset(steps + cases) == multiset(SourceKeys(source))
    ensures multiset(([first.key] + steps) + cases) == multiset(SourceKeys([first] + source))
    ensures multiset(steps + ([first.key] + cases)) == multiset(SourceKeys([first] + source))
  {
    SourceKeysCons(first, source);
    InsertedAnywhere(first.key, steps, cases);
    SameAfterCons(first.key, steps + cases, SourceKeys(source));
  }

  // ----- reordering -----

  /** The decoded and the source lists agree as reorderStepsBySource tests it. */
  predicate Agree(steps: seq<Step>, order: seq<SourceStep>) {
    && |order| == |steps|
    && DistinctSteps(steps)
    && forall i | 0 <= i < |order| :: order[i].key in StepKeys(steps)
  }

  /** The position of a key among the decoded steps. */
  function Find(steps: seq<Step>, key: StepKey): (i: nat)
    requires key in StepKeys(steps)
    ensures i < |steps| && steps[i].Key() == key
  {
    if steps[0].Key() == key then 0
    else
      assert StepKeys(steps)[1..] == StepKeys(steps[1..]);
      1 + Find(steps[1..], key)
  }

  function Reordered(steps: seq<Step>, order: seq<SourceStep>): seq<Step> {
    if Agree(steps, order) then seq(|order|, i requires 0 <= i < |order| => steps[Find(steps, order[i].key)]) else steps
  }

  /** The line a step ends with after these source entries: the last positive one under its key. */
  function LineAfter(order: seq<SourceStep>, key: StepKey, line: int): int {
    if order == [] then line
    else
      var last := order[|order| - 1];
      if last.key == key && last.line > 0 then last.line else LineAfter(order[..|order| - 1], key, line)
  }

  /** The line is that of the last entry under the key with a position, entry i; without one, i < 0, it
      stays. */
  lemma {:induction false} LineOfKey(order: seq<SourceStep>, key: StepKey, line: int) returns (i: int)
    ensures i < |order| && forall j | 0 <= j < |order| && i < j && order[j].key == key :: order[j].line <= 0
    ensures if i < 0 then LineAfter(order, key, line) == line
            else order[i].key == key && order[i].line > 0 && LineAfter(order, key, line) == order[i].line
  {
    if order == [] {
      return -1;
    }
    var last := order[|order| - 1];
    if last.key == key && last.line > 0 {
      return |order| - 1;
    }
    i := LineOfKey(order[..|order| - 1], key, line);
    assert forall j | 0 <= j < |order| - 1 :: order[..|order| - 1][j] == order[j];
  }

  /** How many source entries are worked off before the reordering gives up, or all of them. */
  function Processed(steps: seq<Step>, order: seq<SourceStep>): (n: nat)
    ensures n <= |order|
  {
    if |order| != |steps| || !DistinctSteps(steps) then 0 else MatchedPrefix(steps, order)
  }

  function MatchedPrefix(steps: seq<Step>, order: seq<SourceStep>): (n: nat)
    ensures n <= |order|
    ensures forall i | 0 <= i < n :: order[i].key in StepKeys(steps)
    ensures n < |order| ==> order[n].key !in StepKeys(steps)
  {
    if order == [] || order[0].key !in StepKeys(steps) then 0 else 1 + MatchedPrefix(steps, order[1..])
  }

  /** The byKey index, or None when two decoded steps share a key. */
  method IndexByKey(steps: seq<Step>) returns (byKey: Option<map<StepKey, Step>>)
    ensures byKey.Some? <==> DistinctSteps(steps)
    ensures byKey.Some? ==> forall k :: k in byKey.value <==> k in StepKeys(steps)
    ensures byKey.Some? ==> forall k | k in StepKeys(steps) :: byKey.value[k] == steps[Find(steps, k)]
    ensures byKey.Some? ==> forall k | k in byKey.value :: byKey.value[k] in steps && byKey.value[k].Key() == k
  {
    var index: map<StepKey, Step> := map[];
    var i := 0;
    while i < |steps|
      invariant 0 <= i <= |steps|
      invariant forall k | k in index :: index[k].Key() == k && index[k] in steps[..i]
      invariant forall j | 0 <= j < i :: steps[j].Key() in index
      invariant DistinctSteps(steps[..i])
    {
      var key := steps[i].Key();
      if key in index {
        assert exists j :: 0 <= j < i && steps[j].Key() == key;
        return None;
      }
      NewKey(steps, i);
      hide DistinctSteps;
      index := index[key := steps[i]];
      i := i + 1;
    }
    assert steps[..|steps|] == steps;
    IndexIsFind(steps, index);
    byKey := Some(index);
  }

  lemma NewKey(steps: seq<Step>, i: nat)
    requires i < |steps| && DistinctSteps(steps[..i])
    requires forall j | 0 <= j < i :: steps[j].Key() != steps[i].Key()
    ensures DistinctSteps(steps[..i + 1])
  {
  }

  lemma IndexIsFind(steps: seq<Step>, index: map<StepKey, Step>)
    requires DistinctSteps(steps)
    requires forall k | k in index :: index[k].Key() == k && index[k] in steps
    requires forall j | 0 <= j < |steps| :: steps[j].Key() in index
    ensures forall k :: k in index <==> k in StepKeys(steps)
    ensures forall k | k in StepKeys(steps) :: index[k] == steps[Find(steps, k)]
  {
    forall k ensures k in index <==> k in StepKeys(steps) {
      if k in index {
        var j :| 0 <= j < |steps| && steps[j] == index[k];
        assert StepKeys(steps)[j] == k;
      }
      if k in StepKeys(steps) {
        var j :| 0 <= j < |steps| && StepKeys(steps)[j] == k;
        assert steps[j].Key() == k;
      }
    }
    forall k | k in StepKeys(steps) ensures index[k] == steps[Find(steps, k)] {
      var j :| 0 <= j < |steps| && steps[j] == index[k];
      assert steps[j].Key() == steps[Find(steps, k)].Key();
    }
  }

  method ReorderStepsBySource(steps: seq<Step>, order: seq<SourceStep>) returns (out: seq<Step>)
    modifies set s | s in steps
    ensures out == Reordered(steps, order)
    ensures forall s | s in steps :: s.line == LineAfter(order[..Processed(steps, order)], s.Key(), old(s.line))
  {
    if |order| != |steps| {
      return steps;
    }
    var byKey := IndexByKey(steps);
    if byKey.None? {
      return steps;
    }
    MatchedPrefixDecides(steps, order);
    var reordered := CollectInOrder(steps, order, byKey.value);
    MatchedPrefixUnique(steps, order, |reordered|);
    out := if |reordered| == |order| then reordered else steps;
  }

  lemma {:induction false} MatchedPrefixUnique(steps: seq<Step>, order: seq<SourceStep>, n: nat)
    requires n <= |order| && forall i | 0 <= i < n :: order[i].key in StepKeys(steps)
    requires n < |order| ==> order[n].key !in StepKeys(steps)
    ensures n == MatchedPrefix(steps, order)
  {
  }

  /** The final loop: collects steps and sets lines until a source key has no step. */
  method CollectInOrder(steps: seq<Step>, order: seq<SourceStep>, byKey: map<StepKey, Step>) returns (out: seq<Step>)
    requires DistinctSteps(steps)
    requires forall k | k in byKey :: byKey[k] in steps && byKey[k].Key() == k
    modifies set s | s in steps
    ensures |out| <= |order|
    ensures forall j | 0 <= j < |out| :: order[j].key in byKey && out[j] == byKey[order[j].key]
    ensures |out| < |order| ==> order[|out|].key !in byKey
    ensures forall s | s in steps :: s.line == LineAfter(order[..|out|], s.Key(), old(s.line))
  {
    out := [];
    while |out| < |order|
      invariant |out| <= |order|
      invariant forall j | 0 <= j < |out| :: order[j].key in byKey && out[j] == byKey[order[j].key]
      invariant forall s | s in steps :: s.line == LineAfter(order[..|out|], s.Key(), old(s.line))
    {
      var i := |out|;
      if order[i].key !in byKey {
        return;
      }
      var step := byKey[order[i].key];
      SetLine(steps, order, i, step);
      forall s | s in steps ensures s.line == LineAfter(order[..i + 1], s.Key(), old(s.line)) {
        LineAfterOne(order, i, s.Key(), old(s.line));
      }
      out := out + [step];
    }
  }

  lemma LineAfterOne(order: seq<SourceStep>, i: nat, key: StepKey, line: int)
    requires i < |order|
    ensures LineAfter(order[..i + 1], key, line) ==
            if order[i].key == key && order[i].line > 0 then order[i].line else LineAfter(order[..i], key, line)
  {
    assert order[..i + 1][..i] == order[..i];
  }

  lemma MatchedPrefixDecides(steps: seq<Step>, order: seq<SourceStep>)
    requires |order| == |steps| && DistinctSteps(steps)
    ensures Agree(steps, order) <==> MatchedPrefix(steps, order) == |order|
  {
  }

  /** One entry's line assignment: only the step under its key may change. */
  method SetLine(ghost steps: seq<Step>, order: seq<SourceStep>, i: nat, step: Step)
    requires i < |order| && step in steps && step.Key() == order[i].key
    requires DistinctSteps(steps)
    modifies step
    ensures forall s | s in steps ::
              s.line == if s.Key() == order[i].key && order[i].line > 0 then order[i].line else old(s.line)
  {
    if order[i].line > 0 {
      step.line := order[i].line;
    }
  }

  // ----- what it guarantees -----

  lemma {:induction false} SubsetCardinality<T>(a: set<T>, b: set<T>)
    requires a <= b
    ensures |a| <= |b|
    ensures |a| == |b| ==> a == b
  {
    if a != {} {
      var x :| x in a;
      SubsetCardinality(a - {x}, b - {x});
    }
  }

  lemma {:induction false} DistinctCount<T>(s: seq<T>)
    requires forall i, j | 0 <= i < j < |s| :: s[i] != s[j]
    ensures |set x | x in s| == |s|
    ensures forall x :: multiset(s)[x] == if x in s then 1 else 0
  {
    if s != [] {
      var front, last := s[..|s| - 1], s[|s| - 1];
      DistinctCount(front);
      assert s == front + [last];
      assert (set x | x in s) == (set x | x in front) + {last};
    }
  }

  lemma RepeatCounts<T>(s: seq<T>, i: nat, j: nat)
    requires i < j < |s| && s[i] == s[j]
    ensures multiset(s)[s[j]] >= 2
  {
    assert s == s[..j] + [s[j]] + s[j + 1..];
    assert s[..j][i] == s[i];
  }

  /** Pigeonhole: as many distinct items as the distinct list they are drawn from. */
  lemma DistinctWithin<T>(s: seq<T>, t: seq<T>)
    requires |s| == |t|
    requires forall i, j | 0 <= i < j < |s| :: s[i] != s[j]
    requires forall i, j | 0 <= i < j < |t| :: t[i] != t[j]
    requires forall i | 0 <= i < |s| :: s[i] in t
    ensures multiset(s) == multiset(t)
  {
    DistinctCount(s);
    DistinctCount(t);
    var inS, inT := set x | x in s, set x | x in t;
    forall x | x in inS ensures x in inT {
      var i :| 0 <= i < |s| && s[i] == x;
    }
    SubsetCardinality(inS, inT);
    forall x ensures multiset(s)[x] == multiset(t)[x] {
      assert x in s <==> x in inS;
      assert x in t <==> x in inT;
    }
  }

  lemma ReorderedKeys(steps: seq<Step>, order: seq<SourceStep>, i: nat)
    requires Agree(steps, order) && i < |order|
    ensures |Reordered(steps, order)| == |order| == |steps|
    ensures Reordered(steps, order)[i].Key() == order[i].key && Reordered(steps, order)[i] in steps
  {
  }

  lemma PermutesWhenDistinct(steps: seq<Step>, order: seq<SourceStep>)
    requires Agree(steps, order) && DistinctSources(order)
    ensures multiset(Reordered(steps, order)) == multiset(steps)
  {
    var out := Reordered(steps, order);
    forall i | 0 <= i < |order| ensures out[i].Key() == order[i].key && out[i] in steps {
      ReorderedKeys(steps, order, i);
    }
    DistinctWithin(out, steps);
  }

  lemma RepeatLosesAStep(steps: seq<Step>, order: seq<SourceStep>, i: nat, j: nat)
    requires Agree(steps, order) && i < j < |order| && order[i].key == order[j].key
    ensures multiset(Reordered(steps, order)) != multiset(steps)
  {
    var out := Reordered(steps, order);
    assert out[i] == out[j];
    DistinctCount(steps);
    RepeatCounts(out, i, j);
  }

  /** No step is dropped or duplicated, except in one case: the lists pass the agreement tests and
      yet a source key repeats. */
  lemma PermutesExactly(steps: seq<Step>, order: seq<SourceStep>)
    ensures multiset(Reordered(steps, order)) == multiset(steps) <==>
            (Agree(steps, order) ==> DistinctSources(order))
  {
    hide Reordered;
    if !Agree(steps, order) {
      NotReordered(steps, order);
    } else if DistinctSources(order) {
      PermutesWhenDistinct(steps, order);
    } else {
      var i, j :| 0 <= i < j < |order| && order[i].key == order[j].key;
      RepeatLosesAStep(steps, order, i, j);
    }
  }

  lemma NotReordered(steps: seq<Step>, order: seq<SourceStep>)
    requires !Agree(steps, order)
    ensures Reordered(steps, order) == steps
  {
  }

  /** The exceptional case exists for lists that do not come from one body: two steps, and a source
      list that names one of them twice. */
  lemma DuplicateSourceDropsAStep(a: Step, b: Step)
    requires a.Key() != b.Key()
    ensures var twice := [SourceStep(a.Key(), 1), SourceStep(a.Key(), 2)];
            Reordered([a, b], twice) == [a, a]
  {
    var steps, twice := [a, b], [SourceStep(a.Key(), 1), SourceStep(a.Key(), 2)];
    assert StepKeys(steps)[0] == a.Key();
    assert Agree(steps, twice);
    assert Find(steps, a.Key()) == 0;
  }

  predicate DistinctKeys(keys: seq<StepKey>) {
    forall i, j | 0 <= i < j < |keys| :: keys[i] != keys[j]
  }

  lemma {:induction false} PermutedDistinct(a: seq<StepKey>, b: seq<StepKey>)
    requires multiset(a) == multiset(b) && DistinctKeys(a)
    ensures DistinctKeys(b) && |a| == |b| && forall k :: k in a <==> k in b
  {
    DistinctCount(a);
    assert |multiset(a)| == |a| && |multiset(b)| == |b|;
    forall i, j | 0 <= i < j < |b| ensures b[i] != b[j] {
      if b[i] == b[j] {
        RepeatCounts(b, i, j);
      }
    }
    forall k ensures k in a <==> k in b {
      assert k in multiset(a) <==> k in multiset(b);
    }
  }

  /** Distinct decoded keys come from distinct source keys, and the other way round. */
  lemma DecodedAgree(body: seq<Block>, steps: seq<Step>)
    requires StepKeys(steps) == DecodedKeys(body)
    ensures DistinctSteps(steps) <==> DistinctSources(SourceOrder(body))
    ensures DistinctSources(SourceOrder(body)) ==> Agree(steps, SourceOrder(body))
  {
    var order := SourceOrder(body);
    DecodingPermutes(body);
    assert DistinctKeys(StepKeys(steps)) <==> DistinctSteps(steps) by {
      assert forall i | 0 <= i < |steps| :: StepKeys(steps)[i] == steps[i].Key();
    }
    assert DistinctKeys(SourceKeys(order)) <==> DistinctSources(order) by {
      assert forall i | 0 <= i < |order| :: SourceKeys(order)[i] == order[i].key;
    }
    if DistinctSources(order) {
      PermutedDistinct(SourceKeys(order), DecodedKeys(body));
      forall i | 0 <= i < |order| ensures order[i].key in StepKeys(steps) {
        assert SourceKeys(order)[i] in SourceKeys(order);
      }
    }
    if DistinctSteps(steps) {
      PermutedDistinct(DecodedKeys(body), SourceKeys(order));
    }
  }

  /** Steps decoded from a body are reordered without loss, whatever their keys. */
  lemma DecodedStepsAreKept(body: seq<Block>, steps: seq<Step>)
    requires StepKeys(steps) == DecodedKeys(body)
    ensures multiset(Reordered(steps, SourceOrder(body))) == multiset(steps)
  {
    DecodedAgree(body, steps);
    PermutesExactly(steps, SourceOrder(body));
  }

  /** Round trip: decoded steps come back in the order of the text exactly when their (provider, name)
      keys are distinct, or decoding had not disturbed the order in the first place. */
  lemma RoundTrip(body: seq<Block>, steps: seq<Step>)
    requires StepKeys(steps) == DecodedKeys(body)
    ensures StepKeys(Reordered(steps, SourceOrder(body))) == SourceKeys(SourceOrder(body))
       <==> DistinctSources(SourceOrder(body)) || DecodedKeys(body) == SourceKeys(SourceOrder(body))
  {
    var order := SourceOrder(body);
    DecodedAgree(body, steps);
    if DistinctSources(order) {
      forall i | 0 <= i < |order| ensures Reordered(steps, order)[i].Key() == order[i].key {
        ReorderedKeys(steps, order, i);
      }
      assert |Reordered(steps, order)| == |order|;
    } else {
      NotReordered(steps, order);
    }
  }
}
