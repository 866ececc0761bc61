/** The deprecation walk (internal/parser/deprecation.go), whose recursion shares one growing slice
    buffer between sibling blocks. */
module Deprecation {
  import opened Wrappers
  import opened Sorting

  datatype Range = Range(filename: string, line: int, column: int)

  datatype Kind = BlockRule | AttributeRule

  datatype Rule = Rule(kind: Kind, name: string, within: seq<string>, detail: string)

  datatype Body = Body(attributes: map<string, Range>, blocks: seq<Block>)
  datatype Block = Block(blockType: string, defRange: Range, body: Body)

  /** One warning: the rule that matched and where. */
  datatype Warning = Warning(rule: Rule, subject: Option<Range>)

  // ----- Go slices -----

  /** A slice header: the first `len` elements of a backing array it may share. */
  datatype Slice = Slice(backing: array<string>, len: nat) {
    ghost predicate Valid()
    {
      len <= backing.Length
    }

    ghost function View(): seq<string>
      requires Valid()
      reads backing
    {
      backing[..len]
    }
  }

  /** append: writes in place while there is room behind the header, reallocates otherwise. */
  method Append(s: Slice, x: string) returns (r: Slice)
    requires s.Valid()
    modifies s.backing
    ensures r.Valid() && r.View() == old(s.View()) + [x]
    ensures s.View() == old(s.View())
    ensures r.backing == s.backing || fresh(r.backing)
  {
    if s.len < s.backing.Length {
      s.backing[s.len] := x;
      r := Slice(s.backing, s.len + 1);
      assert s.backing[..s.len] == old(s.backing[..s.len]);
      assert r.View() == s.backing[..s.len] + [x];
    } else {
      var spare: nat :| true;
      var grown := new string[s.len + 1 + spare](i => "");
      var i := 0;
      while i < s.len
        invariant 0 <= i <= s.len
        invariant s.backing[..] == old(s.backing[..])
        invariant forall j | 0 <= j < i :: grown[j] == s.backing[j]
      {
        grown[i] := s.backing[i];
        i := i + 1;
      }
      grown[s.len] := x;
      r := Slice(grown, s.len + 1);
      assert s.View() == old(s.backing[..])[..s.len];
      assert r.View() == s.View() + [x];
    }
  }

  // ----- matching -----

  /** The chain of enclosing block types ends with `within`. */
  predicate EndsWith(parents: seq<string>, within: seq<string>) {
    |within| <= |parents| && parents[|parents| - |within|..] == within
  }

  method MatchesWithin(within: seq<string>, parents: Slice) returns (ok: bool)
    requires parents.Valid()
    ensures ok <==> EndsWith(parents.View(), within)
  {
    if |within| == 0 {
      return true;
    }
    if |within| > parents.len {
      return false;
    }
    var offset := parents.len - |within|;
    var i := 0;
    while i < |within|
      invariant 0 <= i <= |within|
      invariant parents.View()[offset..offset + i] == within[..i]
    {
      if parents.backing[offset + i] != within[i] {
        assert parents.View()[offset..][i] != within[i];
        return false;
      }
      assert parents.View()[offset..offset + i + 1] == parents.View()[offset..offset + i] + [within[i]];
      assert within[..i + 1] == within[..i] + [within[i]];
      i := i + 1;
    }
    assert within[..|within|] == within;
    ok := true;
  }

  predicate Fits(rule: Rule, kind: Kind, name: string, parents: seq<string>) {
    rule.kind == kind && rule.name == name && EndsWith(parents, rule.within)
  }

  /** The first rule that fits. */
  function FirstFit(rules: seq<Rule>, kind: Kind, name: string, parents: seq<string>): (r: Option<Rule>)
    ensures r.Some? ==> Fits(r.value, kind, name, parents)
  {
    if rules == [] then None
    else if Fits(rules[0], kind, name, parents) then Some(rules[0])
    else FirstFit(rules[1..], kind, name, parents)
  }

  /** rule is in the list, fits, and no rule before it does. */
  ghost predicate FirstToFit(rules: seq<Rule>, rule: Rule, kind: Kind, name: string, parents: seq<string>) {
    exists i :: 0 <= i < |rules| && rules[i] == rule && Fits(rule, kind, name, parents)
                && forall j | 0 <= j < i :: !Fits(rules[j], kind, name, parents)
  }

  /** The search finds the first rule of the list that fits, and none only if none does. */
  lemma {:induction false} FirstFitExactly(rules: seq<Rule>, kind: Kind, name: string, parents: seq<string>)
    ensures FirstFit(rules, kind, name, parents).None? <==> forall i | 0 <= i < |rules| :: !Fits(rules[i], kind, name, parents)
    ensures forall rule :: FirstFit(rules, kind, name, parents) == Some(rule) <==> FirstToFit(rules, rule, kind, name, parents)
  {
    if rules == [] {
    } else if Fits(rules[0], kind, name, parents) {
      assert FirstToFit(rules, rules[0], kind, name, parents);
    } else {
      FirstFitExactly(rules[1..], kind, name, parents);
      forall rule ensures FirstToFit(rules[1..], rule, kind, name, parents) <==> FirstToFit(rules, rule, kind, name, parents) {
        FirstToFitLater(rules, rule, kind, name, parents);
      }
    }
  }

  lemma FirstToFitLater(rules: seq<Rule>, rule: Rule, kind: Kind, name: string, parents: seq<string>)
    requires rules != [] && !Fits(rules[0], kind, name, parents)
    ensures FirstToFit(rules[1..], rule, kind, name, parents) <==> FirstToFit(rules, rule, kind, name, parents)
  {
    hide Fits;
    var rest := rules[1..];
    if i :| 0 <= i < |rest| && rest[i] == rule && Fits(rule, kind, name, parents)
            && forall j | 0 <= j < i :: !Fits(rest[j], kind, name, parents) {
      forall j | 0 <= j < i + 1 ensures !Fits(rules[j], kind, name, parents) {
        assert j > 0 ==> rules[j] == rest[j - 1];
      }
      assert rules[i + 1] == rule;
    }
    if i :| 0 <= i < |rules| && rules[i] == rule && Fits(rule, kind, name, parents)
            && forall j | 0 <= j < i :: !Fits(rules[j], kind, name, parents) {
      assert rest[i - 1] == rule;
      assert forall j | 0 <= j < i - 1 :: rest[j] == rules[j + 1];
    }
  }

  method MatchDeprecation(rules: seq<Rule>, kind: Kind, name: string, parents: Slice) returns (r: Option<Rule>)
    requires parents.Valid()
    ensures r == FirstFit(rules, kind, name, parents.View())
  {
    var i := 0;
    while i < |rules|
      invariant 0 <= i <= |rules|
      invariant FirstFit(rules[i..], kind, name, parents.View()) == FirstFit(rules, kind, name, parents.View())
    {
      assert rules[i..][1..] == rules[i + 1..];
      if rules[i].kind == kind && rules[i].name == name {
        var ok := MatchesWithin(rules[i].within, parents);
        if ok {
          return Some(rules[i]);
        }
      }
      i := i + 1;
    }
    r := None;
  }

  // ----- the pure walk -----

  function AttributeHit(rules: seq<Rule>, body: Body, name: string, parents: seq<string>): Option<Warning>
    requires name in body.attributes
  {
    var rule := FirstFit(rules, AttributeRule, name, parents);
    if rule.Some? then Some(Warning(rule.value, Some(body.attributes[name]))) else None
  }

  function BlockHit(rules: seq<Rule>, block: Block, parents: seq<string>): Option<Warning> {
    var rule := FirstFit(rules, BlockRule, block.blockType, parents);
    if rule.Some? then Some(Warning(rule.value, Some(block.defRange))) else None
  }

  function AttributeHits(rules: seq<Rule>, body: Body, names: set<string>, parents: seq<string>): set<Warning>
    requires names <= body.attributes.Keys
  {
    set name | name in names && AttributeHit(rules, body, name, parents).Some? :: AttributeHit(rules, body, name, parents).value
  }

  function Optional(w: Option<Warning>): multiset<Warning> {
    if w.Some? then multiset{w.value} else multiset{}
  }

  /** Depth-first search with an immutable ancestor chain. */
  function Hits(rules: seq<Rule>, body: Body, parents: seq<string>): multiset<Warning>
    decreases body, 1
  {
    multiset(AttributeHits(rules, body, body.attributes.Keys, parents)) + BlockHits(rules, body, 0, parents)
  }

  /** What the blocks from index n on contribute. */
  function BlockHits(rules: seq<Rule>, body: Body, n: nat, parents: seq<string>): multiset<Warning>
    requires n <= |body.blocks|
    decreases body, 0, |body.blocks| - n
  {
    if n == |body.blocks| then multiset{}
    else HitsFrom(rules, body.blocks[n], parents) + BlockHits(rules, body, n + 1, parents)
  }

  /** The block itself, then everything inside it. */
  function HitsFrom(rules: seq<Rule>, block: Block, parents: seq<string>): multiset<Warning>
    decreases block
  {
    Optional(BlockHit(rules, block, parents)) + Hits(rules, block.body, parents + [block.blockType])
  }

  /** Following block indexes from a body leads to another body. */
  predicate IsPath(body: Body, path: seq<nat>)
    decreases path
  {
    path != [] ==> path[0] < |body.blocks| && IsPath(body.blocks[path[0]].body, path[1..])
  }

  function BodyAt(body: Body, path: seq<nat>): Body
    requires IsPath(body, path)
    decreases path
  {
    if path == [] then body else BodyAt(body.blocks[path[0]].body, path[1..])
  }

  /** The types of the blocks a path goes through, outermost first. */
  function Chain(body: Body, path: seq<nat>): seq<string>
    requires IsPath(body, path)
    decreases path
  {
    if path == [] then [] else [body.blocks[path[0]].blockType] + Chain(body.blocks[path[0]].body, path[1..])
  }

  /** Where an attribute or block lies: the path to its body, and which one it is there. */
  datatype Slot = AttributeSlot(name: string) | BlockSlot(i: nat)
  datatype Place = Place(path: seq<nat>, slot: Slot)

  /** The attribute or block at p raises w: w's rule is the first of the list to fit it, judged against
      exactly the block types enclosing it, and w points there. */
  ghost predicate RaisedBy(rules: seq<Rule>, body: Body, parents: seq<string>, p: Place, w: Warning) {
    && IsPath(body, p.path)
    && var at, chain := BodyAt(body, p.path), parents + Chain(body, p.path);
       match p.slot
       case AttributeSlot(name) =>
         && name in at.attributes && w.subject == Some(at.attributes[name])
         && FirstToFit(rules, w.rule, AttributeRule, name, chain)
       case BlockSlot(i) =>
         && i < |at.blocks| && w.subject == Some(at.blocks[i].defRange)
         && FirstToFit(rules, w.rule, BlockRule, at.blocks[i].blockType, chain)
  }

  lemma HitsAreFirstFits(rules: seq<Rule>, body: Body, parents: seq<string>, w: Warning)
    ensures forall name | name in body.attributes ::
              AttributeHit(rules, body, name, parents) == Some(w)
              <==> w.subject == Some(body.attributes[name]) && FirstToFit(rules, w.rule, AttributeRule, name, parents)
    ensures forall i | 0 <= i < |body.blocks| ::
              BlockHit(rules, body.blocks[i], parents) == Some(w)
              <==> w.subject == Some(body.blocks[i].defRange)
                   && FirstToFit(rules, w.rule, BlockRule, body.blocks[i].blockType, parents)
  {
    forall name | name in body.attributes
      ensures AttributeHit(rules, body, name, parents) == Some(w)
         <==> w.subject == Some(body.attributes[name]) && FirstToFit(rules, w.rule, AttributeRule, name, parents)
    {
      FirstFitExactly(rules, AttributeRule, name, parents);
    }
    forall i | 0 <= i < |body.blocks|
      ensures BlockHit(rules, body.blocks[i], parents) == Some(w)
         <==> w.subject == Some(body.blocks[i].defRange)
              && FirstToFit(rules, w.rule, BlockRule, body.blocks[i].blockType, parents)
    {
      FirstFitExactly(rules, BlockRule, body.blocks[i].blockType, parents);
    }
  }

  lemma RaisedHere(rules: seq<Rule>, body: Body, parents: seq<string>, slot: Slot, w: Warning)
    ensures RaisedBy(rules, body, parents, Place([], slot), w) <==>
            match slot
            case AttributeSlot(name) => name in body.attributes && AttributeHit(rules, body, name, parents) == Some(w)
            case BlockSlot(i) => i < |body.blocks| && BlockHit(rules, body.blocks[i], parents) == Some(w)
  {
    assert parents + Chain(body, []) == parents;
    assert IsPath(body, []) && BodyAt(body, []) == body;
    HitsAreFirstFits(rules, body, parents, w);
    hide FirstToFit;
    hide AttributeHit;
    hide BlockHit;
  }

  /** The place seen from one body further out. */
  function Under(i: nat, q: Place): Place {
    Place([i] + q.path, q.slot)
  }

  lemma RaisedDeeper(rules: seq<Rule>, body: Body, parents: seq<string>, i: nat, q: Place, w: Warning)
    requires i < |body.blocks|
    ensures RaisedBy(rules, body.blocks[i].body, parents + [body.blocks[i].blockType], q, w)
            <==> RaisedBy(rules, body, parents, Under(i, q), w)
  {
    hide FirstToFit;
    var whole := [i] + q.path;
    assert whole[0] == i && whole[1..] == q.path;
    assert IsPath(body, whole) == IsPath(body.blocks[i].body, q.path);
    if IsPath(body, whole) {
      var below := Chain(body.blocks[i].body, q.path);
      assert Chain(body, whole) == [body.blocks[i].blockType] + below;
      assert parents + ([body.blocks[i].blockType] + below) == (parents + [body.blocks[i].blockType]) + below;
      assert BodyAt(body, whole) == BodyAt(body.blocks[i].body, q.path);
    }
  }

  /** p is one of the body's blocks from index n on, or lies inside one. */
  predicate FromBlock(p: Place, n: nat) {
    if p.path == [] then p.slot.BlockSlot? && p.slot.i >= n else p.path[0] >= n
  }

  lemma {:induction false} LiftKeepsCount(i: nat, places: set<Place>)
    ensures |set q | q in places :: Under(i, q)| == |places|
  {
    var lifted := set q | q in places :: Under(i, q);
    if q :| q in places {
      LiftKeepsCount(i, places - {q});
      var rest := set r | r in places - {q} :: Under(i, r);
      assert lifted == rest + {Under(i, q)};
      assert forall r | r in places - {q} :: Under(i, r).path[1..] == r.path && r != q;
      assert Under(i, q).path[1..] == q.path;
      assert Under(i, q) !in rest;
    } else {
      assert lifted == {};
    }
  }

  /** The search counts: how often it reports w is how many attributes and blocks of the whole tree
      raise it, each judged against the chain of blocks that really encloses it. */
  lemma {:induction false} HitsCountPlaces(rules: seq<Rule>, body: Body, parents: seq<string>, w: Warning)
    returns (places: set<Place>)
    ensures forall p :: p in places <==> RaisedBy(rules, body, parents, p, w)
    ensures Hits(rules, body, parents)[w] == |places|
    decreases body, 1
  {
    var own := AttributePlaces(rules, body, parents, w);
    var deeper := BlockHitsCountPlaces(rules, body, 0, parents, w);
    places := own + deeper;
    assert own !! deeper;
  }

  /** At most one attribute of a body raises w: the one the rule names. */
  lemma AttributePlaces(rules: seq<Rule>, body: Body, parents: seq<string>, w: Warning) returns (places: set<Place>)
    ensures forall p :: p in places <==>
              p.path == [] && p.slot.AttributeSlot? && RaisedBy(rules, body, parents, p, w)
    ensures multiset(AttributeHits(rules, body, body.attributes.Keys, parents))[w] == |places|
  {
    forall slot ensures RaisedBy(rules, body, parents, Place([], slot), w) <==>
                        match slot
                        case AttributeSlot(name) => name in body.attributes && AttributeHit(rules, body, name, parents) == Some(w)
                        case BlockSlot(i) => i < |body.blocks| && BlockHit(rules, body.blocks[i], parents) == Some(w)
    {
      RaisedHere(rules, body, parents, slot, w);
    }
    var name := w.rule.name;
    assert w in AttributeHits(rules, body, body.attributes.Keys, parents)
      <==> name in body.attributes && AttributeHit(rules, body, name, parents) == Some(w);
    places := if w in AttributeHits(rules, body, body.attributes.Keys, parents) then {Place([], AttributeSlot(name))} else {};
    hide RaisedBy;
    forall p ensures p in places <==> p.path == [] && p.slot.AttributeSlot? && RaisedBy(rules, body, parents, p, w) {
      assert p.path == [] ==> p == Place([], p.slot);
    }
  }

  lemma {:induction false} BlockHitsCountPlaces(rules: seq<Rule>, body: Body, n: nat, parents: seq<string>, w: Warning)
    returns (places: set<Place>)
    requires n <= |body.blocks|
    ensures forall p :: p in places <==> FromBlock(p, n) && RaisedBy(rules, body, parents, p, w)
    ensures BlockHits(rules, body, n, parents)[w] == |places|
    decreases body, 0, |body.blocks| - n
  {
    hide *;
    BlockHitsUnfold(rules, body, n, parents, w);
    if n == |body.blocks| {
      return {};
    }
    var here := OneBlockPlaces(rules, body, n, parents, w);
    var rest := BlockHitsCountPlaces(rules, body, n + 1, parents, w);
    places := here + rest;
    JoinPlaces(rules, body, n, parents, w, here, rest);
  }

  lemma BlockHitsUnfold(rules: seq<Rule>, body: Body, n: nat, parents: seq<string>, w: Warning)
    requires n <= |body.blocks|
    ensures n == |body.blocks| ==>
              BlockHits(rules, body, n, parents)[w] == 0 && forall p | FromBlock(p, n) :: !RaisedBy(rules, body, parents, p, w)
    ensures n < |body.blocks| ==>
              BlockHits(rules, body, n, parents)[w]
              == HitsFrom(rules, body.blocks[n], parents)[w] + BlockHits(rules, body, n + 1, parents)[w]
  {
    hide FirstToFit;
    hide HitsFrom;
    hide Chain;
    if n == |body.blocks| {
      forall p | FromBlock(p, n) ensures !RaisedBy(rules, body, parents, p, w) {
        assert p.path == [] ==> BodyAt(body, p.path) == body;
      }
    }
  }

  lemma JoinPlaces(rules: seq<Rule>, body: Body, n: nat, parents: seq<string>, w: Warning, here: set<Place>, rest: set<Place>)
    requires forall p :: p in here <==> AtBlock(p, n) && RaisedBy(rules, body, parents, p, w)
    requires forall p :: p in rest <==> FromBlock(p, n + 1) && RaisedBy(rules, body, parents, p, w)
    ensures forall p :: p in here + rest <==> FromBlock(p, n) && RaisedBy(rules, body, parents, p, w)
    ensures |here + rest| == |here| + |rest|
  {
    hide RaisedBy;
    assert forall p :: FromBlock(p, n) <==> AtBlock(p, n) || FromBlock(p, n + 1);
    assert here !! rest;
  }

  /** p is block n of the body or lies inside it. */
  predicate AtBlock(p: Place, n: nat) {
    if p.path == [] then p.slot == BlockSlot(n) else p.path[0] == n
  }

  lemma {:induction false} OneBlockPlaces(rules: seq<Rule>, body: Body, n: nat, parents: seq<string>, w: Warning)
    returns (places: set<Place>)
    requires n < |body.blocks|
    ensures forall p :: p in places <==> AtBlock(p, n) && RaisedBy(rules, body, parents, p, w)
    ensures HitsFrom(rules, body.blocks[n], parents)[w] == |places|
    decreases body, 0, 0
  {
    var block := body.blocks[n];
    var inner := HitsCountPlaces(rules, block.body, parents + [block.blockType], w);
    var lifted := LiftPlaces(rules, body, n, parents, inner, w);
    RaisedHere(rules, body, parents, BlockSlot(n), w);
    var own: set<Place> := if BlockHit(rules, block, parents) == Some(w) then {Place([], BlockSlot(n))} else {};
    hide RaisedBy;
    places := own + lifted;
    assert own !! lifted;
  }

  lemma LiftPlaces(rules: seq<Rule>, body: Body, n: nat, parents: seq<string>, inner: set<Place>, w: Warning)
    returns (lifted: set<Place>)
    requires n < |body.blocks|
    requires forall q :: q in inner <==>
               RaisedBy(rules, body.blocks[n].body, parents + [body.blocks[n].blockType], q, w)
    ensures |lifted| == |inner|
    ensures forall p :: p in lifted <==> p.path != [] && p.path[0] == n && RaisedBy(rules, body, parents, p, w)
  {
    hide RaisedBy;
    lifted := set q | q in inner :: Under(n, q);
    LiftKeepsCount(n, inner);
    forall p ensures p in lifted <==> p.path != [] && p.path[0] == n && RaisedBy(rules, body, parents, p, w) {
      if p.path != [] && p.path[0] == n {
        var q := Place(p.path[1..], p.slot);
        assert p == Under(n, q);
        RaisedDeeper(rules, body, parents, n, q, w);
      }
      if p in lifted {
        var q :| q in inner && p == Under(n, q);
        RaisedDeeper(rules, body, parents, n, q, w);
      }
    }
  }

  /** In particular the search finds exactly the deprecated elements, at every depth. */
  lemma HitsAreExactlyRaised(rules: seq<Rule>, body: Body, parents: seq<string>, w: Warning)
    ensures w in Hits(rules, body, parents) <==> exists p :: RaisedBy(rules, body, parents, p, w)
  {
    var places := HitsCountPlaces(rules, body, parents, w);
    if p :| p in places {
      assert RaisedBy(rules, body, parents, p, w);
    }
  }

  // ----- the walk over a shared buffer -----

  /** The diagnostics list the walk appends to through a pointer. */
  class Sink {
    var items: seq<Warning>

    constructor ()
      ensures items == []
    {
      items := [];
    }
  }

  /** The walk reports what the pure search finds, and although siblings overwrite the buffer behind
      `parents`, the caller's own chain is intact when it returns. */
  method WalkDeprecations(body: Body, parents: Slice, rules: seq<Rule>, sink: Sink)
    requires parents.Valid()
    modifies parents.backing, sink
    ensures parents.View() == old(parents.View())
    ensures multiset(sink.items) == multiset(old(sink.items)) + Hits(rules, body, old(parents.View()))
    decreases body, 1
  {
    WalkAttributes(body, parents, rules, sink);
    WalkBlocks(body, parents, rules, sink);
  }

  /** Attributes come in an arbitrary order, as Go ranges over a map. */
  method WalkAttributes(body: Body, parents: Slice, rules: seq<Rule>, sink: Sink)
    requires parents.Valid()
    modifies sink
    ensures multiset(sink.items) ==
            multiset(old(sink.items)) + multiset(AttributeHits(rules, body, body.attributes.Keys, parents.View()))
  {
    ghost var chain, start := parents.View(), multiset(sink.items);
    var todo := body.attributes.Keys;
    ghost var done: set<string>, found: multiset<Warning> := {}, multiset{};
    while todo != {}
      invariant todo + done == body.attributes.Keys && todo !! done
      invariant parents.View() == chain
      invariant found == multiset(AttributeHits(rules, body, done, chain))
      invariant multiset(sink.items) == start + found
      decreases todo
    {
      var name :| name in todo;
      OneMoreAttribute(rules, body, done, name, chain);
      VisitAttribute(body, name, parents, rules, sink);
      found := found + Optional(AttributeHit(rules, body, name, chain));
      todo, done := todo - {name}, done + {name};
    }
    assert done == body.attributes.Keys;
  }

  method VisitAttribute(body: Body, name: string, parents: Slice, rules: seq<Rule>, sink: Sink)
    requires parents.Valid() && name in body.attributes
    modifies sink
    ensures multiset(sink.items) == multiset(old(sink.items)) + Optional(AttributeHit(rules, body, name, parents.View()))
  {
    var rule := MatchDeprecation(rules, AttributeRule, name, parents);
    if rule.Some? {
      sink.items := sink.items + [Warning(rule.value, Some(body.attributes[name]))];
    }
  }

  method WalkBlocks(body: Body, parents: Slice, rules: seq<Rule>, sink: Sink)
    requires parents.Valid()
    modifies parents.backing, sink
    ensures parents.View() == old(parents.View())
    ensures multiset(sink.items) ==
            multiset(old(sink.items)) + BlockHits(rules, body, 0, old(parents.View()))
    decreases body, 0
  {
    ghost var chain, goal := parents.View(), multiset(sink.items) + BlockHits(rules, body, 0, parents.View());
    var i := 0;
    while i < |body.blocks|
      invariant 0 <= i <= |body.blocks|
      invariant parents.View() == chain
      invariant multiset(sink.items) + BlockHits(rules, body, i, chain) == goal
    {
      VisitBlock(body.blocks[i], parents, rules, sink);
      i := i + 1;
    }
  }

  method VisitBlock(block: Block, parents: Slice, rules: seq<Rule>, sink: Sink)
    requires parents.Valid()
    modifies parents.backing, sink
    ensures parents.View() == old(parents.View())
    ensures multiset(sink.items) ==
            multiset(old(sink.items)) + HitsFrom(rules, block, old(parents.View()))
    decreases block
  {
    var rule := MatchDeprecation(rules, BlockRule, block.blockType, parents);
    if rule.Some? {
      sink.items := sink.items + [Warning(rule.value, Some(block.defRange))];
    }
    var inner := Append(parents, block.blockType);
    ghost var chain := inner.View();
    WalkDeprecations(block.body, inner, rules, sink);
    assert inner.backing == parents.backing ==> parents.View() == inner.View()[..parents.len];
    assert chain[..parents.len] == old(parents.View());
  }

  /** Attributes of one body have distinct names, so no two of them raise the same warning. */
  lemma OneMoreAttribute(rules: seq<Rule>, body: Body, names: set<string>, name: string, parents: seq<string>)
    requires names <= body.attributes.Keys && name in body.attributes && name !in names
    ensures multiset(AttributeHits(rules, body, names + {name}, parents)) ==
            multiset(AttributeHits(rules, body, names, parents)) + Optional(AttributeHit(rules, body, name, parents))
  {
  }

  // ----- stable output -----

  predicate LessByPosition(a: Option<Range>, b: Option<Range>) {
    if a.None? then false
    else if b.None? then true
    else if a.value.filename != b.value.filename then Less(a.value.filename, b.value.filename)
    else if a.value.line != b.value.line then a.value.line < b.value.line
    else a.value.column < b.value.column
  }

  predicate ByPosition(a: Warning, b: Warning) { LessByPosition(a.subject, b.subject) }

  /** A list sorted by position reads from the top of each file down, files in ascending order, and
      warnings without a position last. */
  lemma ReadsTopDown(sorted: seq<Warning>, i: nat, j: nat)
    requires SortedBy(sorted, ByPosition) && i < j < |sorted|
    ensures sorted[i].subject.None? ==> sorted[j].subject.None?
    ensures sorted[i].subject.Some? && sorted[j].subject.Some? ==>
              var a, b := sorted[i].subject.value, sorted[j].subject.value;
              if a.filename == b.filename then a.line < b.line || (a.line == b.line && a.column <= b.column)
              else a.filename < b.filename || exists k: nat :: SmallerAt(a.filename, b.filename, k)
  {
    assert !ByPosition(sorted[j], sorted[i]);
    if sorted[i].subject.Some? && sorted[j].subject.Some? {
      LessTotal(sorted[i].subject.value.filename, sorted[j].subject.value.filename);
      LessIsLexicographic(sorted[i].subject.value.filename, sorted[j].subject.value.filename);
    }
  }

  lemma ByPositionIsStrictWeak()
    ensures StrictWeak(ByPosition)
  {
    forall x: Warning, y: Warning, z: Warning | ByPosition(x, y) && ByPosition(y, z) ensures ByPosition(x, z) {
      if z.subject.Some? {
        var a, b, c := x.subject.value.filename, y.subject.value.filename, z.subject.value.filename;
        if a != b && b != c {
          LessTransitive(a, b, c);
          LessTotal(a, c);
        }
      }
    }
    forall x: Warning, y: Warning, z: Warning | ByPosition(x, z) ensures ByPosition(x, y) || ByPosition(y, z) {
      if x.subject.Some? && y.subject.Some? && z.subject.Some? {
        var a, b, c := x.subject.value.filename, y.subject.value.filename, z.subject.value.filename;
        LessTotal(a, b);
        LessTotal(b, c);
        LessTotal(a, c);
        if Less(b, a) && Less(a, c) { LessTransitive(b, a, c); }
      }
    }
  }

  method CollectDeprecations(body: Body, rules: seq<Rule>) returns (sorted: seq<Warning>)
    ensures multiset(sorted) == Hits(rules, body, [])
    ensures SortedBy(sorted, ByPosition)
  {
    var sink := new Sink();
    var backing := new string[0];
    var parents := Slice(backing, 0);
    WalkDeprecations(body, parents, rules, sink);
    sorted := StableSort(sink.items, ByPosition);
    ByPositionIsStrictWeak();
    StableSortSorts(sink.items, ByPosition);
    StableSortPermutes(sink.items, ByPosition);
  }

  /** When no two warnings share a position, every iteration order of the attribute maps yields the
      same report. */
  lemma ReportIsUnique(rules: seq<Rule>, body: Body, first: seq<Warning>, second: seq<Warning>)
    requires multiset(first) == Hits(rules, body, []) && SortedBy(first, ByPosition)
    requires multiset(second) == Hits(rules, body, []) && SortedBy(second, ByPosition)
    requires forall v, w | v in Hits(rules, body, []) && w in Hits(rules, body, []) && v != w :: v.subject != w.subject
    ensures first == second
  {
    ByPositionIsStrictWeak();
    forall v, w | v in first && w in first && v != w ensures ByPosition(v, w) || ByPosition(w, v) {
      assert v in multiset(first) && w in multiset(first);
      if v.subject.Some? && w.subject.Some? {
        LessTotal(v.subject.value.filename, w.subject.value.filename);
      }
    }
    SortedUnique(first, second, ByPosition);
  }
}
