/** Deterministic seed streams: what DeriveSeed hashes (internal/runtime/seed.go) and the keyword
    call scope mixed into it (internal/lang/eval.go).
    A Go string is a sequence of bytes; here it is a seq<char> whose characters stand for bytes. */
module Seeds {
  import opened Decimal

  const NUL: char := 0 as char

  predicate NulFree(s: string) { NUL !in s }

  predicate AllNulFree(names: seq<string>) { forall i | 0 <= i < |names| :: NulFree(names[i]) }

  /** What DeriveSeed writes after the seed: every part behind one NUL byte. */
  function PartBytes(parts: seq<string>): string {
    if parts == [] then "" else [NUL] + parts[0] + PartBytes(parts[1..])
  }

  function SeedStream(globalSeed: int, parts: seq<string>): string {
    Format(globalSeed) + PartBytes(parts)
  }

  /** The scope string after one PushSeedScope. */
  function Push(scope: string, part: string): string {
    if scope == "" then part else scope + [NUL] + part
  }

  function PushAll(scope: string, path: seq<string>): string
    decreases |path|
  {
    if path == [] then scope else PushAll(Push(scope, path[0]), path[1..])
  }

  /** The scope string while the keyword calls made by the steps `path` (outermost first) run. */
  function ScopeOf(path: seq<string>): string {
    PushAll("", path)
  }

  /** The parts newSeededEvaluator mixes for one generate() call. */
  function SeedParts(scenario: string, scope: string, step: string, generator: string, exprPath: string): seq<string> {
    [scenario] + (if scope != "" then [scope] else []) + [step, generator, exprPath]
  }

  datatype CallSite = CallSite(seed: int, scenario: string, path: seq<string>, step: string,
                               generator: string, exprPath: string)
  {
    predicate NamesNulFree() {
      && NulFree(scenario) && AllNulFree(path) && NulFree(step)
      && NulFree(generator) && NulFree(exprPath)
    }

    function Parts(): seq<string> { SeedParts(scenario, ScopeOf(path), step, generator, exprPath) }

    function Stream(): string { SeedStream(seed, Parts()) }

    /** The second stream NewDeterministicRandV2 hashes. */
    function SecondStream(): string { SeedStream(seed, Parts() + ["randv2"]) }

    /** The NUL-separated segments of Stream after the seed. */
    function Segments(): seq<string> {
      [scenario] + DropLeadingEmpty(path) + [step, generator, exprPath]
    }
  }

  /** PushSeedScope cannot tell an empty scope from a scope holding one empty name. */
  function DropLeadingEmpty(path: seq<string>): seq<string> {
    if path != [] && path[0] == "" then DropLeadingEmpty(path[1..]) else path
  }

  lemma {:induction false} PartBytesAppend(a: seq<string>, b: seq<string>)
    ensures PartBytes(a + b) == PartBytes(a) + PartBytes(b)
  {
    if a == [] {
      assert a + b == b;
    } else {
      PartBytesAppend(a[1..], b);
      assert (a + b)[1..] == a[1..] + b;
    }
  }

  lemma {:induction false} PushAllOntoScope(scope: string, path: seq<string>)
    requires scope != ""
    ensures PushAll(scope, path) == scope + PartBytes(path)
    decreases |path|
  {
    if path != [] {
      PushAllOntoScope(Push(scope, path[0]), path[1..]);
    }
  }

  /** The scope is the calling steps' names joined by NUL, leading empty names left out. */
  lemma {:induction false} ScopeIsJoin(path: seq<string>)
    ensures var rest := DropLeadingEmpty(path);
            ScopeOf(path) == if rest == [] then "" else rest[0] + PartBytes(rest[1..])
    ensures ScopeOf(path) == "" <==> DropLeadingEmpty(path) == []
  {
    if path != [] {
      if path[0] == "" {
        ScopeIsJoin(path[1..]);
      } else {
        PushAllOntoScope(path[0], path[1..]);
      }
    }
  }

  lemma ScopePart(path: seq<string>)
    ensures PartBytes(if ScopeOf(path) != "" then [ScopeOf(path)] else []) == PartBytes(DropLeadingEmpty(path))
  {
    ScopeIsJoin(path);
    if ScopeOf(path) != "" {
      assert [ScopeOf(path)][1..] == [];
    }
  }

  lemma StreamSegments(site: CallSite)
    ensures PartBytes(site.Parts()) == PartBytes(site.Segments())
  {
    var tail := [site.step, site.generator, site.exprPath];
    var scope := if ScopeOf(site.path) != "" then [ScopeOf(site.path)] else [];
    PartBytesAppend([site.scenario] + scope, tail);
    PartBytesAppend([site.scenario], scope);
    PartBytesAppend([site.scenario] + DropLeadingEmpty(site.path), tail);
    PartBytesAppend([site.scenario], DropLeadingEmpty(site.path));
    ScopePart(site.path);
  }

  /** A NUL-free head followed by nothing or by a NUL is determined by the whole text. */
  lemma SplitAtNul(x: string, s: string, y: string, t: string)
    requires NulFree(x) && NulFree(y)
    requires s == "" || s[0] == NUL
    requires t == "" || t[0] == NUL
    requires x + s == y + t
    ensures x == y && s == t
  {
    var whole := x + s;
    assert forall i | 0 <= i < |x| :: whole[i] == x[i];
    assert forall i | 0 <= i < |y| :: whole[i] == y[i];
    assert |x| < |whole| ==> whole[|x|] == s[0];
    assert |y| < |whole| ==> whole[|y|] == t[0];
    assert |x| == |y|;
    assert x == whole[..|x|] && y == whole[..|y|];
    assert s == whole[|x|..] && t == whole[|y|..];
  }

  lemma {:induction false} PartBytesInjective(a: seq<string>, b: seq<string>)
    requires AllNulFree(a) && AllNulFree(b)
    requires PartBytes(a) == PartBytes(b)
    ensures a == b
  {
    if a != [] && b != [] {
      var ta, tb := PartBytes(a[1..]), PartBytes(b[1..]);
      assert PartBytes(a)[1..] == a[0] + ta && PartBytes(b)[1..] == b[0] + tb;
      SplitAtNul(a[0], ta, b[0], tb);
      PartBytesInjective(a[1..], b[1..]);
      assert a == [a[0]] + a[1..] && b == [b[0]] + b[1..];
    }
  }

  lemma {:induction false} DigitsNulFree(n: nat)
    ensures NulFree(Digits(n))
  {
    DigitsRoundTrip(n);
    assert !IsDigit(NUL);
  }

  lemma SeedStreamInjective(seedA: int, a: seq<string>, seedB: int, b: seq<string>)
    requires AllNulFree(a) && AllNulFree(b)
    requires SeedStream(seedA, a) == SeedStream(seedB, b)
    ensures seedA == seedB && a == b
  {
    DigitsNulFree(if seedA < 0 then -seedA else seedA);
    DigitsNulFree(if seedB < 0 then -seedB else seedB);
    SplitAtNul(Format(seedA), PartBytes(a), Format(seedB), PartBytes(b));
    FormatInjective(seedA, seedB);
    PartBytesInjective(a, b);
  }

  lemma {:induction false} DropLeadingEmptyNulFree(path: seq<string>)
    requires AllNulFree(path)
    ensures AllNulFree(DropLeadingEmpty(path))
  {
    if path != [] && path[0] == "" {
      DropLeadingEmptyNulFree(path[1..]);
    }
  }

  lemma SegmentsNulFree(site: CallSite)
    requires site.NamesNulFree()
    ensures AllNulFree(site.Segments())
  {
    DropLeadingEmptyNulFree(site.path);
  }

  lemma SegmentsInjective(scA: string, a: seq<string>, tailA: seq<string>, scB: string, b: seq<string>, tailB: seq<string>)
    requires |tailA| == |tailB|
    requires [scA] + a + tailA == [scB] + b + tailB
    ensures scA == scB && a == b && tailA == tailB
  {
    var l, r := [scA] + a + tailA, [scB] + b + tailB;
    assert l[0] == scA && r[0] == scB;
    assert l[1..1 + |a|] == a && r[1..1 + |b|] == b;
    assert l[1 + |a|..] == tailA && r[1 + |b|..] == tailB;
  }

  /** Unique decodability, with its exact limit: two call sites hash the same bytes iff they agree
      on everything, up to empty names at the outer end of the keyword call path. */
  lemma StreamsAgreeExactly(a: CallSite, b: CallSite)
    requires a.NamesNulFree() && b.NamesNulFree()
    ensures a.Stream() == b.Stream() <==>
            && a.seed == b.seed && a.scenario == b.scenario && a.step == b.step
            && a.generator == b.generator && a.exprPath == b.exprPath
            && DropLeadingEmpty(a.path) == DropLeadingEmpty(b.path)
  {
    StreamSegments(a);
    StreamSegments(b);
    if a.Stream() == b.Stream() {
      SegmentsNulFree(a);
      SegmentsNulFree(b);
      SeedStreamInjective(a.seed, a.Segments(), b.seed, b.Segments());
      var tailA, tailB := [a.step, a.generator, a.exprPath], [b.step, b.generator, b.exprPath];
      SegmentsInjective(a.scenario, DropLeadingEmpty(a.path), tailA, b.scenario, DropLeadingEmpty(b.path), tailB);
      assert tailA[0] == tailB[0] && tailA[1] == tailB[1] && tailA[2] == tailB[2];
    }
  }

  /** With non-empty names on the call path nothing is lost, at any nesting depth. */
  lemma StreamDecodable(a: CallSite, b: CallSite)
    requires a.NamesNulFree() && b.NamesNulFree()
    requires "" !in a.path && "" !in b.path
    requires a.Stream() == b.Stream()
    ensures a == b
  {
    StreamsAgreeExactly(a, b);
  }

  /** The limit is real: a call made by a step with an empty name hashes like no call at all. */
  lemma EmptyCallerIsInvisible(site: CallSite)
    ensures site.Stream() == site.(path := [""] + site.path).Stream()
  {
  }

  /** The second stream behind one generator never meets the first stream of another call site,
      unless that site's expression path is literally "randv2". */
  lemma SecondStreamSeparate(a: CallSite, b: CallSite)
    requires a.NamesNulFree() && b.NamesNulFree()
    requires a.Stream() == b.SecondStream()
    ensures a.exprPath == "randv2" && a.generator == b.exprPath && a.step == b.generator
    ensures DropLeadingEmpty(a.path) == DropLeadingEmpty(b.path) + [b.step]
  {
    StreamSegments(a);
    StreamSegments(b);
    SegmentsNulFree(a);
    SegmentsNulFree(b);
    PartBytesAppend(b.Parts(), ["randv2"]);
    PartBytesAppend(b.Segments(), ["randv2"]);
    SeedStreamInjective(a.seed, a.Segments(), b.seed, b.Segments() + ["randv2"]);
    var tailA, tailB := [a.step, a.generator, a.exprPath], [b.generator, b.exprPath, "randv2"];
    var pathB := DropLeadingEmpty(b.path) + [b.step];
    assert b.Segments() + ["randv2"] == [b.scenario] + pathB + tailB;
    SegmentsInjective(a.scenario, DropLeadingEmpty(a.path), tailA, b.scenario, pathB, tailB);
    assert tailA[0] == tailB[0] && tailA[1] == tailB[1] && tailA[2] == tailB[2];
  }
}
