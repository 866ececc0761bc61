/** One draw of the xorshift generator (internal/runtime/seed.go), on 64-bit words. */
module Xorshift {

  /** One step: three shift-and-xor rounds. */
  function NextState(x: bv64): bv64 {
    var a := x ^ (x >> 12);
    var b := a ^ (a << 25);
    b ^ (b >> 27)
  }

  /** The rounds undone in reverse. */
  function PreviousState(y: bv64): bv64 {
    var b := y ^ (y >> 27) ^ (y >> 54);
    var a := b ^ (b << 25) ^ (b << 50);
    a ^ (a >> 12) ^ (a >> 24) ^ (a >> 36) ^ (a >> 48) ^ (a >> 60)
  }

  /** The state after a run of Intn calls with these bounds. */
  function StateAfter(x: bv64, bounds: seq<int>): bv64
    decreases |bounds|
  {
    if bounds == [] then x
    else StateAfter(if bounds[0] <= 0 then x else NextState(x), bounds[1..])
  }

  lemma RoundsUndone(x: bv64)
    ensures var a := x ^ (x >> 12);
            var b := a ^ (a << 25);
            PreviousState(b ^ (b >> 27)) == x
  {
  }

  /** Every step can be undone, so a state determines the one before it. */
  lemma NextStateReversible(x: bv64)
    ensures PreviousState(NextState(x)) == x
  {
    RoundsUndone(x);
  }

  /** Two generators with different states never fall into step, whatever is drawn. */
  lemma {:induction false} RunsNeverMerge(x: bv64, y: bv64, bounds: seq<int>)
    requires StateAfter(x, bounds) == StateAfter(y, bounds)
    ensures x == y
    decreases |bounds|
  {
    if bounds != [] {
      if bounds[0] <= 0 {
        RunsNeverMerge(x, y, bounds[1..]);
      } else {
        RunsNeverMerge(NextState(x), NextState(y), bounds[1..]);
        NextStateReversible(x);
        NextStateReversible(y);
      }
    }
  }

  lemma {:induction false} ZeroStaysZero(bounds: seq<int>)
    ensures StateAfter(0, bounds) == 0
  {
    if bounds != [] {
      ZeroStaysZero(bounds[1..]);
    }
  }

  /** A generator that starts non-zero is non-zero after every run of draws. */
  lemma StateStaysNonZero(x: bv64, bounds: seq<int>)
    requires x != 0
    ensures StateAfter(x, bounds) != 0
  {
    ZeroStaysZero(bounds);
    if StateAfter(x, bounds) == 0 {
      RunsNeverMerge(x, 0, bounds);
    }
  }

  lemma OneDraw(x: bv64, n: int)
    ensures x != 0 ==> StateAfter(x, [n]) != 0
    ensures StateAfter(x, [n]) == if n <= 0 then x else NextState(x)
  {
  }
}

/** The running hash behind DeriveSeed and the xorshift generator seeded from it
    (internal/runtime/seed.go). */
module Rand {
  import opened Decimal
  import opened Seeds
  import opened Xorshift

  // ----- the running hash -----

  const FNV_OFFSET: bv64 := 14695981039346656037
  const FNV_PRIME: bv64 := 1099511628211

  /** FNV-1a on one byte. */
  function FnvAbsorb(h: bv64, c: char): bv64 {
    (h ^ ((c as int % 256) as bv64)) * FNV_PRIME
  }

  /** The state of a running hash after absorbing `bytes` one by one. */
  function Absorbed(absorb: (bv64, char) -> bv64, h: bv64, bytes: string): bv64
    decreases |bytes|
  {
    if bytes == "" then h else Absorbed(absorb, absorb(h, bytes[0]), bytes[1..])
  }

  lemma {:induction false} AbsorbedAppend(absorb: (bv64, char) -> bv64, h: bv64, a: string, b: string)
    ensures Absorbed(absorb, h, a + b) == Absorbed(absorb, Absorbed(absorb, h, a), b)
    decreases |a|
  {
    if a == "" {
      assert a + b == b;
    } else {
      AbsorbedAppend(absorb, absorb(h, a[0]), a[1..], b);
      assert (a + b)[1..] == a[1..] + b;
    }
  }

  /** A hash.Hash64: bytes written in pieces are absorbed like their concatenation. */
  class Hasher {
    const absorb: (bv64, char) -> bv64
    var state: bv64

    constructor (absorb: (bv64, char) -> bv64, offset: bv64)
      ensures this.absorb == absorb && state == offset
    {
      this.absorb := absorb;
      state := offset;
    }

    method Write(bytes: string)
      modifies this
      ensures state == Absorbed(absorb, old(state), bytes)
    {
      var i := 0;
      while i < |bytes|
        invariant 0 <= i <= |bytes|
        invariant Absorbed(absorb, state, bytes[i..]) == Absorbed(absorb, old(state), bytes)
      {
        assert bytes[i..][1..] == bytes[i + 1..];
        state := absorb(state, bytes[i]);
        i := i + 1;
      }
    }
  }

  /** DeriveSeed over any running hash: the sum depends on the stream alone. */
  method HashParts(h: Hasher, globalSeed: int, parts: seq<string>)
    modifies h
    ensures h.state == Absorbed(h.absorb, old(h.state), SeedStream(globalSeed, parts))
  {
    ghost var start := h.state;
    h.Write(Format(globalSeed));
    var i := 0;
    assert parts[0..] == parts;
    AbsorbedAppend(h.absorb, start, Format(globalSeed), PartBytes(parts));
    while i < |parts|
      invariant 0 <= i <= |parts|
      invariant Absorbed(h.absorb, h.state, PartBytes(parts[i..])) ==
                Absorbed(h.absorb, start, SeedStream(globalSeed, parts))
    {
      ghost var before := h.state;
      h.Write([NUL]);
      h.Write(parts[i]);
      assert parts[i..][1..] == parts[i + 1..];
      AbsorbedAppend(h.absorb, before, [NUL], parts[i]);
      AbsorbedAppend(h.absorb, before, [NUL] + parts[i], PartBytes(parts[i + 1..]));
      i := i + 1;
    }
  }

  function DerivedSeed(globalSeed: int, parts: seq<string>): bv64 {
    Absorbed(FnvAbsorb, FNV_OFFSET, SeedStream(globalSeed, parts))
  }

  method DeriveSeed(globalSeed: int, parts: seq<string>) returns (seed: bv64)
    ensures seed == DerivedSeed(globalSeed, parts)
  {
    var h := new Hasher(FnvAbsorb, FNV_OFFSET);
    HashParts(h, globalSeed, parts);
    seed := h.state;
  }

  // ----- the generator -----

  /** The draw made from a state: 63 bits of its multiple, reduced. */
  function Draw(x: bv64, n: int): (r: int)
    requires n > 0
    ensures 0 <= r < n
  {
    ((x * 2685821657736338717) & 0x7fff_ffff_ffff_ffff) as int % n
  }

  class DeterministicRand {
    var state: bv64

    constructor (globalSeed: int, parts: seq<string>)
      ensures state != 0
      ensures var derived := DerivedSeed(globalSeed, parts);
              state == if derived == 0 then 1 else derived
    {
      var seed := DeriveSeed(globalSeed, parts);
      state := if seed == 0 then 1 else seed;
    }

    method Intn(n: int) returns (r: int)
      modifies this
      ensures state == StateAfter(old(state), [n])
      ensures if n <= 0 then r == 0 && state == old(state) else 0 <= r < n && r == Draw(state, n)
      ensures old(state) != 0 ==> state != 0
    {
      OneDraw(state, n);
      if n <= 0 {
        return 0;
      }
      state := NextState(state);
      r := Draw(state, n);
    }
  }
}
