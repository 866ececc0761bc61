/** Stable sorting by a strict weak order, and the lexicographic order on strings.
    Stands for the library calls sort.SliceStable and sort.Strings. */
module Sorting {

  ghost predicate StrictWeak<T(!new)>(less: (T, T) -> bool) {
    && (forall x :: !less(x, x))
    && (forall x, y, z :: less(x, y) && less(y, z) ==> less(x, z))
    && (forall x, y, z :: less(x, z) ==> less(x, y) || less(y, z))
  }

  ghost predicate SortedBy<T(!new)>(s: seq<T>, less: (T, T) -> bool) {
    forall i, j | 0 <= i < j < |s| :: !less(s[j], s[i])
  }

  function Insert<T>(x: T, s: seq<T>, less: (T, T) -> bool): seq<T> {
    if s == [] then [x]
    else if less(s[0], x) then [s[0]] + Insert(x, s[1..], less)
    else [x] + s
  }

  function StableSort<T>(s: seq<T>, less: (T, T) -> bool): seq<T> {
    if s == [] then [] else Insert(s[0], StableSort(s[1..], less), less)
  }

  lemma {:induction false} InsertMultiset<T>(x: T, s: seq<T>, less: (T, T) -> bool)
    ensures multiset(Insert(x, s, less)) == multiset(s) + multiset{x}
  {
    if s == [] {
    } else {
      assert s == [s[0]] + s[1..];
      if less(s[0], x) {
        InsertMultiset(x, s[1..], less);
      }
    }
  }

  lemma {:induction false} StableSortPermutes<T>(s: seq<T>, less: (T, T) -> bool)
    ensures multiset(StableSort(s, less)) == multiset(s)
    ensures |StableSort(s, less)| == |s|
  {
    if s == [] {
    } else {
      StableSortPermutes(s[1..], less);
      InsertMultiset(s[0], StableSort(s[1..], less), less);
      hide Insert;
      assert s == [s[0]] + s[1..];
      assert |multiset(StableSort(s, less))| == |multiset(s)|;
    }
  }

  lemma {:induction false} InsertSorted<T(!new)>(x: T, s: seq<T>, less: (T, T) -> bool)
    requires StrictWeak(less) && SortedBy(s, less)
    ensures SortedBy(Insert(x, s, less), less)
  {
    if s == [] {
    } else if less(s[0], x) {
      var rest := Insert(x, s[1..], less);
      InsertSorted(x, s[1..], less);
      InsertMultiset(x, s[1..], less);
      forall j | 0 <= j < |rest| ensures !less(rest[j], s[0]) {
        assert rest[j] in multiset(rest);
        if rest[j] != x {
          assert rest[j] in multiset(s[1..]);
          assert rest[j] in s[1..];
        }
      }
    } else {
      var out := [x] + s;
      forall i, j | 0 <= i < j < |out| ensures !less(out[j], out[i]) {
        assert out[j] == s[j - 1];
        if i > 0 {
          assert out[i] == s[i - 1];
        }
      }
    }
  }

  lemma {:induction false} StableSortSorts<T(!new)>(s: seq<T>, less: (T, T) -> bool)
    requires StrictWeak(less)
    ensures SortedBy(StableSort(s, less), less)
  {
    if s != [] {
      StableSortSorts(s[1..], less);
      InsertSorted(s[0], StableSort(s[1..], less), less);
    }
  }

  /** The elements of s that the order cannot tell apart from pivot, in their order in s. */
  function Ties<T>(s: seq<T>, pivot: T, less: (T, T) -> bool): seq<T> {
    if s == [] then []
    else (if !less(s[0], pivot) && !less(pivot, s[0]) then [s[0]] else []) + Ties(s[1..], pivot, less)
  }

  lemma {:induction false} InsertKeepsTies<T(!new)>(x: T, s: seq<T>, pivot: T, less: (T, T) -> bool)
    requires StrictWeak(less)
    ensures Ties(Insert(x, s, less), pivot, less) == Ties([x] + s, pivot, less)
  {
    hide StrictWeak;
    TiesCons(x, s, pivot, less);
    if s != [] && less(s[0], x) {
      OneTies(s[0], x, pivot, less);
      InsertKeepsTies(x, s[1..], pivot, less);
      TiesCons(x, s[1..], pivot, less);
      TiesCons(s[0], Insert(x, s[1..], less), pivot, less);
    }
  }

  lemma OneTies<T(!new)>(x: T, y: T, pivot: T, less: (T, T) -> bool)
    requires StrictWeak(less) && less(x, y)
    ensures (less(x, pivot) || less(pivot, x)) || (less(y, pivot) || less(pivot, y))
  {
  }

  lemma TiesCons<T>(x: T, s: seq<T>, pivot: T, less: (T, T) -> bool)
    ensures Ties([x] + s, pivot, less) == (if !less(x, pivot) && !less(pivot, x) then [x] else []) + Ties(s, pivot, less)
  {
  }

  /** Stability: elements that compare equal keep their relative order. */
  lemma {:induction false} StableSortStable<T(!new)>(s: seq<T>, pivot: T, less: (T, T) -> bool)
    requires StrictWeak(less)
    ensures Ties(StableSort(s, less), pivot, less) == Ties(s, pivot, less)
  {
    if s != [] {
      StableSortStable(s[1..], pivot, less);
      InsertKeepsTies(s[0], StableSort(s[1..], less), pivot, less);
      var t := StableSort(s[1..], less);
      assert ([s[0]] + t)[1..] == t;
    }
  }

  /** A sorted arrangement is determined by its multiset when the order separates distinct elements of it. */
  lemma {:induction false} SortedUnique<T(!new)>(s: seq<T>, t: seq<T>, less: (T, T) -> bool)
    requires StrictWeak(less) && SortedBy(s, less) && SortedBy(t, less)
    requires multiset(s) == multiset(t)
    requires forall x, y | x in s && y in s && x != y :: less(x, y) || less(y, x)
    ensures s == t
  {
    assert |multiset(s)| == |s| && |multiset(t)| == |t|;
    if s != [] {
      SameLeast(s, t, less);
      hide StrictWeak;
      TailsMatch(s, t);
      SortedUnique(s[1..], t[1..], less);
      assert s == [s[0]] + s[1..] && t == [t[0]] + t[1..];
    }
  }

  lemma SameLeast<T(!new)>(s: seq<T>, t: seq<T>, less: (T, T) -> bool)
    requires StrictWeak(less) && SortedBy(s, less) && SortedBy(t, less) && s != [] && t != []
    requires multiset(s) == multiset(t)
    requires forall x, y | x in s && y in s && x != y :: less(x, y) || less(y, x)
    ensures s[0] == t[0]
  {
    assert s[0] in multiset(s) && t[0] in multiset(t);
    assert s[0] in t && t[0] in s;
  }

  lemma TailsMatch<T>(s: seq<T>, t: seq<T>)
    requires s != [] && t != [] && s[0] == t[0] && multiset(s) == multiset(t)
    ensures multiset(s[1..]) == multiset(t[1..])
  {
    assert s == [s[0]] + s[1..] && t == [t[0]] + t[1..];
    assert multiset(s[1..]) == multiset(s) - multiset{s[0]};
    assert multiset(t[1..]) == multiset(t) - multiset{t[0]};
  }

  function Map<T, U>(f: T -> U, s: seq<T>): (r: seq<U>)
    ensures |r| == |s| && forall i | 0 <= i < |s| :: r[i] == f(s[i])
  {
    if s == [] then [] else [f(s[0])] + Map(f, s[1..])
  }

  lemma {:induction false} MapInsert<T, U>(f: T -> U, x: T, s: seq<T>, keyed: (T, T) -> bool, less: (U, U) -> bool)
    requires forall a | a in s :: keyed(a, x) == less(f(a), f(x))
    ensures Map(f, Insert(x, s, keyed)) == Insert(f(x), Map(f, s), less)
  {
    if s != [] && keyed(s[0], x) {
      MapInsert(f, x, s[1..], keyed, less);
      var rest := Insert(x, s[1..], keyed);
      assert ([s[0]] + rest)[1..] == rest;
      assert Map(f, s)[1..] == Map(f, s[1..]);
    } else {
      assert ([x] + s)[1..] == s;
    }
  }

  /** Sorting by a key sorts the keys. */
  lemma {:induction false} MapStableSort<T, U>(f: T -> U, s: seq<T>, keyed: (T, T) -> bool, less: (U, U) -> bool)
    requires forall a, b | a in s && b in s :: keyed(a, b) == less(f(a), f(b))
    ensures Map(f, StableSort(s, keyed)) == StableSort(Map(f, s), less)
  {
    if s != [] {
      var rest := StableSort(s[1..], keyed);
      StableSortPermutes(s[1..], keyed);
      forall a | a in rest ensures a in s {
        assert a in multiset(s[1..]);
      }
      MapStableSort(f, s[1..], keyed, less);
      MapInsert(f, s[0], rest, keyed, less);
      assert Map(f, s)[1..] == Map(f, s[1..]);
    }
  }

  lemma MapAppend<T, U>(f: T -> U, s: seq<T>, t: seq<T>)
    ensures Map(f, s + t) == Map(f, s) + Map(f, t)
  {
  }

  lemma WithoutOne<T>(t: seq<T>, i: nat)
    requires i < |t|
    ensures multiset(t) == multiset(t[..i] + t[i + 1..]) + multiset{t[i]}
  {
    assert t == t[..i] + [t[i]] + t[i + 1..];
  }

  lemma MapWithoutOne<T, U>(f: T -> U, t: seq<T>, i: nat)
    requires i < |t|
    ensures multiset(Map(f, t)) == multiset(Map(f, t[..i] + t[i + 1..])) + multiset{f(t[i])}
  {
    hide Map;
    MapAppend(f, t[..i], t[i + 1..]);
    assert Map(f, t)[..i] == Map(f, t[..i]) && Map(f, t)[i + 1..] == Map(f, t[i + 1..]);
    WithoutOne(Map(f, t), i);
  }

  lemma RestsMatch<T>(s: seq<T>, t: seq<T>, i: nat)
    requires s != [] && i < |t| && t[i] == s[0] && multiset(s) == multiset(t)
    ensures multiset(s[1..]) == multiset(t[..i] + t[i + 1..])
  {
    WithoutOne(t, i);
    WithoutOne(s, 0);
    assert s[..0] + s[1..] == s[1..];
    CancelOne(multiset(s[1..]), multiset(t[..i] + t[i + 1..]), s[0]);
  }

  lemma CancelOne<T>(a: multiset<T>, b: multiset<T>, x: T)
    requires a + multiset{x} == b + multiset{x}
    ensures a == b
  {
    assert a == (a + multiset{x}) - multiset{x};
    assert b == (b + multiset{x}) - multiset{x};
  }

  lemma MapRestsMatch<T, U>(f: T -> U, s: seq<T>, t: seq<T>, i: nat)
    requires s != [] && i < |t| && t[i] == s[0]
    requires multiset(Map(f, s[1..])) == multiset(Map(f, t[..i] + t[i + 1..]))
    ensures multiset(Map(f, s)) == multiset(Map(f, t))
  {
    hide Map;
    MapWithoutOne(f, t, i);
    MapWithoutOne(f, s, 0);
    assert s[..0] + s[1..] == s[1..];
  }

  /** Rearranging a list rearranges its image. */
  lemma {:induction false} MapMultiset<T, U>(f: T -> U, s: seq<T>, t: seq<T>)
    requires multiset(s) == multiset(t)
    ensures multiset(Map(f, s)) == multiset(Map(f, t))
  {
    hide Map;
    if s == [] {
      assert |multiset(t)| == 0;
    } else {
      assert s[0] in multiset(t);
      var i :| 0 <= i < |t| && t[i] == s[0];
      RestsMatch(s, t, i);
      MapMultiset(f, s[1..], t[..i] + t[i + 1..]);
      MapRestsMatch(f, s, t, i);
    }
  }

  // ----- strings -----

  /** Strict lexicographic order, the one Go's < gives on strings. */
  predicate Less(a: string, b: string) {
    b != [] && (a == [] || a[0] < b[0] || (a[0] == b[0] && Less(a[1..], b[1..])))
  }

  lemma {:induction false} LessTotal(a: string, b: string)
    ensures Less(a, b) || a == b || Less(b, a)
    ensures !(Less(a, b) && Less(b, a))
    ensures Less(a, b) ==> a != b
  {
    if a != [] && b != [] && a[0] == b[0] {
      LessTotal(a[1..], b[1..]);
      assert a == [a[0]] + a[1..] && b == [b[0]] + b[1..];
    }
  }

  /** a and b differ first at i, where a has the smaller character. */
  predicate SmallerAt(a: string, b: string, i: nat) {
    i < |a| && i < |b| && a[..i] == b[..i] && a[i] < b[i]
  }

  lemma SmallerLater(a: string, b: string, i: nat)
    requires a != [] && b != [] && a[0] == b[0]
    ensures SmallerAt(a, b, i + 1) <==> SmallerAt(a[1..], b[1..], i)
    ensures !SmallerAt(a, b, 0)
    ensures a < b <==> a[1..] < b[1..]
  {
    assert a == [a[0]] + a[1..] && b == [b[0]] + b[1..];
    if i < |a| - 1 && i < |b| - 1 {
      assert a[..i + 1] == [a[0]] + a[1..][..i] && b[..i + 1] == [b[0]] + b[1..][..i];
    }
  }

  /** The first differing character decides; a proper prefix comes first. */
  lemma {:induction false} LessIsLexicographic(a: string, b: string)
    ensures Less(a, b) <==> a < b || exists i: nat :: SmallerAt(a, b, i)
  {
    if a != [] && b != [] && a[0] == b[0] {
      LessIsLexicographic(a[1..], b[1..]);
      SmallerLater(a, b, 0);
      if i: nat :| SmallerAt(a[1..], b[1..], i) {
        SmallerLater(a, b, i);
      }
      if i: nat :| SmallerAt(a, b, i) {
        if i > 0 {
          SmallerLater(a, b, i - 1);
        }
      }
      hide SmallerAt;
    } else if a != [] && b != [] && a[0] < b[0] {
      assert SmallerAt(a, b, 0);
    }
  }

  lemma {:induction false} LessTransitive(a: string, b: string, c: string)
    requires Less(a, b) && Less(b, c)
    ensures Less(a, c)
  {
    if a != [] && a[0] == b[0] && b[0] == c[0] {
      LessTransitive(a[1..], b[1..], c[1..]);
    }
  }

  lemma LessIsStrictWeak()
    ensures StrictWeak(Less)
  {
    forall x ensures !Less(x, x) { LessTotal(x, x); }
    forall x, y, z | Less(x, y) && Less(y, z) ensures Less(x, z) { LessTransitive(x, y, z); }
    forall x, y, z | Less(x, z) ensures Less(x, y) || Less(y, z) {
      LessTotal(x, y);
      LessTotal(y, z);
      if Less(y, x) { LessTransitive(y, x, z); }
    }
  }

  /** Two enumerations of the same strings sort to the same list. */
  lemma SortStringsUnique(s: seq<string>, t: seq<string>)
    requires multiset(s) == multiset(t)
    ensures StableSort(s, Less) == StableSort(t, Less)
  {
    LessIsStrictWeak();
    StableSortSorts(s, Less);
    StableSortSorts(t, Less);
    StableSortPermutes(s, Less);
    StableSortPermutes(t, Less);
    forall x: string, y: string ensures x != y ==> Less(x, y) || Less(y, x) { LessTotal(x, y); }
    SortedUnique(StableSort(s, Less), StableSort(t, Less), Less);
  }
}
