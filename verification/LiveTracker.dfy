/** The scenarios now running, and the sorted views taken of them (internal/runtime/live_tracker.go). */
module LiveTracker {
  import opened Sorting

  datatype ActiveScenario = ActiveScenario(name: string, elapsed: int)

  /** names lists exactly the keys, once each, in ascending order. */
  ghost predicate Listing(names: seq<string>, keys: set<string>) {
    && SortedBy(names, Less)
    && (forall i, j | 0 <= i < j < |names| :: names[i] != names[j])
    && (set n | n in names) == keys
  }

  function NameOf(a: ActiveScenario): string { a.name }

  function Names(actives: seq<ActiveScenario>): seq<string> {
    Map(NameOf, actives)
  }

  predicate NameLess(a: ActiveScenario, b: ActiveScenario) { Less(a.name, b.name) }

  class LiveScenarioTracker {
    var active: map<string, int>

    constructor ()
      ensures active == map[]
    {
      active := map[];
    }

    method Start(name: string, now: int)
      modifies this
      ensures active == old(active)[name := now]
    {
      active := active[name := now];
    }

    method End(name: string)
      modifies this
      ensures active == old(active) - {name}
    {
      active := active - {name};
    }

    /** The map is visited in any order; the sorted copy does not show it. */
    method Snapshot() returns (out: seq<string>)
      ensures Listing(out, active.Keys)
    {
      out := [];
      var todo := active.Keys;
      while todo != {}
        invariant todo <= active.Keys
        invariant (set n | n in out) == active.Keys - todo
        invariant forall i, j | 0 <= i < j < |out| :: out[i] != out[j]
        decreases todo
      {
        var name :| name in todo;
        assert name !in out;
        assert (set n | n in out + [name]) == (set n | n in out) + {name};
        out := out + [name];
        todo := todo - {name};
      }
      SortedListing(out, active.Keys);
      out := StableSort(out, Less);
    }

    method SnapshotWithElapsed(now: int) returns (out: seq<ActiveScenario>)
      ensures Listing(Names(out), active.Keys)
      ensures forall a | a in out :: Timed(a, now)
    {
      out := CollectWithElapsed(now);
      SortedActives(out, active.Keys);
      out := StableSort(out, NameLess);
    }

    predicate Timed(a: ActiveScenario, now: int)
      reads this
    {
      a.name in active && a.elapsed == now - active[a.name]
    }

    method CollectWithElapsed(now: int) returns (out: seq<ActiveScenario>)
      ensures forall i, j | 0 <= i < j < |out| :: Names(out)[i] != Names(out)[j]
      ensures (set n | n in Names(out)) == active.Keys
      ensures forall a | a in out :: Timed(a, now)
    {
      out := [];
      ghost var names: seq<string> := [];
      var todo := active.Keys;
      while todo != {}
        invariant todo <= active.Keys && Names(out) == names
        invariant (set n | n in names) == active.Keys - todo
        invariant forall i, j | 0 <= i < j < |names| :: names[i] != names[j]
        invariant forall a | a in out :: Timed(a, now)
        decreases todo
      {
        var name :| name in todo;
        var entry := ActiveScenario(name, now - active[name]);
        NamesSnoc(out, entry);
        assert name !in names;
        assert (set n | n in names + [name]) == (set n | n in names) + {name};
        names := names + [name];
        out := out + [entry];
        todo := todo - {name};
      }
    }
  }

  lemma SortedActives(actives: seq<ActiveScenario>, keys: set<string>)
    requires forall i, j | 0 <= i < j < |actives| :: Names(actives)[i] != Names(actives)[j]
    requires (set n | n in Names(actives)) == keys
    ensures Listing(Names(StableSort(actives, NameLess)), keys)
    ensures forall a | a in StableSort(actives, NameLess) :: a in actives
  {
    SortedListing(Names(actives), keys);
    MapStableSort(NameOf, actives, NameLess, Less);
    StableSortPermutes(actives, NameLess);
    forall a | a in StableSort(actives, NameLess) ensures a in actives {
      assert a in multiset(StableSort(actives, NameLess));
    }
  }

  lemma NamesSnoc(actives: seq<ActiveScenario>, a: ActiveScenario)
    ensures Names(actives + [a]) == Names(actives) + [a.name]
  {
  }

  lemma SortedListing(names: seq<string>, keys: set<string>)
    requires (forall i, j | 0 <= i < j < |names| :: names[i] != names[j]) && (set n | n in names) == keys
    ensures Listing(StableSort(names, Less), keys)
  {
    var out := StableSort(names, Less);
    StableSortPermutes(names, Less);
    LessIsStrictWeak();
    StableSortSorts(names, Less);
    forall n ensures n in out <==> n in names {
      assert n in multiset(out) <==> n in multiset(names);
    }
    DistinctPermutes(names, out);
  }

  lemma {:induction false} DistinctPermutes(s: seq<string>, t: seq<string>)
    requires forall i, j | 0 <= i < j < |s| :: s[i] != s[j]
    requires multiset(s) == multiset(t)
    ensures forall i, j | 0 <= i < j < |t| :: t[i] != t[j]
  {
    forall i, j | 0 <= i < j < |t| ensures t[i] != t[j] {
      if t[i] == t[j] {
        assert t == t[..i] + [t[i]] + t[i + 1..j] + [t[j]] + t[j + 1..];
        assert multiset(t)[t[i]] >= 2;
        SingleOccurrence(s, t[i]);
      }
    }
  }

  lemma {:induction false} SingleOccurrence(s: seq<string>, x: string)
    requires forall i, j | 0 <= i < j < |s| :: s[i] != s[j]
    ensures multiset(s)[x] <= 1
  {
    if s != [] {
      var n := |s| - 1;
      assert s == s[..n] + [s[n]];
      SingleOccurrence(s[..n], x);
      assert s[n] !in s[..n];
    }
  }

  /** So two snapshots of the same scenarios are the same list. */
  lemma SnapshotUnique(a: seq<string>, b: seq<string>, keys: set<string>)
    requires Listing(a, keys) && Listing(b, keys)
    ensures a == b
  {
    forall x ensures multiset(a)[x] == multiset(b)[x] {
      SingleOccurrence(a, x);
      SingleOccurrence(b, x);
      assert (x in a <==> x in keys) && (x in b <==> x in keys);
      assert (multiset(a)[x] > 0 <==> x in a) && (multiset(b)[x] > 0 <==> x in b);
    }
    assert multiset(a) == multiset(b);
    LessIsStrictWeak();
    forall x: string, y: string ensures x != y ==> Less(x, y) || Less(y, x) { LessTotal(x, y); }
    SortedUnique(a, b, Less);
  }
}
