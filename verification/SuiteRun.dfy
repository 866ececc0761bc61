/** The parallel suite run (internal/runtime/runner.go, Run; live_tracker.go, watchDeadlineFor) as a
    transition system: one goroutine per scenario, the goroutine that waits for them, the deadline
    watcher, and a context that may fire at any moment. */
module SuiteRun {
  import opened Wrappers
  import opened Report
  import opened Lifecycle

  /** How far a scenario's goroutine is. `fired` is what it read from the context after running. */
  datatype Phase =
    | Queued
    | Holding
    | Started
    | Ran
    | Checked(fired: bool)
    | Bookkept(fired: bool)
    | ErrorKept(fired: bool)
    | Released(fired: bool)
    | Finished(fired: bool)
  {
    predicate HoldsSlot() { Holding? || Started? || Ran? || Checked? || Bookkept? || ErrorKept? }
    predicate HasStarted() { !Queued? && !Holding? }
    predicate HasRun() { HasStarted() && !Started? }
    predicate PastErrors() { ErrorKept? || Released? || Finished? }
    function StepsLeft(): nat {
      match this
      case Queued => 8
      case Holding => 7
      case Started => 6
      case Ran => 5
      case Checked(_) => 4
      case Bookkept(_) => 3
      case ErrorKept(_) => 2
      case Released(_) => 1
      case Finished(_) => 0
    }
  }

  datatype RunContext = Live | Expired | Canceled

  /** What the watcher's channel holds: nothing yet, or the one value it will ever send. */
  datatype Watcher = Watching | Sent(stalled: Option<set<string>>)

  datatype Main = Waiting | TornDown | ProvidersClosed | ContextReleased | Returned(stalled: Option<set<string>>)
  {
    function StepsLeft(): nat {
      match this case Waiting => 4 case TornDown => 3 case ProvidersClosed => 2 case ContextReleased => 1 case Returned(_) => 0
    }
  }

  /** The scenarios' names, the requested parallelism, and what running each scenario gives. Of the run
      around it a scenario sees only the context it is handed: its outcome is one thing when it ends
      before the context fires (None), and depends on how it is caught by the firing otherwise. */
  datatype Config = Config(names: seq<string>, parallel: int, outcome: (nat, Option<nat>) -> Result<ScenarioResult, Breakdown>)
  {
    function Capacity(): nat { if parallel <= 0 then 1 else parallel }

    /** Nothing is written for a scenario that broke down. */
    function ResultOf(i: nat, caught: Option<nat>): Option<ScenarioResult> {
      match outcome(i, caught) case Ok(r) => Some(r) case Err(_) => None
    }
  }

  /** `caught` records how the firing context caught each scenario's run, if it did. `inFlight` is
      history: the scenarios started but not past their context read when the deadline passed. */
  datatype State = State(
    phases: seq<Phase>, slots: seq<Option<ScenarioResult>>, caught: seq<Option<nat>>, active: set<string>, permits: nat,
    firstErr: Option<Breakdown>, context: RunContext, watcher: Watcher, main: Main, inFlight: set<nat>)

  datatype Move =
    | Acquire(i: nat) | TrackStart(i: nat) | RunIt(i: nat, how: nat) | ReadContext(i: nat) | TrackEnd(i: nat)
    | KeepError(i: nat) | Release(i: nat) | Finish(i: nat)
    | Fire(expired: bool)
    | Watch
    | TearDown | CloseProviders | ReleaseContext | Receive

  function Init(c: Config): State {
    State(seq(|c.names|, i => Queued), seq(|c.names|, i => None), seq(|c.names|, i => None), {}, 0, None, Live, Watching, Waiting, {})
  }

  predicate Shaped(c: Config, s: State) {
    |s.phases| == |c.names| && |s.slots| == |c.names| && |s.caught| == |c.names|
  }

  predicate Enabled(c: Config, s: State, m: Move) {
    match m
    case Acquire(i) => i < |s.phases| && s.phases[i].Queued? && s.permits < c.Capacity()
    case TrackStart(i) => i < |s.phases| && s.phases[i].Holding?
    case RunIt(i, _) => i < |s.phases| && s.phases[i].Started?
    case ReadContext(i) => i < |s.phases| && s.phases[i].Ran?
    case TrackEnd(i) => i < |s.phases| && s.phases[i].Checked?
    case KeepError(i) => i < |s.phases| && s.phases[i].Bookkept?
    case Release(i) => i < |s.phases| && s.phases[i].ErrorKept? && s.permits > 0
    case Finish(i) => i < |s.phases| && s.phases[i].Released?
    case Fire(_) => s.context.Live?
    case Watch => !s.context.Live? && s.watcher.Watching?
    case TearDown => s.main.Waiting? && forall i | 0 <= i < |s.phases| :: s.phases[i].Finished?
    case CloseProviders => s.main.TornDown?
    case ReleaseContext => s.main.ProvidersClosed?
    case Receive => s.main.ContextReleased? && s.watcher.Sent?
  }

  /** Started, and the context not yet read. */
  predicate InFlight(p: Phase) { p.Started? || p.Ran? }

  function Step(c: Config, s: State, m: Move): State
    requires Shaped(c, s) && Enabled(c, s, m)
  {
    match m
    case Acquire(i) => s.(phases := s.phases[i := Holding], permits := s.permits + 1)
    case TrackStart(i) => s.(phases := s.phases[i := Started], active := s.active + {c.names[i]})
    case RunIt(i, how) =>
      var caught := if s.context.Live? then None else Some(how);
      s.(phases := s.phases[i := Ran], slots := s.slots[i := c.ResultOf(i, caught)], caught := s.caught[i := caught])
    case ReadContext(i) => s.(phases := s.phases[i := Checked(!s.context.Live?)])
    case TrackEnd(i) =>
      var fired := s.phases[i].fired;
      s.(phases := s.phases[i := Bookkept(fired)], active := if fired then s.active else s.active - {c.names[i]})
    case KeepError(i) =>
      s.(phases := s.phases[i := ErrorKept(s.phases[i].fired)],
         firstErr := var r := c.outcome(i, s.caught[i]);
                     if r.Err? && s.firstErr.None? then Some(r.error) else s.firstErr)
    case Release(i) => s.(phases := s.phases[i := Released(s.phases[i].fired)], permits := s.permits - 1)
    case Finish(i) => s.(phases := s.phases[i := Finished(s.phases[i].fired)])
    case Fire(expired) =>
      s.(context := if expired then Expired else Canceled,
         inFlight := if expired then set i | 0 <= i < |s.phases| && InFlight(s.phases[i]) else s.inFlight)
    case Watch => s.(watcher := Sent(if s.context.Expired? then Some(s.active) else None))
    case TearDown => s.(main := TornDown)
    case CloseProviders => s.(main := ProvidersClosed)
    case ReleaseContext => s.(main := ContextReleased, context := if s.context.Live? then Canceled else s.context)
    case Receive => s.(main := Returned(s.watcher.stalled))
  }

  /** The moves of one interleaving, each enabled when it is made. */
  predicate Legal(c: Config, moves: seq<Move>)
    decreases |moves|, 0
  {
    moves == [] ||
    (var front := moves[..|moves| - 1];
     Legal(c, front) && Shaped(c, After(c, front)) && Enabled(c, After(c, front), moves[|moves| - 1]))
  }

  function After(c: Config, moves: seq<Move>): (s: State)
    requires Legal(c, moves)
    ensures Shaped(c, s)
    decreases |moves|, 1
  {
    if moves == [] then Init(c) else Step(c, After(c, moves[..|moves| - 1]), moves[|moves| - 1])
  }

  predicate Final(s: State) { s.main.Returned? }

  // ----- counting goroutines -----

  function Total(weight: Phase -> nat, phases: seq<Phase>): nat {
    if phases == [] then 0 else Total(weight, phases[..|phases| - 1]) + weight(phases[|phases| - 1])
  }

  lemma {:induction false} TotalUpdate(weight: Phase -> nat, phases: seq<Phase>, i: nat, p: Phase)
    requires i < |phases|
    ensures Total(weight, phases[i := p]) + weight(phases[i]) == Total(weight, phases) + weight(p)
  {
    var n := |phases| - 1;
    if i < n {
      TotalUpdate(weight, phases[..n], i, p);
      assert phases[i := p][..n] == phases[..n][i := p];
    } else {
      assert phases[n := p][..n] == phases[..n];
    }
  }

  lemma {:induction false} TotalZero(weight: Phase -> nat, phases: seq<Phase>)
    requires forall i | 0 <= i < |phases| :: weight(phases[i]) == 0
    ensures Total(weight, phases) == 0
  {
    if phases != [] {
      TotalZero(weight, phases[..|phases| - 1]);
    }
  }

  /** A permit is held from the send on the semaphore to the receive. */
  ghost function Permits(): Phase -> nat { (p: Phase) => if p.HoldsSlot() then 1 else 0 }

  ghost function MovesLeft(): Phase -> nat { (p: Phase) => p.StepsLeft() }

  // ----- the invariant -----

  ghost predicate PermitsHeld(c: Config, s: State) {
    s.permits == Total(Permits(), s.phases) && s.permits <= c.Capacity()
  }

  /** The slot holds the result as it was returned; nothing is written for a scenario that broke down. */
  predicate Keeps(slot: Option<ScenarioResult>, outcome: Result<ScenarioResult, Breakdown>) {
    match outcome case Ok(r) => slot == Some(r) case Err(_) => slot == None
  }

  ghost predicate SlotsFilled(c: Config, s: State)
    requires Shaped(c, s)
  {
    forall i | 0 <= i < |s.phases| ::
      && (if s.phases[i].HasRun() then Keeps(s.slots[i], c.outcome(i, s.caught[i])) else s.slots[i] == None)
      && (s.caught[i].Some? ==> s.phases[i].HasRun() && !s.context.Live?)
  }

  ghost predicate Errors(c: Config, s: State)
    requires Shaped(c, s)
  {
    && (s.firstErr.Some? ==> exists i :: 0 <= i < |s.phases| && s.phases[i].PastErrors()
                                         && c.outcome(i, s.caught[i]) == Err(s.firstErr.value))
    && (s.firstErr.None? ==> forall i | 0 <= i < |s.phases| && s.phases[i].PastErrors() :: c.outcome(i, s.caught[i]).Ok?)
  }

  ghost predicate Ordering(s: State) {
    && (s.main != Waiting ==> forall i | 0 <= i < |s.phases| :: s.phases[i].Finished?)
    && (s.main.ContextReleased? || s.main.Returned? ==> s.context != Live)
    && (s.watcher.Sent? ==> s.context != Live && (s.watcher.stalled.Some? <==> s.context.Expired?))
    && (s.main.Returned? ==> s.watcher == Sent(s.main.stalled))
  }

  /** The scenario is still tracked: not yet ended, or ended with the context fired. */
  predicate Tracked(p: Phase) {
    p.Started? || p.Ran? || p.Checked? || ((p.Bookkept? || p.ErrorKept? || p.Released? || p.Finished?) && p.fired)
  }

  ghost predicate OnlyTracked(c: Config, s: State)
    requires Shaped(c, s)
  {
    && (forall name | name in s.active :: exists i :: 0 <= i < |s.phases| && Tracked(s.phases[i]) && c.names[i] == name)
    && (s.watcher.Sent? && s.watcher.stalled.Some? ==>
          forall name | name in s.watcher.stalled.value ::
            exists i :: 0 <= i < |s.phases| && s.phases[i].HasStarted() && c.names[i] == name)
  }

  ghost predicate Invariant(c: Config, s: State) {
    Shaped(c, s) && PermitsHeld(c, s) && SlotsFilled(c, s) && Errors(c, s) && Ordering(s) && OnlyTracked(c, s)
  }

  predicate OfScenario(m: Move) {
    m.Acquire? || m.TrackStart? || m.RunIt? || m.ReadContext? || m.TrackEnd? || m.KeepError? || m.Release? || m.Finish?
  }

  lemma PermitsKept(c: Config, s: State, m: Move)
    requires Invariant(c, s) && Enabled(c, s, m)
    ensures PermitsHeld(c, Step(c, s, m))
  {
    if OfScenario(m) {
      TotalUpdate(Permits(), s.phases, m.i, Step(c, s, m).phases[m.i]);
    }
  }

  lemma SlotsKept(c: Config, s: State, m: Move)
    requires Invariant(c, s) && Enabled(c, s, m)
    ensures Shaped(c, Step(c, s, m)) && SlotsFilled(c, Step(c, s, m))
  {
    hide PermitsHeld;
    hide OnlyTracked;
    hide Errors;
    hide Keeps;
    if m.RunIt? {
      RunItKeeps(c, s, m);
    }
  }

  lemma RunItKeeps(c: Config, s: State, m: Move)
    requires Shaped(c, s) && Enabled(c, s, m) && m.RunIt?
    ensures Keeps(Step(c, s, m).slots[m.i], c.outcome(m.i, Step(c, s, m).caught[m.i]))
  {
  }

  lemma ErrorsKept(c: Config, s: State, m: Move)
    requires Invariant(c, s) && Enabled(c, s, m)
    ensures Shaped(c, Step(c, s, m)) && Errors(c, Step(c, s, m))
  {
    hide PermitsHeld;
    hide OnlyTracked;
    hide Ordering;
    var t := Step(c, s, m);
    if s.firstErr.Some? {
      var i :| 0 <= i < |s.phases| && s.phases[i].PastErrors() && c.outcome(i, s.caught[i]) == Err(s.firstErr.value);
      assert t.phases[i].PastErrors() && t.caught[i] == s.caught[i];
    } else if m.KeepError? {
      assert t.phases[m.i].PastErrors() && t.caught[m.i] == s.caught[m.i];
    }
  }

  lemma OrderingKept(c: Config, s: State, m: Move)
    requires Invariant(c, s) && Enabled(c, s, m)
    ensures Ordering(Step(c, s, m))
  {
  }

  lemma OnlyTrackedKept(c: Config, s: State, m: Move)
    requires Invariant(c, s) && Enabled(c, s, m)
    ensures Shaped(c, Step(c, s, m)) && OnlyTracked(c, Step(c, s, m))
  {
    hide PermitsHeld;
    hide SlotsFilled;
    hide Errors;
    hide Ordering;
    var t := Step(c, s, m);
    assert forall i | 0 <= i < |s.phases| && s.phases[i].HasStarted() :: t.phases[i].HasStarted();
    forall name | name in t.active
      ensures exists i :: 0 <= i < |t.phases| && Tracked(t.phases[i]) && c.names[i] == name
    {
      if name in s.active {
        var i :| 0 <= i < |s.phases| && Tracked(s.phases[i]) && c.names[i] == name;
        assert Tracked(t.phases[i]);
      } else {
        assert m.TrackStart? && Tracked(t.phases[m.i]);
      }
    }
  }

  lemma {:induction false} RunsKeepInvariant(c: Config, moves: seq<Move>)
    requires Legal(c, moves)
    ensures Invariant(c, After(c, moves))
  {
    if moves == [] {
      TotalZero(Permits(), Init(c).phases);
    } else {
      var front, m := moves[..|moves| - 1], moves[|moves| - 1];
      RunsKeepInvariant(c, front);
      PermitsKept(c, After(c, front), m);
      SlotsKept(c, After(c, front), m);
      ErrorsKept(c, After(c, front), m);
      OrderingKept(c, After(c, front), m);
      OnlyTrackedKept(c, After(c, front), m);
    }
  }

  // ----- parallelism -----

  lemma {:induction false} PermitsCountHolders(phases: seq<Phase>)
    ensures Total(Permits(), phases) == |set i | 0 <= i < |phases| && phases[i].HoldsSlot()|
  {
    if phases != [] {
      var n := |phases| - 1;
      PermitsCountHolders(phases[..n]);
      var before := set i | 0 <= i < n && phases[..n][i].HoldsSlot();
      var all := set i | 0 <= i < |phases| && phases[i].HoldsSlot();
      assert all == if phases[n].HoldsSlot() then before + {n} else before;
    }
  }

  /** In every interleaving at most `parallel` scenarios are past the semaphore at once (one, when
      `parallel` is not positive). */
  lemma AtMostParallel(c: Config, moves: seq<Move>)
    requires Legal(c, moves)
    ensures var s := After(c, moves);
            |set i | 0 <= i < |s.phases| && s.phases[i].HoldsSlot()| <= if c.parallel < 1 then 1 else c.parallel
  {
    RunsKeepInvariant(c, moves);
    PermitsCountHolders(After(c, moves).phases);
  }

  // ----- no interleaving gets stuck or runs forever -----

  /** The next move of goroutine i, when it holds a permit or has released it. */
  function NextMove(i: nat, p: Phase): Move {
    match p
    case Queued => Acquire(i)
    case Holding => TrackStart(i)
    case Started => RunIt(i, 0)
    case Ran => ReadContext(i)
    case Checked(_) => TrackEnd(i)
    case Bookkept(_) => KeepError(i)
    case ErrorKept(_) => Release(i)
    case Released(_) => Finish(i)
    case Finished(_) => Watch
  }

  lemma {:induction false} HolderCounts(phases: seq<Phase>, i: nat)
    requires i < |phases| && phases[i].HoldsSlot()
    ensures Total(Permits(), phases) > 0
  {
    if i < |phases| - 1 {
      HolderCounts(phases[..|phases| - 1], i);
    }
  }

  /** Until the run has returned, some move other than the context firing is possible: in particular
      the last receive always finds a value sent. */
  lemma NeverStuck(c: Config, moves: seq<Move>) returns (m: Move)
    requires Legal(c, moves) && !Final(After(c, moves))
    ensures !m.Fire? && Enabled(c, After(c, moves), m)
  {
    RunsKeepInvariant(c, moves);
    var s := After(c, moves);
    match s.main
    case Waiting =>
      if i :| 0 <= i < |s.phases| && !s.phases[i].Queued? && !s.phases[i].Finished? {
        m := NextMove(i, s.phases[i]);
        if s.phases[i].ErrorKept? {
          HolderCounts(s.phases, i);
        }
      } else if i :| 0 <= i < |s.phases| && s.phases[i].Queued? {
        m := Acquire(i);
        TotalZero(Permits(), s.phases);
      } else {
        m := TearDown;
      }
    case TornDown => m := CloseProviders;
    case ProvidersClosed => m := ReleaseContext;
    case ContextReleased => m := if s.watcher.Watching? then Watch else Receive;
  }

  /** How many moves are left at most. */
  ghost function Rank(s: State): nat {
    Total(MovesLeft(), s.phases) + (if s.context.Live? then 1 else 0) + (if s.watcher.Watching? then 1 else 0)
    + s.main.StepsLeft()
  }

  lemma EveryMoveCounts(c: Config, s: State, m: Move)
    requires Shaped(c, s) && Enabled(c, s, m)
    ensures Rank(Step(c, s, m)) < Rank(s)
  {
    if OfScenario(m) {
      TotalUpdate(MovesLeft(), s.phases, m.i, Step(c, s, m).phases[m.i]);
    }
  }

  lemma {:induction false} InitialRank(n: nat)
    ensures Total(MovesLeft(), seq(n, i => Queued)) == 8 * n
  {
    if n > 0 {
      InitialRank(n - 1);
      assert seq(n, i => Queued)[..n - 1] == seq(n - 1, i => Queued);
    }
  }

  /** Every interleaving is finite: eight moves a scenario and six for the rest. */
  lemma {:induction false} RunsAreBounded(c: Config, moves: seq<Move>)
    requires Legal(c, moves)
    ensures |moves| + Rank(After(c, moves)) <= 8 * |c.names| + 6
  {
    if moves == [] {
      InitialRank(|c.names|);
      assert Init(c).phases == seq(|c.names|, i => Queued);
    } else {
      RunsAreBounded(c, moves[..|moves| - 1]);
      EveryMoveCounts(c, After(c, moves[..|moves| - 1]), moves[|moves| - 1]);
    }
  }

  // ----- prefixes -----

  lemma {:induction false} Prefix(c: Config, moves: seq<Move>, k: nat)
    requires Legal(c, moves) && k <= |moves|
    ensures Legal(c, moves[..k])
    ensures k < |moves| ==> Enabled(c, After(c, moves[..k]), moves[k])
    ensures k < |moves| ==> Legal(c, moves[..k + 1]) && After(c, moves[..k + 1]) == Step(c, After(c, moves[..k]), moves[k])
  {
    var n := |moves| - 1;
    if k <= n {
      if k < n {
        Prefix(c, moves[..n], k);
        assert moves[..n][..k] == moves[..k] && moves[..n][..k + 1] == moves[..k + 1];
      }
      assert moves[..k + 1][..k] == moves[..k];
      assert k == n ==> moves[..k + 1] == moves;
    } else {
      assert moves[..k] == moves;
    }
  }

  // ----- what results depend on -----

  /** Move k is the end of scenario i's run. */
  predicate EndsRun(moves: seq<Move>, k: nat, i: nat) {
    k < |moves| && moves[k].RunIt? && moves[k].i == i
  }

  /** Scenario i ends its run before the context fires, if it ever does. */
  ghost predicate RunsUndisturbed(moves: seq<Move>, i: nat) {
    exists k: nat :: EndsRun(moves, k, i) && forall j | 0 <= j < k :: !moves[j].Fire?
  }

  lemma {:induction false} LiveUntilFired(c: Config, moves: seq<Move>)
    requires Legal(c, moves) && forall j | 0 <= j < |moves| :: !moves[j].Fire?
    ensures var s := After(c, moves);
            s.context.Live? || s.main.ContextReleased? || s.main.Returned?
  {
    if moves != [] {
      LiveUntilFired(c, moves[..|moves| - 1]);
    }
  }

  /** Once a scenario has run, nothing changes its slot or how it was caught. */
  lemma {:induction false} RunStays(c: Config, moves: seq<Move>, k: nat, i: nat)
    requires Legal(c, moves) && k <= |moves| && Legal(c, moves[..k])
    requires i < |c.names| && After(c, moves[..k]).phases[i].HasRun()
    ensures After(c, moves).phases[i].HasRun()
    ensures After(c, moves).slots[i] == After(c, moves[..k]).slots[i]
    ensures After(c, moves).caught[i] == After(c, moves[..k]).caught[i]
  {
    var n := |moves| - 1;
    if k <= n {
      assert moves[..n][..k] == moves[..k];
      RunStays(c, moves[..n], k, i);
    } else {
      assert moves[..k] == moves;
    }
  }

  lemma UndisturbedIsNotCaught(c: Config, moves: seq<Move>, i: nat)
    requires Legal(c, moves) && i < |c.names| && RunsUndisturbed(moves, i)
    ensures After(c, moves).caught[i].None?
  {
    var k: nat :| EndsRun(moves, k, i) && forall j | 0 <= j < k :: !moves[j].Fire?;
    Prefix(c, moves, k);
    LiveUntilFired(c, moves[..k]);
    RunsKeepInvariant(c, moves[..k]);
    RunStays(c, moves, k + 1, i);
  }

  /** A complete run holds, in every slot, exactly what its scenario returned: its result as it is, and
      nothing for a scenario that returned an error. */
  lemma SlotsHoldOutcomes(c: Config, moves: seq<Move>, i: nat)
    requires Legal(c, moves) && Final(After(c, moves)) && i < |c.names|
    ensures var s := After(c, moves);
            && (forall r :: s.slots[i] == Some(r) <==> c.outcome(i, s.caught[i]) == Ok(r))
            && (s.slots[i] == None <==> c.outcome(i, s.caught[i]).Err?)
            && (s.caught[i].Some? ==> exists k :: 0 <= k < |moves| && moves[k] == RunIt(i, s.caught[i].value))
            && (RunsUndisturbed(moves, i) ==> s.caught[i] == None)
  {
    FinalSlots(c, moves, i);
    hide After;
    hide Legal;
    hide RunsUndisturbed;
    if After(c, moves).caught[i].Some? {
      CaughtByItsRun(c, moves, i);
    }
    if RunsUndisturbed(moves, i) {
      UndisturbedIsNotCaught(c, moves, i);
    }
  }

  lemma FinalSlots(c: Config, moves: seq<Move>, i: nat)
    requires Legal(c, moves) && Final(After(c, moves)) && i < |c.names|
    ensures Keeps(After(c, moves).slots[i], c.outcome(i, After(c, moves).caught[i]))
  {
    RunsKeepInvariant(c, moves);
  }

  lemma {:induction false} CaughtByItsRun(c: Config, moves: seq<Move>, i: nat)
    requires Legal(c, moves) && i < |c.names| && After(c, moves).caught[i].Some?
    ensures exists k :: 0 <= k < |moves| && moves[k] == RunIt(i, After(c, moves).caught[i].value)
  {
    var n := |moves| - 1;
    if moves[n] != RunIt(i, After(c, moves).caught[i].value) {
      CaughtByItsRun(c, moves[..n], i);
      var k :| 0 <= k < n && moves[..n][k] == RunIt(i, After(c, moves).caught[i].value);
      assert moves[k] == moves[..n][k];
    }
  }

  /** Two complete runs of the same scenarios, however interleaved and whatever their parallelism, agree
      on the result of every scenario that ends before the context fires in both: it is what running the
      scenario undisturbed returns. */
  lemma ScheduleIndependent(c: Config, moves: seq<Move>, parallel: int, others: seq<Move>, i: nat)
    requires Legal(c, moves) && Final(After(c, moves))
    requires Legal(c.(parallel := parallel), others) && Final(After(c.(parallel := parallel), others))
    requires i < |c.names| && RunsUndisturbed(moves, i) && RunsUndisturbed(others, i)
    ensures After(c, moves).slots[i] == After(c.(parallel := parallel), others).slots[i]
    ensures forall r :: After(c, moves).slots[i] == Some(r) <==> c.outcome(i, None) == Ok(r)
  {
    var d := c.(parallel := parallel);
    RunsKeepInvariant(c, moves);
    RunsKeepInvariant(d, others);
    UndisturbedIsNotCaught(c, moves, i);
    UndisturbedIsNotCaught(d, others, i);
  }

  /** So if neither run is disturbed their result lists are the same, and they agree on whether there
      was an error. */
  lemma UndisturbedRunsAgree(c: Config, moves: seq<Move>, parallel: int, others: seq<Move>)
    requires Legal(c, moves) && Final(After(c, moves))
    requires Legal(c.(parallel := parallel), others) && Final(After(c.(parallel := parallel), others))
    requires forall i | 0 <= i < |c.names| :: RunsUndisturbed(moves, i) && RunsUndisturbed(others, i)
    ensures After(c, moves).slots == After(c.(parallel := parallel), others).slots
    ensures After(c, moves).firstErr.Some? <==> After(c.(parallel := parallel), others).firstErr.Some?
  {
    var d := c.(parallel := parallel);
    forall i | 0 <= i < |c.names| ensures After(c, moves).slots[i] == After(d, others).slots[i] {
      ScheduleIndependent(c, moves, parallel, others, i);
    }
    ErrorShows(c, moves);
    ErrorShows(d, others);
  }

  /** A complete run reports an error exactly when a slot stays empty. */
  lemma ErrorShows(c: Config, moves: seq<Move>)
    requires Legal(c, moves) && Final(After(c, moves))
    ensures After(c, moves).firstErr.Some? <==> exists i :: 0 <= i < |c.names| && After(c, moves).slots[i].None?
  {
    RunsKeepInvariant(c, moves);
    var s := After(c, moves);
    if i :| 0 <= i < |c.names| && s.slots[i].None? {
      assert s.phases[i].PastErrors() && c.outcome(i, s.caught[i]).Err?;
    }
    if s.firstErr.Some? {
      var i :| 0 <= i < |s.phases| && s.phases[i].PastErrors() && c.outcome(i, s.caught[i]) == Err(s.firstErr.value);
      assert s.slots[i].None?;
    }
  }

  function Then(c: Config, moves: seq<Move>, m: Move): (longer: seq<Move>)
    requires Legal(c, moves) && Enabled(c, After(c, moves), m)
    ensures Legal(c, longer) && After(c, longer) == Step(c, After(c, moves), m)
    ensures longer == moves + [m]
  {
    Extend(c, moves, m);
    moves + [m]
  }

  lemma Extend(c: Config, moves: seq<Move>, m: Move)
    requires Legal(c, moves) && Enabled(c, After(c, moves), m)
    ensures Legal(c, moves + [m]) && After(c, moves + [m]) == Step(c, After(c, moves), m)
  {
    assert (moves + [m])[..|moves|] == moves;
  }

  /** The first n scenarios take a permit each. */
  lemma {:induction false} TakePermits(c: Config, n: nat) returns (moves: seq<Move>)
    requires n <= |c.names| && n <= c.Capacity()
    ensures Legal(c, moves) && After(c, moves).permits == n
    ensures forall i | 0 <= i < |c.names| :: After(c, moves).phases[i] == if i < n then Holding else Queued
  {
    if n == 0 {
      moves := [];
    } else {
      moves := TakePermits(c, n - 1);
      hide Legal;
      hide After;
      moves := Then(c, moves, Acquire(n - 1));
    }
  }

  /** And that many do get to run together in some interleaving, when there are that many. */
  lemma ParallelIsReached(c: Config) returns (moves: seq<Move>)
    ensures Legal(c, moves)
    ensures var s, most := After(c, moves), if c.parallel < 1 then 1 else c.parallel;
            |set i | 0 <= i < |s.phases| && s.phases[i].HoldsSlot()| == if |c.names| < most then |c.names| else most
  {
    var n := if |c.names| < c.Capacity() then |c.names| else c.Capacity();
    moves := TakePermits(c, n);
    RunsKeepInvariant(c, moves);
    PermitsCountHolders(After(c, moves).phases);
  }

  lemma {:induction false} KeptIsPast(c: Config, moves: seq<Move>, k: nat)
    requires Legal(c, moves) && k < |moves| && moves[k].KeepError?
    ensures moves[k].i < |c.names| && After(c, moves).phases[moves[k].i].PastErrors()
  {
    var n := |moves| - 1;
    if k < n {
      KeptIsPast(c, moves[..n], k);
    }
  }

  /** The error a run reports is the first one kept: the one of the goroutine that got to keep its own
      before any other that had one. */
  lemma {:induction false} FirstErrorIsKept(c: Config, moves: seq<Move>) returns (k: nat)
    requires Legal(c, moves) && After(c, moves).firstErr.Some?
    ensures k < |moves| && moves[k].KeepError? && moves[k].i < |c.names|
    ensures var s := After(c, moves);
            && c.outcome(moves[k].i, s.caught[moves[k].i]) == Err(s.firstErr.value)
            && forall j | 0 <= j < k && moves[j].KeepError? ::
                 moves[j].i < |c.names| && c.outcome(moves[j].i, s.caught[moves[j].i]).Ok?
  {
    var n := |moves| - 1;
    var front, s := After(c, moves[..n]), After(c, moves);
    RunsKeepInvariant(c, moves[..n]);
    forall j | 0 <= j < n && moves[j].KeepError?
      ensures moves[j].i < |c.names| && front.phases[moves[j].i].PastErrors()
      ensures s.caught[moves[j].i] == front.caught[moves[j].i]
    {
      KeptIsPast(c, moves[..n], j);
    }
    k := n;
    if front.firstErr.Some? {
      k := FirstErrorIsKept(c, moves[..n]);
      assert forall j | 0 <= j <= k :: moves[..n][j] == moves[j];
    }
    hide PermitsHeld;
    hide OnlyTracked;
    hide SlotsFilled;
    hide Ordering;
    hide After;
    hide Legal;
  }

  /** Every interleaving can be completed. */
  lemma {:induction false} Complete(c: Config, moves: seq<Move>) returns (whole: seq<Move>)
    requires Legal(c, moves)
    ensures Legal(c, whole) && moves <= whole && Final(After(c, whole))
    decreases Rank(After(c, moves))
  {
    whole := moves;
    if !Final(After(c, moves)) {
      var m := NeverStuck(c, moves);
      EveryMoveCounts(c, After(c, moves), m);
      hide Final;
      hide Step;
      whole := Complete(c, Then(c, moves, m));
    }
  }

  /** A queued scenario with a permit free gets to start. */
  lemma StartScenario(c: Config, moves: seq<Move>, i: nat) returns (longer: seq<Move>)
    requires Legal(c, moves) && i < |c.names|
    requires After(c, moves).phases[i].Queued? && After(c, moves).permits < c.Capacity()
    ensures Legal(c, longer)
    ensures After(c, longer)
         == var s := After(c, moves);
            s.(phases := s.phases[i := Started], active := s.active + {c.names[i]}, permits := s.permits + 1)
  {
    hide Legal;
    hide After;
    longer := Then(c, moves, Acquire(i));
    longer := Then(c, longer, TrackStart(i));
    assert After(c, moves).phases[i := Holding][i := Started] == After(c, moves).phases[i := Started];
  }

  /** The context fires, or not, and then scenario i ends. */
  lemma EndScenario(c: Config, moves: seq<Move>, i: nat, fires: bool, how: nat) returns (longer: seq<Move>)
    requires Legal(c, moves) && i < |c.names| && After(c, moves).phases[i].Started? && After(c, moves).context.Live?
    ensures Legal(c, longer) && After(c, longer).phases[i].HasRun()
    ensures Keeps(After(c, longer).slots[i], c.outcome(i, if fires then Some(how) else None))
  {
    hide Legal;
    hide After;
    longer := if fires then Then(c, moves, Fire(true)) else moves;
    longer := Then(c, longer, RunIt(i, how));
  }

  /** A complete run in which scenario i starts first, and the context fires, or not, before it ends. */
  lemma RunCaught(c: Config, i: nat, fires: bool, how: nat) returns (moves: seq<Move>)
    requires i < |c.names|
    ensures Legal(c, moves) && Final(After(c, moves))
    ensures Keeps(After(c, moves).slots[i], c.outcome(i, if fires then Some(how) else None))
  {
    assert Legal(c, []) && After(c, []) == Init(c);
    var started := StartScenario(c, [], i);
    var ended := EndScenario(c, started, i, fires, how);
    hide Legal;
    hide After;
    moves := Complete(c, ended);
    assert moves[..|ended|] == ended;
    RunStays(c, moves, |ended|, i);
  }

  /** All complete runs, at any parallelism, fill the result list alike. */
  ghost predicate SameInAllRuns(c: Config) {
    forall p, moves, q, others |
      && Legal(c.(parallel := p), moves) && Final(After(c.(parallel := p), moves))
      && Legal(c.(parallel := q), others) && Final(After(c.(parallel := q), others)) ::
      After(c.(parallel := p), moves).slots == After(c.(parallel := q), others).slots
  }

  /** A scenario caught by the firing context that way returns what it returns undisturbed, or an error
      both times. */
  predicate Unmoved(c: Config, i: nat, how: nat) {
    var caught, undisturbed := c.outcome(i, Some(how)), c.outcome(i, None);
    caught == undisturbed || (caught.Err? && undisturbed.Err?)
  }

  /** A firing context is the only thing that can make results differ between runs: they never differ
      exactly when no scenario's result depends on being caught by it. */
  lemma ResultsVaryOnlyByFiring(c: Config)
    ensures SameInAllRuns(c) <==> forall i, how | 0 <= i < |c.names| :: Unmoved(c, i, how)
  {
    if forall i, how | 0 <= i < |c.names| :: Unmoved(c, i, how) {
      forall p, moves | Legal(c.(parallel := p), moves) && Final(After(c.(parallel := p), moves))
        ensures forall i | 0 <= i < |c.names| :: Keeps(After(c.(parallel := p), moves).slots[i], c.outcome(i, None))
      {
        SlotsOfRun(c, p, moves);
      }
    } else {
      var i: nat, how: nat :| i < |c.names| && !Unmoved(c, i, how);
      var caught := RunCaught(c, i, true, how);
      var undisturbed := RunCaught(c, i, false, how);
      assert c.(parallel := c.parallel) == c;
      assert After(c, caught).slots[i] != After(c, undisturbed).slots[i];
    }
  }

  lemma SlotsOfRun(c: Config, p: int, moves: seq<Move>)
    requires forall i, how | 0 <= i < |c.names| :: Unmoved(c, i, how)
    requires Legal(c.(parallel := p), moves) && Final(After(c.(parallel := p), moves))
    ensures forall i | 0 <= i < |c.names| :: Keeps(After(c.(parallel := p), moves).slots[i], c.outcome(i, None))
  {
    var d := c.(parallel := p);
    RunsKeepInvariant(d, moves);
    var s := After(d, moves);
    forall i | 0 <= i < |c.names| ensures Keeps(s.slots[i], c.outcome(i, None)) {
      assert Keeps(s.slots[i], d.outcome(i, s.caught[i]));
      if s.caught[i].Some? {
        assert Unmoved(c, i, s.caught[i].value);
      }
    }
  }

  /** How often a run of scenario i ends. */
  function RunEnds(moves: seq<Move>, i: nat): nat {
    if moves == [] then 0
    else RunEnds(moves[..|moves| - 1], i) + if EndsRun(moves, |moves| - 1, i) then 1 else 0
  }

  lemma {:induction false} RunCount(c: Config, moves: seq<Move>, i: nat)
    requires Legal(c, moves) && i < |c.names|
    ensures RunEnds(moves, i) == if After(c, moves).phases[i].HasRun() then 1 else 0
  {
    if moves != [] {
      RunCount(c, moves[..|moves| - 1], i);
    }
  }

  /** Only goroutine i writes slot i, and a complete run makes it write exactly once. */
  lemma SlotWrittenOnce(c: Config, moves: seq<Move>, i: nat)
    requires Legal(c, moves) && i < |c.names|
    ensures Final(After(c, moves)) ==> RunEnds(moves, i) == 1
    ensures forall k | 0 <= k < |moves| && !EndsRun(moves, k, i) ::
              && Legal(c, moves[..k]) && Legal(c, moves[..k + 1])
              && After(c, moves[..k + 1]).slots[i] == After(c, moves[..k]).slots[i]
  {
    RunsKeepInvariant(c, moves);
    RunCount(c, moves, i);
    forall k | 0 <= k < |moves| && !EndsRun(moves, k, i)
      ensures && Legal(c, moves[..k]) && Legal(c, moves[..k + 1])
              && After(c, moves[..k + 1]).slots[i] == After(c, moves[..k]).slots[i]
    {
      Prefix(c, moves, k);
    }
  }

  // ----- cleanup comes last -----

  predicate ProvidersDone(main: Main) { main != Waiting && main != TornDown }

  lemma MainStep(c: Config, s: State, m: Move)
    requires Shaped(c, s) && Enabled(c, s, m)
    ensures Step(c, s, m).main != Waiting <==> s.main != Waiting || m == TearDown
    ensures ProvidersDone(Step(c, s, m).main) <==> ProvidersDone(s.main) || m == CloseProviders
  {
  }

  lemma {:induction false} MainHistory(c: Config, moves: seq<Move>)
    requires Legal(c, moves)
    ensures After(c, moves).main != Waiting <==> TearDown in moves
    ensures ProvidersDone(After(c, moves).main) <==> CloseProviders in moves
  {
    if moves != [] {
      var front, m := moves[..|moves| - 1], moves[|moves| - 1];
      MainHistory(c, front);
      MainStep(c, After(c, front), m);
      hide Step;
      hide Enabled;
      assert moves == front + [m];
    }
  }

  /** The suite teardown starts only when every scenario has released its permit and finished; from
      then on no scenario moves; providers are closed only after the teardown. */
  lemma CleanupComesLast(c: Config, moves: seq<Move>, k: nat)
    requires Legal(c, moves) && k < |moves| && Legal(c, moves[..k])
    ensures moves[k] == TearDown ==> After(c, moves[..k]).permits == 0
    ensures moves[k] == TearDown ==> forall i | 0 <= i < |c.names| :: After(c, moves[..k]).phases[i].Finished?
    ensures OfScenario(moves[k]) ==> TearDown !in moves[..k]
    ensures moves[k] == CloseProviders ==> TearDown in moves[..k]
    ensures moves[k] == TearDown ==> TearDown !in moves[..k]
  {
    Prefix(c, moves, k);
    RunsKeepInvariant(c, moves[..k]);
    MainHistory(c, moves[..k]);
    if moves[k] == TearDown {
      TotalZero(Permits(), After(c, moves[..k]).phases);
    }
  }

  // ----- the stalled list -----

  predicate Distinct(names: seq<string>) {
    forall i, j | 0 <= i < j < |names| :: names[i] != names[j]
  }

  predicate FiredAfter(p: Phase) {
    (p.Checked? || p.Bookkept? || p.ErrorKept? || p.Released? || p.Finished?) && p.fired
  }

  ghost predicate Coverage(c: Config, s: State)
    requires Shaped(c, s)
  {
    && (forall i | 0 <= i < |s.phases| && Tracked(s.phases[i]) :: c.names[i] in s.active)
    && (forall i | i in s.inFlight :: i < |s.phases| && s.context.Expired?
                                      && (InFlight(s.phases[i]) || FiredAfter(s.phases[i])))
    && (s.watcher.Sent? && s.watcher.stalled.Some? ==> forall i | i in s.inFlight :: c.names[i] in s.watcher.stalled.value)
  }

  lemma CoverageKept(c: Config, s: State, m: Move)
    requires Shaped(c, s) && Enabled(c, s, m) && Distinct(c.names) && Coverage(c, s) && Ordering(s)
    ensures Shaped(c, Step(c, s, m)) && Coverage(c, Step(c, s, m))
  {
    var t := Step(c, s, m);
    forall i | 0 <= i < |t.phases| && Tracked(t.phases[i]) ensures c.names[i] in t.active {
      if m.TrackEnd? && i != m.i {
        assert c.names[i] != c.names[m.i];
      }
    }
  }

  lemma {:induction false} RunsKeepCoverage(c: Config, moves: seq<Move>)
    requires Legal(c, moves) && Distinct(c.names)
    ensures Coverage(c, After(c, moves))
  {
    if moves != [] {
      var front := moves[..|moves| - 1];
      RunsKeepCoverage(c, front);
      RunsKeepInvariant(c, front);
      CoverageKept(c, After(c, front), moves[|moves| - 1]);
    }
  }

  /** The history variable holds what its name says. */
  lemma {:induction false} InFlightWhenFired(c: Config, moves: seq<Move>, k: nat)
    requires Legal(c, moves) && k < |moves| && moves[k] == Fire(true) && Legal(c, moves[..k])
    ensures After(c, moves).context.Expired?
    ensures After(c, moves).inFlight
         == set i | 0 <= i < |c.names| && InFlight(After(c, moves[..k]).phases[i])
  {
    var n := |moves| - 1;
    if k < n {
      assert moves[..n][..k] == moves[..k];
      InFlightWhenFired(c, moves[..n], k);
      FiredStays(c, After(c, moves[..n]), moves[n]);
      hide Step;
      hide Enabled;
    }
  }

  lemma FiredStays(c: Config, s: State, m: Move)
    requires Shaped(c, s) && Enabled(c, s, m) && s.context.Expired?
    ensures Step(c, s, m).context.Expired? && Step(c, s, m).inFlight == s.inFlight
  {
  }

  /** With distinct scenario names: if the deadline passes, the stalled list the run returns holds
      every scenario that had started and not yet read the context at that moment, however late the
      watcher gets to run. */
  lemma StalledCoverage(c: Config, moves: seq<Move>, k: nat, i: nat)
    requires Legal(c, moves) && Distinct(c.names) && After(c, moves).main.Returned?
    requires k < |moves| && moves[k] == Fire(true) && Legal(c, moves[..k])
    requires i < |c.names| && InFlight(After(c, moves[..k]).phases[i])
    ensures After(c, moves).main.stalled.Some? && c.names[i] in After(c, moves).main.stalled.value
  {
    RunsKeepInvariant(c, moves);
    RunsKeepCoverage(c, moves);
    InFlightWhenFired(c, moves, k);
  }

  /** What the watcher sent stays what it saw at its one move. */
  lemma {:induction false} WatchedOnce(c: Config, moves: seq<Move>, k: nat)
    requires Legal(c, moves) && k < |moves| && moves[k] == Watch && Legal(c, moves[..k])
    ensures var seen := After(c, moves[..k]);
            After(c, moves).watcher == Sent(if seen.context.Expired? then Some(seen.active) else None)
  {
    var n := |moves| - 1;
    if k < n {
      assert moves[..n][..k] == moves[..k];
      WatchedOnce(c, moves[..n], k);
      SentStays(c, After(c, moves[..n]), moves[n]);
      hide Step;
      hide Enabled;
    }
  }

  lemma SentStays(c: Config, s: State, m: Move)
    requires Shaped(c, s) && Enabled(c, s, m) && s.watcher.Sent?
    ensures Step(c, s, m).watcher == s.watcher
  {
  }

  /** Names shared or not: the stalled list is there only if the deadline had passed when the watcher
      looked, and names only scenarios still tracked then, not one that had ended in time. */
  lemma StalledAreTracked(c: Config, moves: seq<Move>, k: nat, name: string)
    requires Legal(c, moves) && k < |moves| && moves[k] == Watch && Legal(c, moves[..k])
    requires After(c, moves).main.Returned? && After(c, moves).main.stalled.Some?
    requires name in After(c, moves).main.stalled.value
    ensures var seen := After(c, moves[..k]);
            && seen.context.Expired?
            && exists i :: 0 <= i < |c.names| && Tracked(seen.phases[i]) && c.names[i] == name
  {
    WatchedOnce(c, moves, k);
    RunsKeepInvariant(c, moves);
    RunsKeepInvariant(c, moves[..k]);
  }

  /** The deadline has not passed and nobody has looked at the tracker. */
  predicate Unfired(s: State) {
    s.context.Live? && s.watcher.Watching?
  }

  lemma BothStart(c: Config, i: nat, j: nat) returns (moves: seq<Move>)
    requires i < j < |c.names| && c.names[i] == c.names[j] && c.Capacity() >= 2
    ensures Legal(c, moves) && Unfired(After(c, moves))
    ensures After(c, moves).phases[i] == After(c, moves).phases[j] == Started
    ensures After(c, moves).active == {c.names[i]}
  {
    moves := [];
    assert Legal(c, moves) && After(c, moves) == Init(c);
    hide Legal;
    hide After;
    moves := StartScenario(c, moves, i);
    moves := StartScenario(c, moves, j);
    assert After(c, moves).active == {c.names[i]};
  }

  lemma OtherEnds(c: Config, moves: seq<Move>, i: nat, j: nat) returns (longer: seq<Move>)
    requires Legal(c, moves) && Unfired(After(c, moves)) && i < j < |c.names|
    requires After(c, moves).phases[i] == After(c, moves).phases[j] == Started
    requires After(c, moves).active == {c.names[j]}
    ensures Legal(c, longer) && Unfired(After(c, longer))
    ensures After(c, longer).phases[i] == Started && After(c, longer).active == {}
  {
    hide Legal;
    hide After;
    longer := Then(c, moves, RunIt(j, 0));
    longer := Then(c, longer, ReadContext(j));
    assert After(c, longer).phases[j] == Checked(false) && After(c, longer).phases[i] == Started;
    longer := Then(c, longer, TrackEnd(j));
  }

  /** Two scenarios of one name running together: the one that ends takes the other off the list,
      and the deadline reports nobody. */
  lemma SharedNameHidesAScenario(c: Config, i: nat, j: nat) returns (moves: seq<Move>)
    requires i < j < |c.names| && c.names[i] == c.names[j] && c.Capacity() >= 2
    ensures Legal(c, moves) && i in After(c, moves).inFlight && After(c, moves).phases[i].Started?
    ensures After(c, moves).watcher == Sent(Some({})) && After(c, moves).active == {}
  {
    moves := BothStart(c, i, j);
    moves := OtherEnds(c, moves, i, j);
    hide Legal;
    hide After;
    moves := Then(c, moves, Fire(true));
    moves := Then(c, moves, Watch);
  }

  // ----- when exactly the stalled list can be relied on -----

  /** If scenario i was in flight when the deadline passed, it is on the list sent. */
  predicate Covers(c: Config, s: State, i: nat) {
    i in s.inFlight && s.watcher.Sent? && s.watcher.stalled.Some? ==>
      i < |c.names| && c.names[i] in s.watcher.stalled.value
  }

  ghost predicate AlwaysCovers(c: Config) {
    forall moves, i | Legal(c, moves) :: Covers(c, After(c, moves), i)
  }

  ghost predicate OneHolder(s: State) {
    forall i, j | 0 <= i < |s.phases| && 0 <= j < |s.phases| && i != j ::
      !(s.phases[i].HoldsSlot() && s.phases[j].HoldsSlot())
  }

  /** One at a time: a scenario that read a live context and still holds the permit is the latest. */
  ghost predicate OneAtATime(s: State) {
    && OneHolder(s)
    && (forall i | 0 <= i < |s.phases| && FiredAfter(s.phases[i]) :: !s.context.Live?)
    && (forall i, j | 0 <= i < |s.phases| && 0 <= j < |s.phases| ::
          !(s.phases[j] == Checked(false) && FiredAfter(s.phases[i])))
  }

  lemma {:induction false} TwoHolders(phases: seq<Phase>, i: nat, j: nat)
    requires i < j < |phases| && phases[i].HoldsSlot() && phases[j].HoldsSlot()
    ensures Total(Permits(), phases) >= 2
  {
    var n := |phases| - 1;
    if j < n {
      TwoHolders(phases[..n], i, j);
    } else {
      HolderCounts(phases[..n], i);
    }
  }

  lemma OnePermitOneHolder(c: Config, s: State)
    requires PermitsHeld(c, s) && c.Capacity() == 1
    ensures OneHolder(s)
  {
    forall i, j | 0 <= i < j < |s.phases| ensures !(s.phases[i].HoldsSlot() && s.phases[j].HoldsSlot()) {
      if s.phases[i].HoldsSlot() && s.phases[j].HoldsSlot() {
        TwoHolders(s.phases, i, j);
      }
    }
  }

  lemma OneAtATimeKept(c: Config, s: State, m: Move)
    requires Shaped(c, s) && Enabled(c, s, m) && OneAtATime(s) && PermitsHeld(c, Step(c, s, m)) && c.Capacity() == 1
    ensures OneAtATime(Step(c, s, m))
  {
    OnePermitOneHolder(c, Step(c, s, m));
    hide PermitsHeld;
  }

  lemma SequentialCoverageKept(c: Config, s: State, m: Move)
    requires Shaped(c, s) && Enabled(c, s, m) && OneAtATime(s) && Coverage(c, s) && Ordering(s)
    ensures Shaped(c, Step(c, s, m)) && Coverage(c, Step(c, s, m))
  {
    var t := Step(c, s, m);
    forall i | 0 <= i < |t.phases| && Tracked(t.phases[i]) ensures c.names[i] in t.active {
      if m.TrackEnd? && i != m.i {
        assert s.phases[m.i].HoldsSlot();
      }
    }
  }

  lemma {:induction false} SequentialRunsCover(c: Config, moves: seq<Move>)
    requires Legal(c, moves) && c.Capacity() == 1
    ensures OneAtATime(After(c, moves)) && Coverage(c, After(c, moves))
  {
    if moves != [] {
      var front, m := moves[..|moves| - 1], moves[|moves| - 1];
      SequentialRunsCover(c, front);
      RunsKeepInvariant(c, front);
      PermitsKept(c, After(c, front), m);
      OneAtATimeKept(c, After(c, front), m);
      SequentialCoverageKept(c, After(c, front), m);
    }
  }

  /** What was in flight at the deadline is always listed exactly when no two scenarios share a name, or
      scenarios run one at a time. */
  lemma CoverageExactly(c: Config)
    ensures AlwaysCovers(c) <==> Distinct(c.names) || c.Capacity() == 1
  {
    if Distinct(c.names) || c.Capacity() == 1 {
      forall moves, i | Legal(c, moves) ensures Covers(c, After(c, moves), i) {
        if c.Capacity() == 1 {
          SequentialRunsCover(c, moves);
        } else {
          RunsKeepCoverage(c, moves);
        }
      }
    } else {
      var i: nat, j: nat :| i < j < |c.names| && c.names[i] == c.names[j];
      var moves := SharedNameHidesAScenario(c, i, j);
      assert !Covers(c, After(c, moves), i);
    }
  }

  // ----- what exactly the stalled list holds -----

  function TrackedNames(c: Config, phases: seq<Phase>): set<string>
    requires |phases| == |c.names|
  {
    set i | 0 <= i < |c.names| && Tracked(phases[i]) :: c.names[i]
  }

  lemma ActiveIsTracked(c: Config, moves: seq<Move>)
    requires Legal(c, moves) && (Distinct(c.names) || c.Capacity() == 1)
    ensures After(c, moves).active == TrackedNames(c, After(c, moves).phases)
  {
    RunsKeepInvariant(c, moves);
    if c.Capacity() == 1 {
      SequentialRunsCover(c, moves);
    } else {
      RunsKeepCoverage(c, moves);
    }
  }

  ghost predicate AlwaysListsTracked(c: Config) {
    forall moves | Legal(c, moves) :: After(c, moves).active == TrackedNames(c, After(c, moves).phases)
  }

  /** In every interleaving the tracker lists the tracked scenarios, no more and no fewer, exactly under
      the same condition. */
  lemma ListExactly(c: Config)
    ensures AlwaysListsTracked(c) <==> Distinct(c.names) || c.Capacity() == 1
  {
    if Distinct(c.names) || c.Capacity() == 1 {
      forall moves | Legal(c, moves) ensures After(c, moves).active == TrackedNames(c, After(c, moves).phases) {
        ActiveIsTracked(c, moves);
      }
    } else {
      var i: nat, j: nat :| i < j < |c.names| && c.names[i] == c.names[j];
      var moves := SharedNameHidesAScenario(c, i, j);
      assert c.names[i] in TrackedNames(c, After(c, moves).phases);
    }
  }

  /** So the list a run returns holds exactly the scenarios that were tracked when the watcher looked. */
  lemma StalledExactly(c: Config, moves: seq<Move>, k: nat)
    requires Legal(c, moves) && (Distinct(c.names) || c.Capacity() == 1)
    requires k < |moves| && moves[k] == Watch && Legal(c, moves[..k])
    requires After(c, moves).main.Returned? && After(c, moves[..k]).context.Expired?
    ensures After(c, moves).main.stalled == Some(TrackedNames(c, After(c, moves[..k]).phases))
  {
    WatchedOnce(c, moves, k);
    RunsKeepInvariant(c, moves);
    ActiveIsTracked(c, moves[..k]);
  }

  // ----- the list against the moment of the deadline -----

  /** Scenario i starts at or after move f. */
  predicate StartsSince(moves: seq<Move>, f: nat, i: nat) {
    exists j | f <= j < |moves| :: moves[j] == TrackStart(i)
  }

  lemma {:induction false} FiredMeansFired(c: Config, moves: seq<Move>, i: nat)
    requires Legal(c, moves) && i < |c.names| && FiredAfter(After(c, moves).phases[i])
    ensures !After(c, moves).context.Live?
  {
    if moves != [] && FiredAfter(After(c, moves[..|moves| - 1]).phases[i]) {
      FiredMeansFired(c, moves[..|moves| - 1], i);
    }
  }

  /** Phase p of a scenario after the deadline; `late` says it was in flight then or started since. */
  predicate Since(late: bool, p: Phase) {
    && (late ==> InFlight(p) || FiredAfter(p))
    && (!late ==> (Tracked(p) <==> p == Checked(false)))
  }

  lemma SinceStep(c: Config, s: State, m: Move, late: bool, i: nat)
    requires Shaped(c, s) && Enabled(c, s, m) && i < |c.names| && !s.context.Live? && Since(late, s.phases[i])
    ensures !Step(c, s, m).context.Live? && Since(late || m == TrackStart(i), Step(c, s, m).phases[i])
  {
  }

  /** From the deadline on, what was in flight then or started since stays tracked; of the rest only a
      scenario between its context read and its end is. */
  lemma {:induction false} SinceDeadline(c: Config, moves: seq<Move>, f: nat, i: nat)
    requires Legal(c, moves) && f < |moves| && moves[f] == Fire(true) && Legal(c, moves[..f]) && i < |c.names|
    ensures !After(c, moves).context.Live?
    ensures Since(InFlight(After(c, moves[..f]).phases[i]) || StartsSince(moves, f, i), After(c, moves).phases[i])
  {
    var n := |moves| - 1;
    var front := After(c, moves[..n]);
    if f == n {
      if FiredAfter(front.phases[i]) {
        FiredMeansFired(c, moves[..n], i);
      }
    } else {
      assert moves[..n][..f] == moves[..f];
      SinceDeadline(c, moves[..n], f, i);
      StartsLater(moves, f, i);
      SinceStep(c, front, moves[n], InFlight(After(c, moves[..f]).phases[i]) || StartsSince(moves[..n], f, i), i);
      hide Step;
      hide Since;
      hide StartsSince;
    }
  }

  lemma StartsLater(moves: seq<Move>, f: nat, i: nat)
    requires f < |moves| - 1
    ensures StartsSince(moves, f, i) <==> StartsSince(moves[..|moves| - 1], f, i) || moves[|moves| - 1] == TrackStart(i)
  {
    var front := moves[..|moves| - 1];
    if j :| f <= j < |front| && front[j] == TrackStart(i) {
      assert moves[j] == TrackStart(i);
    }
  }

  /** What was in flight at the deadline does not start again. */
  lemma InFlightDoNotStart(c: Config, moves: seq<Move>, f: nat, i: nat)
    requires Legal(c, moves) && f < |moves| && moves[f] == Fire(true) && Legal(c, moves[..f]) && i < |c.names|
    requires InFlight(After(c, moves[..f]).phases[i])
    ensures !StartsSince(moves, f, i)
  {
    if j :| f <= j < |moves| && moves[j] == TrackStart(i) {
      Prefix(c, moves, j);
      hide After;
      hide Legal;
      hide Step;
      assert moves[..j][..f] == moves[..f];
      SinceDeadline(c, moves[..j], f, i);
    }
  }

  function NamesInFlight(c: Config, phases: seq<Phase>): set<string>
    requires |phases| == |c.names|
  {
    set i | 0 <= i < |c.names| && InFlight(phases[i]) :: c.names[i]
  }

  /** Scenario i started since move f, or is between its context read and its end. */
  predicate Other(moves: seq<Move>, f: nat, phases: seq<Phase>, i: nat)
    requires i < |phases|
  {
    StartsSince(moves, f, i) || phases[i] == Checked(false)
  }

  function OtherNames(c: Config, moves: seq<Move>, f: nat, phases: seq<Phase>): set<string>
    requires |phases| == |c.names|
  {
    set i: nat | i < |c.names| && Other(moves, f, phases, i) :: c.names[i]
  }

  lemma TrackedSplits(c: Config, moves: seq<Move>, f: nat, i: nat)
    requires Legal(c, moves) && f < |moves| && moves[f] == Fire(true) && Legal(c, moves[..f]) && i < |c.names|
    ensures var fired, now := After(c, moves[..f]).phases, After(c, moves).phases;
            && (Tracked(now[i]) <==> InFlight(fired[i]) || Other(moves, f, now, i))
            && !(InFlight(fired[i]) && Other(moves, f, now, i))
  {
    SinceDeadline(c, moves, f, i);
    if InFlight(After(c, moves[..f]).phases[i]) {
      InFlightDoNotStart(c, moves, f, i);
    }
    hide StartsSince;
  }

  lemma NamesSplit(c: Config, moves: seq<Move>, f: nat, fired: seq<Phase>, now: seq<Phase>)
    requires |fired| == |now| == |c.names| && Distinct(c.names)
    requires forall i: nat | i < |c.names| :: Tracked(now[i]) <==> InFlight(fired[i]) || Other(moves, f, now, i)
    requires forall i: nat | i < |c.names| :: !(InFlight(fired[i]) && Other(moves, f, now, i))
    ensures TrackedNames(c, now) == NamesInFlight(c, fired) + OtherNames(c, moves, f, now)
    ensures NamesInFlight(c, fired) !! OtherNames(c, moves, f, now)
  {
    hide Other;
  }

  /** With distinct names, the list against the deadline: it holds what was in flight then, what started
      between then and the watcher's look, and what the watcher caught between its context read and its
      end. So it is the list of that exact moment if and only if there is nothing of the latter kinds. */
  lemma StalledAtTheDeadline(c: Config, moves: seq<Move>, f: nat, k: nat)
    requires Legal(c, moves) && Distinct(c.names) && After(c, moves).main.Returned?
    requires f < k < |moves| && moves[f] == Fire(true) && moves[k] == Watch
    requires Legal(c, moves[..f]) && Legal(c, moves[..k])
    ensures var atDeadline := NamesInFlight(c, After(c, moves[..f]).phases);
            var others := OtherNames(c, moves[..k], f, After(c, moves[..k]).phases);
            && After(c, moves).main.stalled == Some(atDeadline + others)
            && (After(c, moves).main.stalled == Some(atDeadline) <==> others == {})
  {
    assert |After(c, moves[..f]).phases| == |After(c, moves[..k]).phases| == |c.names|;
    hide *;
    var seen := moves[..k];
    assert seen[..f] == moves[..f] && seen[f] == moves[f];
    InFlightWhenFired(c, seen, f);
    StalledExactly(c, moves, k);
    TrackedIsSplit(c, seen, f);
    UnionIsLeft(NamesInFlight(c, After(c, moves[..f]).phases), OtherNames(c, seen, f, After(c, seen).phases));
  }

  lemma TrackedIsSplit(c: Config, moves: seq<Move>, f: nat)
    requires Legal(c, moves) && Distinct(c.names)
    requires f < |moves| && moves[f] == Fire(true) && Legal(c, moves[..f])
    ensures var atDeadline := NamesInFlight(c, After(c, moves[..f]).phases);
            var others := OtherNames(c, moves, f, After(c, moves).phases);
            TrackedNames(c, After(c, moves).phases) == atDeadline + others && atDeadline !! others
  {
    hide After;
    hide Legal;
    forall i: nat | i < |c.names|
      ensures Tracked(After(c, moves).phases[i])
         <==> InFlight(After(c, moves[..f]).phases[i]) || Other(moves, f, After(c, moves).phases, i)
      ensures !(InFlight(After(c, moves[..f]).phases[i]) && Other(moves, f, After(c, moves).phases, i))
    {
      TrackedSplits(c, moves, f, i);
    }
    hide *;
    NamesSplit(c, moves, f, After(c, moves[..f]).phases, After(c, moves).phases);
  }

  lemma UnionIsLeft(a: set<string>, b: set<string>)
    requires a !! b
    ensures a + b == a <==> b == {}
  {
    assert forall x | x in b :: x in a + b && x !in a;
  }

  /** That moment can be missed with any names: a scenario that gets its permit after the deadline starts
      without looking at the context, and is listed though nothing was in flight. */
  lemma LateStarterIsListed(c: Config) returns (moves: seq<Move>)
    requires |c.names| > 0
    ensures Legal(c, moves) && After(c, moves).inFlight == {}
    ensures After(c, moves).watcher == Sent(Some({c.names[0]}))
  {
    assert Legal(c, []) && After(c, []) == Init(c);
    moves := Then(c, [], Fire(true));
    assert After(c, moves).inFlight == {};
    moves := StartScenario(c, moves, 0);
    assert After(c, moves).active == {c.names[0]} && After(c, moves).context.Expired?;
    hide Legal;
    hide After;
    moves := Then(c, moves, Watch);
  }
}
