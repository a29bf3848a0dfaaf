/** Group commit as a protocol: writers append to the log and queue a waiter; any number of
    syncers take the queue, sync the log and close the waiters they took. */
module GroupCommits {
  import opened SortedEntries

  /** A waiter is named by the position of its record in the log. */
  type Waiter = nat

  const MAX_QUEUE: nat := 4096

  /** One run of the sync routine: `start` is the length of the log and `from` the first record
      of the current file when its Sync began. */
  datatype Syncer =
    | Idle
    | Took(list: seq<Waiter>)
    | Syncing(list: seq<Waiter>, start: nat, from: nat)
    | Releasing(list: seq<Waiter>, start: nat, from: nat)

  /** How a waiter's channel was closed. */
  datatype Closed = Synced(w: Waiter, start: nat, from: nat) | Dropped(w: Waiter, queued: nat)

  datatype State = State(
    appended: nat, fileStart: nat, durable: set<nat>,
    submitted: set<Waiter>, pending: seq<Waiter>, syncers: seq<Syncer>, closed: seq<Closed>)

  datatype Step =
    | Append(rotate: bool)
    | Submit(w: Waiter)
    | Take(t: nat)
    | StartSync(t: nat)
    | SyncOk(t: nat)
    | SyncFail(t: nat)
    | Release(t: nat)

  function Init(n: nat): State {
    State(0, 0, {}, {}, [], seq(n, i => Idle), [])
  }

  predicate Enabled(s: State, step: Step) {
    match step
    case Append(_) => true
    case Submit(w) => w < s.appended && w !in s.submitted
    case Take(t) => t < |s.syncers| && s.syncers[t].Idle? && s.pending != []
    case StartSync(t) => t < |s.syncers| && s.syncers[t].Took?
    case SyncOk(t) => t < |s.syncers| && s.syncers[t].Syncing?
    case SyncFail(t) => t < |s.syncers| && s.syncers[t].Syncing?
    case Release(t) => t < |s.syncers| && s.syncers[t].Releasing? && s.syncers[t].list != []
  }

  function Between(from: nat, to: nat): (r: set<nat>)
    ensures forall p: nat :: p in r <==> from <= p < to
  {
    if to <= from then {} else Between(from, to - 1) + {to - 1}
  }

  function DropAll(ws: seq<Waiter>, queued: nat): (r: seq<Closed>)
    ensures |r| == |ws| && forall i :: 0 <= i < |ws| ==> r[i] == Dropped(ws[i], queued)
  {
    seq(|ws|, i requires 0 <= i < |ws| => Dropped(ws[i], queued))
  }

  /** How many of a queue are too many. */
  function Excess(n: nat): nat {
    if n > MAX_QUEUE then n - MAX_QUEUE else 0
  }

  function Apply(s: State, step: Step): State
    requires Enabled(s, step)
  {
    match step
    // a rotation opens a new file before the record is written
    case Append(rotate) => s.(appended := s.appended + 1, fileStart := if rotate then s.appended else s.fileStart)
    case Submit(w) => s.(submitted := s.submitted + {w}, pending := s.pending + [w])
    case Take(t) => s.(syncers := s.syncers[t := Took(s.pending)], pending := [])
    case StartSync(t) => s.(syncers := s.syncers[t := Syncing(s.syncers[t].list, s.appended, s.fileStart)])
    case SyncOk(t) =>
      var y := s.syncers[t];
      s.(durable := s.durable + Between(y.from, y.start), syncers := s.syncers[t := Releasing(y.list, y.start, y.from)])
    case SyncFail(t) =>
      // the taken waiters go back to the front; the oldest beyond the limit are closed
      var combined := s.syncers[t].list + s.pending;
      var dropped := Excess(|combined|);
      s.(pending := combined[dropped..],
         closed := s.closed + DropAll(combined[..dropped], |combined|),
         syncers := s.syncers[t := Idle])
    case Release(t) =>
      var y := s.syncers[t];
      var rest := y.list[1..];
      s.(closed := s.closed + [Synced(y.list[0], y.start, y.from)],
         syncers := s.syncers[t := if rest == [] then Idle else Releasing(rest, y.start, y.from)])
  }

  // ----- where a waiter is -----

  function Count(ws: seq<Waiter>, w: Waiter): nat {
    multiset(ws)[w]
  }

  function HeldBy(y: Syncer): seq<Waiter> {
    if y.Idle? then [] else y.list
  }

  function Held(ys: seq<Syncer>, w: Waiter): nat {
    if ys == [] then 0 else Count(HeldBy(ys[0]), w) + Held(ys[1..], w)
  }

  function TimesClosed(cs: seq<Closed>, w: Waiter): nat {
    if cs == [] then 0 else TimesClosed(cs[..|cs| - 1], w) + if cs[|cs| - 1].w == w then 1 else 0
  }

  function Places(s: State, w: Waiter): nat {
    Count(s.pending, w) + Held(s.syncers, w) + TimesClosed(s.closed, w)
  }

  /** Every submitted waiter is in exactly one place, once: the queue, one syncer's list, or closed. */
  ghost predicate OnePlace(s: State) {
    forall w: Waiter {:trigger w in s.submitted} {:trigger Places(s, w)} ::
      Places(s, w) == if w in s.submitted then 1 else 0
  }

  ghost predicate Below(ws: seq<Waiter>, bound: nat) {
    forall i :: 0 <= i < |ws| ==> ws[i] < bound
  }

  ghost predicate GoodSyncer(y: Syncer, appended: nat, durable: set<nat>) {
    match y
    case Idle => true
    case Took(list) => Below(list, appended)
    case Syncing(list, start, from) => Below(list, start) && start <= appended
    case Releasing(list, start, from) => Below(list, start) && start <= appended && Between(from, start) <= durable
  }

  /** A waiter closed on the success path had appended before the Sync that released it began,
      and is durable if the file it was written to was still the current one; any other closed
      waiter was dropped from a queue over the limit. */
  ghost predicate GoodClosed(c: Closed, durable: set<nat>) {
    match c
    case Synced(w, start, from) => w < start && (w >= from ==> w in durable)
    case Dropped(w, queued) => queued > MAX_QUEUE
  }

  ghost predicate Inv(s: State) {
    && OnePlace(s)
    && (forall w :: w in s.submitted ==> w < s.appended)
    && Below(s.pending, s.appended)
    && (forall t :: 0 <= t < |s.syncers| ==> GoodSyncer(s.syncers[t], s.appended, s.durable))
    && (forall i :: 0 <= i < |s.closed| ==> GoodClosed(s.closed[i], s.durable))
  }

  // ----- counting -----

  lemma CountConcat(a: seq<Waiter>, b: seq<Waiter>, w: Waiter)
    ensures Count(a + b, w) == Count(a, w) + Count(b, w)
  {
  }

  lemma {:induction false} HeldChanged(ys: seq<Syncer>, t: nat, y: Syncer, w: Waiter)
    requires t < |ys|
    ensures Held(ys[t := y], w) + Count(HeldBy(ys[t]), w) == Held(ys, w) + Count(HeldBy(y), w)
  {
    hide Count, HeldBy;
    if t == 0 {
      assert ys[0 := y][1..] == ys[1..];
    } else {
      assert ys[t := y][1..] == ys[1..][t - 1 := y];
      HeldChanged(ys[1..], t - 1, y, w);
    }
  }

  lemma {:induction false} ClosedConcat(a: seq<Closed>, b: seq<Closed>, w: Waiter)
    ensures TimesClosed(a + b, w) == TimesClosed(a, w) + TimesClosed(b, w)
  {
    if b == [] {
      assert a + b == a;
    } else {
      assert (a + b)[..|a + b| - 1] == a + b[..|b| - 1];
      ClosedConcat(a, b[..|b| - 1], w);
    }
  }

  lemma {:induction false} DroppedOnce(ws: seq<Waiter>, queued: nat, w: Waiter)
    ensures TimesClosed(DropAll(ws, queued), w) == Count(ws, w)
  {
    if ws != [] {
      var n := |ws| - 1;
      assert DropAll(ws, queued)[..n] == DropAll(ws[..n], queued);
      DroppedOnce(ws[..n], queued, w);
      assert ws == ws[..n] + [ws[n]];
      CountConcat(ws[..n], [ws[n]], w);
    }
  }

  lemma NoneHeld(n: nat, w: Waiter)
    ensures Held(seq(n, i => Idle), w) == 0
  {
    if n > 0 {
      assert seq(n, i => Idle)[1..] == seq(n - 1, i => Idle);
      NoneHeld(n - 1, w);
    }
  }

  lemma InitInv(n: nat)
    ensures Inv(Init(n))
  {
    forall w: Waiter ensures Places(Init(n), w) == 0 { NoneHeld(n, w); }
  }

  /** A step moves waiters from place to place; only Submit adds one. */
  lemma PlacesAfter(s: State, step: Step, w: Waiter)
    requires Enabled(s, step)
    ensures Places(Apply(s, step), w) == Places(s, w) + if step.Submit? && step.w == w then 1 else 0
  {
    hide Held, TimesClosed, Count;
    match step {
      case Append(_) =>
      case Submit(v) =>
        CountConcat(s.pending, [v], w);
        CountOne(v, w);
      case Take(t) =>
        HeldChanged(s.syncers, t, Took(s.pending), w);
        CountNone(w);
      case StartSync(t) => HeldChanged(s.syncers, t, Syncing(s.syncers[t].list, s.appended, s.fileStart), w);
      case SyncOk(t) => HeldChanged(s.syncers, t, Releasing(s.syncers[t].list, s.syncers[t].start, s.syncers[t].from), w);
      case SyncFail(t) => FailMoves(s, t, w);
      case Release(t) => ReleaseMoves(s, t, w);
    }
  }

  lemma CountOne(v: Waiter, w: Waiter)
    ensures Count([v], w) == if v == w then 1 else 0
  {
  }

  lemma CountNone(w: Waiter)
    ensures Count([], w) == 0
  {
  }

  lemma FailMoves(s: State, t: nat, w: Waiter)
    requires Enabled(s, SyncFail(t))
    ensures Places(Apply(s, SyncFail(t)), w) == Places(s, w)
  {
    hide Held, TimesClosed, Count;
    var combined := s.syncers[t].list + s.pending;
    var d := Excess(|combined|);
    HeldChanged(s.syncers, t, Idle, w);
    CountNone(w);
    CountConcat(s.syncers[t].list, s.pending, w);
    assert combined == combined[..d] + combined[d..];
    CountConcat(combined[..d], combined[d..], w);
    ClosedConcat(s.closed, DropAll(combined[..d], |combined|), w);
    DroppedOnce(combined[..d], |combined|, w);
  }

  lemma ReleaseMoves(s: State, t: nat, w: Waiter)
    requires Enabled(s, Release(t))
    ensures Places(Apply(s, Release(t)), w) == Places(s, w)
  {
    hide Held, TimesClosed, Count;
    var y := s.syncers[t];
    var rest := y.list[1..];
    var next := if rest == [] then Idle else Releasing(rest, y.start, y.from);
    HeldChanged(s.syncers, t, next, w);
    assert y.list == [y.list[0]] + rest;
    CountConcat([y.list[0]], rest, w);
    CountOne(y.list[0], w);
    CountNone(w);
    ClosedConcat(s.closed, [Synced(y.list[0], y.start, y.from)], w);
    ClosedOne(Synced(y.list[0], y.start, y.from), w);
  }

  lemma ClosedOne(c: Closed, w: Waiter)
    ensures TimesClosed([c], w) == if c.w == w then 1 else 0
  {
    assert [c][..0] == [];
  }

  lemma OnePlaceKept(s: State, step: Step)
    requires OnePlace(s) && Enabled(s, step)
    ensures OnePlace(Apply(s, step))
  {
    hide Places;
    forall w: Waiter ensures Places(Apply(s, step), w) == if w in Apply(s, step).submitted then 1 else 0 {
      PlacesAfter(s, step, w);
    }
  }

  /** Only an append moves the end of the log, and only forwards. */
  lemma QueueKept(s: State, step: Step)
    requires Inv(s) && Enabled(s, step)
    ensures var next := Apply(s, step); Below(next.pending, next.appended) && forall w :: w in next.submitted ==> w < next.appended
  {
    hide OnePlace, Between;
  }

  lemma SyncersKept(s: State, step: Step)
    requires Inv(s) && Enabled(s, step)
    ensures var next := Apply(s, step); forall t :: 0 <= t < |next.syncers| ==> GoodSyncer(next.syncers[t], next.appended, next.durable)
  {
    hide OnePlace, Between;
    var next := Apply(s, step);
    forall t | 0 <= t < |next.syncers| ensures GoodSyncer(next.syncers[t], next.appended, next.durable) {
      assert GoodSyncer(s.syncers[t], s.appended, s.durable);
    }
  }

  lemma ClosedKept(s: State, step: Step)
    requires Inv(s) && Enabled(s, step)
    ensures var next := Apply(s, step); forall i :: 0 <= i < |next.closed| ==> GoodClosed(next.closed[i], next.durable)
  {
    hide OnePlace;
    var next := Apply(s, step);
    forall i | 0 <= i < |next.closed| ensures GoodClosed(next.closed[i], next.durable) {
      if i < |s.closed| {
        assert next.closed[i] == s.closed[i] && GoodClosed(s.closed[i], s.durable);
      } else if step.Release? {
        assert GoodSyncer(s.syncers[step.t], s.appended, s.durable);
      }
    }
  }

  /** Every step keeps the invariant. */
  lemma StepKeepsInv(s: State, step: Step)
    requires Inv(s) && Enabled(s, step)
    ensures Inv(Apply(s, step))
  {
    hide OnePlace, Places, Below, Between, Apply;
    OnePlaceKept(s, step);
    QueueKept(s, step);
    SyncersKept(s, step);
    ClosedKept(s, step);
  }

  /** The state after the steps, None when one of them was not possible. */
  function Run(n: nat, steps: seq<Step>): Option<State> {
    if steps == [] then Some(Init(n))
    else
      var s := Run(n, steps[..|steps| - 1]);
      if s.Some? && Enabled(s.value, steps[|steps| - 1]) then Some(Apply(s.value, steps[|steps| - 1])) else None
  }

  /** Over every interleaving of writers and syncers the invariant holds. */
  lemma {:induction false} RunKeepsInv(n: nat, steps: seq<Step>)
    ensures Run(n, steps).Some? ==> Inv(Run(n, steps).value)
  {
    hide Inv, Apply, Init, Enabled;
    if steps == [] {
      InitInv(n);
    } else if Run(n, steps).Some? {
      RunKeepsInv(n, steps[..|steps| - 1]);
      StepKeepsInv(Run(n, steps[..|steps| - 1]).value, steps[|steps| - 1]);
    }
  }

  /** No channel is closed twice, which would panic, and a closed waiter is neither queued nor held. */
  lemma ClosedOnce(n: nat, steps: seq<Step>, s: State, w: Waiter)
    requires Run(n, steps) == Some(s) && TimesClosed(s.closed, w) > 0
    ensures TimesClosed(s.closed, w) == 1 && Count(s.pending, w) == 0 && Held(s.syncers, w) == 0
  {
    hide Run, Count, Held, TimesClosed;
    RunKeepsInv(n, steps);
    assert Places(s, w) <= 1;
  }

  /** A submitted waiter is never lost: it is queued, held by a syncer, or closed. */
  lemma NeverLost(n: nat, steps: seq<Step>, s: State, w: Waiter)
    requires Run(n, steps) == Some(s) && w in s.submitted
    ensures Count(s.pending, w) + Held(s.syncers, w) + TimesClosed(s.closed, w) == 1
  {
    hide Run, Count, Held, TimesClosed;
    RunKeepsInv(n, steps);
    assert Places(s, w) == 1;
  }

  /** A waiter released by a Sync had been appended before that Sync began, and its record is
      durable unless the log was rotated between the append and the Sync. */
  lemma ReleasedIsDurable(n: nat, steps: seq<Step>, s: State, i: nat)
    requires Run(n, steps) == Some(s) && i < |s.closed| && s.closed[i].Synced?
    ensures s.closed[i].w < s.closed[i].start && (s.closed[i].from <= s.closed[i].w ==> s.closed[i].w in s.durable)
  {
    hide Run, OnePlace;
    RunKeepsInv(n, steps);
    assert GoodClosed(s.closed[i], s.durable);
  }

  /** Step `i` of the run is a successful Sync of a file that held the record when the Sync began. */
  ghost predicate Covers(n: nat, steps: seq<Step>, i: nat, w: Waiter) {
    && i < |steps| && steps[i].SyncOk?
    && var s := Run(n, steps[..i]);
       s.Some? && Enabled(s.value, steps[i]) && s.value.syncers[steps[i].t].from <= w < s.value.syncers[steps[i].t].start
  }

  /** A record is durable exactly when some Sync that succeeded covers it. */
  lemma {:induction false} DurableIff(n: nat, steps: seq<Step>, s: State, w: Waiter)
    requires Run(n, steps) == Some(s)
    ensures w in s.durable <==> exists i: nat :: Covers(n, steps, i, w)
  {
    if steps != [] {
      var m := |steps| - 1;
      var before := Run(n, steps[..m]).value;
      DurableIff(n, steps[..m], before, w);
      DurableStep(before, steps[m], w);
      hide Run, Enabled, Apply;
      if i: nat :| Covers(n, steps[..m], i, w) {
        assert steps[..m][..i] == steps[..i];
        assert Covers(n, steps, i, w);
      }
      if i: nat :| Covers(n, steps, i, w) {
        if i < m {
          assert steps[..m][..i] == steps[..i];
          assert Covers(n, steps[..m], i, w);
        }
      }
      if steps[m].SyncOk? && before.syncers[steps[m].t].from <= w < before.syncers[steps[m].t].start {
        assert Covers(n, steps, m, w);
      }
    }
  }

  lemma DurableStep(s: State, step: Step, w: Waiter)
    requires Enabled(s, step)
    ensures w in Apply(s, step).durable <==>
      w in s.durable || (step.SyncOk? && s.syncers[step.t].from <= w < s.syncers[step.t].start)
  {
  }

  /** A waiter released on the success path is durable exactly when some Sync that succeeded covers
      its record: its own does unless the log was rotated after the append. */
  lemma ReleasedDurableIff(n: nat, steps: seq<Step>, s: State, i: nat)
    requires Run(n, steps) == Some(s) && i < |s.closed| && s.closed[i].Synced?
    ensures s.closed[i].w in s.durable <==>
      s.closed[i].from <= s.closed[i].w || exists j: nat :: Covers(n, steps, j, s.closed[i].w)
  {
    hide Run, Covers;
    ReleasedIsDurable(n, steps, s, i);
    DurableIff(n, steps, s, s.closed[i].w);
  }

  /** Only a queue longer than 4096 closes waiters without a Sync. */
  lemma UnsyncedOnlyWhenFull(n: nat, steps: seq<Step>, s: State, i: nat)
    requires Run(n, steps) == Some(s) && i < |s.closed| && s.closed[i].Dropped?
    ensures s.closed[i].queued > MAX_QUEUE
  {
    hide Run, OnePlace;
    RunKeepsInv(n, steps);
    assert GoodClosed(s.closed[i], s.durable);
  }

  lemma Extend(n: nat, steps: seq<Step>, step: Step, s: State) returns (longer: seq<Step>)
    requires Run(n, steps) == Some(s) && Enabled(s, step)
    ensures longer == steps + [step] && Run(n, longer) == Some(Apply(s, step))
  {
    hide Apply, Enabled;
    longer := steps + [step];
    assert longer[..|steps|] == steps;
  }

  /** A rotation closes the old file without syncing it: a writer appends, another append
      rotates, and the Sync of the new file releases the first writer undurable. */
  lemma RotationReleasesUndurable() returns (steps: seq<Step>, s: State)
    ensures Run(1, steps) == Some(s) && s.closed == [Synced(0, 2, 1)] && 0 !in s.durable
  {
    hide Run;
    steps, s := [], Init(1);
    StartRun(1);
    steps := Extend(1, steps, Append(false), s);
    s := Apply(s, Append(false));
    steps := Extend(1, steps, Submit(0), s);
    s := Apply(s, Submit(0));
    steps := Extend(1, steps, Append(true), s);
    s := Apply(s, Append(true));
    assert s == State(2, 1, {}, {0}, [0], [Idle], []);
    steps := Extend(1, steps, Take(0), s);
    s := Apply(s, Take(0));
    steps := Extend(1, steps, StartSync(0), s);
    s := Apply(s, StartSync(0));
    assert s == State(2, 1, {}, {0}, [], [Syncing([0], 2, 1)], []);
    steps := Extend(1, steps, SyncOk(0), s);
    s := Apply(s, SyncOk(0));
    steps := Extend(1, steps, Release(0), s);
    s := Apply(s, Release(0));
  }

  lemma StartRun(n: nat)
    ensures Run(n, []) == Some(Init(n))
  {
  }

  // ----- a round of one syncer -----

  /** The steps from a state on, None when one of them is not possible. */
  function RunFrom(s: State, steps: seq<Step>): Option<State>
    decreases |steps|
  {
    if steps == [] then Some(s)
    else if Enabled(s, steps[0]) then RunFrom(Apply(s, steps[0]), steps[1..])
    else None
  }

  function Releases(t: nat, n: nat): (r: seq<Step>)
    ensures |r| == n && forall i :: 0 <= i < n ==> r[i] == Release(t)
  {
    seq(n, i => Release(t))
  }

  function SyncAll(ws: seq<Waiter>, start: nat, from: nat): (r: seq<Closed>)
    ensures |r| == |ws| && forall i :: 0 <= i < |ws| ==> r[i] == Synced(ws[i], start, from)
  {
    seq(|ws|, i requires 0 <= i < |ws| => Synced(ws[i], start, from))
  }

  lemma SyncFirst(ws: seq<Waiter>, start: nat, from: nat)
    requires ws != []
    ensures SyncAll(ws, start, from) == [Synced(ws[0], start, from)] + SyncAll(ws[1..], start, from)
    ensures |ws| == 1 ==> SyncAll(ws[1..], start, from) == []
  {
  }

  lemma ReleaseFirst(s: State, t: nat, n: nat)
    requires n > 0 && Enabled(s, Release(t))
    ensures RunFrom(s, Releases(t, n)) == RunFrom(Apply(s, Release(t)), Releases(t, n - 1))
    ensures n == 1 ==> RunFrom(s, Releases(t, n)) == Some(Apply(s, Release(t)))
  {
    hide Apply, Enabled;
    assert Releases(t, n)[1..] == Releases(t, n - 1);
    if n == 1 {
      assert Releases(t, 0) == [];
      assert RunFrom(Apply(s, Release(t)), []) == Some(Apply(s, Release(t)));
    }
  }

  lemma {:induction false} ReleasesAll(s: State, t: nat)
    requires t < |s.syncers| && s.syncers[t].Releasing? && s.syncers[t].list != []
    ensures var y := s.syncers[t];
      RunFrom(s, Releases(t, |y.list|)) == Some(s.(syncers := s.syncers[t := Idle], closed := s.closed + SyncAll(y.list, y.start, y.from)))
    decreases |s.syncers[t].list|
  {
    hide RunFrom, SyncAll, Releases;
    var y := s.syncers[t];
    var next := Apply(s, Release(t));
    SyncFirst(y.list, y.start, y.from);
    ReleaseFirst(s, t, |y.list|);
    assert s.closed + SyncAll(y.list, y.start, y.from) == next.closed + SyncAll(y.list[1..], y.start, y.from);
    if |y.list| == 1 {
      assert y.list[1..] == [];
      assert next.closed + SyncAll(y.list[1..], y.start, y.from) == next.closed;
    } else {
      ReleasesAll(next, t);
      assert next.syncers[t := Idle] == s.syncers[t := Idle];
    }
  }

  lemma AfterThree(s: State, a: Step, b: Step, c: Step, rest: seq<Step>)
    requires Enabled(s, a) && Enabled(Apply(s, a), b) && Enabled(Apply(Apply(s, a), b), c)
    ensures RunFrom(s, [a, b, c] + rest) == RunFrom(Apply(Apply(Apply(s, a), b), c), rest)
  {
    hide Apply, Enabled;
    var all := [a, b, c] + rest;
    assert all[1..] == [b, c] + rest;
    assert ([b, c] + rest)[1..] == [c] + rest;
    assert ([c] + rest)[1..] == rest;
    assert RunFrom(s, all) == RunFrom(Apply(s, a), [b, c] + rest);
    assert RunFrom(Apply(s, a), [b, c] + rest) == RunFrom(Apply(Apply(s, a), b), [c] + rest);
  }

  /** A round that no other step interrupts takes the whole queue: it releases every queued waiter, in the order they
      came, makes the records of the current file durable, and leaves the queue empty. */
  lemma RoundReleases(s: State, t: nat)
    requires t < |s.syncers| && s.syncers[t].Idle? && s.pending != []
    ensures RunFrom(s, [Take(t), StartSync(t), SyncOk(t)] + Releases(t, |s.pending|)) ==
      Some(State(s.appended, s.fileStart, s.durable + Between(s.fileStart, s.appended), s.submitted, [], s.syncers,
        s.closed + SyncAll(s.pending, s.appended, s.fileStart)))
  {
    hide Releases, SyncAll, Between;
    AfterThree(s, Take(t), StartSync(t), SyncOk(t), Releases(t, |s.pending|));
    var released := Apply(Apply(Apply(s, Take(t)), StartSync(t)), SyncOk(t));
    ReleasesAll(released, t);
    assert released.syncers[t := Idle] == s.syncers;
  }

  lemma NoDrops(n: nat)
    ensures DropAll([], n) == []
  {
  }

  /** A round whose Sync fails puts the queue back as it was, except that the oldest waiters beyond 4096 are dropped. */
  lemma RoundFails(s: State, t: nat)
    requires t < |s.syncers| && s.syncers[t].Idle? && s.pending != []
    ensures var n := |s.pending|;
      RunFrom(s, [Take(t), StartSync(t), SyncFail(t)]) ==
        Some(if n <= 4096 then s else s.(pending := s.pending[n - 4096..], closed := s.closed + DropAll(s.pending[..n - 4096], n)))
  {
    hide DropAll;
    AfterThree(s, Take(t), StartSync(t), SyncFail(t), []);
    assert [Take(t), StartSync(t), SyncFail(t)] + [] == [Take(t), StartSync(t), SyncFail(t)];
    var failed := Apply(Apply(Apply(s, Take(t)), StartSync(t)), SyncFail(t));
    assert failed.syncers == s.syncers;
    assert s.pending + [] == s.pending;
    var n := |s.pending|;
    assert RunFrom(failed, []) == Some(failed);
    if n <= 4096 {
      assert s.pending[..0] == [];
      assert failed.closed == s.closed + DropAll([], n);
      NoDrops(n);
      assert failed.closed == s.closed;
      assert s.pending[0..] == s.pending;
      assert failed.pending == s.pending;
    }
  }
}
