/** Which stretches of unreliability a reconstructor ever closes. */
module UnreliableIntervals {
  import opened Wrappers
  import opened OrderBook
  import opened BookReconstruction

  predicate IsOpen(r: Replica, k: nat) {
    k < |r.intervals| && r.intervals[k].endedAt.None?
  }

  /** The interval of the gap that the reconstructor is still waiting to bridge: the newest one. */
  predicate Awaited(r: Replica, k: nat) {
    r.phase == ResyncRequired && k == |r.intervals| - 1
  }

  /** Awaited, with a buffer that still takes events. */
  predicate CanStillEnd(r: Replica, k: nat) {
    Awaited(r, k) && !r.overflowed
  }

  // ---------------------------------------------------------------- one event

  /**
   * An open interval ends exactly when it is awaited and a snapshot meets a buffer that bridges it; it then ends
   * at the last id that the buffer reaches.
   */
  lemma IntervalEndsIff(r: Replica, e: Event, k: nat)
    requires r.WellFormed() && IsOpen(r, k)
    ensures
      var after := Handle(r, e);
      && k < |after.intervals|
      && (!IsOpen(after, k) <==>
            && Awaited(r, k) && e.Snapshotted? && e.s.product == r.product
            && WouldBridge(r.product.market, r.buffer, e.s.lastUpdateId))
      && (!IsOpen(after, k) ==>
            var cs := Candidates(r.buffer, Target(r.product.market, e.s.lastUpdateId));
            cs != [] && after.Reliable() && after.intervals[k].endedAt == Some(Reached(cs, |cs|)))
  {
    match e
    case Offered(u) =>
    case Snapshotted(s) =>
      SynchronizeDecides(r, s);
      IntervalsGrow(r, s, k);
    case Restarted =>
  }

  lemma IntervalsGrow(r: Replica, s: Snapshot, k: nat)
    requires r.WellFormed() && IsOpen(r, k)
    ensures
      var (after, bridge) := Synchronize(r, s);
      && k < |after.intervals|
      && (!IsOpen(after, k) <==> Awaited(r, k) && bridge == Bridged)
      && (!IsOpen(after, k) ==>
            after.Reliable() && after.book.Some? && after.intervals[k].endedAt == Some(after.book.value.updateId))
      && (IsOpen(after, k) && Awaited(after, k) ==> Awaited(r, k))
      && (r.overflowed ==> after == r)
  {
    var cs := Candidates(r.buffer, Target(r.product.market, s.lastUpdateId));
    NoBridge(r, s);
    SynchronizeCases(r, s);
    if cs != [] {
      ApplyFromAppends(OnSnapshot(r, s, cs[0]), cs, 1);
    }
  }

  /** Working off candidates adds at most one interval, and only at a gap. */
  lemma {:induction false} ApplyFromAppends(r: Replica, cs: seq<Update>, i: nat)
    requires r.Reliable() && r.book.Some? && 1 <= i <= |cs|
    ensures
      var after := ApplyFrom(r, cs, i);
      && (after.Reliable() ==> after.intervals == r.intervals)
      && (!after.Reliable() ==>
            && after.phase == ResyncRequired && |after.intervals| == |r.intervals| + 1
            && after.intervals[..|r.intervals|] == r.intervals)
    decreases |cs| - i
  {
    if i < |cs| {
      var next := ApplyLive(r, cs[i]);
      if next.Reliable() {
        ApplyFromAppends(next, cs, i + 1);
      }
    }
  }

  // ---------------------------------------------------------------- any further run

  /** An interval that cannot end any more neither ends by the next event nor comes to be able to. */
  lemma LostStaysLost(r: Replica, e: Event, k: nat)
    requires r.WellFormed() && IsOpen(r, k) && !CanStillEnd(r, k)
    ensures IsOpen(Handle(r, e), k) && !CanStillEnd(Handle(r, e), k)
  {
    match e
    case Offered(u) =>
    case Snapshotted(s) => IntervalsGrow(r, s, k);
    case Restarted =>
  }

  /**
   * An interval that is not awaited, because the bootstrap was restarted or another gap came first, stays open for
   * ever, and so does an awaited one once the buffer has overflowed.
   */
  lemma {:induction false} LostIntervalsStayOpen(r: Replica, events: seq<Event>, k: nat)
    requires r.WellFormed() && IsOpen(r, k) && !CanStillEnd(r, k)
    ensures IsOpen(Run(r, events), k) && !CanStillEnd(Run(r, events), k)
  {
    hide IsOpen, CanStillEnd, Handle;
    if events != [] {
      var n := |events| - 1;
      LostIntervalsStayOpen(r, events[..n], k);
      LostStaysLost(Run(r, events[..n]), events[n], k);
    }
  }

  predicate ValidEvent(e: Event) {
    match e
    case Offered(u) => u.Valid()
    case Snapshotted(s) => s.Valid()
    case Restarted => true
  }

  predicate AllValid(events: seq<Event>) {
    forall i :: 0 <= i < |events| ==> ValidEvent(events[i])
  }

  /** An event that covers update id 1 and nothing else. */
  function FirstEvent(product: Product): Update {
    Update(product, 1, 1, if product.market == Spot then None else Some(0), [], [])
  }

  function SnapshotAt(product: Product, id: int): Snapshot {
    Snapshot(product, id, [], [])
  }

  /** An id past everything in the buffer. */
  function Beyond(buffer: seq<Update>): (id: nat)
    ensures forall i :: 0 <= i < |buffer| ==> buffer[i].final < id
  {
    if buffer == [] then 0
    else
      var n := |buffer| - 1;
      var id := Beyond(buffer[..n]);
      if buffer[n].final < id then id else buffer[n].final + 1
  }

  /** A snapshot ahead of everything that waits empties the buffer, and the next event bridges the one after that. */
  function Recovery(r: Replica): seq<Event> {
    [Snapshotted(SnapshotAt(r.product, Beyond(r.buffer))),
     Offered(FirstEvent(r.product)),
     Snapshotted(SnapshotAt(r.product, if r.product.market == Spot then 0 else 1))]
  }

  lemma {:induction false} NoCandidates(buffer: seq<Update>, target: int)
    requires forall i :: 0 <= i < |buffer| ==> buffer[i].final < target
    ensures Candidates(buffer, target) == []
  {
    if buffer != [] {
      NoCandidates(buffer[..|buffer| - 1], target);
    }
  }

  lemma AheadEmpties(r: Replica)
    requires r.WellFormed()
    ensures Handle(r, Recovery(r)[0]) == r.(buffer := [])
  {
    NoCandidates(r.buffer, Target(r.product.market, Beyond(r.buffer)));
    NoBridge(r, SnapshotAt(r.product, Beyond(r.buffer)));
  }

  lemma OneEventBridges(r: Replica)
    requires r.buffer == [FirstEvent(r.product)]
    ensures WouldBridge(r.product.market, r.buffer, if r.product.market == Spot then 0 else 1)
  {
    var id := if r.product.market == Spot then 0 else 1;
    var target := Target(r.product.market, id);
    assert r.buffer[..0] == [] && Candidates(r.buffer, target) == r.buffer;
  }

  /** An awaited interval whose buffer still takes events ends within three valid events. */
  lemma AwaitedIntervalEnds(r: Replica, k: nat)
    requires r.WellFormed() && IsOpen(r, k) && CanStillEnd(r, k)
    ensures !IsOpen(Run(r, Recovery(r)), k)
    ensures r.product.symbol != "" ==> AllValid(Recovery(r))
  {
    var events := Recovery(r);
    var ahead := r.(buffer := []);
    var one := ahead.(buffer := [FirstEvent(r.product)]);
    RecoveryIsValid(r);
    AheadEmpties(r);
    FirstIsBuffered(ahead);
    assert events[1] == Offered(FirstEvent(r.product)) && IsOpen(one, k) && Awaited(one, k);
    OneEventBridges(one);
    hide Handle, IsOpen, Awaited, WouldBridge, Candidates;
    RunOfThree(r, events, ahead, one);
    IntervalEndsIff(one, events[2], k);
  }

  lemma RecoveryIsValid(r: Replica)
    ensures r.product.symbol != "" ==> AllValid(Recovery(r))
  {
  }

  lemma FirstIsBuffered(r: Replica)
    requires r.WellFormed() && r.phase == ResyncRequired && !r.overflowed && r.buffer == []
    ensures
      var one := r.(buffer := [FirstEvent(r.product)]);
      one.WellFormed() && Handle(r, Offered(FirstEvent(r.product))) == one
  {
    assert r.buffer + [FirstEvent(r.product)] == [FirstEvent(r.product)];
  }

  lemma RunOfThree(r: Replica, events: seq<Event>, a: Replica, b: Replica)
    requires r.WellFormed() && a.WellFormed() && b.WellFormed() && |events| == 3
    requires Handle(r, events[0]) == a && Handle(a, events[1]) == b
    ensures Run(r, events) == Handle(b, events[2])
  {
    hide Handle;
    RunGrows(r, [], events[0]);
    RunGrows(r, [events[0]], events[1]);
    RunGrows(r, [events[0], events[1]], events[2]);
    assert [] + [events[0]] == [events[0]] && [events[0]] + [events[1]] == [events[0], events[1]];
    assert events == [events[0], events[1]] + [events[2]];
  }

  /**
   * Exactly which open intervals can still be closed: the one that is awaited, while the buffer has not overflowed.
   * Every other one stays open in every run.
   */
  lemma IntervalCanEndIff(r: Replica, k: nat)
    requires r.WellFormed() && IsOpen(r, k)
    ensures (exists events :: !IsOpen(Run(r, events), k)) <==> CanStillEnd(r, k)
  {
    if CanStillEnd(r, k) {
      AwaitedIntervalEnds(r, k);
    } else {
      forall events ensures IsOpen(Run(r, events), k) {
        LostIntervalsStayOpen(r, events, k);
      }
    }
  }

  // ---------------------------------------------------------------- how an interval is lost

  /** A restart abandons the interval of the gap that led to it. */
  lemma RestartAbandons(r: Replica)
    requires r.WellFormed() && r.phase == ResyncRequired
    ensures IsOpen(Restart(r), |r.intervals| - 1) && !CanStillEnd(Restart(r), |r.intervals| - 1)
  {
  }

  /** A snapshot that bridges only to end in another gap abandons the interval awaited so far, for a new one. */
  lemma GapAbandons(r: Replica, s: Snapshot)
    requires r.WellFormed() && r.phase == ResyncRequired && Synchronize(r, s).1 == SequenceGap
    ensures
      var after := Synchronize(r, s).0;
      && IsOpen(after, |r.intervals| - 1) && !CanStillEnd(after, |r.intervals| - 1)
      && IsOpen(after, |r.intervals|) && CanStillEnd(after, |r.intervals|)
  {
    var cs := Candidates(r.buffer, Target(r.product.market, s.lastUpdateId));
    NoBridge(r, s);
    SynchronizeCases(r, s);
    SynchronizeKeepsForm(r, s);
    if cs != [] {
      ApplyFromAppends(OnSnapshot(r, s, cs[0]), cs, 1);
      NotOverflowed(r, s);
      var after := Synchronize(r, s).0;
      assert after.intervals[|r.intervals| - 1] == after.intervals[..|r.intervals|][|r.intervals| - 1];
    }
  }

  lemma NotOverflowed(r: Replica, s: Snapshot)
    requires r.WellFormed() && Synchronize(r, s).1 == SequenceGap
    ensures !Synchronize(r, s).0.overflowed
  {
    var cs := Candidates(r.buffer, Target(r.product.market, s.lastUpdateId));
    NoBridge(r, s);
    SynchronizeCases(r, s);
    SynchronizeKeepsForm(r, s);
    GapLeavesEvents(OnSnapshot(r, s, cs[0]), cs, 1);
  }

  lemma {:induction false} GapLeavesEvents(r: Replica, cs: seq<Update>, i: nat)
    requires r.Reliable() && r.book.Some? && i <= |cs|
    ensures !ApplyFrom(r, cs, i).Reliable() ==> ApplyFrom(r, cs, i).buffer != []
    decreases |cs| - i
  {
    if i < |cs| {
      var next := ApplyLive(r, cs[i]);
      if next.Reliable() {
        GapLeavesEvents(next, cs, i + 1);
      }
    }
  }

  /** An overflow of the buffer loses the interval that is awaited, although nothing has overtaken it. */
  lemma OverflowLoses(r: Replica, u: Update)
    requires r.WellFormed() && r.phase == ResyncRequired && !r.overflowed && |r.buffer| == r.capacity
    ensures
      var after := OfferTo(r, u);
      && after.overflowed && IsOpen(after, |r.intervals| - 1)
      && Awaited(after, |r.intervals| - 1) && !CanStillEnd(after, |r.intervals| - 1)
  {
  }

  // ---------------------------------------------------------------- each way, from the start

  const BTC := Product(Spot, "BTCUSDT")

  /** A Spot event that covers one update id. */
  function At(id: int): Update {
    Update(BTC, id, id, None, [], [])
  }

  /** The first event, the snapshot before it, and then an event that leaves a gap. */
  function ToGap(): seq<Event> {
    [Offered(At(1)), Snapshotted(SnapshotAt(BTC, 0)), Offered(At(5))]
  }

  function Gapped(): Replica {
    Replica(BTC, 2, ResyncRequired, [At(5)], Some(State(1, map[], map[])), false, [Interval(1, 5, 5, None)])
  }

  lemma GapIsReached()
    ensures Run(Start(BTC, 2), ToGap()) == Gapped() && Gapped().WellFormed()
  {
    var start := Start(BTC, 2);
    var one := start.(buffer := [At(1)]);
    var live := start.(phase := Synchronized, book := Some(State(1, map[], map[])));
    FirstIsOffered(one);
    FirstSnapshotBridges(one, live);
    GapOpens(live);
    hide Handle, ToGap;
    RunOfThree(start, ToGap(), one, live);
  }

  lemma FirstIsOffered(one: Replica)
    requires one == Start(BTC, 2).(buffer := [At(1)])
    ensures |ToGap()| == 3 && Handle(Start(BTC, 2), ToGap()[0]) == one
  {
    assert Start(BTC, 2).buffer + [At(1)] == one.buffer;
  }

  lemma GapOpens(live: Replica)
    requires live == Start(BTC, 2).(phase := Synchronized, book := Some(State(1, map[], map[])))
    ensures Handle(live, ToGap()[2]) == Gapped()
  {
  }

  lemma FirstSnapshotBridges(one: Replica, live: Replica)
    requires one == Start(BTC, 2).(buffer := [At(1)])
    requires live == Start(BTC, 2).(phase := Synchronized, book := Some(State(1, map[], map[])))
    ensures Handle(one, ToGap()[1]) == live
  {
    assert one.buffer[..0] == [];
    assert Candidates(one.buffer, 1) == [At(1)];
  }

  lemma {:induction false} RunAppends(r: Replica, a: seq<Event>, b: seq<Event>)
    requires r.WellFormed()
    ensures Run(r, a + b) == Run(Run(r, a), b)
  {
    if b == [] {
      assert a + b == a;
    } else {
      var n := |b| - 1;
      RunAppends(r, a, b[..n]);
      assert a + b == (a + b[..n]) + [b[n]];
      RunGrows(r, a + b[..n], b[n]);
    }
  }

  lemma ToGapIsValid(more: seq<Event>)
    requires AllValid(more)
    ensures AllValid(ToGap() + more)
  {
    var events := ToGap() + more;
    assert ValidEvent(ToGap()[0]) && ValidEvent(ToGap()[1]) && ValidEvent(ToGap()[2]);
    forall i | 0 <= i < |events| ensures ValidEvent(events[i]) {
      if i >= 3 {
        assert events[i] == more[i - 3];
      }
    }
  }

  /** Valid events: the first interval is open after the gap and these, and stays open whatever comes later. */
  ghost predicate LosesTheInterval(more: seq<Event>) {
    var events := ToGap() + more;
    var r := Run(Start(BTC, 2), events);
    AllValid(events) && IsOpen(r, 0) && forall later :: IsOpen(Run(r, later), 0)
  }

  lemma LostByThen(more: seq<Event>)
    requires AllValid(more)
    requires IsOpen(Run(Gapped(), more), 0) && !CanStillEnd(Run(Gapped(), more), 0)
    requires Gapped().WellFormed()
    ensures LosesTheInterval(more)
  {
    ToGapIsValid(more);
    hide IsOpen, CanStillEnd, AllValid, Run, ToGap;
    GapIsReached();
    RunAppends(Start(BTC, 2), ToGap(), more);
    var r := Run(Gapped(), more);
    forall later ensures IsOpen(Run(r, later), 0) {
      LostIntervalsStayOpen(r, later, 0);
    }
  }

  lemma LostByRestart()
    ensures LosesTheInterval([Restarted])
  {
    GapIsReached();
    RunGrows(Gapped(), [], Restarted);
    assert [] + [Restarted] == [Restarted];
    hide LosesTheInterval;
    LostByThen([Restarted]);
  }

  function ToAnotherGap(): seq<Event> {
    [Offered(At(9)), Snapshotted(SnapshotAt(BTC, 4))]
  }

  lemma AnotherGapIsReached()
    ensures
      var r := Run(Gapped(), ToAnotherGap());
      Gapped().WellFormed() && IsOpen(r, 0) && !CanStillEnd(r, 0)
  {
    var two := Gapped().(buffer := [At(5), At(9)]);
    GapIsReached();
    assert Handle(Gapped(), ToAnotherGap()[0]) == two;
    TwoLeaveAGap(two);
    GapAbandons(two, SnapshotAt(BTC, 4));
    hide Synchronize, CanStillEnd, IsOpen;
    RunOfTwo(Gapped(), ToAnotherGap(), two);
  }

  lemma LostByAnotherGap()
    ensures LosesTheInterval(ToAnotherGap())
  {
    AnotherGapIsReached();
    assert AllValid(ToAnotherGap());
    hide *;
    LostByThen(ToAnotherGap());
  }

  lemma TwoLeaveAGap(two: Replica)
    requires two == Gapped().(buffer := [At(5), At(9)])
    ensures Synchronize(two, SnapshotAt(BTC, 4)).1 == SequenceGap
  {
    var us := two.buffer;
    assert us[..1] == [At(5)] && us[..1][..0] == [];
    assert Candidates(us[..1], 5) == [At(5)];
    assert Candidates(us, 5) == us;
    assert !Joins(Spot, us, 1);
    SynchronizeDecides(two, SnapshotAt(BTC, 4));
  }

  lemma RunOfTwo(r: Replica, events: seq<Event>, a: Replica)
    requires r.WellFormed() && a.WellFormed() && |events| == 2 && Handle(r, events[0]) == a
    ensures Run(r, events) == Handle(a, events[1])
  {
    hide Handle;
    RunGrows(r, [], events[0]);
    RunGrows(r, [events[0]], events[1]);
    assert [] + [events[0]] == [events[0]] && events == [events[0]] + [events[1]];
  }

  lemma LostByOverflow()
    ensures LosesTheInterval([Offered(At(6)), Offered(At(7))])
  {
    var more := [Offered(At(6)), Offered(At(7))];
    var two := Gapped().(buffer := [At(5), At(6)]);
    GapIsReached();
    RunOfTwo(Gapped(), more, two);
    OverflowLoses(two, At(7));
    assert AllValid(more);
    hide LosesTheInterval, CanStillEnd, IsOpen, AllValid;
    LostByThen(more);
  }
}
