/** Capture health from update ids alone: the reconstructor's bridge without any book. */
module DepthContinuity {
  import opened Wrappers
  import opened OrderBook
  import opened BookReconstruction

  datatype Sequence = Sequence(first: int, last: int, previous: Option<int>)

  datatype Tracker = Tracker(
    market: Market, capacity: nat, reliable: Option<int>, buffer: seq<Sequence>, overflowed: bool)

  // ---------------------------------------------------------------- the rules on ids

  predicate Follows(market: Market, id: int, u: Sequence) {
    if market == Spot then u.first <= id + 1 else u.previous == Some(id)
  }

  function ApplyId(t: Tracker, u: Sequence): Tracker
    requires t.reliable.Some?
  {
    if u.last <= t.reliable.value then t
    else if Follows(t.market, t.reliable.value, u) then t.(reliable := Some(u.last))
    else t.(reliable := None, buffer := [u])
  }

  function OfferId(t: Tracker, u: Sequence): Tracker {
    if t.reliable.Some? then ApplyId(t, u)
    else if t.overflowed then t
    else if |t.buffer| >= t.capacity then t.(buffer := [], overflowed := true)
    else t.(buffer := t.buffer + [u])
  }

  function Reaching(buffer: seq<Sequence>, target: int): (cs: seq<Sequence>)
    ensures |cs| <= |buffer|
  {
    if buffer == [] then []
    else
      var n := |buffer| - 1;
      Reaching(buffer[..n], target) + if buffer[n].last >= target then [buffer[n]] else []
  }

  function ApplyIds(t: Tracker, cs: seq<Sequence>, i: nat): Tracker
    requires t.reliable.Some? && i <= |cs|
    decreases |cs| - i
  {
    if i == |cs| then t
    else
      var next := ApplyId(t, cs[i]);
      if next.reliable.Some? then ApplyIds(next, cs, i + 1) else next.(buffer := next.buffer + cs[i + 1..])
  }

  function SynchronizeId(t: Tracker, lastUpdateId: int): (Tracker, Bridge) {
    var target := Target(t.market, lastUpdateId);
    var cs := Reaching(t.buffer, target);
    if t.buffer == [] then (t, NeedMoreEvents)
    else if cs == [] then (t.(buffer := []), NeedMoreEvents)
    else if !(cs[0].first <= target <= cs[0].last) then (t, SnapshotTooOld)
    else
      var next := ApplyIds(OnId(t, cs[0]), cs, 1);
      (next, if next.reliable.Some? then Bridged else SequenceGap)
  }

  function OnId(t: Tracker, first: Sequence): Tracker {
    t.(buffer := [], overflowed := false, reliable := Some(first.last))
  }

  /** A malformed event: nothing that waits can be trusted any more, but an overflow stands. */
  function InvalidateId(t: Tracker): Tracker {
    t.(reliable := None, buffer := [])
  }

  // ---------------------------------------------------------------- the object

  class Continuity {
    const market: Market
    const capacity: nat
    var reliable: Option<int>
    var buffer: seq<Sequence>
    var overflowed: bool

    function Contents(): Tracker
      reads this
    {
      Tracker(market, capacity, reliable, buffer, overflowed)
    }

    constructor (market: Market, capacity: nat)
      requires capacity >= 2
      ensures Contents() == Tracker(market, capacity, None, [], false)
    {
      this.market, this.capacity := market, capacity;
      reliable, buffer, overflowed := None, [], false;
    }

    method Offer(u: Sequence)
      modifies this
      ensures Contents() == OfferId(old(Contents()), u)
    {
      if reliable.Some? {
        var _ := Apply(u);
        return;
      }
      if overflowed {
        return;
      }
      if |buffer| >= capacity {
        buffer, overflowed := [], true;
        return;
      }
      buffer := buffer + [u];
    }

    method Apply(u: Sequence) returns (taken: bool)
      requires reliable.Some?
      modifies `reliable, `buffer
      ensures Contents() == ApplyId(old(Contents()), u)
      ensures taken <==> reliable.Some?
    {
      var current := reliable.value;
      if u.last <= current {
        return true;
      }
      if (market == Spot && u.first > current + 1) || (market != Spot && u.previous != Some(current)) {
        reliable, buffer := None, [u];
        return false;
      }
      reliable := Some(u.last);
      taken := true;
    }

    method Invalidate()
      modifies this
      ensures Contents() == InvalidateId(old(Contents()))
    {
      reliable, buffer := None, [];
    }

    method SynchronizeWith(lastUpdateId: int) returns (bridge: Bridge)
      modifies this
      ensures (Contents(), bridge) == SynchronizeId(old(Contents()), lastUpdateId)
    {
      if buffer == [] {
        return NeedMoreEvents;
      }
      var target := lastUpdateId + if market == Spot then 1 else 0;
      var candidates := Reaching(buffer, target);
      if candidates == [] {
        buffer := [];
        return NeedMoreEvents;
      }
      if !(candidates[0].first <= target <= candidates[0].last) {
        return SnapshotTooOld;
      }
      buffer, overflowed, reliable := [], false, Some(candidates[0].last);
      ghost var start := Contents();
      var i := 1;
      while i < |candidates|
        invariant 1 <= i <= |candidates| && reliable.Some?
        invariant ApplyIds(Contents(), candidates, i) == ApplyIds(start, candidates, 1)
      {
        var taken := Apply(candidates[i]);
        if !taken {
          buffer := buffer + candidates[i + 1..];
          return SequenceGap;
        }
        i := i + 1;
      }
      bridge := Bridged;
    }
  }

  // ---------------------------------------------------------------- it shadows the reconstructor

  function IdsOf(u: Update): Sequence {
    Sequence(u.first, u.final, u.previous)
  }

  function AllIds(us: seq<Update>): (ids: seq<Sequence>)
    ensures |ids| == |us|
  {
    seq(|us|, i requires 0 <= i < |us| => IdsOf(us[i]))
  }

  /** What is left of a reconstructor when book, prices and interval history are forgotten. */
  function Shadow(r: Replica): Tracker {
    Tracker(r.product.market, r.capacity,
            if r.Reliable() && r.book.Some? then Some(r.book.value.updateId) else None,
            AllIds(r.buffer), r.overflowed)
  }

  lemma IdsSplit(a: seq<Update>, b: seq<Update>)
    ensures AllIds(a + b) == AllIds(a) + AllIds(b)
  {
  }

  lemma LiveShadows(r: Replica, u: Update)
    requires r.Reliable() && r.book.Some?
    ensures Shadow(ApplyLive(r, u)) == ApplyId(Shadow(r), IdsOf(u))
  {
    assert AllIds([u]) == [IdsOf(u)];
  }

  lemma OfferShadows(r: Replica, u: Update)
    requires r.WellFormed()
    ensures Shadow(OfferTo(r, u)) == OfferId(Shadow(r), IdsOf(u))
  {
    if r.Reliable() {
      LiveShadows(r, u);
    } else {
      IdsSplit(r.buffer, [u]);
      assert AllIds([u]) == [IdsOf(u)];
    }
  }

  lemma {:induction false} CandidatesShadow(us: seq<Update>, target: int)
    ensures Reaching(AllIds(us), target) == AllIds(Candidates(us, target))
  {
    if us != [] {
      var n := |us| - 1;
      CandidatesShadow(us[..n], target);
      assert AllIds(us)[..n] == AllIds(us[..n]);
      IdsSplit(Candidates(us[..n], target), if us[n].final >= target then [us[n]] else []);
    }
  }

  lemma {:induction false} ApplyFromShadows(r: Replica, cs: seq<Update>, i: nat)
    requires r.Reliable() && r.book.Some? && i <= |cs|
    ensures Shadow(ApplyFrom(r, cs, i)) == ApplyIds(Shadow(r), AllIds(cs), i)
    decreases |cs| - i
  {
    if i < |cs| {
      LiveShadows(r, cs[i]);
      var next := ApplyLive(r, cs[i]);
      if next.Reliable() {
        ApplyFromShadows(next, cs, i + 1);
      } else {
        IdsSplit(next.buffer, cs[i + 1..]);
        assert AllIds(cs)[i + 1..] == AllIds(cs[i + 1..]);
      }
    }
  }

  lemma SynchronizeShadows(r: Replica, s: Snapshot)
    requires r.WellFormed()
    ensures
      var (after, bridge) := Synchronize(r, s);
      SynchronizeId(Shadow(r), s.lastUpdateId) == (Shadow(after), bridge)
  {
    var target := Target(r.product.market, s.lastUpdateId);
    var cs := Candidates(r.buffer, target);
    CandidatesShadow(r.buffer, target);
    NoBridge(r, s);
    if cs != [] && cs[0].first <= target <= cs[0].final {
      SynchronizeCases(r, s);
      ApplyFromShadows(OnSnapshot(r, s, cs[0]), cs, 1);
    }
  }

  // ---------------------------------------------------------------- main result

  function HandleId(t: Tracker, product: Product, e: Event): Tracker {
    match e
    case Offered(u) => if u.product == product then OfferId(t, IdsOf(u)) else t
    case Snapshotted(s) => if s.product == product then SynchronizeId(t, s.lastUpdateId).0 else t
    case Restarted => Tracker(t.market, t.capacity, None, [], false)
  }

  function RunIds(t: Tracker, product: Product, events: seq<Event>): Tracker {
    if events == [] then t else HandleId(RunIds(t, product, events[..|events| - 1]), product, events[|events| - 1])
  }

  /**
   * On every run the tracker is the reconstructor's shadow: it is reliable at exactly the same moments, at the
   * same update id, with the same events waiting, so nothing about continuity needs the book.
   */
  lemma {:induction false} TrackerIsTheShadow(r: Replica, events: seq<Event>)
    requires r.WellFormed()
    ensures RunIds(Shadow(r), r.product, events) == Shadow(Run(r, events))
    ensures Run(r, events).product == r.product
  {
    if events != [] {
      var n := |events| - 1;
      TrackerIsTheShadow(r, events[..n]);
      var before := Run(r, events[..n]);
      HandleKeepsForm(before, events[n]);
      HandleShadows(before, events[n]);
    }
  }

  lemma HandleShadows(r: Replica, e: Event)
    requires r.WellFormed()
    ensures Shadow(Handle(r, e)) == HandleId(Shadow(r), r.product, e)
  {
    hide OfferTo, OfferId, Synchronize, SynchronizeId;
    match e
    case Offered(u) => OfferShadows(r, u);
    case Snapshotted(s) => SynchronizeShadows(r, s);
    case Restarted =>
  }

  // ---------------------------------------------------------------- runs with malformed events

  /** What the tracker takes in: the reconstructor's events, and malformed ones, which only the tracker sees. */
  datatype Input = Valid(e: Event) | Malformed

  function TakeIn(t: Tracker, product: Product, i: Input): Tracker {
    match i
    case Valid(e) => HandleId(t, product, e)
    case Malformed => InvalidateId(t)
  }

  function TakeAll(t: Tracker, product: Product, inputs: seq<Input>): Tracker {
    if inputs == [] then t else TakeIn(TakeAll(t, product, inputs[..|inputs| - 1]), product, inputs[|inputs| - 1])
  }

  /** An overflowed buffer already waits for a restart, so there a malformed event changes nothing. */
  function AsEvents(t: Tracker, product: Product, inputs: seq<Input>): seq<Event> {
    if inputs == [] then []
    else
      var n := |inputs| - 1;
      AsEvents(t, product, inputs[..n]) +
      match inputs[n]
      case Valid(e) => [e]
      case Malformed => if TakeAll(t, product, inputs[..n]).overflowed then [] else [Restarted]
  }

  /**
   * With malformed events too the tracker is the shadow of a reconstructor: of one that is restarted at each
   * malformed event, except while the buffer has overflowed.
   */
  lemma {:induction false} InvalidatedTrackerIsAShadow(r: Replica, inputs: seq<Input>)
    requires r.WellFormed()
    ensures TakeAll(Shadow(r), r.product, inputs) == Shadow(Run(r, AsEvents(Shadow(r), r.product, inputs)))
  {
    if inputs != [] {
      var n := |inputs| - 1;
      InvalidatedTrackerIsAShadow(r, inputs[..n]);
      var events := AsEvents(Shadow(r), r.product, inputs[..n]);
      var before := Run(r, events);
      TrackerIsTheShadow(r, events);
      match inputs[n]
      case Valid(e) =>
        RunGrows(r, events, e);
        HandleShadows(before, e);
      case Malformed =>
        RunGrows(r, events, Restarted);
        if before.overflowed {
          OverflowStands(before);
          assert events + [] == events;
        } else {
          RestartShadows(before);
        }
    }
  }

  lemma OverflowStands(r: Replica)
    requires r.WellFormed() && r.overflowed
    ensures InvalidateId(Shadow(r)) == Shadow(r)
  {
  }

  lemma RestartShadows(r: Replica)
    requires r.WellFormed() && !r.overflowed
    ensures InvalidateId(Shadow(r)) == Shadow(Restart(r))
  {
  }
}
