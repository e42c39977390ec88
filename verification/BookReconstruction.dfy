/** Rebuilding one order book from a snapshot and a stream of depth events, and the sequence-only form of it. */
module BookReconstruction {
  import opened Wrappers
  import opened OrderBook

  datatype Phase = Buffering | Synchronized | ResyncRequired

  datatype Bridge = Bridged | SnapshotTooOld | NeedMoreEvents | SequenceGap

  datatype DataError = ProductDiffers

  /** A stretch in which the book could not be relied on. */
  datatype Interval = Interval(lastReliable: int, offendingFirst: int, offendingFinal: int, endedAt: Option<int>)

  /** Contents of a reconstructor. */
  datatype Replica = Replica(
    product: Product,
    capacity: nat,
    phase: Phase,
    buffer: seq<Update>,
    book: Option<State>,
    overflowed: bool,
    intervals: seq<Interval>)
  {
    predicate Reliable() {
      phase == Synchronized
    }

    predicate WellFormed() {
      && (Reliable() ==> book.Some? && buffer == [] && !overflowed)
      && (phase == ResyncRequired ==> intervals != [] && intervals[|intervals| - 1].endedAt.None?)
      && (overflowed ==> buffer == [])
      && |buffer| <= capacity && capacity >= 2
    }
  }

  function Start(product: Product, capacity: nat): Replica {
    Replica(product, capacity, Buffering, [], None, false, [])
  }

  // ---------------------------------------------------------------- one live event

  /** The event continues the book at `id`: Spot by covering the next id, the other markets by naming it. */
  predicate Continues(market: Market, id: int, u: Update) {
    if market == Spot then u.first <= id + 1 else u.previous == Some(id)
  }

  function ApplyLive(r: Replica, u: Update): Replica
    requires r.book.Some?
  {
    var book := r.book.value;
    if u.final <= book.updateId then r
    else if Continues(r.product.market, book.updateId, u) then r.(book := Some(book.After(u)))
    else r.(phase := ResyncRequired, buffer := [u],
            intervals := r.intervals + [Interval(book.updateId, u.first, u.final, None)])
  }

  function OfferTo(r: Replica, u: Update): Replica
    requires r.WellFormed()
  {
    if r.Reliable() then ApplyLive(r, u)
    else if r.overflowed then r
    else if |r.buffer| >= r.capacity then r.(buffer := [], overflowed := true)
    else r.(buffer := r.buffer + [u])
  }

  // ---------------------------------------------------------------- bridging a snapshot

  /** Update id that the first bridging event must cover. */
  function Target(market: Market, lastUpdateId: int): int {
    if market == Spot then lastUpdateId + 1 else lastUpdateId
  }

  function Candidates(buffer: seq<Update>, target: int): (cs: seq<Update>)
    ensures |cs| <= |buffer|
  {
    if buffer == [] then []
    else
      var n := |buffer| - 1;
      Candidates(buffer[..n], target) + if buffer[n].final >= target then [buffer[n]] else []
  }

  lemma {:induction false} CandidatesWait(buffer: seq<Update>, target: int, u: Update)
    ensures u in Candidates(buffer, target) <==> u in buffer && u.final >= target
  {
    if buffer != [] {
      CandidatesWait(buffer[..|buffer| - 1], target, u);
    }
  }

  /** Applies the events from `i` on; after a gap, the events behind it wait in the buffer. */
  function ApplyFrom(r: Replica, cs: seq<Update>, i: nat): Replica
    requires r.Reliable() && r.book.Some? && i <= |cs|
    decreases |cs| - i
  {
    if i == |cs| then r
    else
      var next := ApplyLive(r, cs[i]);
      if next.Reliable() then ApplyFrom(next, cs, i + 1) else next.(buffer := next.buffer + cs[i + 1..])
  }

  function CloseLast(intervals: seq<Interval>, id: int): seq<Interval> {
    if intervals == [] then []
    else
      var n := |intervals| - 1;
      if intervals[n].endedAt.None? then intervals[n := intervals[n].(endedAt := Some(id))] else intervals
  }

  /** The book on the snapshot and the first bridging event, before the rest of the buffer is worked off. */
  function OnSnapshot(r: Replica, s: Snapshot, first: Update): Replica {
    r.(phase := Synchronized, buffer := [], overflowed := false, book := Some(Opening(s).After(first)))
  }

  function Synchronize(r: Replica, s: Snapshot): (Replica, Bridge)
    requires r.WellFormed()
  {
    var target := Target(r.product.market, s.lastUpdateId);
    var cs := Candidates(r.buffer, target);
    if r.buffer == [] then (r, NeedMoreEvents)
    else if cs == [] then (r.(buffer := []), NeedMoreEvents)
    else if !(cs[0].first <= target <= cs[0].final) then (r, SnapshotTooOld)
    else
      var next := ApplyFrom(OnSnapshot(r, s, cs[0]), cs, 1);
      if !next.Reliable() then (next, SequenceGap)
      else if r.phase == ResyncRequired && next.book.Some? then
        (next.(intervals := CloseLast(next.intervals, next.book.value.updateId)), Bridged)
      else (next, Bridged)
  }

  function Restart(r: Replica): Replica {
    r.(phase := Buffering, buffer := [], book := None, overflowed := false)
  }

  // ---------------------------------------------------------------- what every operation keeps

  lemma {:induction false} ApplyFromKeepsForm(r: Replica, cs: seq<Update>, i: nat)
    requires r.Reliable() && r.WellFormed() && 1 <= i <= |cs| <= r.capacity
    ensures ApplyFrom(r, cs, i).WellFormed()
    ensures ApplyFrom(r, cs, i).book.Some? && ApplyFrom(r, cs, i).product == r.product
    ensures |r.intervals| <= |ApplyFrom(r, cs, i).intervals|
    ensures ApplyFrom(r, cs, i).Reliable() ==> ApplyFrom(r, cs, i).intervals == r.intervals
    decreases |cs| - i
  {
    if i < |cs| {
      var next := ApplyLive(r, cs[i]);
      if next.Reliable() {
        ApplyFromKeepsForm(next, cs, i + 1);
      }
    }
  }

  lemma SynchronizeKeepsForm(r: Replica, s: Snapshot)
    requires r.WellFormed()
    ensures Synchronize(r, s).0.WellFormed() && Synchronize(r, s).0.product == r.product
  {
    var cs := Candidates(r.buffer, Target(r.product.market, s.lastUpdateId));
    if cs != [] {
      BridgingKeepsForm(r, s, cs);
    }
  }

  lemma BridgingKeepsForm(r: Replica, s: Snapshot, cs: seq<Update>)
    requires r.WellFormed() && cs != [] && |cs| <= |r.buffer|
    ensures
      var start := OnSnapshot(r, s, cs[0]);
      var after := ApplyFrom(start, cs, 1);
      && start.WellFormed() && after.WellFormed() && after.book.Some? && after.product == r.product
      && (after.Reliable() ==> after.intervals == r.intervals)
  {
    ApplyFromKeepsForm(OnSnapshot(r, s, cs[0]), cs, 1);
  }

  lemma NoBridge(r: Replica, s: Snapshot)
    requires r.WellFormed()
    ensures
      var target := Target(r.product.market, s.lastUpdateId);
      var cs := Candidates(r.buffer, target);
      && (r.buffer == [] ==> Synchronize(r, s) == (r, NeedMoreEvents))
      && (r.buffer != [] && cs == [] ==> Synchronize(r, s) == (r.(buffer := []), NeedMoreEvents))
      && (cs != [] && !(cs[0].first <= target <= cs[0].final) ==> Synchronize(r, s) == (r, SnapshotTooOld))
  {
  }

  /** The bridging procedure once an event covers the target. */
  lemma SynchronizeCases(r: Replica, s: Snapshot)
    requires r.WellFormed()
    ensures
      var target := Target(r.product.market, s.lastUpdateId);
      var cs := Candidates(r.buffer, target);
      && (cs != [] && cs[0].first <= target <= cs[0].final ==>
            var start := OnSnapshot(r, s, cs[0]);
            && start.WellFormed() && start.Reliable() && start.book.Some?
            && var after := ApplyFrom(start, cs, 1);
            && after.WellFormed() && after.book.Some?
            && (!after.Reliable() ==> Synchronize(r, s) == (after, SequenceGap))
            && (after.Reliable() && r.phase != ResyncRequired ==> Synchronize(r, s) == (after, Bridged))
            && (after.Reliable() && r.phase == ResyncRequired ==>
                  Synchronize(r, s) ==
                  (after.(intervals := CloseLast(after.intervals, after.book.value.updateId)), Bridged)))
  {
    var cs := Candidates(r.buffer, Target(r.product.market, s.lastUpdateId));
    if cs != [] {
      BridgingKeepsForm(r, s, cs);
    }
  }

  // ---------------------------------------------------------------- the object

  class Reconstructor {
    const product: Product
    const capacity: nat
    var phase: Phase
    var buffer: seq<Update>
    var book: Book?
    var overflowed: bool
    var intervals: seq<Interval>

    ghost predicate Valid()
      reads this, book
    {
      && (book != null ==> book.Valid() && book.product == product)
      && Contents().WellFormed()
      && (forall u :: u in buffer ==> u.product == product)
    }

    function Contents(): Replica
      reads this, book
    {
      Replica(product, capacity, phase, buffer, if book == null then None else Some(book.Contents()), overflowed,
              intervals)
    }

    constructor (product: Product, capacity: nat)
      requires capacity >= 2
      ensures Valid() && Contents() == Start(product, capacity)
    {
      this.product, this.capacity := product, capacity;
      phase, buffer, book, overflowed, intervals := Buffering, [], null, false, [];
    }

    /** True when the event was taken into a reliable book, or was already covered by it. */
    method Offer(u: Update) returns (r: Result<bool, DataError>)
      requires Valid()
      modifies this, book
      ensures Valid() && book == old(book)
      ensures r.Failure? <==> u.product != product
      ensures r.Failure? ==> Contents() == old(Contents())
      ensures r.Success? ==> Contents() == OfferTo(old(Contents()), u)
      ensures r.Success? ==> r.value == (old(phase) == Synchronized && phase == Synchronized)
    {
      if u.product != product {
        return Failure(ProductDiffers);
      }
      if phase != Synchronized {
        if overflowed {
          return Success(false);
        }
        if |buffer| >= capacity {
          buffer := [];
          overflowed := true;
          return Success(false);
        }
        buffer := buffer + [u];
        return Success(false);
      }
      var taken := ApplyLiveEvent(u);
      r := Success(taken);
    }

    method ApplyLiveEvent(u: Update) returns (taken: bool)
      requires book != null && book.Valid() && book.product == product == u.product
      requires phase == Synchronized
      modifies this`phase, this`buffer, this`intervals, book
      ensures book.Valid() && Contents() == ApplyLive(old(Contents()), u)
      ensures taken <==> phase == Synchronized
      ensures buffer == if taken then old(buffer) else [u]
    {
      if u.final <= book.updateId {
        return true;
      }
      if product.market == Spot {
        if u.first > book.updateId + 1 {
          MarkGap(u);
          return false;
        }
      } else if u.previous != Some(book.updateId) {
        MarkGap(u);
        return false;
      }
      book.Apply(u);
      taken := true;
    }

    method MarkGap(u: Update)
      requires book != null
      modifies this`phase, this`buffer, this`intervals
      ensures phase == ResyncRequired && buffer == [u]
      ensures intervals == old(intervals) + [Interval(book.updateId, u.first, u.final, None)]
    {
      intervals := intervals + [Interval(book.updateId, u.first, u.final, None)];
      phase := ResyncRequired;
      buffer := [u];
    }

    method SynchronizeWith(s: Snapshot) returns (r: Result<Bridge, DataError>)
      requires Valid()
      modifies this, book
      ensures Valid() && (book == old(book) || fresh(book))
      ensures r.Failure? <==> s.product != product
      ensures r.Failure? ==> Contents() == old(Contents())
      ensures r.Success? ==> (Contents(), r.value) == Synchronize(old(Contents()), s)
    {
      if s.product != product {
        return Failure(ProductDiffers);
      }
      hide ApplyFrom, Candidates, CloseLast, Synchronize, OnSnapshot;
      NoBridge(Contents(), s);
      if buffer == [] {
        return Success(NeedMoreEvents);
      }
      var target := if product.market == Spot then s.lastUpdateId + 1 else s.lastUpdateId;
      var candidates := Candidates(buffer, target);
      if candidates == [] {
        buffer := [];
        return Success(NeedMoreEvents);
      }
      var first := candidates[0];
      if !(first.first <= target <= first.final) {
        return Success(SnapshotTooOld);
      }
      var bridge := BridgeOver(s, candidates);
      r := Success(bridge);
    }

    method BridgeOver(s: Snapshot, candidates: seq<Update>) returns (bridge: Bridge)
      requires Valid() && s.product == product
      requires candidates == Candidates(buffer, Target(product.market, s.lastUpdateId)) && candidates != []
      requires candidates[0].first <= Target(product.market, s.lastUpdateId) <= candidates[0].final
      modifies this, book
      ensures Valid() && fresh(book) && (Contents(), bridge) == Synchronize(old(Contents()), s)
    {
      hide ApplyFrom, Candidates, CloseLast, Synchronize, OnSnapshot, Opening, Replay, IsBest;
      SynchronizeCases(Contents(), s);
      forall u | u in candidates ensures u.product == product {
        CandidatesWait(buffer, Target(product.market, s.lastUpdateId), u);
      }
      assert candidates[0] in candidates;
      var wasResync := phase == ResyncRequired;
      OpenOn(s, candidates[0]);
      var bridged := ApplyRest(candidates);
      if !bridged {
        return SequenceGap;
      }
      if wasResync {
        CloseInterval();
      }
      bridge := Bridged;
    }

    /** A fresh book on the snapshot and the first bridging event. */
    method OpenOn(s: Snapshot, first: Update)
      requires s.product == product == first.product
      modifies this`phase, this`buffer, this`book, this`overflowed
      ensures book != null && fresh(book) && book.Valid() && book.product == product && phase == Synchronized
      ensures Contents() == OnSnapshot(old(Contents()), s, first)
    {
      book := new Book(s);
      phase, buffer, overflowed := Synchronized, [], false;
      book.Apply(first);
    }

    /** Works off the candidates behind the first; a gap leaves the offending event and all behind it in the buffer. */
    method ApplyRest(candidates: seq<Update>) returns (bridged: bool)
      requires book != null && book.Valid() && book.product == product && phase == Synchronized && candidates != []
      requires forall u :: u in candidates ==> u.product == product
      modifies this`phase, this`buffer, this`intervals, book
      ensures book.Valid() && Contents() == ApplyFrom(old(Contents()), candidates, 1)
      ensures bridged <==> phase == Synchronized
      ensures buffer == old(buffer) || forall u :: u in buffer ==> u.product == product
    {
      ghost var start := Contents();
      hide ApplyLive;
      var i := 1;
      while i < |candidates|
        invariant 1 <= i <= |candidates|
        invariant book.Valid() && phase == Synchronized && buffer == old(buffer)
        invariant ApplyFrom(Contents(), candidates, i) == ApplyFrom(start, candidates, 1)
      {
        var taken := ApplyLiveEvent(candidates[i]);
        if !taken {
          buffer := buffer + candidates[i + 1..];
          return false;
        }
        i := i + 1;
      }
      bridged := true;
    }

    method CloseInterval()
      requires book != null
      modifies this`intervals
      ensures intervals == CloseLast(old(intervals), book.updateId)
    {
      if intervals == [] {
        return;
      }
      var latest := intervals[|intervals| - 1];
      if latest.endedAt.None? {
        intervals := intervals[|intervals| - 1 := latest.(endedAt := Some(book.updateId))];
      }
    }

    method RestartBootstrap()
      requires Valid()
      modifies this
      ensures Valid() && Contents() == Restart(old(Contents()))
    {
      phase, buffer, book, overflowed := Buffering, [], null, false;
    }
  }

  // ---------------------------------------------------------------- any run

  datatype Event = Offered(u: Update) | Snapshotted(s: Snapshot) | Restarted

  /** Inputs of another product are refused and change nothing. */
  function Handle(r: Replica, e: Event): Replica
    requires r.WellFormed()
  {
    match e
    case Offered(u) => if u.product == r.product then OfferTo(r, u) else r
    case Snapshotted(s) => if s.product == r.product then Synchronize(r, s).0 else r
    case Restarted => Restart(r)
  }

  function Run(r: Replica, events: seq<Event>): (after: Replica)
    requires r.WellFormed()
    ensures after.WellFormed()
  {
    if events == [] then r
    else
      var before := Run(r, events[..|events| - 1]);
      HandleKeepsForm(before, events[|events| - 1]);
      Handle(before, events[|events| - 1])
  }

  lemma HandleKeepsForm(r: Replica, e: Event)
    requires r.WellFormed()
    ensures Handle(r, e).WellFormed() && Handle(r, e).product == r.product
  {
    match e
    case Offered(u) =>
    case Snapshotted(s) => SynchronizeKeepsForm(r, s);
    case Restarted =>
  }

  // ---------------------------------------------------------------- a reliable book is the exchange's book

  /** What the exchange's own book holds at one price of one side, by update id. */
  datatype Truth = Truth(product: Product, isBid: bool, price: real, quantity: int -> real)

  function SideOf(isBid: bool, book: State): Side {
    if isBid then book.bids else book.asks
  }

  function LevelsOf(isBid: bool, u: Update): seq<Level> {
    if isBid then u.bids else u.asks
  }

  /** Last update id before those that the event covers. */
  function Before(u: Update): int {
    if u.previous.Some? then u.previous.value else u.first - 1
  }

  /** The event tells the truth about this price: its last word is the quantity at `final`, silence means no change. */
  ghost predicate Genuine(truth: Truth, u: Update) {
    var said := LastWord(LevelsOf(truth.isBid, u), truth.price);
    && u.Valid() && u.product == truth.product && Before(u) <= u.first
    && (said.Some? ==> truth.quantity(u.final) == said.value)
    && (said.None? ==> forall id :: Before(u) <= id <= u.final ==> truth.quantity(id) == truth.quantity(u.final))
  }

  ghost predicate GenuineSnapshot(truth: Truth, s: Snapshot) {
    s.Valid() && QuantityAt(SideOf(truth.isBid, Opening(s)), truth.price) == truth.quantity(s.lastUpdateId)
  }

  ghost predicate GenuineEvent(truth: Truth, e: Event) {
    match e
    case Offered(u) => u.product == truth.product ==> Genuine(truth, u)
    case Snapshotted(s) => s.product == truth.product ==> GenuineSnapshot(truth, s)
    case Restarted => true
  }

  ghost predicate Agrees(truth: Truth, book: State) {
    QuantityAt(SideOf(truth.isBid, book), truth.price) == truth.quantity(book.updateId)
  }

  ghost predicate Tracks(truth: Truth, r: Replica) {
    && r.product == truth.product
    && (forall u :: u in r.buffer ==> Genuine(truth, u))
    && (r.Reliable() && r.book.Some? ==> Agrees(truth, r.book.value))
  }

  /** An event that reaches back to the book's id, and beyond it, carries the book to its own id. */
  lemma EventCarries(truth: Truth, book: State, u: Update)
    requires Agrees(truth, book) && Genuine(truth, u) && Before(u) <= book.updateId <= u.final
    ensures Agrees(truth, book.After(u))
  {
    ReplayGivesLastWord(SideOf(truth.isBid, book), LevelsOf(truth.isBid, u), truth.price);
  }

  lemma LiveTracks(truth: Truth, r: Replica, u: Update)
    requires r.Reliable() && r.book.Some? && Tracks(truth, r) && Genuine(truth, u)
    ensures Tracks(truth, ApplyLive(r, u))
  {
    if u.final > r.book.value.updateId && Continues(r.product.market, r.book.value.updateId, u) {
      EventCarries(truth, r.book.value, u);
    }
  }

  lemma {:induction false} ApplyFromTracks(truth: Truth, r: Replica, cs: seq<Update>, i: nat)
    requires r.Reliable() && r.book.Some? && Tracks(truth, r) && i <= |cs|
    requires forall u :: u in cs ==> Genuine(truth, u)
    ensures Tracks(truth, ApplyFrom(r, cs, i))
    decreases |cs| - i
  {
    hide Genuine, Agrees;
    if i < |cs| {
      LiveTracks(truth, r, cs[i]);
      var next := ApplyLive(r, cs[i]);
      if next.Reliable() {
        ApplyFromTracks(truth, next, cs, i + 1);
      }
    }
  }

  lemma SynchronizeTracks(truth: Truth, r: Replica, s: Snapshot)
    requires r.WellFormed() && Tracks(truth, r) && GenuineSnapshot(truth, s)
    ensures Tracks(truth, Synchronize(r, s).0)
  {
    var target := Target(r.product.market, s.lastUpdateId);
    var cs := Candidates(r.buffer, target);
    forall u | u in cs ensures Genuine(truth, u) {
      CandidatesWait(r.buffer, target, u);
    }
    if cs != [] && cs[0].first <= target <= cs[0].final {
      assert cs[0] in cs;
      EventCarries(truth, Opening(s), cs[0]);
      ApplyFromTracks(truth, OnSnapshot(r, s, cs[0]), cs, 1);
    }
    hide Genuine, Agrees, ApplyFrom;
    NoBridge(r, s);
    SynchronizeCases(r, s);
  }

  lemma HandleTracks(truth: Truth, r: Replica, e: Event)
    requires r.WellFormed() && Tracks(truth, r) && GenuineEvent(truth, e)
    ensures Tracks(truth, Handle(r, e))
  {
    hide Genuine, Agrees, GenuineSnapshot;
    match e
    case Offered(u) =>
      if u.product == r.product && r.Reliable() {
        LiveTracks(truth, r, u);
      }
    case Snapshotted(s) =>
      if s.product == r.product {
        SynchronizeTracks(truth, r, s);
      }
    case Restarted =>
  }

  lemma {:induction false} RunTracks(truth: Truth, r: Replica, events: seq<Event>)
    requires r.WellFormed() && Tracks(truth, r)
    requires forall i :: 0 <= i < |events| ==> GenuineEvent(truth, events[i])
    ensures Tracks(truth, Run(r, events))
  {
    hide Tracks, GenuineEvent, Handle;
    if events != [] {
      var n := |events| - 1;
      RunTracks(truth, r, events[..n]);
      HandleTracks(truth, Run(r, events[..n]), events[n]);
    }
  }

  /**
   * Whenever the reconstructor calls its book reliable, the book holds exactly what the exchange's book held at
   * that update id, price by price, although events may have been lost, repeated, reordered or cut off on the way.
   * Each price needs only the snapshots and events to be right about that price.
   */
  lemma ReliableBookIsTrue(truth: Truth, capacity: nat, events: seq<Event>)
    requires capacity >= 2
    requires forall i :: 0 <= i < |events| ==> GenuineEvent(truth, events[i])
    ensures
      var r := Run(Start(truth.product, capacity), events);
      r.Reliable() ==>
        && r.book.Some?
        && QuantityAt(SideOf(truth.isBid, r.book.value), truth.price) == truth.quantity(r.book.value.updateId)
  {
    RunTracks(truth, Start(truth.product, capacity), events);
  }

  // ---------------------------------------------------------------- nothing lost, no alarm

  /** Each event continues the one before it and reaches further. */
  ghost predicate Consecutive(market: Market, us: seq<Update>) {
    forall i :: 0 < i < |us| ==> us[i - 1].final < us[i].final && Continues(market, us[i - 1].final, us[i])
  }

  /** Event `i` is the first to reach the target, and starts at or before it. */
  ghost predicate Covers(us: seq<Update>, i: nat, target: int) {
    && i < |us| && us[i].first <= target <= us[i].final
    && (forall j :: 0 <= j < i ==> us[j].final < target)
  }

  lemma {:induction false} CandidatesAreASuffix(market: Market, us: seq<Update>, target: int) returns (k: nat)
    requires Consecutive(market, us)
    ensures k <= |us| && Candidates(us, target) == us[k..]
    ensures forall j :: 0 <= j < k ==> us[j].final < target
    ensures k < |us| ==> us[k].final >= target
  {
    hide Consecutive;
    if us == [] {
      k := 0;
    } else {
      var n := |us| - 1;
      ConsecutiveParts(market, us, 0, n);
      k := CandidatesAreASuffix(market, us[..n], target);
      hide Candidates;
      CandidatesOfLast(us, target);
      if us[n].final >= target {
        SuffixGrows(us, k);
      } else {
        if k < n {
          LaterReachFurther(market, us, k, n);
        }
        assert us[..n][k..] == [] && us[|us|..] == [];
        k := |us|;
      }
    }
  }

  lemma CandidatesOfLast(us: seq<Update>, target: int)
    requires us != []
    ensures
      var n := |us| - 1;
      Candidates(us, target) == Candidates(us[..n], target) + if us[n].final >= target then [us[n]] else []
  {
  }

  lemma SuffixGrows(us: seq<Update>, k: nat)
    requires k < |us|
    ensures us[k..] == us[..|us| - 1][k..] + [us[|us| - 1]]
  {
  }

  lemma ConsecutiveParts(market: Market, us: seq<Update>, i: nat, j: nat)
    requires Consecutive(market, us) && i <= j <= |us|
    ensures Consecutive(market, us[i..j])
  {
    hide Continues;
    var part := us[i..j];
    forall k | 0 < k < |part|
      ensures part[k - 1].final < part[k].final && Continues(market, part[k - 1].final, part[k])
    {
      assert part[k] == us[i + k] && part[k - 1] == us[i + k - 1];
    }
  }

  lemma {:induction false} LaterReachFurther(market: Market, us: seq<Update>, i: nat, j: nat)
    requires Consecutive(market, us) && i < j < |us|
    ensures us[i].final < us[j].final
  {
    if i + 1 < j {
      LaterReachFurther(market, us, i, j - 1);
    }
  }

  lemma {:induction false} NoGap(r: Replica, cs: seq<Update>, i: nat)
    requires r.Reliable() && r.book.Some? && 1 <= i <= |cs|
    requires Consecutive(r.product.market, cs) && r.book.value.updateId == cs[i - 1].final
    ensures
      var after := ApplyFrom(r, cs, i);
      after.Reliable() && after.book.Some? && after.book.value.updateId == cs[|cs| - 1].final
    decreases |cs| - i
  {
    if i < |cs| {
      assert Continues(r.product.market, cs[i - 1].final, cs[i]);
      NoGap(ApplyLive(r, cs[i]), cs, i + 1);
    }
  }

  /**
   * A buffer from which nothing is missing never produces a gap. It bridges exactly the snapshots whose target
   * its first reaching event covers, up to its last id; it asks for more events exactly when it stops short of
   * the target.
   */
  lemma WholeBufferBridges(r: Replica, s: Snapshot)
    requires r.WellFormed() && Consecutive(r.product.market, r.buffer)
    ensures
      var target := Target(r.product.market, s.lastUpdateId);
      var (after, bridge) := Synchronize(r, s);
      && bridge != SequenceGap
      && (bridge == Bridged <==> exists i :: Covers(r.buffer, i, target))
      && (bridge == NeedMoreEvents <==> forall u :: u in r.buffer ==> u.final < target)
      && (bridge == Bridged ==>
            after.Reliable() && after.book.Some? && after.book.value.updateId == r.buffer[|r.buffer| - 1].final)
  {
    hide Consecutive, ApplyFrom, Synchronize, Candidates, OnSnapshot;
    var market, us := r.product.market, r.buffer;
    var target := Target(market, s.lastUpdateId);
    var k := CandidatesAreASuffix(market, us, target);
    NoBridge(r, s);
    CoveredIff(us, k, target);
    if k < |us| && us[k].first <= target {
      ConsecutiveParts(market, us, k, |us|);
      assert us[k..|us|] == us[k..];
      SynchronizeCases(r, s);
      OnSnapshotContinues(r, s, us[k..]);
    }
  }

  lemma CoveredIff(us: seq<Update>, k: nat, target: int)
    requires k <= |us| && (forall j :: 0 <= j < k ==> us[j].final < target) && (k < |us| ==> us[k].final >= target)
    ensures (exists i :: Covers(us, i, target)) <==> k < |us| && us[k].first <= target
    ensures (forall u :: u in us ==> u.final < target) <==> k == |us|
  {
    if k < |us| {
      assert us[k] in us;
      assert us[k].first <= target ==> Covers(us, k, target);
      forall i | Covers(us, i, target) ensures i == k {}
    }
  }

  lemma OnSnapshotContinues(r: Replica, s: Snapshot, cs: seq<Update>)
    requires cs != [] && Consecutive(r.product.market, cs)
    ensures
      var start := OnSnapshot(r, s, cs[0]);
      && start.Reliable() && start.book.Some?
      && var after := ApplyFrom(start, cs, 1);
      && after.Reliable() && after.book.Some? && after.book.value.updateId == cs[|cs| - 1].final
  {
    NoGap(OnSnapshot(r, s, cs[0]), cs, 1);
  }

  /** On Spot a whole buffer bridges exactly the snapshots that it neither starts after nor stops short of. */
  lemma SpotBridgesIff(r: Replica, s: Snapshot)
    requires r.WellFormed() && r.product.market == Spot && Consecutive(Spot, r.buffer)
    requires forall i :: 0 <= i < |r.buffer| ==> r.buffer[i].Valid()
    ensures Synchronize(r, s).1 == Bridged <==>
            && r.buffer != []
            && r.buffer[0].first <= s.lastUpdateId + 1 <= r.buffer[|r.buffer| - 1].final
  {
    hide *;
    WholeBufferBridges(r, s);
    var us, target := r.buffer, s.lastUpdateId + 1;
    var k := CandidatesAreASuffix(Spot, us, target);
    CoveredIff(us, k, target);
    SpotCoveredIff(us, k, target);
    SpotTarget(s.lastUpdateId);
  }

  lemma SpotTarget(id: int)
    ensures Target(Spot, id) == id + 1
  {
  }

  lemma SpotCoveredIff(us: seq<Update>, k: nat, target: int)
    requires Consecutive(Spot, us) && forall i :: 0 <= i < |us| ==> us[i].Valid()
    requires k <= |us| && (forall j :: 0 <= j < k ==> us[j].final < target) && (k < |us| ==> us[k].final >= target)
    ensures k < |us| && us[k].first <= target <==>
            us != [] && us[0].first <= target <= us[|us| - 1].final
  {
    hide Consecutive, Continues, ValidLevels;
    if k < |us| {
      StartsInTime(us, k, target);
    }
    if k < |us| - 1 {
      LaterReachFurther(Spot, us, k, |us| - 1);
    }
  }

  lemma StartsInTime(us: seq<Update>, k: nat, target: int)
    requires Consecutive(Spot, us) && k < |us| && us[0].Valid() && forall j :: 0 <= j < k ==> us[j].final < target
    ensures k > 0 ==> us[k].first <= target && us[0].first <= target
  {
    if k > 0 {
      assert Continues(Spot, us[k - 1].final, us[k]);
    }
  }

  // ---------------------------------------------------------------- what a snapshot does to any buffer

  /** Update id reached by the first `i` candidates when none of them left a gap. */
  function Reached(cs: seq<Update>, i: nat): int
    requires 0 < i <= |cs|
  {
    if i == 1 || cs[i - 1].final >= Reached(cs, i - 1) then cs[i - 1].final else Reached(cs, i - 1)
  }

  /** Candidate `i` is covered already, or continues what the candidates before it reached. */
  predicate Joins(market: Market, cs: seq<Update>, i: nat)
    requires 0 < i < |cs|
  {
    cs[i].final <= Reached(cs, i) || Continues(market, Reached(cs, i), cs[i])
  }

  predicate Gapless(market: Market, cs: seq<Update>, i: nat)
    requires 0 < i
  {
    forall j: nat :: i <= j < |cs| ==> Joins(market, cs, j)
  }

  predicate CoversTarget(market: Market, buffer: seq<Update>, lastUpdateId: int) {
    var target := Target(market, lastUpdateId);
    var cs := Candidates(buffer, target);
    cs != [] && cs[0].first <= target <= cs[0].final
  }

  /** A condition on what waits in the buffer: the first candidate covers the target and no later one leaves a gap. */
  predicate WouldBridge(market: Market, buffer: seq<Update>, lastUpdateId: int) {
    CoversTarget(market, buffer, lastUpdateId) && Gapless(market, Candidates(buffer, Target(market, lastUpdateId)), 1)
  }

  lemma {:induction false} ApplyFromDecides(r: Replica, cs: seq<Update>, i: nat)
    requires r.Reliable() && r.book.Some? && 0 < i <= |cs| && r.book.value.updateId == Reached(cs, i)
    ensures
      var after := ApplyFrom(r, cs, i);
      && (after.Reliable() <==> Gapless(r.product.market, cs, i))
      && (after.Reliable() ==> after.book.Some? && after.book.value.updateId == Reached(cs, |cs|))
    decreases |cs| - i
  {
    if i < |cs| {
      var next := ApplyLive(r, cs[i]);
      assert next.Reliable() <==> Joins(r.product.market, cs, i);
      if next.Reliable() {
        ApplyFromDecides(next, cs, i + 1);
      }
    }
  }

  /** Which answer a snapshot gets, and how far the book then reaches, from the buffer and the snapshot's id alone. */
  lemma SynchronizeDecides(r: Replica, s: Snapshot)
    requires r.WellFormed()
    ensures
      var market, id := r.product.market, s.lastUpdateId;
      var cs := Candidates(r.buffer, Target(market, id));
      var (after, bridge) := Synchronize(r, s);
      && (bridge == Bridged <==> WouldBridge(market, r.buffer, id))
      && (bridge == SequenceGap <==> CoversTarget(market, r.buffer, id) && !WouldBridge(market, r.buffer, id))
      && (bridge == NeedMoreEvents <==> cs == [])
      && (bridge == SnapshotTooOld <==> cs != [] && !CoversTarget(market, r.buffer, id))
      && (bridge == Bridged ==> after.book.Some? && after.book.value.updateId == Reached(cs, |cs|))
      && (bridge == NeedMoreEvents ==> after == r.(buffer := []))
      && (bridge == SnapshotTooOld ==> after == r)
  {
    var cs := Candidates(r.buffer, Target(r.product.market, s.lastUpdateId));
    NoBridge(r, s);
    if CoversTarget(r.product.market, r.buffer, s.lastUpdateId) {
      SynchronizeCases(r, s);
      ApplyFromDecides(OnSnapshot(r, s, cs[0]), cs, 1);
    }
  }

  /** Candidate `j` is the first from `i` on that leaves a gap. */
  predicate FirstGap(market: Market, cs: seq<Update>, i: nat, j: nat) {
    0 < i <= j < |cs| && !Joins(market, cs, j) && forall h: nat :: i <= h < j ==> Joins(market, cs, h)
  }

  /** The book has stopped ahead of candidate `j`, which waits with all behind it, and an interval opens there. */
  ghost predicate StoppedAt(after: Replica, intervals: seq<Interval>, cs: seq<Update>, j: nat) {
    && 0 < j < |cs|
    && after.phase == ResyncRequired && after.buffer == cs[j..]
    && after.book.Some? && after.book.value.updateId == Reached(cs, j)
    && after.intervals == intervals + [Interval(Reached(cs, j), cs[j].first, cs[j].final, None)]
  }

  lemma {:induction false} ApplyFromStops(r: Replica, cs: seq<Update>, i: nat)
    requires r.Reliable() && r.book.Some? && 0 < i <= |cs| && r.book.value.updateId == Reached(cs, i)
    ensures !ApplyFrom(r, cs, i).Reliable() ==>
              exists j :: FirstGap(r.product.market, cs, i, j) && StoppedAt(ApplyFrom(r, cs, i), r.intervals, cs, j)
    decreases |cs| - i
  {
    if i < |cs| {
      var next := ApplyLive(r, cs[i]);
      if next.Reliable() {
        ApplyFromStops(next, cs, i + 1);
        if !ApplyFrom(next, cs, i + 1).Reliable() {
          var j :| FirstGap(r.product.market, cs, i + 1, j)
                   && StoppedAt(ApplyFrom(next, cs, i + 1), next.intervals, cs, j);
          assert FirstGap(r.product.market, cs, i, j);
        }
      } else {
        assert [cs[i]] + cs[i + 1..] == cs[i..];
        assert FirstGap(r.product.market, cs, i, i) && StoppedAt(ApplyFrom(r, cs, i), r.intervals, cs, i);
      }
    }
  }

  /** A bridge that ends in a gap stops at the first candidate that leaves one. */
  lemma GapKeepsTheRest(r: Replica, s: Snapshot)
    requires r.WellFormed() && Synchronize(r, s).1 == SequenceGap
    ensures
      var cs := Candidates(r.buffer, Target(r.product.market, s.lastUpdateId));
      exists j :: FirstGap(r.product.market, cs, 1, j) && StoppedAt(Synchronize(r, s).0, r.intervals, cs, j)
  {
    var cs := Candidates(r.buffer, Target(r.product.market, s.lastUpdateId));
    NoBridge(r, s);
    SynchronizeCases(r, s);
    ApplyFromStops(OnSnapshot(r, s, cs[0]), cs, 1);
    hide FirstGap, StoppedAt, Candidates, ApplyFrom;
  }

  // ---------------------------------------------------------------- what waits, and what is on record

  function Offers(us: seq<Update>): (events: seq<Event>)
    ensures |events| == |us|
  {
    seq(|us|, i requires 0 <= i < |us| => Offered(us[i]))
  }

  /** Before the book is reliable, offers wait in their order; one more than the buffer holds loses all of them. */
  lemma {:induction false} OffersWait(r: Replica, us: seq<Update>)
    requires r.WellFormed() && !r.Reliable() && !r.overflowed
    requires forall i :: 0 <= i < |us| ==> us[i].product == r.product
    ensures Run(r, Offers(us)) ==
            if |r.buffer| + |us| <= r.capacity then r.(buffer := r.buffer + us)
            else r.(buffer := [], overflowed := true)
  {
    if us == [] {
      assert r.buffer + us == r.buffer;
    } else {
      var n := |us| - 1;
      OffersWait(r, us[..n]);
      assert Offers(us)[..n] == Offers(us[..n]);
      assert us == us[..n] + [us[n]];
    }
  }

  /** The event that opened the interval lies beyond the book and, on Spot, leaves ids out. */
  predicate RealGap(market: Market, interval: Interval) {
    && interval.lastReliable < interval.offendingFinal
    && (market == Spot ==> interval.lastReliable + 1 < interval.offendingFirst)
  }

  ghost predicate RealGaps(r: Replica) {
    forall k :: 0 <= k < |r.intervals| ==> RealGap(r.product.market, r.intervals[k])
  }

  lemma {:induction false} ApplyFromRecordsGaps(r: Replica, cs: seq<Update>, i: nat)
    requires r.Reliable() && r.book.Some? && i <= |cs| && RealGaps(r)
    ensures RealGaps(ApplyFrom(r, cs, i))
    decreases |cs| - i
  {
    if i < |cs| {
      var next := ApplyLive(r, cs[i]);
      assert RealGaps(next);
      if next.Reliable() {
        ApplyFromRecordsGaps(next, cs, i + 1);
      }
    }
  }

  lemma HandleRecordsGaps(r: Replica, e: Event)
    requires r.WellFormed() && RealGaps(r)
    ensures RealGaps(Handle(r, e))
  {
    match e
    case Offered(u) =>
    case Snapshotted(s) =>
      var cs := Candidates(r.buffer, Target(r.product.market, s.lastUpdateId));
      NoBridge(r, s);
      if CoversTarget(r.product.market, r.buffer, s.lastUpdateId) {
        ApplyFromRecordsGaps(OnSnapshot(r, s, cs[0]), cs, 1);
        SynchronizeCases(r, s);
        hide ApplyFrom, Synchronize, Candidates;
      }
    case Restarted =>
  }

  /** In every run each interval on record was opened by a real gap between the book and the event that it names. */
  lemma {:induction false} IntervalsAreRealGaps(r: Replica, events: seq<Event>)
    requires r.WellFormed() && RealGaps(r)
    ensures RealGaps(Run(r, events))
  {
    hide RealGaps, Handle;
    if events != [] {
      var n := |events| - 1;
      IntervalsAreRealGaps(r, events[..n]);
      HandleRecordsGaps(Run(r, events[..n]), events[n]);
    }
  }

  lemma RunGrows(r: Replica, events: seq<Event>, e: Event)
    requires r.WellFormed()
    ensures Run(r, events + [e]) == Handle(Run(r, events), e)
  {
    assert (events + [e])[..|events|] == events;
  }
}
