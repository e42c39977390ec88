/** Offline proof kernel of the shared request budget: sliding-window peaks, their merge, and cooldowns. */
module RateWindow {
  import opened Wrappers

  datatype Kind = Depth | Metadata | Statistics5m | FundingHistory | Premium | Websocket

  /** One admission printed by a probe. */
  datatype Row = Row(id: int, atMs: int, usdm: bool, kind: Kind, cost: nat)

  datatype Scope = Weight | Connections | Funding | Statistics

  /** A budget key: market and scope. */
  datatype Key = Key(usdm: bool, scope: Scope)

  /** One admission as the sliding window sees it. */
  datatype Entry = Entry(at: real, cost: nat)

  // ---------------------------------------------------------------- cost of a row under one key

  /** What the recorder charges for a request, with depth snapshots of a thousand levels. */
  function Charge(usdm: bool, kind: Kind): (Key, nat) {
    if kind == Websocket then (Key(usdm, Connections), 1)
    else if !usdm then (Key(usdm, Weight), if kind == Depth then 50 else 20)
    else if kind == FundingHistory then (Key(usdm, Funding), 1)
    else if kind == Statistics5m then (Key(usdm, Statistics), 1)
    else (Key(usdm, Weight), if kind == Depth then 20 else 1)
  }

  function RecorderCost(row: Row, key: Key): nat {
    var (charged, cost) := Charge(row.usdm, row.kind);
    if charged == key then cost else 0
  }

  /** The gateway charges weight and connections only. */
  predicate SharedWithGateway(key: Key) {
    key.scope == Weight || key.scope == Connections
  }

  function GatewayCost(row: Row, key: Key): nat {
    if key == Key(row.usdm, if row.kind == Websocket then Connections else Weight) then row.cost else 0
  }

  function RecorderEntries(rows: seq<Row>, key: Key): seq<Entry> {
    if rows == [] then []
    else
      var n := |rows| - 1;
      var cost := RecorderCost(rows[n], key);
      RecorderEntries(rows[..n], key) + if cost != 0 then [Entry(rows[n].atMs as real, cost)] else []
  }

  function GatewayEntries(rows: seq<Row>, key: Key): seq<Entry> {
    if rows == [] then []
    else
      var n := |rows| - 1;
      var cost := GatewayCost(rows[n], key);
      GatewayEntries(rows[..n], key) + if cost != 0 then [Entry(rows[n].atMs as real, cost)] else []
  }

  /** A request is charged to one key, its market's connections, funding, statistics or weight, and to no other. */
  lemma EachRowHasOneKey(row: Row, key: Key)
    ensures RecorderCost(row, key) > 0 <==>
            && key.usdm == row.usdm
            && (key.scope == Connections <==> row.kind == Websocket)
            && (key.scope == Funding <==> row.usdm && row.kind == FundingHistory)
            && (key.scope == Statistics <==> row.usdm && row.kind == Statistics5m)
    ensures GatewayCost(row, key) ==
            if key.usdm == row.usdm && SharedWithGateway(key) && (key.scope == Connections <==> row.kind == Websocket)
            then row.cost else 0
  {
  }

  /** Only weights differ: fifty for a depth snapshot and twenty else on Spot; twenty and one on USD-M. */
  lemma Weights(row: Row, key: Key)
    ensures RecorderCost(row, key) <= 1 || key.scope == Weight
    ensures key == Key(false, Weight) && !row.usdm && row.kind != Websocket ==>
              RecorderCost(row, key) == if row.kind == Depth then 50 else 20
    ensures key == Key(true, Weight) && row.usdm && row.kind in {Depth, Metadata, Premium} ==>
              RecorderCost(row, key) == if row.kind == Depth then 20 else 1
  {
  }

  // ---------------------------------------------------------------- reference definition of the peak

  predicate InWindow(e: Entry, lo: real, length: real) {
    lo <= e.at < lo + length
  }

  /** Total cost admitted in the half-open window [lo, lo + length). */
  function WindowCost(entries: seq<Entry>, lo: real, length: real): nat {
    if entries == [] then 0
    else
      var n := |entries| - 1;
      WindowCost(entries[..n], lo, length) + if InWindow(entries[n], lo, length) then entries[n].cost else 0
  }

  /** Cost that the recorder's own rows put on a key in a window, read off the rows themselves. */
  function RecorderUse(rows: seq<Row>, key: Key, lo: real, length: real): nat {
    if rows == [] then 0
    else
      var n := |rows| - 1;
      RecorderUse(rows[..n], key, lo, length) +
      if lo <= rows[n].atMs as real < lo + length then RecorderCost(rows[n], key) else 0
  }

  function GatewayUse(rows: seq<Row>, key: Key, lo: real, length: real): nat {
    if rows == [] then 0
    else
      var n := |rows| - 1;
      GatewayUse(rows[..n], key, lo, length) +
      if lo <= rows[n].atMs as real < lo + length then GatewayCost(rows[n], key) else 0
  }

  /** The entries of a key cost in any window what the rows do. */
  lemma EntriesAreTheRows(rows: seq<Row>, key: Key, lo: real, length: real)
    ensures WindowCost(RecorderEntries(rows, key), lo, length) == RecorderUse(rows, key, lo, length)
    ensures WindowCost(GatewayEntries(rows, key), lo, length) == GatewayUse(rows, key, lo, length)
  {
    RecorderEntriesAreTheRows(rows, key, lo, length);
    GatewayEntriesAreTheRows(rows, key, lo, length);
  }

  lemma {:induction false} RecorderEntriesAreTheRows(rows: seq<Row>, key: Key, lo: real, length: real)
    ensures WindowCost(RecorderEntries(rows, key), lo, length) == RecorderUse(rows, key, lo, length)
  {
    hide RecorderCost;
    if rows != [] {
      var n := |rows| - 1;
      RecorderEntriesAreTheRows(rows[..n], key, lo, length);
      hide WindowCost;
      OneMoreEntry(RecorderEntries(rows[..n], key), rows[n].atMs as real, RecorderCost(rows[n], key), lo, length);
    }
  }

  lemma {:induction false} GatewayEntriesAreTheRows(rows: seq<Row>, key: Key, lo: real, length: real)
    ensures WindowCost(GatewayEntries(rows, key), lo, length) == GatewayUse(rows, key, lo, length)
  {
    hide GatewayCost;
    if rows != [] {
      var n := |rows| - 1;
      GatewayEntriesAreTheRows(rows[..n], key, lo, length);
      hide WindowCost;
      OneMoreEntry(GatewayEntries(rows[..n], key), rows[n].atMs as real, GatewayCost(rows[n], key), lo, length);
    }
  }

  lemma OneMoreEntry(entries: seq<Entry>, at: real, cost: nat, lo: real, length: real)
    ensures WindowCost(entries + (if cost != 0 then [Entry(at, cost)] else []), lo, length) ==
            WindowCost(entries, lo, length) + if lo <= at < lo + length then cost else 0
  {
    if cost != 0 {
      assert (entries + [Entry(at, cost)])[..|entries|] == entries;
    } else {
      assert entries + [] == entries;
    }
  }

  ghost predicate IsPeak(entries: seq<Entry>, length: real, peak: nat) {
    && AllWithin(entries, length, peak)
    && (exists lo: real :: WindowCost(entries, lo, length) == peak)
  }

  function Sum(entries: seq<Entry>): nat {
    if entries == [] then 0 else Sum(entries[..|entries| - 1]) + entries[|entries| - 1].cost
  }

  lemma {:induction false} WindowCostSplits(a: seq<Entry>, b: seq<Entry>, lo: real, length: real)
    ensures WindowCost(a + b, lo, length) == WindowCost(a, lo, length) + WindowCost(b, lo, length)
  {
    if b == [] {
      assert a + b == a;
    } else {
      var n := |b| - 1;
      assert (a + b)[..|a + b| - 1] == a + b[..n];
      WindowCostSplits(a, b[..n], lo, length);
    }
  }

  lemma {:induction false} WindowCostBounds(entries: seq<Entry>, lo: real, length: real)
    ensures WindowCost(entries, lo, length) <= Sum(entries)
    ensures (forall i :: 0 <= i < |entries| ==> InWindow(entries[i], lo, length)) ==>
              WindowCost(entries, lo, length) == Sum(entries)
    ensures (forall i :: 0 <= i < |entries| ==> !InWindow(entries[i], lo, length)) ==>
              WindowCost(entries, lo, length) == 0
  {
    if entries != [] {
      WindowCostBounds(entries[..|entries| - 1], lo, length);
    }
  }

  lemma {:induction false} SumFromFront(e: Entry, entries: seq<Entry>)
    ensures Sum([e] + entries) == e.cost + Sum(entries)
  {
    var all := [e] + entries;
    if entries == [] {
      assert all == [e] && all[..0] == [];
    } else {
      assert all[..|all| - 1] == [e] + entries[..|entries| - 1];
      SumFromFront(e, entries[..|entries| - 1]);
    }
  }

  lemma SumGrows(entries: seq<Entry>, e: Entry)
    ensures Sum(entries + [e]) == Sum(entries) + e.cost
  {
    assert (entries + [e])[..|entries|] == entries;
  }

  // ---------------------------------------------------------------- sorting

  predicate Before(a: Entry, b: Entry) {
    a.at < b.at || (a.at == b.at && a.cost <= b.cost)
  }

  ghost predicate SortedEntries(entries: seq<Entry>) {
    forall i, j :: 0 <= i < j < |entries| ==> entries[i].at <= entries[j].at
  }

  function Insert(entries: seq<Entry>, e: Entry): seq<Entry> {
    if entries == [] || Before(entries[|entries| - 1], e) then entries + [e]
    else Insert(entries[..|entries| - 1], e) + [entries[|entries| - 1]]
  }

  function Sorted(entries: seq<Entry>): seq<Entry> {
    if entries == [] then [] else Insert(Sorted(entries[..|entries| - 1]), entries[|entries| - 1])
  }

  lemma {:induction false} InsertSorts(entries: seq<Entry>, e: Entry)
    requires SortedEntries(entries)
    ensures SortedEntries(Insert(entries, e))
    ensures forall i :: 0 <= i < |Insert(entries, e)| ==>
              Insert(entries, e)[i].at <= e.at ||
              (entries != [] && Insert(entries, e)[i].at <= entries[|entries| - 1].at)
  {
    if !(entries == [] || Before(entries[|entries| - 1], e)) {
      InsertSorts(entries[..|entries| - 1], e);
    }
  }

  lemma {:induction false} InsertKeepsCost(entries: seq<Entry>, e: Entry, lo: real, length: real)
    ensures WindowCost(Insert(entries, e), lo, length) == WindowCost(entries + [e], lo, length)
  {
    assert (entries + [e])[..|entries|] == entries;
    if !(entries == [] || Before(entries[|entries| - 1], e)) {
      var n := |entries| - 1;
      InsertKeepsCost(entries[..n], e, lo, length);
      assert (entries[..n] + [e])[..n] == entries[..n];
      var r := Insert(entries[..n], e);
      assert (r + [entries[n]])[..|r|] == r;
    }
  }

  lemma {:induction false} SortedIsSorted(entries: seq<Entry>)
    ensures SortedEntries(Sorted(entries))
  {
    if entries != [] {
      SortedIsSorted(entries[..|entries| - 1]);
      InsertSorts(Sorted(entries[..|entries| - 1]), entries[|entries| - 1]);
    }
  }

  lemma {:induction false} SortedKeepsCost(entries: seq<Entry>, lo: real, length: real)
    ensures WindowCost(Sorted(entries), lo, length) == WindowCost(entries, lo, length)
  {
    if entries != [] {
      var n := |entries| - 1;
      SortedKeepsCost(entries[..n], lo, length);
      InsertKeepsCost(Sorted(entries[..n]), entries[n], lo, length);
      assert (Sorted(entries[..n]) + [entries[n]])[..|Sorted(entries[..n])|] == Sorted(entries[..n]);
    }
  }

  // ---------------------------------------------------------------- the sliding window

  /** One left-to-right pass with a deque finds the exact peak over all windows of the given length. */
  method Peak(entries: seq<Entry>, length: real) returns (maximum: nat)
    requires length > 0.0
    ensures IsPeak(entries, length, maximum)
  {
    hide IsPeak, WindowCost, SortedEntries, AllWithin, Sum, Sorted, ExpiredBy;
    var sorted := Sorted(entries);
    SortedIsSorted(entries);
    var queue: seq<Entry> := [];
    var total: nat := 0;
    maximum := 0;
    ghost var head := 0;   // index of the front of the deque
    ghost var best := 0.0; // start of a window that reaches the maximum
    NoCost(length);
    var k := 0;
    while k < |sorted|
      invariant 0 <= head <= k <= |sorted|
      invariant queue == sorted[head..k] && total == Sum(queue)
      invariant Expired(sorted, head, k, length)
      invariant AllWithin(sorted[..k], length, maximum)
      invariant WindowCost(sorted[..k], best, length) >= maximum
    {
      var at := sorted[k].at;
      ExpiredLater(sorted, head, k, length);
      while queue != [] && queue[0].at + length <= at
        invariant 0 <= head <= k
        invariant queue == sorted[head..k] && total == Sum(queue)
        invariant ExpiredBy(sorted, head, at, length)
        decreases |queue|
      {
        QueueFront(sorted, head, k);
        ExpireOne(sorted, head, at, length);
        SumFromFront(queue[0], queue[1..]);
        total := total - queue[0].cost;
        queue := queue[1..];
        head := head + 1;
      }
      ghost var was := queue;
      queue := queue + [sorted[k]];
      SumGrows(was, sorted[k]);
      total := total + sorted[k].cost;
      QueueBack(sorted, head, k);
      ghost var before := maximum;
      maximum := if total > maximum then total else maximum;
      NewWindows(sorted, head, k, length, before, maximum);
      OldWindow(sorted, k, best, length);
      if total > before {
        best := queue[0].at;
        FrontWindow(sorted, head, k, length);
      }
      k := k + 1;
    }
    assert sorted[..k] == sorted;
    PeakFound(entries, length, maximum, best);
  }

  /** Everything before `head` left the window before the entry at `k - 1`; nothing from `head` on has. */
  ghost predicate Expired(sorted: seq<Entry>, head: nat, k: nat, length: real)
    requires head <= k <= |sorted|
  {
    k > 0 ==> ExpiredBy(sorted, head, sorted[k - 1].at, length)
  }

  ghost predicate ExpiredBy(sorted: seq<Entry>, head: nat, at: real, length: real)
    requires head <= |sorted|
  {
    forall i :: 0 <= i < head ==> sorted[i].at + length <= at
  }

  ghost predicate AllWithin(entries: seq<Entry>, length: real, bound: nat) {
    forall lo: real :: WindowCost(entries, lo, length) <= bound
  }

  lemma QueueFront(sorted: seq<Entry>, head: nat, k: nat)
    requires head < k <= |sorted|
    ensures sorted[head..k] == [sorted[head]] + sorted[head + 1..k]
    ensures sorted[head..k][1..] == sorted[head + 1..k]
  {
  }

  lemma QueueBack(sorted: seq<Entry>, head: nat, k: nat)
    requires head <= k < |sorted|
    ensures sorted[head..k] + [sorted[k]] == sorted[head..k + 1]
  {
  }

  lemma NoCost(length: real)
    ensures AllWithin([], length, 0) && WindowCost([], 0.0, length) == 0 && Sum([]) == 0
  {
  }

  lemma ExpireOne(sorted: seq<Entry>, head: nat, at: real, length: real)
    requires head < |sorted| && ExpiredBy(sorted, head, at, length) && sorted[head].at + length <= at
    ensures ExpiredBy(sorted, head + 1, at, length)
  {
  }

  lemma ExpiredLater(sorted: seq<Entry>, head: nat, k: nat, length: real)
    requires SortedEntries(sorted) && head <= k < |sorted| && Expired(sorted, head, k, length)
    ensures ExpiredBy(sorted, head, sorted[k].at, length)
  {
    if k > 0 {
      assert sorted[k - 1].at <= sorted[k].at;
    }
  }

  /** A window either misses the newest entry, or holds nothing that has left the deque. */
  lemma NewWindow(sorted: seq<Entry>, head: nat, k: nat, lo: real, length: real)
    requires head <= k < |sorted| && ExpiredBy(sorted, head, sorted[k].at, length)
    ensures WindowCost(sorted[..k + 1], lo, length) <= Sum(sorted[head..k + 1]) ||
            WindowCost(sorted[..k + 1], lo, length) == WindowCost(sorted[..k], lo, length)
  {
    hide Sum;
    if InWindow(sorted[k], lo, length) {
      var gone, live := sorted[..head], sorted[head..k + 1];
      assert sorted[..k + 1] == gone + live;
      WindowCostSplits(gone, live, lo, length);
      WindowCostBounds(live, lo, length);
      WindowCostBounds(gone, lo, length);
      assert forall i :: 0 <= i < |gone| ==> !InWindow(gone[i], lo, length);
    } else {
      assert sorted[..k + 1][..k] == sorted[..k];
    }
  }

  lemma NewWindows(sorted: seq<Entry>, head: nat, k: nat, length: real, before: nat, after: nat)
    requires head <= k < |sorted| && ExpiredBy(sorted, head, sorted[k].at, length)
    requires AllWithin(sorted[..k], length, before)
    requires before <= after && Sum(sorted[head..k + 1]) <= after
    ensures AllWithin(sorted[..k + 1], length, after)
  {
    var longer := sorted[..k + 1];
    forall lo: real
      ensures WindowCost(longer, lo, length) <= after
    {
      NewWindow(sorted, head, k, lo, length);
    }
  }

  lemma OldWindow(sorted: seq<Entry>, k: nat, lo: real, length: real)
    requires k < |sorted|
    ensures WindowCost(sorted[..k + 1], lo, length) >= WindowCost(sorted[..k], lo, length)
  {
    assert sorted[..k + 1][..k] == sorted[..k];
  }

  /** The window that starts at the front of the deque holds the whole deque. */
  lemma FrontWindow(sorted: seq<Entry>, head: nat, k: nat, length: real)
    requires SortedEntries(sorted) && head <= k < |sorted|
    requires sorted[head].at + length > sorted[k].at
    ensures WindowCost(sorted[..k + 1], sorted[head].at, length) >= Sum(sorted[head..k + 1])
  {
    var lo, live := sorted[head].at, sorted[head..k + 1];
    assert sorted[..k + 1] == sorted[..head] + live;
    AllInWindow(sorted, head, k, length);
    hide WindowCost, Sum, InWindow, SortedEntries;
    WindowCostSplits(sorted[..head], live, lo, length);
    WindowCostBounds(live, lo, length);
  }

  lemma AllInWindow(sorted: seq<Entry>, head: nat, k: nat, length: real)
    requires SortedEntries(sorted) && head <= k < |sorted| && sorted[head].at + length > sorted[k].at
    ensures
      var live := sorted[head..k + 1];
      forall i :: 0 <= i < |live| ==> InWindow(live[i], sorted[head].at, length)
  {
    var live := sorted[head..k + 1];
    forall i | 0 <= i < |live| ensures InWindow(live[i], sorted[head].at, length) {
      assert live[i] == sorted[head + i];
    }
  }

  lemma PeakFound(entries: seq<Entry>, length: real, maximum: nat, best: real)
    requires AllWithin(Sorted(entries), length, maximum)
    requires WindowCost(Sorted(entries), best, length) >= maximum
    ensures IsPeak(entries, length, maximum)
  {
    forall lo: real
      ensures WindowCost(entries, lo, length) == WindowCost(Sorted(entries), lo, length)
    {
      SortedKeepsCost(entries, lo, length);
    }
  }

  // ---------------------------------------------------------------- merging two processes

  /** The merged event list of one key: recorder admissions, then gateway admissions, recast as gateway rows. */
  function MergedEvents(recorder: seq<Row>, gateway: seq<Row>, key: Key): seq<Row> {
    RecorderEvents(recorder, key) + GatewayEvents(gateway, key)
  }

  function EventRow(row: Row, cost: nat, key: Key): Row {
    Row(0, row.atMs, row.usdm, if key.scope == Connections then Websocket else Depth, cost)
  }

  function RecorderEvents(rows: seq<Row>, key: Key): seq<Row> {
    if rows == [] then []
    else
      var n := |rows| - 1;
      var cost := RecorderCost(rows[n], key);
      RecorderEvents(rows[..n], key) + if cost != 0 then [EventRow(rows[n], cost, key)] else []
  }

  function GatewayEvents(rows: seq<Row>, key: Key): seq<Row> {
    if rows == [] then []
    else
      var n := |rows| - 1;
      var cost := GatewayCost(rows[n], key);
      GatewayEvents(rows[..n], key) + if cost != 0 then [EventRow(rows[n], cost, key)] else []
  }

  lemma {:induction false} GatewayEntriesSplit(a: seq<Row>, b: seq<Row>, key: Key)
    ensures GatewayEntries(a + b, key) == GatewayEntries(a, key) + GatewayEntries(b, key)
  {
    if b == [] {
      assert a + b == a;
    } else {
      assert (a + b)[..|a + b| - 1] == a + b[..|b| - 1];
      GatewayEntriesSplit(a, b[..|b| - 1], key);
    }
  }

  lemma {:induction false} RecorderEventsReadBack(rows: seq<Row>, key: Key)
    requires SharedWithGateway(key)
    ensures GatewayEntries(RecorderEvents(rows, key), key) == RecorderEntries(rows, key)
  {
    if rows != [] {
      var n := |rows| - 1;
      RecorderEventsReadBack(rows[..n], key);
      var before := RecorderEvents(rows[..n], key);
      var cost := RecorderCost(rows[n], key);
      if cost != 0 {
        assert (before + [EventRow(rows[n], cost, key)])[..|before|] == before;
      } else {
        assert RecorderEvents(rows, key) == before;
      }
    }
  }

  lemma {:induction false} GatewayEventsReadBack(rows: seq<Row>, key: Key)
    ensures GatewayEntries(GatewayEvents(rows, key), key) == GatewayEntries(rows, key)
  {
    if rows != [] {
      var n := |rows| - 1;
      GatewayEventsReadBack(rows[..n], key);
      var before := GatewayEvents(rows[..n], key);
      var cost := GatewayCost(rows[n], key);
      if cost != 0 {
        assert (before + [EventRow(rows[n], cost, key)])[..|before|] == before;
      } else {
        assert GatewayEvents(rows, key) == before;
      }
    }
  }

  /** Recasting and reading back loses no admission of either process and invents none. */
  lemma MergeReadsBack(recorder: seq<Row>, gateway: seq<Row>, key: Key)
    requires SharedWithGateway(key)
    ensures GatewayEntries(MergedEvents(recorder, gateway, key), key) ==
            RecorderEntries(recorder, key) + GatewayEntries(gateway, key)
  {
    GatewayEntriesSplit(RecorderEvents(recorder, key), GatewayEvents(gateway, key), key);
    RecorderEventsReadBack(recorder, key);
    GatewayEventsReadBack(gateway, key);
  }

  /** The peak of merged admissions lies between the larger peak and the sum of both. */
  lemma PeaksAddUp(a: seq<Entry>, b: seq<Entry>, length: real, p: nat, q: nat, c: nat)
    requires IsPeak(a, length, p) && IsPeak(b, length, q) && IsPeak(a + b, length, c)
    ensures p <= c && q <= c && c <= p + q
  {
    forall lo: real
      ensures WindowCost(a + b, lo, length) == WindowCost(a, lo, length) + WindowCost(b, lo, length)
    {
      WindowCostSplits(a, b, lo, length);
    }
    var lo: real :| WindowCost(a + b, lo, length) == c;
    var la: real :| WindowCost(a, la, length) == p;
    var lb: real :| WindowCost(b, lb, length) == q;
    assert WindowCost(a + b, la, length) <= c && WindowCost(a + b, lb, length) <= c;
    assert WindowCost(a, lo, length) <= p && WindowCost(b, lo, length) <= q;
  }

  /** Comparing the peak with a cap decides the cap for every window. */
  lemma PeakDecides(entries: seq<Entry>, length: real, peak: nat, cap: nat)
    requires IsPeak(entries, length, peak)
    ensures peak <= cap <==> AllWithin(entries, length, cap)
  {
    var lo: real :| WindowCost(entries, lo, length) == peak;
  }

  datatype Maxima = Maxima(recorder: nat, gateway: nat, combined: nat)

  lemma {:induction false} GatewayChargesNothing(rows: seq<Row>, key: Key)
    requires !SharedWithGateway(key)
    ensures GatewayEntries(rows, key) == []
  {
    if rows != [] {
      GatewayChargesNothing(rows[..|rows| - 1], key);
    }
  }

  /** No window of the length holds more than the cap. */
  ghost predicate RecorderWithin(rows: seq<Row>, key: Key, length: real, cap: nat) {
    forall lo: real :: RecorderUse(rows, key, lo, length) <= cap
  }

  ghost predicate GatewayWithin(rows: seq<Row>, key: Key, length: real, cap: nat) {
    forall lo: real :: GatewayUse(rows, key, lo, length) <= cap
  }

  lemma WithinMeans(rows: seq<Row>, key: Key, length: real, cap: nat)
    ensures AllWithin(RecorderEntries(rows, key), length, cap) <==> RecorderWithin(rows, key, length, cap)
    ensures AllWithin(GatewayEntries(rows, key), length, cap) <==> GatewayWithin(rows, key, length, cap)
  {
    hide WindowCost, RecorderUse, GatewayUse;
    forall lo: real
      ensures WindowCost(RecorderEntries(rows, key), lo, length) == RecorderUse(rows, key, lo, length)
      ensures WindowCost(GatewayEntries(rows, key), lo, length) == GatewayUse(rows, key, lo, length)
    {
      EntriesAreTheRows(rows, key, lo, length);
    }
  }

  /** The per-key part of `verify`: its last assertion cannot fail once the two per-process checks have passed. */
  method VerifyKey(recorder: seq<Row>, gateway: seq<Row>, key: Key, length: real, cap: nat, gatewayCap: nat)
    returns (maxima: Option<Maxima>)
    requires length > 0.0
    ensures maxima.Some? <==>
            && RecorderWithin(recorder, key, length, cap)
            && GatewayWithin(gateway, key, length, if SharedWithGateway(key) then gatewayCap else 0)
    ensures maxima.Some? ==>
              && IsPeak(RecorderEntries(recorder, key), length, maxima.value.recorder)
              && IsPeak(GatewayEntries(gateway, key), length, maxima.value.gateway)
              && IsPeak(RecorderEntries(recorder, key) + GatewayEntries(gateway, key), length, maxima.value.combined)
              && maxima.value.combined <= cap + gatewayCap
  {
    var r := Peak(RecorderEntries(recorder, key), length);
    var g := Peak(GatewayEntries(gateway, key), length);
    var allowed := if SharedWithGateway(key) then gatewayCap else 0;
    PeakDecides(RecorderEntries(recorder, key), length, r, cap);
    PeakDecides(GatewayEntries(gateway, key), length, g, allowed);
    WithinMeans(recorder, key, length, cap);
    WithinMeans(gateway, key, length, allowed);
    if !(r <= cap && g <= allowed) {
      return None;
    }
    var combined := r;
    if SharedWithGateway(key) {
      combined := Peak(GatewayEntries(MergedEvents(recorder, gateway, key), key), length);
      MergeReadsBack(recorder, gateway, key);
      PeaksAddUp(RecorderEntries(recorder, key), GatewayEntries(gateway, key), length, r, g, combined);
      assert combined <= cap + gatewayCap;
    } else {
      GatewayChargesNothing(gateway, key);
      assert RecorderEntries(recorder, key) + [] == RecorderEntries(recorder, key);
    }
    maxima := Some(Maxima(r, g, combined));
  }

  // ---------------------------------------------------------------- cooldowns

  datatype Operation = Operation(atMs: int, id: int, usdm: bool, kind: Kind, status: int, retrySeconds: int)

  predicate Throttled(op: Operation) {
    op.status == 418 || op.status == 429
  }

  predicate Earlier(a: Row, b: Row) {
    a.atMs < b.atMs || (a.atMs == b.atMs && a.id <= b.id)
  }

  function InsertRow(rows: seq<Row>, row: Row): seq<Row> {
    if rows == [] || Earlier(rows[|rows| - 1], row) then rows + [row]
    else InsertRow(rows[..|rows| - 1], row) + [rows[|rows| - 1]]
  }

  /** Admissions by time, then by id. */
  function ByTime(rows: seq<Row>): seq<Row> {
    if rows == [] then [] else InsertRow(ByTime(rows[..|rows| - 1]), rows[|rows| - 1])
  }

  ghost predicate InTimeOrder(rows: seq<Row>) {
    forall i, j :: 0 <= i < j < |rows| ==>
      rows[i].atMs <= rows[j].atMs && (rows[i].atMs == rows[j].atMs ==> rows[i].id <= rows[j].id)
  }

  lemma {:induction false} InsertRowKeepsAll(rows: seq<Row>, row: Row)
    ensures multiset(InsertRow(rows, row)) == multiset(rows) + multiset{row}
  {
    hide Earlier;
    if !(rows == [] || Earlier(rows[|rows| - 1], row)) {
      var n := |rows| - 1;
      InsertRowKeepsAll(rows[..n], row);
      assert rows == rows[..n] + [rows[n]];
    }
  }

  /** Insertion keeps the order, and puts nothing behind what was last and what came in. */
  lemma {:induction false} InsertRowSorts(rows: seq<Row>, row: Row)
    requires InTimeOrder(rows)
    ensures InTimeOrder(InsertRow(rows, row))
    ensures forall i :: 0 <= i < |InsertRow(rows, row)| ==>
              || Earlier(InsertRow(rows, row)[i], row)
              || (rows != [] && Earlier(InsertRow(rows, row)[i], rows[|rows| - 1]))
  {
    if !(rows == [] || Earlier(rows[|rows| - 1], row)) {
      InsertRowSorts(rows[..|rows| - 1], row);
    }
  }

  lemma {:induction false} ByTimeSorts(rows: seq<Row>)
    ensures InTimeOrder(ByTime(rows)) && multiset(ByTime(rows)) == multiset(rows)
  {
    if rows != [] {
      var n := |rows| - 1;
      ByTimeSorts(rows[..n]);
      InsertRowSorts(ByTime(rows[..n]), rows[n]);
      InsertRowKeepsAll(ByTime(rows[..n]), rows[n]);
      hide InTimeOrder, InsertRow;
      assert rows == rows[..n] + [rows[n]];
    }
  }

  /** What an admission must satisfy by itself: it is a planned one, no earlier than planned, at a time from zero on. */
  predicate Planned(ops: map<int, Operation>, gateway: bool, row: Row) {
    && row.id in ops && row.atMs >= ops[row.id].atMs
    && (gateway || row.kind != Websocket ==> row.atMs >= 0)
  }

  /** Admission `b` lies at or past the end of the cooldown that `a`, of the same market, ran into. */
  predicate Waits(ops: map<int, Operation>, gateway: bool, a: Row, b: Row) {
    a.id in ops && ops[a.id].status in {418, 429} && a.usdm == b.usdm && (gateway || b.kind != Websocket) ==>
      b.atMs >= a.atMs + ops[a.id].retrySeconds * 1000
  }

  /** The rule on the admissions as printed, in any order: each waits for every cooldown that began before it. */
  ghost predicate CooldownsKept(admissions: seq<Row>, ops: map<int, Operation>, gateway: bool) {
    && (forall k :: 0 <= k < |admissions| ==> Planned(ops, gateway, admissions[k]))
    && (forall i, j :: 0 <= i < |admissions| && 0 <= j < |admissions| && CameBefore(admissions, i, j) ==>
          Waits(ops, gateway, admissions[i], admissions[j]))
  }

  /** By time, then by id, then by place. */
  predicate CameBefore(rows: seq<Row>, i: nat, j: nat)
    requires i < |rows| && j < |rows|
  {
    if rows[i].atMs != rows[j].atMs then rows[i].atMs < rows[j].atMs
    else if rows[i].id != rows[j].id then rows[i].id < rows[j].id
    else i < j
  }

  /** The same rule on admissions in order. */
  ghost predicate CooldownsHold(rows: seq<Row>, ops: map<int, Operation>, gateway: bool) {
    && (forall k :: 0 <= k < |rows| ==> Planned(ops, gateway, rows[k]))
    && (forall i, j :: 0 <= i < j < |rows| ==> Waits(ops, gateway, rows[i], rows[j]))
  }

  lemma HoldsGrows(rows: seq<Row>, row: Row, ops: map<int, Operation>, gateway: bool)
    ensures CooldownsHold(rows + [row], ops, gateway) <==>
            && CooldownsHold(rows, ops, gateway) && Planned(ops, gateway, row)
            && (forall x :: x in rows ==> Waits(ops, gateway, x, row))
  {
    hide Planned, Waits;
    var all, n := rows + [row], |rows|;
    assert all[n] == row && forall i :: 0 <= i < n ==> all[i] == rows[i];
    if CooldownsHold(all, ops, gateway) {
      forall x | x in rows ensures Waits(ops, gateway, x, row) {
        var i :| 0 <= i < n && rows[i] == x;
        assert Waits(ops, gateway, all[i], all[n]);
      }
      forall i, j | 0 <= i < j < n ensures Waits(ops, gateway, rows[i], rows[j]) {
        assert Waits(ops, gateway, all[i], all[j]);
      }
    }
  }

  /** The admission waits for all that come before it, and all that come after wait for it. */
  ghost predicate WaitsAround(rows: seq<Row>, row: Row, ops: map<int, Operation>, gateway: bool) {
    forall x :: x in rows ==> if Earlier(x, row) then Waits(ops, gateway, x, row) else Waits(ops, gateway, row, x)
  }

  lemma AroundLast(rows: seq<Row>, last: Row, row: Row, ops: map<int, Operation>, gateway: bool)
    requires !Earlier(last, row)
    ensures WaitsAround(rows + [last], row, ops, gateway) <==>
            WaitsAround(rows, row, ops, gateway) && Waits(ops, gateway, row, last)
  {
    hide Earlier, Waits;
    assert (rows + [last])[|rows|] == last;
  }

  lemma AroundAll(rows: seq<Row>, row: Row, ops: map<int, Operation>, gateway: bool)
    requires forall x :: x in rows ==> Earlier(x, row)
    ensures WaitsAround(rows, row, ops, gateway) <==> forall x :: x in rows ==> Waits(ops, gateway, x, row)
  {
    hide Earlier, Waits;
  }

  lemma AllEarlier(rows: seq<Row>, row: Row)
    requires InTimeOrder(rows) && (rows == [] || Earlier(rows[|rows| - 1], row))
    ensures forall x :: x in rows ==> Earlier(x, row)
  {
  }

  lemma SameAround(a: seq<Row>, b: seq<Row>, row: Row, ops: map<int, Operation>, gateway: bool)
    requires multiset(a) == multiset(b)
    ensures WaitsAround(a, row, ops, gateway) <==> WaitsAround(b, row, ops, gateway)
  {
    SameMembers(a, b);
    hide Earlier, Waits;
  }

  /** Putting an admission in its place asks for its own soundness and for both waits around it. */
  lemma {:induction false} InsertedHolds(rows: seq<Row>, row: Row, ops: map<int, Operation>, gateway: bool)
    requires InTimeOrder(rows)
    ensures CooldownsHold(InsertRow(rows, row), ops, gateway) <==>
            && CooldownsHold(rows, ops, gateway) && Planned(ops, gateway, row)
            && WaitsAround(rows, row, ops, gateway)
  {
    if rows == [] || Earlier(rows[|rows| - 1], row) {
      assert InsertRow(rows, row) == rows + [row];
      AllEarlier(rows, row);
      hide *;
      HoldsGrows(rows, row, ops, gateway);
      AroundAll(rows, row, ops, gateway);
    } else {
      var n := |rows| - 1;
      var front, last := rows[..n], rows[n];
      InsertedHolds(front, row, ops, gateway);
      InsertRowKeepsAll(front, row);
      assert InsertRow(rows, row) == InsertRow(front, row) + [last];
      assert rows == front + [last];
      hide *;
      HoldsGrows(InsertRow(front, row), last, ops, gateway);
      HoldsGrows(front, last, ops, gateway);
      AroundLast(front, last, row, ops, gateway);
      SameMembers(InsertRow(front, row), front + [row]);
    }
  }

  lemma SameMembers(a: seq<Row>, b: seq<Row>)
    requires multiset(a) == multiset(b)
    ensures forall x :: x in a <==> x in b
  {
    forall x ensures x in a <==> x in b {
      assert x in a <==> x in multiset(a);
      assert x in b <==> x in multiset(b);
    }
  }

  lemma KeptGrows(rows: seq<Row>, row: Row, ops: map<int, Operation>, gateway: bool)
    ensures CooldownsKept(rows + [row], ops, gateway) <==>
            && CooldownsKept(rows, ops, gateway) && Planned(ops, gateway, row)
            && WaitsAround(rows, row, ops, gateway)
  {
    hide Planned, Waits;
    var all, n := rows + [row], |rows|;
    assert all[n] == row && forall i :: 0 <= i < n ==> all[i] == rows[i];
    assert forall i, j :: 0 <= i < n && 0 <= j < n ==> CameBefore(all, i, j) == CameBefore(rows, i, j);
    assert forall i :: 0 <= i < n ==> CameBefore(all, i, n) == Earlier(rows[i], row);
    assert forall i :: 0 <= i < n ==> CameBefore(all, n, i) == !Earlier(rows[i], row);
    assert !CameBefore(all, n, n);
    hide CameBefore, Earlier;
    if CooldownsKept(all, ops, gateway) {
      forall x | x in rows
        ensures if Earlier(x, row) then Waits(ops, gateway, x, row) else Waits(ops, gateway, row, x)
      {
        var i :| 0 <= i < n && rows[i] == x;
        assert CameBefore(all, i, n) || CameBefore(all, n, i);
      }
      forall i, j | 0 <= i < n && 0 <= j < n && CameBefore(rows, i, j) ensures Waits(ops, gateway, rows[i], rows[j]) {
        assert CameBefore(all, i, j);
      }
    }
  }

  /** Replaying the admissions in order of time and id decides the rule on the admissions as they were printed. */
  lemma {:induction false} ReplayDecides(admissions: seq<Row>, ops: map<int, Operation>, gateway: bool)
    ensures CooldownsHold(ByTime(admissions), ops, gateway) <==> CooldownsKept(admissions, ops, gateway)
  {
    if admissions != [] {
      var n := |admissions| - 1;
      var front, row := admissions[..n], admissions[n];
      ReplayDecides(front, ops, gateway);
      ByTimeSorts(front);
      InsertedHolds(ByTime(front), row, ops, gateway);
      assert admissions == front + [row] && ByTime(admissions) == InsertRow(ByTime(front), row);
      hide *;
      SameAround(ByTime(front), front, row, ops, gateway);
      KeptGrows(front, row, ops, gateway);
    }
  }

  function Max(a: int, b: int): int {
    if a >= b then a else b
  }

  ghost predicate Known(rows: seq<Row>, ops: map<int, Operation>) {
    forall k :: 0 <= k < |rows| ==> rows[k].id in ops
  }

  /** The deadline kept for a market is the latest end of any cooldown so far: later shorter ones never shorten it. */
  ghost predicate DeadlineIs(rows: seq<Row>, ops: map<int, Operation>, usdm: bool, deadline: int)
    requires Known(rows, ops)
  {
    && deadline >= 0
    && (forall i :: 0 <= i < |rows| && rows[i].usdm == usdm && Throttled(ops[rows[i].id]) ==>
          rows[i].atMs + ops[rows[i].id].retrySeconds * 1000 <= deadline)
    && (deadline == 0 ||
        (exists i :: 0 <= i < |rows| && rows[i].usdm == usdm && Throttled(ops[rows[i].id]) &&
                     rows[i].atMs + ops[rows[i].id].retrySeconds * 1000 == deadline))
  }

  method VerifyCooldowns(admissions: seq<Row>, ops: map<int, Operation>, gateway: bool) returns (ok: bool)
    ensures ok <==> CooldownsKept(admissions, ops, gateway)
  {
    hide CooldownsHold, CooldownsKept, DeadlineIs, ByTime;
    var rows := ByTime(admissions);
    ReplayDecides(admissions, ops, gateway);
    var deadlines := map[false := 0, true := 0];
    NoAdmissions(ops, gateway);
    var k := 0;
    while k < |rows|
      invariant 0 <= k <= |rows|
      invariant false in deadlines && true in deadlines
      invariant Known(rows[..k], ops) && CooldownsHold(rows[..k], ops, gateway)
      invariant forall usdm :: DeadlineIs(rows[..k], ops, usdm, deadlines[usdm])
    {
      var row := rows[k];
      assert rows[..k + 1] == rows[..k] + [row];
      NextAdmission(rows[..k], ops, gateway, row, deadlines[row.usdm]);
      PrefixHolds(rows, ops, gateway, k + 1);
      if row.id !in ops {
        return false;
      }
      var op := ops[row.id];
      if row.atMs < op.atMs {
        return false;
      }
      if (gateway || row.kind != Websocket) && row.atMs < deadlines[row.usdm] {
        return false;
      }
      NextDeadline(rows[..k], ops, false, deadlines[false], row);
      NextDeadline(rows[..k], ops, true, deadlines[true], row);
      if Throttled(op) {
        deadlines := deadlines[row.usdm := Max(deadlines[row.usdm], row.atMs + op.retrySeconds * 1000)];
      }
      k := k + 1;
    }
    assert rows[..k] == rows;
    ok := true;
  }

  lemma NoAdmissions(ops: map<int, Operation>, gateway: bool)
    ensures Known([], ops) && CooldownsHold([], ops, gateway)
    ensures DeadlineIs([], ops, false, 0) && DeadlineIs([], ops, true, 0)
  {
  }

  lemma PrefixHolds(rows: seq<Row>, ops: map<int, Operation>, gateway: bool, k: nat)
    requires k <= |rows|
    ensures CooldownsHold(rows, ops, gateway) ==> CooldownsHold(rows[..k], ops, gateway)
  {
    hide Planned, Waits;
    if CooldownsHold(rows, ops, gateway) {
      forall i, j | 0 <= i < j < k ensures Waits(ops, gateway, rows[..k][i], rows[..k][j]) {
        assert Waits(ops, gateway, rows[i], rows[j]);
      }
    }
  }

  /** Whether the next admission is in order depends on the market's deadline alone. */
  lemma NextAdmission(rows: seq<Row>, ops: map<int, Operation>, gateway: bool, row: Row, deadline: int)
    requires Known(rows, ops) && CooldownsHold(rows, ops, gateway)
    requires DeadlineIs(rows, ops, row.usdm, deadline)
    ensures CooldownsHold(rows + [row], ops, gateway) <==>
            && row.id in ops && row.atMs >= ops[row.id].atMs
            && ((gateway || row.kind != Websocket) ==> row.atMs >= deadline)
    ensures row.id in ops ==> Known(rows + [row], ops)
  {
    HoldsGrows(rows, row, ops, gateway);
    hide CooldownsHold;
    if (gateway || row.kind != Websocket) && row.atMs < deadline && deadline > 0 {
      var i :| 0 <= i < |rows| && rows[i].usdm == row.usdm && Throttled(ops[rows[i].id]) &&
               rows[i].atMs + ops[rows[i].id].retrySeconds * 1000 == deadline;
      assert !Waits(ops, gateway, rows[i], row);
    }
  }

  lemma NextDeadline(rows: seq<Row>, ops: map<int, Operation>, usdm: bool, deadline: int, row: Row)
    requires Known(rows, ops)
    requires row.id in ops && DeadlineIs(rows, ops, usdm, deadline)
    ensures Known(rows + [row], ops)
    ensures DeadlineIs(rows + [row], ops, usdm,
                       if row.usdm == usdm && Throttled(ops[row.id])
                       then Max(deadline, row.atMs + ops[row.id].retrySeconds * 1000) else deadline)
  {
    var all, n := rows + [row], |rows|;
    assert all[n] == row && forall i :: 0 <= i < n ==> all[i] == rows[i];
    if deadline != 0 {
      var i :| 0 <= i < n && rows[i].usdm == usdm && Throttled(ops[rows[i].id]) &&
               rows[i].atMs + ops[rows[i].id].retrySeconds * 1000 == deadline;
      assert all[i] == rows[i];
    }
  }
}
