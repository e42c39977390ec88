/** The recorder's rolling request budget, and why the sliding-window proof never catches it overspending. */
module RequestBudget {
  import opened Wrappers
  import opened RateWindow

  datatype Window = Window(capacity: nat, seconds: real)

  datatype Request = Request(key: Key, cost: int)

  datatype BudgetError = UnknownWindow | CostDoesNotFit

  type Books = map<Key, seq<Entry>>

  // ---------------------------------------------------------------- reference definitions

  /** Cost admitted that still counts at time `t`. */
  function LiveCost(entries: seq<Entry>, seconds: real, t: real): nat {
    if entries == [] then 0
    else
      var n := |entries| - 1;
      LiveCost(entries[..n], seconds, t) + if entries[n].at + seconds > t then entries[n].cost else 0
  }

  ghost predicate Fits(entries: seq<Entry>, w: Window, cost: int, t: real) {
    LiveCost(entries, w.seconds, t) + cost <= w.capacity
  }

  /** Every charge of the request has a window that could ever hold it. */
  predicate Chargeable(windows: map<Key, Window>, request: seq<Request>) {
    forall c :: c in request ==> c.key in windows && 0 < c.cost <= windows[c.key].capacity
  }

  function Blocked(blocked: map<bool, real>, usdm: bool): real {
    if usdm in blocked then blocked[usdm] else 0.0
  }

  ghost predicate Ready(windows: map<Key, Window>, admitted: Books, blocked: map<bool, real>, c: Request, t: real)
    requires c.key in windows && c.key in admitted
  {
    Blocked(blocked, c.key.usdm) <= t && Fits(admitted[c.key], windows[c.key], c.cost, t)
  }

  /** Nothing stands in the way of the whole request at time `t`. */
  ghost predicate AllReady(windows: map<Key, Window>, admitted: Books, blocked: map<bool, real>, request: seq<Request>,
                           t: real)
    requires Chargeable(windows, request) && windows.Keys == admitted.Keys
  {
    forall c :: c in request ==> Ready(windows, admitted, blocked, c, t)
  }

  predicate DistinctKeys(request: seq<Request>) {
    forall i, j :: 0 <= i < j < |request| ==> request[i].key != request[j].key
  }

  /** The books after all charges of a request have been entered at time `t`. */
  function Enter(books: Books, request: seq<Request>, t: real): Books
    requires forall c :: c in request ==> c.key in books && c.cost >= 0
  {
    map k | k in books :: books[k] + ChargesTo(request, k, t)
  }

  function ChargesTo(request: seq<Request>, key: Key, t: real): seq<Entry>
    requires forall c :: c in request ==> c.cost >= 0
  {
    if request == [] then []
    else
      var n := |request| - 1;
      ChargesTo(request[..n], key, t) + if request[n].key == key then [Entry(t, request[n].cost)] else []
  }

  // ---------------------------------------------------------------- the deque of one window

  ghost predicate Oldest(entries: seq<Entry>) {
    forall i, j :: 0 <= i < j < |entries| ==> entries[i].at <= entries[j].at
  }

  ghost predicate NoLaterThan(entries: seq<Entry>, t: real) {
    forall i :: 0 <= i < |entries| ==> entries[i].at <= t
  }

  /** The deque holds the newest admissions; whatever it has dropped was out of the window by `now`. */
  ghost predicate Holds(admitted: seq<Entry>, deque: seq<Entry>, seconds: real, now: real) {
    && |deque| <= |admitted|
    && deque == admitted[|admitted| - |deque|..]
    && Gone(admitted, |admitted| - |deque|, seconds, now)
  }

  ghost predicate Gone(entries: seq<Entry>, k: nat, seconds: real, now: real)
    requires k <= |entries|
  {
    forall i :: 0 <= i < k ==> entries[i].at + seconds <= now
  }

  lemma {:induction false} LiveCostSplits(a: seq<Entry>, b: seq<Entry>, seconds: real, t: real)
    ensures LiveCost(a + b, seconds, t) == LiveCost(a, seconds, t) + LiveCost(b, seconds, t)
  {
    if b == [] {
      assert a + b == a;
    } else {
      assert (a + b)[..|a + b| - 1] == a + b[..|b| - 1];
      LiveCostSplits(a, b[..|b| - 1], seconds, t);
    }
  }

  lemma {:induction false} LiveCostBounds(entries: seq<Entry>, seconds: real, t: real)
    ensures LiveCost(entries, seconds, t) <= Sum(entries)
    ensures (forall i :: 0 <= i < |entries| ==> entries[i].at + seconds > t) ==>
              LiveCost(entries, seconds, t) == Sum(entries)
    ensures Gone(entries, |entries|, seconds, t) ==> LiveCost(entries, seconds, t) == 0
  {
    if entries != [] {
      LiveCostBounds(entries[..|entries| - 1], seconds, t);
    }
  }

  /** What has been dropped does not count any more, now or later. */
  lemma DequeCounts(admitted: seq<Entry>, deque: seq<Entry>, seconds: real, now: real, t: real)
    requires Holds(admitted, deque, seconds, now) && now <= t
    ensures LiveCost(admitted, seconds, t) == LiveCost(deque, seconds, t)
  {
    var gone := admitted[..|admitted| - |deque|];
    GoneFor(admitted, |gone|, seconds, now, t);
    assert admitted == gone + deque;
    hide Gone, LiveCost;
    LiveCostSplits(gone, deque, seconds, t);
    LiveCostBounds(gone, seconds, t);
  }

  lemma GoneFor(entries: seq<Entry>, k: nat, seconds: real, now: real, later: real)
    requires k <= |entries| && Gone(entries, k, seconds, now) && now <= later
    ensures Gone(entries, k, seconds, later) && Gone(entries[..k], k, seconds, later)
  {
  }

  lemma HoldsLess(admitted: seq<Entry>, deque: seq<Entry>, seconds: real, now: real)
    requires Holds(admitted, deque, seconds, now) && deque != [] && deque[0].at + seconds <= now
    ensures Holds(admitted, deque[1..], seconds, now)
  {
    OneMoreOut(admitted, |admitted| - |deque|, seconds, now);
    hide Gone;
    assert deque[1..] == admitted[|admitted| - |deque| + 1..];
  }

  lemma OneMoreOut(entries: seq<Entry>, k: nat, seconds: real, now: real)
    requires k < |entries| && Gone(entries, k, seconds, now)
    ensures entries[k].at + seconds <= now ==> Gone(entries, k + 1, seconds, now)
  {
  }

  lemma HoldsLater(admitted: seq<Entry>, deque: seq<Entry>, seconds: real, now: real, later: real)
    requires Holds(admitted, deque, seconds, now) && now <= later
    ensures Holds(admitted, deque, seconds, later)
  {
    GoneFor(admitted, |admitted| - |deque|, seconds, now, later);
    hide Gone;
  }

  lemma HoldsMore(admitted: seq<Entry>, deque: seq<Entry>, seconds: real, now: real, more: seq<Entry>)
    requires Holds(admitted, deque, seconds, now)
    ensures Holds(admitted + more, deque + more, seconds, now)
  {
    var k := |admitted| - |deque|;
    GoneStill(admitted, k, more, seconds, now);
    hide Gone;
    assert (admitted + more)[k..] == deque + more;
  }

  lemma GoneStill(entries: seq<Entry>, k: nat, more: seq<Entry>, seconds: real, now: real)
    requires k <= |entries| && Gone(entries, k, seconds, now)
    ensures Gone(entries + more, k, seconds, now)
  {
  }

  lemma HoldsInOrder(admitted: seq<Entry>, deque: seq<Entry>, seconds: real, now: real)
    requires Holds(admitted, deque, seconds, now) && Oldest(admitted)
    ensures Oldest(deque)
  {
    hide Gone;
    SuffixInOrder(admitted, |admitted| - |deque|);
  }

  lemma SuffixInOrder(entries: seq<Entry>, k: nat)
    requires k <= |entries| && Oldest(entries)
    ensures Oldest(entries[k..])
  {
  }

  /** Drops what has left the window. */
  method Prune(deque: seq<Entry>, seconds: real, now: real, ghost admitted: seq<Entry>) returns (live: seq<Entry>)
    requires Holds(admitted, deque, seconds, now) && Oldest(admitted)
    ensures Holds(admitted, live, seconds, now) && Oldest(live)
    ensures forall i :: 0 <= i < |live| ==> live[i].at + seconds > now
  {
    hide Holds, Oldest;
    live := deque;
    while live != [] && live[0].at + seconds <= now
      invariant Holds(admitted, live, seconds, now)
      decreases |live|
    {
      HoldsLess(admitted, live, seconds, now);
      live := live[1..];
    }
    HoldsInOrder(admitted, live, seconds, now);
    LiveFromFront(live, seconds, now);
  }

  lemma LiveFromFront(live: seq<Entry>, seconds: real, now: real)
    requires Oldest(live) && (live == [] || live[0].at + seconds > now)
    ensures forall i :: 0 <= i < |live| ==> live[i].at + seconds > now
  {
  }

  /** How long until a charge fits beside the live admissions, to the instant. */
  method WaitFor(live: seq<Entry>, cost: int, w: Window, now: real) returns (wait: real)
    requires Oldest(live) && 0 < cost <= w.capacity
    requires forall i :: 0 <= i < |live| ==> live[i].at + w.seconds > now
    ensures wait >= 0.0
    ensures forall t: real :: t >= now ==> (Fits(live, w, cost, t) <==> t >= now + wait)
  {
    hide Oldest, Sum;
    wait := 0.0;
    var excess := Sum(live) + cost - w.capacity;
    var i := 0;
    AllLive(live, cost, w, now);
    while i < |live| && excess > 0
      invariant 0 <= i <= |live| && wait >= 0.0
      invariant excess == Sum(live[i..]) + cost - w.capacity
      invariant forall t: real :: t >= now && t < now + wait ==> !Fits(live, w, cost, t)
      invariant forall t: real :: t >= now + wait ==> LiveCost(live, w.seconds, t) <= Sum(live[i..])
    {
      ghost var before := wait;
      var e := live[i];
      wait := if e.at + w.seconds - now > wait then e.at + w.seconds - now else wait;
      OneMoreGone(live, cost, w, now, i, before, wait);
      excess := excess - e.cost;
      i := i + 1;
    }
    if i == |live| {
      assert live[i..] == [];
      NothingLeft();
    }
    forall t: real | t >= now ensures Fits(live, w, cost, t) <==> t >= now + wait {
      assert t >= now + wait ==> LiveCost(live, w.seconds, t) <= Sum(live[i..]);
    }
  }

  lemma NothingLeft()
    ensures Sum([]) == 0
  {
  }

  lemma AllLive(live: seq<Entry>, cost: int, w: Window, now: real)
    ensures live[0..] == live
    ensures forall t: real :: LiveCost(live, w.seconds, t) <= Sum(live)
  {
    forall t: real ensures LiveCost(live, w.seconds, t) <= Sum(live) {
      LiveCostBounds(live, w.seconds, t);
    }
  }

  /** As long as the next oldest admission is live so are all after it, and together they leave no room. */
  lemma OneMoreGone(live: seq<Entry>, cost: int, w: Window, now: real, i: nat, before: real, wait: real)
    requires Oldest(live) && i < |live| && Sum(live[i..]) + cost > w.capacity
    requires wait == (if live[i].at + w.seconds - now > before then live[i].at + w.seconds - now else before)
    requires forall t: real :: t >= now && t < now + before ==> !Fits(live, w, cost, t)
    ensures Sum(live[i..]) == live[i].cost + Sum(live[i + 1..])
    ensures forall t: real :: t >= now && t < now + wait ==> !Fits(live, w, cost, t)
    ensures forall t: real :: t >= now + wait ==> LiveCost(live, w.seconds, t) <= Sum(live[i + 1..])
  {
    assert live[i..] == [live[i]] + live[i + 1..];
    SumFromFront(live[i], live[i + 1..]);
    forall t: real | t >= now && t < now + wait ensures !Fits(live, w, cost, t) {
      if t >= now + before {
        TailIsLive(live, i, w.seconds, t);
      }
    }
    forall t: real | t >= now + wait ensures LiveCost(live, w.seconds, t) <= Sum(live[i + 1..]) {
      HeadIsGone(live, i, w.seconds, t);
    }
  }

  lemma TailIsLive(live: seq<Entry>, i: nat, seconds: real, t: real)
    requires Oldest(live) && i < |live| && live[i].at + seconds > t
    ensures LiveCost(live, seconds, t) >= Sum(live[i..])
  {
    var tail := live[i..];
    assert live == live[..i] + tail;
    LiveCostSplits(live[..i], tail, seconds, t);
    forall j | 0 <= j < |tail| ensures tail[j].at + seconds > t {
      assert tail[j] == live[i + j];
    }
    LiveCostBounds(tail, seconds, t);
  }

  lemma HeadIsGone(live: seq<Entry>, i: nat, seconds: real, t: real)
    requires Oldest(live) && i < |live| && live[i].at + seconds <= t
    ensures LiveCost(live, seconds, t) <= Sum(live[i + 1..])
  {
    var head, tail := live[..i + 1], live[i + 1..];
    assert live == head + tail;
    LiveCostSplits(head, tail, seconds, t);
    assert Gone(head, |head|, seconds, t);
    LiveCostBounds(head, seconds, t);
    LiveCostBounds(tail, seconds, t);
  }

  // ---------------------------------------------------------------- admission keeps every window

  /** A window that reaches up to `t` or beyond costs no more than what is live at any earlier moment. */
  lemma {:induction false} WindowIsLive(entries: seq<Entry>, lo: real, seconds: real, checked: real, t: real)
    requires checked <= t < lo + seconds
    ensures WindowCost(entries, lo, seconds) <= LiveCost(entries, seconds, checked)
  {
    if entries != [] {
      WindowIsLive(entries[..|entries| - 1], lo, seconds, checked, t);
    }
  }

  /**
   * A charge that fits among what is live keeps every window within its capacity, even when it is entered
   * a little later than it was checked.
   */
  lemma AdmissionFits(entries: seq<Entry>, w: Window, cost: nat, checked: real, t: real)
    requires AllWithin(entries, w.seconds, w.capacity)
    requires Fits(entries, w, cost, checked) && checked <= t
    ensures AllWithin(entries + [Entry(t, cost)], w.seconds, w.capacity)
  {
    var more := entries + [Entry(t, cost)];
    assert more[..|entries|] == entries;
    forall lo: real ensures WindowCost(more, lo, w.seconds) <= w.capacity {
      if InWindow(Entry(t, cost), lo, w.seconds) {
        WindowIsLive(entries, lo, w.seconds, checked, t);
      }
    }
  }

  /** All that is known of one window. */
  ghost predicate Sound(admitted: seq<Entry>, deque: seq<Entry>, w: Window, now: real) {
    && Oldest(admitted) && NoLaterThan(admitted, now)
    && Holds(admitted, deque, w.seconds, now)
    && AllWithin(admitted, w.seconds, w.capacity)
  }

  lemma SoundLater(admitted: seq<Entry>, deque: seq<Entry>, w: Window, now: real, later: real)
    requires Sound(admitted, deque, w, now) && now <= later
    ensures Sound(admitted, deque, w, later)
  {
    hide AllWithin, Oldest, Holds;
    HoldsLater(admitted, deque, w.seconds, now, later);
  }

  lemma SoundGrows(admitted: seq<Entry>, deque: seq<Entry>, w: Window, cost: nat, checked: real, t: real)
    requires Sound(admitted, deque, w, checked) && Fits(admitted, w, cost, checked) && checked <= t
    ensures Sound(admitted + [Entry(t, cost)], deque + [Entry(t, cost)], w, t)
  {
    hide AllWithin, Fits, Holds;
    AdmissionFits(admitted, w, cost, checked, t);
    HoldsLater(admitted, deque, w.seconds, checked, t);
    HoldsMore(admitted, deque, w.seconds, t, [Entry(t, cost)]);
  }

  lemma NothingAdmitted(w: Window, now: real)
    ensures Sound([], [], w, now)
  {
  }

  // ---------------------------------------------------------------- the budget

  method EnterEach(books: Books, request: seq<Request>, t: real) returns (r: Books)
    requires forall c :: c in request ==> c.key in books && c.cost >= 0
    ensures r == Enter(books, request, t)
  {
    hide ChargesTo;
    r := books;
    NoChargesYet(t);
    var i := 0;
    while i < |request|
      invariant 0 <= i <= |request| && r.Keys == books.Keys
      invariant forall k :: k in books ==> r[k] == books[k] + ChargesTo(request[..i], k, t)
    {
      MoreCharges(request, i, t);
      r := r[request[i].key := r[request[i].key] + [Entry(t, request[i].cost)]];
      i := i + 1;
    }
    assert request[..i] == request;
  }

  /** One call on the budget, with its readings of the clock. */
  datatype Call =
    | AskDelay(request: seq<Request>, at: real)
    | TakeNow(request: seq<Request>, checkedAt: real, enteredAt: real)
    | BlockMarket(usdm: bool, seconds: real, at: real)
  {
    function First(): real {
      if TakeNow? then checkedAt else at
    }

    function Last(): real {
      if TakeNow? then enteredAt else at
    }
  }

  /** Latest reading before call `i`. */
  function Latest(from: real, calls: seq<Call>, i: nat): real
    requires i <= |calls|
  {
    if i == 0 then from else calls[i - 1].Last()
  }

  /** The clock never runs back, and no request charges one key twice. */
  ghost predicate InOrder(from: real, calls: seq<Call>) {
    forall i :: 0 <= i < |calls| ==>
      && Latest(from, calls, i) <= calls[i].First() <= calls[i].Last()
      && (calls[i].TakeNow? ==> DistinctKeys(calls[i].request))
  }

  lemma NextReading(from: real, calls: seq<Call>, i: nat)
    requires InOrder(from, calls) && i < |calls|
    ensures Latest(from, calls, i) <= calls[i].First() <= calls[i].Last()
    ensures Latest(from, calls, i + 1) == calls[i].Last()
    ensures calls[i].TakeNow? ==> DistinctKeys(calls[i].request)
  {
  }

  /** What a run has charged and blocked so far. */
  datatype Account = Account(books: Books, blocked: map<bool, real>)

  ghost predicate Admits(windows: map<Key, Window>, a: Account, request: seq<Request>, t: real) {
    Chargeable(windows, request) && windows.Keys == a.books.Keys && AllReady(windows, a.books, a.blocked, request, t)
  }

  function Blocking(blocked: map<bool, real>, usdm: bool, until: real): map<bool, real> {
    blocked[usdm := if until > Blocked(blocked, usdm) then until else Blocked(blocked, usdm)]
  }

  /** The rule for one call: only an admitted request is charged, and whole; only a refusal by the provider blocks. */
  ghost function After(windows: map<Key, Window>, a: Account, call: Call): Account {
    match call
    case AskDelay(_, _) => a
    case TakeNow(request, checkedAt, enteredAt) =>
      if Admits(windows, a, request, checkedAt) then a.(books := Enter(a.books, request, enteredAt)) else a
    case BlockMarket(usdm, seconds, at) => a.(blocked := Blocking(a.blocked, usdm, at + seconds))
  }

  ghost function AfterAll(windows: map<Key, Window>, a: Account, calls: seq<Call>): Account {
    if calls == [] then a
    else After(windows, AfterAll(windows, a, calls[..|calls| - 1]), calls[|calls| - 1])
  }

  lemma NoCalls(windows: map<Key, Window>, a: Account, calls: seq<Call>)
    ensures AfterAll(windows, a, calls[..0]) == a
  {
  }

  lemma OneMoreCall(windows: map<Key, Window>, a: Account, calls: seq<Call>, i: nat)
    requires i < |calls|
    ensures AfterAll(windows, a, calls[..i + 1]) == After(windows, AfterAll(windows, a, calls[..i]), calls[i])
  {
    assert calls[..i + 1][..i] == calls[..i];
  }

  /** The answer is the exact time until the request is admissible, and an error when no time would do. */
  ghost predicate Exact(windows: map<Key, Window>, a: Account, request: seq<Request>, at: real,
                        r: Result<real, BudgetError>)
  {
    && (r.Success? <==> Chargeable(windows, request))
    && (r.Success? ==>
          && r.value >= 0.0
          && (forall t: real :: t >= at ==> (Admits(windows, a, request, t) <==> t >= at + r.value)))
  }

  lemma ZeroMeansAdmitted(windows: map<Key, Window>, a: Account, request: seq<Request>, at: real,
                          r: Result<real, BudgetError>)
    requires Exact(windows, a, request, at, r) && windows.Keys == a.books.Keys
    ensures r == Success(0.0) <==> Admits(windows, a, request, at)
  {
    hide AllReady;
    assert Chargeable(windows, request) && r.Success? ==> (Admits(windows, a, request, at) <==> at >= at + r.value);
  }

  /** What call `i` of a run answers, from everything charged and blocked before it. */
  ghost predicate Told(windows: map<Key, Window>, a: Account, calls: seq<Call>, i: nat, r: Result<real, BudgetError>)
    requires i < |calls|
  {
    !calls[i].BlockMarket? ==>
      Exact(windows, AfterAll(windows, a, calls[..i]), calls[i].request, calls[i].First(), r)
  }

  /** Nothing charged and nothing blocked: any chargeable request goes through at once, from second zero on. */
  lemma FreshAccountAdmits(windows: map<Key, Window>, request: seq<Request>, t: real)
    requires Chargeable(windows, request) && DistinctKeys(request) && t >= 0.0
    ensures Admits(windows, Account(map k | k in windows :: [], map[]), request, t)
  {
  }

  lemma {:induction false} EntryStays(windows: map<Key, Window>, a: Account, calls: seq<Call>, i: nat, j: nat, k: Key,
                                      e: Entry)
    requires i <= j <= |calls|
    requires k in AfterAll(windows, a, calls[..i]).books && e in AfterAll(windows, a, calls[..i]).books[k]
    ensures k in AfterAll(windows, a, calls[..j]).books && e in AfterAll(windows, a, calls[..j]).books[k]
  {
    if i < j {
      EntryStays(windows, a, calls, i, j - 1, k, e);
      hide Admits, ChargesTo;
      OneMoreCall(windows, a, calls, j - 1);
    }
  }

  lemma {:induction false} LiveCostOfOne(entries: seq<Entry>, e: Entry, seconds: real, t: real)
    requires e in entries && t < e.at + seconds
    ensures LiveCost(entries, seconds, t) >= e.cost
  {
    var n := |entries| - 1;
    if e in entries[..n] {
      LiveCostOfOne(entries[..n], e, seconds, t);
    }
  }

  /**
   * What a take was granted stays spent: until its window has passed, no request that needs more than the rest of
   * the window is granted on the same key, whatever happens in between.
   */
  lemma GrantedCostStaysSpent(windows: map<Key, Window>, a: Account, calls: seq<Call>, i: nat, j: nat, c: Request,
                              d: Request)
    requires i < j < |calls| && calls[i].TakeNow? && calls[j].TakeNow?
    requires DistinctKeys(calls[i].request) && c in calls[i].request && d in calls[j].request && d.key == c.key
    requires Admits(windows, AfterAll(windows, a, calls[..i]), calls[i].request, calls[i].checkedAt)
    requires calls[j].checkedAt < calls[i].enteredAt + windows[c.key].seconds
    requires c.cost + d.cost > windows[c.key].capacity
    ensures !Admits(windows, AfterAll(windows, a, calls[..j]), calls[j].request, calls[j].checkedAt)
  {
    var e := Entry(calls[i].enteredAt, c.cost);
    OneMoreCall(windows, a, calls, i);
    OneCharge(calls[i].request, c.key, calls[i].enteredAt);
    assert e in AfterAll(windows, a, calls[..i + 1]).books[c.key];
    EntryStays(windows, a, calls, i + 1, j, c.key, e);
    var books := AfterAll(windows, a, calls[..j]).books;
    hide AfterAll;
    LiveCostOfOne(books[c.key], e, windows[c.key].seconds, calls[j].checkedAt);
    assert !Fits(books[c.key], windows[c.key], d.cost, calls[j].checkedAt);
  }

  lemma AllSoundIsWithin(windows: map<Key, Window>, admitted: Books, events: Books, now: real)
    requires windows.Keys == admitted.Keys == events.Keys
    requires forall k :: k in windows ==> Sound(admitted[k], events[k], windows[k], now)
    ensures forall k :: k in windows ==> AllWithin(admitted[k], windows[k].seconds, windows[k].capacity)
  {
  }

  class Budget {
    const windows: map<Key, Window>
    var blockedUntil: map<bool, real>
    var events: Books
    ghost var admitted: Books  // every charge ever entered
    ghost var now: real        // latest clock reading

    ghost predicate Valid()
      reads this
    {
      && windows.Keys == events.Keys == admitted.Keys
      && (forall k :: k in windows ==> Sound(admitted[k], events[k], windows[k], now))
    }

    ghost function Spent(): Account
      reads this
    {
      Account(admitted, blockedUntil)
    }

    constructor (windows: map<Key, Window>)
      ensures Valid() && this.windows == windows && blockedUntil == map[] && now == 0.0
      ensures forall k :: k in windows ==> admitted[k] == []
    {
      this.windows, blockedUntil, now := windows, map[], 0.0;
      events := map k | k in windows :: [];
      admitted := map k | k in windows :: [];
      new;
      forall k | k in windows ensures Sound(admitted[k], events[k], windows[k], now) {
        NothingAdmitted(windows[k], now);
      }
    }

    /**
     * The delay is exact: the request could be admitted at a later time if and only if that time is at least
     * this far away. Expired admissions are dropped on the way, which changes no later answer.
     */
    method Delay(request: seq<Request>, at: real) returns (r: Result<real, BudgetError>)
      requires Valid() && now <= at
      modifies `events, `now
      ensures Valid() && now == at && admitted == old(admitted)
      ensures Exact(windows, Spent(), request, at, r)
    {
      hide Sound, Fits;
      ghost var books, blocked := admitted, blockedUntil;
      forall k | k in windows ensures Sound(admitted[k], events[k], windows[k], at) {
        SoundLater(admitted[k], events[k], windows[k], now, at);
      }
      now := at;
      var delay := 0.0;
      var i := 0;
      while i < |request|
        invariant 0 <= i <= |request| && Valid() && now == at && admitted == books && delay >= 0.0
        invariant Chargeable(windows, request[..i])
        invariant forall t: real :: t >= at ==>
                    (AllReady(windows, books, blocked, request[..i], t) <==> t >= at + delay)
      {
        var c := request[i];
        if c.key !in windows {
          return Failure(UnknownWindow);
        }
        if !(0 < c.cost <= windows[c.key].capacity) {
          return Failure(CostDoesNotFit);
        }
        var rest := Blocked(blockedUntil, c.key.usdm) - at;
        var wait := WaitOne(c, at);
        ghost var before := delay;
        delay := if rest > delay then rest else delay;
        delay := if wait > delay then wait else delay;
        OneMoreReady(windows, books, blocked, request[..i], c, at, before, wait, delay);
        assert request[..i + 1] == request[..i] + [c];
        i := i + 1;
      }
      assert request[..i] == request;
      r := Success(delay);
    }

    /** One charge of the request: prunes its deque and finds how long it must wait. */
    method WaitOne(c: Request, at: real) returns (wait: real)
      requires Valid() && now == at
      requires c.key in windows && 0 < c.cost <= windows[c.key].capacity
      modifies `events
      ensures Valid() && wait >= 0.0
      ensures forall t: real :: t >= at ==> (Fits(admitted[c.key], windows[c.key], c.cost, t) <==> t >= at + wait)
    {
      hide AllWithin, Oldest, NoLaterThan, Holds;
      var w := windows[c.key];
      ghost var mine := admitted[c.key];
      var live := Prune(events[c.key], w.seconds, at, mine);
      events := events[c.key := live];
      wait := WaitFor(live, c.cost, w, at);
      forall t: real | t >= at ensures Fits(mine, w, c.cost, t) <==> t >= at + wait {
        DequeCounts(mine, live, w.seconds, at, t);
        assert Fits(live, w, c.cost, t) <==> t >= at + wait;
      }
    }

    /** Enters the whole request or none of it; the clock is read once to check and again to enter. */
    method Take(request: seq<Request>, checkedAt: real, enteredAt: real) returns (r: Result<real, BudgetError>)
      requires Valid() && now <= checkedAt <= enteredAt && DistinctKeys(request)
      modifies `events, `now, `admitted
      ensures Valid()
      ensures Exact(windows, old(Spent()), request, checkedAt, r)
      ensures r == Success(0.0) ==> admitted == Enter(old(admitted), request, enteredAt)
      ensures r == Success(0.0) ==>
                && (forall c :: c in request ==>
                      c.key in admitted && admitted[c.key] == old(admitted)[c.key] + [Entry(enteredAt, c.cost)])
                && (forall k :: k in admitted && (forall c :: c in request ==> c.key != k) ==>
                      admitted[k] == old(admitted)[k])
      ensures r != Success(0.0) ==> admitted == old(admitted)
      ensures now == if r.Success? && r.value == 0.0 then enteredAt else checkedAt
    {
      hide Sound, AllReady, Enter, DistinctKeys, Fits, ChargesTo;
      r := Delay(request, checkedAt);
      ZeroMeansAdmitted(windows, Spent(), request, checkedAt, r);
      if r.Failure? || r.value > 0.0 {
        return;
      }
      assert forall c :: c in request ==> c.key in windows && c.cost >= 0;
      EnterAllSoundly(windows, admitted, events, blockedUntil, request, checkedAt, enteredAt);
      EachIsEntered(admitted, request, enteredAt);
      events := EnterEach(events, request, enteredAt);
      admitted := Enter(admitted, request, enteredAt);
      now := enteredAt;
    }

    /**
     * Any calls with ordered readings, refusals and retries included: each take is decided, and the account kept,
     * by the rule on everything charged so far, and no window is ever overspent.
     */
    method Run(calls: seq<Call>) returns (delays: seq<Result<real, BudgetError>>)
      requires Valid() && InOrder(now, calls)
      modifies `events, `now, `admitted, `blockedUntil
      ensures Valid() && |delays| == |calls|
      ensures Spent() == AfterAll(windows, old(Spent()), calls)
      ensures forall i :: 0 <= i < |calls| ==> Told(windows, old(Spent()), calls, i, delays[i])
      ensures forall k :: k in windows ==>
                k in admitted && AllWithin(admitted[k], windows[k].seconds, windows[k].capacity)
      ensures now <= Latest(old(now), calls, |calls|)
    {
      hide Sound, AllReady, Enter, Fits, AllWithin, InOrder, AfterAll, Exact;
      delays := [];
      ghost var from, start := now, Spent();
      NoCalls(windows, start, calls);
      var i := 0;
      while i < |calls|
        invariant 0 <= i <= |calls| && |delays| == i && Valid()
        invariant now <= Latest(from, calls, i)
        invariant Spent() == AfterAll(windows, start, calls[..i])
        invariant forall j :: 0 <= j < i ==> Told(windows, start, calls, j, delays[j])
      {
        OneMoreCall(windows, start, calls, i);
        NextReading(from, calls, i);
        var r: Result<real, BudgetError> := Success(0.0);
        match calls[i] {
          case AskDelay(request, at) => r := Delay(request, at);
          case TakeNow(request, checkedAt, enteredAt) =>
            ghost var before := Spent();
            r := Take(request, checkedAt, enteredAt);
            ZeroMeansAdmitted(windows, before, request, checkedAt, r);
          case BlockMarket(usdm, seconds, at) => Block(usdm, seconds, at);
        }
        delays := delays + [r];
        i := i + 1;
      }
      assert calls[..i] == calls;
      AllSoundIsWithin(windows, admitted, events, now);
    }

    /** A provider's refusal blocks its market; a later, shorter one never shortens the block. */
    method Block(usdm: bool, seconds: real, at: real)
      modifies `blockedUntil
      ensures Blocked(blockedUntil, usdm) >= at + seconds
      ensures Blocked(blockedUntil, usdm) >= Blocked(old(blockedUntil), usdm)
      ensures
        || Blocked(blockedUntil, usdm) == at + seconds
        || Blocked(blockedUntil, usdm) == Blocked(old(blockedUntil), usdm)
      ensures Blocked(blockedUntil, !usdm) == Blocked(old(blockedUntil), !usdm)
      ensures blockedUntil == Blocking(old(blockedUntil), usdm, at + seconds)
    {
      var until := Blocked(blockedUntil, usdm);
      blockedUntil := blockedUntil[usdm := if at + seconds > until then at + seconds else until];
    }
  }

  /** One charge more: the request is ready once both the charges before it and the charge itself are. */
  lemma OneMoreReady(windows: map<Key, Window>, books: Books, blocked: map<bool, real>, before: seq<Request>,
                     c: Request, at: real, delay: real, wait: real, longer: real)
    requires windows.Keys == books.Keys && Chargeable(windows, before)
    requires c.key in windows && 0 < c.cost <= windows[c.key].capacity
    requires forall t: real :: t >= at ==> (AllReady(windows, books, blocked, before, t) <==> t >= at + delay)
    requires forall t: real :: t >= at ==> (Fits(books[c.key], windows[c.key], c.cost, t) <==> t >= at + wait)
    requires delay >= 0.0 && wait >= 0.0
    requires
      var rest := Blocked(blocked, c.key.usdm) - at;
      longer == (var d := if rest > delay then rest else delay; if wait > d then wait else d)
    ensures Chargeable(windows, before + [c])
    ensures forall t: real :: t >= at ==> (AllReady(windows, books, blocked, before + [c], t) <==> t >= at + longer)
  {
    hide Fits, Blocked;
    var request := before + [c];
    forall t: real | t >= at
      ensures AllReady(windows, books, blocked, request, t) <==> t >= at + longer
    {
      assert AllReady(windows, books, blocked, request, t) <==>
             AllReady(windows, books, blocked, before, t) && Ready(windows, books, blocked, c, t);
      assert Fits(books[c.key], windows[c.key], c.cost, t) <==> t >= at + wait;
    }
  }

  /** A key is charged at most once by a request, and that charge fits. */
  lemma EntersSoundly(windows: map<Key, Window>, books: Books, live: Books, blocked: map<bool, real>,
                      request: seq<Request>, k: Key, checked: real, t: real)
    requires windows.Keys == books.Keys == live.Keys && Chargeable(windows, request) && DistinctKeys(request)
    requires AllReady(windows, books, blocked, request, checked) && checked <= t
    requires k in windows && Sound(books[k], live[k], windows[k], checked)
    ensures Sound(books[k] + ChargesTo(request, k, t), live[k] + ChargesTo(request, k, t), windows[k], t)
  {
    hide Sound, Fits, Blocked;
    OneCharge(request, k, t);
    if i :| 0 <= i < |request| && request[i].key == k {
      assert request[i] in request;
      assert Ready(windows, books, blocked, request[i], checked);
      SoundGrows(books[k], live[k], windows[k], request[i].cost, checked, t);
    } else {
      assert books[k] + [] == books[k] && live[k] + [] == live[k];
      SoundLater(books[k], live[k], windows[k], checked, t);
    }
  }

  /** Entering a request charges each of its keys once and leaves the others alone. */
  lemma EachIsEntered(books: Books, request: seq<Request>, t: real)
    requires DistinctKeys(request) && forall c :: c in request ==> c.key in books && c.cost >= 0
    ensures forall c :: c in request ==> Enter(books, request, t)[c.key] == books[c.key] + [Entry(t, c.cost)]
    ensures forall k :: k in books && (forall c :: c in request ==> c.key != k) ==>
              Enter(books, request, t)[k] == books[k]
  {
    forall c | c in request ensures Enter(books, request, t)[c.key] == books[c.key] + [Entry(t, c.cost)] {
      OneCharge(request, c.key, t);
    }
    forall k | k in books && (forall c :: c in request ==> c.key != k) ensures Enter(books, request, t)[k] == books[k] {
      OneCharge(request, k, t);
      assert books[k] + [] == books[k];
    }
  }

  lemma EnterAllSoundly(windows: map<Key, Window>, books: Books, live: Books, blocked: map<bool, real>,
                        request: seq<Request>, checked: real, t: real)
    requires windows.Keys == books.Keys == live.Keys && Chargeable(windows, request) && DistinctKeys(request)
    requires AllReady(windows, books, blocked, request, checked) && checked <= t
    requires forall k :: k in windows ==> Sound(books[k], live[k], windows[k], checked)
    ensures
      var after, deques := Enter(books, request, t), Enter(live, request, t);
      && after.Keys == books.Keys && deques.Keys == live.Keys
      && (forall k :: k in windows ==> Sound(after[k], deques[k], windows[k], t))
  {
    hide Sound, AllReady, ChargesTo;
    forall k | k in windows
      ensures Sound(books[k] + ChargesTo(request, k, t), live[k] + ChargesTo(request, k, t), windows[k], t)
    {
      EntersSoundly(windows, books, live, blocked, request, k, checked, t);
    }
  }

  lemma NoChargesYet(t: real)
    ensures forall k :: ChargesTo([], k, t) == []
  {
  }

  lemma MoreCharges(request: seq<Request>, i: nat, t: real)
    requires i < |request| && forall c :: c in request ==> c.cost >= 0
    ensures forall k :: ChargesTo(request[..i + 1], k, t) ==
                        ChargesTo(request[..i], k, t) + if request[i].key == k then [Entry(t, request[i].cost)] else []
  {
    assert request[..i + 1][..i] == request[..i];
  }

  lemma {:induction false} OneCharge(request: seq<Request>, k: Key, t: real)
    requires DistinctKeys(request) && forall c :: c in request ==> c.cost >= 0
    ensures forall i :: 0 <= i < |request| && request[i].key == k ==>
              ChargesTo(request, k, t) == [Entry(t, request[i].cost)]
    ensures (forall i :: 0 <= i < |request| ==> request[i].key != k) ==> ChargesTo(request, k, t) == []
  {
    if request != [] {
      OneCharge(request[..|request| - 1], k, t);
    }
  }

  // ---------------------------------------------------------------- main result

  /** Whatever the run, the sliding-window check of a budget's own admissions cannot fail. */
  lemma NeverOverspends(budget: Budget, key: Key, peak: nat)
    requires budget.Valid() && key in budget.windows
    requires IsPeak(budget.admitted[key], budget.windows[key].seconds, peak)
    ensures peak <= budget.windows[key].capacity
  {
    assert Sound(budget.admitted[key], budget.events[key], budget.windows[key], budget.now);
    PeakDecides(budget.admitted[key], budget.windows[key].seconds, peak, budget.windows[key].capacity);
  }
}
