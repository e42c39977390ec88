/** Accounting of core-fault episodes: the lenient RecoveryObserver and the strict CoreRecovery. */
module Recovery {
  import opened Wrappers

  const RECOVERY_LIMIT_NS := 60_000_000_000
  const RECOVERY_POLL_NS := 5_000_000_000

  /** The parts of a monitoring row that recovery accounting reads. */
  datatype Observation = Observation(
    boottimeNs: int,
    utcNs: int,
    heartbeatAtUtcNs: int,
    coreReady: bool,
    gatePass: bool,
    reasons: seq<string>,
    strictPass: bool)

  /** One call of `check`: the row and, when the caller gives it, the clock reading of the call. */
  datatype Call = Call(row: Observation, checkedAt: Option<int>) {
    function CheckedNs(): int {
      if checkedAt.Some? then checkedAt.value else row.boottimeNs
    }
  }

  datatype ObserverError = UntrustedRecoveryClock

  datatype CoreError =
    | DeadlineExceeded
    | RequiresFreshAuxiliaryPass
    | PublicationPredatesFault
    | NotRecoveredAtDeadline
    | StrictEndpointFailed
    | TargetDuringDegradation

  const CORE_REASONS := {"core_not_ready", "heartbeat_not_fresh"}

  predicate Bad(row: Observation) {
    !row.coreReady || "core_not_ready" in row.reasons || "heartbeat_not_fresh" in row.reasons
  }

  /** A row is good when the core is ready and nothing but the auxiliary streams is complained of. */
  lemma GoodMeans(row: Observation)
    ensures !Bad(row) <==> row.coreReady && forall i :: 0 <= i < |row.reasons| ==> row.reasons[i] !in CORE_REASONS
  {
  }

  // ---------------------------------------------------------------- reference definitions
  // What an episode is, said on the whole history and without any running state.

  ghost predicate Faulty(calls: seq<Call>, i: int)
    requires i < |calls|
  {
    0 <= i && Bad(calls[i].row)
  }

  function Time(calls: seq<Call>, i: nat): int
    requires i < |calls|
  {
    calls[i].row.boottimeNs
  }

  /** First index of the maximal run of bad rows that contains `i`. */
  function RunStart(calls: seq<Call>, i: nat): (s: nat)
    requires i < |calls| && Bad(calls[i].row)
    ensures s <= i
    ensures forall k :: s <= k <= i ==> Bad(calls[k].row)
    ensures s > 0 ==> !Bad(calls[s - 1].row)
  {
    if i > 0 && Bad(calls[i - 1].row) then RunStart(calls, i - 1) else i
  }

  ghost predicate EpisodeStarts(calls: seq<Call>, i: int)
    requires i < |calls|
  {
    Faulty(calls, i) && !Faulty(calls, i - 1)
  }

  ghost predicate EpisodeCloses(calls: seq<Call>, i: int)
    requires i < |calls|
  {
    0 <= i && !Faulty(calls, i) && Faulty(calls, i - 1)
  }

  ghost function Starts(calls: seq<Call>): set<int> {
    set i | 0 <= i < |calls| && EpisodeStarts(calls, i)
  }

  ghost function Closes(calls: seq<Call>): set<int> {
    set i | 0 <= i < |calls| && EpisodeCloses(calls, i)
  }

  /** Sum, over the maximal bad runs closed before `n`, of first good time minus first bad time. */
  ghost function ClosedTime(calls: seq<Call>, n: nat): int
    requires n <= |calls|
  {
    if n == 0 then 0
    else ClosedTime(calls, n - 1) +
         if EpisodeCloses(calls, n - 1) then Time(calls, n - 1) - Time(calls, RunStart(calls, n - 2)) else 0
  }

  ghost predicate MonotoneClock(calls: seq<Call>) {
    && (forall i, j :: 0 <= i < j < |calls| ==> Time(calls, i) <= Time(calls, j))
    && (forall i :: 0 <= i < |calls| ==> Time(calls, i) <= calls[i].CheckedNs())
  }

  /** Running state of either accountant; `firstBadUtc` and `previous` are each used by one of them. */
  datatype Account = Account(firstBad: Option<int>, totalNs: int, episodes: nat)

  /** The account that a history deserves. */
  ghost function Deserved(calls: seq<Call>): Account {
    Account(
      if Faulty(calls, |calls| - 1) then Some(Time(calls, RunStart(calls, |calls| - 1))) else None,
      ClosedTime(calls, |calls|),
      |Starts(calls)|)
  }

  /** What CoreRecovery demands of row `i` of a history, again without running state. */
  ghost predicate CoreAdmits(calls: seq<Call>, i: nat)
    requires i < |calls|
  {
    if Faulty(calls, i) then
      var s := RunStart(calls, i);
      0 <= Time(calls, i) - Time(calls, s) <= calls[i].CheckedNs() - Time(calls, s) < RECOVERY_LIMIT_NS
    else if Faulty(calls, i - 1) then
      var s := RunStart(calls, i - 1);
      && 0 <= Time(calls, i) - Time(calls, s) <= calls[i].CheckedNs() - Time(calls, s) <= RECOVERY_LIMIT_NS
      && calls[i].row.gatePass
      && calls[i].row.heartbeatAtUtcNs >= calls[s].row.utcNs
    else true
  }

  // ---------------------------------------------------------------- growing a history by one call

  lemma {:induction false} RunStartGrows(calls: seq<Call>, c: Call, i: nat)
    requires i < |calls| && Bad(calls[i].row)
    ensures RunStart(calls + [c], i) == RunStart(calls, i)
  {
    if i > 0 && Bad(calls[i - 1].row) {
      RunStartGrows(calls, c, i - 1);
    }
  }

  lemma {:induction false} ClosedTimeGrows(calls: seq<Call>, c: Call, n: nat)
    requires n <= |calls|
    ensures ClosedTime(calls + [c], n) == ClosedTime(calls, n)
  {
    if n > 0 {
      ClosedTimeGrows(calls, c, n - 1);
      if EpisodeCloses(calls, n - 1) {
        RunStartGrows(calls, c, n - 2);
      }
    }
  }

  /** The deserved account can be kept up to date call by call. */
  lemma DeservedGrows(calls: seq<Call>, c: Call)
    ensures
      var before := Deserved(calls);
      Deserved(calls + [c]) ==
      if Bad(c.row) && before.firstBad.None? then
        Account(Some(c.row.boottimeNs), before.totalNs, before.episodes + 1)
      else if !Bad(c.row) && before.firstBad.Some? then
        Account(None, before.totalNs + c.row.boottimeNs - before.firstBad.value, before.episodes)
      else before
  {
    var grown, n := calls + [c], |calls|;
    ClosedTimeGrows(calls, c, n);
    if n > 0 && Bad(calls[n - 1].row) {
      RunStartGrows(calls, c, n - 1);
    }
    CountsGrow(calls, c);
  }

  lemma CountsGrow(calls: seq<Call>, c: Call)
    ensures Starts(calls + [c]) == Starts(calls) + if EpisodeStarts(calls + [c], |calls|) then {|calls|} else {}
    ensures Closes(calls + [c]) == Closes(calls) + if EpisodeCloses(calls + [c], |calls|) then {|calls|} else {}
  {
    var grown := calls + [c];
    forall i | 0 <= i < |calls|
      ensures EpisodeStarts(grown, i) == EpisodeStarts(calls, i) && EpisodeCloses(grown, i) == EpisodeCloses(calls, i)
    {
      assert grown[i] == calls[i] && (i > 0 ==> grown[i - 1] == calls[i - 1]);
    }
  }

  // ---------------------------------------------------------------- the lenient accountant

  /** The observer's fields are what its history deserves. */
  ghost predicate Observed(calls: seq<Call>, account: Account, previous: Option<int>) {
    && MonotoneClock(calls)
    && account == Deserved(calls)
    && previous == if calls == [] then None else Some(Time(calls, |calls| - 1))
  }

  lemma ObservedGrows(calls: seq<Call>, account: Account, previous: Option<int>, c: Call)
    requires Observed(calls, account, previous)
    ensures
      var now := c.row.boottimeNs;
      && (MonotoneClock(calls + [c]) <==> (previous.Some? ==> previous.value <= now) && now <= c.CheckedNs())
      && (MonotoneClock(calls + [c]) ==>
            Observed(calls + [c],
                     if Bad(c.row) && account.firstBad.None? then
                       Account(Some(now), account.totalNs, account.episodes + 1)
                     else if !Bad(c.row) && account.firstBad.Some? then
                       Account(None, account.totalNs + now - account.firstBad.value, account.episodes)
                     else account,
                     Some(now)))
  {
    ClockGrows(calls, c);
    DeservedGrows(calls, c);
    hide MonotoneClock, Deserved, Bad;
  }

  class RecoveryObserver {
    var firstBad: Option<int>
    var totalNs: int
    var episodes: nat
    var previousNs: Option<int>
    ghost var history: seq<Call>  // the calls that returned

    ghost predicate Valid()
      reads this
    {
      Observed(history, Account(firstBad, totalNs, episodes), previousNs)
    }

    constructor ()
      ensures Valid() && history == []
    {
      firstBad, totalNs, episodes, previousNs, history := None, 0, 0, None, [];
      new;
      assert Starts([]) == {};
    }

    method Check(row: Observation, checkedAt: Option<int>) returns (r: Result<bool, ObserverError>)
      requires Valid()
      modifies this
      ensures Valid()
      ensures r.Success? <==> MonotoneClock(old(history) + [Call(row, checkedAt)])
      ensures r.Success? ==> r.value == Bad(row) && history == old(history) + [Call(row, checkedAt)]
      ensures r.Failure? ==> unchanged(this)
    {
      var now := row.boottimeNs;
      ghost var c := Call(row, checkedAt);
      ObservedGrows(history, Account(firstBad, totalNs, episodes), previousNs, c);
      hide Observed, MonotoneClock, Bad;
      if (previousNs.Some? && now < previousNs.value) || (checkedAt.Some? && checkedAt.value < now) {
        return Failure(UntrustedRecoveryClock);
      }
      previousNs := Some(now);
      var bad := Bad(row);
      if bad && firstBad.None? {
        firstBad := Some(now);
        episodes := episodes + 1;
      } else if !bad && firstBad.Some? {
        totalNs := totalNs + (now - firstBad.value);
        firstBad := None;
      }
      history := history + [c];
      r := Success(bad);
    }

    /** True when the row both carries no core fault and passes the strict auxiliary gate. */
    method FinishEndpoint(row: Observation, checkedAt: Option<int>) returns (r: Result<bool, ObserverError>)
      requires Valid()
      modifies this
      ensures Valid()
      ensures r.Success? <==> MonotoneClock(old(history) + [Call(row, checkedAt)])
      ensures r.Success? ==>
                r.value == (!Bad(row) && row.strictPass) && history == old(history) + [Call(row, checkedAt)]
      ensures r.Failure? ==> unchanged(this)
    {
      var checked := Check(row, checkedAt);
      match checked
      case Failure(e) => r := Failure(e);
      case Success(bad) => r := Success(!bad && row.strictPass);
    }

    /** When the capture loop next looks at the recorder. */
    function NextCheckNs(nowNs: int, monitorDueNs: int, targetNs: int): (due: int)
      reads this
      ensures due <= monitorDueNs && due <= targetNs
      ensures firstBad.Some? ==> due <= nowNs + RECOVERY_POLL_NS
      ensures due == monitorDueNs || due == targetNs || (firstBad.Some? && due == nowNs + RECOVERY_POLL_NS)
    {
      ObserverDue(firstBad.Some?, nowNs, monitorDueNs, targetNs)
    }
  }

  function Min(a: int, b: int): int {
    if a <= b then a else b
  }

  function ObserverDue(open: bool, nowNs: int, monitorDueNs: int, targetNs: int): int {
    var due := Min(monitorDueNs, targetNs);
    if open then Min(due, nowNs + RECOVERY_POLL_NS) else due
  }

  /** Checking the newest row against its predecessor is enough to keep the whole clock in order. */
  lemma ClockGrows(calls: seq<Call>, c: Call)
    requires MonotoneClock(calls)
    ensures MonotoneClock(calls + [c]) <==>
            (calls != [] ==> Time(calls, |calls| - 1) <= c.row.boottimeNs) && c.row.boottimeNs <= c.CheckedNs()
  {
    var h, n := calls + [c], |calls|;
    assert h[n] == c && forall i :: 0 <= i < n ==> h[i] == calls[i];
    if n > 0 {
      assert Time(h, n - 1) == Time(calls, n - 1);
    }
    if (n > 0 ==> Time(calls, n - 1) <= c.row.boottimeNs) && c.row.boottimeNs <= c.CheckedNs() {
      forall i, j | 0 <= i < j < |h|
        ensures Time(h, i) <= Time(h, j)
      {
        if j == n && i < n - 1 {
          assert Time(calls, i) <= Time(calls, n - 1);
        } else if j < n {
          assert Time(calls, i) <= Time(calls, j);
        }
      }
      forall i | 0 <= i < |h| ensures Time(h, i) <= h[i].CheckedNs() {
        if i < n { assert Time(calls, i) <= calls[i].CheckedNs(); }
      }
    } else {
      assert Time(h, n) == c.row.boottimeNs;
    }
  }

  // ---------------------------------------------------------------- the strict accountant

  class CoreRecovery {
    var firstBad: Option<int>
    var firstBadUtcNs: int
    var totalNs: int
    var episodes: nat
    ghost var history: seq<Call>  // the calls that returned

    ghost predicate Valid()
      reads this
    {
      && (forall i :: 0 <= i < |history| ==> CoreAdmits(history, i))
      && Account(firstBad, totalNs, episodes) == Deserved(history)
      && firstBadUtcNs == if firstBad.Some? then history[RunStart(history, |history| - 1)].row.utcNs else 0
    }

    constructor ()
      ensures Valid() && history == []
    {
      firstBad, firstBadUtcNs, totalNs, episodes, history := None, 0, 0, 0, [];
      new;
      assert Starts([]) == {};
    }

    /** A raise leaves the object dirty when it happens on the first bad row, so `Valid` is promised on return only. */
    method Check(row: Observation, checkedAt: Option<int>) returns (r: Result<bool, CoreError>)
      requires Valid()
      modifies this
      ensures r.Success? <==> CoreAdmits(old(history) + [Call(row, checkedAt)], |old(history)|)
      ensures r.Success? ==> Valid() && r.value == Bad(row) && history == old(history) + [Call(row, checkedAt)]
      ensures r.Failure? ==> history == old(history)
      ensures r.Failure? && old(firstBad).Some? ==> unchanged(this)
    {
      var now := row.boottimeNs;
      var bad := Bad(row);
      ghost var c := Call(row, checkedAt);
      DeservedGrows(history, c);
      AdmitsGrows(history, c);
      AdmitsNext(history, c);
      hide CoreAdmits, RunStart, ClosedTime, Starts, Bad;
      if bad && firstBad.None? {
        firstBad := Some(now);
        firstBadUtcNs := row.utcNs;
        episodes := episodes + 1;
      }
      if firstBad.Some? {
        var elapsed := now - firstBad.value;
        var checkedElapsed := (if checkedAt.None? then now else checkedAt.value) - firstBad.value;
        if elapsed < 0 || checkedElapsed < elapsed || checkedElapsed > RECOVERY_LIMIT_NS {
          return Failure(DeadlineExceeded);
        }
        if !bad {
          if !row.gatePass {
            return Failure(RequiresFreshAuxiliaryPass);
          }
          if row.heartbeatAtUtcNs < firstBadUtcNs {
            return Failure(PublicationPredatesFault);
          }
          totalNs := totalNs + elapsed;
          firstBad := None;
          firstBadUtcNs := 0;
        } else if checkedElapsed == RECOVERY_LIMIT_NS {
          return Failure(NotRecoveredAtDeadline);
        }
      }
      history := history + [c];
      r := Success(bad);
    }

    /** Accepts a target row only when it passes the strict gate and leaves no episode open. */
    method Endpoint(row: Observation, checkedAt: Option<int>) returns (r: Option<CoreError>)
      requires Valid()
      modifies this
      ensures r.None? <==>
              row.strictPass && CoreAdmits(old(history) + [Call(row, checkedAt)], |old(history)|) && !Bad(row)
      ensures r.None? ==> Valid() && firstBad.None? && history == old(history) + [Call(row, checkedAt)]
    {
      if !row.strictPass {
        return Some(StrictEndpointFailed);
      }
      var checked := Check(row, checkedAt);
      if checked.Failure? {
        return Some(checked.error);
      }
      if firstBad.Some? {
        return Some(TargetDuringDegradation);
      }
      r := None;
    }

    /** Never later than the observer would look, and never past the deadline of an open episode. */
    function NextCheckNs(nowNs: int, monitorDueNs: int, targetNs: int): (due: int)
      reads this
      ensures due <= ObserverDue(firstBad.Some?, nowNs, monitorDueNs, targetNs)
      ensures firstBad.Some? ==> due <= firstBad.value + RECOVERY_LIMIT_NS
      ensures due < ObserverDue(firstBad.Some?, nowNs, monitorDueNs, targetNs)
              ==> firstBad.Some? && due == firstBad.value + RECOVERY_LIMIT_NS
    {
      var due := Min(monitorDueNs, targetNs);
      if firstBad.Some? then
        Min(Min(due, nowNs + RECOVERY_POLL_NS), firstBad.value + RECOVERY_LIMIT_NS)
      else due
    }
  }

  /** Admission of the newest call needs only the start of the open episode. */
  lemma AdmitsNext(calls: seq<Call>, c: Call)
    ensures
      var n := |calls|;
      var open := Faulty(calls, n - 1);
      var start := if open then calls[RunStart(calls, n - 1)].row else c.row;
      CoreAdmits(calls + [c], n) ==
      if Bad(c.row) || open then
        && 0 <= c.row.boottimeNs - start.boottimeNs <= c.CheckedNs() - start.boottimeNs <= RECOVERY_LIMIT_NS
        && if Bad(c.row) then c.CheckedNs() - start.boottimeNs != RECOVERY_LIMIT_NS
           else c.row.gatePass && c.row.heartbeatAtUtcNs >= start.utcNs
      else true
    ensures Bad(c.row) ==>
              (calls + [c])[RunStart(calls + [c], |calls|)].row ==
              if Faulty(calls, |calls| - 1) then calls[RunStart(calls, |calls| - 1)].row else c.row
  {
    hide Bad;
    var n := |calls|;
    assert (calls + [c])[n] == c;
    if Faulty(calls, n - 1) {
      RunStartGrows(calls, c, n - 1);
      assert (calls + [c])[RunStart(calls, n - 1)] == calls[RunStart(calls, n - 1)];
    }
  }

  lemma AdmitGrows(calls: seq<Call>, c: Call, i: nat)
    requires i < |calls|
    ensures CoreAdmits(calls + [c], i) == CoreAdmits(calls, i)
  {
    hide Bad;
    assert forall k :: 0 <= k <= i ==> (calls + [c])[k] == calls[k];
    if Faulty(calls, i) {
      RunStartGrows(calls, c, i);
    } else if Faulty(calls, i - 1) {
      RunStartGrows(calls, c, i - 1);
    }
  }

  /** Admission of earlier rows is not disturbed by a later call. */
  lemma AdmitsGrows(calls: seq<Call>, c: Call)
    ensures forall i :: 0 <= i < |calls| ==> CoreAdmits(calls + [c], i) == CoreAdmits(calls, i)
    ensures calls != [] && Bad(calls[|calls| - 1].row) ==>
              RunStart(calls + [c], |calls| - 1) == RunStart(calls, |calls| - 1)
  {
    hide CoreAdmits, Bad;
    forall i | 0 <= i < |calls|
      ensures CoreAdmits(calls + [c], i) == CoreAdmits(calls, i)
    {
      AdmitGrows(calls, c, i);
    }
    if calls != [] && Bad(calls[|calls| - 1].row) {
      RunStartGrows(calls, c, |calls| - 1);
    }
  }

  // ---------------------------------------------------------------- main results

  ghost predicate CoreAccepts(calls: seq<Call>) {
    forall i :: 0 <= i < |calls| ==> CoreAdmits(calls, i)
  }

  /** Under the strict rules the charged time is at most the limit for each closed episode. */
  lemma {:induction false} StrictTimeBound(calls: seq<Call>, n: nat)
    requires n <= |calls| && CoreAccepts(calls)
    ensures 0 <= ClosedTime(calls, n) <= RECOVERY_LIMIT_NS * |ClosesBefore(calls, n)|
  {
    if n == 0 {
    } else {
      StrictTimeBound(calls, n - 1);
      assert CoreAdmits(calls, n - 1);
      assert ClosesBefore(calls, n) ==
             ClosesBefore(calls, n - 1) + (if EpisodeCloses(calls, n - 1) then {n - 1} else {});
    }
  }

  ghost function ClosesBefore(calls: seq<Call>, n: nat): set<int>
    requires n <= |calls|
  {
    set i | 0 <= i < n && EpisodeCloses(calls, i)
  }

  /** Episodes opened equal episodes closed, plus the one still open. */
  lemma {:induction false} StartsAndCloses(calls: seq<Call>)
    ensures |Starts(calls)| == |Closes(calls)| + if Faulty(calls, |calls| - 1) then 1 else 0
  {
    if calls == [] {
      assert Starts(calls) == {} && Closes(calls) == {};
    } else {
      var n := |calls| - 1;
      StartsAndCloses(calls[..n]);
      assert calls == calls[..n] + [calls[n]];
      CountsGrow(calls[..n], calls[n]);
    }
  }

  /** CoreRecovery's total never exceeds sixty seconds for each episode it has closed. */
  lemma CoreTotalBound(core: CoreRecovery)
    requires core.Valid()
    ensures 0 <= core.totalNs <= RECOVERY_LIMIT_NS * (core.episodes - if core.firstBad.Some? then 1 else 0)
  {
    StrictTimeBound(core.history, |core.history|);
    StartsAndCloses(core.history);
    assert Closes(core.history) == ClosesBefore(core.history, |core.history|);
  }

  /** On a history that both took, the lenient accountant keeps the strict one's account, and so its bound too. */
  lemma SameAccount(observer: RecoveryObserver, core: CoreRecovery)
    requires observer.Valid() && core.Valid() && observer.history == core.history
    ensures observer.firstBad == core.firstBad
    ensures observer.totalNs == core.totalNs
    ensures observer.episodes == core.episodes
    ensures 0 <= observer.totalNs <= RECOVERY_LIMIT_NS * |Closes(observer.history)|
  {
    CoreTotalBound(core);
    StartsAndCloses(core.history);
  }

  /** Charged time is exactly the time spent behind a bad row, minus what the open episode has run up. */
  lemma {:induction false} ChargedIsTimeBehindBadRows(calls: seq<Call>, n: nat)
    requires n <= |calls|
    ensures n == 0 ==> ClosedTime(calls, n) == BadTime(calls, n)
    ensures n > 0 ==> BadTime(calls, n) == ClosedTime(calls, n) +
                      if Faulty(calls, n - 1) then Time(calls, n - 1) - Time(calls, RunStart(calls, n - 1)) else 0
  {
    if n > 0 {
      ChargedIsTimeBehindBadRows(calls, n - 1);
    }
  }

  /** Sum of the gaps between neighbouring rows whose earlier row is bad. */
  ghost function BadTime(calls: seq<Call>, n: nat): int
    requires n <= |calls|
  {
    if n < 2 then 0
    else BadTime(calls, n - 1) + if Faulty(calls, n - 2) then Time(calls, n - 1) - Time(calls, n - 2) else 0
  }

  // ---------------------------------------------------------------- where the accountants part

  /** First row of the episode that is open after a history, or else the row of the next call. */
  ghost function EpisodeStart(calls: seq<Call>, c: Call): Observation {
    if Faulty(calls, |calls| - 1) then calls[RunStart(calls, |calls| - 1)].row else c.row
  }

  /** All that the strict accountant asks of the next call, except that its row not lie before the episode. */
  ghost predicate EpisodeRules(calls: seq<Call>, c: Call) {
    var start := EpisodeStart(calls, c);
    Bad(c.row) || Faulty(calls, |calls| - 1) ==>
      && c.row.boottimeNs <= c.CheckedNs() <= start.boottimeNs + RECOVERY_LIMIT_NS
      && if Bad(c.row) then c.CheckedNs() != start.boottimeNs + RECOVERY_LIMIT_NS
         else c.row.gatePass && c.row.heartbeatAtUtcNs >= start.utcNs
  }

  /** The next row lies before the row before it. */
  ghost predicate Reversed(calls: seq<Call>, c: Call) {
    calls != [] && c.row.boottimeNs < Time(calls, |calls| - 1)
  }

  /**
   * Of a row that meets the other rules, reversed or not, the strict accountant refuses exactly one that
   * lies before the first bad row of the open episode.
   */
  lemma StrictRefusesReversalIff(calls: seq<Call>, c: Call)
    requires CoreAccepts(calls) && EpisodeRules(calls, c)
    ensures !CoreAccepts(calls + [c]) <==>
            Faulty(calls, |calls| - 1) && c.row.boottimeNs < Time(calls, RunStart(calls, |calls| - 1))
  {
    AcceptsNext(calls, c);
    AdmitsNext(calls, c);
    hide CoreAdmits, CoreAccepts, RunStart, Bad;
  }

  lemma AcceptsNext(calls: seq<Call>, c: Call)
    requires CoreAccepts(calls)
    ensures CoreAccepts(calls + [c]) <==> CoreAdmits(calls + [c], |calls|)
  {
    AdmitsGrows(calls, c);
    hide CoreAdmits;
  }

  /**
   * After a history that both took, the strict accountant takes a call that the lenient one refuses exactly when
   * the call meets the other episode rules, its row does not lie before the open episode, and either the row is
   * reversed or the call was checked before the row was taken.
   */
  lemma AccountantsPartIff(calls: seq<Call>, c: Call)
    requires CoreAccepts(calls) && MonotoneClock(calls)
    ensures CoreAccepts(calls + [c]) && !MonotoneClock(calls + [c]) <==>
            && EpisodeRules(calls, c)
            && !(Faulty(calls, |calls| - 1) && c.row.boottimeNs < Time(calls, RunStart(calls, |calls| - 1)))
            && (Reversed(calls, c) || c.CheckedNs() < c.row.boottimeNs)
  {
    AcceptsNext(calls, c);
    AdmitsNext(calls, c);
    ClockGrows(calls, c);
    hide CoreAdmits, CoreAccepts, RunStart, Bad, MonotoneClock;
  }

  /** A call that carries its own time and nothing else of note. */
  function Plain(bad: bool, t: int): Call {
    Call(Observation(t, 0, 0, !bad, true, [], true), None)
  }

  ghost predicate Misses(calls: seq<Call>) {
    CoreAccepts(calls) && !MonotoneClock(calls)
  }

  /** It happens between good rows, into an episode, and inside an episode down to its first bad row. */
  lemma StrictRulesMissClockReversal()
    ensures Misses([Plain(false, 10), Plain(false, 5)])
    ensures Misses([Plain(false, 10), Plain(true, 5)])
    ensures Misses([Plain(true, 0), Plain(true, 10), Plain(true, 5)])
  {
    hide Misses;
    AfterGoodRow(false);
    AfterGoodRow(true);
    InsideEpisode();
  }

  lemma AfterGoodRow(bad: bool)
    ensures Misses([Plain(false, 10), Plain(bad, 5)])
  {
    var calls := [Plain(false, 10)];
    ReversalMissed(calls, Plain(bad, 5));
    assert calls + [Plain(bad, 5)] == [Plain(false, 10), Plain(bad, 5)];
  }

  lemma InsideEpisode()
    ensures Misses([Plain(true, 0), Plain(true, 10), Plain(true, 5)])
  {
    var calls := [Plain(true, 0), Plain(true, 10)];
    assert RunStart(calls, 0) == 0 && RunStart(calls, 1) == 0;
    ReversalMissed(calls, Plain(true, 5));
    assert calls + [Plain(true, 5)] == [Plain(true, 0), Plain(true, 10), Plain(true, 5)];
  }

  lemma ReversalMissed(calls: seq<Call>, c: Call)
    requires CoreAccepts(calls) && MonotoneClock(calls) && EpisodeRules(calls, c) && Reversed(calls, c)
    requires Faulty(calls, |calls| - 1) ==> Time(calls, RunStart(calls, |calls| - 1)) <= c.row.boottimeNs
    ensures Misses(calls + [c])
  {
    AccountantsPartIff(calls, c);
  }
}
