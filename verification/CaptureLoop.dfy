/** The capture controller's nominal/probe loop and bounded finish, over a tape of clock readings. */
module CaptureLoop {
  import opened Wrappers
  import opened Recovery
  import opened FixedSlots

  const SLOT_NS := 30_000_000_000
  const FINALIZATION_RESERVE_NS := RECOVERY_LIMIT_NS
  const MAX_FINISH_OBSERVATIONS := 12

  datatype Start = Start(
    t0UtcNs: int,
    t0BoottimeNs: int,
    targetNs: int,
    bootId: string,
    configSha: string,
    contexts: set<string>)
  {
    predicate WholeSlots() {
      targetNs > 0 && targetNs % SLOT_NS == 0
    }

    function TargetBt(): int {
      t0BoottimeNs + targetNs
    }

    /** The arguments the controller later hands to the evaluator. */
    function Period(): Period {
      FixedSlots.Period(t0UtcNs, t0UtcNs + targetNs, t0BoottimeNs, configSha, contexts, SLOT_NS)
    }
  }

  /** What one observation of the recorder brings back. */
  datatype Sample = Sample(observation: Observation, bootId: string, freeSpaceOk: bool)

  /** Everything one turn of the loop reads from outside, in the order of reading. */
  datatype Turn = Turn(
    guardAt: int,            // loop condition
    testAt: int,             // is the nominal slot due?
    sample: Option<Sample>,  // None: the observation raised
    checkedAt: int,          // inside validation
    doneAt: int,             // read on regular turns only
    plannedAt: int,          // argument of next_check_ns
    sleepFrom: int)          // subtracted from the due time

  /** BOOTTIME never runs backwards. */
  ghost predicate Clock(start: Start, turns: seq<Turn>) {
    && (turns != [] ==> start.t0BoottimeNs <= turns[0].guardAt)
    && (forall k :: 0 <= k < |turns| ==> Ordered(turns[k]))
    && (forall k :: 0 < k < |turns| ==> turns[k - 1].sleepFrom <= turns[k].guardAt)
  }

  ghost predicate Ordered(t: Turn) {
    && t.guardAt <= t.testAt <= t.checkedAt <= t.doneAt <= t.plannedAt <= t.sleepFrom
    && (t.sample.Some? ==> t.testAt <= t.sample.value.observation.boottimeNs <= t.checkedAt)
  }

  datatype CaptureError = ObservationFailed | BootChanged | FreeSpaceBound | ClockDiscontinuity | RecoveryClock

  datatype Outcome = Completed(turns: nat) | Raised(turns: nat, error: CaptureError) | Interrupted

  // ---------------------------------------------------------------- the schedule of a run

  function NextSlot(start: Start, at: int): int {
    start.t0BoottimeNs + ((at - start.t0BoottimeNs) / SLOT_NS + 1) * SLOT_NS
  }

  /** Due time of the pending nominal slot before turn `k`. */
  function NextBt(start: Start, turns: seq<Turn>, k: nat): int
    requires k <= |turns|
  {
    if k == 0 then start.t0BoottimeNs
    else if turns[k - 1].testAt >= NextBt(start, turns, k - 1) then NextSlot(start, turns[k - 1].doneAt)
    else NextBt(start, turns, k - 1)
  }

  predicate Regular(start: Start, turns: seq<Turn>, k: nat)
    requires k < |turns|
  {
    turns[k].testAt >= NextBt(start, turns, k)
  }

  function Projection(start: Start, o: Observation): nat {
    Abs((o.utcNs - start.t0UtcNs) - (o.boottimeNs - start.t0BoottimeNs))
  }

  /** The turn's row survives `validate_capture`; the recovery clock is dealt with separately. */
  predicate Validated(start: Start, t: Turn) {
    t.sample.Some? && Acceptable(start, t.sample.value)
  }

  predicate Acceptable(start: Start, sample: Sample) {
    && sample.bootId == start.bootId
    && sample.freeSpaceOk
    && Projection(start, sample.observation) < PROJECTION_LIMIT_NS
  }

  /** Turns before `k` ran to their end and the guard of turn `k` ended the loop. */
  ghost predicate CompletedRun(start: Start, turns: seq<Turn>, k: nat) {
    && Clock(start, turns)
    && k < |turns|
    && turns[k].guardAt >= start.TargetBt()
    && Running(start, turns, k)
  }

  ghost predicate Running(start: Start, turns: seq<Turn>, k: nat)
    requires k <= |turns|
  {
    forall i :: 0 <= i < k ==> turns[i].guardAt < start.TargetBt() && Validated(start, turns[i])
  }

  function AuxiliaryGate(start: Start, reasons: seq<string>): Gate {
    Gate(if reasons == [] then "PASS" else "BLOCK", Some(reasons), |start.contexts|, start.contexts)
  }

  function NominalRow(start: Start, nextBt: int, o: Observation): Row {
    Row(NominalMonitor,
        Some((nextBt - start.t0BoottimeNs) / SLOT_NS),
        Some(o.boottimeNs), Some(o.utcNs), Some(nextBt),
        Some(if o.boottimeNs >= nextBt then (o.boottimeNs - nextBt) / SLOT_NS else 0),
        start.configSha, AuxiliaryGate(start, o.reasons))
  }

  function ProbeRow(start: Start, role: Role, o: Observation): Row {
    Row(role, None, Some(o.boottimeNs), Some(o.utcNs), None, None, start.configSha, AuxiliaryGate(start, o.reasons))
  }

  /** Rows that the first `k` turns append to the monitoring log. */
  function Monitoring(start: Start, turns: seq<Turn>, k: nat): seq<Row>
    requires k <= |turns| && forall i :: 0 <= i < k ==> turns[i].sample.Some?
  {
    if k == 0 then []
    else
      Monitoring(start, turns, k - 1) +
      if Regular(start, turns, k - 1)
      then [NominalRow(start, NextBt(start, turns, k - 1), turns[k - 1].sample.value.observation)] else []
  }

  /** Rows that the first `k` turns append to the log of extra probes. */
  function Probes(start: Start, turns: seq<Turn>, k: nat): seq<Row>
    requires k <= |turns| && forall i :: 0 <= i < k ==> turns[i].sample.Some?
  {
    if k == 0 then []
    else
      Probes(start, turns, k - 1) +
      if Regular(start, turns, k - 1) then []
      else [ProbeRow(start, RecoveryProbe, turns[k - 1].sample.value.observation)]
  }

  function Calls(turns: seq<Turn>, k: nat): (calls: seq<Call>)
    requires k <= |turns| && forall i :: 0 <= i < k ==> turns[i].sample.Some?
    ensures |calls| == k
  {
    seq(k, i requires 0 <= i < k => Call(turns[i].sample.value.observation, Some(turns[i].checkedAt)))
  }

  /** When the loop asks to be woken after turn `k`: an episode is open exactly when the row just checked is bad. */
  function DueAfter(start: Start, turns: seq<Turn>, k: nat): int
    requires k < |turns| && turns[k].sample.Some?
  {
    ObserverDue(Bad(turns[k].sample.value.observation), turns[k].plannedAt, NextBt(start, turns, k + 1),
                start.TargetBt())
  }

  // ---------------------------------------------------------------- the loop

  method Capture(start: Start, turns: seq<Turn>)
    returns (outcome: Outcome, monitoring: seq<Row>, probes: seq<Row>, dues: seq<int>, recovery: RecoveryObserver)
    requires Clock(start, turns)
    ensures fresh(recovery) && recovery.Valid()
    ensures outcome.Completed? <==> exists k :: 0 <= k < |turns| && CompletedRun(start, turns, k)
    ensures outcome.Completed? ==>
              && CompletedRun(start, turns, outcome.turns)
              && monitoring == Monitoring(start, turns, outcome.turns)
              && probes == Probes(start, turns, outcome.turns)
              && recovery.history == Calls(turns, outcome.turns)
              && |dues| == outcome.turns
              && (forall i :: 0 <= i < outcome.turns ==> dues[i] == DueAfter(start, turns, i))
    ensures outcome.Raised? ==>
              && outcome.turns < |turns| && Running(start, turns, outcome.turns)
              && !Validated(start, turns[outcome.turns]) && outcome.error != RecoveryClock
              && turns[outcome.turns].guardAt < start.TargetBt()
              && (outcome.error == ObservationFailed <==> turns[outcome.turns].sample.None?)
              // a row that fails validation has been logged first
              && (var n := if outcome.error == ObservationFailed then outcome.turns else outcome.turns + 1;
                  monitoring == Monitoring(start, turns, n) && probes == Probes(start, turns, n))
    ensures outcome.Interrupted? ==>
              && Running(start, turns, |turns|)
              && monitoring == Monitoring(start, turns, |turns|) && probes == Probes(start, turns, |turns|)
  {
    hide MonotoneClock, Observed, NominalRow, ProbeRow, Projection, Calls, Ordered, Bad, ObserverDue,
         NextBt, Monitoring, Probes;
    var targetBt := start.TargetBt();
    var nextBt := start.t0BoottimeNs;
    monitoring, probes, dues := [], [], [];
    recovery := new RecoveryObserver();
    LogsStart(start, turns);
    var k := 0;
    while k < |turns| && turns[k].guardAt < targetBt
      invariant 0 <= k <= |turns| && Running(start, turns, k)
      invariant nextBt == NextBt(start, turns, k)
      invariant monitoring == Monitoring(start, turns, k) && probes == Probes(start, turns, k)
      invariant fresh(recovery) && recovery.Valid() && recovery.history == Calls(turns, k)
      invariant |dues| == k && forall i :: 0 <= i < k ==> dues[i] == DueAfter(start, turns, i)
    {
      var turn := turns[k];
      var regular := turn.testAt >= nextBt;
      LogsGrow(start, turns, k);
      if turn.sample.None? {
        NotCompleted(start, turns, k);
        outcome := Raised(k, ObservationFailed);
        return;
      }
      var row := turn.sample.value.observation;
      if regular {
        monitoring := monitoring + [NominalRow(start, nextBt, row)];
      } else {
        probes := probes + [ProbeRow(start, RecoveryProbe, row)];
      }
      var fault := ValidateCapture(start, turn.sample.value);
      if fault.Some? {
        NotCompleted(start, turns, k);
        outcome := Raised(k, fault.value);
        return;
      }
      CallsInOrder(start, turns, k + 1);
      var checked := recovery.Check(row, Some(turn.checkedAt));
      assert checked.Success?;  // on a monotone clock the accountant never raises
      if regular {
        nextBt := start.t0BoottimeNs + ((turn.doneAt - start.t0BoottimeNs) / SLOT_NS + 1) * SLOT_NS;
      }
      OpenIffLastRowBad(recovery, turns, k + 1);
      dues := dues + [recovery.NextCheckNs(turn.plannedAt, nextBt, targetBt)];
      k := k + 1;
    }
    if k < |turns| {
      assert CompletedRun(start, turns, k);
      outcome := Completed(k);
    } else {
      NotCompleted(start, turns, k);
      outcome := Interrupted;
    }
  }

  /** Every turn that ran to its end left one row, in one log or the other. */
  lemma {:induction false} OneRowATurn(start: Start, turns: seq<Turn>, k: nat)
    requires k <= |turns| && forall i :: 0 <= i < k ==> turns[i].sample.Some?
    ensures |Monitoring(start, turns, k)| + |Probes(start, turns, k)| == k
    ensures forall i :: 0 <= i < |Probes(start, turns, k)| ==> Probe(Probes(start, turns, k)[i])
  {
    hide NextBt;
    if k > 0 {
      OneRowATurn(start, turns, k - 1);
    }
  }

  /** The flag given to next_check_ns: an episode is open exactly when the row just checked is bad. */
  lemma OpenIffLastRowBad(recovery: RecoveryObserver, turns: seq<Turn>, k: nat)
    requires 0 < k <= |turns| && forall i :: 0 <= i < k ==> turns[i].sample.Some?
    requires recovery.Valid() && recovery.history == Calls(turns, k)
    ensures recovery.firstBad.Some? <==> Bad(turns[k - 1].sample.value.observation)
  {
    assert Calls(turns, k)[k - 1].row == turns[k - 1].sample.value.observation;
  }

  lemma LogsStart(start: Start, turns: seq<Turn>)
    ensures NextBt(start, turns, 0) == start.t0BoottimeNs
    ensures Monitoring(start, turns, 0) == [] && Probes(start, turns, 0) == []
    ensures Calls(turns, 0) == []
  {
  }

  /** What one more turn adds to the logs and to the schedule. */
  lemma LogsGrow(start: Start, turns: seq<Turn>, k: nat)
    requires k < |turns| && forall i :: 0 <= i < k ==> turns[i].sample.Some?
    ensures NextBt(start, turns, k + 1) ==
            if Regular(start, turns, k) then NextSlot(start, turns[k].doneAt) else NextBt(start, turns, k)
    ensures turns[k].sample.Some? ==>
              var o := turns[k].sample.value.observation;
              var row := NominalRow(start, NextBt(start, turns, k), o);
              && Monitoring(start, turns, k + 1) ==
                 Monitoring(start, turns, k) + (if Regular(start, turns, k) then [row] else [])
              && Probes(start, turns, k + 1) ==
                 Probes(start, turns, k) + if Regular(start, turns, k) then [] else [ProbeRow(start, RecoveryProbe, o)]
  {
  }

  lemma NotCompleted(start: Start, turns: seq<Turn>, k: nat)
    requires k <= |turns| && Running(start, turns, k)
    requires k < |turns| ==> turns[k].guardAt < start.TargetBt() && !Validated(start, turns[k])
    ensures forall j :: 0 <= j < |turns| ==> !CompletedRun(start, turns, j)
  {
  }

  /** The checks of `validate_capture` that come before the recovery accountant. */
  method ValidateCapture(start: Start, sample: Sample) returns (fault: Option<CaptureError>)
    ensures fault.None? <==> Acceptable(start, sample)
    ensures fault == Some(BootChanged) <==> sample.bootId != start.bootId
    ensures fault == Some(FreeSpaceBound) <==> sample.bootId == start.bootId && !sample.freeSpaceOk
    ensures fault.Some? ==> fault.value in {BootChanged, FreeSpaceBound, ClockDiscontinuity}
  {
    if sample.bootId != start.bootId {
      return Some(BootChanged);
    }
    if !sample.freeSpaceOk {
      return Some(FreeSpaceBound);
    }
    if Projection(start, sample.observation) >= PROJECTION_LIMIT_NS {
      return Some(ClockDiscontinuity);
    }
    fault := None;
  }

  /** A monotone clock keeps the recovery accountant satisfied on every turn. */
  lemma {:induction false} CallsInOrder(start: Start, turns: seq<Turn>, k: nat)
    requires Clock(start, turns) && k <= |turns|
    requires forall i :: 0 <= i < k ==> turns[i].sample.Some?
    ensures MonotoneClock(Calls(turns, k))
    ensures k > 0 ==> Calls(turns, k) == Calls(turns, k - 1) +
                                         [Call(turns[k - 1].sample.value.observation, Some(turns[k - 1].checkedAt))]
  {
    if k == 0 {
    } else {
      CallsInOrder(start, turns, k - 1);
      var c := Call(turns[k - 1].sample.value.observation, Some(turns[k - 1].checkedAt));
      assert Calls(turns, k) == Calls(turns, k - 1) + [c];
      assert Ordered(turns[k - 1]) && (k > 1 ==> Ordered(turns[k - 2]));
      ClockGrows(Calls(turns, k - 1), c);
    }
  }

  // ---------------------------------------------------------------- producer and validator agree

  /** The clock crossed the target between the loop guard and the slot test while the end-of-run slot was pending. */
  ghost predicate Race(start: Start, turns: seq<Turn>, k: nat)
    requires k < |turns|
  {
    NextBt(start, turns, k) == start.TargetBt() && turns[k].guardAt < start.TargetBt() <= turns[k].testAt
  }

  lemma NextSlotFacts(start: Start, at: int)
    ensures (NextSlot(start, at) - start.t0BoottimeNs) % SLOT_NS == 0
    ensures at < NextSlot(start, at) <= at + SLOT_NS
  {
  }

  /** The pending slot is on the grid, only moves forward, and is at most the target while the loop runs. */
  lemma {:induction false} PendingSlot(start: Start, turns: seq<Turn>, k: nat)
    requires start.WholeSlots() && Clock(start, turns) && k <= |turns|
    ensures NextBt(start, turns, k) >= start.t0BoottimeNs
    ensures (NextBt(start, turns, k) - start.t0BoottimeNs) % SLOT_NS == 0
    ensures k > 0 && Regular(start, turns, k - 1) ==>
              NextBt(start, turns, k - 1) <= turns[k - 1].doneAt < NextBt(start, turns, k)
              <= turns[k - 1].doneAt + SLOT_NS
    ensures k < |turns| && turns[k].guardAt < start.TargetBt() ==> NextBt(start, turns, k) <= start.TargetBt()
  {
    if k > 0 {
      PendingSlot(start, turns, k - 1);
      assert Ordered(turns[k - 1]);
      NextSlotFacts(start, turns[k - 1].doneAt);
    }
  }

  /** Rows already written lie before the pending slot, in slot number and in time. */
  ghost predicate Behind(start: Start, nextBt: int, rows: seq<Row>) {
    forall i :: 0 <= i < |rows| ==>
      && rows[i].role.NominalMonitor?
      && rows[i].slot.Some? && start.t0BoottimeNs + rows[i].slot.value * SLOT_NS < nextBt
      && rows[i].boottimeNs.Some? && rows[i].boottimeNs.value < nextBt
  }

  lemma {:induction false} WrittenRowsAreBehind(start: Start, turns: seq<Turn>, k: nat)
    requires start.WholeSlots() && Clock(start, turns) && k <= |turns| && Running(start, turns, k)
    ensures Behind(start, NextBt(start, turns, k), Monitoring(start, turns, k))
  {
    if k > 0 {
      WrittenRowsAreBehind(start, turns, k - 1);
      PendingSlot(start, turns, k - 1);
      PendingSlot(start, turns, k);
      assert Ordered(turns[k - 1]);
    }
  }

  lemma {:induction false} AllNominal(rows: seq<Row>)
    requires forall i :: 0 <= i < |rows| ==> rows[i].role.NominalMonitor?
    ensures Nominals(rows) == rows
  {
    if rows != [] {
      AllNominal(rows[..|rows| - 1]);
      assert rows == rows[..|rows| - 1] + [rows[|rows| - 1]];
    }
  }

  /** A regular turn's row is consistent with the evaluator's schedule unless it claims the slot past the end. */
  lemma RowIsConsistent(start: Start, nextBt: int, t: Turn)
    requires start.WholeSlots() && Validated(start, t) && Ordered(t)
    requires start.t0BoottimeNs <= nextBt <= start.TargetBt() && (nextBt - start.t0BoottimeNs) % SLOT_NS == 0
    requires nextBt <= t.testAt
    ensures start.Period().Valid()
    ensures SelfConsistent(start.Period(), NominalRow(start, nextBt, t.sample.value.observation)) <==>
            nextBt != start.TargetBt()
  {
    var p := start.Period();
    var slot := (nextBt - start.t0BoottimeNs) / SLOT_NS;
    assert p.Total() * SLOT_NS == start.targetNs;
    assert slot * SLOT_NS == nextBt - start.t0BoottimeNs;
    assert p.Due(slot) == nextBt;
    assert slot < p.Total() <==> nextBt < start.TargetBt();
  }

  /** One more turn keeps the evaluator's trust exactly when it did not lose the race. */
  lemma TurnKeepsTrustIff(start: Start, turns: seq<Turn>, k: nat)
    requires start.WholeSlots() && Clock(start, turns) && 0 < k <= |turns| && Running(start, turns, k)
    ensures start.Period().Valid()
    ensures Trusted(start.Period(), Monitoring(start, turns, k)) <==>
            Trusted(start.Period(), Monitoring(start, turns, k - 1)) && !Race(start, turns, k - 1)
  {
    hide SelfConsistent, TrustedNominals, Nominals, Slots, NominalRow, Trusted;
    var nextBt := NextBt(start, turns, k - 1);
    var before, rows := Monitoring(start, turns, k - 1), Monitoring(start, turns, k);
    WrittenRowsAreBehind(start, turns, k);
    WrittenRowsAreBehind(start, turns, k - 1);
    PendingSlot(start, turns, k - 1);
    assert Ordered(turns[k - 1]);
    if Regular(start, turns, k - 1) {
      var o := turns[k - 1].sample.value.observation;
      AllNominal(before);
      AllNominal(rows);
      RowIsConsistent(start, nextBt, turns[k - 1]);
      NextRow(start, nextBt, before, NominalRow(start, nextBt, o), o);
      assert rows == before + [NominalRow(start, nextBt, o)];
      assert Race(start, turns, k - 1) <==> nextBt == start.TargetBt();
    } else {
      assert rows == before;
      PeriodIsValid(start);
    }
  }

  lemma PeriodIsValid(start: Start)
    requires start.WholeSlots()
    ensures start.Period().Valid()
  {
  }

  /**
   * The log of a completed run is trusted by the evaluator exactly when no turn lost the race between
   * the loop guard and the slot test.
   */
  lemma {:induction false} EvaluatorTrustsIff(start: Start, turns: seq<Turn>, k: nat)
    requires start.WholeSlots() && Clock(start, turns) && k <= |turns| && Running(start, turns, k)
    ensures start.Period().Valid()
    ensures Trusted(start.Period(), Monitoring(start, turns, k)) <==> forall i :: 0 <= i < k ==> !Race(start, turns, i)
  {
    PeriodIsValid(start);
    if k == 0 {
      EmptyIsTrusted(start.Period());
    } else {
      TurnKeepsTrustIff(start, turns, k);
      EvaluatorTrustsIff(start, turns, k - 1);
      hide Trusted, Race, Monitoring;
    }
  }

  lemma EmptyIsTrusted(p: Period)
    requires p.Valid()
    ensures Trusted(p, [])
  {
  }

  /** Appending the pending slot's row keeps trust exactly when the row is consistent by itself. */
  lemma NextRow(start: Start, nextBt: int, rows: seq<Row>, row: Row, o: Observation)
    requires start.Period().Valid()
    requires Behind(start, nextBt, rows) && row == NominalRow(start, nextBt, o) && o.boottimeNs >= nextBt
    requires (nextBt - start.t0BoottimeNs) % SLOT_NS == 0
    requires Nominals(rows) == rows && Nominals(rows + [row]) == rows + [row]
    ensures Trusted(start.Period(), rows + [row]) <==>
            Trusted(start.Period(), rows) && SelfConsistent(start.Period(), row)
  {
    var p := start.Period();
    var all := rows + [row];
    hide SelfConsistent, TrustedNominals, Nominals;
    assert all[..|rows|] == rows && all[|rows|] == row;
    assert forall i :: 0 <= i < |rows| ==> all[i] == rows[i];
    assert row.slot.value !in Slots(rows);
    if Trusted(p, rows) {
      TrustGrows(p, rows, row);
    } else if Trusted(p, all) {
      TrustedPrefix(p, all, |rows|);
    }
  }

  /**
   * The race is real, under honest sleeps: in a run of one slot a recovery probe is due one nanosecond before the
   * target, and the clock reaches the target between its guard and its slot test.
   */
  lemma RaceCanHappen() returns (start: Start, turns: seq<Turn>)
    ensures |turns| == 3 && start.WholeSlots() && CompletedRun(start, turns, 2) && SleepsFully(start, turns)
    ensures start.Period().Valid() && !Trusted(start.Period(), Monitoring(start, turns, 2))
  {
    hide *;
    start := RaceStart();
    turns := RaceTurns();
    RaceRuns();
    RaceSleeps();
    RaceOccurs();
    EvaluatorTrustsIff(start, turns, 2);
  }

  function RaceStart(): Start {
    Start(0, 0, SLOT_NS, "boot", "config", {})
  }

  /** A bad row at the start, observed until five seconds and a nanosecond before the target. */
  function RaceTurns(): (turns: seq<Turn>)
    ensures |turns| == 3
  {
    var planned := SLOT_NS - 1 - RECOVERY_POLL_NS;
    [Turn(0, 0, Some(Sample(Observation(0, 0, 0, false, true, [], true), "boot", true)), 0, 0, planned, planned),
     TurnAt(SLOT_NS - 1, SLOT_NS), TurnAt(SLOT_NS, SLOT_NS)]
  }

  lemma RaceSlots()
    ensures NextBt(RaceStart(), RaceTurns(), 0) == 0
    ensures NextBt(RaceStart(), RaceTurns(), 1) == SLOT_NS
    ensures NextBt(RaceStart(), RaceTurns(), 2) == 2 * SLOT_NS
  {
    assert NextBt(RaceStart(), RaceTurns(), 0) == 0;
    assert NextBt(RaceStart(), RaceTurns(), 1) == SLOT_NS;
  }

  lemma RaceRuns()
    ensures RaceStart().WholeSlots() && CompletedRun(RaceStart(), RaceTurns(), 2)
    ensures Clock(RaceStart(), RaceTurns()) && Running(RaceStart(), RaceTurns(), 2)
  {
    hide NextBt, Bad;
  }

  lemma RaceSleeps()
    ensures SleepsFully(RaceStart(), RaceTurns())
  {
    RaceSlots();
    hide NextBt;
    assert DueAfter(RaceStart(), RaceTurns(), 0) == SLOT_NS - 1;
    assert DueAfter(RaceStart(), RaceTurns(), 1) <= SLOT_NS;
  }

  lemma RaceOccurs()
    ensures Race(RaceStart(), RaceTurns(), 1)
  {
    RaceSlots();
    hide NextBt;
  }

  /** A turn that passes its guard at one reading and does everything else at a second. */
  function TurnAt(guard: int, rest: int): Turn {
    Turn(guard, rest, Some(Sample(Observation(rest, rest, rest, true, true, [], true), "boot", true)),
         rest, rest, rest, rest)
  }

  /** With honest sleeps the race needs an open episode: only then does the loop wake before its target. */
  lemma RaceNeedsOpenEpisode(start: Start, turns: seq<Turn>, k: nat)
    requires start.WholeSlots() && Clock(start, turns) && SleepsFully(start, turns)
    requires k < |turns| && Running(start, turns, k) && Race(start, turns, k)
    ensures k > 0 && Bad(turns[k - 1].sample.value.observation)
  {
    if k > 0 {
      assert turns[(k - 1) + 1].guardAt >= DueAfter(start, turns, k - 1);
    }
  }

  /** So a run without core faults, and with honest sleeps, always leaves a log that the evaluator trusts. */
  lemma FaultFreeRunsAreTrusted(start: Start, turns: seq<Turn>, k: nat)
    requires start.WholeSlots() && Clock(start, turns) && SleepsFully(start, turns)
    requires k <= |turns| && Running(start, turns, k)
    requires forall i :: 0 <= i < k ==> !Bad(turns[i].sample.value.observation)
    ensures start.Period().Valid() && Trusted(start.Period(), Monitoring(start, turns, k))
  {
    hide Trusted, Bad, Monitoring, SleepsFully, Race;
    EvaluatorTrustsIff(start, turns, k);
    forall i | 0 <= i < k ensures !Race(start, turns, i) {
      if Race(start, turns, i) {
        RaceNeedsOpenEpisode(start, turns, i);
      }
    }
  }

  // ---------------------------------------------------------------- which slots go missing

  /** Slot `s` came due while some regular turn, for an earlier slot, was still at work. */
  ghost predicate Overrun(start: Start, turns: seq<Turn>, k: nat, s: nat)
    requires k <= |turns|
  {
    exists i :: 0 <= i < k && OverrunBy(start, turns, i, s)
  }

  ghost predicate OverrunBy(start: Start, turns: seq<Turn>, i: nat, s: nat)
    requires i < |turns|
  {
    Regular(start, turns, i) && NextBt(start, turns, i) < start.t0BoottimeNs + s * SLOT_NS <= turns[i].doneAt
  }

  /** A slot is never recorded exactly when an earlier turn overran it or the loop ended before taking it up. */
  lemma {:induction false} MissedIff(start: Start, turns: seq<Turn>, k: nat, s: nat)
    requires start.WholeSlots() && Clock(start, turns) && k <= |turns| && Running(start, turns, k)
    ensures s !in Slots(Monitoring(start, turns, k)) <==>
            Overrun(start, turns, k, s) || NextBt(start, turns, k) <= start.t0BoottimeNs + s * SLOT_NS
    ensures !(Overrun(start, turns, k, s) && NextBt(start, turns, k) <= start.t0BoottimeNs + s * SLOT_NS)
  {
    hide Slots, Overrun, Monitoring, Projection;
    if k == 0 {
      MissedAtFirst(start, turns, s);
    } else {
      MissedIff(start, turns, k - 1, s);
      PendingSlot(start, turns, k - 1);
      PendingSlot(start, turns, k);
      SlotsOfNextTurn(start, turns, k, s);
      OverrunGrows(start, turns, k, s);
    }
  }

  /** The report's missing slots, traced back to what the loop was doing when they came due. */
  lemma ReportedMissingSlots(start: Start, turns: seq<Turn>, k: nat, r: Report)
    requires start.WholeSlots() && CompletedRun(start, turns, k) && start.Period().Valid()
    requires ReportsTruly(start.Period(), Monitoring(start, turns, k), r)
    ensures forall s :: s in r.missingSlots <==>
              && 0 <= s < start.targetNs / SLOT_NS
              && (Overrun(start, turns, k, s) || NextBt(start, turns, k) <= start.t0BoottimeNs + s * SLOT_NS)
  {
    hide Overrun, Slots;
    WrittenRowsAreBehind(start, turns, k);
    AllNominal(Monitoring(start, turns, k));
    forall s: nat
      ensures s !in Slots(Monitoring(start, turns, k)) <==>
              Overrun(start, turns, k, s) || NextBt(start, turns, k) <= start.t0BoottimeNs + s * SLOT_NS
    {
      MissedIff(start, turns, k, s);
    }
  }

  lemma MissedAtFirst(start: Start, turns: seq<Turn>, s: nat)
    ensures s !in Slots(Monitoring(start, turns, 0)) && !Overrun(start, turns, 0, s)
  {
  }

  lemma OverrunGrows(start: Start, turns: seq<Turn>, k: nat, s: nat)
    requires 0 < k <= |turns|
    ensures Overrun(start, turns, k, s) <==> Overrun(start, turns, k - 1, s) || OverrunBy(start, turns, k - 1, s)
  {
  }

  lemma SlotsOfNextTurn(start: Start, turns: seq<Turn>, k: nat, s: nat)
    requires 0 < k <= |turns| && forall i :: 0 <= i < k ==> turns[i].sample.Some?
    requires (NextBt(start, turns, k - 1) - start.t0BoottimeNs) % SLOT_NS == 0
    ensures s in Slots(Monitoring(start, turns, k)) <==>
            || s in Slots(Monitoring(start, turns, k - 1))
            || (Regular(start, turns, k - 1) && NextBt(start, turns, k - 1) == start.t0BoottimeNs + s * SLOT_NS)
  {
    hide Slots, CleanSlots, Clean, NextBt, AuxiliaryGate;
    var before := Monitoring(start, turns, k - 1);
    if Regular(start, turns, k - 1) {
      SlotsGrow(start.Period(), before,
                NominalRow(start, NextBt(start, turns, k - 1), turns[k - 1].sample.value.observation));
    } else {
      assert Monitoring(start, turns, k) == before;
    }
  }

  // ---------------------------------------------------------------- what the report says of the turns

  /** The log keeps what was observed. */
  predicate Tells(row: Row, o: Observation) {
    && row.boottimeNs == Some(o.boottimeNs) && row.utcNs == Some(o.utcNs)
    && row.gate.reasons == Some(o.reasons) && (row.gate.result == "PASS" <==> o.reasons == [])
  }

  /** Turn `i` was the one for slot `s`. */
  predicate TookUp(start: Start, turns: seq<Turn>, i: nat, s: nat)
    requires i < |turns|
  {
    Regular(start, turns, i) && NextBt(start, turns, i) == start.t0BoottimeNs + s * SLOT_NS
  }

  predicate InTime(start: Start, o: Observation, s: nat) {
    o.boottimeNs < start.t0BoottimeNs + (s + 1) * SLOT_NS
  }

  /** Turn `i` took slot `s` up, observed it before the next one was due, and saw nothing wrong. */
  predicate Passes(start: Start, turns: seq<Turn>, i: nat, s: nat)
    requires i < |turns| && turns[i].sample.Some?
  {
    var o := turns[i].sample.value.observation;
    TookUp(start, turns, i, s) && InTime(start, o, s) && o.reasons == []
  }

  ghost predicate PassedSlot(start: Start, turns: seq<Turn>, k: nat, s: nat)
    requires k <= |turns| && forall i :: 0 <= i < k ==> turns[i].sample.Some?
  {
    exists i :: 0 <= i < k && Passes(start, turns, i, s)
  }

  /** Each turn's row is in the log that its role names, behind those of earlier turns, and tells what was observed. */
  lemma {:induction false} RowOfTurn(start: Start, turns: seq<Turn>, k: nat, i: nat)
    requires i < k <= |turns| && forall j :: 0 <= j < k ==> turns[j].sample.Some?
    ensures RegularTurns(start, turns, i) <= i
    ensures
      var o, n := turns[i].sample.value.observation, RegularTurns(start, turns, i);
      if Regular(start, turns, i) then
        && n < |Monitoring(start, turns, k)|
        && Monitoring(start, turns, k)[n].role == NominalMonitor && Tells(Monitoring(start, turns, k)[n], o)
      else
        && i - n < |Probes(start, turns, k)|
        && Probes(start, turns, k)[i - n].role == RecoveryProbe && Tells(Probes(start, turns, k)[i - n], o)
  {
    hide *;
    LogSizes(start, turns, i);
    if i < k - 1 {
      RowOfTurn(start, turns, k - 1, i);
      LogsOnlyGrow(start, turns, k);
    } else {
      LastRow(start, turns, k);
    }
  }

  lemma LogsOnlyGrow(start: Start, turns: seq<Turn>, k: nat)
    requires 0 < k <= |turns| && forall j :: 0 <= j < k ==> turns[j].sample.Some?
    ensures Monitoring(start, turns, k - 1) <= Monitoring(start, turns, k)
    ensures Probes(start, turns, k - 1) <= Probes(start, turns, k)
  {
    hide NextBt, NominalRow, ProbeRow;
  }

  lemma LastRow(start: Start, turns: seq<Turn>, k: nat)
    requires 0 < k <= |turns| && forall j :: 0 <= j < k ==> turns[j].sample.Some?
    ensures
      var o, monitoring, probes :=
        turns[k - 1].sample.value.observation, Monitoring(start, turns, k), Probes(start, turns, k);
      var n := RegularTurns(start, turns, k - 1);
      && n <= k - 1
      && if Regular(start, turns, k - 1) then
           n < |monitoring| && monitoring[n].role == NominalMonitor && Tells(monitoring[n], o)
         else
           k - 1 - n < |probes| && probes[k - 1 - n].role == RecoveryProbe && Tells(probes[k - 1 - n], o)
  {
    LogSizes(start, turns, k - 1);
    RowsTell(start, NextBt(start, turns, k - 1), turns[k - 1].sample.value.observation);
    hide NextBt, NominalRow, ProbeRow, Tells, RegularTurns;
  }

  lemma RowsTell(start: Start, nextBt: int, o: Observation)
    ensures Tells(NominalRow(start, nextBt, o), o) && NominalRow(start, nextBt, o).role == NominalMonitor
    ensures forall role :: Tells(ProbeRow(start, role, o), o) && ProbeRow(start, role, o).role == role
  {
  }

  lemma {:induction false} LogSizes(start: Start, turns: seq<Turn>, k: nat)
    requires k <= |turns| && forall j :: 0 <= j < k ==> turns[j].sample.Some?
    ensures |Monitoring(start, turns, k)| == RegularTurns(start, turns, k) <= k
    ensures |Probes(start, turns, k)| == k - RegularTurns(start, turns, k)
  {
    hide NextBt, NominalRow;
    if k > 0 {
      LogSizes(start, turns, k - 1);
    }
  }

  /** Behind each row of the monitoring log is the turn that took its slot up. */
  lemma {:induction false} TurnOfRow(start: Start, turns: seq<Turn>, k: nat, j: nat) returns (i: nat)
    requires k <= |turns| && forall h :: 0 <= h < k ==> turns[h].sample.Some?
    requires j < |Monitoring(start, turns, k)|
    ensures i < k && Regular(start, turns, i)
    ensures
      var row := Monitoring(start, turns, k)[j];
      && Tells(row, turns[i].sample.value.observation) && row.scheduledNs == Some(NextBt(start, turns, i))
      && row.slot == Some((NextBt(start, turns, i) - start.t0BoottimeNs) / SLOT_NS)
  {
    hide NextBt;
    if j < |Monitoring(start, turns, k - 1)| {
      i := TurnOfRow(start, turns, k - 1, j);
    } else {
      i := k - 1;
    }
  }

  lemma {:induction false} CleanSlotsArePassed(start: Start, turns: seq<Turn>, k: nat, s: nat)
    requires start.WholeSlots() && Clock(start, turns) && k <= |turns| && Running(start, turns, k)
    ensures s in CleanSlots(start.Period(), Monitoring(start, turns, k)) <==> PassedSlot(start, turns, k, s)
  {
    if k > 0 {
      CleanSlotsArePassed(start, turns, k - 1, s);
      PendingSlot(start, turns, k - 1);
      RunningSampled(start, turns, k);
      hide *;
      CleanSlotsGrow(start, turns, k, s);
      PassedGrows(start, turns, k, s);
    }
  }

  lemma RunningSampled(start: Start, turns: seq<Turn>, k: nat)
    requires k <= |turns| && Running(start, turns, k)
    ensures forall i :: 0 <= i < k ==> turns[i].sample.Some?
  {
  }

  lemma CleanSlotsGrow(start: Start, turns: seq<Turn>, k: nat, s: nat)
    requires 0 < k <= |turns| && forall i :: 0 <= i < k ==> turns[i].sample.Some?
    requires NextBt(start, turns, k - 1) >= start.t0BoottimeNs
    requires (NextBt(start, turns, k - 1) - start.t0BoottimeNs) % SLOT_NS == 0
    ensures s in CleanSlots(start.Period(), Monitoring(start, turns, k)) <==>
            s in CleanSlots(start.Period(), Monitoring(start, turns, k - 1)) || Passes(start, turns, k - 1, s)
  {
    hide Clean, CleanSlots, Slots, NextBt, InTime;
    var o := turns[k - 1].sample.value.observation;
    var row := NominalRow(start, NextBt(start, turns, k - 1), o);
    CleanMeans(start, NextBt(start, turns, k - 1), o, s);
    hide NominalRow;
    if Regular(start, turns, k - 1) {
      SlotsGrow(start.Period(), Monitoring(start, turns, k - 1), row);
    } else {
      assert Monitoring(start, turns, k) == Monitoring(start, turns, k - 1);
    }
  }

  lemma PassedGrows(start: Start, turns: seq<Turn>, k: nat, s: nat)
    requires 0 < k <= |turns| && forall i :: 0 <= i < k ==> turns[i].sample.Some?
    ensures PassedSlot(start, turns, k, s) <==> PassedSlot(start, turns, k - 1, s) || Passes(start, turns, k - 1, s)
  {
    hide Passes;
  }

  lemma CleanMeans(start: Start, nextBt: int, o: Observation, s: nat)
    requires (nextBt - start.t0BoottimeNs) % SLOT_NS == 0 && nextBt >= start.t0BoottimeNs
    ensures
      var row := NominalRow(start, nextBt, o);
      row.slot == Some(s) && Clean(start.Period(), row) <==>
      nextBt == start.t0BoottimeNs + s * SLOT_NS && InTime(start, o, s) && o.reasons == []
  {
  }

  /**
   * A truthful report on the log of a completed run counts slot `s` as passed exactly when a turn took it up before
   * the next slot was due and saw no reason against it; a failed row carries that turn's reasons, with lateness
   * behind them; and a slot without a row was taken up by no turn.
   */
  lemma ReportTellsTheTurns(start: Start, turns: seq<Turn>, k: nat, r: Report)
    requires start.WholeSlots() && CompletedRun(start, turns, k) && start.Period().Valid()
    requires Trusted(start.Period(), Monitoring(start, turns, k))
    requires ReportsTruly(start.Period(), Monitoring(start, turns, k), r)
    ensures r.total == start.targetNs / SLOT_NS
    ensures r.passed == |set s | 0 <= s < r.total && PassedSlot(start, turns, k, s)|
    ensures forall s :: 0 <= s < r.total ==>
              (PassedSlot(start, turns, k, s) <==> forall f :: f in r.failedChecks ==> f.slot != s)
    ensures forall f :: f in r.failedChecks ==> ToldByTurn(start, turns, k, f)
  {
    hide *;
    RunFacts(start, turns, k);
    RunningSampled(start, turns, k);
    var p, rows := start.Period(), Monitoring(start, turns, k);
    NominalLog(start, turns, k);
    ReportFacts(p, rows, r);
    CountsOfClean(p, rows, r);
    FailuresTold(start, turns, k, r.failedChecks);
    forall s: nat ensures s in CleanSlots(p, rows) <==> PassedSlot(start, turns, k, s) {
      CleanSlotsArePassed(start, turns, k, s);
    }
    assert CleanSlots(p, rows) == set s | 0 <= s < r.total && PassedSlot(start, turns, k, s);
  }

  lemma RunFacts(start: Start, turns: seq<Turn>, k: nat)
    requires start.WholeSlots() && CompletedRun(start, turns, k)
    ensures Clock(start, turns) && k < |turns| && Running(start, turns, k)
    ensures start.Period().Valid() && start.Period().Total() == start.targetNs / SLOT_NS
  {
  }

  lemma NominalLog(start: Start, turns: seq<Turn>, k: nat)
    requires start.WholeSlots() && Clock(start, turns) && k <= |turns| && Running(start, turns, k)
    ensures Nominals(Monitoring(start, turns, k)) == Monitoring(start, turns, k)
  {
    WrittenRowsAreBehind(start, turns, k);
    AllNominal(Monitoring(start, turns, k));
  }

  lemma ReportFacts(p: Period, rows: seq<Row>, r: Report)
    requires p.Valid() && Trusted(p, rows) && Nominals(rows) == rows && ReportsTruly(p, rows, r)
    ensures TrustedNominals(p, rows) && CountsTruly(p, rows, r) && Explained(p, rows, r.failedChecks)
    ensures r.total == p.Total()
  {
  }

  lemma FailuresTold(start: Start, turns: seq<Turn>, k: nat, failures: seq<FailedCheck>)
    requires start.WholeSlots() && Clock(start, turns) && k <= |turns| && Running(start, turns, k)
    requires start.Period().Valid() && Nominals(Monitoring(start, turns, k)) == Monitoring(start, turns, k)
    requires Explained(start.Period(), Monitoring(start, turns, k), failures)
    ensures forall f :: f in failures ==> ToldByTurn(start, turns, k, f)
  {
    hide Explains, ToldByTurn, Monitoring, Nominals;
    forall f | f in failures ensures ToldByTurn(start, turns, k, f) {
      FailureTold(start, turns, k, f);
    }
  }

  /** What a truthful report on nominal rows says of its clean slots. */
  lemma CountsOfClean(p: Period, ns: seq<Row>, r: Report)
    requires p.Valid() && TrustedNominals(p, ns) && Nominals(ns) == ns && CountsTruly(p, ns, r)
    ensures r.passed == |CleanSlots(p, ns)|
    ensures forall s :: s in CleanSlots(p, ns) ==> 0 <= s < r.total
    ensures forall s :: 0 <= s < r.total ==>
              (s in CleanSlots(p, ns) <==> forall f :: f in r.failedChecks ==> f.slot != s)
  {
    hide SelfConsistent, Clean, CleanSlots, Slots, TrustedNominals, Nominals;
    SlotsInRange(p, ns);
    CleanAreSlots(p, ns);
    NamedMeans(r.failedChecks);
    hide Named;
    forall s | 0 <= s < r.total
      ensures s in CleanSlots(p, ns) <==> forall f :: f in r.failedChecks ==> f.slot != s
    {
      assert s in CleanSlots(p, ns) <==> s !in Named(r.failedChecks);
    }
  }

  lemma CleanAreSlots(p: Period, ns: seq<Row>)
    ensures CleanSlots(p, ns) <= Slots(ns)
  {
  }

  lemma NamedMeans(failures: seq<FailedCheck>)
    ensures forall s :: s !in Named(failures) <==> forall f :: f in failures ==> f.slot != s
  {
  }

  /** A failed check is either a turn's row with that turn's reasons, or a slot that no turn took up. */
  ghost predicate ToldByTurn(start: Start, turns: seq<Turn>, k: nat, f: FailedCheck)
    requires k <= |turns| && forall i :: 0 <= i < k ==> turns[i].sample.Some?
  {
    match f
    case FailedRow(slot, _, reasons) =>
      slot >= 0 && exists i :: 0 <= i < k && TookUp(start, turns, i, slot) && FailsBy(start, turns[i], slot, reasons)
    case MissingSlot(slot) => slot >= 0 && forall i :: 0 <= i < k ==> !TookUp(start, turns, i, slot)
  }

  predicate FailsBy(start: Start, t: Turn, slot: nat, reasons: seq<string>)
    requires t.sample.Some?
  {
    var o := t.sample.value.observation;
    reasons == o.reasons + if InTime(start, o, slot) then [] else ["late_monitor_observation"]
  }

  lemma FailureTold(start: Start, turns: seq<Turn>, k: nat, f: FailedCheck)
    requires start.WholeSlots() && Clock(start, turns) && k <= |turns| && Running(start, turns, k)
    requires start.Period().Valid() && Nominals(Monitoring(start, turns, k)) == Monitoring(start, turns, k)
    requires Explains(start.Period(), Monitoring(start, turns, k), f)
    ensures ToldByTurn(start, turns, k, f)
  {
    hide Monitoring, NextBt, Slots, Nominals;
    var rows := Monitoring(start, turns, k);
    match f
    case FailedRow(slot, line, reasons) =>
      var i := TurnOfRow(start, turns, k, line - 1);
      PendingSlot(start, turns, i);
      assert TookUp(start, turns, i, slot) && FailsBy(start, turns[i], slot, reasons);
    case MissingSlot(slot) =>
      forall i | 0 <= i < k ensures !TookUp(start, turns, i, slot) {
        if TookUp(start, turns, i, slot) {
          SlotIsTaken(start, turns, k, i, slot);
        }
      }
  }

  lemma {:induction false} SlotIsTaken(start: Start, turns: seq<Turn>, k: nat, i: nat, s: nat)
    requires start.WholeSlots() && Clock(start, turns) && i < k <= |turns| && Running(start, turns, k)
    requires TookUp(start, turns, i, s)
    ensures s in Slots(Monitoring(start, turns, k))
  {
    PendingSlot(start, turns, k - 1);
    hide Monitoring, NextBt, Slots;
    SlotsOfNextTurn(start, turns, k, s);
    if i < k - 1 {
      SlotIsTaken(start, turns, k - 1, i, s);
    }
  }

  // ---------------------------------------------------------------- probes and termination

  /** `time.sleep` returns no earlier than asked, so the next guard reads at or after the due time. */
  ghost predicate SleepsFully(start: Start, turns: seq<Turn>) {
    forall i :: 0 <= i < |turns| - 1 && turns[i].sample.Some? ==>
      turns[i + 1].guardAt >= DueAfter(start, turns, i)
  }

  /** A turn that is not for a nominal slot follows a bad row, five seconds or more after its planning. */
  lemma ProbesFollowFaults(start: Start, turns: seq<Turn>, k: nat)
    requires start.WholeSlots() && Clock(start, turns) && SleepsFully(start, turns)
    requires k < |turns| && Running(start, turns, k) && turns[k].guardAt < start.TargetBt()
    requires !Regular(start, turns, k)
    ensures k > 0 && Bad(turns[k - 1].sample.value.observation)
    ensures turns[k].guardAt >= turns[k - 1].guardAt + RECOVERY_POLL_NS
  {
    assert Ordered(turns[k]);
    if k > 0 {
      assert Ordered(turns[k - 1]) && Validated(start, turns[k - 1]);
      assert turns[(k - 1) + 1].guardAt >= DueAfter(start, turns, k - 1);
    }
  }

  ghost function RegularTurns(start: Start, turns: seq<Turn>, k: nat): nat
    requires k <= |turns|
  {
    if k == 0 then 0
    else RegularTurns(start, turns, k - 1) + if Regular(start, turns, k - 1) then 1 else 0
  }

  lemma StaysPending(start: Start, turns: seq<Turn>, k: nat)
    requires k <= |turns|
    ensures k > 0 && !Regular(start, turns, k - 1) ==> NextBt(start, turns, k) == NextBt(start, turns, k - 1)
    ensures NextBt(start, turns, 0) == start.t0BoottimeNs
  {
  }

  lemma {:induction false} TurnsAgainstTime(start: Start, turns: seq<Turn>, k: nat)
    requires start.WholeSlots() && Clock(start, turns) && SleepsFully(start, turns)
    requires k <= |turns| && Running(start, turns, k)
    ensures RegularTurns(start, turns, k) <= k
    ensures RegularTurns(start, turns, k) * SLOT_NS <= NextBt(start, turns, k) - start.t0BoottimeNs
    ensures k > 0 ==>
              (k - RegularTurns(start, turns, k)) * RECOVERY_POLL_NS <= turns[k - 1].guardAt - start.t0BoottimeNs
  {
    hide Bad, ObserverDue, Projection, SleepsFully, NextBt;
    StaysPending(start, turns, k);
    if k > 0 {
      TurnsAgainstTime(start, turns, k - 1);
      PendingSlot(start, turns, k - 1);
      PendingSlot(start, turns, k);
      assert Ordered(turns[k - 1]) && (k > 1 ==> Ordered(turns[k - 2]));
      if !Regular(start, turns, k - 1) {
        ProbesFollowFaults(start, turns, k - 1);
      }
    }
  }

  /** With honest sleeps the loop ends: one turn a slot, one for the race, and one for each five seconds of fault. */
  lemma LoopIsBounded(start: Start, turns: seq<Turn>, k: nat)
    requires start.WholeSlots() && Clock(start, turns) && SleepsFully(start, turns)
    requires k <= |turns| && Running(start, turns, k)
    ensures k <= start.targetNs / SLOT_NS + 1 + start.targetNs / RECOVERY_POLL_NS
  {
    if k > 0 {
      TurnsAgainstTime(start, turns, k - 1);
      TurnsAgainstTime(start, turns, k);
      PendingSlot(start, turns, k - 1);
    }
  }

  // ---------------------------------------------------------------- the bounded finish

  /** What one turn of `strict_finish` reads from outside, in the order of reading. */
  datatype FinishTurn = FinishTurn(
    sample: Sample,
    checkedAt: int,
    lateAt: int,      // compared with the deadline as a timing failure
    doneAt: int,      // compared with the deadline as a normal end
    plannedAt: int,   // start of the wait
    sleepFrom: int,
    wokenAt: int)

  ghost predicate FinishClock(begin: int, turns: seq<FinishTurn>, deadline: int) {
    && (forall i :: 0 <= i < |turns| ==> FinishOrdered(turns[i], deadline))
    && (turns != [] ==> begin <= turns[0].sample.observation.boottimeNs)
    && (forall i :: 0 < i < |turns| ==> turns[i - 1].wokenAt <= turns[i].sample.observation.boottimeNs)
  }

  /** Readings in order, and the sleep as long as asked. */
  ghost predicate FinishOrdered(t: FinishTurn, deadline: int) {
    && t.sample.observation.boottimeNs <= t.checkedAt <= t.lateAt <= t.doneAt <= t.plannedAt <= t.sleepFrom <= t.wokenAt
    && t.wokenAt >= Min(t.plannedAt + RECOVERY_POLL_NS, deadline)
  }

  datatype FinishError = FinishInvalid(error: CaptureError) | TimingControlFailed

  datatype FinishOutcome =
    | Endpoint(row: Observation, complete: bool)
    | FinishRaised(error: FinishError)
    | FinishInterrupted

  function LastTime(calls: seq<Call>): Option<int> {
    if calls == [] then None else Some(calls[|calls| - 1].row.boottimeNs)
  }

  /** An observation after which the finish looks again: sound, not yet complete, and with time left. */
  predicate Unfinished(start: Start, t: FinishTurn) {
    && Acceptable(start, t.sample)
    && (Bad(t.sample.observation) || !t.sample.observation.strictPass)
    && t.wokenAt < start.TargetBt() + FINALIZATION_RESERVE_NS
  }

  /** The reason for each way in which the finish raises, at its `n`-th observation. */
  predicate FinishFails(start: Start, before: seq<Call>, t: FinishTurn, n: nat, error: FinishError) {
    match error
    case FinishInvalid(RecoveryClock) =>
      // only the first observation can lie behind what the accountant has seen
      && Acceptable(start, t.sample) && n == 1
      && before != [] && t.sample.observation.boottimeNs < LastTime(before).value
    case FinishInvalid(_) => !Acceptable(start, t.sample)
    case TimingControlFailed =>
      Acceptable(start, t.sample) && t.lateAt > start.TargetBt() + FINALIZATION_RESERVE_NS
  }

  lemma UnfinishedMeans(start: Start, t: FinishTurn)
    ensures Unfinished(start, t) <==>
            && Acceptable(start, t.sample) && (Bad(t.sample.observation) || !t.sample.observation.strictPass)
            && t.wokenAt < start.TargetBt() + FINALIZATION_RESERVE_NS
  {
  }

  lemma LastOf(calls: seq<Call>, c: Call)
    ensures LastTime(calls + [c]) == Some(c.row.boottimeNs)
    ensures LastTime(calls).Some? <==> calls != []
  {
  }

  lemma FinishFailsBy(start: Start, before: seq<Call>, t: FinishTurn, n: nat)
    ensures !Acceptable(start, t.sample) ==>
              forall e :: e != RecoveryClock ==> FinishFails(start, before, t, n, FinishInvalid(e))
    ensures Acceptable(start, t.sample) && n == 1 && before != []
            && t.sample.observation.boottimeNs < LastTime(before).value ==>
              FinishFails(start, before, t, n, FinishInvalid(RecoveryClock))
    ensures Acceptable(start, t.sample) && t.lateAt > start.TargetBt() + FINALIZATION_RESERVE_NS ==>
              FinishFails(start, before, t, n, TimingControlFailed)
  {
  }

  /** The accountant takes an observation exactly when it does not lie behind the last one. */
  lemma NextInOrder(recovery: RecoveryObserver, o: Observation, checkedAt: int)
    requires recovery.Valid() && o.boottimeNs <= checkedAt
    ensures MonotoneClock(recovery.history + [Call(o, Some(checkedAt))]) <==>
            (recovery.history != [] ==> LastTime(recovery.history).value <= o.boottimeNs)
  {
    ClockGrows(recovery.history, Call(o, Some(checkedAt)));
  }

  /** The log of the finish: each observation as a probe's row. */
  ghost predicate Logged(turns: seq<FinishTurn>, rows: seq<Row>) {
    && |rows| <= |turns|
    && (forall i :: 0 <= i < |rows| ==> rows[i].role == FinishProbe && Tells(rows[i], turns[i].sample.observation))
  }

  ghost predicate AllUnfinished(start: Start, turns: seq<FinishTurn>, n: nat)
    requires n <= |turns|
  {
    forall i :: 0 <= i < n ==> Unfinished(start, turns[i])
  }

  lemma NothingLogged(start: Start, turns: seq<FinishTurn>)
    ensures Logged(turns, []) && AllUnfinished(start, turns, 0)
  {
  }

  lemma FinishGrows(start: Start, turns: seq<FinishTurn>, rows: seq<Row>)
    requires |rows| < |turns| && Logged(turns, rows)
    ensures Logged(turns, rows + [ProbeRow(start, FinishProbe, turns[|rows|].sample.observation)])
    ensures AllUnfinished(start, turns, |rows|) && Unfinished(start, turns[|rows|]) ==>
              AllUnfinished(start, turns, |rows| + 1)
  {
    RowsTell(start, 0, turns[|rows|].sample.observation);
    hide ProbeRow, Tells, Unfinished;
  }

  lemma LessUnfinished(start: Start, turns: seq<FinishTurn>, n: nat)
    requires n <= |turns| && AllUnfinished(start, turns, n)
    ensures n > 0 ==> AllUnfinished(start, turns, n - 1)
  {
  }

  lemma FinishInOrder(begin: int, turns: seq<FinishTurn>, deadline: int, k: nat)
    requires FinishClock(begin, turns, deadline) && k < |turns|
    ensures FinishOrdered(turns[k], deadline) && (k > 0 ==> FinishOrdered(turns[k - 1], deadline))
    ensures (if k == 0 then begin else turns[k - 1].wokenAt) <= turns[k].sample.observation.boottimeNs
  {
  }

  /** `validate_capture` as the finish calls it: the checks on the sample, and then the accountant's. */
  method ValidateFinishing(start: Start, recovery: RecoveryObserver, t: FinishTurn)
    returns (r: Result<bool, CaptureError>)
    requires recovery.Valid() && t.sample.observation.boottimeNs <= t.checkedAt
    modifies recovery
    ensures recovery.Valid()
    ensures
      var o, before := t.sample.observation, old(recovery.history);
      && (!Acceptable(start, t.sample) ==> r.Failure? && r.error != RecoveryClock)
      && (Acceptable(start, t.sample) ==>
            (r == Failure(RecoveryClock) <==> before != [] && o.boottimeNs < LastTime(before).value))
      && (Acceptable(start, t.sample) && r.Failure? ==> r.error == RecoveryClock)
      && (r.Success? ==>
            && r.value == (!Bad(o) && o.strictPass)
            && LastTime(recovery.history) == Some(o.boottimeNs) && |recovery.history| == |before| + 1)
  {
    hide MonotoneClock, Observed, Bad, Acceptable;
    var fault := ValidateCapture(start, t.sample);
    if fault.Some? {
      return Failure(fault.value);
    }
    NextInOrder(recovery, t.sample.observation, t.checkedAt);
    LastOf(recovery.history, Call(t.sample.observation, Some(t.checkedAt)));
    var finished := recovery.FinishEndpoint(t.sample.observation, Some(t.checkedAt));
    r := if finished.Failure? then Failure(RecoveryClock) else Success(finished.value);
  }

  /**
   * Observe the recorder until a complete endpoint or the reserve runs out. The endpoint returned was
   * observed by the deadline; an incomplete one is returned only once the deadline has been reached.
   */
  method StrictFinish(start: Start, recovery: RecoveryObserver, begin: int, turns: seq<FinishTurn>)
    returns (outcome: FinishOutcome, rows: seq<Row>)
    requires recovery.Valid()
    requires begin >= start.TargetBt() && FinishClock(begin, turns, start.TargetBt() + FINALIZATION_RESERVE_NS)
    modifies recovery
    ensures |rows| <= MAX_FINISH_OBSERVATIONS && Logged(turns, rows)
    ensures outcome.Endpoint? ==>
              && rows != [] && outcome.row == turns[|rows| - 1].sample.observation
              && outcome.row.boottimeNs <= start.TargetBt() + FINALIZATION_RESERVE_NS
              && outcome.complete == (!Bad(outcome.row) && outcome.row.strictPass)
              && (outcome.complete || turns[|rows| - 1].wokenAt >= start.TargetBt() + FINALIZATION_RESERVE_NS)
    ensures rows != [] ==> AllUnfinished(start, turns, |rows| - 1)
    ensures outcome.FinishInterrupted? ==> |rows| == |turns| && AllUnfinished(start, turns, |turns|)
    ensures outcome.FinishRaised? ==>
              && rows != []
              && FinishFails(start, old(recovery.history), turns[|rows| - 1], |rows|, outcome.error)
    ensures outcome.Endpoint? ==> Acceptable(start, turns[|rows| - 1].sample)
    ensures outcome.Endpoint? ==> recovery.Valid() && |recovery.history| == |old(recovery.history)| + |rows|
  {
    hide MonotoneClock, Observed, Bad, Acceptable, ProbeRow, FinishFails, Unfinished, LastTime, Logged, AllUnfinished,
         FinishClock;
    var deadline := start.TargetBt() + FINALIZATION_RESERVE_NS;
    rows := [];
    NothingLogged(start, turns);
    var k := 0;
    while k < |turns|
      invariant 0 <= k <= |turns| && |rows| == k
      invariant recovery.Valid() && |recovery.history| == |old(recovery.history)| + k
      invariant Logged(turns, rows) && AllUnfinished(start, turns, k)
      invariant k == 0 ==> recovery.history == old(recovery.history)
      invariant k > 0 ==> LastTime(recovery.history) == Some(turns[k - 1].sample.observation.boottimeNs)
      invariant k > 0 ==> begin + k * RECOVERY_POLL_NS <= turns[k - 1].wokenAt < deadline
    {
      var turn := turns[k];
      FinishInOrder(begin, turns, deadline, k);
      FinishGrows(start, turns, rows);
      FinishFailsBy(start, old(recovery.history), turn, k + 1);
      UnfinishedMeans(start, turn);
      rows := rows + [ProbeRow(start, FinishProbe, turn.sample.observation)];
      var finished := ValidateFinishing(start, recovery, turn);
      if finished.Failure? {
        outcome := FinishRaised(FinishInvalid(finished.error));
        return;
      }
      if turn.lateAt > deadline || turn.sample.observation.boottimeNs > deadline {
        outcome := FinishRaised(TimingControlFailed);
        return;
      }
      if finished.value || turn.doneAt >= deadline {
        outcome := Endpoint(turn.sample.observation, finished.value);
        return;
      }
      if turn.wokenAt >= deadline {
        outcome := Endpoint(turn.sample.observation, finished.value);
        return;
      }
      k := k + 1;
    }
    outcome := FinishInterrupted;
    LessUnfinished(start, turns, k);
  }
}
