/** Sample-start cadence of an acceptance stage: `_run_acceptance_stage`. */
module AcceptanceCadence {
  import opened Wrappers

  /** Clock readings of one loop turn; `nowAt` is read only when there is a target to wait for. */
  datatype Turn = Turn(nowAt: int, startAt: int, recordedAt: int)

  datatype Stage = Stage(t0: int, duration: int, interval: int) {
    function End(): int {
      t0 + duration
    }
  }

  datatype StageError = NotInitialized

  datatype Outcome = Finalized(starts: seq<int>, last: int) | StillSampling(starts: seq<int>)

  function Min(a: int, b: int): (m: int)
    ensures m <= a && m <= b && m in {a, b}
  {
    if a <= b then a else b
  }

  function Max(a: int, b: int): (m: int)
    ensures m >= a && m >= b && m in {a, b}
  {
    if a >= b then a else b
  }

  /** The loop asks to be woken at its target or at the end of the stage, whichever is first, but never in the past. */
  function Wait(stage: Stage, now: int, target: int): (wait: int)
    ensures wait >= 0 && now + wait == Max(now, Min(target, stage.End()))
  {
    var remaining := stage.duration - (now - stage.t0);
    if remaining > 0 then Min(if target - now > 0 then target - now else 0, remaining) else 0
  }

  /** What the previous sample anchors the next target to: its start, or the last record of a resumed stage. */
  function Anchor(last: Option<int>, turns: seq<Turn>, k: nat): Option<int>
    requires k <= |turns|
  {
    if k == 0 then last else Some(turns[k - 1].startAt)
  }

  /** The clock never runs back, sleeps last at least as asked, and a sample records no time before its start. */
  ghost predicate Honest(stage: Stage, last: Option<int>, turns: seq<Turn>) {
    && (last.Some? ==> stage.t0 <= last.value && (turns != [] ==> last.value <= turns[0].nowAt))
    && (forall k :: 0 <= k < |turns| ==> HonestTurn(stage, last, turns, k))
  }

  ghost predicate HonestTurn(stage: Stage, last: Option<int>, turns: seq<Turn>, k: nat)
    requires k < |turns|
  {
    && (if k == 0 then stage.t0 <= turns[k].nowAt else turns[k - 1].recordedAt <= turns[k].nowAt)
    && turns[k].nowAt <= turns[k].startAt <= turns[k].recordedAt
    && (Anchor(last, turns, k).Some? ==>
          turns[k].startAt >=
          turns[k].nowAt + Wait(stage, turns[k].nowAt, Anchor(last, turns, k).value + stage.interval))
  }

  /** Time of the last sample once `k` samples have been taken here. */
  function Recorded(last: Option<int>, turns: seq<Turn>, k: nat): Option<int>
    requires k <= |turns|
  {
    if k == 0 then last else Some(turns[k - 1].recordedAt)
  }

  predicate Reached(stage: Stage, last: Option<int>, turns: seq<Turn>, k: nat)
    requires k <= |turns|
  {
    Recorded(last, turns, k).Some? && Recorded(last, turns, k).value >= stage.End()
  }

  /** Length of `n` whole intervals. */
  function Span(n: int, interval: int): int {
    n * interval
  }

  lemma SpanNext(n: int, interval: int)
    ensures Span(n + 1, interval) == Span(n, interval) + interval
    ensures Span(0, interval) == 0
  {
  }

  method RunAcceptanceStage(t0: Option<int>, duration: int, interval: int, last: Option<int>, turns: seq<Turn>)
    returns (r: Result<Outcome, StageError>)
    requires interval > 0
    requires t0.Some? ==> Honest(Stage(t0.value, duration, interval), last, turns)
    ensures r.Failure? <==> t0.None?
    ensures r.Success? ==>
              var starts := r.value.starts;
              && |starts| <= |turns|
              && (forall i :: 0 <= i < |starts| ==> starts[i] == turns[i].startAt)
              // the cadence: no sample starts early
              && (last.Some? && starts != [] ==> starts[0] >= Min(last.value + interval, t0.value + duration))
              && (forall i :: 0 < i < |starts| ==> starts[i] >= Min(starts[i - 1] + interval, t0.value + duration))
              // the loop ends: about duration / interval samples
              && (|starts| <= 1 || Span(|starts| - 2, interval) < duration)
    ensures r.Success? ==>
              // it samples until, and no further than, a sample recorded at or past the end
              var stage, n := Stage(t0.value, duration, interval), |r.value.starts|;
              && (forall i :: 0 <= i < n ==> !Reached(stage, last, turns, i))
              && (r.value.StillSampling? ==> n == |turns| && !Reached(stage, last, turns, n))
              && (r.value.Finalized? ==>
                    Reached(stage, last, turns, n) && Some(r.value.last) == Recorded(last, turns, n))
  {
    hide Honest, Span, Wait, Min, Recorded, Reached;
    if t0.None? {
      return Failure(NotInitialized);
    }
    var stage := Stage(t0.value, duration, interval);
    var starts: seq<int> := [];
    var lastSample := last;
    var target: Option<int> := if last.None? then None else Some(last.value + interval);
    NothingRecorded(last, turns);
    SpanNext(0, interval);
    var k := 0;
    while k < |turns| && (lastSample.None? || lastSample.value - stage.t0 < duration)
      invariant 0 <= k <= |turns| && |starts| == k
      invariant forall i :: 0 <= i < k ==> starts[i] == turns[i].startAt
      invariant lastSample == Recorded(last, turns, k)
      invariant forall i :: 0 <= i < k ==> !Reached(stage, last, turns, i)
      invariant target == match Anchor(last, turns, k) case None => None case Some(a) => Some(a + interval)
      invariant last.Some? && k > 0 ==> starts[0] >= Min(last.value + interval, stage.End())
      invariant forall i :: 0 < i < k ==> starts[i] >= Min(starts[i - 1] + interval, stage.End())
      invariant k > 0 && starts[k - 1] < stage.End() ==> starts[k - 1] - stage.t0 >= Span(k - 1, interval)
      invariant k > 1 ==> Span(k - 2, interval) < duration
    {
      var turn := turns[k];
      ReachedMeans(stage, last, turns, k);
      RecordedNext(last, turns, k);
      StartsOnTime(stage, last, turns, k);
      if k > 0 {
        KeepsPace(stage, last, turns, k);
      }
      starts := starts + [turn.startAt];
      lastSample := Some(turn.recordedAt);
      target := Some(turn.startAt + interval);
      k := k + 1;
    }
    ReachedMeans(stage, last, turns, k);
    if lastSample.Some? && lastSample.value - stage.t0 >= duration {
      r := Success(Finalized(starts, lastSample.value));
    } else {
      r := Success(StillSampling(starts));
    }
  }

  lemma NothingRecorded(last: Option<int>, turns: seq<Turn>)
    ensures Recorded(last, turns, 0) == last
  {
  }

  lemma RecordedNext(last: Option<int>, turns: seq<Turn>, k: nat)
    requires k < |turns|
    ensures Recorded(last, turns, k + 1) == Some(turns[k].recordedAt)
    ensures k > 0 ==> Recorded(last, turns, k) == Some(turns[k - 1].recordedAt)
  {
  }

  lemma ReachedMeans(stage: Stage, last: Option<int>, turns: seq<Turn>, k: nat)
    requires k <= |turns|
    ensures Reached(stage, last, turns, k) <==>
            Recorded(last, turns, k).Some? && Recorded(last, turns, k).value - stage.t0 >= stage.duration
  {
  }

  /** Starts keep an interval apart until the stage has ended, so sample `k` needs `k - 1` intervals of the stage. */
  lemma KeepsPace(stage: Stage, last: Option<int>, turns: seq<Turn>, k: nat)
    requires Honest(stage, last, turns) && 0 < k < |turns|
    requires turns[k - 1].startAt < stage.End() ==> turns[k - 1].startAt - stage.t0 >= Span(k - 1, stage.interval)
    ensures turns[k].startAt < stage.End() ==> turns[k].startAt - stage.t0 >= Span(k, stage.interval)
    ensures turns[k - 1].recordedAt - stage.t0 < stage.duration ==> Span(k - 1, stage.interval) < stage.duration
  {
    StartsOnTime(stage, last, turns, k - 1);
    StartsOnTime(stage, last, turns, k);
    SpanNext(k - 1, stage.interval);
    hide Honest, Span;
  }

  lemma {:induction false} StartsOnTime(stage: Stage, last: Option<int>, turns: seq<Turn>, k: nat)
    requires Honest(stage, last, turns) && k < |turns|
    ensures stage.t0 <= turns[k].startAt <= turns[k].recordedAt
    ensures Anchor(last, turns, k).Some? ==>
              turns[k].startAt >= Min(Anchor(last, turns, k).value + stage.interval, stage.End())
  {
    hide Wait, Min;
    assert HonestTurn(stage, last, turns, k);
    if k > 0 {
      StartsOnTime(stage, last, turns, k - 1);
    }
  }

  /** The bound on samples, as a count: at most one per interval, one more at the end, one more to start. */
  lemma SampleCount(n: nat, interval: int, duration: int)
    requires interval > 0 && duration > 0
    requires n <= 1 || Span(n - 2, interval) < duration
    ensures n <= (duration - 1) / interval + 2
  {
    if n > (duration - 1) / interval + 2 {
      var q := (duration - 1) / interval;
      assert duration - 1 == q * interval + (duration - 1) % interval;
      assert (q + 1) * interval == q * interval + interval;
      AtLeast(q + 1, n - 2, interval);
    }
  }

  lemma AtLeast(a: int, b: int, interval: int)
    requires a <= b && interval > 0
    ensures a * interval <= b * interval
  {
  }
}
