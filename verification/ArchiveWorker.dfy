/** The archive worker cycle by cycle, against the service rates and the service gap that the evaluation reports. */
module ArchiveWorker {
  import opened DiskBudget

  // ---------------------------------------------------------------- the worker

  /** Whole cycles begun and ended by second `t` of the worker's clock. */
  function Cycles(b: Budget, t: real): (n: int)
    requires b.Valid()
    ensures Amount(n as real, b.archiveCycle) <= t < Amount(n as real + 1.0, b.archiveCycle)
  {
    Divide(t, b.archiveCycle);
    (t / b.archiveCycle).Floor
  }

  lemma Divide(t: real, cycle: real)
    requires cycle > 0.0
    ensures
      var n := (t / cycle).Floor as real;
      Amount(n, cycle) <= t < Amount(n + 1.0, cycle)
  {
    var q := t / cycle;
    var n := q.Floor as real;
    assert n <= q < n + 1.0;
    Scales(n, q, cycle);
    Scales(q, n + 1.0, cycle);
    Whole(t, cycle);
    hide Amount;
  }

  lemma Scales(x: real, y: real, k: real)
    requires x <= y && k >= 0.0
    ensures Amount(x, k) <= Amount(y, k)
    ensures x < y && k > 0.0 ==> Amount(x, k) < Amount(y, k)
  {
    AmountSplits(y, x, k);
    IsPositive(y - x, k);
    hide Amount;
  }

  lemma IsPositive(x: real, k: real)
    requires x >= 0.0 && k >= 0.0
    ensures Amount(x, k) >= 0.0 && (x > 0.0 && k > 0.0 ==> Amount(x, k) > 0.0)
  {
  }

  /** Seconds since the last cycle began: the worker first works, and then idles until the next one. */
  function Phase(b: Budget, t: real): (x: real)
    requires b.Valid()
    ensures 0.0 <= x < b.archiveCycle
  {
    AmountSplitsOne(Cycles(b, t) as real, b.archiveCycle);
    t - Amount(Cycles(b, t) as real, b.archiveCycle)
  }

  lemma AmountSplitsOne(n: real, x: real)
    ensures Amount(n + 1.0, x) == Amount(n, x) + x
  {
  }

  function BytesACycle(b: Budget): real {
    Amount(b.archiveBytesPerWorkSecond, b.archiveWork)
  }

  /** A cycle ends early once it has moved its number of files. */
  function ChunksACycle(b: Budget): real {
    Min(Amount(b.archiveChunksPerWorkSecond, b.archiveWork), b.archiveMaxFilesPerCycle as real)
  }

  /** What the worker can have moved by second `t` of its clock. */
  function BytesMoved(b: Budget, t: real): real
    requires b.Valid()
  {
    Amount(Cycles(b, t) as real, BytesACycle(b)) + Amount(b.archiveBytesPerWorkSecond, Min(Phase(b, t), b.archiveWork))
  }

  function ChunksMoved(b: Budget, t: real): real
    requires b.Valid()
  {
    Amount(Cycles(b, t) as real, ChunksACycle(b)) +
    Min(Amount(b.archiveChunksPerWorkSecond, Min(Phase(b, t), b.archiveWork)), b.archiveMaxFilesPerCycle as real)
  }

  // ---------------------------------------------------------------- what a cycle amounts to

  lemma RatesAreOfACycle(b: Budget)
    requires b.Valid()
    ensures Amount(ByteService(b), b.archiveCycle) == BytesACycle(b) >= 0.0
    ensures Amount(FileService(b), b.archiveCycle) == ChunksACycle(b) >= 0.0
    ensures ByteService(b) >= 0.0 && FileService(b) >= 0.0
  {
    var duty := b.archiveWork / b.archiveCycle;
    Whole(b.archiveWork, b.archiveCycle);
    Associates(b.archiveBytesPerWorkSecond, duty, b.archiveCycle);
    AmountGrows(b.archiveBytesPerWorkSecond, 0.0, b.archiveWork);
    AmountGrows(b.archiveBytesPerWorkSecond, 0.0, duty);
    AmountGrows(b.archiveChunksPerWorkSecond, 0.0, b.archiveWork);
    Whole(ChunksACycle(b), b.archiveCycle);
  }

  lemma Whole(x: real, y: real)
    requires y > 0.0
    ensures Amount(x / y, y) == x && (x >= 0.0 ==> x / y >= 0.0)
  {
  }

  lemma Associates(x: real, y: real, z: real)
    ensures Amount(x * y, z) == Amount(x, Amount(y, z))
  {
  }

  /** Within a cycle the worker is never behind its average rate, and never moves more than a cycle's worth. */
  lemma BytesOfPhase(b: Budget, x: real)
    requires b.Valid() && 0.0 <= x < b.archiveCycle
    ensures Amount(ByteService(b), x) <= Amount(b.archiveBytesPerWorkSecond, Min(x, b.archiveWork)) <= BytesACycle(b)
  {
    var rate, work, duty := b.archiveBytesPerWorkSecond, b.archiveWork, b.archiveWork / b.archiveCycle;
    RatesAreOfACycle(b);
    AmountGrows(rate, Min(x, work), work);
    AmountGrows(ByteService(b), x, b.archiveCycle);
    if x <= work {
      Part(work, b.archiveCycle, x);
      Associates(rate, duty, x);
      AmountGrows(rate, Amount(duty, x), x);
    }
  }

  lemma Part(x: real, y: real, of: real)
    requires 0.0 <= x <= y && y > 0.0 && of >= 0.0
    ensures Amount(x / y, of) <= of
  {
    Whole(x, y);
    Scales(x / y, 1.0, of);
  }

  lemma ChunksOfPhase(b: Budget, x: real)
    requires b.Valid() && 0.0 <= x < b.archiveCycle
    ensures
      Amount(FileService(b), x) <=
      Min(Amount(b.archiveChunksPerWorkSecond, Min(x, b.archiveWork)), b.archiveMaxFilesPerCycle as real)
      <= ChunksACycle(b)
  {
    var rate, work := b.archiveChunksPerWorkSecond, b.archiveWork;
    RatesAreOfACycle(b);
    AmountGrows(rate, Min(x, work), work);
    AmountGrows(FileService(b), x, b.archiveCycle);
    if x <= work {
      Slower(b, x);
    }
  }

  lemma Slower(b: Budget, x: real)
    requires b.Valid() && 0.0 <= x <= b.archiveWork
    ensures Amount(FileService(b), x) <= Amount(b.archiveChunksPerWorkSecond, x)
  {
    var rate, work, cycle := b.archiveChunksPerWorkSecond, b.archiveWork, b.archiveCycle;
    RatesAreOfACycle(b);
    AmountGrows(rate, work, cycle);
    NoFaster(FileService(b), rate, cycle);
    Scales(FileService(b), rate, x);
  }

  lemma NoFaster(x: real, y: real, k: real)
    requires k > 0.0 && Amount(x, k) <= Amount(y, k)
    ensures x <= y
  {
    if y < x {
      Scales(y, x, k);
    }
  }

  lemma TimeSplits(rate: real, n: real, cycle: real, x: real)
    ensures Amount(rate, Amount(n, cycle) + x) == Amount(n, Amount(rate, cycle)) + Amount(rate, x)
  {
    assert rate * (n * cycle) == n * (rate * cycle);
  }

  // ---------------------------------------------------------------- main results

  /** Over whole cycles the worker moves exactly its work seconds' bytes, and its files or its cap, in each of them. */
  lemma WholeCyclesAreExact(b: Budget, n: nat)
    requires b.Valid()
    ensures
      var t := Amount(n as real, b.archiveCycle);
      && BytesMoved(b, t) == n as real * (b.archiveWork * b.archiveBytesPerWorkSecond)
                          == Amount(ByteService(b), t)
      && ChunksMoved(b, t) == n as real * Min(b.archiveChunksPerWorkSecond * b.archiveWork,
                                              b.archiveMaxFilesPerCycle as real)
                           == Amount(FileService(b), t)
  {
    var t := Amount(n as real, b.archiveCycle);
    WholeCount(Cycles(b, t), n, b.archiveCycle);
    RatesAreOfACycle(b);
    TimeSplits(ByteService(b), n as real, b.archiveCycle, 0.0);
    TimeSplits(FileService(b), n as real, b.archiveCycle, 0.0);
    hide ByteService, FileService, Cycles;
  }

  lemma WholeCount(m: int, n: int, cycle: real)
    requires cycle > 0.0
    requires Amount(m as real, cycle) <= Amount(n as real, cycle) < Amount(m as real + 1.0, cycle)
    ensures m == n
  {
    hide Amount;
    if m < n {
      Scales(m as real + 1.0, n as real, cycle);
    } else if n < m {
      Scales(n as real, m as real, cycle);
    }
  }

  /** At any moment the worker has moved at least what the rate says, and at most a cycle's worth more. */
  lemma WorkerKeepsRate(b: Budget, t: real)
    requires b.Valid()
    ensures Amount(ByteService(b), t) <= BytesMoved(b, t) <= Amount(ByteService(b), t) + BytesACycle(b)
    ensures Amount(FileService(b), t) <= ChunksMoved(b, t) <= Amount(FileService(b), t) + ChunksACycle(b)
  {
    var n, x := Cycles(b, t) as real, Phase(b, t);
    RatesAreOfACycle(b);
    BytesOfPhase(b, x);
    ChunksOfPhase(b, x);
    TimeSplits(ByteService(b), n, b.archiveCycle, x);
    TimeSplits(FileService(b), n, b.archiveCycle, x);
    hide ByteService, FileService, Amount, Cycles, BytesACycle, ChunksACycle;
    AmountGrows(ByteService(b), 0.0, x);
    AmountGrows(FileService(b), 0.0, x);
  }

  /**
   * The service that the evaluation credits is really given: in any window of the worker's clock, wherever in a
   * cycle it begins, at least the reported rates are served once one whole cycle is set aside as a gap. With the
   * time that the archive is away, that gap is the reported outage.
   */
  lemma ServiceAfterOutage(b: Budget, from: real, t: real)
    requires b.Valid() && Outage(b) <= t <= b.horizon
    ensures
      var until := from + t - b.archiveUnavailable;
      && BytesMoved(b, until) - BytesMoved(b, from) >= Amount(ByteService(b), t - Outage(b))
      && ChunksMoved(b, until) - ChunksMoved(b, from) >= Amount(FileService(b), t - Outage(b))
  {
    var window := t - b.archiveUnavailable;
    WorkerKeepsRate(b, from);
    WorkerKeepsRate(b, from + window);
    RatesAreOfACycle(b);
    hide ByteService, FileService, BytesMoved, ChunksMoved, BytesACycle, ChunksACycle, Amount;
    Sums(ByteService(b), from, window, b.archiveCycle);
    Sums(FileService(b), from, window, b.archiveCycle);
    if Outage(b) == b.horizon {
      AmountGrows(ByteService(b), 0.0, 0.0);
      AmountGrows(FileService(b), 0.0, 0.0);
      NeverBack(b, from, from + window);
    }
  }

  /** Nothing that was moved comes back. */
  lemma NeverBack(b: Budget, from: real, until: real)
    requires b.Valid() && from <= until
    ensures BytesMoved(b, from) <= BytesMoved(b, until) && ChunksMoved(b, from) <= ChunksMoved(b, until)
  {
    var m, n := Cycles(b, from), Cycles(b, until);
    RatesAreOfACycle(b);
    CyclesGrow(m, n, b.archiveCycle, from, until);
    if m < n {
      BytesOfPhase(b, Phase(b, from));
      ChunksOfPhase(b, Phase(b, from));
      NoLess(b, Phase(b, until));
      CycleMore(m, n, BytesACycle(b));
      CycleMore(m, n, ChunksACycle(b));
      hide Amount, Cycles, Phase, BytesACycle, ChunksACycle, ByteService, FileService;
    } else {
      var x, y := Min(Phase(b, from), b.archiveWork), Min(Phase(b, until), b.archiveWork);
      AmountGrows(b.archiveBytesPerWorkSecond, x, y);
      AmountGrows(b.archiveChunksPerWorkSecond, x, y);
      hide Amount, Cycles, BytesACycle, ChunksACycle;
    }
  }

  lemma NoLess(b: Budget, x: real)
    requires b.Valid() && x >= 0.0
    ensures Amount(b.archiveBytesPerWorkSecond, Min(x, b.archiveWork)) >= 0.0
    ensures Amount(b.archiveChunksPerWorkSecond, Min(x, b.archiveWork)) >= 0.0
  {
    AmountGrows(b.archiveBytesPerWorkSecond, 0.0, Min(x, b.archiveWork));
    AmountGrows(b.archiveChunksPerWorkSecond, 0.0, Min(x, b.archiveWork));
  }

  lemma CyclesGrow(m: int, n: int, cycle: real, from: real, until: real)
    requires cycle > 0.0 && from <= until
    requires Amount(m as real, cycle) <= from && until < Amount(n as real + 1.0, cycle)
    ensures m <= n
  {
    if n < m {
      Scales(n as real + 1.0, m as real, cycle);
    }
  }

  lemma CycleMore(m: int, n: int, x: real)
    requires m < n && x >= 0.0
    ensures Amount(m as real, x) + x <= Amount(n as real, x)
  {
    Scales(m as real + 1.0, n as real, x);
    AmountSplitsOne(m as real, x);
  }

  lemma Sums(rate: real, from: real, window: real, cycle: real)
    ensures Amount(rate, from + window) == Amount(rate, from) + Amount(rate, window)
    ensures Amount(rate, window - cycle) == Amount(rate, window) - Amount(rate, cycle)
  {
  }
}
