/** Offline disk planning: closed-form bounds of `r3_capacity.evaluate` against the backlog they bound. */
module DiskBudget {
  import opened Wrappers

  const HARD_RESERVE_BYTES := 10 * 1024 * 1024 * 1024

  datatype Budget = Budget(
    writerFreeBytes: int,
    archiveFreeBytes: int,
    horizon: real,
    archiveUnavailable: real,
    sealedBytesPerSecond: real,
    chunksPerSecond: real,
    archiveBytesPerWorkSecond: real,
    archiveChunksPerWorkSecond: real,
    archiveWork: real,
    archiveCycle: real,
    archiveMaxFilesPerCycle: int,
    metadataBytesPerSecond: real,
    archiveMetadataBytesPerChunk: int,
    otherGrowthBytesPerSecond: real,
    initialBacklogBytes: int,
    initialBacklogChunks: int,
    activeRawPeak: int,
    sealTemporaryPeak: int,
    archiveTemporaryPeak: int,
    walPeak: int,
    otherTemporaryPeak: int)
  {
    /** The constructor refuses anything else. */
    predicate Valid() {
      && writerFreeBytes >= 0 && archiveFreeBytes >= 0 && archiveUnavailable >= 0.0
      && sealedBytesPerSecond >= 0.0 && chunksPerSecond >= 0.0
      && archiveBytesPerWorkSecond >= 0.0 && archiveChunksPerWorkSecond >= 0.0 && archiveWork >= 0.0
      && archiveMaxFilesPerCycle >= 0 && metadataBytesPerSecond >= 0.0 && archiveMetadataBytesPerChunk >= 0
      && otherGrowthBytesPerSecond >= 0.0 && initialBacklogBytes >= 0 && initialBacklogChunks >= 0
      && activeRawPeak >= 0 && sealTemporaryPeak >= 0 && archiveTemporaryPeak >= 0 && walPeak >= 0
      && otherTemporaryPeak >= 0
      && horizon > 0.0 && archiveCycle > 0.0
      && archiveWork <= archiveCycle
      && archiveUnavailable <= horizon
      && (sealedBytesPerSecond > 0.0 <==> chunksPerSecond > 0.0)
      && (initialBacklogBytes > 0 <==> initialBacklogChunks > 0)
    }
  }

  datatype Blocking = ServiceNotAboveArrival | NotCaughtUp | WriterAtReserve | ArchiveExhausted

  datatype Evaluation = Evaluation(
    outage: real,
    byteService: real,
    fileService: real,
    stable: bool,
    catchup: Option<real>,
    backlogBytes: real,       // when the outage ends
    endBacklog: real,
    peakBacklog: real,
    writerMin: int,
    archiveMin: int,
    runway: Option<real>,
    reasons: seq<Blocking>)
  {
    predicate Fits() {
      reasons == []
    }
  }

  function Min(a: real, b: real): real {
    if a <= b then a else b
  }

  function Max(a: real, b: real): real {
    if a >= b then a else b
  }

  /** What a rate amounts to over a time. */
  function Amount(rate: real, seconds: real): real {
    rate * seconds
  }

  function Ceil(x: real): (n: int)
    ensures n as real - 1.0 < x <= n as real
  {
    -((-x).Floor)
  }

  // ---------------------------------------------------------------- the evaluation

  function ByteService(b: Budget): real
    requires b.Valid()
  {
    b.archiveBytesPerWorkSecond * (b.archiveWork / b.archiveCycle)
  }

  function FileService(b: Budget): real
    requires b.Valid()
  {
    Min(b.archiveChunksPerWorkSecond * b.archiveWork, b.archiveMaxFilesPerCycle as real) / b.archiveCycle
  }

  function Outage(b: Budget): real {
    Min(b.horizon, b.archiveUnavailable + b.archiveCycle)
  }

  function ArrivalBytesPerChunk(b: Budget): real {
    if b.chunksPerSecond != 0.0 then b.sealedBytesPerSecond / b.chunksPerSecond else 0.0
  }

  function MixBytesPerChunk(b: Budget): real {
    if ArrivalBytesPerChunk(b) != 0.0 then ArrivalBytesPerChunk(b)
    else if b.initialBacklogChunks != 0 then b.initialBacklogBytes as real / b.initialBacklogChunks as real
    else 0.0
  }

  function InitialEquivalent(b: Budget): real {
    Max(b.initialBacklogBytes as real, Amount(ArrivalBytesPerChunk(b), b.initialBacklogChunks as real))
  }

  function BacklogBytes(b: Budget): real {
    InitialEquivalent(b) + Amount(b.sealedBytesPerSecond, Outage(b))
  }

  function BacklogChunks(b: Budget): real {
    b.initialBacklogChunks as real + Amount(b.chunksPerSecond, Outage(b))
  }

  predicate Stable(b: Budget)
    requires b.Valid()
  {
    ByteService(b) > b.sealedBytesPerSecond && FileService(b) > b.chunksPerSecond
  }

  function EffectiveService(b: Budget): real
    requires b.Valid()
  {
    Min(ByteService(b), Amount(MixBytesPerChunk(b), FileService(b)))
  }

  function Catchup(b: Budget): real
    requires b.Valid() && Stable(b)
  {
    Max(BacklogBytes(b) / (ByteService(b) - b.sealedBytesPerSecond),
        BacklogChunks(b) / (FileService(b) - b.chunksPerSecond))
  }

  function Growth(b: Budget): real {
    b.metadataBytesPerSecond + b.otherGrowthBytesPerSecond
  }

  function Transient(b: Budget): int {
    b.activeRawPeak + b.sealTemporaryPeak + b.archiveTemporaryPeak + b.walPeak + b.otherTemporaryPeak
  }

  function EndBacklog(b: Budget): real
    requires b.Valid()
  {
    Max(0.0, BacklogBytes(b) + Amount(b.sealedBytesPerSecond - EffectiveService(b), b.horizon - Outage(b)))
  }

  function PeakBacklog(b: Budget): real
    requires b.Valid()
  {
    Max(BacklogBytes(b), EndBacklog(b))
  }

  function WriterMin(b: Budget): int
    requires b.Valid()
  {
    (b.writerFreeBytes as real - Amount(Growth(b), b.horizon) - Transient(b) as real - PeakBacklog(b)).Floor
  }

  function ArchiveNeeded(b: Budget): int {
    var metadata := Ceil(Amount(b.archiveMetadataBytesPerChunk as real,
                                b.initialBacklogChunks as real + Amount(b.chunksPerSecond, b.horizon)));
    Ceil(b.initialBacklogBytes as real + Amount(b.sealedBytesPerSecond, b.horizon) + metadata as real +
         b.archiveTemporaryPeak as real)
  }

  function Runway(b: Budget): Option<real> {
    var drain := b.sealedBytesPerSecond + Growth(b);
    if drain > 0.0 then
      Some(Max(0.0, (b.writerFreeBytes - HARD_RESERVE_BYTES - Transient(b) - b.initialBacklogBytes) as real / drain))
    else None
  }

  function Evaluate(b: Budget): Evaluation
    requires b.Valid()
  {
    var stable := Stable(b);
    var catchup := if stable then Some(Catchup(b)) else None;
    var archiveMin := b.archiveFreeBytes - ArchiveNeeded(b);
    var reasons :=
      (if !stable then [ServiceNotAboveArrival] else []) +
      (if catchup.None? || catchup.value > b.horizon - Outage(b) then [NotCaughtUp] else []) +
      (if WriterMin(b) <= HARD_RESERVE_BYTES then [WriterAtReserve] else []) +
      (if archiveMin <= 0 then [ArchiveExhausted] else []);
    Evaluation(Outage(b), ByteService(b), FileService(b), stable, catchup, BacklogBytes(b), EndBacklog(b),
               PeakBacklog(b), WriterMin(b), archiveMin, Runway(b), reasons)
  }

  // ---------------------------------------------------------------- the trajectories it bounds

  /** Arrivals pile up on `initial` through the outage; then service works them off, never below zero. */
  function Trajectory(initial: real, arrival: real, service: real, outage: real, t: real): real {
    if t <= outage then initial + Amount(arrival, t)
    else Max(0.0, initial + Amount(arrival, outage) + Amount(arrival - service, t - outage))
  }

  /** Sealed backlog at time `t`, with one rate of service for old and new chunks as the evaluation charges them. */
  function Backlog(b: Budget, t: real): real
    requires b.Valid()
  {
    Trajectory(InitialEquivalent(b), b.sealedBytesPerSecond, EffectiveService(b), Outage(b), t)
  }

  /** Free bytes on the writer at time `t` beside a backlog, with every temporary file at its peak. */
  function FreeBeside(b: Budget, t: real, backlog: real): real {
    b.writerFreeBytes as real - backlog
    - Amount(b.metadataBytesPerSecond, t) - Amount(b.otherGrowthBytesPerSecond, t)
    - b.activeRawPeak as real - b.sealTemporaryPeak as real - b.archiveTemporaryPeak as real
    - b.walPeak as real - b.otherTemporaryPeak as real
  }

  lemma FreeMeans(b: Budget, t: real, backlog: real)
    ensures FreeBeside(b, t, backlog) ==
            b.writerFreeBytes as real - Amount(Growth(b), t) - Transient(b) as real - backlog
  {
  }

  function WriterFree(b: Budget, t: real): real
    requires b.Valid()
  {
    FreeBeside(b, t, Backlog(b, t))
  }

  /** Archive bytes used at time `t` once everything that has arrived is archived, metadata included. */
  function ArchiveUsed(b: Budget, t: real): real {
    b.initialBacklogBytes as real + Amount(b.sealedBytesPerSecond, t)
    + Amount(b.archiveMetadataBytesPerChunk as real, b.initialBacklogChunks as real + Amount(b.chunksPerSecond, t))
    + b.archiveTemporaryPeak as real
  }

  lemma AmountGrows(rate: real, x: real, y: real)
    requires rate >= 0.0 && x <= y
    ensures Amount(rate, x) <= Amount(rate, y)
    ensures x == 0.0 ==> Amount(rate, x) == 0.0
  {
  }

  lemma AmountSplits(a: real, c: real, x: real)
    ensures Amount(a - c, x) == Amount(a, x) - Amount(c, x)
    ensures Amount(a - c, x) == -Amount(c - a, x)
    ensures Amount(c, x) == Amount(x, c)
  {
  }

  /** A piecewise linear backlog peaks at the end of the outage or at the end of the horizon. */
  lemma PiecewisePeak(initial: real, arrival: real, service: real, outage: real, horizon: real, t: real)
    requires initial >= 0.0 && arrival >= 0.0 && 0.0 <= outage <= horizon && 0.0 <= t <= horizon
    ensures
      var turn := initial + Amount(arrival, outage);
      0.0 <= Trajectory(initial, arrival, service, outage, t) <=
      Max(turn, Max(0.0, turn + Amount(arrival - service, horizon - outage)))
  {
    hide Amount;
    AmountGrows(arrival, 0.0, outage);
    if t <= outage {
      AmountGrows(arrival, 0.0, t);
      AmountGrows(arrival, t, outage);
    } else if arrival >= service {
      AmountGrows(arrival - service, t - outage, horizon - outage);
    } else {
      AmountGrows(service - arrival, 0.0, t - outage);
      AmountSplits(arrival, service, t - outage);
    }
  }

  lemma OutageFits(b: Budget)
    requires b.Valid()
    ensures 0.0 <= Outage(b) <= b.horizon && InitialEquivalent(b) >= 0.0 && Growth(b) >= 0.0
  {
    hide ArrivalBytesPerChunk;
  }

  /** The backlog never exceeds the reported peak, at any moment of the horizon. */
  lemma PeakBoundsBacklog(b: Budget, t: real)
    requires b.Valid() && 0.0 <= t <= b.horizon
    ensures 0.0 <= Backlog(b, t) <= PeakBacklog(b) == Evaluate(b).peakBacklog
  {
    hide Amount, InitialEquivalent, EffectiveService, Outage, Trajectory, Stable, Catchup, WriterMin, ArchiveNeeded,
         Runway;
    OutageFits(b);
    PiecewisePeak(InitialEquivalent(b), b.sealedBytesPerSecond, EffectiveService(b), Outage(b), b.horizon, t);
  }

  /** The writer's free space never falls below the reported lower bound. */
  lemma WriterStaysAboveBound(b: Budget, t: real)
    requires b.Valid() && 0.0 <= t <= b.horizon
    ensures WriterFree(b, t) >= WriterMin(b) as real
  {
    hide Amount, Growth, Transient, FreeBeside, Backlog, PeakBacklog, Evaluate, Outage, InitialEquivalent;
    PeakBoundsBacklog(b, t);
    OutageFits(b);
    FreeMeans(b, t, Backlog(b, t));
    AmountGrows(Growth(b), t, b.horizon);
  }

  /** The archive's free space never falls below the reported lower bound. */
  lemma ArchiveStaysAboveBound(b: Budget, t: real)
    requires b.Valid() && 0.0 <= t <= b.horizon
    ensures b.archiveFreeBytes as real - ArchiveUsed(b, t) >= (b.archiveFreeBytes - ArchiveNeeded(b)) as real
  {
    hide Amount;
    AmountGrows(b.sealedBytesPerSecond, t, b.horizon);
    AmountGrows(b.chunksPerSecond, t, b.horizon);
    var meta, initial := b.archiveMetadataBytesPerChunk as real, b.initialBacklogChunks as real;
    AmountGrows(meta, initial + Amount(b.chunksPerSecond, t), initial + Amount(b.chunksPerSecond, b.horizon));
  }

  /** With that backlog, a scenario that fits keeps the writer above its hard reserve and the archive short of full. */
  lemma FittingScenarioIsSafe(b: Budget, t: real)
    requires b.Valid() && 0.0 <= t <= b.horizon && Evaluate(b).Fits()
    ensures WriterFree(b, t) > HARD_RESERVE_BYTES as real
    ensures b.archiveFreeBytes as real > ArchiveUsed(b, t)
    ensures Stable(b) && Catchup(b) <= b.horizon - Outage(b)
  {
    hide WriterFree, ArchiveUsed, Stable, Catchup, WriterMin, ArchiveNeeded, Runway, PeakBacklog, EndBacklog;
    WriterStaysAboveBound(b, t);
    ArchiveStaysAboveBound(b, t);
  }

  // ---------------------------------------------------------------- how tight the bounds are

  /** The backlog does reach the reported peak, and ends the horizon at the reported end. */
  lemma PeakIsReached(b: Budget)
    requires b.Valid()
    ensures Backlog(b, Outage(b)) == PeakBacklog(b) || Backlog(b, b.horizon) == PeakBacklog(b)
    ensures b.horizon > Outage(b) ==> Backlog(b, b.horizon) == EndBacklog(b)
  {
    hide Amount, InitialEquivalent, EffectiveService, Outage;
    OutageFits(b);
    AmountOfNothing(b.sealedBytesPerSecond - EffectiveService(b));
    AmountSplits(0.0, b.sealedBytesPerSecond - EffectiveService(b), 0.0);
    AmountGrows(b.sealedBytesPerSecond, 0.0, Outage(b));
  }

  /** Old chunks are charged the least that covers their bytes and their number at the arriving mix. */
  lemma InitialEquivalentIsLeast(b: Budget, x: real)
    requires b.Valid()
    ensures InitialEquivalent(b) <= x <==>
            && b.initialBacklogBytes as real <= x
            && b.initialBacklogChunks as real * b.sealedBytesPerSecond <= x * b.chunksPerSecond
  {
    if b.chunksPerSecond > 0.0 {
      QuotientCovers(b.initialBacklogChunks as real, b.sealedBytesPerSecond, b.chunksPerSecond, x);
    }
  }

  lemma QuotientCovers(n: real, bytes: real, chunks: real, x: real)
    requires chunks > 0.0
    ensures Amount(bytes / chunks, n) <= x <==> n * bytes <= x * chunks
  {
    var mix := bytes / chunks;
    assert mix * chunks == bytes;
    assert n * bytes == Amount(mix, n) * chunks;
    if Amount(mix, n) <= x {
      assert (x - Amount(mix, n)) * chunks >= 0.0;
    } else {
      assert (Amount(mix, n) - x) * chunks > 0.0;
    }
  }

  /** The writer's bound is the whole number next below its free space at the horizon beside the peak. */
  lemma WriterMinIsTight(b: Budget)
    requires b.Valid()
    ensures WriterMin(b) as real <= FreeBeside(b, b.horizon, PeakBacklog(b)) < WriterMin(b) as real + 1.0
  {
    FreeMeans(b, b.horizon, PeakBacklog(b));
    hide FreeBeside, Amount, PeakBacklog, Growth, Transient;
  }

  /** The archive's bound is less than two bytes below its free space at the horizon. */
  lemma ArchiveNeededIsTight(b: Budget)
    ensures ArchiveUsed(b, b.horizon) <= ArchiveNeeded(b) as real < ArchiveUsed(b, b.horizon) + 2.0
  {
    hide Amount;
  }

  /**
   * A scenario fits exactly when service is above arrival in bytes and in files, all that has arrived by the horizon,
   * old chunks as charged, could be served after the outage, and neither disk reaches its limit.
   */
  lemma FitsIff(b: Budget)
    requires b.Valid()
    ensures
      var remaining := b.horizon - Outage(b);
      Evaluate(b).Fits() <==>
      && b.sealedBytesPerSecond < ByteService(b) && b.chunksPerSecond < FileService(b)
      && InitialEquivalent(b) + Amount(b.sealedBytesPerSecond, b.horizon) <= Amount(ByteService(b), remaining)
      && b.initialBacklogChunks as real + Amount(b.chunksPerSecond, b.horizon) <= Amount(FileService(b), remaining)
      && WriterMin(b) > HARD_RESERVE_BYTES && b.archiveFreeBytes > ArchiveNeeded(b)
  {
    if Stable(b) {
      CatchupIff(b);
    }
    hide Catchup, WriterMin, ArchiveNeeded, Runway, PeakBacklog, EndBacklog, BacklogBytes, InitialEquivalent, Amount,
         ByteService, FileService, Outage;
  }

  /** Each reason is reported exactly when it applies. */
  lemma ReasonsAreExact(b: Budget)
    requires b.Valid()
    ensures
      var remaining, reasons := b.horizon - Outage(b), Evaluate(b).reasons;
      var unstable := b.sealedBytesPerSecond >= ByteService(b) || b.chunksPerSecond >= FileService(b);
      && (ServiceNotAboveArrival in reasons <==> unstable)
      && (NotCaughtUp in reasons <==>
            || unstable
            || InitialEquivalent(b) + Amount(b.sealedBytesPerSecond, b.horizon) > Amount(ByteService(b), remaining)
            || Amount(FileService(b), remaining) <
               b.initialBacklogChunks as real + Amount(b.chunksPerSecond, b.horizon))
      && (WriterAtReserve in reasons <==> WriterMin(b) <= HARD_RESERVE_BYTES)
      && (ArchiveExhausted in reasons <==> b.archiveFreeBytes <= ArchiveNeeded(b))
  {
    if Stable(b) {
      CatchupIff(b);
    }
    hide Catchup, WriterMin, ArchiveNeeded, Runway, PeakBacklog, EndBacklog, BacklogBytes, InitialEquivalent, Amount,
         ByteService, FileService, Outage;
  }

  /** Nothing at all is a valid budget, over any horizon and cycle. */
  lemma NothingIsValid(horizon: real, cycle: real)
    requires horizon > 0.0 && cycle > 0.0
    ensures Budget(0, 0, horizon, 0.0, 0.0, 0.0, 0.0, 0.0, 0.0, cycle, 0, 0.0, 0, 0.0, 0, 0, 0, 0, 0, 0, 0).Valid()
    ensures Budget(0, 0, horizon, horizon, 0.0, 0.0, 0.0, 0.0, cycle, cycle,
                   0, 0.0, 0, 0.0, 0, 0, 0, 0, 0, 0, 0).Valid()
  {
  }

  lemma CatchupIff(b: Budget)
    requires b.Valid() && Stable(b)
    ensures
      var remaining := b.horizon - Outage(b);
      Catchup(b) <= remaining <==>
      && InitialEquivalent(b) + Amount(b.sealedBytesPerSecond, b.horizon) <= Amount(ByteService(b), remaining)
      && b.initialBacklogChunks as real + Amount(b.chunksPerSecond, b.horizon) <= Amount(FileService(b), remaining)
  {
    hide ByteService, FileService, Outage, InitialEquivalent;
    var remaining := b.horizon - Outage(b);
    QuotientFitsIff(BacklogBytes(b), ByteService(b), b.sealedBytesPerSecond, remaining);
    QuotientFitsIff(BacklogChunks(b), FileService(b), b.chunksPerSecond, remaining);
    TimesAdd(b.sealedBytesPerSecond, Outage(b), remaining);
    TimesAdd(b.chunksPerSecond, Outage(b), remaining);
    hide Amount;
  }

  lemma TimesAdd(rate: real, x: real, y: real)
    ensures Amount(rate, x) + Amount(rate, y) == Amount(rate, x + y)
  {
  }

  lemma QuotientFitsIff(x: real, service: real, arrival: real, seconds: real)
    requires service > arrival
    ensures x / (service - arrival) <= seconds <==> x + Amount(arrival, seconds) <= Amount(service, seconds)
  {
    var y := service - arrival;
    assert (x / y) * y == x;
    AmountSplits(service, arrival, seconds);
    if x / y <= seconds {
      assert (seconds - x / y) * y >= 0.0;
    } else {
      assert (x / y - seconds) * y > 0.0;
    }
  }

  // ---------------------------------------------------------------- stable service

  /** Arrivals carry exactly the mix, so bytes and chunks describe one workload; without any, old chunks do. */
  lemma ArrivalsCarryTheMix(b: Budget)
    requires b.Valid()
    ensures MixBytesPerChunk(b) >= 0.0
    ensures b.sealedBytesPerSecond == Amount(MixBytesPerChunk(b), b.chunksPerSecond)
    ensures b.chunksPerSecond == 0.0 ==>
              b.initialBacklogBytes as real == Amount(MixBytesPerChunk(b), b.initialBacklogChunks as real)
  {
    if b.chunksPerSecond != 0.0 {
      assert ArrivalBytesPerChunk(b) > 0.0;
      assert (b.sealedBytesPerSecond / b.chunksPerSecond) * b.chunksPerSecond == b.sealedBytesPerSecond;
    }
  }

  /** When service is above arrival in bytes and in files, effective service keeps up with the arrivals. */
  lemma StableServiceKeepsUp(b: Budget)
    requires b.Valid() && Stable(b)
    ensures EffectiveService(b) >= b.sealedBytesPerSecond
  {
    hide Amount, MixBytesPerChunk, ByteService, FileService;
    ArrivalsCarryTheMix(b);
    AmountGrows(MixBytesPerChunk(b), b.chunksPerSecond, FileService(b));
  }

  /** Under stable service the peak is the backlog at the end of the outage. */
  lemma StablePeakIsPostOutage(b: Budget)
    requires b.Valid() && Stable(b)
    ensures PeakBacklog(b) == BacklogBytes(b)
  {
    hide Amount, EffectiveService, Stable, InitialEquivalent, Outage;
    StableServiceKeepsUp(b);
    OutageFits(b);
    AmountGrows(b.sealedBytesPerSecond, 0.0, Outage(b));
    AmountGrows(EffectiveService(b) - b.sealedBytesPerSecond, 0.0, b.horizon - Outage(b));
    AmountSplits(b.sealedBytesPerSecond, EffectiveService(b), b.horizon - Outage(b));
  }

  /** Bytes by which the old backlog exceeds the same number of chunks of the arriving mix. */
  function Oversize(b: Budget): real {
    InitialEquivalent(b) - Amount(MixBytesPerChunk(b), b.initialBacklogChunks as real)
  }

  /** File service left over after the chunk backlog has been caught up, in bytes of the mix. */
  function SpareFileBytes(b: Budget): real
    requires b.Valid()
  {
    Amount(MixBytesPerChunk(b), Amount(FileService(b) - b.chunksPerSecond, b.horizon - Outage(b)) - BacklogChunks(b))
  }

  lemma QuotientFits(x: real, y: real, bound: real)
    requires y > 0.0 && x / y <= bound
    ensures x <= Amount(y, bound)
  {
    assert x == y * (x / y);
    AmountGrows(y, x / y, bound);
  }

  /** Once catch-up fits in the horizon, bytes alone would be worked off, and chunks alone leave a spare. */
  lemma CatchupFits(b: Budget)
    requires b.Valid() && Stable(b) && Catchup(b) <= b.horizon - Outage(b)
    ensures BacklogBytes(b) <= Amount(ByteService(b) - b.sealedBytesPerSecond, b.horizon - Outage(b))
    ensures SpareFileBytes(b) >= 0.0
  {
    hide Amount, ByteService, FileService, BacklogBytes, BacklogChunks, Outage, MixBytesPerChunk;
    ArrivalsCarryTheMix(b);
    var remaining := b.horizon - Outage(b);
    QuotientFits(BacklogBytes(b), ByteService(b) - b.sealedBytesPerSecond, remaining);
    QuotientFits(BacklogChunks(b), FileService(b) - b.chunksPerSecond, remaining);
    AmountGrows(MixBytesPerChunk(b), 0.0, Amount(FileService(b) - b.chunksPerSecond, remaining) - BacklogChunks(b));
  }

  /** Scaling chunk counts by the mix `m` turns chunk arithmetic into byte arithmetic. */
  lemma MixScales(m: real, rate: real, seconds: real, x: real, y: real)
    ensures Amount(m, Amount(rate, seconds)) == Amount(Amount(m, rate), seconds)
    ensures Amount(m, x + y) == Amount(m, x) + Amount(m, y)
    ensures Amount(m, x - y) == Amount(m, x) - Amount(m, y)
  {
  }

  /** The backlog in bytes is the chunk backlog at the mix, plus the oversize of the old chunks. */
  lemma BacklogInMix(b: Budget)
    requires b.Valid()
    ensures BacklogBytes(b) == Amount(MixBytesPerChunk(b), BacklogChunks(b)) + Oversize(b)
    ensures Amount(Amount(MixBytesPerChunk(b), FileService(b)) - b.sealedBytesPerSecond, b.horizon - Outage(b)) ==
            SpareFileBytes(b) + Amount(MixBytesPerChunk(b), BacklogChunks(b))
  {
    hide Amount, FileService, MixBytesPerChunk, InitialEquivalent, Outage;
    ArrivalsCarryTheMix(b);
    var m, cs, fs, remaining := MixBytesPerChunk(b), b.chunksPerSecond, FileService(b), b.horizon - Outage(b);
    MixScales(m, cs, Outage(b), b.initialBacklogChunks as real, Amount(cs, Outage(b)));
    MixScales(m, fs - cs, remaining, fs, cs);
    MixScales(m, fs - cs, remaining, Amount(fs - cs, remaining), BacklogChunks(b));
  }

  /**
   * In a scenario whose catch-up fits, the backlog is gone by the horizon exactly when service is
   * limited by bytes, or the oversize of the old chunks fits in the spare file service.
   */
  lemma CaughtUpIff(b: Budget)
    requires b.Valid() && Stable(b) && Catchup(b) <= b.horizon - Outage(b)
    ensures EndBacklog(b) == 0.0 <==>
            ByteService(b) <= Amount(MixBytesPerChunk(b), FileService(b)) || Oversize(b) <= SpareFileBytes(b)
  {
    CatchupFits(b);
    BacklogInMix(b);
    hide Amount, Stable, Catchup, BacklogBytes, BacklogChunks, SpareFileBytes, Oversize, MixBytesPerChunk, ByteService,
         FileService, Outage;
    AmountSplits(b.sealedBytesPerSecond, EffectiveService(b), b.horizon - Outage(b));
  }

  /** In particular: old chunks no larger than the mix are worked off with everything else. */
  lemma OrdinaryBacklogIsCaughtUp(b: Budget)
    requires b.Valid() && Stable(b) && Catchup(b) <= b.horizon - Outage(b)
    requires b.initialBacklogBytes as real <= Amount(MixBytesPerChunk(b), b.initialBacklogChunks as real)
    ensures EndBacklog(b) == 0.0
  {
    CaughtUpIff(b);
    CatchupFits(b);
    OrdinaryIsNotOversize(b);
    hide *;
  }

  lemma OrdinaryIsNotOversize(b: Budget)
    requires b.Valid()
    requires b.initialBacklogBytes as real <= Amount(MixBytesPerChunk(b), b.initialBacklogChunks as real)
    ensures Oversize(b) <= 0.0
  {
    if b.chunksPerSecond == 0.0 {
      assert Amount(ArrivalBytesPerChunk(b), b.initialBacklogChunks as real) == 0.0;
    } else {
      assert b.sealedBytesPerSecond / b.chunksPerSecond > 0.0;
    }
    hide Amount;
  }

  /** Ten seconds, arrivals of one byte a chunk, and one old chunk of a million bytes. */
  function LargeOldChunk(): Budget {
    Budget(20 * 1024 * 1024 * 1024, 1024 * 1024 * 1024, 10.0, 0.0, 1.0, 1.0, 10_000_000.0, 2.0, 1.0, 1.0, 2,
           0.0, 0, 0.0, 1_000_000, 1, 0, 0, 0, 0, 0)
  }

  lemma LargeOldChunkRates()
    ensures LargeOldChunk().Valid()
    ensures ByteService(LargeOldChunk()) == 10_000_000.0 && FileService(LargeOldChunk()) == 2.0
    ensures Outage(LargeOldChunk()) == 1.0 && MixBytesPerChunk(LargeOldChunk()) == 1.0
    ensures InitialEquivalent(LargeOldChunk()) == 1_000_000.0
  {
  }

  lemma LargeOldChunkAmounts()
    ensures LargeOldChunk().Valid()
    ensures BacklogBytes(LargeOldChunk()) == 1_000_001.0 && BacklogChunks(LargeOldChunk()) == 2.0
    ensures EffectiveService(LargeOldChunk()) == 2.0
    ensures Stable(LargeOldChunk()) && Catchup(LargeOldChunk()) <= 9.0
  {
    LargeOldChunkRates();
    hide ByteService, FileService, MixBytesPerChunk, InitialEquivalent, Outage;
  }

  /** Fitting is not catching up: one large old chunk against small arrivals fits and still ends with a backlog. */
  lemma FittingScenarioMayEndBehind()
    ensures LargeOldChunk().Valid() && Evaluate(LargeOldChunk()).Fits() && EndBacklog(LargeOldChunk()) > 0.0
  {
    LargeOldChunkRates();
    LargeOldChunkAmounts();
    hide ByteService, FileService, MixBytesPerChunk, InitialEquivalent, Outage, BacklogBytes, BacklogChunks,
         EffectiveService, Stable, Catchup;
    assert EndBacklog(LargeOldChunk()) == 999_992.0 && PeakBacklog(LargeOldChunk()) == 1_000_001.0;
    assert WriterMin(LargeOldChunk()) > HARD_RESERVE_BYTES;
    assert ArchiveNeeded(LargeOldChunk()) < 1024 * 1024 * 1024;
  }

  // ---------------------------------------------------------------- runway without an archive

  /** Free bytes on the writer when nothing is ever retired. */
  function UnservedFree(b: Budget, t: real): real {
    FreeBeside(b, t, b.initialBacklogBytes as real + Amount(b.sealedBytesPerSecond, t))
  }

  lemma UnservedMeans(b: Budget, t: real)
    ensures UnservedFree(b, t) ==
            (b.writerFreeBytes - Transient(b) - b.initialBacklogBytes) as real
            - Amount(b.sealedBytesPerSecond + Growth(b), t)
  {
    FreeMeans(b, t, b.initialBacklogBytes as real + Amount(b.sealedBytesPerSecond, t));
    hide FreeBeside, Growth, Transient;
  }

  /**
   * With the archive gone the writer is at or above its reserve exactly up to the runway, if it starts there at
   * all; a writer that starts below its reserve has a runway of zero and never gets back. Without any growth
   * there is no runway to report, because nothing changes.
   */
  lemma RunwayIsExact(b: Budget, t: real)
    requires b.Valid() && t >= 0.0
    ensures
      var reserve, start := HARD_RESERVE_BYTES as real, UnservedFree(b, 0.0);
      if Runway(b).None? then UnservedFree(b, t) == start
      else
        && (UnservedFree(b, t) >= reserve <==> start >= reserve && t <= Runway(b).value)
        && (start <= reserve ==> Runway(b).value == 0.0)
  {
    var drain := b.sealedBytesPerSecond + Growth(b);
    var spare := (b.writerFreeBytes - HARD_RESERVE_BYTES - Transient(b) - b.initialBacklogBytes) as real;
    DrainIsNotNegative(b);
    UnservedMeans(b, t);
    UnservedMeans(b, 0.0);
    hide UnservedFree;
    AmountGrows(drain, 0.0, 0.0);
    AmountGrows(drain, 0.0, t);
    AmountOfNothing(t);
    hide Growth, Transient, Amount;
    if drain > 0.0 {
      if spare >= 0.0 {
        QuotientIsExact(spare, drain, t);
        NothingToSpare(drain);
      } else {
        NegativeQuotient(spare, drain);
      }
    }
  }

  lemma DrainIsNotNegative(b: Budget)
    requires b.Valid()
    ensures b.sealedBytesPerSecond + Growth(b) >= 0.0
  {
  }

  lemma AmountOfNothing(t: real)
    ensures Amount(0.0, t) == 0.0
  {
  }

  lemma NothingToSpare(drain: real)
    requires drain > 0.0
    ensures 0.0 / drain == 0.0
  {
  }

  lemma NegativeQuotient(spare: real, drain: real)
    requires drain > 0.0 && spare < 0.0
    ensures spare / drain < 0.0
  {
    assert drain * (spare / drain) == spare;
  }

  lemma QuotientIsExact(spare: real, drain: real, t: real)
    requires drain > 0.0 && spare >= 0.0
    ensures spare / drain >= 0.0
    ensures Amount(drain, t) <= spare <==> t <= spare / drain
  {
    assert drain * (spare / drain) == spare;
    if t <= spare / drain {
      AmountGrows(drain, t, spare / drain);
    } else {
      assert drain * (t - spare / drain) > 0.0;
    }
  }
}
