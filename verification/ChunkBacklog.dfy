/** The writer's sealed backlog chunk by chunk, first in, first out, against the peak that the evaluation reports. */
module ChunkBacklog {
  import opened DiskBudget

  // ---------------------------------------------------------------- the queue

  /** Bytes of the chunks. */
  function Total(sizes: seq<real>): real {
    if sizes == [] then 0.0 else sizes[0] + Total(sizes[1..])
  }

  /** Sizes of the old chunks, oldest first, of which the budget gives only the two totals. */
  ghost predicate OldChunks(b: Budget, sizes: seq<real>) {
    && |sizes| == b.initialBacklogChunks && Total(sizes) == b.initialBacklogBytes as real
    && forall i :: 0 <= i < |sizes| ==> sizes[i] >= 0.0
  }

  predicate Serves(b: Budget)
    requires b.Valid()
  {
    ByteService(b) > 0.0 && FileService(b) > 0.0
  }

  /** Seconds that a chunk takes within both limits, on files and on bytes. */
  function Held(b: Budget, size: real): real
    requires b.Valid() && Serves(b)
  {
    Max(1.0 / FileService(b), size / ByteService(b))
  }

  function HeldAll(b: Budget, sizes: seq<real>): real
    requires b.Valid() && Serves(b)
  {
    if sizes == [] then 0.0 else Held(b, sizes[0]) + HeldAll(b, sizes[1..])
  }

  /** Bytes retired by some seconds of service, chunk after chunk. */
  function Retired(b: Budget, sizes: seq<real>, seconds: real): real
    requires b.Valid() && Serves(b)
  {
    if sizes == [] then 0.0
    else
      var held := Held(b, sizes[0]);
      if seconds >= held then sizes[0] + Retired(b, sizes[1..], seconds - held)
      else Amount(sizes[0] / held, seconds)
  }

  /**
   * Bytes in the queue at time `t`: nothing is served during the outage, then the old chunks are, and then the
   * new ones, which all have the size of the mix.
   */
  function Queued(b: Budget, sizes: seq<real>, t: real): real
    requires b.Valid()
  {
    var arrived := b.initialBacklogBytes as real + Amount(b.sealedBytesPerSecond, t);
    var served := t - Outage(b);
    if served <= 0.0 || !Serves(b) then arrived
    else if served <= HeldAll(b, sizes) then arrived - Retired(b, sizes, served)
    else
      var mix := MixBytesPerChunk(b);
      Max(0.0, Amount(b.sealedBytesPerSecond, t) - Amount(mix / Held(b, mix), served - HeldAll(b, sizes)))
  }

  /** Within both limits, chunks of the mix are served at exactly the effective rate. */
  lemma MixIsServedEffectively(b: Budget)
    requires b.Valid() && Serves(b)
    ensures Held(b, MixBytesPerChunk(b)) > 0.0
    ensures MixBytesPerChunk(b) / Held(b, MixBytesPerChunk(b)) == EffectiveService(b)
  {
    var m, files, bytes := MixBytesPerChunk(b), FileService(b), ByteService(b);
    ArrivalsCarryTheMix(b);
    hide MixBytesPerChunk, FileService, ByteService;
    HeldIsPositive(b, m);
    RateIsMin(m, files, bytes);
  }

  lemma HeldIsPositive(b: Budget, size: real)
    requires b.Valid() && Serves(b)
    ensures Held(b, size) > 0.0
  {
    hide FileService, ByteService;
    assert 1.0 / FileService(b) > 0.0;
  }

  lemma RateIsMin(m: real, files: real, bytes: real)
    requires m >= 0.0 && files > 0.0 && bytes > 0.0
    ensures Max(1.0 / files, m / bytes) > 0.0
    ensures m / Max(1.0 / files, m / bytes) == Min(bytes, Amount(m, files))
  {
    var forFile, forBytes := 1.0 / files, m / bytes;
    Divided(1.0, files, forFile);
    Divided(m, bytes, forBytes);
    LongerOf(m, files, bytes, forFile, forBytes);
    if m * files <= bytes {
      Reordered(m, files, forFile);
      Divided(m, forFile, m * files);
    } else {
      Divided(m, forBytes, bytes);
    }
  }

  lemma Divided(x: real, y: real, q: real)
    requires y > 0.0
    ensures x / y == q <==> q * y == x
  {
  }

  lemma Reordered(m: real, files: real, held: real)
    requires held * files == 1.0
    ensures (m * files) * held == m
  {
    assert (m * files) * held == m * (held * files);
  }

  lemma LongerOf(m: real, files: real, bytes: real, forFile: real, forBytes: real)
    requires files > 0.0 && bytes > 0.0 && forFile * files == 1.0 && forBytes * bytes == m
    ensures forFile > 0.0 && (m * files <= bytes <==> forBytes <= forFile)
  {
    Reordered(bytes, forFile, files);
    assert m * files == (forBytes * files) * bytes;
    assert forBytes <= forFile <==> forBytes * files <= forFile * files;
    Compared(forBytes * files, 1.0, bytes);
  }

  lemma Compared(x: real, y: real, scale: real)
    requires scale > 0.0
    ensures x * scale <= y * scale <==> x <= y
  {
  }

  // ---------------------------------------------------------------- keeping up with a rate

  /** What the evaluation charges for the old chunks above their own bytes. */
  function Allowance(b: Budget): real {
    InitialEquivalent(b) - b.initialBacklogBytes as real
  }

  /** The time that the first `n` chunks take, at the given rate, is worth at most their bytes and the slack. */
  ghost predicate FirstKeepUp(b: Budget, rate: real, sizes: seq<real>, slack: real, n: nat)
    requires b.Valid() && Serves(b) && n <= |sizes|
  {
    Amount(rate, HeldAll(b, sizes[..n])) <= Total(sizes[..n]) + slack
  }

  /**
   * Retiring the chunks in order never falls behind the rate by more than the slack: not when one of them is
   * done within `seconds`, and not when the time is up before they all are.
   */
  ghost predicate KeepsUp(b: Budget, rate: real, sizes: seq<real>, slack: real, seconds: real)
    requires b.Valid() && Serves(b)
  {
    && (forall n :: 0 <= n <= |sizes| && HeldAll(b, sizes[..n]) <= seconds ==> FirstKeepUp(b, rate, sizes, slack, n))
    && (seconds <= HeldAll(b, sizes) ==> Amount(rate, seconds) <= Retired(b, sizes, seconds) + slack)
  }

  lemma Adds(rate: real, x: real, y: real)
    ensures Amount(rate, x + y) == Amount(rate, x) + Amount(rate, y)
    ensures Amount(rate, x - y) == Amount(rate, x) - Amount(rate, y)
    ensures Amount(x + y, rate) == Amount(x, rate) + Amount(y, rate)
    ensures Amount(x - y, rate) == Amount(x, rate) - Amount(y, rate)
  {
  }

  lemma OneChunkMore(b: Budget, sizes: seq<real>, n: nat)
    requires b.Valid() && Serves(b) && n < |sizes|
    ensures HeldAll(b, sizes[..n + 1]) == Held(b, sizes[0]) + HeldAll(b, sizes[1..][..n])
    ensures Total(sizes[..n + 1]) == sizes[0] + Total(sizes[1..][..n])
    ensures HeldAll(b, sizes[..0]) == Total(sizes[..0]) == 0.0
  {
    hide Held;
    assert sizes[..n + 1][1..] == sizes[1..][..n];
  }

  lemma {:induction false} HeldIsNotNegative(b: Budget, sizes: seq<real>)
    requires b.Valid() && Serves(b)
    ensures HeldAll(b, sizes) >= 0.0
  {
    if sizes != [] {
      hide Held;
      HeldIsPositive(b, sizes[0]);
      HeldIsNotNegative(b, sizes[1..]);
    }
  }

  /** Behind the first chunk, the rest keeps up with what slack and time are left. */
  lemma RestKeepsUp(b: Budget, rate: real, sizes: seq<real>, slack: real, seconds: real)
    requires b.Valid() && Serves(b) && sizes != [] && KeepsUp(b, rate, sizes, slack, seconds)
    requires seconds >= Held(b, sizes[0])
    ensures
      var held := Held(b, sizes[0]);
      KeepsUp(b, rate, sizes[1..], slack + sizes[0] - Amount(rate, held), seconds - held)
  {
    hide Held, Amount;
    var rest, held := sizes[1..], Held(b, sizes[0]);
    forall n | 0 <= n <= |rest| && HeldAll(b, rest[..n]) <= seconds - held
      ensures FirstKeepUp(b, rate, rest, slack + sizes[0] - Amount(rate, held), n)
    {
      OneChunkMore(b, sizes, n);
      Adds(rate, held, HeldAll(b, rest[..n]));
      assert FirstKeepUp(b, rate, sizes, slack, n + 1);
    }
    Adds(rate, seconds, held);
  }

  /** Between two retirements the queue changes at one rate, so keeping up at the ends is keeping up throughout. */
  lemma {:induction false} KeepsUpBetween(b: Budget, rate: real, sizes: seq<real>, slack: real, seconds: real, at: real)
    requires b.Valid() && Serves(b) && KeepsUp(b, rate, sizes, slack, seconds)
    requires 0.0 <= at <= seconds && at <= HeldAll(b, sizes)
    ensures Amount(rate, at) <= Retired(b, sizes, at) + slack
    decreases |sizes|
  {
    hide Held, Amount;
    AmountGrows(0.0, 0.0, 0.0);
    assert FirstKeepUp(b, rate, sizes, slack, 0);
    NothingYet(b, rate, sizes);
    if sizes != [] {
      var held := Held(b, sizes[0]);
      HeldIsPositive(b, sizes[0]);
      if at >= held {
        RestKeepsUp(b, rate, sizes, slack, seconds);
        KeepsUpBetween(b, rate, sizes[1..], slack + sizes[0] - Amount(rate, held), seconds - held, at - held);
        Adds(rate, at, held);
      } else if seconds >= held {
        OneChunkMore(b, sizes, 0);
        assert FirstKeepUp(b, rate, sizes, slack, 1);
        Whole(sizes[0], held);
        WithinLine(rate, sizes[0] / held, slack, at, held);
      } else {
        HeldIsNotNegative(b, sizes[1..]);
        WithinLine(rate, sizes[0] / held, slack, at, seconds);
      }
    }
  }

  lemma NothingYet(b: Budget, rate: real, sizes: seq<real>)
    requires b.Valid() && Serves(b)
    ensures HeldAll(b, sizes[..0]) == Total(sizes[..0]) == Amount(rate, 0.0) == 0.0
  {
  }

  lemma Whole(size: real, held: real)
    requires held > 0.0
    ensures Amount(size / held, held) == size
  {
  }

  lemma WithinLine(rate: real, retire: real, slack: real, at: real, end: real)
    requires 0.0 <= at <= end && slack >= 0.0 && Amount(rate, end) <= Amount(retire, end) + slack
    ensures Amount(rate, at) <= Amount(retire, at) + slack
  {
    Adds(at, rate, retire);
    Adds(end, rate, retire);
    if rate <= retire {
      assert (rate - retire) * at <= 0.0;
    } else {
      AmountGrows(rate - retire, at, end);
    }
  }

  /** After the time that the first chunks take, exactly those are retired. */
  lemma {:induction false} RetiredChunks(b: Budget, sizes: seq<real>, n: nat)
    requires b.Valid() && Serves(b) && n <= |sizes|
    ensures Retired(b, sizes, HeldAll(b, sizes[..n])) == Total(sizes[..n])
    ensures 0.0 <= HeldAll(b, sizes[..n]) <= HeldAll(b, sizes)
  {
    hide Held;
    HeldIsNotNegative(b, sizes);
    NothingYet(b, 0.0, sizes);
    if n > 0 {
      OneChunkMore(b, sizes, n - 1);
      RetiredChunks(b, sizes[1..], n - 1);
      HeldIsPositive(b, sizes[0]);
    } else if sizes != [] {
      HeldIsPositive(b, sizes[0]);
      hide Amount;
      AmountOfZero(sizes[0] / Held(b, sizes[0]));
    }
  }

  lemma AmountOfZero(rate: real)
    ensures Amount(rate, 0.0) == 0.0
  {
  }

  // ---------------------------------------------------------------- the queue under the reported peak

  /** Seconds after the outage. */
  function Remaining(b: Budget): real {
    b.horizon - Outage(b)
  }

  /** Old chunks that keep up with the effective service stay under the backlog line, and so under the peak. */
  lemma QueueWithinPeak(b: Budget, sizes: seq<real>, t: real)
    requires b.Valid() && OldChunks(b, sizes) && 0.0 <= t <= b.horizon
    requires Serves(b) ==> KeepsUp(b, EffectiveService(b), sizes, Allowance(b), Remaining(b))
    ensures Queued(b, sizes, t) <= Backlog(b, t) <= PeakBacklog(b)
  {
    PeakBoundsBacklog(b, t);
    InitialCoversBytes(b);
    var served := t - Outage(b);
    if served > 0.0 && Serves(b) {
      hide OldChunks, KeepsUp, Queued, Backlog, PeakBacklog, Serves, InitialEquivalent, EffectiveService;
      if served <= HeldAll(b, sizes) {
        OldQueueWithin(b, sizes, t);
      } else {
        NewQueueWithin(b, sizes, t);
      }
    } else if served > 0.0 {
      NoServiceNoDrain(b);
      Adds(b.sealedBytesPerSecond, t, Outage(b));
      AmountSplits(b.sealedBytesPerSecond, EffectiveService(b), served);
      Slower(EffectiveService(b), 0.0, served);
      AmountOfNothing(served);
      hide Amount, InitialEquivalent, EffectiveService, Outage, Serves;
    }
  }

  lemma OldQueueWithin(b: Budget, sizes: seq<real>, t: real)
    requires b.Valid() && Serves(b) && Outage(b) < t <= b.horizon && t - Outage(b) <= HeldAll(b, sizes)
    requires KeepsUp(b, EffectiveService(b), sizes, Allowance(b), Remaining(b))
    ensures Queued(b, sizes, t) <= Backlog(b, t)
  {
    var arrival, service, served := b.sealedBytesPerSecond, EffectiveService(b), t - Outage(b);
    hide KeepsUp, Held, HeldAll, Retired, Amount, InitialEquivalent, EffectiveService, Outage, Serves;
    Adds(arrival, t, Outage(b));
    AmountSplits(arrival, service, served);
    KeepsUpBetween(b, service, sizes, Allowance(b), Remaining(b), served);
    assert Queued(b, sizes, t) == b.initialBacklogBytes as real + Amount(arrival, t) - Retired(b, sizes, served);
  }

  lemma NewQueueWithin(b: Budget, sizes: seq<real>, t: real)
    requires b.Valid() && Serves(b) && Outage(b) < t <= b.horizon && t - Outage(b) > HeldAll(b, sizes)
    requires OldChunks(b, sizes) && KeepsUp(b, EffectiveService(b), sizes, Allowance(b), Remaining(b))
    ensures Queued(b, sizes, t) <= Backlog(b, t)
  {
    var arrival, service, served := b.sealedBytesPerSecond, EffectiveService(b), t - Outage(b);
    assert sizes[..|sizes|] == sizes;
    assert FirstKeepUp(b, service, sizes, Allowance(b), |sizes|);
    MixIsServedEffectively(b);
    hide KeepsUp, Held, HeldAll, Retired, Amount, InitialEquivalent, EffectiveService, Outage, Serves;
    Adds(arrival, t, Outage(b));
    AmountSplits(arrival, service, served);
    Adds(service, served, HeldAll(b, sizes));
  }

  lemma InitialCoversBytes(b: Budget)
    ensures Allowance(b) >= 0.0
  {
    hide ArrivalBytesPerChunk, Amount;
  }

  lemma NoServiceNoDrain(b: Budget)
    requires b.Valid() && !Serves(b)
    ensures EffectiveService(b) <= 0.0
  {
    ArrivalsCarryTheMix(b);
    hide MixBytesPerChunk;
    assert b.archiveWork / b.archiveCycle >= 0.0;
  }

  /** A chunk takes no longer than effective service needs for its own bytes, or for those of a chunk of the mix. */
  lemma HeldWithinMix(b: Budget, size: real)
    requires b.Valid() && Serves(b) && size >= 0.0
    ensures Amount(EffectiveService(b), Held(b, size)) <= Max(MixBytesPerChunk(b), size)
  {
    var m, files, bytes := MixBytesPerChunk(b), FileService(b), ByteService(b);
    ArrivalsCarryTheMix(b);
    hide MixBytesPerChunk, FileService, ByteService, Amount;
    ForFile(m, files);
    Slower(EffectiveService(b), Amount(m, files), 1.0 / files);
    ForBytes(size, bytes);
    Slower(EffectiveService(b), bytes, size / bytes);
  }

  lemma ForFile(m: real, files: real)
    requires files > 0.0
    ensures 1.0 / files >= 0.0 && Amount(Amount(m, files), 1.0 / files) == m
  {
    Divided(1.0, files, 1.0 / files);
    Reordered(m, files, 1.0 / files);
  }

  lemma ForBytes(size: real, bytes: real)
    requires size >= 0.0 && bytes > 0.0
    ensures size / bytes >= 0.0 && Amount(bytes, size / bytes) == size
  {
  }

  lemma Slower(x: real, y: real, held: real)
    requires x <= y && held >= 0.0
    ensures Amount(x, held) <= Amount(y, held)
  {
  }

  /** Old chunks that are all at least as large as the mix, or all at most, keep up. */
  lemma EvenChunksKeepUp(b: Budget, sizes: seq<real>, seconds: real)
    requires b.Valid() && OldChunks(b, sizes) && Serves(b) && seconds >= 0.0
    requires
      || (forall i :: 0 <= i < |sizes| ==> sizes[i] >= MixBytesPerChunk(b))
      || (forall i :: 0 <= i < |sizes| ==> sizes[i] <= MixBytesPerChunk(b))
    ensures KeepsUp(b, EffectiveService(b), sizes, Allowance(b), seconds)
  {
    InitialCoversBytes(b);
    MixWithinInitial(b);
    hide MixBytesPerChunk, Allowance, EffectiveService, Amount, Held;
    var m := MixBytesPerChunk(b);
    forall n | 0 <= n <= |sizes| ensures FirstKeepUp(b, EffectiveService(b), sizes, Allowance(b), n) {
      if forall i :: 0 <= i < |sizes| ==> sizes[i] >= m {
        LargeChunks(b, sizes[..n]);
      } else {
        SmallChunks(b, sizes[..n]);
        TotalSplits(sizes, n);
        TotalOfSmall(sizes[n..], m);
        Adds(m, n as real, (|sizes| - n) as real);
      }
    }
    if seconds <= HeldAll(b, sizes) {
      KeepsUpWhole(b, EffectiveService(b), sizes, Allowance(b));
      KeepsUpBetween(b, EffectiveService(b), sizes, Allowance(b), HeldAll(b, sizes), seconds);
    }
  }

  lemma KeepsUpWhole(b: Budget, rate: real, sizes: seq<real>, slack: real)
    requires b.Valid() && Serves(b)
    requires forall n :: 0 <= n <= |sizes| ==> FirstKeepUp(b, rate, sizes, slack, n)
    ensures KeepsUp(b, rate, sizes, slack, HeldAll(b, sizes))
  {
    hide Held, Amount;
    RetiredChunks(b, sizes, |sizes|);
    assert sizes[..|sizes|] == sizes;
    assert FirstKeepUp(b, rate, sizes, slack, |sizes|);
  }

  lemma MixWithinInitial(b: Budget)
    requires b.Valid()
    ensures Amount(MixBytesPerChunk(b), b.initialBacklogChunks as real) <= b.initialBacklogBytes as real + Allowance(b)
  {
    if ArrivalBytesPerChunk(b) == 0.0 && b.initialBacklogChunks != 0 {
      Divided(b.initialBacklogBytes as real, b.initialBacklogChunks as real, MixBytesPerChunk(b));
    }
    hide ArrivalBytesPerChunk;
  }

  lemma {:induction false} LargeChunks(b: Budget, sizes: seq<real>)
    requires b.Valid() && Serves(b)
    requires forall i :: 0 <= i < |sizes| ==> sizes[i] >= 0.0 && sizes[i] >= MixBytesPerChunk(b)
    ensures Amount(EffectiveService(b), HeldAll(b, sizes)) <= Total(sizes)
  {
    hide MixBytesPerChunk, EffectiveService, Amount, Held;
    AmountOfZero(EffectiveService(b));
    if sizes != [] {
      LargeChunks(b, sizes[1..]);
      HeldWithinMix(b, sizes[0]);
      Adds(EffectiveService(b), Held(b, sizes[0]), HeldAll(b, sizes[1..]));
    }
  }

  lemma {:induction false} SmallChunks(b: Budget, sizes: seq<real>)
    requires b.Valid() && Serves(b)
    requires forall i :: 0 <= i < |sizes| ==> 0.0 <= sizes[i] <= MixBytesPerChunk(b)
    ensures Amount(EffectiveService(b), HeldAll(b, sizes)) <= Amount(MixBytesPerChunk(b), |sizes| as real)
  {
    hide MixBytesPerChunk, EffectiveService, Amount, Held;
    AmountOfZero(EffectiveService(b));
    AmountOfZero(MixBytesPerChunk(b));
    if sizes != [] {
      SmallChunks(b, sizes[1..]);
      HeldWithinMix(b, sizes[0]);
      Adds(EffectiveService(b), Held(b, sizes[0]), HeldAll(b, sizes[1..]));
      OneMore(MixBytesPerChunk(b), |sizes[1..]|);
    }
  }

  lemma OneMore(m: real, n: nat)
    ensures Amount(m, (n + 1) as real) == m + Amount(m, n as real)
  {
  }

  lemma {:induction false} TotalOfSmall(sizes: seq<real>, m: real)
    requires forall i :: 0 <= i < |sizes| ==> sizes[i] <= m
    ensures Total(sizes) <= Amount(m, |sizes| as real)
  {
    hide Amount;
    AmountOfZero(m);
    if sizes != [] {
      TotalOfSmall(sizes[1..], m);
      OneMore(m, |sizes[1..]|);
    }
  }

  lemma {:induction false} TotalSplits(sizes: seq<real>, n: nat)
    requires n <= |sizes|
    ensures Total(sizes) == Total(sizes[..n]) + Total(sizes[n..])
  {
    if n == 0 {
      assert sizes[0..] == sizes;
    } else {
      TotalSplits(sizes[1..], n - 1);
      assert sizes[..n][1..] == sizes[1..][..n - 1] && sizes[1..][n - 1..] == sizes[n..];
    }
  }

  /** So the reported peak covers every queue of even old chunks, and the reported bound covers the writer. */
  lemma EvenChunksStayWithinPeak(b: Budget, sizes: seq<real>, t: real)
    requires b.Valid() && OldChunks(b, sizes) && 0.0 <= t <= b.horizon
    requires
      || (forall i :: 0 <= i < |sizes| ==> sizes[i] >= MixBytesPerChunk(b))
      || (forall i :: 0 <= i < |sizes| ==> sizes[i] <= MixBytesPerChunk(b))
    ensures Queued(b, sizes, t) <= PeakBacklog(b)
    ensures FreeBeside(b, t, Queued(b, sizes, t)) >= WriterMin(b) as real
  {
    hide MixBytesPerChunk, PeakBacklog, Queued, OldChunks, KeepsUp;
    OutageFits(b);
    hide Outage;
    if Serves(b) {
      EvenChunksKeepUp(b, sizes, Remaining(b));
    }
    QueueWithinPeak(b, sizes, t);
    FreeMeans(b, t, Queued(b, sizes, t));
    hide FreeBeside, Transient;
    hide Amount, Growth, EffectiveService, Serves;
    AmountGrows(Growth(b), t, b.horizon);
  }

  /**
   * Under stable service the reported peak covers the queue throughout the horizon exactly when retiring the old
   * chunks in their order keeps up with the arrivals, with what was charged above their bytes as slack.
   */
  lemma StablePeakHoldsIff(b: Budget, sizes: seq<real>)
    requires b.Valid() && OldChunks(b, sizes) && Stable(b)
    ensures Serves(b)
    ensures (forall t :: 0.0 <= t <= b.horizon ==> Queued(b, sizes, t) <= PeakBacklog(b)) <==>
            KeepsUp(b, b.sealedBytesPerSecond, sizes, Allowance(b), Remaining(b))
  {
    StablePeakIsPostOutage(b);
    OutageFits(b);
    hide PeakBacklog, Queued, KeepsUp, OldChunks, Stable, ByteService, FileService, Outage, Allowance, BacklogBytes;
    if KeepsUp(b, b.sealedBytesPerSecond, sizes, Allowance(b), Remaining(b)) {
      forall t | 0.0 <= t <= b.horizon ensures Queued(b, sizes, t) <= PeakBacklog(b) {
        KeptUpStaysWithin(b, sizes, t);
      }
    }
    if forall t :: 0.0 <= t <= b.horizon ==> Queued(b, sizes, t) <= PeakBacklog(b) {
      forall s | 0.0 <= s <= Remaining(b) && s <= HeldAll(b, sizes)
        ensures Amount(b.sealedBytesPerSecond, s) <= Retired(b, sizes, s) + Allowance(b)
      {
        assert Queued(b, sizes, Outage(b) + s) <= PeakBacklog(b);
        WithinKeptUp(b, sizes, s);
      }
      ThroughoutKeepsUp(b, b.sealedBytesPerSecond, sizes, Allowance(b), Remaining(b));
    }
  }

  lemma ThroughoutKeepsUp(b: Budget, rate: real, sizes: seq<real>, slack: real, seconds: real)
    requires b.Valid() && Serves(b) && seconds >= 0.0
    requires forall s :: 0.0 <= s <= seconds && s <= HeldAll(b, sizes) ==>
               Amount(rate, s) <= Retired(b, sizes, s) + slack
    ensures KeepsUp(b, rate, sizes, slack, seconds)
  {
    hide Held, Amount, Retired, HeldAll;
    forall n | 0 <= n <= |sizes| && HeldAll(b, sizes[..n]) <= seconds ensures FirstKeepUp(b, rate, sizes, slack, n) {
      RetiredChunks(b, sizes, n);
    }
  }

  lemma KeptUpStaysWithin(b: Budget, sizes: seq<real>, t: real)
    requires b.Valid() && OldChunks(b, sizes) && Stable(b) && 0.0 <= t <= b.horizon && Serves(b)
    requires KeepsUp(b, b.sealedBytesPerSecond, sizes, Allowance(b), Remaining(b))
    ensures Queued(b, sizes, t) <= BacklogBytes(b)
  {
    var arrival, served := b.sealedBytesPerSecond, t - Outage(b);
    InitialCoversBytes(b);
    OutageFits(b);
    StableServiceKeepsUp(b);
    Adds(arrival, Outage(b), served);
    if served <= 0.0 {
      hide Amount, InitialEquivalent, Outage, Serves, Stable;
      AmountGrows(arrival, t, Outage(b));
    } else if served <= HeldAll(b, sizes) {
      hide OldChunks, KeepsUp, Held, Amount, InitialEquivalent, Outage, Serves, Stable;
      KeepsUpBetween(b, arrival, sizes, Allowance(b), Remaining(b), served);
    } else {
      assert sizes[..|sizes|] == sizes;
      assert FirstKeepUp(b, arrival, sizes, Allowance(b), |sizes|);
      MixIsServedEffectively(b);
      var late := served - HeldAll(b, sizes);
      Adds(arrival, HeldAll(b, sizes), late);
      Slower(arrival, EffectiveService(b), late);
      AmountGrows(arrival, 0.0, Outage(b));
      hide OldChunks, KeepsUp, Held, Amount, InitialEquivalent, Outage, Serves, Stable, EffectiveService;
    }
  }

  lemma WithinKeptUp(b: Budget, sizes: seq<real>, s: real)
    requires b.Valid() && Serves(b) && OldChunks(b, sizes) && 0.0 <= s <= HeldAll(b, sizes)
    requires Queued(b, sizes, Outage(b) + s) <= BacklogBytes(b)
    ensures Amount(b.sealedBytesPerSecond, s) <= Retired(b, sizes, s) + Allowance(b)
  {
    InitialCoversBytes(b);
    Adds(b.sealedBytesPerSecond, Outage(b), s);
    AmountOfZero(b.sealedBytesPerSecond);
    if s == 0.0 {
      RetiredChunks(b, sizes, 0);
      NothingYet(b, 0.0, sizes);
    }
    hide OldChunks, Held, Amount, InitialEquivalent, Outage, Serves;
  }

  // ---------------------------------------------------------------- a peak that is exceeded

  /** Ten seconds, arrivals of one chunk of a hundred bytes a second, and two old chunks of 1000 bytes together. */
  function UnevenBacklog(): Budget {
    Budget(HARD_RESERVE_BYTES + 1101, 1024 * 1024 * 1024, 10.0, 0.0, 100.0, 1.0, 1000.0, 2.0, 1.0, 1.0, 2,
           0.0, 0, 0.0, 1000, 2, 0, 0, 0, 0, 0)
  }

  lemma UnevenRates()
    ensures UnevenBacklog().Valid()
    ensures ByteService(UnevenBacklog()) == 1000.0 && FileService(UnevenBacklog()) == 2.0
    ensures Outage(UnevenBacklog()) == 1.0 && MixBytesPerChunk(UnevenBacklog()) == 100.0
    ensures InitialEquivalent(UnevenBacklog()) == 1000.0
  {
  }

  lemma UnevenAmounts()
    ensures UnevenBacklog().Valid()
    ensures BacklogBytes(UnevenBacklog()) == 1100.0 && BacklogChunks(UnevenBacklog()) == 3.0
    ensures EffectiveService(UnevenBacklog()) == 200.0
    ensures Stable(UnevenBacklog()) && Catchup(UnevenBacklog()) <= 9.0
  {
    UnevenRates();
    hide ByteService, FileService, MixBytesPerChunk, InitialEquivalent, Outage;
  }

  /** While the small chunk is retired, more arrives than it frees. */
  lemma UnevenQueue()
    ensures UnevenBacklog().Valid() && OldChunks(UnevenBacklog(), [1.0, 999.0])
    ensures Queued(UnevenBacklog(), [1.0, 999.0], 1.5) == 1149.0
  {
    UnevenRates();
    var b, sizes := UnevenBacklog(), [1.0, 999.0];
    hide ByteService, FileService, MixBytesPerChunk, InitialEquivalent, Outage;
    assert sizes[1..] == [999.0] && [999.0][1..] == [];
    assert Total(sizes[1..]) == 999.0 && Total([]) == 0.0;
    assert Held(b, 1.0) == 0.5 && Held(b, 999.0) == 0.999;
    assert HeldAll(b, sizes[1..]) == 0.999;
    assert Retired(b, sizes[1..], 0.0) == 0.0;
    assert Retired(b, sizes, 0.5) == 1.0;
  }

  lemma UnevenBacklogFits()
    ensures UnevenBacklog().Valid() && Evaluate(UnevenBacklog()).Fits() && PeakBacklog(UnevenBacklog()) == 1100.0
  {
    hide *;
    UnevenServes();
    UnevenPeak();
    UnevenWriter();
    UnevenArchive();
    FitsIff(UnevenBacklog());
  }

  lemma UnevenServes()
    ensures
      var b := UnevenBacklog();
      && b.Valid()
      && b.sealedBytesPerSecond < ByteService(b) && b.chunksPerSecond < FileService(b)
      && InitialEquivalent(b) + Amount(b.sealedBytesPerSecond, b.horizon) <=
         Amount(ByteService(b), b.horizon - Outage(b))
      && b.initialBacklogChunks as real + Amount(b.chunksPerSecond, b.horizon) <=
         Amount(FileService(b), b.horizon - Outage(b))
  {
    UnevenRates();
    hide ByteService, FileService, InitialEquivalent, Outage;
  }

  lemma UnevenPeak()
    ensures UnevenBacklog().Valid() && PeakBacklog(UnevenBacklog()) == 1100.0
  {
    UnevenRates();
    UnevenAmounts();
    hide ByteService, FileService, MixBytesPerChunk, InitialEquivalent, Outage, BacklogBytes, BacklogChunks,
         EffectiveService, Stable, Catchup;
    assert EndBacklog(UnevenBacklog()) == 200.0;
  }

  lemma UnevenWriter()
    ensures UnevenBacklog().Valid() && WriterMin(UnevenBacklog()) == HARD_RESERVE_BYTES + 1 > HARD_RESERVE_BYTES
  {
    var b := UnevenBacklog();
    UnevenPeak();
    hide PeakBacklog, WriterMin;
    WriterMinIsTight(b);
    assert FreeBeside(b, b.horizon, 1100.0) == (HARD_RESERVE_BYTES + 1) as real;
  }

  lemma UnevenArchive()
    ensures UnevenBacklog().Valid() && UnevenBacklog().archiveFreeBytes > ArchiveNeeded(UnevenBacklog()) == 2000
  {
  }

  /**
   * The charge for old chunks knows only their mean: with a small chunk ahead of a large one, a scenario that fits
   * exceeds its reported peak and takes the writer below its hard reserve.
   */
  lemma UnevenChunksPassThePeak()
    ensures
      var (b, sizes, t) := (UnevenBacklog(), [1.0, 999.0], 1.5);
      && b.Valid() && OldChunks(b, sizes) && 0.0 <= t <= b.horizon && Evaluate(b).Fits()
      && Queued(b, sizes, t) > PeakBacklog(b)
      && FreeBeside(b, t, Queued(b, sizes, t)) < HARD_RESERVE_BYTES as real
  {
    UnevenBacklogFits();
    UnevenQueue();
    hide Evaluate, PeakBacklog, Queued, OldChunks;
  }
}
