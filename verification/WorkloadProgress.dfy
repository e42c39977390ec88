/** Write and fsync accounting of the finite workload: one ledger, many writers, acknowledgements in flight. */
module WorkloadProgress {
  import opened Wrappers

  datatype Phase = Sent | Received | Enqueued | WrittenPhase | Persisted

  /** Frames and payload bytes of one phase. */
  datatype Amount = Amount(frames: int, bytes: int) {
    function Plus(other: Amount): Amount {
      Amount(frames + other.frames, bytes + other.bytes)
    }
    function Minus(other: Amount): Amount {
      Amount(frames - other.frames, bytes - other.bytes)
    }
    predicate AtMost(other: Amount) {
      frames <= other.frames && bytes <= other.bytes
    }
  }

  const ZERO := Amount(0, 0)

  datatype Counters = Counters(sent: Amount, received: Amount, enqueued: Amount, written: Amount, persisted: Amount) {
    function Bump(phase: Phase, size: nat): Counters {
      var one := Amount(1, size);
      match phase
      case Sent => this.(sent := sent.Plus(one))
      case Received => this.(received := received.Plus(one))
      case Enqueued => this.(enqueued := enqueued.Plus(one))
      case WrittenPhase => this.(written := written.Plus(one))
      case Persisted => this.(persisted := persisted.Plus(one))
    }
  }

  /** What a writer has appended, and how much of it an fsync has covered. */
  datatype WriterRow = WriterRow(key: string, written: Amount, synced: Amount)

  datatype Ticket = Ticket(key: string, covered: Amount)

  datatype Ledger = Ledger(values: map<string, Counters>, writers: map<string, WriterRow>, lastSent: map<string, real>)

  datatype ProgressError = NoStreams | UnknownStream | UnknownWriter | NonmonotonicAcknowledgement

  datatype Op =
    | Register(key: string)
    | Record(phase: Phase, key: string, size: nat, elapsed: real)
    | Write(writer: string, key: string, size: nat)
    | Sync(writer: string, target: Option<Ticket>)

  // ---------------------------------------------------------------- specification of the operations

  function TicketFor(l: Ledger, writer: string): Option<Ticket> {
    if writer in l.writers then Some(Ticket(l.writers[writer].key, l.writers[writer].written)) else None
  }

  function Apply(l: Ledger, op: Op): Result<Ledger, ProgressError> {
    match op
    case Register(key) =>
      if key in l.values then Success(l)
      else if l.values == map[] then Failure(NoStreams)
      else Success(l.(values := l.values[key := Counters(ZERO, ZERO, ZERO, ZERO, ZERO)],
                      lastSent := l.lastSent[key := 0.0]))
    case Record(phase, key, size, elapsed) =>
      if key !in l.values then Failure(UnknownStream)
      else Success(l.(values := l.values[key := l.values[key].Bump(phase, size)],
                      lastSent := if phase.Sent? then l.lastSent[key := elapsed] else l.lastSent))
    case Write(writer, key, size) =>
      if key !in l.values then Failure(UnknownStream)
      else
        var row := if writer in l.writers then l.writers[writer] else WriterRow(key, ZERO, ZERO);
        Success(l.(
          values := l.values[key := l.values[key].Bump(WrittenPhase, size)],
          writers := l.writers[writer := WriterRow(key, row.written.Plus(Amount(1, size)), row.synced)]))
    case Sync(writer, target) =>
      if target.None? then Success(l)
      else if writer !in l.writers then Failure(UnknownWriter)
      else
        var row, covered := l.writers[writer], target.value.covered;
        if !(row.synced.AtMost(covered) && covered.AtMost(row.written)) then Failure(NonmonotonicAcknowledgement)
        else if target.value.key !in l.values then Failure(UnknownStream)
        else
          var counters := l.values[target.value.key];
          Success(l.(
            values :=
              l.values[target.value.key := counters.(persisted := counters.persisted.Plus(covered.Minus(row.synced)))],
            writers := l.writers[writer := WriterRow(target.value.key, row.written, covered)]))
  }

  /** A refused operation leaves the ledger as it was. */
  function Step(l: Ledger, op: Op): Ledger {
    var r := Apply(l, op);
    if r.Success? then r.value else l
  }

  function Execute(l: Ledger, ops: seq<Op>): Ledger {
    if ops == [] then l else Step(Execute(l, ops[..|ops| - 1]), ops[|ops| - 1])
  }

  // ---------------------------------------------------------------- the object

  class Progress {
    var values: map<string, Counters>
    var writers: map<string, WriterRow>
    var lastSent: map<string, real>

    function Contents(): Ledger
      reads this
    {
      Ledger(values, writers, lastSent)
    }

    constructor (streams: set<string>)
      ensures writers == map[] && values.Keys == streams
      ensures forall key :: key in streams ==> values[key] == Counters(ZERO, ZERO, ZERO, ZERO, ZERO)
      ensures forall key :: key in streams ==> key in lastSent && lastSent[key] == 0.0
      ensures Balanced(Contents())
    {
      values := map key | key in streams :: Counters(ZERO, ZERO, ZERO, ZERO, ZERO);
      writers := map[];
      lastSent := map key | key in streams :: 0.0;
    }

    /** Copies the counter names of a registered stream, so there has to be one. */
    method RegisterModelSource(key: string) returns (r: Result<(), ProgressError>)
      modifies this
      ensures Contents() == Step(old(Contents()), Register(key))
      ensures r.Failure? <==> old(values) == map[]
    {
      if key !in values {
        if values == map[] {
          return Failure(NoStreams);
        }
        values := values[key := Counters(ZERO, ZERO, ZERO, ZERO, ZERO)];
        lastSent := lastSent[key := 0.0];
      }
      r := Success(());
    }

    method Record(phase: Phase, key: string, size: nat, elapsed: real) returns (r: Result<(), ProgressError>)
      modifies this
      ensures Contents() == Step(old(Contents()), Op.Record(phase, key, size, elapsed))
      ensures r.Success? <==> key in old(values)
    {
      if key !in values {
        return Failure(UnknownStream);
      }
      values := values[key := values[key].Bump(phase, size)];
      if phase == Sent {
        lastSent := lastSent[key := elapsed];
      }
      r := Success(());
    }

    method Written(writer: string, key: string, size: nat) returns (r: Result<(), ProgressError>)
      modifies this
      ensures Contents() == Step(old(Contents()), Write(writer, key, size))
      ensures r.Success? <==> key in old(values)
    {
      r := Record(WrittenPhase, key, size, 0.0);
      if r.Failure? {
        return;
      }
      var row := if writer in writers then writers[writer] else WriterRow(key, ZERO, ZERO);
      writers := writers[writer := WriterRow(key, row.written.Plus(Amount(1, size)), row.synced)];
    }

    method SyncTarget(writer: string) returns (target: Option<Ticket>)
      ensures target == TicketFor(Contents(), writer)
    {
      if writer in writers {
        target := Some(Ticket(writers[writer].key, writers[writer].written));
      } else {
        target := None;
      }
    }

    method Synced(writer: string, target: Option<Ticket>) returns (r: Result<(), ProgressError>)
      modifies this
      ensures Contents() == Step(old(Contents()), Sync(writer, target))
      ensures r.Success? <==> Apply(old(Contents()), Sync(writer, target)).Success?
      ensures r.Failure? ==> unchanged(this) && r.error == Apply(old(Contents()), Sync(writer, target)).error
    {
      if target.None? {
        return Success(());
      }
      if writer !in writers {
        return Failure(UnknownWriter);
      }
      var row, covered := writers[writer], target.value.covered;
      if !(row.synced.AtMost(covered) && covered.AtMost(row.written)) {
        return Failure(NonmonotonicAcknowledgement);
      }
      if target.value.key !in values {
        return Failure(UnknownStream);
      }
      var counters := values[target.value.key];
      values := values[target.value.key := counters.(persisted := counters.persisted.Plus(covered.Minus(row.synced)))];
      writers := writers[writer := WriterRow(target.value.key, row.written, covered)];
      r := Success(());
    }
  }

  // ---------------------------------------------------------------- sums over the writers of one stream

  /** A writer's written and synced amounts, counted for its own stream only. */
  function Share(row: WriterRow, key: string): (Amount, Amount) {
    if row.key == key then (row.written, row.synced) else (ZERO, ZERO)
  }

  function Add(a: (Amount, Amount), b: (Amount, Amount)): (Amount, Amount) {
    (a.0.Plus(b.0), a.1.Plus(b.1))
  }

  ghost function Sum(writers: map<string, WriterRow>, key: string): (Amount, Amount)
    decreases |writers|
  {
    if writers == map[] then (ZERO, ZERO)
    else
      var w := Pick(writers);
      Smaller(writers, w);
      Add(Share(writers[w], key), Sum(writers - {w}, key))
  }

  ghost function Pick(writers: map<string, WriterRow>): (w: string)
    requires writers != map[]
    ensures w in writers
  {
    var w :| w in writers;
    w
  }

  lemma Smaller(writers: map<string, WriterRow>, w: string)
    requires w in writers
    ensures |writers - {w}| == |writers| - 1
  {
    assert (writers - {w}).Keys == writers.Keys - {w};
    assert |(writers - {w}).Keys| == |writers.Keys| - 1;
  }

  /** Any writer may be taken out of the sum first. */
  lemma {:induction false} SumTakesOut(writers: map<string, WriterRow>, key: string, w: string)
    requires w in writers
    ensures Sum(writers, key) == Add(Share(writers[w], key), Sum(writers - {w}, key))
    decreases |writers|
  {
    hide Share;
    var v := Pick(writers);
    if v != w {
      var a, b := writers - {v}, writers - {w};
      Smaller(writers, v);
      Smaller(writers, w);
      SumTakesOut(a, key, w);
      SumTakesOut(b, key, v);
      assert a - {w} == b - {v};
    }
  }

  lemma SumUpdates(writers: map<string, WriterRow>, key: string, w: string, row: WriterRow)
    ensures
      var rest := Sum(writers - {w}, key);
      && Sum(writers[w := row], key) == Add(Share(row, key), rest)
      && Sum(writers, key) == if w in writers then Add(Share(writers[w], key), rest) else rest
  {
    hide Sum, Share, Add;
    SumTakesOut(writers[w := row], key, w);
    assert writers[w := row] - {w} == writers - {w};
    if w in writers {
      SumTakesOut(writers, key, w);
    } else {
      assert writers - {w} == writers;
    }
  }

  lemma {:induction false} NobodyWritesTo(writers: map<string, WriterRow>, key: string)
    requires forall w :: w in writers ==> writers[w].key != key
    ensures Sum(writers, key) == (ZERO, ZERO)
    decreases |writers|
  {
    if writers != map[] {
      var v := Pick(writers);
      Smaller(writers, v);
      NobodyWritesTo(writers - {v}, key);
    }
  }

  lemma {:induction false} SyncedSumAtMostWritten(writers: map<string, WriterRow>, key: string)
    requires forall w :: w in writers ==> writers[w].synced.AtMost(writers[w].written)
    ensures Sum(writers, key).1.AtMost(Sum(writers, key).0)
    decreases |writers|
  {
    if writers != map[] {
      var v := Pick(writers);
      Smaller(writers, v);
      SyncedSumAtMostWritten(writers - {v}, key);
    }
  }

  // ---------------------------------------------------------------- the accounting invariant

  /** Each stream's counters are the sums over its writers; no writer is synced beyond what it wrote. */
  ghost predicate Balanced(l: Ledger) {
    && (forall key :: key in l.values ==> StreamBalanced(l, key))
    && (forall w :: w in l.writers ==> SoundRow(l, l.writers[w]))
  }

  ghost predicate StreamBalanced(l: Ledger, key: string)
    requires key in l.values
  {
    (l.values[key].written, l.values[key].persisted) == Sum(l.writers, key)
  }

  ghost predicate SoundRow(l: Ledger, row: WriterRow) {
    && row.key in l.values
    && row.written.frames >= 1
    && row.synced.AtMost(row.written)
  }

  /** A writer id serves one stream, which acknowledgements name; direct records leave both ends alone. */
  predicate OneStreamPerWriter(l: Ledger, op: Op) {
    match op
    case Register(_) => true
    case Record(phase, _, _, _) => !phase.WrittenPhase? && !phase.Persisted?
    case Write(writer, key, _) => writer in l.writers ==> l.writers[writer].key == key
    case Sync(writer, target) => target.Some? && writer in l.writers ==> target.value.key == l.writers[writer].key
  }

  /** One accepted operation keeps the invariant exactly when it respects the one-stream discipline. */
  lemma BalanceKeptIff(l: Ledger, op: Op)
    requires Balanced(l) && Apply(l, op).Success?
    ensures Balanced(Step(l, op)) <==> OneStreamPerWriter(l, op)
  {
    match op
    case Register(key) =>
      if key !in l.values {
        NewStreamIsBalanced(l, key);
      }
    case Record(phase, key, size, _) =>
      if !OneStreamPerWriter(l, op) {
        assert key in Step(l, op).values;
      }
    case Write(writer, key, size) => WriteKeepsBalanceIff(l, writer, key, size);
    case Sync(writer, target) =>
      if target.Some? {
        SyncKeepsBalanceIff(l, writer, target.value);
      }
  }

  lemma NewStreamIsBalanced(l: Ledger, key: string)
    requires Balanced(l) && key !in l.values
    ensures Balanced(Step(l, Register(key)))
  {
    forall w | w in l.writers ensures l.writers[w].key != key && l.writers[w].key in l.values {
      assert SoundRow(l, l.writers[w]);
    }
    NobodyWritesTo(l.writers, key);
  }

  lemma WriteKeepsBalanceIff(l: Ledger, writer: string, key: string, size: nat)
    requires Balanced(l) && key in l.values
    ensures Balanced(Step(l, Write(writer, key, size))) <==> OneStreamPerWriter(l, Write(writer, key, size))
  {
    hide StreamBalanced, SoundRow;
    var op := Write(writer, key, size);
    var after := Step(l, op);
    forall k | k in after.values
      ensures OneStreamPerWriter(l, op) ==> StreamBalanced(after, k)
      ensures !OneStreamPerWriter(l, op) && k == l.writers[writer].key ==> !StreamBalanced(after, k)
    {
      WriteOnStream(l, writer, key, size, k);
    }
    forall w | w in after.writers
      ensures SoundRow(after, after.writers[w]) && (w in l.writers ==> l.writers[w].key in after.values)
    {
      WriteOnRow(l, writer, key, size, w);
    }
  }

  lemma WriteOnStream(l: Ledger, writer: string, key: string, size: nat, k: string)
    requires key in l.values && k in l.values && StreamBalanced(l, k)
    requires writer in l.writers ==> SoundRow(l, l.writers[writer])
    ensures
      var op := Write(writer, key, size);
      && k in Step(l, op).values
      && (OneStreamPerWriter(l, op) ==> StreamBalanced(Step(l, op), k))
      && (!OneStreamPerWriter(l, op) && k == l.writers[writer].key ==> !StreamBalanced(Step(l, op), k))
  {
    hide Sum;
    SumUpdates(l.writers, k, writer, Step(l, Write(writer, key, size)).writers[writer]);
  }

  lemma WriteOnRow(l: Ledger, writer: string, key: string, size: nat, w: string)
    requires key in l.values && forall v :: v in l.writers ==> SoundRow(l, l.writers[v])
    ensures
      var after := Step(l, Write(writer, key, size));
      && (w in after.writers ==> SoundRow(after, after.writers[w]))
      && (w in l.writers ==> l.writers[w].key in after.values)
  {
  }

  lemma SyncKeepsBalanceIff(l: Ledger, writer: string, t: Ticket)
    requires Balanced(l) && Apply(l, Sync(writer, Some(t))).Success?
    ensures Balanced(Step(l, Sync(writer, Some(t)))) <==> t.key == l.writers[writer].key
  {
    hide StreamBalanced, SoundRow;
    var after := Step(l, Sync(writer, Some(t)));
    forall k | k in after.values
      ensures t.key == l.writers[writer].key ==> StreamBalanced(after, k)
      ensures t.key != l.writers[writer].key && k == l.writers[writer].key ==> !StreamBalanced(after, k)
    {
      SyncOnStream(l, writer, t, k);
    }
    forall w | w in after.writers
      ensures SoundRow(after, after.writers[w]) && l.writers[w].key in after.values
    {
      SyncOnRow(l, writer, t, w);
    }
  }

  lemma SyncOnStream(l: Ledger, writer: string, t: Ticket, k: string)
    requires Apply(l, Sync(writer, Some(t))).Success? && k in l.values && StreamBalanced(l, k)
    requires SoundRow(l, l.writers[writer])
    ensures
      var after := Step(l, Sync(writer, Some(t)));
      && k in after.values
      && (t.key == l.writers[writer].key ==> StreamBalanced(after, k))
      && (t.key != l.writers[writer].key && k == l.writers[writer].key ==> !StreamBalanced(after, k))
  {
    hide Sum;
    SumUpdates(l.writers, k, writer, Step(l, Sync(writer, Some(t))).writers[writer]);
  }

  lemma SyncOnRow(l: Ledger, writer: string, t: Ticket, w: string)
    requires Apply(l, Sync(writer, Some(t))).Success? && forall v :: v in l.writers ==> SoundRow(l, l.writers[v])
    requires w in l.writers
    ensures
      var after := Step(l, Sync(writer, Some(t)));
      w in after.writers && SoundRow(after, after.writers[w]) && l.writers[w].key in after.values
  {
  }

  // ---------------------------------------------------------------- main results over every interleaving

  ghost predicate Disciplined(l: Ledger, ops: seq<Op>) {
    forall i :: 0 <= i < |ops| ==> OneStreamPerWriter(Execute(l, ops[..i]), ops[i])
  }

  /** Any interleaving of disciplined operations, refused ones included, keeps the books balanced. */
  lemma {:induction false} InterleavingsStayBalanced(l: Ledger, ops: seq<Op>)
    requires Balanced(l) && Disciplined(l, ops)
    ensures Balanced(Execute(l, ops))
    ensures forall key :: key in Execute(l, ops).values ==>
              Execute(l, ops).values[key].persisted.AtMost(Execute(l, ops).values[key].written)
  {
    if ops != [] {
      var n := |ops| - 1;
      forall i | 0 <= i < n ensures OneStreamPerWriter(Execute(l, ops[..n][..i]), ops[..n][i]) {
        assert ops[..n][..i] == ops[..i];
        assert OneStreamPerWriter(Execute(l, ops[..i]), ops[i]);
      }
      InterleavingsStayBalanced(l, ops[..n]);
      assert OneStreamPerWriter(Execute(l, ops[..n]), ops[n]);
      if Apply(Execute(l, ops[..n]), ops[n]).Success? {
        BalanceKeptIff(Execute(l, ops[..n]), ops[n]);
      }
    }
    PersistedAtMostWritten(Execute(l, ops));
  }

  lemma PersistedAtMostWritten(l: Ledger)
    requires Balanced(l)
    ensures forall key :: key in l.values ==> l.values[key].persisted.AtMost(l.values[key].written)
  {
    forall key | key in l.values ensures l.values[key].persisted.AtMost(l.values[key].written) {
      assert forall w :: w in l.writers ==> SoundRow(l, l.writers[w]);
      SyncedSumAtMostWritten(l.writers, key);
    }
  }

  /** The counter that a phase has among a stream's counters. */
  function CounterOf(c: Counters, phase: Phase): Amount {
    match phase
    case Sent => c.sent
    case Received => c.received
    case Enqueued => c.enqueued
    case WrittenPhase => c.written
    case Persisted => c.persisted
  }

  /** What one operation, when it is taken, adds to a stream's phase by itself: one frame of its size, or nothing. */
  function Adds(op: Op, phase: Phase, key: string): Amount {
    if op.Record? && op.phase == phase && op.key == key then Amount(1, op.size)
    else if op.Write? && phase.WrittenPhase? && op.key == key then Amount(1, op.size)
    else ZERO
  }

  function Tally(l: Ledger, ops: seq<Op>, phase: Phase, key: string): Amount {
    if ops == [] then ZERO
    else
      var n := |ops| - 1;
      var before := Tally(l, ops[..n], phase, key);
      if Apply(Execute(l, ops[..n]), ops[n]).Success? then before.Plus(Adds(ops[n], phase, key)) else before
  }

  /** In any run each counter but the persisted one, which acknowledgements move, is the tally of what was taken. */
  lemma {:induction false} CountersAreTallies(l: Ledger, ops: seq<Op>, phase: Phase, key: string)
    requires key in l.values && !phase.Persisted?
    ensures key in Execute(l, ops).values
    ensures CounterOf(Execute(l, ops).values[key], phase) ==
            CounterOf(l.values[key], phase).Plus(Tally(l, ops, phase, key))
  {
    if ops != [] {
      var n := |ops| - 1;
      CountersAreTallies(l, ops[..n], phase, key);
      OneMoreCounted(Execute(l, ops[..n]), ops[n], phase, key);
      hide Step, Apply, Adds, CounterOf;
    }
  }

  lemma OneMoreCounted(l: Ledger, op: Op, phase: Phase, key: string)
    requires key in l.values && !phase.Persisted?
    ensures key in Step(l, op).values
    ensures CounterOf(Step(l, op).values[key], phase) ==
            if Apply(l, op).Success? then CounterOf(l.values[key], phase).Plus(Adds(op, phase, key))
            else CounterOf(l.values[key], phase)
  {
  }

  /** The time that the last accepted send of a stream gave, if the run had one. */
  function LastSend(l: Ledger, ops: seq<Op>, key: string): Option<real> {
    if ops == [] then None
    else
      var op := ops[|ops| - 1];
      if op.Record? && op.phase.Sent? && op.key == key && key in Execute(l, ops[..|ops| - 1]).values
      then Some(op.elapsed) else LastSend(l, ops[..|ops| - 1], key)
  }

  /** Nothing but a send moves the time of a stream's last send; registering the stream again does not either. */
  lemma {:induction false} LastSentIsLastSend(l: Ledger, ops: seq<Op>, key: string)
    requires key in l.values && key in l.lastSent
    ensures key in Execute(l, ops).values && key in Execute(l, ops).lastSent
    ensures Execute(l, ops).lastSent[key] ==
            var t := LastSend(l, ops, key); if t.Some? then t.value else l.lastSent[key]
  {
    if ops != [] {
      LastSentIsLastSend(l, ops[..|ops| - 1], key);
    }
  }

  /** Writers and streams never vanish, and a writer's amounts only grow. */
  ghost predicate Grown(l: Ledger, m: Ledger) {
    && l.values.Keys <= m.values.Keys
    && (forall w :: w in l.writers ==> w in m.writers && l.writers[w].written.AtMost(m.writers[w].written)
                                                      && l.writers[w].synced.AtMost(m.writers[w].synced))
  }

  lemma {:induction false} LedgersGrow(l: Ledger, ops: seq<Op>)
    ensures Grown(l, Execute(l, ops))
  {
    if ops != [] {
      var n := |ops| - 1;
      LedgersGrow(l, ops[..n]);
      StepGrows(Execute(l, ops[..n]), ops[n]);
      hide Step;
    }
  }

  lemma StepGrows(l: Ledger, op: Op)
    ensures Grown(l, Step(l, op))
  {
  }

  /**
   * An acknowledgement of a ticket taken earlier succeeds, whatever ran in between, exactly when no later
   * acknowledgement has overtaken it; it then credits exactly what the ticket captured.
   */
  lemma {:induction false} AcknowledgementIsExact(l: Ledger, ops: seq<Op>, writer: string)
    requires Balanced(l) && writer in l.writers
    ensures
      var t := TicketFor(l, writer);
      var now := Execute(l, ops);
      && t.Some? && writer in now.writers
      && (Apply(now, Sync(writer, t)).Success? <==> now.writers[writer].synced.AtMost(t.value.covered))
      && (Apply(now, Sync(writer, t)).Success? ==>
            var after := Step(now, Sync(writer, t));
            && t.value.key in now.values
            && after.writers[writer].synced == l.writers[writer].written
            && after.writers[writer].written == now.writers[writer].written
            && after.values[t.value.key].persisted ==
               now.values[t.value.key].persisted.Plus(l.writers[writer].written.Minus(now.writers[writer].synced)))
      && (Apply(now, Sync(writer, t)).Failure? ==> Step(now, Sync(writer, t)) == now)
  {
    LedgersGrow(l, ops);
    assert SoundRow(l, l.writers[writer]);
  }

  /** Once a later ticket has been acknowledged, an earlier, smaller one is refused for good. */
  lemma OvertakenTicketIsRefused(l: Ledger, between: seq<Op>, after: seq<Op>, later: seq<Op>, writer: string)
    requires writer in l.writers
    requires
      var second := Execute(l, between);
      && !TicketFor(second, writer).None?
      && TicketFor(second, writer).value.covered.frames > l.writers[writer].written.frames
      && Apply(Execute(second, after), Sync(writer, TicketFor(second, writer))).Success?
    ensures
      var second := Execute(l, between);
      var acked := Step(Execute(second, after), Sync(writer, TicketFor(second, writer)));
      Apply(Execute(acked, later), Sync(writer, TicketFor(l, writer))) == Failure(NonmonotonicAcknowledgement)
  {
    var second := Execute(l, between);
    var acked := Step(Execute(second, after), Sync(writer, TicketFor(second, writer)));
    LedgersGrow(acked, later);
  }

  /** Without the discipline the books do break: one writer id appending to two streams. */
  lemma TwoStreamsBreakTheBooks()
    ensures
      var zero := Counters(ZERO, ZERO, ZERO, ZERO, ZERO);
      var l := Ledger(map["a" := zero, "b" := zero], map[], map["a" := 0.0, "b" := 0.0]);
      Balanced(l) && !Balanced(Execute(l, [Write("w", "a", 1), Write("w", "b", 1)]))
  {
    var zero := Counters(ZERO, ZERO, ZERO, ZERO, ZERO);
    var l := Ledger(map["a" := zero, "b" := zero], map[], map["a" := 0.0, "b" := 0.0]);
    var ops := [Write("w", "a", 1), Write("w", "b", 1)];
    var m := Step(l, ops[0]);
    assert ops[..1] == [ops[0]] && ops[..1][..0] == [];
    assert Execute(l, ops[..1]) == Step(Execute(l, []), ops[0]);
    BalanceKeptIff(l, ops[0]);
    BalanceKeptIff(m, ops[1]);
  }
}
