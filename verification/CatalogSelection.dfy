/** Selecting the chunks of one capture in a private Catalog copy: `select_catalog`. */
module CatalogSelection {
  import opened Wrappers

  datatype ChunkRow = ChunkRow(recordCount: nat, state: string)

  datatype Transition = Transition(chunkId: string, fromState: Option<string>)

  /** The chunk ledger. Child tables map their own key to the key of the parent row they refer to. */
  datatype Tables = Tables(
    chunks: map<string, ChunkRow>,
    transitions: map<int, Transition>,
    transactions: map<string, string>,                 // transaction -> chunk
    transactionEvents: map<string, string>,            // event -> transaction
    remoteTransactions: Option<map<string, string>>,   // receipt -> chunk; the table may not exist
    remoteEvents: map<string, string>,                 // event -> receipt
    verificationQueue: Option<set<string>>,            // chunk ids
    verificationResults: Option<set<string>>)

  datatype EventKind = DiscontinuityStarted | DiscontinuityCompleted | OtherKind

  /** One end of a discontinuity as the evidence text describes it; `None` is absent or of the wrong type. */
  datatype Authority = Authority(instant: Option<int>, generation: Option<int>, connection: Option<string>)

  /** The evidence object of an event: the identity it repeats, both ends, and the text it was read from. */
  datatype Body = Body(
    market: Option<string>, symbol: Option<string>, stream: Option<string>, gapId: Option<string>,
    original: Authority, renewed: Authority, text: string)

  datatype Event = Event(
    market: string, symbol: string, stream: string, gapId: Option<string>, kind: EventKind, occurredAtUtcNs: int,
    body: Option<Body>)  // None: the evidence is not an object

  /** Operational events and their ledger positions; an event has at most one position. */
  datatype Ledger = Ledger(events: map<string, Event>, position: map<string, int>)

  datatype HighWater = HighWater(chunk: int, archive: int, operational: int)

  datatype Boundary = Boundary(high: HighWater, prior: set<string>)

  /** Outcomes of the file-level comparisons that the selection makes. */
  datatype FileChecks = FileChecks(
    snapshotsAgree: bool, startInventoryUnchanged: bool, startHigh: HighWater, sourceHigh: HighWater)

  datatype SelectionError =
    | InvalidBoundary
    | SnapshotsDiffer
    | CursorExceedsCatalog
    | InventoryChanged
    | CursorDiffers
    | MembershipDiffers
    | NoChunks
    | NotDrained

  // ---------------------------------------------------------------- references

  /** No child row refers to a parent row that is not there. */
  predicate Closed(t: Tables) {
    && (forall k :: k in t.transitions ==> t.transitions[k].chunkId in t.chunks)
    && (forall k :: k in t.transactions ==> t.transactions[k] in t.chunks)
    && (forall k :: k in t.transactionEvents ==> t.transactionEvents[k] in t.transactions)
    && (t.remoteTransactions.Some? ==>
          (forall k :: k in t.remoteTransactions.value ==> t.remoteTransactions.value[k] in t.chunks) &&
          (forall k :: k in t.remoteEvents ==> t.remoteEvents[k] in t.remoteTransactions.value))
    && (t.verificationQueue.Some? ==> t.verificationQueue.value <= t.chunks.Keys)
    && (t.verificationResults.Some? ==> t.verificationResults.value <= t.chunks.Keys)
  }

  predicate LedgerClosed(l: Ledger) {
    l.position.Keys <= l.events.Keys
  }

  /** Chunks whose first transition lies after the cursor. */
  function Initial(t: Tables, high: HighWater): set<int> {
    set k | k in t.transitions && k > high.chunk && t.transitions[k].fromState.None?
  }

  function InitialChunks(t: Tables, high: HighWater): set<string> {
    set k | k in Initial(t, high) :: t.transitions[k].chunkId
  }

  // ---------------------------------------------------------------- the deletes, in order

  function Keep<V>(m: map<string, V>, keys: set<string>): map<string, V> {
    map k | k in m && k in keys :: m[k]
  }

  function KeepParents(m: map<string, string>, parents: set<string>): map<string, string> {
    map k | k in m && m[k] in parents :: m[k]
  }

  function KeepTransitions(m: map<int, Transition>, selected: set<string>): map<int, Transition> {
    map k | k in m && m[k].chunkId in selected :: m[k]
  }

  function TransactionsOf(t: Tables, selected: set<string>): set<string> {
    set k | k in t.transactions && t.transactions[k] in selected
  }

  function DeleteTransactionEvents(t: Tables, selected: set<string>): Tables {
    t.(transactionEvents := KeepParents(t.transactionEvents, TransactionsOf(t, selected)))
  }

  function DeleteRemoteEvents(t: Tables, selected: set<string>): Tables {
    if t.remoteTransactions.None? then t
    else
      var receipts := set k | k in t.remoteTransactions.value && t.remoteTransactions.value[k] in selected;
      t.(remoteEvents := KeepParents(t.remoteEvents, receipts))
  }

  function DeleteRemoteTransactions(t: Tables, selected: set<string>): Tables {
    if t.remoteTransactions.None? then t
    else t.(remoteTransactions := Some(KeepParents(t.remoteTransactions.value, selected)))
  }

  function DeleteQueue(t: Tables, selected: set<string>): Tables {
    if t.verificationQueue.None? then t
    else t.(verificationQueue := Some(t.verificationQueue.value * selected))
  }

  function DeleteResults(t: Tables, selected: set<string>): Tables {
    if t.verificationResults.None? then t
    else t.(verificationResults := Some(t.verificationResults.value * selected))
  }

  function DeleteTransactions(t: Tables, selected: set<string>): Tables {
    t.(transactions := KeepParents(t.transactions, selected))
  }

  function DeleteTransitions(t: Tables, selected: set<string>): Tables {
    t.(transitions := KeepTransitions(t.transitions, selected))
  }

  function DeleteChunks(t: Tables, selected: set<string>): Tables {
    t.(chunks := Keep(t.chunks, selected))
  }

  /** The tables after the first `n` of the eight deletes. */
  function Deleted(t: Tables, selected: set<string>, n: nat): Tables {
    if n == 0 then t
    else
      var before := Deleted(t, selected, n - 1);
      if n == 1 then DeleteTransactionEvents(before, selected)
      else if n == 2 then DeleteRemoteEvents(before, selected)
      else if n == 3 then DeleteRemoteTransactions(before, selected)
      else if n == 4 then DeleteQueue(before, selected)
      else if n == 5 then DeleteResults(before, selected)
      else if n == 6 then DeleteTransactions(before, selected)
      else if n == 7 then DeleteTransitions(before, selected)
      else if n == 8 then DeleteChunks(before, selected)
      else before
  }

  /** Rows of the original tables that hang, directly or through their parents, on a selected chunk. */
  ghost predicate ExactlySelected(t: Tables, selected: set<string>, r: Tables) {
    && r.chunks == Keep(t.chunks, selected)
    && (forall k :: k in r.transitions <==> k in t.transitions && t.transitions[k].chunkId in selected)
    && (forall k :: k in r.transitions ==> r.transitions[k] == t.transitions[k])
    && (forall k :: k in r.transactions <==> k in t.transactions && t.transactions[k] in selected)
    && (forall k :: k in r.transactions ==> r.transactions[k] == t.transactions[k])
    && (forall k :: k in r.transactionEvents <==>
          k in t.transactionEvents && t.transactionEvents[k] in r.transactions)
    && (forall k :: k in r.transactionEvents ==> r.transactionEvents[k] == t.transactionEvents[k])
    && r.remoteTransactions.Some? == t.remoteTransactions.Some?
    && (r.remoteTransactions.Some? ==>
          (forall k :: k in r.remoteTransactions.value <==>
             k in t.remoteTransactions.value && t.remoteTransactions.value[k] in selected) &&
          (forall k :: k in r.remoteTransactions.value ==>
             r.remoteTransactions.value[k] == t.remoteTransactions.value[k]) &&
          (forall k :: k in r.remoteEvents <==>
             k in t.remoteEvents && t.remoteEvents[k] in r.remoteTransactions.value) &&
          (forall k :: k in r.remoteEvents ==> r.remoteEvents[k] == t.remoteEvents[k]))
    && (r.remoteTransactions.None? ==> r.remoteEvents == t.remoteEvents)
    && r.verificationQueue ==
       (if t.verificationQueue.Some? then Some(t.verificationQueue.value * selected) else None)
    && r.verificationResults ==
       (if t.verificationResults.Some? then Some(t.verificationResults.value * selected) else None)
  }

  /** Children go first: after every single delete the references still hold, so none is ever refused. */
  lemma EveryDeleteKeepsReferences(t: Tables, selected: set<string>, n: nat)
    requires Closed(t) && n <= 8
    ensures Closed(Deleted(t, selected, n))
  {
    ShapeAfter(t, selected, n);
  }

  /** Which tables the first `n` deletes have cut down, and to what. */
  lemma {:induction false} ShapeAfter(t: Tables, selected: set<string>, n: nat)
    requires n <= 8
    ensures
      var r := Deleted(t, selected, n);
      && r.transactionEvents ==
         (if n >= 1 then KeepParents(t.transactionEvents, TransactionsOf(t, selected)) else t.transactionEvents)
      && r.remoteEvents ==
         (if n >= 2 && t.remoteTransactions.Some?
          then KeepParents(t.remoteEvents, KeepParents(t.remoteTransactions.value, selected).Keys) else t.remoteEvents)
      && r.remoteTransactions ==
         (if n >= 3 && t.remoteTransactions.Some?
          then Some(KeepParents(t.remoteTransactions.value, selected)) else t.remoteTransactions)
      && r.verificationQueue ==
         (if n >= 4 && t.verificationQueue.Some?
          then Some(t.verificationQueue.value * selected) else t.verificationQueue)
      && r.verificationResults ==
         (if n >= 5 && t.verificationResults.Some?
          then Some(t.verificationResults.value * selected) else t.verificationResults)
      && r.transactions == (if n >= 6 then KeepParents(t.transactions, selected) else t.transactions)
      && r.transitions == (if n >= 7 then KeepTransitions(t.transitions, selected) else t.transitions)
      && r.chunks == (if n >= 8 then Keep(t.chunks, selected) else t.chunks)
  {
    hide KeepParents, KeepTransitions, Keep, TransactionsOf;
    if n > 0 {
      ShapeAfter(t, selected, n - 1);
      if t.remoteTransactions.Some? {
        KeptKeys(t.remoteTransactions.value, selected);
      }
    }
  }

  lemma KeptKeys(m: map<string, string>, selected: set<string>)
    ensures (set k | k in m && m[k] in selected) == KeepParents(m, selected).Keys
  {
  }

  lemma AllDeletesSelectExactly(t: Tables, selected: set<string>)
    ensures ExactlySelected(t, selected, Deleted(t, selected, 8))
    ensures Deleted(t, selected, 8).chunks == Keep(t.chunks, selected)
  {
    ShapeAfter(t, selected, 8);
  }

  /** The order matters: with a leftover transition, deleting chunks first would break a reference. */
  lemma ParentsFirstBreaks(t: Tables, selected: set<string>, k: int)
    requires k in t.transitions && t.transitions[k].chunkId !in selected
    ensures !Closed(DeleteChunks(t, selected))
  {
    assert t.transitions[k].chunkId !in DeleteChunks(t, selected).chunks;
  }

  // ---------------------------------------------------------------- operational events

  /** The four-column match of a discontinuity's start with its completion; a null gap id matches nothing. */
  predicate Matches(start: Event, completed: Event) {
    && start.kind.DiscontinuityStarted? && completed.kind.DiscontinuityCompleted?
    && start.market == completed.market && start.symbol == completed.symbol && start.stream == completed.stream
    && start.gapId.Some? && start.gapId == completed.gapId
  }

  predicate After(l: Ledger, id: string, boundary: int) {
    id in l.position && l.position[id] > boundary
  }

  /** Some completion after the boundary closes this start. */
  predicate Closes(l: Ledger, start: string, boundary: int) {
    && start in l.events
    && exists c :: c in l.events && After(l, c, boundary) && Matches(l.events[start], l.events[c])
  }

  function Retained(l: Ledger, boundary: int): set<string> {
    (set e | e in l.position && l.position[e] > boundary) + (set e | e in l.events && Closes(l, e, boundary))
  }

  function SelectEvents(l: Ledger, boundary: int): Ledger {
    var kept := Retained(l, boundary);
    var position := map e | e in l.position && e in kept :: l.position[e];
    Ledger(map e | e in l.events && e in position :: l.events[e], position)
  }

  /** A start whose gap a completion past the boundary names: same stream, same gap id, and a gap id at all. */
  ghost predicate ClosedAfter(l: Ledger, start: string, boundary: int) {
    && start in l.events && l.events[start].kind == DiscontinuityStarted
    && exists c :: c in l.events && c in l.position && l.position[c] > boundary
                   && Completes(l.events[c], l.events[start])
  }

  predicate Completes(completed: Event, start: Event) {
    && completed.kind == DiscontinuityCompleted
    && (completed.market, completed.symbol, completed.stream) == (start.market, start.symbol, start.stream)
    && start.gapId != None && completed.gapId == start.gapId
  }

  lemma ClosesMeans(l: Ledger, start: string, boundary: int)
    ensures Closes(l, start, boundary) <==> ClosedAfter(l, start, boundary)
  {
    if Closes(l, start, boundary) {
      var c :| c in l.events && After(l, c, boundary) && Matches(l.events[start], l.events[c]);
      assert Completes(l.events[c], l.events[start]);
    }
    if ClosedAfter(l, start, boundary) {
      var c :| c in l.events && c in l.position && l.position[c] > boundary && Completes(l.events[c], l.events[start]);
      assert After(l, c, boundary) && Matches(l.events[start], l.events[c]);
    }
  }

  /** A completion kept from after the boundary keeps its start: exactly when the start has a ledger position. */
  lemma CompletionsKeepTheirStarts(l: Ledger, boundary: int, start: string, completed: string)
    requires LedgerClosed(l) && start in l.events && completed in l.events
    requires After(l, completed, boundary) && Matches(l.events[start], l.events[completed])
    ensures
      var r := SelectEvents(l, boundary);
      && completed in r.events && After(r, completed, boundary) && r.events[completed] == l.events[completed]
      && (start in r.events <==> start in l.position)
      && (start in r.events ==> r.events[start] == l.events[start] && r.position[start] == l.position[start])
  {
    assert Closes(l, start, boundary);
  }

  /** Nothing else survives: each kept row is past the boundary or is the start that a kept completion closes. */
  lemma SelectionIsMinimal(l: Ledger, boundary: int)
    requires LedgerClosed(l)
    ensures
      var r := SelectEvents(l, boundary);
      && LedgerClosed(r) && r.events.Keys == r.position.Keys
      && (forall e :: e in r.events <==> e in l.position && (l.position[e] > boundary || ClosedAfter(l, e, boundary)))
      && (forall e :: e in r.events ==> r.events[e] == l.events[e] && r.position[e] == l.position[e])
  {
    hide ClosedAfter, Closes;
    forall e ensures Closes(l, e, boundary) <==> ClosedAfter(l, e, boundary) {
      ClosesMeans(l, e, boundary);
    }
  }

  // ---------------------------------------------------------------- the selection

  datatype Receipt = Receipt(chunks: nat)

  ghost predicate Selectable(t: Tables, boundary: Boundary, checks: FileChecks) {
    var added := t.chunks.Keys - boundary.prior;
    && boundary.high.chunk >= 0 && boundary.high.archive >= 0 && boundary.high.operational >= 0
    && checks.snapshotsAgree && checks.startInventoryUnchanged && checks.startHigh == boundary.high
    && checks.sourceHigh.chunk >= boundary.high.chunk && checks.sourceHigh.archive >= boundary.high.archive
    && checks.sourceHigh.operational >= boundary.high.operational
    && boundary.prior <= t.chunks.Keys && added != {}
    // the new chunks are those created after the cursor, each of them once
    && (forall c :: c in added <==> exists k :: Creates(t, boundary.high, k, c))
    && (forall k, h, c :: Creates(t, boundary.high, k, c) && Creates(t, boundary.high, h, c) ==> k == h)
    // there is something in them, and all of it is settled
    && (exists c :: c in added && t.chunks[c].recordCount > 0)
    && (forall c :: c in added ==> t.chunks[c].state == "SEALED" || t.chunks[c].state == "LOCAL_DELETED")
  }

  /** Transition `k` lies after the cursor and is the first of chunk `c`. */
  predicate Creates(t: Tables, high: HighWater, k: int, c: string) {
    k in t.transitions && k > high.chunk && t.transitions[k] == Transition(c, None)
  }

  lemma InitialMeans(t: Tables, high: HighWater)
    ensures forall c :: c in InitialChunks(t, high) <==> exists k :: Creates(t, high, k, c)
    ensures |Initial(t, high)| == |InitialChunks(t, high)| <==>
            forall k, h, c :: Creates(t, high, k, c) && Creates(t, high, h, c) ==> k == h
  {
    assert forall k :: k in Initial(t, high) ==> Creates(t, high, k, t.transitions[k].chunkId);
    assert forall k, c :: Creates(t, high, k, c) ==> k in Initial(t, high) && t.transitions[k].chunkId == c;
    ImageSize(t, Initial(t, high));
    if forall k, h :: k in Initial(t, high) && h in Initial(t, high) && ChunkOf(t, k) == ChunkOf(t, h) ==> k == h {
    } else {
      var k, h :| k in Initial(t, high) && h in Initial(t, high) && ChunkOf(t, k) == ChunkOf(t, h) && k != h;
      assert Creates(t, high, k, ChunkOf(t, k)) && Creates(t, high, h, ChunkOf(t, k));
    }
  }

  function ChunkOf(t: Tables, k: int): string {
    if k in t.transitions then t.transitions[k].chunkId else ""
  }

  /** Transitions name as many chunks as there are transitions exactly when no two name the same. */
  lemma {:induction false} ImageSize(t: Tables, keys: set<int>)
    requires keys <= t.transitions.Keys
    ensures
      var image := set k | k in keys :: t.transitions[k].chunkId;
      && |image| <= |keys|
      && (|image| == |keys| <==>
            forall k, h :: k in keys && h in keys && ChunkOf(t, k) == ChunkOf(t, h) ==> k == h)
    decreases keys
  {
    if forall k :: k !in keys {
      assert keys == {};
    } else {
      var k :| k in keys;
      var rest := keys - {k};
      ImageSize(t, rest);
      var c := t.transitions[k].chunkId;
      var image, less := set h | h in keys :: t.transitions[h].chunkId, set h | h in rest :: t.transitions[h].chunkId;
      assert image == less + {c};
      assert keys == rest + {k};
      if c in less {
        var h :| h in rest && t.transitions[h].chunkId == c;
        assert ChunkOf(t, h) == ChunkOf(t, k) && h != k;
        assert image == less;
      } else {
        assert forall h :: h in rest ==> ChunkOf(t, h) != c;
      }
    }
  }

  /** The tests that the selection makes on the tables, in the terms of its temporary tables. */
  lemma SelectableMeans(t: Tables, boundary: Boundary, checks: FileChecks)
    ensures
      var high, selected := boundary.high, InitialChunks(t, boundary.high);
      Selectable(t, boundary, checks) <==>
      && high.chunk >= 0 && high.archive >= 0 && high.operational >= 0
      && checks.snapshotsAgree && checks.startInventoryUnchanged && checks.startHigh == high
      && checks.sourceHigh.chunk >= high.chunk && checks.sourceHigh.archive >= high.archive
      && checks.sourceHigh.operational >= high.operational
      && boundary.prior <= t.chunks.Keys && t.chunks.Keys - boundary.prior == selected
      && selected != {}
      && |Initial(t, high)| == |selected|
      && AnyRecords(Keep(t.chunks, selected)) && AllDrained(Keep(t.chunks, selected))
  {
    var high, selected, added := boundary.high, InitialChunks(t, boundary.high), t.chunks.Keys - boundary.prior;
    InitialMeans(t, high);
    hide Initial, InitialChunks, Creates;
    assert added == selected <==> forall c :: c in added <==> exists k :: Creates(t, high, k, c);
    if added == selected {
      SettledMeans(t.chunks, selected);
    }
    hide AnyRecords, AllDrained, Keep;
  }

  lemma SettledMeans(chunks: map<string, ChunkRow>, selected: set<string>)
    requires selected <= chunks.Keys
    ensures AnyRecords(Keep(chunks, selected)) <==> exists c :: c in selected && chunks[c].recordCount > 0
    ensures AllDrained(Keep(chunks, selected)) <==>
            forall c :: c in selected ==> chunks[c].state == "SEALED" || chunks[c].state == "LOCAL_DELETED"
  {
    var kept := Keep(chunks, selected);
    assert forall c :: c in kept <==> c in selected;
    assert forall c :: c in selected ==> kept[c] == chunks[c];
    hide Keep;
    if exists c :: c in selected && chunks[c].recordCount > 0 {
      var c :| c in selected && chunks[c].recordCount > 0;
      assert kept[c].recordCount > 0;
    }
    forall c | c in selected ensures kept[c].state in ["SEALED", "LOCAL_DELETED"] <==>
                                     chunks[c].state == "SEALED" || chunks[c].state == "LOCAL_DELETED"
    {
    }
    if AllDrained(kept) {
      forall c | c in selected ensures chunks[c].state == "SEALED" || chunks[c].state == "LOCAL_DELETED" {
        assert c in kept;
      }
    }
  }

  predicate AnyRecords(chunks: map<string, ChunkRow>) {
    exists c :: c in chunks && chunks[c].recordCount > 0
  }

  predicate AllDrained(chunks: map<string, ChunkRow>) {
    forall c :: c in chunks ==> chunks[c].state in ["SEALED", "LOCAL_DELETED"]
  }

  class Catalog {
    var tables: Tables
    var ledger: Ledger

    constructor (tables: Tables, ledger: Ledger)
      ensures this.tables == tables && this.ledger == ledger
    {
      this.tables := tables;
      this.ledger := ledger;
    }

    /** The eight DELETE statements, children before parents; the references hold after each. */
    method DeleteUnselected(selected: set<string>)
      requires Closed(tables)
      modifies this
      ensures tables == Deleted(old(tables), selected, 8) && Closed(tables) && ledger == old(ledger)
    {
      ghost var source := tables;
      EveryStepDeletes(source, selected);
      forall n: nat | n <= 8 ensures Closed(Deleted(source, selected, n)) {
        EveryDeleteKeepsReferences(source, selected, n);
      }
      hide *;
      tables := DeleteTransactionEvents(tables, selected);
      assert Closed(tables);
      tables := DeleteRemoteEvents(tables, selected);
      assert Closed(tables);
      tables := DeleteRemoteTransactions(tables, selected);
      assert Closed(tables);
      tables := DeleteQueue(tables, selected);
      assert Closed(tables);
      tables := DeleteResults(tables, selected);
      assert Closed(tables);
      tables := DeleteTransactions(tables, selected);
      assert Closed(tables);
      tables := DeleteTransitions(tables, selected);
      assert Closed(tables);
      tables := DeleteChunks(tables, selected);
    }

    /** Runs on a private copy, so a refusal leaves the source alone whatever has been deleted here. */
    method SelectCatalog(boundary: Boundary, checks: FileChecks) returns (r: Result<Receipt, SelectionError>)
      requires Closed(tables) && LedgerClosed(ledger)
      modifies this
      ensures r.Success? <==> Selectable(old(tables), boundary, checks)
      ensures r.Success? ==>
                && tables.chunks.Keys == old(tables).chunks.Keys - boundary.prior
                && ExactlySelected(old(tables), old(tables).chunks.Keys - boundary.prior, tables)
                && Closed(tables) && LedgerClosed(ledger)
                && ledger == SelectEvents(old(ledger), boundary.high.operational)
                && r.value.chunks == |tables.chunks|
    {
      hide ExactlySelected, Closed, Initial, InitialChunks, SelectEvents, Deleted, Keep, LedgerClosed,
           AnyRecords, AllDrained, Selectable;
      SelectableMeans(tables, boundary, checks);
      var high := boundary.high;
      if high.chunk < 0 || high.archive < 0 || high.operational < 0 {
        return Failure(InvalidBoundary);
      }
      if !checks.snapshotsAgree {
        return Failure(SnapshotsDiffer);
      }
      if checks.sourceHigh.chunk < high.chunk || checks.sourceHigh.archive < high.archive
         || checks.sourceHigh.operational < high.operational {
        return Failure(CursorExceedsCatalog);
      }
      var initial := Initial(tables, high);
      var count := |initial|;
      if !checks.startInventoryUnchanged {
        return Failure(InventoryChanged);
      }
      if checks.startHigh != high {
        return Failure(CursorDiffers);
      }
      var selected := InitialChunks(tables, high);
      if !(boundary.prior <= tables.chunks.Keys) || tables.chunks.Keys - boundary.prior != selected {
        return Failure(MembershipDiffers);
      }
      SelectedEmptyIff(tables, high);
      if count == 0 {
        return Failure(NoChunks);
      }
      ghost var source := tables;
      DeleteUnselected(selected);
      AllDeletesSelectExactly(source, selected);
      SelectionIsMinimal(ledger, high.operational);
      ledger := SelectEvents(ledger, high.operational);
      KeptChunks(source.chunks, selected);
      if !AnyRecords(tables.chunks) || |tables.chunks| != count || !AllDrained(tables.chunks) {
        return Failure(NotDrained);
      }
      r := Success(Receipt(count));
    }
  }

  lemma SelectedEmptyIff(t: Tables, high: HighWater)
    ensures InitialChunks(t, high) == {} <==> |Initial(t, high)| == 0
  {
    if Initial(t, high) != {} {
      var k :| k in Initial(t, high);
      assert t.transitions[k].chunkId in InitialChunks(t, high);
    }
    if InitialChunks(t, high) != {} {
      var c :| c in InitialChunks(t, high);
      assert exists k :: k in Initial(t, high);
    }
  }

  lemma KeptChunks(chunks: map<string, ChunkRow>, selected: set<string>)
    requires selected <= chunks.Keys
    ensures Keep(chunks, selected).Keys == selected
    ensures |Keep(chunks, selected)| == |selected|
    ensures forall c :: c in selected ==> Keep(chunks, selected)[c] == chunks[c]
  {
    assert |Keep(chunks, selected)| == |Keep(chunks, selected).Keys|;
  }

  /** The statements, one after another, in terms of the numbered prefix. */
  lemma EveryStepDeletes(t: Tables, selected: set<string>)
    ensures Deleted(t, selected, 0) == t
    ensures Deleted(t, selected, 1) == DeleteTransactionEvents(Deleted(t, selected, 0), selected)
    ensures Deleted(t, selected, 2) == DeleteRemoteEvents(Deleted(t, selected, 1), selected)
    ensures Deleted(t, selected, 3) == DeleteRemoteTransactions(Deleted(t, selected, 2), selected)
    ensures Deleted(t, selected, 4) == DeleteQueue(Deleted(t, selected, 3), selected)
    ensures Deleted(t, selected, 5) == DeleteResults(Deleted(t, selected, 4), selected)
    ensures Deleted(t, selected, 6) == DeleteTransactions(Deleted(t, selected, 5), selected)
    ensures Deleted(t, selected, 7) == DeleteTransitions(Deleted(t, selected, 6), selected)
    ensures Deleted(t, selected, 8) == DeleteChunks(Deleted(t, selected, 7), selected)
  {
  }
}
