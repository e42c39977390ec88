/** Putting back the discontinuity starts that a selected Catalog lost: `repair_discontinuity_context`. */
module CausalRepair {
  import opened Wrappers
  import opened CatalogSelection

  datatype RepairError =
    | SequenceNotOneToOne
    | CompletionDiffers(id: string)
    | AmbiguousPair(id: string)
    | IncompletePair(id: string)
    | UnsoundPair(id: string)
    | RetainedStartDiffers(id: string)
    | MissingPostBoundaryStart(id: string)
    | KeyConflict(id: string)
    | HighWaterChanged

  /** Ledger positions are a primary key. */
  ghost predicate DistinctPositions(l: Ledger) {
    forall d, e :: d in l.position && e in l.position && l.position[d] == l.position[e] ==> d == e
  }

  // ---------------------------------------------------------------- what there is to repair

  function Completions(l: Ledger, boundary: int): set<string> {
    set c | c in l.events && After(l, c, boundary) && l.events[c].kind.DiscontinuityCompleted?
  }

  /** Source starts that the four-column match pairs with a completion. */
  function StartsOf(source: Ledger, completed: Event): set<string> {
    set s | s in source.events && s in source.position && Matches(source.events[s], completed)
  }

  /** Source starts paired with some completion of the catalog. */
  function Needed(l: Ledger, source: Ledger, boundary: int): set<string> {
    set c, s | c in Completions(l, boundary) && s in StartsOf(source, l.events[c]) :: s
  }

  function MissingStarts(l: Ledger, source: Ledger, boundary: int): set<string> {
    set s | s in Needed(l, source, boundary) && s !in l.position
  }

  /** The catalog with the given source rows added, positions and all. */
  function Plus(l: Ledger, source: Ledger, ids: set<string>): Ledger {
    Ledger(l.events + (map s | s in ids && s in source.events :: source.events[s]),
           l.position + (map s | s in ids && s in source.position :: source.position[s]))
  }

  ghost predicate SameRow(l: Ledger, source: Ledger, id: string) {
    && id in l.events && id in l.position && id in source.events && id in source.position
    && l.events[id] == source.events[id] && l.position[id] == source.position[id]
  }

  /** Events of the source that the pair lookup finds for a completion, of either kind; a null gap id finds none. */
  function PairStarts(source: Ledger, completed: Event): set<string> {
    set s | s in source.events && Matches(source.events[s], completed)
  }

  function PairCompletions(source: Ledger, completed: Event): set<string> {
    set d | d in source.events && Twins(source.events[d], completed)
  }

  predicate Twins(a: Event, b: Event) {
    && a.kind.DiscontinuityCompleted? && b.kind.DiscontinuityCompleted?
    && a.market == b.market && a.symbol == b.symbol && a.stream == b.stream
    && a.gapId.Some? && a.gapId == b.gapId
  }

  /** The evidence repeats the event's identity, and its end of the discontinuity is well formed. */
  predicate Sound(e: Event) {
    && e.body.Some?
    && e.body.value.market == Some(e.market) && e.market != ""
    && e.body.value.symbol == Some(e.symbol) && e.symbol != ""
    && e.body.value.stream == Some(e.stream) && e.stream != ""
    && e.body.value.gapId == e.gapId && e.gapId.Some? && e.gapId.value != ""
    && var end := if e.kind.DiscontinuityStarted? then e.body.value.original else e.body.value.renewed;
    && end.instant.Some? && end.generation.Some? && end.generation.value >= 0
    && end.connection.Some? && end.connection.value != ""
  }

  /** Evidence is sound exactly when it is the row's own identity, with nothing empty, around a whole end. */
  lemma SoundMeans(e: Event)
    ensures Sound(e) <==> exists end, other, text :: WholeEnd(end) && IsEvidence(e, end, other, text)
  {
    if Sound(e) {
      var b := e.body.value;
      var started := e.kind == DiscontinuityStarted;
      var end, other := if started then b.original else b.renewed, if started then b.renewed else b.original;
      assert IsEvidence(e, end, other, b.text);
    }
  }

  predicate WholeEnd(end: Authority) {
    match end
    case Authority(Some(_), Some(generation), Some(connection)) => generation >= 0 && connection != ""
    case _ => false
  }

  predicate IsEvidence(e: Event, end: Authority, other: Authority, text: string) {
    && e.gapId.Some? && "" !in [e.market, e.symbol, e.stream, e.gapId.value]
    && e.body == Some(
                   if e.kind == DiscontinuityStarted
                   then Body(Some(e.market), Some(e.symbol), Some(e.stream), e.gapId, end, other, text)
                   else Body(Some(e.market), Some(e.symbol), Some(e.stream), e.gapId, other, end, text))
  }

  /** The lookup's starts are those that the completion closes, and its completions those that close the same start. */
  lemma LookupMeans(source: Ledger, completed: Event)
    requires completed.kind == DiscontinuityCompleted
    ensures forall s :: s in PairStarts(source, completed) <==>
              s in source.events && source.events[s].kind == DiscontinuityStarted
              && Completes(completed, source.events[s])
    ensures forall d :: d in PairCompletions(source, completed) <==>
              d in source.events && exists start :: Completes(completed, start) && Completes(source.events[d], start)
    ensures StartsOf(source, completed) == set s | s in PairStarts(source, completed) && s in source.position
  {
    forall d | d in source.events
      ensures Twins(source.events[d], completed) <==>
              exists start :: Completes(completed, start) && Completes(source.events[d], start)
    {
      if Twins(source.events[d], completed) {
        assert Completes(completed, completed) && Completes(source.events[d], completed);
      }
    }
  }

  /** Both ends carry a cursor position and sound evidence, and the completion does not precede its start. */
  predicate SoundPair(source: Ledger, starts: set<string>, completions: set<string>) {
    && (forall e :: e in starts + completions ==>
          e in source.events && e in source.position && source.position[e] > 0 && Sound(source.events[e]))
    && (forall s, d :: s in starts && d in completions ==>
          source.events[s].occurredAtUtcNs <= source.events[d].occurredAtUtcNs)
  }

  /** Exactly one start and one completion of the source match, and they make a sound pair. */
  predicate Paired(source: Ledger, completed: Event) {
    var starts, completions := PairStarts(source, completed), PairCompletions(source, completed);
    |starts| == 1 && |completions| == 1 && SoundPair(source, starts, completions)
  }

  /** A pair is one start and one completion, placed and sound, of which the completion does not come first. */
  lemma PairedMeans(source: Ledger, completed: Event)
    ensures Paired(source, completed) <==>
            exists s, d ::
              && PairStarts(source, completed) == {s} && PairCompletions(source, completed) == {d}
              && IsPlaced(source, s) && IsPlaced(source, d)
              && source.events[s].occurredAtUtcNs <= source.events[d].occurredAtUtcNs
  {
    var starts, completions := PairStarts(source, completed), PairCompletions(source, completed);
    hide PairStarts, PairCompletions, Sound;
    if Paired(source, completed) {
      var s := OnlyOne(starts);
      var d := OnlyOne(completions);
      assert s in starts + completions && d in starts + completions;
    }
  }

  lemma OnlyOne(ids: set<string>) returns (id: string)
    requires |ids| == 1
    ensures ids == {id}
  {
    id :| id in ids;
    assert |ids - {id}| == 0;
    assert ids - {id} == {};
  }

  /** The event has a positive ledger position and sound evidence. */
  predicate IsPlaced(source: Ledger, id: string) {
    && id in source.events && Sound(source.events[id])
    && id in source.position && source.position[id] >= 1
  }

  /** Every event has a ledger position and every position an event. */
  predicate OneToOne(l: Ledger) {
    l.events.Keys == l.position.Keys
  }

  /** A needed start is either there unchanged, or can go back to its own place at or below the boundary. */
  ghost predicate StartFits(l: Ledger, source: Ledger, boundary: int, s: string)
    requires s in source.events && s in source.position
  {
    if s in l.position then SameRow(l, source, s)
    else
      && source.position[s] <= boundary
      && s !in l.events
      && (forall e :: e in l.position ==> l.position[e] != source.position[s])
  }

  /** Each completion past the boundary has one sound pair in the source. */
  ghost predicate AllPaired(l: Ledger, source: Ledger, boundary: int) {
    forall c :: c in Completions(l, boundary) ==> Paired(source, l.events[c])
  }

  ghost predicate Repairable(l: Ledger, source: Ledger, boundary: int, high: int) {
    && OneToOne(l)
    && AllSame(l, source, boundary)
    && AllPaired(l, source, boundary)
    && (forall s :: s in Needed(l, source, boundary) ==> StartFits(l, source, boundary, s))
    && (forall s :: s in MissingStarts(l, source, boundary) ==> source.position[s] <= high)
  }

  function Repaired(l: Ledger, source: Ledger, boundary: int): Ledger {
    Plus(l, source, MissingStarts(l, source, boundary))
  }

  // ---------------------------------------------------------------- the repair

  /** The ids in ascending order of their position, as ORDER BY returns them. */
  method Ordered(ids: set<string>, position: map<string, int>) returns (r: seq<string>)
    requires ids <= position.Keys
    ensures forall id :: id in r <==> id in ids
    ensures forall i, j :: 0 <= i < j < |r| ==> r[i] != r[j] && position[r[i]] <= position[r[j]]
  {
    r := [];
    var rest := ids;
    while rest != {}
      invariant rest <= ids
      invariant forall id :: id in r <==> id in ids - rest
      invariant forall i :: 0 <= i < |r| ==> r[i] in ids
      invariant forall i, j :: 0 <= i < j < |r| ==> r[i] != r[j] && position[r[i]] <= position[r[j]]
      invariant forall i, id :: 0 <= i < |r| && id in rest ==> position[r[i]] <= position[id]
      decreases rest
    {
      var first := Least(rest, position);
      assert forall i :: 0 <= i < |r| ==> r[i] in r && r[i] != first;
      r := r + [first];
      rest := rest - {first};
    }
  }

  method Least(ids: set<string>, position: map<string, int>) returns (first: string)
    requires ids != {} && ids <= position.Keys
    ensures first in ids && forall id :: id in ids ==> position[first] <= position[id]
  {
    first :| first in ids;
    var rest := ids - {first};
    while rest != {}
      invariant rest <= ids && first in ids
      invariant forall id :: id in ids - rest ==> position[first] <= position[id]
      decreases rest
    {
      var id :| id in rest;
      rest := rest - {id};
      if position[id] < position[first] {
        first := id;
      }
    }
  }

  /** The pair lookup and the companion check, in the order in which they raise. */
  method CheckPair(source: Ledger, id: string, completed: Event) returns (fault: Option<RepairError>)
    ensures fault.None? <==> Paired(source, completed)
    ensures fault == Some(AmbiguousPair(id)) <==>
            |PairStarts(source, completed)| > 1 || |PairCompletions(source, completed)| > 1
    ensures completed.gapId.None? ==> fault == Some(IncompletePair(id))
  {
    var starts, completions := PairStarts(source, completed), PairCompletions(source, completed);
    if |starts| > 1 || |completions| > 1 {
      return Some(AmbiguousPair(id));
    }
    if |starts| == 0 || |completions| == 0 {
      return Some(IncompletePair(id));
    }
    if !SoundPair(source, starts, completions) {
      return Some(UnsoundPair(id));
    }
    fault := None;
  }

  /** Leaves a start that is there, or inserts the source's row for it, position and all. */
  method Restore(ghost l: Ledger, source: Ledger, boundary: int, ghost high: int, ghost handled: set<string>,
                 added: seq<string>, work: Ledger, counter: int, s: string)
    returns (fault: Option<RepairError>, addedNow: seq<string>, workNow: Ledger, counterNow: int)
    requires LedgerClosed(l) && DistinctPositions(source)
    requires s in Needed(l, source, boundary) && s in source.events && s in source.position
    requires Progress(l, source, boundary, high, handled, added, work, counter)
    ensures fault.Some? ==> !Repairable(l, source, boundary, high)
    ensures fault.None? ==> Progress(l, source, boundary, high, handled + {s}, addedNow, workNow, counterNow)
  {
    PresentDecides(l, source, boundary, high, handled, added, work, counter, s);
    AbsentDecides(l, source, boundary, high, handled, added, work, counter, s);
    hide *;
    fault, addedNow, workNow, counterNow := None, added, work, counter;
    if s in work.position {
      if work.events[s] != source.events[s] || work.position[s] != source.position[s] {
        fault := Some(RetainedStartDiffers(s));
      }
      return;
    }
    if source.position[s] > boundary {
      fault := Some(MissingPostBoundaryStart(s));
      return;
    }
    if s in work.events || exists e | e in work.position :: work.position[e] == source.position[s] {
      fault := Some(KeyConflict(s));
      return;
    }
    addedNow := added + [s];
    counterNow := if source.position[s] > counter then source.position[s] else counter;
    workNow := Ledger(work.events[s := source.events[s]], work.position[s := source.position[s]]);
  }

  /** The statements between BEGIN and COMMIT, on a working copy. */
  method Transaction(l: Ledger, source: Ledger, boundary: int, high: int)
    returns (fault: Option<RepairError>, added: seq<string>, work: Ledger)
    requires LedgerClosed(source) && DistinctPositions(source)
    ensures fault.None? <==> Repairable(l, source, boundary, high)
    ensures fault.None? ==>
              && work == Repaired(l, source, boundary)
              && (forall s :: s in added <==> s in MissingStarts(l, source, boundary))
              && (forall i, j :: 0 <= i < j < |added| ==> added[i] != added[j])
  {
    hide *;
    fault, added, work := None, [], l;
    OneToOneDecides(l, source, boundary, high);
    if l.events.Keys != l.position.Keys {
      fault := Some(SequenceNotOneToOne);
      return;
    }
    var counter := high;
    var completed := Ordered(Completions(l, boundary), l.position);
    ghost var handled: set<string> := {};
    NothingHandled(l, source, boundary, high, completed);
    var k := 0;
    while k < |completed|
      invariant 0 <= k <= |completed| && fault.None?
      invariant handled == StartsBefore(l, source, completed, k)
      invariant forall i :: 0 <= i < k ==> SameRow(l, source, completed[i]) && Paired(source, l.events[completed[i]])
      invariant Progress(l, source, boundary, high, handled, added, work, counter)
    {
      assert completed[k] in completed;
      fault, added, work, counter :=
        HandleOne(l, source, boundary, high, handled, added, work, counter, completed[k]);
      if fault.Some? {
        return;
      }
      handled := handled + StartsOf(source, l.events[completed[k]]);
      BeforeGrows(l, source, completed, k);
      k := k + 1;
    }
    AllHandled(l, source, boundary, completed);
    HighWaterDecides(l, source, boundary, high, handled, added, work, counter);
    if counter != high {
      fault := Some(HighWaterChanged);
    }
  }

  /** One completion: its row, its pair, and then its starts, one by one. */
  method HandleOne(ghost l: Ledger, source: Ledger, boundary: int, ghost high: int, ghost handled: set<string>,
                   added: seq<string>, work: Ledger, counter: int, c: string)
    returns (fault: Option<RepairError>, addedNow: seq<string>, workNow: Ledger, counterNow: int)
    requires LedgerClosed(l) && DistinctPositions(source) && c in Completions(l, boundary)
    requires Progress(l, source, boundary, high, handled, added, work, counter)
    ensures fault.Some? ==> !Repairable(l, source, boundary, high)
    ensures fault.None? ==>
              && SameRow(l, source, c) && Paired(source, l.events[c])
              && Progress(l, source, boundary, high, handled + StartsOf(source, l.events[c]),
                          addedNow, workNow, counterNow)
  {
    hide SameRow, Repairable, Paired, Progress, DistinctPositions, Completions, Needed, StartsOf;
    fault, addedNow, workNow, counterNow := None, added, work, counter;
    CompletionAgrees(l, source, boundary, high, c, handled, added, work, counter);
    if !(c in source.events && c in source.position
         && source.events[c] == work.events[c] && source.position[c] == work.position[c]) {
      CompletionRejects(l, source, boundary, high, c, handled, added, work, counter);
      fault := Some(CompletionDiffers(c));
      return;
    }
    fault := CheckPair(source, c, source.events[c]);
    PairDecides(l, source, boundary, high, c);
    if fault.Some? {
      return;
    }
    StartsHavePlaces(source, source.events[c]);
    var starts := Ordered(StartsOf(source, source.events[c]), source.position);
    var j := 0;
    ghost var done: set<string> := {};
    assert handled + {} == handled;
    while j < |starts|
      invariant 0 <= j <= |starts| && fault.None?
      invariant forall s :: s in done <==> s in starts[..j]
      invariant Progress(l, source, boundary, high, handled + done, addedNow, workNow, counterNow)
    {
      var s := starts[j];
      assert s in starts;
      NeededFrom(l, source, boundary, c, s);
      fault, addedNow, workNow, counterNow :=
        Restore(l, source, boundary, high, handled + done, addedNow, workNow, counterNow, s);
      if fault.Some? {
        return;
      }
      assert handled + done + {s} == handled + (done + {s});
      assert starts[..j + 1] == starts[..j] + [s];
      done := done + {s};
      j := j + 1;
    }
    assert starts[..j] == starts;
    assert done == StartsOf(source, l.events[c]);
  }

  lemma StartsHavePlaces(source: Ledger, completed: Event)
    ensures forall s :: s in StartsOf(source, completed) ==> s in source.events && s in source.position
  {
  }

  class SelectedCopy {
    var ledger: Ledger
    var highWater: int  // AUTOINCREMENT counter of the position table

    constructor (ledger: Ledger, highWater: int)
      ensures this.ledger == ledger && this.highWater == highWater
    {
      this.ledger, this.highWater := ledger, highWater;
    }

    /** One transaction: commits exactly the missing starts, or rolls back. */
    method RepairDiscontinuityContext(source: Ledger, boundary: int) returns (r: Result<seq<string>, RepairError>)
      requires LedgerClosed(source) && DistinctPositions(source)
      modifies this
      ensures r.Success? <==> Repairable(old(ledger), source, boundary, old(highWater))
      ensures highWater == old(highWater)
      ensures r.Failure? ==> ledger == old(ledger)
      ensures r.Success? ==>
                && ledger == Repaired(old(ledger), source, boundary)
                && (forall s :: s in r.value <==> s in MissingStarts(old(ledger), source, boundary))
                && (forall i, j :: 0 <= i < j < |r.value| ==> r.value[i] != r.value[j])
    {
      hide *;
      var fault, added, work := Transaction(ledger, source, boundary, highWater);
      if fault.Some? {
        return Failure(fault.value);
      }
      ledger := work;
      r := Success(added);
    }
  }

  // ---------------------------------------------------------------- progress of the loops

  /** Starts paired with the first `k` completions. */
  ghost function StartsBefore(l: Ledger, source: Ledger, completed: seq<string>, k: nat): set<string>
    requires k <= |completed| && forall i :: 0 <= i < |completed| ==> completed[i] in l.events
  {
    set i, s | 0 <= i < k && s in StartsOf(source, l.events[completed[i]]) :: s
  }

  ghost predicate Progress(l: Ledger, source: Ledger, boundary: int, high: int, handled: set<string>,
                           added: seq<string>, work: Ledger, counter: int)
  {
    && handled <= Needed(l, source, boundary)
    && (forall s :: s in handled ==> s in source.events && s in source.position && StartFits(l, source, boundary, s))
    && (forall s :: s in added <==> s in handled && s !in l.position)
    && (forall i, j :: 0 <= i < j < |added| ==> added[i] != added[j])
    && work == Plus(l, source, set s | s in added)
    && counter >= high
    && (counter == high <==> forall s :: s in added ==> s in source.position && source.position[s] <= high)
  }

  lemma NothingHandled(l: Ledger, source: Ledger, boundary: int, high: int, completed: seq<string>)
    requires forall i :: 0 <= i < |completed| ==> completed[i] in l.events
    ensures StartsBefore(l, source, completed, 0) == {}
    ensures Progress(l, source, boundary, high, {}, [], l, high)
  {
    assert Plus(l, source, {}) == l;
    assert (set s: string | s in []) == {};
  }

  lemma CompletionRejects(l: Ledger, source: Ledger, boundary: int, high: int, c: string, handled: set<string>,
                          added: seq<string>, work: Ledger, counter: int)
    requires LedgerClosed(l) && c in Completions(l, boundary)
    requires Progress(l, source, boundary, high, handled, added, work, counter)
    requires !(c in source.events && c in source.position &&
               c in work.events && c in work.position &&
               source.events[c] == work.events[c] && source.position[c] == work.position[c])
    ensures !Repairable(l, source, boundary, high)
  {
    assert c in l.position && c !in added;
    assert work.events[c] == l.events[c] && work.position[c] == l.position[c];
    assert !SameRow(l, source, c);
  }

  lemma CompletionAgrees(l: Ledger, source: Ledger, boundary: int, high: int, c: string, handled: set<string>,
                         added: seq<string>, work: Ledger, counter: int)
    requires LedgerClosed(l) && c in Completions(l, boundary)
    requires Progress(l, source, boundary, high, handled, added, work, counter)
    ensures c in work.events && c in work.position
    ensures c in source.events && c in source.position &&
            source.events[c] == work.events[c] && source.position[c] == work.position[c] ==>
              SameRow(l, source, c)
  {
    assert c in l.position && c !in added;
  }

  lemma PairDecides(l: Ledger, source: Ledger, boundary: int, high: int, c: string)
    requires c in Completions(l, boundary) && SameRow(l, source, c)
    ensures l.events[c] == source.events[c]
    ensures !Paired(source, l.events[c]) ==> !Repairable(l, source, boundary, high)
  {
  }

  lemma NeededFrom(l: Ledger, source: Ledger, boundary: int, c: string, s: string)
    requires c in Completions(l, boundary) && s in StartsOf(source, l.events[c])
    ensures s in Needed(l, source, boundary)
  {
  }

  /** A start already on the working copy fits the catalog exactly when its row is the source's. */
  lemma PresentDecides(l: Ledger, source: Ledger, boundary: int, high: int, handled: set<string>, added: seq<string>,
                       work: Ledger, counter: int, s: string)
    requires LedgerClosed(l) && s in Needed(l, source, boundary) && s in source.events && s in source.position
    requires Progress(l, source, boundary, high, handled, added, work, counter)
    ensures s in work.position ==>
              && s in work.events
              && (work.events[s] == source.events[s] && work.position[s] == source.position[s] ==>
                    Progress(l, source, boundary, high, handled + {s}, added, work, counter))
              && (work.events[s] != source.events[s] || work.position[s] != source.position[s] ==>
                    !Repairable(l, source, boundary, high))
  {
    hide Needed, Plus, DistinctPositions, After, Matches;
    var ids := set x | x in added;
    PlusRows(l, source, ids, s);
    if s in work.position {
      if s in l.position {
        assert s !in added;
      } else {
        assert s in added && StartFits(l, source, boundary, s);
      }
    }
  }

  /** Rows of the catalog after source rows have been added to it. */
  lemma PlusRows(l: Ledger, source: Ledger, ids: set<string>, e: string)
    ensures e in Plus(l, source, ids).position <==> e in l.position || (e in ids && e in source.position)
    ensures e in ids && e in source.position ==> Plus(l, source, ids).position[e] == source.position[e]
    ensures e in l.position && (e !in ids || e !in source.position) ==>
              Plus(l, source, ids).position[e] == l.position[e]
    ensures e in Plus(l, source, ids).events <==> e in l.events || (e in ids && e in source.events)
    ensures e in ids && e in source.events ==> Plus(l, source, ids).events[e] == source.events[e]
    ensures e in l.events && (e !in ids || e !in source.events) ==> Plus(l, source, ids).events[e] == l.events[e]
  {
  }

  /** What keeps an absent start out of the working copy keeps it out of the catalog itself. */
  lemma BlockedMeansUnfit(l: Ledger, source: Ledger, boundary: int, added: set<string>, s: string)
    requires DistinctPositions(source) && s in source.events && s in source.position
    requires added <= source.position.Keys && added <= source.events.Keys && added !! l.position.Keys
    requires forall d :: d in added ==> d !in l.events
    requires s !in Plus(l, source, added).position
    ensures
      var work := Plus(l, source, added);
      var blocked := source.position[s] > boundary || s in work.events ||
                     exists e :: e in work.position && work.position[e] == source.position[s];
      blocked <==> !StartFits(l, source, boundary, s)
  {
    hide Plus;
    var work := Plus(l, source, added);
    PlusRows(l, source, added, s);
    if e :| e in work.position && work.position[e] == source.position[s] {
      PlusRows(l, source, added, e);
      assert e !in added;
    }
    forall e | e in l.position ensures e in work.position && work.position[e] == l.position[e] {
      PlusRows(l, source, added, e);
    }
  }

  /** A start missing from the working copy goes back exactly when nothing stands in its way. */
  lemma AbsentDecides(l: Ledger, source: Ledger, boundary: int, high: int, handled: set<string>, added: seq<string>,
                      work: Ledger, counter: int, s: string)
    requires LedgerClosed(l) && DistinctPositions(source)
    requires s in Needed(l, source, boundary) && s in source.events && s in source.position
    requires Progress(l, source, boundary, high, handled, added, work, counter)
    ensures s !in work.position ==>
              var blocked := source.position[s] > boundary || s in work.events ||
                             exists e :: e in work.position && work.position[e] == source.position[s];
              && (blocked ==> !Repairable(l, source, boundary, high))
              && (!blocked ==>
                    Progress(l, source, boundary, high, handled + {s}, added + [s],
                             Ledger(work.events[s := source.events[s]], work.position[s := source.position[s]]),
                             if source.position[s] > counter then source.position[s] else counter))
  {
    hide Needed, Plus;
    var ids := set x | x in added;
    if s !in work.position {
      PlusRows(l, source, ids, s);
      assert s !in l.position && s !in added;
      forall d | d in ids ensures d !in l.events {
        assert d in added && StartFits(l, source, boundary, d);
      }
      assert ids !! l.position.Keys;
      BlockedMeansUnfit(l, source, boundary, ids, s);
      AddedGrows(l, source, ids, s);
      assert (set x | x in added + [s]) == ids + {s};
      hide StartFits;
    }
  }

  lemma AddedGrows(l: Ledger, source: Ledger, ids: set<string>, s: string)
    requires s in source.events && s in source.position
    ensures
      var work := Plus(l, source, ids);
      Plus(l, source, ids + {s}) ==
      Ledger(work.events[s := source.events[s]], work.position[s := source.position[s]])
  {
    hide Plus;
    var work, more := Plus(l, source, ids), Plus(l, source, ids + {s});
    forall e
      ensures e in more.position <==> e in work.position || e == s
      ensures e in more.events <==> e in work.events || e == s
      ensures e in work.position && e != s ==> more.position[e] == work.position[e]
      ensures e in work.events && e != s ==> more.events[e] == work.events[e]
    {
      PlusRows(l, source, ids, e);
      PlusRows(l, source, ids + {s}, e);
    }
    PlusRows(l, source, ids + {s}, s);
    assert more.position == work.position[s := source.position[s]];
    assert more.events == work.events[s := source.events[s]];
  }

  lemma BeforeGrows(l: Ledger, source: Ledger, completed: seq<string>, k: nat)
    requires k < |completed| && forall i :: 0 <= i < |completed| ==> completed[i] in l.events
    ensures StartsBefore(l, source, completed, k + 1) ==
            StartsBefore(l, source, completed, k) + StartsOf(source, l.events[completed[k]])
  {
    hide StartsOf;
    var before, after := StartsBefore(l, source, completed, k), StartsBefore(l, source, completed, k + 1);
    forall s ensures s in after <==> s in before || s in StartsOf(source, l.events[completed[k]]) {
      if s in after {
        var i :| 0 <= i < k + 1 && s in StartsOf(source, l.events[completed[i]]);
      }
    }
  }

  lemma AllHandled(l: Ledger, source: Ledger, boundary: int, completed: seq<string>)
    requires forall c :: c in completed <==> c in Completions(l, boundary)
    requires forall i :: 0 <= i < |completed| ==> completed[i] in l.events
    requires forall i :: 0 <= i < |completed| ==>
               SameRow(l, source, completed[i]) && Paired(source, l.events[completed[i]])
    ensures StartsBefore(l, source, completed, |completed|) == Needed(l, source, boundary)
    ensures AllSame(l, source, boundary) && AllPaired(l, source, boundary)
  {
    hide StartsOf, SameRow, Paired;
    forall c | c in Completions(l, boundary) ensures SameRow(l, source, c) && Paired(source, l.events[c]) {
      var i :| 0 <= i < |completed| && completed[i] == c;
    }
  }

  ghost predicate AllSame(l: Ledger, source: Ledger, boundary: int) {
    forall c :: c in Completions(l, boundary) ==> SameRow(l, source, c)
  }

  lemma OneToOneDecides(l: Ledger, source: Ledger, boundary: int, high: int)
    ensures l.events.Keys == l.position.Keys ==> OneToOne(l) && LedgerClosed(l)
    ensures l.events.Keys != l.position.Keys ==> !Repairable(l, source, boundary, high)
    ensures l.events.Keys == l.position.Keys ==> Completions(l, boundary) <= l.position.Keys
    ensures forall c :: c in Completions(l, boundary) ==> c in l.events
  {
  }

  lemma HighWaterDecides(l: Ledger, source: Ledger, boundary: int, high: int, handled: set<string>,
                         added: seq<string>, work: Ledger, counter: int)
    requires Progress(l, source, boundary, high, handled, added, work, counter)
    requires handled == Needed(l, source, boundary)
    requires OneToOne(l) && AllSame(l, source, boundary) && AllPaired(l, source, boundary)
    ensures Repairable(l, source, boundary, high) <==> counter == high
    ensures work == Repaired(l, source, boundary)
    ensures forall s :: s in added <==> s in MissingStarts(l, source, boundary)
    ensures forall i, j :: 0 <= i < j < |added| ==> added[i] != added[j]
  {
    assert (set s | s in added) == MissingStarts(l, source, boundary);
  }

  // ---------------------------------------------------------------- main results

  /** A second repair finds nothing to add. */
  lemma RepairIsIdempotent(l: Ledger, source: Ledger, boundary: int, high: int)
    requires LedgerClosed(source) && DistinctPositions(source)
    requires Repairable(l, source, boundary, high)
    ensures
      var r := Repaired(l, source, boundary);
      && LedgerClosed(r)
      && Repairable(r, source, boundary, high)
      && MissingStarts(r, source, boundary) == {}
      && Repaired(r, source, boundary) == r
  {
    hide Plus, DistinctPositions;
    var r := Repaired(l, source, boundary);
    SameNeeds(l, source, boundary, high);
    forall s | s in Needed(l, source, boundary) ensures SameRow(r, source, s) {
      assert StartFits(l, source, boundary, s);
      PlusRows(l, source, MissingStarts(l, source, boundary), s);
    }
    assert MissingStarts(r, source, boundary) == {};
    NothingAdded(r, source);
    forall e ensures e in r.position <==> e in r.events {
      PlusRows(l, source, MissingStarts(l, source, boundary), e);
    }
    assert OneToOne(r);
  }

  lemma NothingAdded(l: Ledger, source: Ledger)
    ensures Plus(l, source, {}) == l
  {
  }

  /** Adding starts changes neither the completions nor what they need. */
  lemma SameNeeds(l: Ledger, source: Ledger, boundary: int, high: int)
    requires Repairable(l, source, boundary, high)
    ensures
      var r := Repaired(l, source, boundary);
      && Completions(r, boundary) == Completions(l, boundary)
      && Needed(r, source, boundary) == Needed(l, source, boundary)
      && (forall c :: c in Completions(r, boundary) ==> SameRow(r, source, c) && r.events[c] == l.events[c])
  {
    hide Plus, StartFits;
    var missing := MissingStarts(l, source, boundary);
    var r := Repaired(l, source, boundary);
    forall c
      ensures c in Completions(r, boundary) <==> c in Completions(l, boundary)
      ensures c in Completions(l, boundary) ==> SameRow(r, source, c) && r.events[c] == l.events[c]
    {
      PlusRows(l, source, missing, c);
      if c in missing {
        assert source.events[c].kind.DiscontinuityStarted? && r.events[c] == source.events[c];
      }
      if c in Completions(l, boundary) {
        assert SameRow(l, source, c);
      }
    }
    forall s ensures s in Needed(r, source, boundary) <==> s in Needed(l, source, boundary) {
      if s in Needed(l, source, boundary) {
        var c :| c in Completions(l, boundary) && s in StartsOf(source, l.events[c]);
        assert c in Completions(r, boundary) && s in StartsOf(source, r.events[c]);
      }
      if s in Needed(r, source, boundary) {
        var c :| c in Completions(r, boundary) && s in StartsOf(source, r.events[c]);
        assert c in Completions(l, boundary) && s in StartsOf(source, l.events[c]);
      }
    }
  }

  /** Each completion that the source holds past the boundary has one sound pair there. */
  ghost predicate SourcePaired(source: Ledger, boundary: int) {
    AllPaired(source, source, boundary)
  }

  /** A selection keeps every completion past the boundary, and no other. */
  lemma SelectionKeepsCompletions(source: Ledger, boundary: int, lost: set<string>)
    requires LedgerClosed(source)
    requires forall s :: s in lost ==> s in source.position && source.position[s] <= boundary
    ensures
      var l := Without(SelectEvents(source, boundary), lost);
      && Completions(l, boundary) == Completions(source, boundary)
      && (forall c :: c in Completions(l, boundary) ==> SameRow(l, source, c))
      && (AllPaired(l, source, boundary) <==> SourcePaired(source, boundary))
  {
    hide Paired, Closes;
    var l := Without(SelectEvents(source, boundary), lost);
    assert forall c :: c in Completions(source, boundary) ==> c in Completions(l, boundary) && SameRow(l, source, c);
    assert forall c :: c in Completions(l, boundary) ==> c in Completions(source, boundary);
  }

  /**
   * A selection made from the same source is already complete: there is nothing to add. The repair accepts it
   * exactly when each completion past the boundary is soundly paired, once, in the source.
   */
  lemma SelectionNeedsNoRepair(source: Ledger, boundary: int, high: int)
    requires LedgerClosed(source)
    ensures
      var l := SelectEvents(source, boundary);
      && (Repairable(l, source, boundary, high) <==> SourcePaired(source, boundary))
      && MissingStarts(l, source, boundary) == {}
      && Repaired(l, source, boundary) == l
  {
    hide *;
    var l := SelectEvents(source, boundary);
    WithoutNothing(l);
    SelectionKeepsCompletions(source, boundary, {});
    NeededIsKept(source, boundary);
    SelectionIsOneToOne(source, boundary, {});
    NothingMissing(l, source, boundary);
    RepairableIff(l, source, boundary, high);
  }

  /** A source whose only event completes a discontinuity without naming its gap. */
  function Unpaired(): Ledger {
    Ledger(map["c" := Event("spot", "BTCUSDT", "diff_depth", None, DiscontinuityCompleted, 0, None)], map["c" := 2])
  }

  /** The condition is real: the selection keeps such a completion, and the repair refuses what was selected. */
  lemma SelectionMayBeRefused()
    ensures SelectEvents(Unpaired(), 1) == Unpaired()
    ensures !Repairable(SelectEvents(Unpaired(), 1), Unpaired(), 1, 2)
  {
    var source := Unpaired();
    SelectionNeedsNoRepair(source, 1, 2);
    assert "c" in Completions(source, 1);
    assert PairStarts(source, source.events["c"]) == {};
    assert "c" in Retained(source, 1);
    hide Repairable, Closes;
    assert SelectEvents(source, 1).events == source.events && SelectEvents(source, 1).position == source.position;
  }

  lemma WithoutNothing(l: Ledger)
    ensures Without(l, {}) == l
  {
  }

  lemma SelectionIsOneToOne(source: Ledger, boundary: int, lost: set<string>)
    requires LedgerClosed(source)
    ensures OneToOne(Without(SelectEvents(source, boundary), lost))
  {
    hide Retained;
  }

  lemma NothingMissing(l: Ledger, source: Ledger, boundary: int)
    requires forall s :: s in Needed(l, source, boundary) ==> SameRow(l, source, s)
    ensures MissingStarts(l, source, boundary) == {} && Repaired(l, source, boundary) == l
    ensures AllFit(l, source, boundary)
  {
    hide Needed;
    assert MissingStarts(l, source, boundary) == {};
    NothingAdded(l, source);
  }

  ghost predicate AllFit(l: Ledger, source: Ledger, boundary: int) {
    forall s :: s in Needed(l, source, boundary) ==>
      s in source.events && s in source.position && StartFits(l, source, boundary, s)
  }

  /** Where rows agree and starts fit below the boundary, the pairing alone decides. */
  lemma RepairableIff(l: Ledger, source: Ledger, boundary: int, high: int)
    requires OneToOne(l) && AllFit(l, source, boundary)
    requires forall c :: c in Completions(l, boundary) ==> SameRow(l, source, c)
    requires MissingStarts(l, source, boundary) == {} || boundary <= high
    ensures Repairable(l, source, boundary, high) <==> AllPaired(l, source, boundary)
  {
    hide Needed, Completions, AllPaired, SameRow;
  }

  lemma NeededIsKept(source: Ledger, boundary: int)
    requires LedgerClosed(source)
    ensures
      var l := SelectEvents(source, boundary);
      forall s :: s in Needed(l, source, boundary) ==> SameRow(l, source, s)
  {
    LossIsNeeded(source, boundary, {});
    assert Without(SelectEvents(source, boundary), {}) == SelectEvents(source, boundary);
  }

  /** The selection as a legacy selector left it: some starts from before the boundary are gone from both tables. */
  function Without(l: Ledger, lost: set<string>): Ledger {
    Ledger(l.events - lost, l.position - lost)
  }

  /**
   * Repair undoes that loss exactly: whatever starts were dropped, the full selection comes back. It does so
   * exactly when each completion past the boundary is soundly paired, once, in the source.
   */
  lemma RepairRestoresSelection(source: Ledger, boundary: int, high: int, lost: set<string>)
    requires LedgerClosed(source) && DistinctPositions(source)
    requires
      var full := SelectEvents(source, boundary);
      forall s :: s in lost ==> s in full.position && full.position[s] <= boundary
    requires high >= boundary
    ensures
      var full := SelectEvents(source, boundary);
      && (Repairable(Without(full, lost), source, boundary, high) <==> SourcePaired(source, boundary))
      && MissingStarts(Without(full, lost), source, boundary) == lost
      && Repaired(Without(full, lost), source, boundary) == full
  {
    hide *;
    var full := SelectEvents(source, boundary);
    var l := Without(full, lost);
    LostWasEarly(source, boundary, lost);
    SelectionKeepsCompletions(source, boundary, lost);
    LossIsNeeded(source, boundary, lost);
    LossGoesBack(source, boundary, lost);
    SelectionIsOneToOne(source, boundary, lost);
    LossIsMissing(full, source, boundary, lost);
    RepairableIff(l, source, boundary, high);
  }

  lemma LostWasEarly(source: Ledger, boundary: int, lost: set<string>)
    requires
      var full := SelectEvents(source, boundary);
      forall s :: s in lost ==> s in full.position && full.position[s] <= boundary
    ensures forall s :: s in lost ==> s in source.position && source.position[s] <= boundary
    ensures lost <= SelectEvents(source, boundary).position.Keys
  {
    hide Retained;
  }

  lemma LossIsMissing(full: Ledger, source: Ledger, boundary: int, lost: set<string>)
    requires DistinctPositions(source)
    requires forall s :: s in lost ==> s in source.position && source.position[s] <= boundary
    requires lost <= Needed(Without(full, lost), source, boundary)
    requires forall s :: s in Needed(Without(full, lost), source, boundary) ==> SameRow(full, source, s)
    requires forall e :: e in full.position ==> e in source.position && full.position[e] == source.position[e]
    requires Plus(Without(full, lost), source, lost) == full
    ensures MissingStarts(Without(full, lost), source, boundary) == lost
    ensures Repaired(Without(full, lost), source, boundary) == full
    ensures AllFit(Without(full, lost), source, boundary)
  {
    hide Needed, Plus;
    var l := Without(full, lost);
    assert MissingStarts(l, source, boundary) == lost;
    forall s | s in Needed(l, source, boundary)
      ensures s in source.events && s in source.position && StartFits(l, source, boundary, s)
    {
      assert SameRow(full, source, s);
    }
  }

  lemma LossIsNeeded(source: Ledger, boundary: int, lost: set<string>)
    requires LedgerClosed(source)
    requires
      var full := SelectEvents(source, boundary);
      forall s :: s in lost ==> s in full.position && full.position[s] <= boundary
    ensures
      var full := SelectEvents(source, boundary);
      && lost <= Needed(Without(full, lost), source, boundary)
      && (forall s :: s in Needed(Without(full, lost), source, boundary) ==> SameRow(full, source, s))
  {
    var full := SelectEvents(source, boundary);
    var l := Without(full, lost);
    forall s | s in lost ensures s in Needed(l, source, boundary) {
      assert Closes(source, s, boundary);
      var c :| c in source.events && After(source, c, boundary) && Matches(source.events[s], source.events[c]);
      assert c in full.events && c !in lost && c in Completions(l, boundary);
      assert s in StartsOf(source, l.events[c]);
    }
    forall s | s in Needed(l, source, boundary) ensures SameRow(full, source, s) {
      var c :| c in Completions(l, boundary) && s in StartsOf(source, l.events[c]);
      assert After(source, c, boundary) && Closes(source, s, boundary);
    }
  }

  lemma LossGoesBack(source: Ledger, boundary: int, lost: set<string>)
    requires LedgerClosed(source)
    requires lost <= SelectEvents(source, boundary).position.Keys
    ensures
      var full := SelectEvents(source, boundary);
      && Plus(Without(full, lost), source, lost) == full
      && (forall e :: e in full.position ==> e in source.position && full.position[e] == source.position[e])
  {
    hide Retained;
    var full := SelectEvents(source, boundary);
    var back := Plus(Without(full, lost), source, lost);
    assert back.events == full.events;
    assert back.position == full.position;
  }
}
