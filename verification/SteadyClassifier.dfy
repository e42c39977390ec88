/** Steady-state classification of a measured window from its boundary snapshots: `classify_steady`. */
module SteadyClassifier {
  import opened Wrappers

  datatype Field =
    | DueNotSent
    | PendingWrite
    | WrittenNotPersisted
    | ReceiptOwnedBytes
    | SpoolOwnedBytes

  const FIELDS: seq<Field> := [DueNotSent, PendingWrite, WrittenNotPersisted, ReceiptOwnedBytes, SpoolOwnedBytes]

  datatype StreamRow = StreamRow(
    fixedWs: bool,
    sentFrames: int,
    totalInputFrames: int,
    lastSentElapsed: real,
    backlog: map<Field, int>)

  type Boundary = map<string, StreamRow>

  datatype Reason =
    | InputNotCompleted(key: string)
    | SustainedGrowth(field: Field, key: string)

  datatype Classification = Classification(steady: bool, reasons: set<Reason>)

  datatype ClassifyError = NoBoundaries

  /** A missing stream or field counts as no backlog. */
  function Backlog(point: Boundary, key: string, field: Field): int {
    if key in point && field in point[key].backlog then point[key].backlog[field] else 0
  }

  /** The boundary holds this value for the field of the stream, or has no word on it and the value is none. */
  predicate Holds(point: Boundary, key: string, field: Field, value: int) {
    (key in point && field in point[key].backlog && value == point[key].backlog[field])
    || ((key !in point || field !in point[key].backlog) && value == 0)
  }

  function Series(boundaries: seq<Boundary>, key: string, field: Field): (values: seq<int>)
    ensures |values| == |boundaries|
    ensures forall i :: 0 <= i < |values| ==> Holds(boundaries[i], key, field, values[i])
  {
    seq(|boundaries|, i requires 0 <= i < |boundaries| => Backlog(boundaries[i], key, field))
  }

  /** Index of the first value above the window start. */
  ghost predicate FirstRise(values: seq<int>, i: nat) {
    && 0 < i < |values| && values[i] > values[0]
    && (forall j :: 0 < j < i ==> values[j] <= values[0])
  }

  /** The series ends above the first value that rose over the window start. */
  ghost predicate Growing(values: seq<int>) {
    exists i: nat :: FirstRise(values, i) && values[|values| - 1] > values[i]
  }

  /** Value `k` is a new high of the window. */
  ghost predicate NewHigh(values: seq<int>, k: nat) {
    0 < k < |values| && forall j :: 0 <= j < k ==> values[j] < values[k]
  }

  ghost predicate InputLate(row: StreamRow, scheduledEnd: real) {
    row.fixedWs && (row.sentFrames != row.totalInputFrames || row.lastSentElapsed > scheduledEnd)
  }

  /** Where the new highs of a series occur, in order. */
  ghost function HighIndices(values: seq<int>): (at: seq<nat>)
    ensures forall i :: 0 <= i < |at| ==> NewHigh(values, at[i])
    ensures forall k: nat :: NewHigh(values, k) ==> k in at
    ensures forall i, j :: 0 <= i < j < |at| ==> at[i] < at[j]
  {
    if |values| <= 1 then []
    else
      var n := |values| - 1;
      HighsGrow(values, n);
      HighIndices(values[..n]) + if NewHigh(values, n) then [n] else []
  }

  lemma HighsGrow(values: seq<int>, n: nat)
    requires n <= |values|
    ensures forall k: nat :: NewHigh(values[..n], k) <==> k < n && NewHigh(values, k)
  {
  }

  /** The largest of the first `k` values. */
  ghost predicate IsPeak(values: seq<int>, k: nat, peak: int)
    requires k <= |values|
  {
    (forall i :: 0 <= i < k ==> values[i] <= peak) && (exists i :: 0 <= i < k && values[i] == peak)
  }

  lemma PeakStarts(values: seq<int>)
    requires values != []
    ensures IsPeak(values, 1, values[0]) && HighIndices(values[..1]) == [] && values[..|values|] == values
  {
  }

  /** A value above the peak so far is a new high, and no other value is. */
  lemma PeakDecides(values: seq<int>, k: nat, peak: int)
    requires 0 < k < |values| && IsPeak(values, k, peak)
    ensures IsPeak(values, k + 1, if values[k] > peak then values[k] else peak)
    ensures HighIndices(values[..k + 1]) == HighIndices(values[..k]) + if values[k] > peak then [k] else []
  {
    var longer := values[..k + 1];
    assert longer[..k] == values[..k];
    assert values[k] > peak <==> NewHigh(longer, k);
    if values[k] > peak {
      assert values[k] == longer[k];
    } else {
      var i :| 0 <= i < k && values[i] == peak;
    }
  }

  /** Collects the record highs of a series by comparing each value with the peak so far. */
  method Highs(values: seq<int>) returns (highs: seq<int>)
    requires values != []
    ensures |highs| == |HighIndices(values)|
    ensures forall i :: 0 <= i < |highs| ==> highs[i] == values[HighIndices(values)[i]]
  {
    hide IsPeak, HighIndices, NewHigh;
    var peak := values[0];
    highs := [];
    PeakStarts(values);
    var k := 1;
    while k < |values|
      invariant 1 <= k <= |values| && IsPeak(values, k, peak)
      invariant |highs| == |HighIndices(values[..k])|
      invariant forall i :: 0 <= i < |highs| ==>
                  HighIndices(values[..k])[i] < k && highs[i] == values[HighIndices(values[..k])[i]]
    {
      PeakDecides(values, k, peak);
      var value := values[k];
      if value > peak {
        highs := highs + [value];
        peak := value;
      }
      k := k + 1;
    }
  }

  method ClassifySteady(boundaries: seq<Boundary>, scheduledEnd: real)
    returns (r: Result<Classification, ClassifyError>)
    ensures r.Failure? <==> boundaries == []
    ensures r.Success? ==>
              var last := boundaries[|boundaries| - 1];
              && (r.value.steady <==> r.value.reasons == {})
              && (forall key :: InputNotCompleted(key) in r.value.reasons <==>
                    key in last && InputLate(last[key], scheduledEnd))
              && (forall field, key :: SustainedGrowth(field, key) in r.value.reasons <==>
                    key in last && Growing(Series(boundaries, key, field)))
  {
    if boundaries == [] {
      return Failure(NoBoundaries);
    }
    var last := boundaries[|boundaries| - 1];
    var reasons: set<Reason> := set key | key in last && last[key].fixedWs &&
      (last[key].sentFrames != last[key].totalInputFrames || last[key].lastSentElapsed > scheduledEnd) ::
      InputNotCompleted(key);
    ghost var inputs := reasons;
    var f := 0;
    while f < |FIELDS|
      invariant 0 <= f <= |FIELDS|
      invariant forall key :: InputNotCompleted(key) in reasons <==> InputNotCompleted(key) in inputs
      invariant forall field, key :: SustainedGrowth(field, key) in reasons <==>
                  field in FIELDS[..f] && key in last && Growing(Series(boundaries, key, field))
    {
      var field := FIELDS[f];
      var keys := last.Keys;
      while keys != {}
        invariant keys <= last.Keys
        invariant forall key :: InputNotCompleted(key) in reasons <==> InputNotCompleted(key) in inputs
        invariant forall g, key :: SustainedGrowth(g, key) in reasons <==>
                    && key in last && Growing(Series(boundaries, key, g))
                    && (g in FIELDS[..f] || (g == field && key !in keys))
        decreases keys
      {
        var key :| key in keys;
        keys := keys - {key};
        var values := Series(boundaries, key, field);
        var highs := Highs(values);
        TwoHighsAreImplied(values, highs);
        if |highs| >= 2 && values[|values| - 1] > highs[0] {
          reasons := reasons + {SustainedGrowth(field, key)};
        }
      }
      assert FIELDS[..f + 1] == FIELDS[..f] + [field];
      f := f + 1;
    }
    assert FIELDS[..f] == FIELDS;
    AllFields();
    r := Success(Classification(reasons == {}, reasons));
  }

  lemma AllFields()
    ensures forall field: Field :: field in FIELDS
  {
    forall field: Field ensures field in FIELDS {
      match field
      case DueNotSent => assert FIELDS[0] == field;
      case PendingWrite => assert FIELDS[1] == field;
      case WrittenNotPersisted => assert FIELDS[2] == field;
      case ReceiptOwnedBytes => assert FIELDS[3] == field;
      case SpoolOwnedBytes => assert FIELDS[4] == field;
    }
  }

  /** The classifier's test on the highs is the growth test; asking for two of them adds nothing. */
  lemma TwoHighsAreImplied(values: seq<int>, highs: seq<int>)
    requires values != [] && |highs| == |HighIndices(values)|
    requires forall i :: 0 <= i < |highs| ==> highs[i] == values[HighIndices(values)[i]]
    ensures Growing(values) <==> |highs| >= 2 && values[|values| - 1] > highs[0]
    ensures Growing(values) <==> |highs| >= 1 && values[|values| - 1] > highs[0]
  {
    hide HighIndices;
    var at := HighIndices(values);
    if Growing(values) {
      var i: nat :| FirstRise(values, i) && values[|values| - 1] > values[i];
      assert NewHigh(values, i);
    }
    if highs != [] {
      FirstHighIsFirstRise(values, at);
      if values[|values| - 1] > highs[0] {
        assert FirstRise(values, at[0]);
        GrowthNeedsTwoHighs(values);
      }
    }
  }

  lemma FirstHighIsFirstRise(values: seq<int>, at: seq<nat>)
    requires at != [] && forall i :: 0 <= i < |at| ==> NewHigh(values, at[i])
    requires forall k: nat :: NewHigh(values, k) ==> k in at
    requires forall i, j :: 0 <= i < j < |at| ==> at[i] < at[j]
    ensures FirstRise(values, at[0])
    ensures forall i: nat :: FirstRise(values, i) ==> i == at[0]
  {
    var k: nat := 1;
    while values[k] <= values[0]
      invariant 1 <= k <= at[0] && forall j :: 0 < j < k ==> values[j] <= values[0]
      decreases at[0] - k
    {
      k := k + 1;
    }
    assert NewHigh(values, k);
  }

  /** A burst at the very end, or a full recovery, is never growth; growth shows two separate new highs. */
  lemma GrowthNeedsTwoHighs(values: seq<int>)
    requires Growing(values)
    ensures values[|values| - 1] > values[0]
    ensures exists i: nat, k: nat :: i < k && NewHigh(values, i) && NewHigh(values, k)
    ensures !FirstRise(values, |values| - 1)
  {
    var i: nat :| FirstRise(values, i) && values[|values| - 1] > values[i];
    assert NewHigh(values, i);
    var k := i + 1;
    while values[k] <= values[i]
      invariant i < k < |values| && forall j :: 0 <= j < k ==> values[j] <= values[i]
      decreases |values| - k
    {
      k := k + 1;
    }
    assert NewHigh(values, k);
  }
}
