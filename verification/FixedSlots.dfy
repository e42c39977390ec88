/** Replay of a monitoring log over fixed nominal slots: `evaluate_fixed_slots`. */
module FixedSlots {
  import opened Wrappers

  const PROJECTION_LIMIT_NS := 2_000_000_000

  datatype Role = NominalMonitor | RecoveryProbe | FinishProbe | UnknownRole

  datatype Gate = Gate(
    result: string,
    reasons: Option<seq<string>>,  // None: not a list
    expectedContexts: int,
    contexts: set<string>)

  /** A parsed log line. `None` stands for a field that is absent or not exactly an integer. */
  datatype Row = Row(
    role: Role,
    slot: Option<int>,
    boottimeNs: Option<int>,
    utcNs: Option<int>,
    scheduledNs: Option<int>,
    skipped: Option<int>,
    configSha: string,
    gate: Gate)

  datatype Period = Period(
    startNs: int,
    endNs: int,
    startBoottimeNs: int,
    configSha: string,
    expected: set<string>,
    intervalNs: int)
  {
    predicate Valid() {
      endNs - startNs > 0 && intervalNs > 0 && (endNs - startNs) % intervalNs == 0
    }

    function Total(): (n: nat)
      requires Valid()
      ensures n > 0 && n * intervalNs == endNs - startNs
    {
      DivisionIsExact(endNs - startNs, intervalNs);
      (endNs - startNs) / intervalNs
    }

    function Due(slot: int): int {
      startBoottimeNs + slot * intervalNs
    }
  }

  lemma DivisionIsExact(a: int, b: int)
    requires a > 0 && b > 0 && a % b == 0
    ensures a / b > 0 && (a / b) * b == a
  {
  }

  datatype SlotError =
    | InvalidPeriod
    | UntrustedRole
    | InvalidSlot
    | InvalidClock
    | UntrustedProjection
    | Unordered
    | ScheduleDiffers
    | UntrustedSkip
    | ConfigurationDiffers
    | InvalidGate
    | GateDisagrees
    | ProfileDiffers

  datatype FailedCheck =
    | FailedRow(slot: int, line: nat, reasons: seq<string>)
    | MissingSlot(slot: int)

  datatype Report = Report(
    passed: nat,
    failed: int,
    total: nat,
    recordedNominal: nat,
    missingSlots: seq<int>,
    outsideNominal: nat,
    failedChecks: seq<FailedCheck>,
    pass: bool)

  function Abs(x: int): nat {
    if x < 0 then -x else x
  }

  // ---------------------------------------------------------------- reference definitions

  predicate Probe(row: Row) {
    row.role.RecoveryProbe? || row.role.FinishProbe?
  }

  /** The nominal rows of a log, in order. */
  function Nominals(rows: seq<Row>): (ns: seq<Row>)
    ensures forall i :: 0 <= i < |ns| ==> ns[i].role.NominalMonitor?
    ensures |ns| <= |rows|
  {
    if rows == [] then []
    else
      var n := |rows| - 1;
      Nominals(rows[..n]) + if rows[n].role.NominalMonitor? then [rows[n]] else []
  }

  /** What one nominal row must satisfy by itself. */
  ghost predicate SelfConsistent(p: Period, row: Row)
    requires p.Valid()
  {
    && row.slot.Some? && 0 <= row.slot.value < p.Total()
    && row.boottimeNs.Some? && row.boottimeNs.value >= p.Due(row.slot.value)
    && row.utcNs.Some?
    && Abs((row.utcNs.value - p.startNs) - (row.boottimeNs.value - p.startBoottimeNs)) < PROJECTION_LIMIT_NS
    && row.scheduledNs == Some(p.Due(row.slot.value))
    && row.skipped == Some((row.boottimeNs.value - p.Due(row.slot.value)) / p.intervalNs)
    && row.configSha == p.configSha
    && row.gate.reasons.Some?
    && row.gate.result == (if row.gate.reasons.value == [] then "PASS" else "BLOCK")
    && row.gate.expectedContexts == |p.expected|
    && row.gate.contexts == p.expected
  }

  /** The evidence as a whole: every role known, every nominal row consistent, one row a slot, time increasing. */
  ghost predicate Trusted(p: Period, rows: seq<Row>)
    requires p.Valid()
  {
    && (forall i :: 0 <= i < |rows| ==> !rows[i].role.UnknownRole?)
    && TrustedNominals(p, Nominals(rows))
  }

  ghost predicate TrustedNominals(p: Period, ns: seq<Row>)
    requires p.Valid()
  {
    && (forall i :: 0 <= i < |ns| ==> SelfConsistent(p, ns[i]))
    && (forall i, j :: 0 <= i < j < |ns| ==> ns[i].slot != ns[j].slot)
    && (forall i, j :: 0 <= i < j < |ns| ==> ns[i].boottimeNs.value < ns[j].boottimeNs.value)
  }

  ghost predicate OnTime(p: Period, row: Row) {
    row.slot.Some? && row.boottimeNs.Some? && row.boottimeNs.value < p.Due(row.slot.value) + p.intervalNs
  }

  ghost predicate Clean(p: Period, row: Row) {
    row.gate.reasons == Some([]) && OnTime(p, row)
  }

  ghost function Slots(ns: seq<Row>): set<int> {
    set i | 0 <= i < |ns| && ns[i].slot.Some? :: ns[i].slot.value
  }

  ghost function CleanSlots(p: Period, ns: seq<Row>): set<int> {
    set i | 0 <= i < |ns| && ns[i].slot.Some? && Clean(p, ns[i]) :: ns[i].slot.value
  }

  /** Slots of a trusted log that count against the recorder: unclean or never recorded. */
  ghost function BadSlots(p: Period, ns: seq<Row>): set<int>
    requires p.Valid()
  {
    Range(p.Total()) - CleanSlots(p, ns)
  }

  ghost function Range(n: nat): (r: set<int>)
    ensures forall s :: s in r <==> 0 <= s < n
    ensures |r| == n
  {
    if n == 0 then {} else Range(n - 1) + {n - 1}
  }

  ghost function Named(failures: seq<FailedCheck>): set<int> {
    set i | 0 <= i < |failures| :: failures[i].slot
  }

  // ---------------------------------------------------------------- growing a log by one row

  lemma NominalsGrow(rows: seq<Row>, row: Row)
    ensures Nominals(rows + [row]) == Nominals(rows) + if row.role.NominalMonitor? then [row] else []
  {
    assert (rows + [row])[..|rows|] == rows;
  }

  lemma SlotsGrow(p: Period, ns: seq<Row>, row: Row)
    requires row.slot.Some?
    ensures Slots(ns + [row]) == Slots(ns) + {row.slot.value}
    ensures CleanSlots(p, ns + [row]) == CleanSlots(p, ns) + if Clean(p, row) then {row.slot.value} else {}
  {
    var g := ns + [row];
    assert g[|ns|] == row && forall i :: 0 <= i < |ns| ==> g[i] == ns[i];
    forall s | s in Slots(ns) ensures s in Slots(g) {
      var i :| 0 <= i < |ns| && ns[i].slot == Some(s);
      assert g[i].slot == Some(s);
    }
    forall s | s in CleanSlots(p, ns) ensures s in CleanSlots(p, g) {
      var i :| 0 <= i < |ns| && ns[i].slot == Some(s) && Clean(p, ns[i]);
      assert g[i].slot == Some(s) && Clean(p, g[i]);
    }
  }

  /** Trust is decided row by row against the slots already seen and the last observation. */
  lemma TrustGrows(p: Period, ns: seq<Row>, row: Row)
    requires p.Valid() && TrustedNominals(p, ns)
    ensures TrustedNominals(p, ns + [row]) <==>
            && SelfConsistent(p, row)
            && row.slot.value !in Slots(ns)
            && (ns != [] ==> ns[|ns| - 1].boottimeNs.value < row.boottimeNs.value)
  {
    var g := ns + [row];
    var n := |ns|;
    assert g[n] == row && forall i :: 0 <= i < n ==> g[i] == ns[i];
    if TrustedNominals(p, g) {
      assert SelfConsistent(p, g[n]);
      forall i | 0 <= i < n ensures ns[i].slot != row.slot {
        assert g[i].slot != g[n].slot;
      }
      if n > 0 {
        assert g[n - 1].boottimeNs.value < g[n].boottimeNs.value;
      }
    }
    if SelfConsistent(p, row) && row.slot.value !in Slots(ns)
       && (n > 0 ==> ns[n - 1].boottimeNs.value < row.boottimeNs.value) {
      forall i | 0 <= i < |g| ensures SelfConsistent(p, g[i]) {}
      forall i, j | 0 <= i < j < |g|
        ensures g[i].slot != g[j].slot && g[i].boottimeNs.value < g[j].boottimeNs.value
      {
        assert SelfConsistent(p, ns[i]);
        if j == n {
          assert ns[i].slot.value in Slots(ns);
        }
      }
    }
  }

  /** Every prefix of a trusted log is trusted, so distrust is final. */
  lemma {:induction false} TrustedPrefix(p: Period, rows: seq<Row>, k: nat)
    requires p.Valid() && k <= |rows| && Trusted(p, rows)
    ensures Trusted(p, rows[..k])
    decreases |rows| - k
  {
    if k == |rows| {
      assert rows[..k] == rows;
    } else {
      TrustedPrefix(p, rows, k + 1);
      assert rows[..k + 1] == rows[..k] + [rows[k]];
      NominalsGrow(rows[..k], rows[k]);
      var a, b := Nominals(rows[..k]), Nominals(rows[..k + 1]);
      assert forall i :: 0 <= i < |a| ==> a[i] == b[i];
    }
  }

  // ---------------------------------------------------------------- the evaluator

  /** The checks made on a nominal row, in the order they are made. */
  function Fault(p: Period, row: Row, seen: set<int>, previous: Option<int>): (fault: Option<SlotError>)
    requires p.Valid()
    ensures fault.None? <==>
            && SelfConsistent(p, row)
            && row.slot.value !in seen
            && (previous.Some? ==> previous.value < row.boottimeNs.value)
  {
    if row.slot.None? || !(0 <= row.slot.value < p.Total()) || row.slot.value in seen then Some(InvalidSlot)
    else
      var scheduled := p.startBoottimeNs + row.slot.value * p.intervalNs;
      if row.boottimeNs.None? || row.boottimeNs.value < scheduled then Some(InvalidClock)
      else
        var observed := row.boottimeNs.value;
        if row.utcNs.None?
           || Abs((row.utcNs.value - p.startNs) - (observed - p.startBoottimeNs)) >= PROJECTION_LIMIT_NS
        then Some(UntrustedProjection)
        else if previous.Some? && observed <= previous.value then Some(Unordered)
        else if row.scheduledNs != Some(scheduled) then Some(ScheduleDiffers)
        else if row.skipped != Some((observed - scheduled) / p.intervalNs) then Some(UntrustedSkip)
        else if row.configSha != p.configSha then Some(ConfigurationDiffers)
        else if row.gate.result !in ["PASS", "BLOCK"] || row.gate.reasons.None? then Some(InvalidGate)
        else if (row.gate.result == "PASS") != (row.gate.reasons.value == []) then Some(GateDisagrees)
        else if row.gate.expectedContexts != |p.expected| || row.gate.contexts != p.expected then Some(ProfileDiffers)
        else None
  }

  ghost predicate ReportsTruly(p: Period, rows: seq<Row>, r: Report)
    requires p.Valid()
  {
    CountsTruly(p, rows, r) && Explained(p, rows, r.failedChecks)
  }

  ghost predicate CountsTruly(p: Period, rows: seq<Row>, r: Report)
    requires p.Valid()
  {
    var ns := Nominals(rows);
    && r.total == p.Total()
    && r.passed == |CleanSlots(p, ns)|
    && r.failed == |BadSlots(p, ns)|
    && r.recordedNominal == |ns| == |Slots(ns)|
    && r.outsideNominal == |rows| - |ns|
    && (forall s :: s in r.missingSlots <==> 0 <= s < p.Total() && s !in Slots(ns))
    && Ascending(r.missingSlots)
    && r.pass == (|BadSlots(p, ns)| <= p.Total() / 200)
    // slots are conserved
    && r.passed + |r.failedChecks| == r.total
    && r.recordedNominal + |r.missingSlots| == r.total
    // every failed check names a bad slot, once
    && Named(r.failedChecks) == BadSlots(p, ns)
  }

  /** The failed checks give the line and the reasons of each failed row, and the slots without a row. */
  ghost predicate Explained(p: Period, rows: seq<Row>, failures: seq<FailedCheck>)
    requires p.Valid()
  {
    forall f :: f in failures ==> Explains(p, rows, f)
  }

  ghost predicate Explains(p: Period, rows: seq<Row>, f: FailedCheck)
    requires p.Valid()
  {
    match f
    case FailedRow(slot, line, reasons) =>
      && 1 <= line <= |rows| && rows[line - 1].role.NominalMonitor? && rows[line - 1].slot == Some(slot)
      && SelfConsistent(p, rows[line - 1])
      && reasons == AllReasons(p, rows[line - 1]) && reasons != []
    case MissingSlot(slot) => 0 <= slot < p.Total() && slot !in Slots(Nominals(rows))
  }

  method EvaluateFixedSlots(rows: seq<Row>, p: Period) returns (r: Result<Report, SlotError>)
    ensures r.Success? <==> p.Valid() && Trusted(p, rows)
    ensures r.Success? ==> ReportsTruly(p, rows, r.value)
    ensures r.Failure? ==> (r.error == InvalidPeriod <==> !p.Valid())
  {
    hide SelfConsistent, TrustedNominals, Tally, ReportsTruly, CountsTruly, Nominals, Explained, Slots;
    if !p.Valid() {
      return Failure(InvalidPeriod);
    }
    TallyStarts(p);
    NothingToExplain(p, rows);
    var total := p.Total();
    var seen: set<int> := {};
    var passed: nat, outside: nat := 0, 0;
    var failures: seq<FailedCheck> := [];
    var previous: Option<int> := None;
    ghost var ns: seq<Row> := [];
    var k := 0;
    while k < |rows|
      invariant 0 <= k <= |rows|
      invariant ns == Nominals(rows[..k]) && KnownRoles(rows[..k])
      invariant Tally(p, ns, seen, previous, passed, failures)
      invariant outside == k - |ns|
      invariant Explained(p, rows, failures)
    {
      var row := rows[k];
      assert rows[..k + 1] == rows[..k] + [row];
      NominalsGrow(rows[..k], row);
      if Probe(row) {
        outside := outside + 1;
      } else if !row.role.NominalMonitor? {
        return Failure(UntrustedRole);
      } else {
        var fault := Fault(p, row, seen, previous);
        if fault.Some? {
          FaultIsDistrust(p, rows, k, seen, previous, passed, failures);
          return Failure(fault.value);
        }
        TallyGrows(p, ns, seen, previous, passed, failures, row, k + 1);
        var slot, scheduled, observed := row.slot.value, row.scheduledNs.value, row.boottimeNs.value;
        previous := Some(observed);
        seen := seen + {slot};
        var reasons := row.gate.reasons.value;
        if observed >= scheduled + p.intervalNs {
          reasons := reasons + ["late_monitor_observation"];
        }
        assert reasons == AllReasons(p, row);
        if reasons != [] {
          ExplainedGrows(p, rows, failures, k);
          failures := failures + [FailedRow(slot, k + 1, reasons)];
        } else {
          passed := passed + 1;
        }
        ns := ns + [row];
      }
      k := k + 1;
    }
    assert rows[..k] == rows;
    var missing := Missing(total, seen);
    ghost var rowFailures := failures;
    failures := failures + seq(|missing|, i requires 0 <= i < |missing| => MissingSlot(missing[i]));
    r := Success(Report(passed, total - passed, total, |seen|, missing, outside, failures,
                        passed * 1000 >= total * 995));
    Concludes(p, rows, seen, previous, rowFailures, r.value);
    TallySees(p, ns, seen, previous, passed, rowFailures);
    MissingExplained(p, rows, seen, rowFailures, r.value);
    TrulyMeans(p, rows, r.value);
  }

  // ---------------------------------------------------------------- the loop's tally

  ghost predicate KnownRoles(rows: seq<Row>) {
    forall i :: 0 <= i < |rows| ==> !rows[i].role.UnknownRole?
  }

  ghost predicate Tally(p: Period, ns: seq<Row>, seen: set<int>, previous: Option<int>, passed: nat,
                        failures: seq<FailedCheck>)
    requires p.Valid()
  {
    && TrustedNominals(p, ns)
    && (if ns == [] then previous.None? else previous.Some? && previous == ns[|ns| - 1].boottimeNs)
    && seen == Slots(ns)
    && Counts(seen, CleanSlots(p, ns), |ns|, passed, failures)
  }

  /** The counters agree with the slots seen and with those of them that are clean. */
  ghost predicate Counts(seen: set<int>, clean: set<int>, n: nat, passed: nat, failures: seq<FailedCheck>) {
    && clean <= seen && |seen| == n
    && passed == |clean| && passed + |failures| == n
    && Named(failures) == seen - clean
  }

  lemma CountsGrow(seen: set<int>, clean: set<int>, n: nat, passed: nat, failures: seq<FailedCheck>, f: FailedCheck)
    requires Counts(seen, clean, n, passed, failures) && f.slot !in seen
    ensures Counts(seen + {f.slot}, clean + {f.slot}, n + 1, passed + 1, failures)
    ensures Counts(seen + {f.slot}, clean, n + 1, passed, failures + [f])
  {
    hide Named;
    NamedGrows(failures, f);
    assert (seen + {f.slot}) - (clean + {f.slot}) == seen - clean;
    assert (seen + {f.slot}) - clean == (seen - clean) + {f.slot};
  }

  /** Recorded reasons, with lateness added when the row was observed a whole interval late. */
  function AllReasons(p: Period, row: Row): seq<string>
    requires row.gate.reasons.Some? && row.boottimeNs.Some? && row.scheduledNs.Some?
  {
    if row.boottimeNs.value >= row.scheduledNs.value + p.intervalNs
    then row.gate.reasons.value + ["late_monitor_observation"]
    else row.gate.reasons.value
  }

  lemma TallySees(p: Period, ns: seq<Row>, seen: set<int>, previous: Option<int>, passed: nat,
                  failures: seq<FailedCheck>)
    requires p.Valid() && Tally(p, ns, seen, previous, passed, failures)
    ensures seen == Slots(ns)
  {
  }

  lemma TrulyMeans(p: Period, rows: seq<Row>, r: Report)
    requires p.Valid() && CountsTruly(p, rows, r) && Explained(p, rows, r.failedChecks)
    ensures ReportsTruly(p, rows, r)
  {
  }

  lemma TallyStarts(p: Period)
    requires p.Valid()
    ensures Tally(p, [], {}, None, 0, [])
  {
  }

  lemma TallyGrows(p: Period, ns: seq<Row>, seen: set<int>, previous: Option<int>, passed: nat,
                   failures: seq<FailedCheck>, row: Row, line: nat)
    requires p.Valid() && Tally(p, ns, seen, previous, passed, failures)
    requires Fault(p, row, seen, previous).None?
    ensures
      var slot := row.slot.value;
      var reasons := AllReasons(p, row);
      if reasons == [] then Tally(p, ns + [row], seen + {slot}, row.boottimeNs, passed + 1, failures)
      else Tally(p, ns + [row], seen + {slot}, row.boottimeNs, passed, failures + [FailedRow(slot, line, reasons)])
  {
    hide SelfConsistent, TrustedNominals, Clean, Slots, CleanSlots, Counts, AllReasons;
    TrustGrows(p, ns, row);
    SlotsGrow(p, ns, row);
    CleanDecides(p, row);
    CountsGrow(seen, CleanSlots(p, ns), |ns|, passed, failures, FailedRow(row.slot.value, line, AllReasons(p, row)));
    assert (ns + [row])[|ns|] == row;
    if !Clean(p, row) {
      assert CleanSlots(p, ns + [row]) == CleanSlots(p, ns);
    }
  }

  lemma CleanDecides(p: Period, row: Row)
    requires p.Valid() && SelfConsistent(p, row)
    ensures Clean(p, row) <==>
            AllReasons(p, row) == []
  {
  }

  lemma NamedGrows(failures: seq<FailedCheck>, f: FailedCheck)
    ensures Named(failures + [f]) == Named(failures) + {f.slot}
  {
    var g := failures + [f];
    assert g[|failures|] == f && forall i :: 0 <= i < |failures| ==> g[i] == failures[i];
  }

  lemma NothingToExplain(p: Period, rows: seq<Row>)
    requires p.Valid()
    ensures Explained(p, rows, [])
  {
  }

  lemma ExplainedGrows(p: Period, rows: seq<Row>, failures: seq<FailedCheck>, k: nat)
    requires p.Valid() && Explained(p, rows, failures)
    requires k < |rows| && rows[k].role.NominalMonitor? && SelfConsistent(p, rows[k])
    requires AllReasons(p, rows[k]) != []
    ensures Explained(p, rows, failures + [FailedRow(rows[k].slot.value, k + 1, AllReasons(p, rows[k]))])
  {
    assert rows[k].slot.Some?;
    assert Explains(p, rows, FailedRow(rows[k].slot.value, k + 1, AllReasons(p, rows[k])));
    hide Explains;
  }

  lemma FaultIsDistrust(p: Period, rows: seq<Row>, k: nat, seen: set<int>, previous: Option<int>, passed: nat,
                        failures: seq<FailedCheck>)
    requires p.Valid() && k < |rows| && rows[k].role.NominalMonitor?
    requires Tally(p, Nominals(rows[..k]), seen, previous, passed, failures)
    requires Fault(p, rows[k], seen, previous).Some?
    ensures !Trusted(p, rows)
  {
    hide SelfConsistent, TrustedNominals;
    if Trusted(p, rows) {
      TrustedPrefix(p, rows, k + 1);
      assert rows[..k + 1] == rows[..k] + [rows[k]];
      NominalsGrow(rows[..k], rows[k]);
      TrustGrows(p, Nominals(rows[..k]), rows[k]);
    }
  }

  // ---------------------------------------------------------------- slots nobody recorded

  lemma SlotsInRange(p: Period, ns: seq<Row>)
    requires p.Valid() && TrustedNominals(p, ns)
    ensures Slots(ns) <= Range(p.Total())
  {
    forall s | s in Slots(ns) ensures 0 <= s < p.Total() {
      var i :| 0 <= i < |ns| && ns[i].slot == Some(s);
      assert SelfConsistent(p, ns[i]);
    }
  }

  /** The slots of the period that were never seen, in ascending order. */
  method Missing(total: nat, seen: set<int>) returns (missing: seq<int>)
    ensures forall s :: s in missing <==> 0 <= s < total && s !in seen
    ensures Ascending(missing)
  {
    missing := [];
    for s := 0 to total
      invariant forall t :: t in missing <==> 0 <= t < s && t !in seen
      invariant Ascending(missing)
    {
      if s !in seen {
        assert forall i :: 0 <= i < |missing| ==> missing[i] in missing;
        missing := missing + [s];
      }
    }
  }

  ghost predicate Ascending(xs: seq<int>) {
    forall i, j :: 0 <= i < j < |xs| ==> xs[i] < xs[j]
  }

  lemma {:induction false} AscendingSize(xs: seq<int>)
    requires Ascending(xs)
    ensures |set x | x in xs| == |xs|
  {
    if xs != [] {
      var n := |xs| - 1;
      AscendingSize(xs[..n]);
      assert (set x | x in xs) == (set x | x in xs[..n]) + {xs[n]};
      assert xs[n] !in xs[..n];
    }
  }

  /** The failed checks are those of the rows, then one for each missing slot. */
  ghost predicate UnnamedAreMissing(rowFailures: seq<FailedCheck>, r: Report) {
    && |r.failedChecks| == |rowFailures| + |r.missingSlots|
    && (forall i :: 0 <= i < |rowFailures| ==> r.failedChecks[i] == rowFailures[i])
    && (forall i :: 0 <= i < |r.missingSlots| ==>
          r.failedChecks[|rowFailures| + i] == MissingSlot(r.missingSlots[i]))
  }

  lemma Concludes(p: Period, rows: seq<Row>, seen: set<int>, previous: Option<int>, rowFailures: seq<FailedCheck>,
                  r: Report)
    requires p.Valid() && KnownRoles(rows)
    requires Tally(p, Nominals(rows), seen, previous, r.passed, rowFailures)
    requires r.total == p.Total() && r.failed == r.total - r.passed && r.recordedNominal == |seen|
    requires r.outsideNominal == |rows| - |Nominals(rows)|
    requires r.pass == (r.passed * 1000 >= r.total * 995)
    requires Ascending(r.missingSlots)
    requires forall s :: s in r.missingSlots <==> 0 <= s < p.Total() && s !in seen
    requires UnnamedAreMissing(rowFailures, r)
    ensures Trusted(p, rows) && CountsTruly(p, rows, r)
  {
    hide SelfConsistent, TrustedNominals, Slots, CleanSlots, Named, Ascending, Nominals, Range, UnnamedAreMissing;
    var ns := Nominals(rows);
    var clean := CleanSlots(p, ns);
    assert Trusted(p, rows);
    SlotsInRange(p, ns);
    NameMissing(rowFailures, r);
    CountMissing(Range(p.Total()), seen, clean, r.missingSlots, Named(rowFailures));
    Threshold(r.passed, r.total);
  }

  lemma MissingExplained(p: Period, rows: seq<Row>, seen: set<int>, rowFailures: seq<FailedCheck>, r: Report)
    requires p.Valid() && seen == Slots(Nominals(rows))
    requires forall s :: s in r.missingSlots <==> 0 <= s < p.Total() && s !in seen
    requires UnnamedAreMissing(rowFailures, r) && Explained(p, rows, rowFailures)
    ensures Explained(p, rows, r.failedChecks)
  {
    hide SelfConsistent, Slots, Nominals, AllReasons;
    forall f | f in r.failedChecks ensures Explains(p, rows, f) {
      var i :| 0 <= i < |r.failedChecks| && r.failedChecks[i] == f;
      if i < |rowFailures| {
        assert rowFailures[i] in rowFailures;
      } else {
        var j := i - |rowFailures|;
        assert r.failedChecks[|rowFailures| + j] == MissingSlot(r.missingSlots[j]);
        assert r.missingSlots[j] in r.missingSlots;
      }
    }
  }

  /** The 995-per-1000 rule allows floor(total / 200) bad slots. */
  lemma Threshold(passed: nat, total: nat)
    ensures passed * 1000 >= total * 995 <==> total - passed <= total / 200
  {
  }

  lemma CountMissing(range: set<int>, seen: set<int>, clean: set<int>, missing: seq<int>, unclean: set<int>)
    requires clean <= seen <= range && unclean == seen - clean
    requires Ascending(missing) && forall s :: s in missing <==> s in range && s !in seen
    ensures |seen| + |missing| == |range|
    ensures |range - clean| == |range| - |clean|
    ensures range - clean == unclean + set s | s in missing
  {
    AscendingSize(missing);
    var gone := set s | s in missing;
    forall s ensures s in gone <==> s in range && s !in seen {}
    assert range == seen + gone;
    assert range == clean + (range - clean);
    assert range - clean == unclean + gone;
  }

  lemma NameMissing(rowFailures: seq<FailedCheck>, r: Report)
    requires UnnamedAreMissing(rowFailures, r)
    ensures Named(r.failedChecks) == Named(rowFailures) + set s | s in r.missingSlots
    ensures |r.failedChecks| == |rowFailures| + |r.missingSlots|
  {
    var missing, failures := r.missingSlots, r.failedChecks;
    forall s | s in Named(rowFailures) ensures s in Named(failures) {
      var i :| 0 <= i < |rowFailures| && rowFailures[i].slot == s;
      assert failures[i].slot == s;
    }
    forall s | s in missing ensures s in Named(failures) {
      var i :| 0 <= i < |missing| && missing[i] == s;
      assert failures[|rowFailures| + i].slot == s;
    }
    forall s | s in Named(failures) ensures s in Named(rowFailures) || s in missing {
      var i :| 0 <= i < |failures| && failures[i].slot == s;
      if i >= |rowFailures| {
        assert failures[|rowFailures| + (i - |rowFailures|)].slot == missing[i - |rowFailures|];
      }
    }
  }

  // ---------------------------------------------------------------- main results on whole logs

  /** Probes may be inserted anywhere: they change neither the nominal rows nor the trust in the evidence. */
  lemma ProbesAreInvisible(p: Period, a: seq<Row>, probe: Row, b: seq<Row>)
    requires p.Valid() && Probe(probe)
    ensures Nominals(a + [probe] + b) == Nominals(a + b)
    ensures Trusted(p, a + [probe] + b) <==> Trusted(p, a + b)
  {
    hide Nominals, TrustedNominals;
    NominalsSkipProbe(a, probe, b);
    var long, short := a + [probe] + b, a + b;
    assert forall i :: 0 <= i < |short| ==> short[i] == long[if i < |a| then i else i + 1];
    assert forall i :: 0 <= i < |long| ==> long[i] == if i == |a| then probe else short[if i < |a| then i else i - 1];
  }

  lemma {:induction false} NominalsSkipProbe(a: seq<Row>, probe: Row, b: seq<Row>)
    requires Probe(probe)
    ensures Nominals(a + [probe] + b) == Nominals(a + b)
    decreases |b|
  {
    if b == [] {
      assert a + [probe] + b == a + [probe] && a + b == a;
      NominalsGrow(a, probe);
    } else {
      var n := |b| - 1;
      NominalsSkipProbe(a, probe, b[..n]);
      assert a + [probe] + b == (a + [probe] + b[..n]) + [b[n]];
      assert a + b == (a + b[..n]) + [b[n]];
      NominalsGrow(a + [probe] + b[..n], b[n]);
      NominalsGrow(a + b[..n], b[n]);
    }
  }

  /** Two truthful reports on logs with the same nominal rows differ only in their words on probes and line numbers. */
  lemma VerdictIgnoresProbes(p: Period, rows: seq<Row>, more: seq<Row>, r: Report, s: Report)
    requires p.Valid() && Nominals(rows) == Nominals(more)
    requires ReportsTruly(p, rows, r) && ReportsTruly(p, more, s)
    ensures r.passed == s.passed && r.failed == s.failed && r.total == s.total && r.pass == s.pass
    ensures r.recordedNominal == s.recordedNominal && r.missingSlots == s.missingSlots
    ensures r.outsideNominal - s.outsideNominal == |rows| - |more|
  {
    AscendingUnique(r.missingSlots, s.missingSlots);
  }

  lemma {:induction false} AscendingUnique(xs: seq<int>, ys: seq<int>)
    requires Ascending(xs) && Ascending(ys)
    requires forall v :: v in xs <==> v in ys
    ensures xs == ys
  {
    assert xs != [] ==> xs[0] in xs && xs[0] in ys;
    assert ys != [] ==> ys[0] in ys && ys[0] in xs;
    hide Ascending;
    if xs != [] {
      assert ys != [];
      var n, m := |xs| - 1, |ys| - 1;
      WithoutLast(xs);
      WithoutLast(ys);
      assert xs[n] == ys[m];
      AscendingUnique(xs[..n], ys[..m]);
      assert xs == xs[..n] + [xs[n]] && ys == ys[..m] + [ys[m]];
    }
  }

  lemma WithoutLast(xs: seq<int>)
    requires Ascending(xs) && xs != []
    ensures
      var n := |xs| - 1;
      && Ascending(xs[..n]) && xs[n] in xs
      && (forall v :: v in xs ==> v <= xs[n])
      && (forall v :: v in xs[..n] <==> v in xs && v != xs[n])
  {
    assert xs == xs[..|xs| - 1] + [xs[|xs| - 1]];
  }
}
