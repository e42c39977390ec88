/** Replay of sampled monitoring checks over one period: `qualification_monitor_rate.evaluate`. */
module MonitorRate {
  import opened Wrappers

  const EXPECTED_CONTEXTS := 26

  datatype Gate = Gate(result: string, reasons: Option<seq<string>>, expectedContexts: int, contexts: seq<string>)

  /** A parsed check; `None` stands for a timestamp that is not an integer. */
  datatype Row = Row(utcNs: Option<int>, configSha: string, gate: Gate)

  datatype Period = Period(startNs: int, endNs: int, configSha: string, cadenceNs: int)

  datatype RateError =
    | InvalidPeriod
    | InvalidTimestamp
    | Unordered
    | ConfigurationDiffers
    | InvalidResult
    | ResultDisagrees
    | ProfileDiffers
    | NoEvidence
    | UncoveredInterval

  datatype Report = Report(passed: nat, total: nat, outside: nat, failedLines: seq<nat>, maximumGapNs: int, pass: bool)

  // ---------------------------------------------------------------- reference definitions

  predicate Inside(p: Period, row: Row) {
    row.utcNs.Some? && p.startNs <= row.utcNs.value <= p.endNs
  }

  predicate Sound(p: Period, row: Row) {
    && row.configSha == p.configSha
    && row.gate.reasons.Some?
    && row.gate.result == (if row.gate.reasons.value == [] then "PASS" else "BLOCK")
    && row.gate.expectedContexts == EXPECTED_CONTEXTS && |row.gate.contexts| == EXPECTED_CONTEXTS
  }

  predicate Passing(p: Period, row: Row) {
    Inside(p, row) && row.gate.reasons == Some([])
  }

  /** Times of the checks inside the period, in order. */
  function Times(p: Period, rows: seq<Row>): seq<int> {
    if rows == [] then []
    else
      var n := |rows| - 1;
      Times(p, rows[..n]) + if Inside(p, rows[n]) then [rows[n].utcNs.value] else []
  }

  function CountPassing(p: Period, rows: seq<Row>): nat {
    if rows == [] then 0
    else CountPassing(p, rows[..|rows| - 1]) + if Passing(p, rows[|rows| - 1]) then 1 else 0
  }

  /** Checks carry increasing times, and those inside the period are sound. */
  ghost predicate Trusted(p: Period, rows: seq<Row>) {
    && (forall i :: 0 <= i < |rows| ==> rows[i].utcNs.Some?)
    && (forall i, j :: 0 <= i < j < |rows| ==> rows[i].utcNs.value < rows[j].utcNs.value)
    && (forall i :: 0 <= i < |rows| && Inside(p, rows[i]) ==> Sound(p, rows[i]))
  }

  /** Both ends of the period and every time between: the points whose neighbours bound the gaps. */
  function Points(p: Period, times: seq<int>): seq<int> {
    [p.startNs] + times + [p.endNs]
  }

  ghost predicate IsLargestGap(points: seq<int>, gap: int) {
    && (forall i :: 0 <= i < |points| - 1 ==> points[i + 1] - points[i] <= gap)
    && (exists i :: 0 <= i < |points| - 1 && points[i + 1] - points[i] == gap)
  }

  ghost predicate Accepts(p: Period, rows: seq<Row>) {
    && p.endNs > p.startNs && p.cadenceNs > 0
    && Trusted(p, rows)
    && Times(p, rows) != []
    && (forall i :: 0 <= i < |Points(p, Times(p, rows))| - 1 ==>
          Points(p, Times(p, rows))[i + 1] - Points(p, Times(p, rows))[i] <= 2 * p.cadenceNs)
  }

  // ---------------------------------------------------------------- growing the log by one check

  lemma TimesGrow(p: Period, rows: seq<Row>, row: Row)
    ensures Times(p, rows + [row]) == Times(p, rows) + if Inside(p, row) then [row.utcNs.value] else []
    ensures CountPassing(p, rows + [row]) == CountPassing(p, rows) + if Passing(p, row) then 1 else 0
  {
    assert (rows + [row])[..|rows|] == rows;
  }

  lemma TrustGrows(p: Period, rows: seq<Row>, row: Row)
    requires Trusted(p, rows)
    ensures Trusted(p, rows + [row]) <==>
            && row.utcNs.Some?
            && (rows != [] ==> rows[|rows| - 1].utcNs.value < row.utcNs.value)
            && (Inside(p, row) ==> Sound(p, row))
  {
    hide Sound, Inside;
    var all, n := rows + [row], |rows|;
    assert all[n] == row && forall i :: 0 <= i < n ==> all[i] == rows[i];
    if Trusted(p, all) && n > 0 {
      assert all[n - 1].utcNs.value < all[n].utcNs.value;
    }
  }

  lemma TrustedPrefix(p: Period, rows: seq<Row>, k: nat)
    requires k <= |rows|
    ensures Trusted(p, rows) ==> Trusted(p, rows[..k])
  {
    hide Sound, Inside;
  }

  lemma GapGrows(points: seq<int>, gap: int, at: int)
    requires points != [] && (if |points| == 1 then gap == 0 else IsLargestGap(points, gap))
    requires points[|points| - 1] <= at
    ensures
      var step := at - points[|points| - 1];
      IsLargestGap(points + [at], if |points| == 1 || step > gap then step else gap)
  {
    var all, n := points + [at], |points|;
    var step := at - points[n - 1];
    assert all[n] - all[n - 1] == step;
    assert forall i :: 0 <= i < n - 1 ==> all[i + 1] - all[i] == points[i + 1] - points[i];
    if n > 1 && step <= gap {
      var i :| 0 <= i < n - 1 && points[i + 1] - points[i] == gap;
      assert all[i + 1] - all[i] == gap;
    }
  }

  // ---------------------------------------------------------------- the evaluator

  /** The line numbers, counted from one, of the checks in the period that did not pass. */
  ghost predicate NamesFailures(p: Period, rows: seq<Row>, lines: seq<nat>) {
    && (forall n :: n in lines <==> 1 <= n <= |rows| && Inside(p, rows[n - 1]) && !Passing(p, rows[n - 1]))
    && (forall i, j :: 0 <= i < j < |lines| ==> lines[i] < lines[j])
  }

  lemma FailuresGrow(p: Period, rows: seq<Row>, lines: seq<nat>, row: Row)
    requires NamesFailures(p, rows, lines)
    ensures NamesFailures(p, rows + [row], if Inside(p, row) && !Passing(p, row) then lines + [|rows| + 1] else lines)
  {
    hide Inside, Passing;
    var all := rows + [row];
    assert all[|rows|] == row && forall i :: 0 <= i < |rows| ==> all[i] == rows[i];
    assert forall i :: 0 <= i < |lines| ==> lines[i] in lines;
  }

  ghost predicate ReportsTruly(p: Period, rows: seq<Row>, r: Report) {
    && r.total == |Times(p, rows)|
    && r.passed == CountPassing(p, rows)
    && r.outside == |rows| - r.total
    && r.passed + |r.failedLines| == r.total
    && NamesFailures(p, rows, r.failedLines)
    && IsLargestGap(Points(p, Times(p, rows)), r.maximumGapNs)
    && r.pass == ((r.total - r.passed) * 1000 <= r.total)
  }

  method Evaluate(rows: seq<Row>, p: Period) returns (r: Result<Report, RateError>)
    ensures r.Success? <==> Accepts(p, rows)
    ensures r.Success? ==> ReportsTruly(p, rows, r.value)
  {
    hide Trusted, Sound, Inside, IsLargestGap, Accepts, Times, CountPassing, NamesFailures, Passing;
    if p.endNs <= p.startNs || p.cadenceNs <= 0 {
      BadPeriod(p, rows);
      return Failure(InvalidPeriod);
    }
    var passed, total, outside: nat := 0, 0, 0;
    var previous: Option<int> := None;
    var last, maximumGap := p.startNs, 0;
    var failed: seq<nat> := [];
    ghost var times: seq<int> := [];
    Start(p);
    var k := 0;
    while k < |rows|
      invariant 0 <= k <= |rows| && Trusted(p, rows[..k])
      invariant times == Times(p, rows[..k]) && |times| == total
      invariant NamesFailures(p, rows[..k], failed)
      invariant passed == CountPassing(p, rows[..k]) && passed + |failed| == total && outside == k - total
      invariant previous == if k == 0 then None else rows[k - 1].utcNs
      invariant k > 0 ==> previous.Some? && last <= Max(previous.value, p.startNs)
      invariant last == ([p.startNs] + times)[|times|] && p.startNs <= last <= p.endNs
      invariant if total == 0 then maximumGap == 0 else IsLargestGap([p.startNs] + times, maximumGap)
    {
      var row := rows[k];
      assert rows[..k + 1] == rows[..k] + [row];
      TrustGrows(p, rows[..k], row);
      TimesGrow(p, rows[..k], row);
      FailuresGrow(p, rows[..k], failed, row);
      Distrusted(p, rows, k + 1);
      InsideMeans(p, row);
      if row.utcNs.None? {
        return Failure(InvalidTimestamp);
      }
      var now := row.utcNs.value;
      if previous.Some? && now <= previous.value {
        return Failure(Unordered);
      }
      previous := Some(now);
      if !(p.startNs <= now <= p.endNs) {
        outside := outside + 1;
      } else {
        var fault := Fault(p, row);
        if fault.Some? {
          return Failure(fault.value);
        }
        GapGrows([p.startNs] + times, maximumGap, now);
        assert [p.startNs] + (times + [now]) == ([p.startNs] + times) + [now];
        maximumGap := if total == 0 then now - p.startNs else Max(maximumGap, now - last);
        last := now;
        total := total + 1;
        times := times + [now];
        if row.gate.result == "PASS" {
          passed := passed + 1;
        } else {
          failed := failed + [k + 1];
        }
      }
      k := k + 1;
    }
    assert rows[..k] == rows;
    Decide(p, rows);
    if total == 0 {
      return Failure(NoEvidence);
    }
    GapGrows([p.startNs] + times, maximumGap, p.endNs);
    maximumGap := Max(maximumGap, p.endNs - last);
    assert IsLargestGap(Points(p, times), maximumGap);
    LargestGapDecides(Points(p, times), maximumGap, 2 * p.cadenceNs);
    if maximumGap > p.cadenceNs * 2 {
      return Failure(UncoveredInterval);
    }
    r := Success(Report(passed, total, outside, failed, maximumGap, passed * 1000 >= total * 999));
  }

  /** What is wrong with a check inside the period, by the first of the rules that it breaks. */
  method Fault(p: Period, row: Row) returns (fault: Option<RateError>)
    ensures fault.None? <==> Sound(p, row)
  {
    if row.configSha != p.configSha {
      return Some(ConfigurationDiffers);
    }
    if row.gate.result !in ["PASS", "BLOCK"] || row.gate.reasons.None? {
      return Some(InvalidResult);
    }
    if (row.gate.result == "PASS") != (row.gate.reasons.value == []) {
      return Some(ResultDisagrees);
    }
    if row.gate.expectedContexts != EXPECTED_CONTEXTS || |row.gate.contexts| != EXPECTED_CONTEXTS {
      return Some(ProfileDiffers);
    }
    fault := None;
  }

  function Max(a: int, b: int): int {
    if a >= b then a else b
  }

  lemma BadPeriod(p: Period, rows: seq<Row>)
    ensures Accepts(p, rows) ==> p.endNs > p.startNs && p.cadenceNs > 0
  {
  }

  lemma Start(p: Period)
    ensures NamesFailures(p, [], [])
    ensures Trusted(p, []) && Times(p, []) == [] && CountPassing(p, []) == 0
  {
  }

  lemma Distrusted(p: Period, rows: seq<Row>, k: nat)
    requires k <= |rows|
    ensures !Trusted(p, rows[..k]) ==> !Accepts(p, rows)
  {
    TrustedPrefix(p, rows, k);
    hide Trusted;
  }

  lemma InsideMeans(p: Period, row: Row)
    ensures Inside(p, row) <==> row.utcNs.Some? && p.startNs <= row.utcNs.value <= p.endNs
    ensures Passing(p, row) <==> Inside(p, row) && row.gate.reasons == Some([])
    ensures Sound(p, row) <==>
            && row.configSha == p.configSha && row.gate.reasons.Some?
            && row.gate.result in ["PASS", "BLOCK"]
            && (row.gate.result == "PASS" <==> row.gate.reasons.value == [])
            && row.gate.expectedContexts == EXPECTED_CONTEXTS && |row.gate.contexts| == EXPECTED_CONTEXTS
  {
  }

  lemma Decide(p: Period, rows: seq<Row>)
    requires p.endNs > p.startNs && p.cadenceNs > 0 && Trusted(p, rows)
    ensures Accepts(p, rows) <==> Times(p, rows) != [] && WithinGap(Points(p, Times(p, rows)), 2 * p.cadenceNs)
  {
  }

  ghost predicate WithinGap(points: seq<int>, bound: int) {
    forall i :: 0 <= i < |points| - 1 ==> points[i + 1] - points[i] <= bound
  }

  lemma LargestGapDecides(points: seq<int>, gap: int, bound: int)
    requires IsLargestGap(points, gap)
    ensures gap <= bound <==> WithinGap(points, bound)
  {
    var i :| 0 <= i < |points| - 1 && points[i + 1] - points[i] == gap;
  }

  // ---------------------------------------------------------------- main result

  /** Accepted evidence covers the period: any stretch of it longer than two cadences contains a check. */
  lemma EvidenceCoversThePeriod(p: Period, rows: seq<Row>, from: int, to: int) returns (i: nat)
    requires Accepts(p, rows)
    requires p.startNs <= from && to <= p.endNs && to - from > 2 * p.cadenceNs
    ensures i < |rows| && Inside(p, rows[i]) && from < rows[i].utcNs.value < to
  {
    var times := Times(p, rows);
    var points := Points(p, times);
    var k := 0;
    while points[k + 1] <= from
      invariant 0 <= k < |points| - 1 && points[k] <= from
      decreases |points| - k
    {
      k := k + 1;
    }
    assert points[k + 1] - points[k] <= 2 * p.cadenceNs;
    assert points[k + 1] < to;
    i := RowAt(p, rows, k);
  }

  lemma {:induction false} RowAt(p: Period, rows: seq<Row>, k: nat) returns (i: nat)
    requires k < |Times(p, rows)|
    ensures i < |rows| && Inside(p, rows[i]) && rows[i].utcNs.value == Times(p, rows)[k]
  {
    var n := |rows| - 1;
    if k < |Times(p, rows[..n])| {
      i := RowAt(p, rows[..n], k);
    } else {
      i := n;
    }
  }
}
