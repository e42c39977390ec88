/** Kline bar boundaries of the synthetic feed: `bar_bounds` and the bar arithmetic inside `frame_at`. */
module Bars {
  const EPOCH_MS := 1_767_571_200_000  // 2026-01-05 00:00 UTC, a Monday
  const DAY_MS := 86_400_000
  const HOUR_MS := 3_600_000

  /** An interval of fixed length: whole seconds, and whether it counts weeks. */
  datatype Interval = Interval(seconds: int, weekly: bool) {
    predicate Valid() {
      seconds > 0
    }

    function PeriodMs(): int {
      seconds * 1000
    }
  }

  datatype Bounds = Bounds(openMs: int, closeMs: int)

  /** First and last millisecond of the bar with the given ordinal around the epoch. */
  function BarBounds(interval: Interval, ordinal: int, utc8: bool): Bounds
    requires interval.Valid()
  {
    var offset := if utc8 then 8 * HOUR_MS else 0;
    var anchor := if interval.weekly then 4 * DAY_MS else 0;
    var period := interval.PeriodMs();
    var openMs := ((EPOCH_MS + offset - anchor) / period + ordinal) * period + anchor - offset;
    Bounds(openMs, openMs + period - 1)
  }

  /** Bar fields of one frame: open time, close time, and whether the frame closes its bar. */
  datatype Frame = Frame(openMs: int, closeMs: int, closed: bool)

  function Now(tick: int): int {
    EPOCH_MS + (tick + 1) * 1000
  }

  function FrameAt(interval: Interval, tick: int, utc8: bool): Frame
    requires interval.Valid()
  {
    var bounds := BarBounds(interval, 0, utc8);
    BarAt(bounds.openMs, bounds.closeMs - bounds.openMs + 1, Now(tick))
  }

  function BarAt(first: int, period: int, now: int): Frame
    requires period > 0
  {
    var boundary := now > first && (now - first) % period == 0;
    var openMs := first + ((now - first - if boundary then 1 else 0) / period) * period;
    Frame(openMs, openMs + period - 1, boundary)
  }

  // ---------------------------------------------------------------- whole multiples

  lemma Quotient(x: int, period: int, q: int)
    requires period > 0 && q * period <= x < (q + 1) * period
    ensures x / period == q
  {
    var d := x / period;
    assert x == d * period + x % period;
    if d < q {
      Product(d + 1, q, period);
    } else if d > q {
      Product(q + 1, d, period);
    }
  }

  lemma Product(a: int, b: int, period: int)
    requires a <= b && period > 0
    ensures a * period <= b * period
  {
  }

  /** Each moment after the first open lies in exactly one bar, counted from the first. */
  lemma BarIndex(first: int, period: int, now: int) returns (j: int)
    requires period > 0 && now > first
    ensures j >= 0 && first + j * period < now <= first + (j + 1) * period
    ensures BarAt(first, period, now) == Frame(first + j * period, first + (j + 1) * period - 1,
                                               now == first + (j + 1) * period)
  {
    var x := now - first;
    j := (x - 1) / period;
    assert x - 1 == j * period + (x - 1) % period;
    assert (j + 1) * period == j * period + period;
    if x == (j + 1) * period {
      Remainder(j + 1, period);
      Quotient(x - 1, period, j);
    } else {
      Quotient(x, period, j);
      assert x == j * period + x % period;
      assert x % period != 0;
    }
  }

  lemma Remainder(q: int, period: int)
    requires period > 0
    ensures (q * period) % period == 0
  {
    var x := q * period;
    assert (q + 1) * period == x + period;
    Quotient(x, period, q);
    assert x == (x / period) * period + x % period;
  }

  lemma FloorFacts(x: int, period: int)
    requires period > 0
    ensures (x / period) * period <= x < (x / period + 1) * period
  {
    assert x == (x / period) * period + x % period;
    assert (x / period + 1) * period == (x / period) * period + period;
  }

  /** The first bar opens at or before the epoch, less than a period earlier. */
  lemma FirstBarHoldsEpoch(interval: Interval, utc8: bool)
    requires interval.Valid()
    ensures
      var b := BarBounds(interval, 0, utc8);
      && b.openMs <= EPOCH_MS < b.openMs + interval.PeriodMs()
      && b.closeMs - b.openMs + 1 == interval.PeriodMs()
  {
    var offset := if utc8 then 8 * HOUR_MS else 0;
    var anchor := if interval.weekly then 4 * DAY_MS else 0;
    FloorFacts(EPOCH_MS + offset - anchor, interval.PeriodMs());
  }

  /** Bars of fixed length lie on multiples of their period, by UTC or by UTC+8; weekly ones open on Mondays. */
  lemma BarsAreAligned(interval: Interval, ordinal: int, utc8: bool)
    requires interval.Valid()
    ensures
      var openMs := BarBounds(interval, ordinal, utc8).openMs + if utc8 then 28_800_000 else 0;
      && (!interval.weekly ==> openMs % interval.PeriodMs() == 0)
      && (interval.weekly && interval.seconds == 604_800 ==> (openMs - EPOCH_MS) % 604_800_000 == 0)
  {
    var offset := if utc8 then 8 * HOUR_MS else 0;
    var anchor := if interval.weekly then 4 * DAY_MS else 0;
    var q := (EPOCH_MS + offset - anchor) / interval.PeriodMs() + ordinal;
    Remainder(q, interval.PeriodMs());
  }

  /** Bars of consecutive ordinals abut: each opens one millisecond after the one before it closes. */
  lemma BarsAbut(interval: Interval, ordinal: int, utc8: bool)
    requires interval.Valid()
    ensures BarBounds(interval, ordinal + 1, utc8).openMs == BarBounds(interval, ordinal, utc8).closeMs + 1
  {
    var offset := if utc8 then 8 * HOUR_MS else 0;
    var anchor := if interval.weekly then 4 * DAY_MS else 0;
    var q := (EPOCH_MS + offset - anchor) / interval.PeriodMs();
    assert (q + (ordinal + 1)) * interval.PeriodMs() == (q + ordinal) * interval.PeriodMs() + interval.PeriodMs();
  }

  // ---------------------------------------------------------------- main results

  /** Every tick falls in one bar, open on the left and closed on the right, and closes it exactly at its end. */
  lemma TickInOneBar(interval: Interval, tick: nat, utc8: bool)
    requires interval.Valid()
    ensures
      var f := FrameAt(interval, tick, utc8);
      && f.openMs < Now(tick) <= f.openMs + interval.PeriodMs()
      && f.closeMs == f.openMs + interval.PeriodMs() - 1
      && (f.closed <==> Now(tick) == f.openMs + interval.PeriodMs())
  {
    FirstBarHoldsEpoch(interval, utc8);
    var j := BarIndex(BarBounds(interval, 0, utc8).openMs, interval.PeriodMs(), Now(tick));
    assert (j + 1) * interval.PeriodMs() == j * interval.PeriodMs() + interval.PeriodMs();
  }

  /** No hole and no overlap: the next tick stays in the bar, or, after a closing frame only, opens the adjacent one. */
  lemma NextTick(interval: Interval, tick: nat, utc8: bool)
    requires interval.Valid()
    ensures
      var f, g := FrameAt(interval, tick, utc8), FrameAt(interval, tick + 1, utc8);
      g.openMs == if f.closed then f.closeMs + 1 else f.openMs
  {
    FirstBarHoldsEpoch(interval, utc8);
    var first, period := BarBounds(interval, 0, utc8).openMs, interval.PeriodMs();
    hide BarAt, BarBounds;
    var j := BarIndex(first, period, Now(tick));
    WholeSeconds(interval, utc8, j);
    NextBar(first, period, j, Now(tick));
  }

  /** A second later the clock is in the same bar, or, from the end of a bar, in the next one. */
  lemma NextBar(first: int, period: int, j: int, now: int)
    requires period >= 1000 && now > first && j >= 0
    requires first + j * period < now <= first + (j + 1) * period
    requires now == first + (j + 1) * period || now + 1000 <= first + (j + 1) * period
    ensures BarAt(first, period, now + 1000).openMs ==
            if now == first + (j + 1) * period then first + (j + 1) * period else first + j * period
  {
    hide BarAt;
    var k := BarIndex(first, period, now + 1000);
    Successor(j, period);
    Successor(j + 1, period);
    SameIndex(first, period, now + 1000, if now == first + (j + 1) * period then j + 1 else j, k);
  }

  lemma Successor(j: int, period: int)
    ensures (j + 1) * period == j * period + period
  {
  }

  lemma SameIndex(first: int, period: int, now: int, j: int, k: int)
    requires period > 0
    requires first + j * period < now <= first + (j + 1) * period
    requires first + k * period < now <= first + (k + 1) * period
    ensures j == k
  {
    if k > j {
      Product(j + 1, k, period);
    } else if k < j {
      Product(k + 1, j, period);
    }
  }

  /** Bar ends lie on whole seconds of the feed's clock. */
  lemma WholeSeconds(interval: Interval, utc8: bool, j: int)
    requires interval.Valid()
    ensures
      var end := BarBounds(interval, 0, utc8).openMs + (j + 1) * interval.PeriodMs();
      (end - EPOCH_MS) % 1000 == 0
  {
    var offset := if utc8 then 8 * HOUR_MS else 0;
    var anchor := if interval.weekly then 4 * DAY_MS else 0;
    var q := (EPOCH_MS + offset - anchor) / interval.PeriodMs();
    var s := interval.seconds;
    FirstOpen(interval, utc8, q);
    Regroup(q, s);
    Regroup(j + 1, s);
    hide BarBounds;
    WholeSum(q * s, (j + 1) * s, anchor, offset);
  }

  lemma FirstOpen(interval: Interval, utc8: bool, q: int)
    requires interval.Valid()
    requires
      var offset, anchor := if utc8 then 8 * HOUR_MS else 0, if interval.weekly then 4 * DAY_MS else 0;
      q == (EPOCH_MS + offset - anchor) / interval.PeriodMs()
    ensures
      var offset, anchor := if utc8 then 8 * HOUR_MS else 0, if interval.weekly then 4 * DAY_MS else 0;
      BarBounds(interval, 0, utc8).openMs == q * (interval.seconds * 1000) + anchor - offset
  {
    assert q + 0 == q;
  }

  lemma WholeSum(a: int, b: int, anchor: int, offset: int)
    requires anchor % 1000 == 0 && offset % 1000 == 0
    ensures (a * 1000 + anchor - offset + b * 1000 - EPOCH_MS) % 1000 == 0
  {
  }

  lemma Regroup(q: int, s: int)
    ensures q * (s * 1000) == (q * s) * 1000
  {
  }

  /** Each bar that ends inside a run of `ticks` ticks gets exactly one closing frame, the one at its end. */
  lemma OneClosingFrame(interval: Interval, ticks: nat, utc8: bool, j: int) returns (tick: nat)
    requires interval.Valid()
    requires
      var end := BarBounds(interval, 0, utc8).openMs + (j + 1) * interval.PeriodMs();
      EPOCH_MS < end <= EPOCH_MS + ticks * 1000
    ensures
      var openMs := BarBounds(interval, 0, utc8).openMs + j * interval.PeriodMs();
      && tick < ticks
      && FrameAt(interval, tick, utc8) == Frame(openMs, openMs + interval.PeriodMs() - 1, true)
      && (forall t: nat :: t < ticks && FrameAt(interval, t, utc8).openMs == openMs && FrameAt(interval, t, utc8).closed
                           ==> t == tick)
  {
    var first, period := BarBounds(interval, 0, utc8).openMs, interval.PeriodMs();
    var end := first + (j + 1) * period;
    FirstBarHoldsEpoch(interval, utc8);
    WholeSeconds(interval, utc8, j);
    tick := (end - EPOCH_MS) / 1000 - 1;
    assert Now(tick) == end;
    var k := BarIndex(first, period, end);
    assert (j + 1) * period == j * period + period;
    SameIndex(first, period, end, j, k);
    forall t: nat
      | t < ticks && FrameAt(interval, t, utc8).openMs == first + j * period && FrameAt(interval, t, utc8).closed
      ensures t == tick
    {
      TickInOneBar(interval, t, utc8);
    }
  }

  /** The frame withheld at tick 119 is the close of exactly the minute bar that the backfill check expects. */
  lemma WithheldCloseIsBackfilled()
    ensures FrameAt(Interval(60, false), 119, false) == Frame(EPOCH_MS + 60_000, EPOCH_MS + 119_999, true)
  {
    var minute := Interval(60, false);
    assert BarBounds(minute, 0, false).openMs == EPOCH_MS by {
      assert EPOCH_MS == 29_459_520 * 60_000;
      Quotient(EPOCH_MS, 60_000, 29_459_520);
    }
    FirstBarHoldsEpoch(minute, false);
    var j := BarIndex(EPOCH_MS, 60_000, Now(119));
    hide BarBounds, BarAt;
    SameIndex(EPOCH_MS, 60_000, Now(119), j, 1);
  }
}
