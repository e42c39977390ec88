/** Histogram quantiles of the three-way benchmark against the sorted-list quantiles they replace. */
module Measurements {
  // ---------------------------------------------------------------- sorted samples

  ghost predicate Ascending(s: seq<int>) {
    forall i, j :: 0 <= i < j < |s| ==> s[i] <= s[j]
  }

  function Insert(s: seq<int>, x: int): seq<int> {
    if s == [] || s[|s| - 1] <= x then s + [x] else Insert(s[..|s| - 1], x) + [s[|s| - 1]]
  }

  /** The list of samples in ascending order. */
  function Ordered(samples: seq<int>): seq<int> {
    if samples == [] then [] else Insert(Ordered(samples[..|samples| - 1]), samples[|samples| - 1])
  }

  lemma BagGrows(s: seq<int>, x: int)
    ensures multiset(s + [x]) == multiset(s) + multiset{x}
  {
  }

  lemma SwapAdds(m: multiset<int>, a: int, b: int)
    ensures m + multiset{a} + multiset{b} == m + multiset{b} + multiset{a}
  {
  }

  lemma FrontAndLast(s: seq<int>)
    requires s != []
    ensures s == s[..|s| - 1] + [s[|s| - 1]]
    ensures multiset(s) == multiset(s[..|s| - 1]) + multiset{s[|s| - 1]}
  {
  }

  lemma {:induction false} InsertKeepsAll(s: seq<int>, x: int)
    ensures multiset(Insert(s, x)) == multiset(s) + multiset{x}
  {
    if s == [] || s[|s| - 1] <= x {
      BagGrows(s, x);
    } else {
      var n := |s| - 1;
      InsertKeepsAll(s[..n], x);
      BagGrows(Insert(s[..n], x), s[n]);
      FrontAndLast(s);
      SwapAdds(multiset(s[..n]), x, s[n]);
    }
  }

  lemma {:induction false} InsertKeepsOrder(s: seq<int>, x: int)
    requires Ascending(s)
    ensures Ascending(Insert(s, x))
    ensures forall i :: 0 <= i < |Insert(s, x)| ==> Insert(s, x)[i] <= x || (s != [] && Insert(s, x)[i] <= s[|s| - 1])
  {
    if !(s == [] || s[|s| - 1] <= x) {
      InsertKeepsOrder(s[..|s| - 1], x);
    }
  }

  lemma {:induction false} OrderedKeeps(samples: seq<int>)
    ensures Ascending(Ordered(samples)) && multiset(Ordered(samples)) == multiset(samples)
    ensures |Ordered(samples)| == |samples|
  {
    if samples != [] {
      var n := |samples| - 1;
      OrderedKeeps(samples[..n]);
      InsertKeepsOrder(Ordered(samples[..n]), samples[n]);
      InsertKeepsAll(Ordered(samples[..n]), samples[n]);
      FrontAndLast(samples);
      hide Ascending, Insert;
    }
    SameSize(Ordered(samples), samples);
  }

  lemma SameSize(a: seq<int>, b: seq<int>)
    requires multiset(a) == multiset(b)
    ensures |a| == |b|
  {
    assert |a| == |multiset(a)| && |b| == |multiset(b)|;
  }

  lemma AscendingPrefix(a: seq<int>)
    requires a != [] && Ascending(a)
    ensures Ascending(a[..|a| - 1])
  {
  }

  lemma LastIsLargest(a: seq<int>, x: int)
    requires Ascending(a) && x in multiset(a)
    ensures a != [] && x <= a[|a| - 1]
  {
  }

  lemma DropLast(a: seq<int>)
    requires a != []
    ensures multiset(a) == multiset(a[..|a| - 1]) + multiset{a[|a| - 1]}
    ensures a[|a| - 1] in multiset(a)
  {
    assert a == a[..|a| - 1] + [a[|a| - 1]];
  }

  lemma Cancel(p: multiset<int>, q: multiset<int>, x: int)
    requires p + multiset{x} == q + multiset{x}
    ensures p == q
  {
    assert p == (p + multiset{x}) - multiset{x};
    assert q == (q + multiset{x}) - multiset{x};
  }

  /** There is only one way to put a multiset in ascending order. */
  lemma {:induction false} AscendingIsUnique(a: seq<int>, b: seq<int>)
    requires Ascending(a) && Ascending(b) && multiset(a) == multiset(b)
    ensures a == b
    decreases |a|
  {
    hide Ascending;
    SameSize(a, b);
    if a != [] {
      var n := |a| - 1;
      AscendingPrefix(a);
      AscendingPrefix(b);
      DropLast(a);
      DropLast(b);
      LastIsLargest(a, b[n]);
      LastIsLargest(b, a[n]);
      Cancel(multiset(a[..n]), multiset(b[..n]), a[n]);
      AscendingIsUnique(a[..n], b[..n]);
      assert a == a[..n] + [a[n]] && b == b[..n] + [b[n]];
    }
  }

  // ---------------------------------------------------------------- the histogram scan

  function Repeat(v: int, n: nat): (s: seq<int>)
    ensures |s| == n && multiset(s) == multiset{}[v := n]
    ensures forall i :: 0 <= i < n ==> s[i] == v
  {
    if n == 0 then []
    else
      assert multiset(Repeat(v, n - 1) + [v]) == multiset(Repeat(v, n - 1)) + multiset{v};
      Repeat(v, n - 1) + [v]
  }

  method Least(keys: set<int>) returns (v: int)
    requires keys != {}
    ensures v in keys && forall w :: w in keys ==> v <= w
  {
    InhabitedSet(keys);
    v :| v in keys;
    var rest := keys - {v};
    while rest != {}
      invariant rest <= keys && v in keys
      invariant forall w :: w in keys ==> v <= w || w in rest
      decreases rest
    {
      InhabitedSet(rest);
      var w :| w in rest;
      rest := rest - {w};
      if w < v {
        v := w;
      }
    }
  }

  /** The part of the histogram already walked, spelled out, and the part still ahead. */
  ghost predicate Walked(counts: multiset<int>, below: seq<int>, rest: multiset<int>) {
    && Ascending(below)
    && multiset(below) + rest == counts
    && (forall i, v :: 0 <= i < |below| && v in rest ==> below[i] < v)
  }

  lemma WalkOn(counts: multiset<int>, below: seq<int>, rest: multiset<int>, v: int)
    requires Walked(counts, below, rest) && v in rest && forall w :: w in rest ==> v <= w
    ensures rest[v] == counts[v]
    ensures Walked(counts, below + Repeat(v, counts[v]), rest[v := 0])
  {
    hide Repeat, Ascending;
    var more := Repeat(v, counts[v]);
    NotYetWalked(counts, below, rest, v);
    MoveOver(multiset(below), rest, v, multiset(more));
    OrderKept(below, more, v);
    BothBags(below, more);
    var grown, left := below + more, rest[v := 0];
    forall i, w | 0 <= i < |grown| && w in left ensures grown[i] < w {
      assert w in rest && w != v;
    }
  }

  lemma BothBags(a: seq<int>, b: seq<int>)
    ensures multiset(a + b) == multiset(a) + multiset(b)
  {
  }

  lemma NotYetWalked(counts: multiset<int>, below: seq<int>, rest: multiset<int>, v: int)
    requires Walked(counts, below, rest) && v in rest
    ensures rest[v] == counts[v]
  {
    assert v !in multiset(below);
  }

  lemma OrderKept(below: seq<int>, more: seq<int>, v: int)
    requires Ascending(below) && forall i :: 0 <= i < |below| ==> below[i] < v
    requires forall i :: 0 <= i < |more| ==> more[i] == v
    ensures Ascending(below + more)
    ensures forall i :: 0 <= i < |below + more| ==> (below + more)[i] <= v
  {
  }

  lemma MoveOver(below: multiset<int>, rest: multiset<int>, v: int, more: multiset<int>)
    requires more == multiset{}[v := rest[v]]
    ensures (below + more) + rest[v := 0] == below + rest
  {
  }

  lemma InhabitedSet(keys: set<int>)
    ensures keys == {} || exists v :: v in keys
  {
    if forall v :: v !in keys {
      assert keys == {};
    }
  }

  lemma InhabitedMultiset(m: multiset<int>)
    ensures m == multiset{} || exists v :: v in m
  {
    if forall v :: v !in m {
      assert m == multiset{};
    }
  }

  /** Walks the histogram in ascending order to the first value whose running count exceeds `rank`. */
  method Quantile(counts: multiset<int>, rank: nat) returns (value: int)
    requires rank < |counts|
    ensures forall s: seq<int> :: Ascending(s) && multiset(s) == counts ==> value == s[rank]
  {
    hide Walked, Ascending;
    var keys := set v | v in counts;
    var accumulated: nat := 0;
    ghost var below: seq<int> := [];
    ghost var rest := counts;
    NothingWalked(counts);
    while true
      invariant accumulated == |below| <= rank
      invariant Walked(counts, below, rest)
      invariant forall v :: v in keys <==> v in rest
      decreases keys
    {
      SomethingAhead(counts, below, rest, rank);
      var v := Least(keys);
      WalkOn(counts, below, rest, v);
      keys := keys - {v};
      accumulated := accumulated + counts[v];
      below, rest := below + Repeat(v, counts[v]), rest[v := 0];
      if accumulated > rank {
        forall s: seq<int> | Ascending(s) && multiset(s) == counts
          ensures v == s[rank]
        {
          PrefixOfSorted(s, counts, below, rest);
        }
        return v;
      }
    }
  }

  lemma NothingWalked(counts: multiset<int>)
    ensures Walked(counts, [], counts)
  {
  }

  lemma SomethingAhead(counts: multiset<int>, below: seq<int>, rest: multiset<int>, rank: nat)
    requires Walked(counts, below, rest) && |below| <= rank < |counts|
    ensures exists v :: v in rest
  {
    assert |multiset(below)| == |below|;
    assert |rest| > 0;
    InhabitedMultiset(rest);
  }

  /** An ascending list of the samples starts with what has been walked. */
  lemma PrefixOfSorted(s: seq<int>, counts: multiset<int>, below: seq<int>, rest: multiset<int>)
    requires Ascending(s) && multiset(s) == counts && Walked(counts, below, rest)
    ensures |below| <= |s| && below == s[..|below|]
  {
    var tail := InOrder(rest);
    var all := below + tail;
    forall i, j | 0 <= i < j < |all| ensures all[i] <= all[j] {
      if i < |below| <= j {
        assert tail[j - |below|] in multiset(tail);
      }
    }
    AscendingIsUnique(s, all);
  }

  lemma {:induction false} InOrder(m: multiset<int>) returns (s: seq<int>)
    ensures Ascending(s) && multiset(s) == m
    decreases |m|
  {
    if forall x :: x !in m {
      assert m == multiset{};
      s := [];
    } else {
      var x :| x in m;
      var shorter := InOrder(m - multiset{x});
      InsertKeepsOrder(shorter, x);
      InsertKeepsAll(shorter, x);
      s := Insert(shorter, x);
    }
  }

  // ---------------------------------------------------------------- histogram against list

  datatype Distribution = Distribution(count: nat, p50: int, p95: int, p99: int, max: int, total: int)

  /** Index that both distributions read for a percentage, on exact arithmetic. */
  function Rank(n: nat, pct: nat): (k: nat)
    requires n > 0 && pct < 100
    ensures k < n
  {
    (n - 1) * pct / 100
  }

  function Total(samples: seq<int>): int {
    if samples == [] then 0 else Total(samples[..|samples| - 1]) + samples[|samples| - 1]
  }

  function Largest(samples: seq<int>): (x: int)
    requires samples != []
    ensures x in samples && forall y :: y in samples ==> y <= x
  {
    var n := |samples| - 1;
    assert samples == samples[..n] + [samples[n]];
    if n == 0 || Largest(samples[..n]) <= samples[n] then samples[n] else Largest(samples[..n])
  }

  /** The list form: sort everything, then index; largest and sum of the list as it is. */
  function ListDistribution(samples: seq<int>): Distribution {
    OrderedKeeps(samples);
    var n := |samples|;
    if n == 0 then Distribution(0, 0, 0, 0, 0, 0)
    else Distribution(n, Ordered(samples)[Rank(n, 50)], Ordered(samples)[Rank(n, 95)], Ordered(samples)[Rank(n, 99)],
                      Largest(samples), Total(samples))
  }

  // ---------------------------------------------------------------- what the distribution says

  /** Samples below a value. */
  function Below(samples: seq<int>, v: int): nat {
    if samples == [] then 0
    else Below(samples[..|samples| - 1], v) + if samples[|samples| - 1] < v then 1 else 0
  }

  /** Samples up to and including a value. */
  function UpTo(samples: seq<int>, v: int): nat {
    Below(samples, v + 1)
  }

  /** A percentage of the gaps between samples, in hundredths. */
  function Gaps(n: nat, pct: nat): int {
    (n - 1) * pct
  }

  /** At most that share of the gaps between samples lies below the value, and more than that share up to it. */
  predicate IsQuantile(samples: seq<int>, pct: nat, v: int) {
    && v in samples
    && 100 * Below(samples, v) <= Gaps(|samples|, pct) < 100 * UpTo(samples, v)
  }

  lemma {:induction false} InsertedBelow(s: seq<int>, x: int, v: int)
    ensures Below(Insert(s, x), v) == Below(s, v) + if x < v then 1 else 0
  {
    if s == [] || s[|s| - 1] <= x {
      assert (s + [x])[..|s|] == s;
    } else {
      var n := |s| - 1;
      InsertedBelow(s[..n], x, v);
      assert (Insert(s[..n], x) + [s[n]])[..|Insert(s[..n], x)|] == Insert(s[..n], x);
    }
  }

  lemma {:induction false} OrderedBelow(samples: seq<int>, v: int)
    ensures Below(Ordered(samples), v) == Below(samples, v)
  {
    if samples != [] {
      var n := |samples| - 1;
      OrderedBelow(samples[..n], v);
      InsertedBelow(Ordered(samples[..n]), samples[n], v);
    }
  }

  lemma {:induction false} BelowAscending(s: seq<int>, k: nat, v: int)
    requires Ascending(s) && k <= |s|
    ensures k < |s| && v <= s[k] ==> Below(s, v) <= k
    ensures k > 0 && s[k - 1] < v ==> Below(s, v) >= k
    ensures Below(s, v) <= |s|
  {
    if s != [] {
      var n := |s| - 1;
      BelowAscending(s[..n], if k <= n then k else n, v);
    }
  }

  /** The distribution counts the samples, and each of its percentiles is one. */
  lemma DistributionMeans(samples: seq<int>)
    requires samples != []
    ensures
      var d := ListDistribution(samples);
      && d.count == |samples|
      && IsQuantile(samples, 50, d.p50) && IsQuantile(samples, 95, d.p95) && IsQuantile(samples, 99, d.p99)
      && d.max in samples && (forall x :: x in samples ==> x <= d.max)
  {
    RankIsQuantile(samples, 50);
    RankIsQuantile(samples, 95);
    RankIsQuantile(samples, 99);
  }

  lemma RankIsQuantile(samples: seq<int>, pct: nat)
    requires samples != [] && pct < 100
    ensures |Ordered(samples)| == |samples|
    ensures IsQuantile(samples, pct, Ordered(samples)[Rank(|samples|, pct)])
  {
    hide *;
    OrderedKeeps(samples);
    var s, k := Ordered(samples), Rank(|samples|, pct);
    RankBounds(|samples|, pct);
    AroundRank(s, k);
    assert s[k] in multiset(s) && s[k] in multiset(samples);
    OrderedBelow(samples, s[k]);
    OrderedBelow(samples, s[k] + 1);
    QuantileFrom(samples, pct, s[k], k);
  }

  lemma QuantileFrom(samples: seq<int>, pct: nat, v: int, k: nat)
    requires v in samples && Below(samples, v) <= k < Below(samples, v + 1)
    requires 100 * k <= Gaps(|samples|, pct) < 100 * (k + 1)
    ensures IsQuantile(samples, pct, v)
  {
    hide Below;
  }

  lemma AroundRank(s: seq<int>, k: nat)
    requires Ascending(s) && k < |s|
    ensures Below(s, s[k]) <= k < Below(s, s[k] + 1)
  {
    hide Below;
    BelowAscending(s, k, s[k]);
    BelowAscending(s, k + 1, s[k] + 1);
  }

  lemma RankBounds(n: nat, pct: nat)
    requires n > 0 && pct < 100
    ensures 100 * Rank(n, pct) <= Gaps(n, pct) < 100 * (Rank(n, pct) + 1)
  {
  }

  // ---------------------------------------------------------------- sums over the histogram

  ghost function BagTotal(m: multiset<int>): int
    decreases |m|
  {
    if m == multiset{} then 0
    else
      var v := PickOne(m);
      v + BagTotal(m - multiset{v})
  }

  ghost function PickOne(m: multiset<int>): (v: int)
    requires m != multiset{}
    ensures v in m
  {
    InhabitedMultiset(m);
    var v :| v in m;
    v
  }

  lemma {:induction false} BagTotalTakesOut(m: multiset<int>, v: int)
    requires v in m
    ensures BagTotal(m) == v + BagTotal(m - multiset{v})
    decreases |m|
  {
    var w := PickOne(m);
    if w != v {
      BagTotalTakesOut(m - multiset{w}, v);
      BagTotalTakesOut(m - multiset{v}, w);
      assert m - multiset{w} - multiset{v} == m - multiset{v} - multiset{w};
    }
  }

  /** The sum of a list is the sum of its bag. */
  lemma {:induction false} TotalOfBag(samples: seq<int>)
    ensures Total(samples) == BagTotal(multiset(samples))
  {
    if samples != [] {
      var n := |samples| - 1;
      TotalOfBag(samples[..n]);
      FrontAndLast(samples);
      BagTotalTakesOut(multiset(samples), samples[n]);
      hide BagTotal;
      assert multiset(samples) - multiset{samples[n]} == multiset(samples[..n]);
    }
  }

  /** All copies of a value together weigh the value times its count. */
  lemma {:induction false} BagTotalDropsValue(m: multiset<int>, v: int)
    ensures BagTotal(m) == v * m[v] + BagTotal(m[v := 0])
    decreases m[v]
  {
    if v in m {
      var less := m - multiset{v};
      BagTotalTakesOut(m, v);
      BagTotalDropsValue(less, v);
      hide BagTotal;
      assert less[v := 0] == m[v := 0];
      assert v * m[v] == v * (m[v] - 1) + v;
    } else {
      assert m[v := 0] == m;
    }
  }

  method WeightedSum(counts: multiset<int>) returns (total: int)
    ensures total == BagTotal(counts)
  {
    var keys := set v | v in counts;
    ghost var rest := counts;
    total := 0;
    while keys != {}
      invariant forall v :: v in keys <==> v in rest
      invariant forall v :: v in keys ==> rest[v] == counts[v]
      invariant total + BagTotal(rest) == BagTotal(counts)
      decreases keys
    {
      InhabitedSet(keys);
      var v :| v in keys;
      BagTotalDropsValue(rest, v);
      total := total + v * counts[v];
      keys, rest := keys - {v}, rest[v := 0];
    }
    InhabitedMultiset(rest);
  }

  method LargestKey(counts: multiset<int>) returns (x: int)
    requires counts != multiset{}
    ensures x in counts && forall y :: y in counts ==> y <= x
  {
    InhabitedMultiset(counts);
    x :| x in counts;
    var rest := (set v | v in counts) - {x};
    while rest != {}
      invariant x in counts && forall v :: v in rest ==> v in counts
      invariant forall y :: y in counts ==> y <= x || y in rest
      decreases rest
    {
      InhabitedSet(rest);
      var v :| v in rest;
      rest := rest - {v};
      if v > x {
        x := v;
      }
    }
  }

  /** The histogram form gives the list form's answer for every list with that histogram. */
  method HistogramDistribution(counts: multiset<int>) returns (d: Distribution)
    ensures forall samples: seq<int> :: multiset(samples) == counts ==> d == ListDistribution(samples)
  {
    hide BagTotal, Total, Largest, Ordered, Ascending;
    var n := |counts|;
    if n == 0 {
      d := Distribution(0, 0, 0, 0, 0, 0);
      forall samples: seq<int> | multiset(samples) == counts ensures d == ListDistribution(samples) {
        assert |samples| == |multiset(samples)|;
      }
    } else {
      var p50 := Quantile(counts, Rank(n, 50));
      var p95 := Quantile(counts, Rank(n, 95));
      var p99 := Quantile(counts, Rank(n, 99));
      var largest := LargestKey(counts);
      var total := WeightedSum(counts);
      d := Distribution(n, p50, p95, p99, largest, total);
      forall samples: seq<int> | multiset(samples) == counts ensures d == ListDistribution(samples) {
        assert |samples| == |multiset(samples)|;
        OrderedKeeps(samples);
        TotalOfBag(samples);
        LargestInBag(samples, largest);
      }
    }
  }

  lemma LargestInBag(samples: seq<int>, x: int)
    requires samples != [] && x in multiset(samples) && forall y :: y in multiset(samples) ==> y <= x
    ensures Largest(samples) == x
  {
    var y := Largest(samples);
    assert y in samples && y in multiset(samples);
    assert x in samples;
    assert x <= y <= x;
  }

  function Concat(minutes: seq<seq<int>>): seq<int> {
    if minutes == [] then [] else Concat(minutes[..|minutes| - 1]) + minutes[|minutes| - 1]
  }

  function Merged(minutes: seq<seq<int>>): multiset<int> {
    if minutes == [] then multiset{} else Merged(minutes[..|minutes| - 1]) + multiset(minutes[|minutes| - 1])
  }

  /** Per-minute histograms added up are the histogram of the whole run, so the quantiles agree too. */
  lemma {:induction false} MergedHistogramIsWhole(minutes: seq<seq<int>>)
    ensures Merged(minutes) == multiset(Concat(minutes))
  {
    if minutes != [] {
      MergedHistogramIsWhole(minutes[..|minutes| - 1]);
    }
  }

  function Map(f: int -> int, s: seq<int>): seq<int> {
    if s == [] then [] else Map(f, s[..|s| - 1]) + [f(s[|s| - 1])]
  }

  /** Quantizing the samples with a monotone rounding quantizes every order statistic and changes no rank. */
  lemma QuantizationCommutes(f: int -> int, samples: seq<int>)
    requires forall x, y :: x <= y ==> f(x) <= f(y)
    ensures Ordered(Map(f, samples)) == Map(f, Ordered(samples))
  {
    OrderedKeeps(samples);
    OrderedKeeps(Map(f, samples));
    OrderedImage(f, samples);
    MapAscends(f, Ordered(samples));
    AscendingIsUnique(Ordered(Map(f, samples)), Map(f, Ordered(samples)));
  }

  lemma {:induction false} MapAscends(f: int -> int, s: seq<int>)
    requires (forall x, y :: x <= y ==> f(x) <= f(y)) && Ascending(s)
    ensures Ascending(Map(f, s)) && |Map(f, s)| == |s|
    ensures s != [] ==> Map(f, s)[|s| - 1] == f(s[|s| - 1])
  {
    if |s| > 1 {
      MapAscends(f, s[..|s| - 1]);
    }
  }

  lemma MapGrows(f: int -> int, s: seq<int>, x: int)
    ensures Map(f, s + [x]) == Map(f, s) + [f(x)]
  {
    assert (s + [x])[..|s|] == s;
  }

  lemma {:induction false} InsertedImage(f: int -> int, s: seq<int>, x: int)
    ensures multiset(Map(f, Insert(s, x))) == multiset(Map(f, s)) + multiset{f(x)}
  {
    if s == [] || s[|s| - 1] <= x {
      MapGrows(f, s, x);
      BagGrows(Map(f, s), f(x));
    } else {
      var n := |s| - 1;
      InsertedImage(f, s[..n], x);
      MapGrows(f, Insert(s[..n], x), s[n]);
      MapGrows(f, s[..n], s[n]);
      FrontAndLast(s);
      assert Insert(s, x) == Insert(s[..n], x) + [s[n]];
      hide Map, Insert;
      BagGrows(Map(f, Insert(s[..n], x)), f(s[n]));
      BagGrows(Map(f, s[..n]), f(s[n]));
      SwapAdds(multiset(Map(f, s[..n])), f(x), f(s[n]));
    }
  }

  lemma {:induction false} OrderedImage(f: int -> int, samples: seq<int>)
    ensures multiset(Map(f, Ordered(samples))) == multiset(Map(f, samples))
  {
    if samples != [] {
      var n := |samples| - 1;
      OrderedImage(f, samples[..n]);
      InsertedImage(f, Ordered(samples[..n]), samples[n]);
      FrontAndLast(samples);
      MapGrows(f, samples[..n], samples[n]);
      BagGrows(Map(f, samples[..n]), f(samples[n]));
      assert Ordered(samples) == Insert(Ordered(samples[..n]), samples[n]);
      hide Map, Ordered, Insert;
    }
  }
}
