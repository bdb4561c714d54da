/** Latency figures: nearest-rank percentiles, the tail and the fixed-bound histogram.

    A percentile is specified by counting, without any order on the samples: fewer than `k` samples
    are smaller, and at least `k` are not larger. */
module Latency {
  import opened Sorting

  function Count(values: seq<int>, p: int -> bool): nat {
    if values == [] then 0 else Count(values[1..], p) + if p(values[0]) then 1 else 0
  }

  function Below(v: int): int -> bool { x => x < v }
  function AtMost(v: int): int -> bool { x => x <= v }
  function AtLeast(v: int): int -> bool { x => x >= v }
  function Within(lo: int, hi: int): int -> bool { x => lo <= x < hi }

  /** `v` is the `k`-th smallest sample. */
  ghost predicate IsKthSmallest(values: seq<int>, k: int, v: int) {
    v in values && Count(values, Below(v)) < k <= Count(values, AtMost(v))
  }

  // ---------- Counting in a sorted copy ----------

  /** The sorted copy: in order, with the same samples. */
  lemma SortFacts(values: seq<int>)
    ensures var s := Sort(values, Ascending());
      && |s| == |values| && (forall i, j :: 0 <= i <= j < |s| ==> s[i] <= s[j]) && forall x :: x in s <==> x in values
  {
    var s := Sort(values, Ascending());
    SortIsSorted(values, Ascending());
    forall i, j | 0 <= i <= j < |s| ensures s[i] <= s[j] {
      assert Ascending()(s[i], s[j]);
    }
  }

  lemma {:induction false} InsertCount(x: int, s: seq<int>, p: int -> bool)
    ensures Count(Insert(x, s, Ascending()), p) == Count(s, p) + if p(x) then 1 else 0
  {
    if s == [] || x <= s[0] {
      assert ([x] + s)[1..] == s;
    } else {
      var rest := Insert(x, s[1..], Ascending());
      InsertCount(x, s[1..], p);
      assert ([s[0]] + rest)[1..] == rest;
    }
  }

  /** Sorting changes no count. */
  lemma {:induction false} SortCount(values: seq<int>, p: int -> bool)
    ensures Count(Sort(values, Ascending()), p) == Count(values, p)
  {
    if values != [] {
      SortCount(values[1..], p);
      InsertCount(values[0], Sort(values[1..], Ascending()), p);
    }
  }

  lemma {:induction false} CountConcat(a: seq<int>, b: seq<int>, p: int -> bool)
    ensures Count(a + b, p) == Count(a, p) + Count(b, p)
  {
    if a == [] {
      assert a + b == b;
    } else {
      assert (a + b)[1..] == a[1..] + b;
      CountConcat(a[1..], b, p);
    }
  }

  lemma {:induction false} CountAllOrNone(values: seq<int>, p: int -> bool)
    ensures (forall i :: 0 <= i < |values| ==> p(values[i])) ==> Count(values, p) == |values|
    ensures (forall i :: 0 <= i < |values| ==> !p(values[i])) ==> Count(values, p) == 0
    ensures Count(values, p) <= |values|
  {
    if values != [] { CountAllOrNone(values[1..], p); }
  }

  lemma {:induction false} SomeCounted(values: seq<int>, i: nat, p: int -> bool)
    requires i < |values| && p(values[i])
    ensures Count(values, p) > 0
  {
    if i > 0 { SomeCounted(values[1..], i - 1, p); }
  }

  lemma CountAround(values: seq<int>, k: nat, p: int -> bool)
    requires k <= |values|
    ensures (forall i :: k <= i < |values| ==> !p(values[i])) ==> Count(values, p) <= k
    ensures (forall i :: 0 <= i < k ==> p(values[i])) ==> k <= Count(values, p)
  {
    assert values == values[..k] + values[k..];
    CountConcat(values[..k], values[k..], p);
    CountAllOrNone(values[..k], p);
    CountAllOrNone(values[k..], p);
  }

  /** In a sorted list the entry at index `k` is the `k + 1`-st smallest. */
  lemma SortedRank(s: seq<int>, k: nat)
    requires (forall i, j :: 0 <= i <= j < |s| ==> s[i] <= s[j]) && k < |s|
    ensures Count(s, Below(s[k])) <= k && k + 1 <= Count(s, AtMost(s[k]))
  {
    CountAround(s, k, Below(s[k]));
    CountAround(s, k + 1, AtMost(s[k]));
  }

  lemma {:induction false} CountMonotone(values: seq<int>, p: int -> bool, q: int -> bool)
    requires forall x :: p(x) ==> q(x)
    ensures Count(values, p) <= Count(values, q)
  {
    if values != [] { CountMonotone(values[1..], p, q); }
  }

  /** A higher rank is a larger sample, so a rank has one sample. */
  lemma RanksAreOrdered(values: seq<int>, j: int, k: int, u: int, v: int)
    requires IsKthSmallest(values, j, u) && IsKthSmallest(values, k, v) && j <= k
    ensures u <= v
  {
    if v < u {
      CountMonotone(values, AtMost(v), Below(u));
    }
  }

  // ---------- Nearest rank ----------

  function Ceiling(x: real): int { -((-x).Floor) }

  /** The rank the code computes for the fraction `q` of `n` samples, before it is clamped. */
  function RawRank(n: nat, q: real): int { (n as real * q + 0.999999).Floor }

  function Clamp(rank: int, n: nat): int
    requires n > 0
  {
    if rank < 1 then 1 else if rank > n then n else rank
  }

  /** Adding 0.999999 and cutting off rounds up exactly when the fractional part is zero or at least 0.000001. */
  lemma RoundsUpExactly(x: real)
    ensures (x + 0.999999).Floor == Ceiling(x) <==> x == x.Floor as real || x - x.Floor as real >= 0.000001
  {
    if x == x.Floor as real {
      assert -x == (-(x.Floor)) as real;
      assert (-x).Floor == -(x.Floor);
      assert (x + 0.999999).Floor == x.Floor;
    } else {
      assert (-x).Floor == -(x.Floor) - 1;
    }
  }

  /** For whole percentages it is the exact ceiling, in integers. */
  lemma PercentRankIsCeiling(n: nat, k: nat)
    ensures RawRank(n, k as real / 100.0) == (n * k + 99) / 100 == Ceiling(n as real * (k as real / 100.0))
  {
    var m := n * k;
    var x := n as real * (k as real / 100.0);
    assert x == m as real / 100.0;
    var w, f := m / 100, m % 100;
    assert m as real / 100.0 == w as real + f as real / 100.0;
    assert x.Floor == w;
    RoundsUpExactly(x);
    if f == 0 {
      assert (m + 99) / 100 == w;
    } else {
      assert (m + 99) / 100 == w + 1;
      assert Ceiling(x) == w + 1;
    }
  }

  /** The sample at the nearest rank; no samples give 0. */
  method Percentile(values: seq<int>, q: real) returns (r: int)
    ensures values == [] ==> r == 0
    ensures values != [] ==> IsKthSmallest(values, Clamp(RawRank(|values|, q), |values|), r)
  {
    if |values| == 0 {
      return 0;
    }
    var sorted := Sort(values, Ascending());
    SortFacts(values);
    var idx := (|sorted| as real * q + 0.999999).Floor - 1;
    if idx < 0 {
      idx := 0;
    }
    if idx >= |sorted| {
      idx := |sorted| - 1;
    }
    r := sorted[idx];
    SortedRank(sorted, idx);
    SortCount(values, Below(r));
    SortCount(values, AtMost(r));
  }

  datatype Quantiles = Quantiles(samples: nat, min: int, max: int, p50: int, p90: int, p95: int, p99: int)

  /** The `k`-th percentile by nearest rank. */
  ghost predicate IsPercentile(values: seq<int>, k: nat, v: int) {
    IsKthSmallest(values, (|values| * k + 99) / 100, v)
  }

  lemma {:induction false} MoreTimes(n: nat, j: nat, k: nat)
    requires j <= k
    ensures n * j <= n * k
  {
    if n > 0 {
      MoreTimes(n - 1, j, k);
    }
  }

  lemma WholePercent(n: nat, k: nat, q: real)
    requires 0 < n && 0 < k <= 100 && q == k as real / 100.0
    ensures Clamp(RawRank(n, q), n) == (n * k + 99) / 100
  {
    PercentRankIsCeiling(n, k);
    MoreTimes(n, 1, k);
    MoreTimes(n, k, 100);
    InRange(n, n * k, RawRank(n, q));
  }

  lemma InRange(n: nat, m: nat, rank: int)
    requires 0 < n <= m <= 100 * n && rank == (m + 99) / 100
    ensures Clamp(rank, n) == rank
  {
  }

  lemma PercentilesInOrder(values: seq<int>, j: nat, k: nat, u: int, v: int)
    requires j <= k && IsPercentile(values, j, u) && IsPercentile(values, k, v)
    ensures u <= v
  {
    MoreTimes(|values|, j, k);
    RankInOrder(|values| * j, |values| * k);
    RanksAreOrdered(values, (|values| * j + 99) / 100, (|values| * k + 99) / 100, u, v);
  }

  lemma RankInOrder(x: nat, y: nat)
    requires x <= y
    ensures (x + 99) / 100 <= (y + 99) / 100
  {
  }

  method MinAndMax(values: seq<int>) returns (min: int, max: int)
    requires values != []
    ensures min in values && max in values && forall v :: v in values ==> min <= v <= max
  {
    min := Percentile(values, 0.0);
    assert RawRank(|values|, 0.0) == 0;
    FirstIsLeast(values, min);
    var sorted := Sort(values, Ascending());
    SortFacts(values);
    max := sorted[|values| - 1];
    forall v | v in values ensures v <= max {
      var i :| 0 <= i < |values| && sorted[i] == v;
    }
  }

  /** Every figure is the sample at its exact rank, and they come in order. */
  method QuantilesOf(values: seq<int>) returns (out: Quantiles)
    ensures out.samples == |values|
    ensures values == [] ==> out == Quantiles(0, 0, 0, 0, 0, 0, 0)
    ensures values != [] ==>
      && out.min in values && out.max in values && (forall v :: v in values ==> out.min <= v <= out.max)
      && IsPercentile(values, 50, out.p50) && IsPercentile(values, 90, out.p90)
      && IsPercentile(values, 95, out.p95) && IsPercentile(values, 99, out.p99)
    ensures out.min <= out.p50 <= out.p90 <= out.p95 <= out.p99 <= out.max
  {
    if |values| == 0 {
      return Quantiles(0, 0, 0, 0, 0, 0, 0);
    }
    var n := |values|;
    var min, max := MinAndMax(values);
    WholePercent(n, 50, 0.50);
    var p50 := Percentile(values, 0.50);
    WholePercent(n, 90, 0.90);
    var p90 := Percentile(values, 0.90);
    WholePercent(n, 95, 0.95);
    var p95 := Percentile(values, 0.95);
    WholePercent(n, 99, 0.99);
    var p99 := Percentile(values, 0.99);
    PercentilesInOrder(values, 50, 90, p50, p90);
    PercentilesInOrder(values, 90, 95, p90, p95);
    PercentilesInOrder(values, 95, 99, p95, p99);
    out := Quantiles(n, min, max, p50, p90, p95, p99);
  }

  lemma FirstIsLeast(values: seq<int>, v: int)
    requires IsKthSmallest(values, 1, v)
    ensures forall x :: x in values ==> v <= x
  {
    forall i | 0 <= i < |values| ensures v <= values[i] {
      if values[i] < v { SomeCounted(values, i, Below(v)); }
    }
  }

  // ---------- Counts are numbers of positions ----------

  ghost function Positions(values: seq<int>, p: int -> bool): set<int> {
    set i | 0 <= i < |values| && p(values[i])
  }

  lemma {:induction false} CountIsPositions(values: seq<int>, n: nat, p: int -> bool)
    requires n <= |values|
    ensures Count(values[..n], p) == |Positions(values[..n], p)|
  {
    if n == 0 {
      assert Positions(values[..0], p) == {};
    } else {
      CountIsPositions(values, n - 1, p);
      assert values[..n] == values[..n - 1] + [values[n - 1]];
      CountSnoc(values[..n - 1], values[n - 1], p);
      var before, now := Positions(values[..n - 1], p), Positions(values[..n], p);
      assert now == before + if p(values[n - 1]) then {n - 1} else {};
    }
  }

  /** How many samples lie from `lo` on, and how many below `hi`. */
  lemma CountsInFull(values: seq<int>, lo: int, hi: int)
    ensures Count(values, AtLeast(lo)) == |set i | 0 <= i < |values| && values[i] >= lo|
    ensures Count(values, Below(hi)) == |set i | 0 <= i < |values| && values[i] < hi|
    ensures Count(values, AtMost(hi)) == |set i | 0 <= i < |values| && values[i] <= hi|
    ensures Count(values, Within(lo, hi)) == |set i | 0 <= i < |values| && lo <= values[i] < hi|
  {
    assert values[..|values|] == values;
    CountIsPositions(values, |values|, AtLeast(lo));
    CountIsPositions(values, |values|, Below(hi));
    CountIsPositions(values, |values|, AtMost(hi));
    CountIsPositions(values, |values|, Within(lo, hi));
    assert Positions(values, AtLeast(lo)) == set i | 0 <= i < |values| && values[i] >= lo;
    assert Positions(values, Below(hi)) == set i | 0 <= i < |values| && values[i] < hi;
    assert Positions(values, AtMost(hi)) == set i | 0 <= i < |values| && values[i] <= hi;
    assert Positions(values, Within(lo, hi)) == set i | 0 <= i < |values| && lo <= values[i] < hi;
  }

  /** A bucket holds what is below its upper bound and not below the one before it. */
  lemma BucketInFull(values: seq<int>, b: nat)
    requires b <= |BOUNDS|
    ensures b == 0 ==> Count(values, InBucket(b)) == |set i | 0 <= i < |values| && values[i] < BOUNDS[0]|
    ensures b == |BOUNDS| ==> Count(values, InBucket(b)) == |set i | 0 <= i < |values| && values[i] >= BOUNDS[b - 1]|
    ensures 0 < b < |BOUNDS| ==>
      Count(values, InBucket(b)) == |set i | 0 <= i < |values| && BOUNDS[b - 1] <= values[i] < BOUNDS[b]|
  {
    var lo, hi := if b > 0 then BOUNDS[b - 1] else 0, if b < |BOUNDS| then BOUNDS[b] else 0;
    CountsInFull(values, lo, hi);
  }

  // ---------- Tail and histogram ----------

  /** A percentage; an empty base gives 0. */
  function Ratio(numerator: int, denominator: int): (r: real)
    ensures denominator > 0 ==> r * denominator as real == 100.0 * numerator as real
    ensures denominator <= 0 ==> r == 0.0
  {
    if denominator <= 0 then 0.0 else numerator as real * 100.0 / denominator as real
  }

  datatype Tail = Tail(threshold: int, slow: int, ratio: real, overOneMinute: int)

  lemma CountSnoc(values: seq<int>, x: int, p: int -> bool)
    ensures Count(values + [x], p) == Count(values, p) + if p(x) then 1 else 0
  {
    CountConcat(values, [x], p);
    assert [x][1..] == [];
  }

  method TailOf(values: seq<int>, threshold: int) returns (tail: Tail)
    ensures tail.threshold == threshold
    ensures tail.slow == Count(values, AtLeast(threshold)) && tail.overOneMinute == Count(values, AtLeast(60000))
    ensures tail.ratio == Ratio(tail.slow, |values|)
  {
    var slow, over := 0, 0;
    for i := 0 to |values|
      invariant slow == Count(values[..i], AtLeast(threshold)) && over == Count(values[..i], AtLeast(60000))
    {
      assert values[..i + 1] == values[..i] + [values[i]];
      CountSnoc(values[..i], values[i], AtLeast(threshold));
      CountSnoc(values[..i], values[i], AtLeast(60000));
      if values[i] >= threshold {
        slow := slow + 1;
      }
      if values[i] >= 60000 {
        over := over + 1;
      }
    }
    assert values[..|values|] == values;
    return Tail(threshold, slow, Ratio(slow, |values|), over);
  }

  /** Upper bounds of the buckets but the last, in milliseconds. */
  const BOUNDS: seq<int> := [500, 1000, 2000, 3000, 5000, 10000, 20000, 30000, 60000]

  /** What belongs into bucket `b`: at or above the bound before it and below its own. */
  function InBucket(b: nat): int -> bool
    requires b <= |BOUNDS|
  {
    if b == 0 then Below(BOUNDS[0]) else if b == |BOUNDS| then AtLeast(BOUNDS[b - 1])
      else Within(BOUNDS[b - 1], BOUNDS[b])
  }

  /** Every sample lies in exactly one bucket. */
  lemma OneBucket(v: int, b: nat)
    requires b <= |BOUNDS|
    requires forall k :: 0 <= k < b ==> v >= BOUNDS[k]
    requires b < |BOUNDS| ==> v < BOUNDS[b]
    ensures forall k: nat :: k <= |BOUNDS| ==> (InBucket(k)(v) <==> k == b)
  {
  }

  /** All buckets are there, the empty ones too, and each counts the samples between its bounds. */
  method HistogramOf(values: seq<int>) returns (counts: array<int>, ratios: seq<real>)
    ensures fresh(counts) && counts.Length == |BOUNDS| + 1 == |ratios|
    ensures forall b: nat :: b <= |BOUNDS| ==> counts[b] == Count(values, InBucket(b))
    ensures forall b: nat :: b <= |BOUNDS| ==> ratios[b] == Ratio(counts[b], |values|)
  {
    counts := new int[|BOUNDS| + 1](_ => 0);
    for i := 0 to |values|
      invariant forall b: nat :: b <= |BOUNDS| ==> counts[b] == Count(values[..i], InBucket(b))
    {
      var value := values[i];
      assert values[..i + 1] == values[..i] + [value];
      var b := 0;
      while b < |BOUNDS| && value >= BOUNDS[b]
        invariant 0 <= b <= |BOUNDS| && forall k :: 0 <= k < b ==> value >= BOUNDS[k]
      {
        b := b + 1;
      }
      OneBucket(value, b);
      forall k: nat | k <= |BOUNDS|
        ensures Count(values[..i + 1], InBucket(k)) == Count(values[..i], InBucket(k)) + if k == b then 1 else 0
      {
        CountSnoc(values[..i], value, InBucket(k));
      }
      counts[b] := counts[b] + 1;
    }
    assert values[..|values|] == values;
    ratios := seq(|BOUNDS| + 1, b requires 0 <= b <= |BOUNDS| reads counts => Ratio(counts[b], |values|));
  }

  /** Samples counted in the first `n` buckets. */
  function InFirst(values: seq<int>, n: nat): nat
    requires n <= |BOUNDS| + 1
  {
    if n == 0 then 0 else InFirst(values, n - 1) + Count(values, InBucket(n - 1))
  }

  lemma {:induction false} CountSplit(values: seq<int>, p: int -> bool, q: int -> bool, r: int -> bool)
    requires forall x :: p(x) <==> q(x) || r(x)
    requires forall x :: !(q(x) && r(x))
    ensures Count(values, p) == Count(values, q) + Count(values, r)
  {
    if values != [] { CountSplit(values[1..], p, q, r); }
  }

  lemma {:induction false} FirstBucketsAreBelow(values: seq<int>, n: nat)
    requires 0 < n <= |BOUNDS|
    ensures InFirst(values, n) == Count(values, Below(BOUNDS[n - 1]))
  {
    if n == 1 {
      assert InFirst(values, 0) == 0;
    } else {
      FirstBucketsAreBelow(values, n - 1);
      CountSplit(values, Below(BOUNDS[n - 1]), Below(BOUNDS[n - 2]), InBucket(n - 1));
    }
  }

  function Any(): int -> bool { _ => true }

  /** No sample is lost or counted twice. */
  lemma BucketsCountEverySample(values: seq<int>)
    ensures InFirst(values, |BOUNDS| + 1) == |values|
  {
    FirstBucketsAreBelow(values, |BOUNDS|);
    CountSplit(values, Any(), Below(60000), AtLeast(60000));
    CountAllOrNone(values, Any());
  }

  /** The last bucket is the number of requests over one minute, and the last two together are the
      slow ones of the duration tail. */
  lemma HistogramAgreesWithTail(values: seq<int>)
    ensures Count(values, InBucket(|BOUNDS|)) == Count(values, AtLeast(60000))
    ensures Count(values, InBucket(|BOUNDS| - 1)) + Count(values, InBucket(|BOUNDS|)) == Count(values, AtLeast(30000))
  {
    CountSplit(values, AtLeast(30000), Within(30000, 60000), AtLeast(60000));
  }
}
