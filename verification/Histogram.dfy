/**
  The runtime statistics of src/lib/analytics-helpers.ts over exact reals:
  `runtimeDistribution` counts, `bucketIndexFor` looks up, `computePercentile` ranks.
 */
module Histograms {
  import opened Wrappers
  import opened Quotients
  import opened Sums

  datatype Bucket = Bucket(min: real, max: real, bucket: nat, count: nat)

  /** The number of buckets asked for, rounded down, but at least one. */
  function SafeBuckets(buckets: real): (n: nat)
    ensures n >= 1
    ensures if buckets < 1.0 then n == 1 else n as real <= buckets < n as real + 1.0
  {
    if buckets.Floor < 1 then 1 else buckets.Floor
  }

  predicate IsRuntime(r: Num) {
    r.Finite? && r.x >= 0.0
  }

  /** The finite, non-negative runtimes. */
  function Runtimes(runtimes: seq<Num>): (v: seq<real>)
    ensures forall x | x in v :: x >= 0.0
  {
    if runtimes == [] then []
    else (if IsRuntime(runtimes[0]) then [runtimes[0].x] else []) + Runtimes(runtimes[1..])
  }

  /** The valid runtimes are the finite, non-negative numbers, each as often as it occurs. */
  lemma {:induction false} RuntimesMeaning(runtimes: seq<Num>, x: real)
    ensures multiset(Runtimes(runtimes))[x] == if x >= 0.0 then multiset(runtimes)[Finite(x)] else 0
  {
    if runtimes != [] {
      RuntimesMeaning(runtimes[1..], x);
      assert runtimes == [runtimes[0]] + runtimes[1..];
      if !IsRuntime(runtimes[0]) {
        assert [] + Runtimes(runtimes[1..]) == Runtimes(runtimes[1..]);
      }
    }
  }

  function Least(s: seq<real>): (m: real)
    requires s != []
    ensures m in s && forall x | x in s :: m <= x
  {
    if |s| == 1 then s[0]
    else
      var rest := Least(s[1..]);
      assert s == [s[0]] + s[1..];
      if s[0] < rest then s[0] else rest
  }

  function Greatest(s: seq<real>): (m: real)
    requires s != []
    ensures m in s && forall x | x in s :: x <= m
  {
    if |s| == 1 then s[0]
    else
      var rest := Greatest(s[1..]);
      assert s == [s[0]] + s[1..];
      if s[0] > rest then s[0] else rest
  }

  function Clamped(k: int, n: nat): (i: nat)
    requires n >= 1
    ensures i < n
  {
    if k >= n then n - 1 else if k < 0 then 0 else k
  }

  /** The bucket a runtime is counted in. */
  function CountedIn(r: real, min: real, width: real, n: nat): nat
    requires width > 0.0 && n >= 1
  {
    Clamped(((r - min) / width).Floor, n)
  }

  function InBucketNo(i: nat, min: real, width: real, n: nat): real -> nat
    requires width > 0.0 && n >= 1
  {
    (r: real) => if CountedIn(r, min, width, n) == i then 1 else 0
  }

  /** The stated bounds of bucket `i`: the upper one counts only for the last bucket. */
  predicate Covers(dist: seq<Bucket>, i: nat, r: real)
    requires i < |dist|
  {
    r >= dist[i].min && if i == |dist| - 1 then r <= dist[i].max else r < dist[i].max
  }

  function Covered(dist: seq<Bucket>, i: nat): real -> nat
    requires i < |dist|
  {
    (r: real) => if Covers(dist, i, r) then 1 else 0
  }

  function Counts(): Bucket -> nat { (b: Bucket) => b.count }

  /** Buckets numbered from 0 that tile the range of the runtimes. */
  predicate Tiles(dist: seq<Bucket>, min: real, max: real) {
    && |dist| >= 1
    && dist[0].min == min && dist[|dist| - 1].max == max
    && (forall i :: 0 <= i < |dist| ==> dist[i].bucket == i)
    && (forall i :: 0 <= i < |dist| - 1 ==> dist[i].max == dist[i + 1].min)
  }

  /** The bucket list computed for a non-degenerate range, `n` steps of `width`. */
  predicate IsHistogram(dist: seq<Bucket>, valid: seq<real>, width: real, n: nat) {
    n >= 1 && valid != [] && width > 0.0 && width * n as real == Greatest(valid) - Least(valid)
    && |dist| == n
    && forall i :: 0 <= i < n ==> dist[i] == BucketNo(valid, width, n, i)
  }

  function BucketNo(valid: seq<real>, width: real, n: nat, i: nat): Bucket
    requires n >= 1 && valid != [] && width > 0.0
  {
    BucketAt(Least(valid), Greatest(valid), width, n, i, Sum(valid, InBucketNo(i, Least(valid), width, n)))
  }

  function Edge(min: real, width: real, i: int): real {
    min + width * i as real
  }

  function BucketAt(min: real, max: real, width: real, n: nat, i: nat, count: nat): Bucket {
    Bucket(Edge(min, width, i), if i == n - 1 then max else Edge(min, width, i + 1), i, count)
  }

  function Width(valid: seq<real>, n: nat): (w: real)
    requires n >= 1 && valid != []
    ensures w * n as real == Greatest(valid) - Least(valid)
    ensures Least(valid) < Greatest(valid) ==> w > 0.0
  {
    var w := (Greatest(valid) - Least(valid)) / n as real;
    QuotientPositive(Greatest(valid) - Least(valid), n as real, w);
    w
  }

  lemma QuotientPositive(x: real, n: real, q: real)
    requires n > 0.0 && q == x / n
    ensures q * n == x
    ensures x > 0.0 ==> q > 0.0
  {
  }

  /** What the source promises in each of its three cases. */
  predicate IsDistribution(dist: seq<Bucket>, valid: seq<real>, n: nat)
    requires n >= 1
  {
    if valid == [] then
      |dist| == n && forall i :: 0 <= i < n ==> dist[i] == Bucket(0.0, 0.0, i, 0)
    else if Least(valid) == Greatest(valid) then
      |dist| == n && forall i :: 0 <= i < n ==>
        dist[i] == Bucket(Least(valid), Greatest(valid), i, if i == 0 then |valid| else 0)
    else
      IsHistogram(dist, valid, Width(valid, n), n)
  }

  method RuntimeDistribution(runtimes: seq<Num>, buckets: real) returns (dist: seq<Bucket>)
    ensures IsDistribution(dist, Runtimes(runtimes), SafeBuckets(buckets))
  {
    var valid := Runtimes(runtimes);
    dist := Distribute(valid, SafeBuckets(buckets));
  }

  method Distribute(valid: seq<real>, n: nat) returns (dist: seq<Bucket>)
    requires n >= 1
    ensures IsDistribution(dist, valid, n)
  {
    if valid == [] {
      return seq(n, i requires 0 <= i < n => Bucket(0.0, 0.0, i, 0));
    }
    var min, max := Least(valid), Greatest(valid);
    if min == max {
      return seq(n, i requires 0 <= i < n => Bucket(min, max, i, if i == 0 then |valid| else 0));
    }
    dist := SpreadRuntimes(valid, n);
  }

  method SpreadRuntimes(valid: seq<real>, n: nat) returns (dist: seq<Bucket>)
    requires n >= 1 && valid != [] && Least(valid) < Greatest(valid)
    ensures IsHistogram(dist, valid, Width(valid, n), n)
  {
    var min, max, width := Least(valid), Greatest(valid), Width(valid, n);
    var counts := CountRuntimes(valid, min, width, n);
    dist := seq(n, i requires 0 <= i < n => BucketAt(min, max, width, n, i, counts[i]));
    assert forall i :: 0 <= i < n ==> dist[i] == BucketNo(valid, width, n, i);
  }

  /** The counting loop over a fresh array. */
  method CountRuntimes(valid: seq<real>, min: real, width: real, n: nat) returns (result: seq<nat>)
    requires width > 0.0 && n >= 1
    ensures |result| == n
    ensures forall i :: 0 <= i < n ==> result[i] == Sum(valid, InBucketNo(i, min, width, n))
  {
    var counts := new nat[n](_ => 0);
    for k := 0 to |valid|
      invariant forall i :: 0 <= i < n ==> counts[i] == Sum(valid[..k], InBucketNo(i, min, width, n))
    {
      var r := valid[k];
      assert valid[..k + 1] == valid[..k] + [r];
      forall i | 0 <= i < n
        ensures Sum(valid[..k + 1], InBucketNo(i, min, width, n))
             == Sum(valid[..k], InBucketNo(i, min, width, n)) + InBucketNo(i, min, width, n)(r)
      {
        SumPush(valid[..k], r, InBucketNo(i, min, width, n));
      }
      var idx := ((r - min) / width).Floor;
      if idx >= n {
        idx := n - 1;
      }
      if idx < 0 {
        idx := 0;
      }
      counts[idx] := counts[idx] + 1;
    }
    assert valid[..|valid|] == valid;
    result := counts[..];
  }

  /** The first bucket whose bounds contain the runtime, or -1. */
  method BucketIndexFor(runtime: Num, dist: seq<Bucket>) returns (idx: int)
    ensures -1 <= idx < |dist|
    ensures idx >= 0 ==> IsRuntime(runtime) && Covers(dist, idx, runtime.x)
                         && forall j :: 0 <= j < idx ==> !Covers(dist, j, runtime.x)
    ensures idx == -1 ==> !IsRuntime(runtime) || forall j :: 0 <= j < |dist| ==> !Covers(dist, j, runtime.x)
  {
    if !IsRuntime(runtime) || dist == [] {
      return -1;
    }
    for i := 0 to |dist|
      invariant forall j :: 0 <= j < i ==> !Covers(dist, j, runtime.x)
    {
      var b := dist[i];
      var isLast := i == |dist| - 1;
      if runtime.x >= b.min && (if isLast then runtime.x <= b.max else runtime.x < b.max) {
        return i;
      }
    }
    idx := -1;
  }

  // ---- agreement ----

  lemma PositiveProduct(w: real, d: real)
    requires w > 0.0 && d > 0.0
    ensures w * d > 0.0
  {
  }

  /** Multiplying by a positive number keeps the order. */
  lemma MulOrder(w: real, a: real, b: real)
    requires w > 0.0
    ensures a < b <==> w * a < w * b
  {
    assert w * (b - a) == w * b - w * a;
    if a < b {
      PositiveProduct(w, b - a);
    } else if b < a {
      PositiveProduct(w, a - b);
      assert w * (a - b) == w * a - w * b;
    }
  }

  lemma Distributes(w: real, a: real)
    ensures w * (a + 1.0) == w * a + w
  {
  }

  ghost predicate Increasing(e: int -> real) {
    forall a, b :: a < b ==> e(a) < e(b)
  }

  /** Locating a point between increasing edges; the last of `n` steps also takes the end point. */
  lemma ClampedByEdges(e: int -> real, x: real, k: int, n: nat, i: nat)
    requires Increasing(e) && n >= 1 && i < n
    requires e(0) <= x <= e(n) && e(k) <= x < e(k + 1)
    ensures i == Clamped(k, n) <==> (if i == n - 1 then e(i) <= x else e(i) <= x < e(i + 1))
  {
    assert k < -1 ==> e(k + 1) < e(0);
    assert k > n ==> e(n) < e(k);
    assert k > i + 1 ==> e(i + 1) < e(k);
    assert i > k + 1 ==> e(k + 1) < e(i);
  }

  lemma EdgeOrder(min: real, w: real, a: int, b: int)
    requires w > 0.0 && a < b
    ensures Edge(min, w, a) < Edge(min, w, b)
  {
    MulOrder(w, a as real, b as real);
  }

  lemma EdgeZero(min: real, w: real)
    ensures Edge(min, w, 0) == min
  {
    assert w * 0 as real == 0.0;
  }

  lemma EdgeNext(min: real, w: real, i: int)
    ensures Edge(min, w, i + 1) == Edge(min, w, i) + w
  {
    assert (i + 1) as real == i as real + 1.0;
    Distributes(w, i as real);
  }

  /** Within a step of the quotient, the point lies between the edges of that step. */
  lemma StepBetween(y: real, w: real, a: real)
    requires w > 0.0 && a <= y / w < a + 1.0
    ensures w * a <= y < w * a + w
  {
    QuotientAtLeast(y, w, a);
    QuotientBelow(y, w, a + 1.0);
    Distributes(w, a);
  }

  /** The floor of the quotient is the number of the step that contains the point. */
  lemma EdgesAround(min: real, x: real, w: real)
    requires w > 0.0
    ensures var k := ((x - min) / w).Floor; Edge(min, w, k) <= x < Edge(min, w, k + 1)
  {
    var k := ((x - min) / w).Floor;
    StepBetween(x - min, w, k as real);
    EdgeNext(min, w, k);
  }

  lemma ClampedStep(min: real, x: real, w: real, n: nat, i: nat)
    requires w > 0.0 && n >= 1 && min <= x <= Edge(min, w, n) && i < n
    ensures i == Clamped(((x - min) / w).Floor, n)
       <==> (if i == n - 1 then Edge(min, w, i) <= x else Edge(min, w, i) <= x < Edge(min, w, i + 1))
  {
    var e := (j: int) => Edge(min, w, j);
    forall a: int, b: int | a < b ensures e(a) < e(b) {
      EdgeOrder(min, w, a, b);
    }
    EdgeZero(min, w);
    EdgesAround(min, x, w);
    ClampedByEdges(e, x, ((x - min) / w).Floor, n, i);
  }

  /** A runtime of the range lies within the bounds of exactly the bucket it is counted in. */
  lemma CoversIffCounted(dist: seq<Bucket>, valid: seq<real>, w: real, n: nat, i: nat, r: real)
    requires IsHistogram(dist, valid, w, n) && i < n && r in valid
    ensures Covers(dist, i, r) <==> i == CountedIn(r, Least(valid), w, n)
  {
    assert dist[i] == BucketNo(valid, w, n, i);
    ClampedStep(Least(valid), r, w, n, i);
  }

  /**
    For every runtime the lookup finds the bucket it was counted in, and each count is the number
    of runtimes within the stated bounds.
   */
  lemma LookupAgrees(dist: seq<Bucket>, valid: seq<real>, w: real, n: nat, r: real, idx: int)
    requires IsHistogram(dist, valid, w, n) && r in valid
    requires -1 <= idx < n
    requires idx >= 0 ==> Covers(dist, idx, r)
    requires idx == -1 ==> forall j :: 0 <= j < n ==> !Covers(dist, j, r)
    ensures idx == CountedIn(r, Least(valid), w, n)
    ensures forall i :: 0 <= i < n ==> dist[i].count == Sum(valid, Covered(dist, i))
  {
    CoversIffCounted(dist, valid, w, n, CountedIn(r, Least(valid), w, n), r);
    if idx >= 0 {
      CoversIffCounted(dist, valid, w, n, idx, r);
    }
    forall i | 0 <= i < n ensures dist[i].count == Sum(valid, Covered(dist, i)) {
      forall x | x in valid ensures InBucketNo(i, Least(valid), w, n)(x) == Covered(dist, i)(x) {
        CoversIffCounted(dist, valid, w, n, i, x);
      }
      SumEqual(valid, InBucketNo(i, Least(valid), w, n), Covered(dist, i));
      assert dist[i] == BucketNo(valid, w, n, i);
    }
  }

  lemma HistogramTiles(dist: seq<Bucket>, valid: seq<real>, w: real, n: nat)
    requires IsHistogram(dist, valid, w, n)
    ensures Tiles(dist, Least(valid), Greatest(valid))
  {
    EdgeZero(Least(valid), w);
    assert dist[0] == BucketNo(valid, w, n, 0);
    forall i | 0 <= i < n - 1 ensures dist[i].max == dist[i + 1].min {
      assert dist[i] == BucketNo(valid, w, n, i) && dist[i + 1] == BucketNo(valid, w, n, i + 1);
    }
  }

  /** 1 on the runtimes counted in one of the first `m` buckets. */
  function BeforeBucket(m: nat, min: real, w: real, n: nat): real -> nat
    requires w > 0.0 && n >= 1
  {
    (r: real) => if CountedIn(r, min, w, n) < m then 1 else 0
  }

  /** Each count is the number of runtimes counted in that bucket. */
  predicate CountsExact(dist: seq<Bucket>, valid: seq<real>, min: real, w: real, n: nat) {
    n >= 1 && w > 0.0 && |dist| == n && forall i :: 0 <= i < n ==> dist[i].count == Sum(valid, InBucketNo(i, min, w, n))
  }

  lemma HistogramCounts(dist: seq<Bucket>, valid: seq<real>, w: real, n: nat)
    requires IsHistogram(dist, valid, w, n)
    ensures CountsExact(dist, valid, Least(valid), w, n)
  {
    assert forall i :: 0 <= i < n ==> dist[i] == BucketNo(valid, w, n, i);
  }

  lemma {:induction false} PrefixCounts(dist: seq<Bucket>, valid: seq<real>, min: real, w: real, n: nat, m: nat)
    requires CountsExact(dist, valid, min, w, n) && m <= n
    ensures Sum(dist[..m], Counts()) == Sum(valid, BeforeBucket(m, min, w, n))
    decreases m
  {
    if m == 0 {
      SumZero(valid, BeforeBucket(0, min, w, n));
    } else {
      PrefixCounts(dist, valid, min, w, n, m - 1);
      assert dist[..m] == dist[..m - 1] + [dist[m - 1]];
      SumPush(dist[..m - 1], dist[m - 1], Counts());
      SumPlus(valid, BeforeBucket(m - 1, min, w, n), InBucketNo(m - 1, min, w, n), BeforeBucket(m, min, w, n));
    }
  }

  lemma AllCounted(dist: seq<Bucket>, valid: seq<real>, min: real, w: real, n: nat)
    requires CountsExact(dist, valid, min, w, n)
    ensures Sum(dist, Counts()) == |valid|
  {
    PrefixCounts(dist, valid, min, w, n, n);
    assert dist[..n] == dist;
    SumOnes(valid, BeforeBucket(n, min, w, n));
  }

  /** The counts add up to the number of valid runtimes. */
  lemma CountsAddUp(dist: seq<Bucket>, valid: seq<real>, w: real, n: nat)
    requires IsHistogram(dist, valid, w, n)
    ensures Sum(dist, Counts()) == |valid|
  {
    HistogramCounts(dist, valid, w, n);
    AllCounted(dist, valid, Least(valid), w, n);
  }

  // ---- percentiles ----

  function SlowerThan(r: real): real -> nat { (x: real) => if x > r then 1 else 0 }

  /** The runtimes a runtime of `r` beats. */
  function Beaten(valid: seq<real>, r: real): nat { Sum(valid, SlowerThan(r)) }

  function PercentileOf(beaten: nat, total: nat): real
    requires total > 0
  {
    Round((beaten as real / total as real) * 100.0 * 10.0) as real / 10.0
  }

  method ComputePercentile(runtime: Num, allRuntimes: seq<Num>) returns (p: real)
    ensures var valid := Runtimes(allRuntimes);
            p == if !IsRuntime(runtime) || valid == [] then 0.0 else PercentileOf(Beaten(valid, runtime.x), |valid|)
  {
    if allRuntimes == [] || !IsRuntime(runtime) {
      return 0.0;
    }
    var beaten, total := 0, 0;
    for i := 0 to |allRuntimes|
      invariant total + |Runtimes(allRuntimes[i..])| == |Runtimes(allRuntimes)|
      invariant beaten + Beaten(Runtimes(allRuntimes[i..]), runtime.x) == Beaten(Runtimes(allRuntimes), runtime.x)
    {
      var r := allRuntimes[i];
      RuntimesFrom(allRuntimes, i, runtime.x);
      if !IsRuntime(r) { continue; }
      total := total + 1;
      if r.x > runtime.x {
        beaten := beaten + 1;
      }
    }
    if total == 0 {
      return 0.0;
    }
    p := PercentileOf(beaten, total);
  }

  lemma RuntimesFrom(all: seq<Num>, i: nat, x: real)
    requires i < |all|
    ensures var rest := Runtimes(all[i + 1..]);
            && |Runtimes(all[i..])| == |rest| + (if IsRuntime(all[i]) then 1 else 0)
            && Beaten(Runtimes(all[i..]), x) == Beaten(rest, x) + if IsRuntime(all[i]) && all[i].x > x then 1 else 0
  {
    assert all[i..][1..] == all[i + 1..];
    var rest := Runtimes(all[i + 1..]);
    if IsRuntime(all[i]) {
      assert ([all[i].x] + rest)[1..] == rest;
    } else {
      assert [] + rest == rest;
    }
  }

  lemma RoundMonotone(a: nat, b: nat, total: nat)
    requires a <= b && total > 0
    ensures PercentileOf(a, total) <= PercentileOf(b, total)
  {
    assert a as real / total as real <= b as real / total as real;
  }

  lemma PercentileEnds(total: nat)
    requires total > 0
    ensures PercentileOf(0, total) == 0.0 && PercentileOf(total, total) == 100.0
  {
    var t := total as real;
    assert 0.0 / t == 0.0 && t / t == 1.0;
    assert Round(0.0) == 0 && Round(1000.0) == 1000;
  }

  /** The percentage of runtimes beaten, to one decimal. */
  lemma PercentileMeaning(beaten: nat, total: nat) returns (tenths: int)
    requires total > 0
    ensures var p := PercentileOf(beaten, total); var exact := beaten as real / total as real * 100.0;
            p * 10.0 == tenths as real && p - 0.05 <= exact < p + 0.05
  {
    tenths := Round((beaten as real / total as real) * 100.0 * 10.0);
  }

  lemma {:induction false} BeatenAtMost(valid: seq<real>, r: real)
    ensures Beaten(valid, r) <= |valid|
  {
    if valid != [] {
      BeatenAtMost(valid[1..], r);
    }
  }

  /** A faster runtime never ranks lower, and ranks are percentages. */
  lemma FasterRanksHigher(valid: seq<real>, fast: real, slow: real)
    requires valid != [] && fast <= slow
    ensures 0.0 <= PercentileOf(Beaten(valid, slow), |valid|)
            <= PercentileOf(Beaten(valid, fast), |valid|) <= 100.0
  {
    SumMonotone(valid, SlowerThan(slow), SlowerThan(fast));
    BeatenAtMost(valid, fast);
    RoundMonotone(Beaten(valid, slow), Beaten(valid, fast), |valid|);
    RoundMonotone(0, Beaten(valid, slow), |valid|);
    RoundMonotone(Beaten(valid, fast), |valid|, |valid|);
    PercentileEnds(|valid|);
  }

  lemma CountedInMonotone(a: real, b: real, min: real, w: real, n: nat)
    requires w > 0.0 && n >= 1 && a <= b
    ensures CountedIn(a, min, w, n) <= CountedIn(b, min, w, n)
  {
    assert (a - min) / w <= (b - min) / w;
  }

  lemma SlowerIsLater(r: real, x: real, min: real, w: real, n: nat)
    requires w > 0.0 && n >= 1
    ensures var own := CountedIn(r, min, w, n);
            && SlowerThan(r)(x) + BeforeBucket(own, min, w, n)(x) <= 1
            && 1 <= SlowerThan(r)(x) + BeforeBucket(own + 1, min, w, n)(x)
  {
    if x > r {
      CountedInMonotone(r, x, min, w, n);
    } else {
      CountedInMonotone(x, r, min, w, n);
    }
  }

  /**
    The percentile and the histogram tell the same story: a runtime beats every runtime counted
    in a later bucket than its own, and none counted in an earlier one.
   */
  lemma PercentileMatchesHistogram(dist: seq<Bucket>, valid: seq<real>, w: real, n: nat, r: real)
    requires IsHistogram(dist, valid, w, n) && r in valid
    ensures var own := CountedIn(r, Least(valid), w, n);
            Sum(dist[own + 1..], Counts()) <= Beaten(valid, r) < Sum(dist[own..], Counts())
  {
    HistogramCounts(dist, valid, w, n);
    BeatenBetween(dist, valid, Least(valid), w, n, r);
  }

  lemma BeatenBetween(dist: seq<Bucket>, valid: seq<real>, min: real, w: real, n: nat, r: real)
    requires CountsExact(dist, valid, min, w, n) && r in valid
    ensures var own := CountedIn(r, min, w, n);
            Sum(dist[own + 1..], Counts()) <= Beaten(valid, r) < Sum(dist[own..], Counts())
  {
    var own := CountedIn(r, min, w, n);
    forall x | x in valid
      ensures SlowerThan(r)(x) + BeforeBucket(own, min, w, n)(x) <= 1
      ensures 1 <= SlowerThan(r)(x) + BeforeBucket(own + 1, min, w, n)(x)
    {
      SlowerIsLater(r, x, min, w, n);
    }
    SumBelowOnes(valid, SlowerThan(r), BeforeBucket(own, min, w, n), r);
    SumAboveOnes(valid, SlowerThan(r), BeforeBucket(own + 1, min, w, n));
    BucketsFrom(dist, valid, min, w, n, own);
    BucketsFrom(dist, valid, min, w, n, own + 1);
  }

  lemma BucketsFrom(dist: seq<Bucket>, valid: seq<real>, min: real, w: real, n: nat, m: nat)
    requires CountsExact(dist, valid, min, w, n) && m <= n
    ensures Sum(dist[m..], Counts()) + Sum(valid, BeforeBucket(m, min, w, n)) == |valid|
  {
    PrefixCounts(dist, valid, min, w, n, m);
    AllCounted(dist, valid, min, w, n);
    assert dist == dist[..m] + dist[m..];
    SumAppend(dist[..m], dist[m..], Counts());
  }

  lemma {:induction false} SumBelowOnes<T>(s: seq<T>, f: T -> nat, g: T -> nat, free: T)
    requires forall x | x in s :: f(x) + g(x) <= 1
    requires f(free) + g(free) == 0
    ensures Sum(s, f) + Sum(s, g) <= if free in s then |s| - 1 else |s|
  {
    if s != [] {
      SumBelowOnes(s[1..], f, g, free);
      assert f(s[0]) + g(s[0]) <= 1;
      assert free in s ==> free == s[0] || free in s[1..];
    }
  }

  lemma {:induction false} SumAboveOnes<T>(s: seq<T>, f: T -> nat, g: T -> nat)
    requires forall x | x in s :: f(x) + g(x) >= 1
    ensures Sum(s, f) + Sum(s, g) >= |s|
  {
    if s != [] {
      SumAboveOnes(s[1..], f, g);
      assert f(s[0]) + g(s[0]) >= 1;
    }
  }

  /**
    When all runtimes are equal they are all counted in bucket 0, but the lookup returns the last
    bucket; so it agrees exactly when there is only one.
   */
  lemma DegenerateLookup(dist: seq<Bucket>, r: real, total: nat, idx: int)
    requires |dist| >= 1 && total > 0
    requires forall i :: 0 <= i < |dist| ==> dist[i] == Bucket(r, r, i, if i == 0 then total else 0)
    requires -1 <= idx < |dist|
    requires idx >= 0 ==> Covers(dist, idx, r)
    requires idx == -1 ==> forall j :: 0 <= j < |dist| ==> !Covers(dist, j, r)
    ensures idx == |dist| - 1
    ensures dist[idx].count == total <==> |dist| == 1
  {
    assert Covers(dist, |dist| - 1, r);
  }
}
