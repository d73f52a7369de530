/**
 How the interpolated percentiles of Latency relate to the observed minimum and maximum: exactly when one
 lies in that range, and exactly when percentiles never decrease on all of [0, 1].
 */
module PercentileRange {
  import opened Latency

  // ----- extremes and their buckets -----

  lemma BucketMonotone(d: int, e: int)
    requires d <= e
    ensures Bucket(d) <= Bucket(e)
  {
    hide Bounds, Bucket;
    if Bucket(e) < BOUNDS { BucketRank(d, Bucket(e)); }
  }

  lemma ZeroBucket()
    ensures Bucket(0) == 0
  {
    hide Bounds, Bucket;
    BucketRank(0, 0);
  }

  /** The samples lie between the buckets of the extremes, and there are samples in both of these. */
  predicate Spread(a: Aggregate) {
    a.count > 0 ==>
      && a.min <= a.max && 0 <= a.max
      && a.buckets[Bucket(a.min)] > 0 && a.buckets[Bucket(a.max)] > 0
      && forall k :: 0 <= k < BUCKETS && a.buckets[k] > 0 ==> Bucket(a.min) <= k <= Bucket(a.max)
  }

  lemma RecordedSpread(a: Aggregate, d: int)
    requires Spread(a) && WellFormed(a)
    ensures Spread(Recorded(a, d))
  {
    hide Bounds, Bucket;
    ZeroBucket();
    BucketMonotone(if d < a.min then d else a.min, if d < a.min then a.min else d);
    BucketMonotone(if d < a.max then d else a.max, if d < a.max then a.max else d);
    if d < 0 { BucketMonotone(d, 0); }
  }

  lemma {:induction false} Spreads(latencies: seq<int>)
    ensures Spread(RecordedAll(latencies)) && WellFormed(RecordedAll(latencies))
    decreases |latencies|
  {
    hide Spread, Bucket;
    if latencies == [] {
      EmptySpread();
    } else {
      var n := |latencies| - 1;
      Spreads(latencies[..n]);
      RecordedSpread(RecordedAll(latencies[..n]), latencies[n]);
    }
  }

  lemma EmptySpread()
    ensures Spread(EMPTY)
  {
  }

  lemma {:induction false} UptoMonotone(counts: Counts, i: nat, j: nat)
    requires i <= j <= BUCKETS
    ensures Upto(counts, i) <= Upto(counts, j)
    decreases j
  {
    if i < j { UptoMonotone(counts, i, j - 1); }
  }

  // ----- the last bucket -----

  /** Above the last bound the answer is the maximum, which lies above every bound. */
  lemma PercentileAboveBounds(latencies: seq<int>, q: real)
    requires 0.0 < q < 1.0 && latencies != []
    requires (Latency.AtMost(latencies, Bounds()[BOUNDS - 1]) as real) < Target(q, |latencies|)
    ensures PercentileOf(RecordedAll(latencies), q) == RecordedAll(latencies).max as real
    ensures RecordedAll(latencies).max > Bounds()[BOUNDS - 1]
  {
    hide Bounds, RecordedAll, Latency.AtMost, Upto, Target;
    var a := RecordedAll(latencies);
    CountIsTotal(latencies);
    CumulativeIsRank(latencies, BOUNDS - 1);
    var target := Target(q, a.count);
    forall j | 0 <= j < BOUNDS
      ensures !Reaches(a.buckets, target, j)
    {
      UptoMonotone(a.buckets, j + 1, BOUNDS);
    }
    TargetBelow(q, a.count);
    SumLast(a.buckets);
  }

  lemma SumLast(counts: Counts)
    ensures Sum(counts) == Upto(counts, BOUNDS) + counts[BOUNDS]
  {
    hide Upto;
    UptoNext(counts, BOUNDS);
  }

  lemma UptoNext(counts: Counts, k: nat)
    requires k < BUCKETS
    ensures Upto(counts, k + 1) == Upto(counts, k) + counts[k]
  {
  }

  // ----- where a percentile lies in its bucket -----

  function RankOf(a: Aggregate, q: real): (k: nat)
    ensures k <= BOUNDS
  {
    Rank(a.buckets, Target(q, a.count))
  }

  /** How many samples of its bucket the rank has passed. */
  function Into(a: Aggregate, q: real): real {
    Target(q, a.count) - Upto(a.buckets, RankOf(a, q)) as real
  }

  /** The rank is reached within its bucket, so nothing is clamped. */
  lemma RankWithin(a: Aggregate, q: real)
    requires a.count > 0 && 0.0 < q < 1.0 && RankOf(a, q) < BOUNDS
    ensures var n := a.buckets[RankOf(a, q)]; n > 0 && 0.0 < Into(a, q) <= n as real
  {
    hide Upto, Target, Rank;
    var k, t := RankOf(a, q), Target(q, a.count);
    TargetAbove(q, a.count);
    UptoNext(a.buckets, k);
    if k > 0 {
      assert !Reaches(a.buckets, t, k - 1);
    } else {
      UptoNothing(a.buckets);
    }
  }

  lemma TargetAbove(q: real, n: nat)
    requires q > 0.0 && n > 0
    ensures Target(q, n) > 0.0
  {
  }

  lemma UptoNothing(counts: Counts)
    ensures Upto(counts, 0) == 0
  {
  }

  lemma Compare(low: real, high: real, into: real, n: nat, x: real)
    requires n > 0 && 0.0 < into <= n as real
    ensures Interpolated(low, high, into, n) <= x <==> into * (high - low) <= (x - low) * n as real
    ensures Interpolated(low, high, into, n) >= x <==> into * (high - low) >= (x - low) * n as real
  {
    hide Point, Ratio;
    RatioFraction(into, n);
    PointOrder(low, high, Ratio(into, n), into, n, x);
  }

  lemma RatioFraction(into: real, n: nat)
    requires n > 0 && 0.0 < into <= n as real
    ensures 0.0 < Ratio(into, n) <= 1.0 && Ratio(into, n) * n as real == into
  {
  }

  lemma PointOrder(low: real, high: real, f: real, into: real, n: nat, x: real)
    requires n > 0 && f * n as real == into
    ensures Point(low, high, f) <= x <==> into * (high - low) <= (x - low) * n as real
    ensures Point(low, high, f) >= x <==> into * (high - low) >= (x - low) * n as real
  {
    var w, m := high - low, n as real;
    assert into * w == (f * m) * w;
    Regroup(f, m, w);
    Order(f * w, x - low, m);
    Order(x - low, f * w, m);
  }

  lemma Regroup(f: real, m: real, w: real)
    ensures (f * m) * w == (f * w) * m
  {
  }

  lemma Order(u: real, v: real, m: real)
    requires m > 0.0
    ensures u <= v <==> u * m <= v * m
  {
    if u <= v { Scale(u, v, m); } else { StrictScale(v, u, m); }
  }

  lemma StrictScale(u: real, v: real, m: real)
    requires u < v && m > 0.0
    ensures u * m < v * m
  {
  }

  lemma PercentileInBucket(a: Aggregate, q: real)
    requires a.count > 0 && 0.0 < q < 1.0 && RankOf(a, q) < BOUNDS
    ensures var k := RankOf(a, q);
            && PercentileOf(a, q) == Interpolated(Bound(k - 1), Bound(k), Into(a, q), a.buckets[k])
            && 0.0 <= Bound(k - 1) <= PercentileOf(a, q) <= Bound(k)
  {
    hide Bounds, Interpolated, Rank, Target, Upto;
    var k: int := RankOf(a, q);
    InterpolatedBetween(Bound(k - 1), Bound(k), Into(a, q), a.buckets[k]);
  }

  lemma BucketEdges(d: int, k: nat)
    requires k < BOUNDS
    ensures Bucket(d) < k ==> d as real <= Bound(k - 1)
    ensures Bucket(d) > k ==> d as real > Bound(k)
  {
    hide Bounds, Bucket;
    BucketRank(d, k);
    if k > 0 { BucketRank(d, k - 1); }
  }

  lemma WithinSpread(a: Aggregate, k: nat)
    requires Spread(a) && a.count > 0 && k < BUCKETS && a.buckets[k] > 0
    ensures Bucket(a.min) <= k <= Bucket(a.max)
  {
    hide Bucket;
  }

  /** A percentile is at most the maximum exactly when the maximum is in a later bucket, or no earlier in this one. */
  lemma AtMostMaximum(latencies: seq<int>, q: real)
    requires latencies != [] && 0.0 < q < 1.0 && RankOf(RecordedAll(latencies), q) < BOUNDS
    ensures var a := RecordedAll(latencies);
            var k := RankOf(a, q);
            PercentileOf(a, q) <= a.max as real <==>
              || Bucket(a.max) != k
              || Into(a, q) * (Bound(k) - Bound(k - 1)) <= (a.max as real - Bound(k - 1)) * a.buckets[k] as real
  {
    hide Bounds, Bound, Interpolated, RecordedAll, Bucket, RankOf, Into, PercentileOf, Spread, WellFormed, Sum, Tops;
    var a := RecordedAll(latencies);
    var k: int := RankOf(a, q);
    Spreads(latencies);
    CountIsTotal(latencies);
    RankWithin(a, q);
    WithinSpread(a, k);
    PercentileInBucket(a, q);
    Compare(Bound(k - 1), Bound(k), Into(a, q), a.buckets[k], a.max as real);
    if Bucket(a.max) != k { BucketEdges(a.max, k); }
  }

  /** The mirror image at the minimum. */
  lemma AtLeastMinimum(latencies: seq<int>, q: real)
    requires latencies != [] && 0.0 < q < 1.0 && RankOf(RecordedAll(latencies), q) < BOUNDS
    ensures var a := RecordedAll(latencies);
            var k := RankOf(a, q);
            PercentileOf(a, q) >= a.min as real <==>
              || Bucket(a.min) != k
              || Into(a, q) * (Bound(k) - Bound(k - 1)) >= (a.min as real - Bound(k - 1)) * a.buckets[k] as real
  {
    hide Bounds, Bound, Interpolated, RecordedAll, Bucket, RankOf, Into, PercentileOf, Spread, WellFormed, Sum, Tops;
    var a := RecordedAll(latencies);
    var k: int := RankOf(a, q);
    Spreads(latencies);
    CountIsTotal(latencies);
    RankWithin(a, q);
    WithinSpread(a, k);
    PercentileInBucket(a, q);
    Compare(Bound(k - 1), Bound(k), Into(a, q), a.buckets[k], a.min as real);
    if Bucket(a.min) != k { BucketEdges(a.min, k); }
  }

  // ----- the closed interval -----

  /** The extremes coincide with bucket edges, as far as interpolation can see them. */
  predicate Tight(a: Aggregate) {
    && (a.min <= 0 || Bucket(a.min) == BOUNDS)
    && (Bucket(a.max) == BOUNDS || a.max == Bounds()[Bucket(a.max)])
  }

  lemma TightIsInside(latencies: seq<int>, q: real)
    requires latencies != [] && 0.0 < q < 1.0 && Tight(RecordedAll(latencies))
    ensures var a := RecordedAll(latencies); a.min as real <= PercentileOf(a, q) <= a.max as real
  {
    hide Bounds, RecordedAll, Bucket, Rank, Target, Interpolated, Upto;
    var a := RecordedAll(latencies);
    var k := RankOf(a, q);
    Spreads(latencies);
    CountIsTotal(latencies);
    if k < BOUNDS {
      RankWithin(a, q);
      PercentileInBucket(a, q);
      assert Bucket(a.min) <= k <= Bucket(a.max);
      if Bucket(a.max) == BOUNDS { BucketRank(a.max, k); }
    }
  }

  /** A rank `into` samples into a non-empty bucket, as a quantile. */
  lemma QuantileAt(a: Aggregate, k: nat, into: real) returns (q: real)
    requires k < BOUNDS && a.buckets[k] > 0 && 0.0 < into < a.buckets[k] as real
    requires a.count == Sum(a.buckets)
    ensures 0.0 < q < 1.0 && RankOf(a, q) == k && Into(a, q) == into
  {
    hide Upto, Rank, Target, Sum;
    var t := Upto(a.buckets, k) as real + into;
    UptoNext(a.buckets, k);
    UptoSum(a.buckets, k + 1);
    q := Fraction(t, a.count);
    forall j | 0 <= j < k
      ensures !Reaches(a.buckets, t, j)
    {
      UptoMonotone(a.buckets, j + 1, k);
    }
    assert Reaches(a.buckets, t, k);
  }

  lemma UptoSum(counts: Counts, k: nat)
    requires k <= BUCKETS
    ensures Upto(counts, k) <= Sum(counts)
  {
    hide Upto;
    UptoMonotone(counts, k, BUCKETS);
  }

  lemma Fraction(t: real, n: nat) returns (q: real)
    requires n > 0 && 0.0 < t < n as real
    ensures 0.0 < q < 1.0 && Target(q, n) == t
  {
    q := t / n as real;
  }

  /** Some quantile lies past x, for x short of the upper end of its bucket or past the lower one. */
  lemma Beyond(a: Aggregate, k: nat, x: real, above: bool) returns (q: real)
    requires k < BOUNDS && a.buckets[k] > 0 && a.count == Sum(a.buckets)
    requires Bound(k - 1) <= x <= Bound(k) && (above ==> x < Bound(k)) && (!above ==> Bound(k - 1) < x)
    ensures 0.0 < q < 1.0
    ensures if above then PercentileOf(a, q) > x else PercentileOf(a, q) < x
  {
    hide Bounds, Interpolated, RankOf, Into, PercentileOf, Sum;
    var low, high, n := Bound(k - 1), Bound(k), a.buckets[k];
    BoundsApart(k);
    SumPositive(a.buckets, k);
    var into := Between(low, high, n, x, above);
    q := QuantileAt(a, k, into);
    PercentileInBucket(a, q);
    Compare(low, high, into, n, x);
  }

  lemma BoundsApart(k: nat)
    requires k < BOUNDS
    ensures 0.0 <= Bound(k - 1) < Bound(k)
  {
    hide Bounds;
  }

  lemma SumPositive(counts: Counts, k: nat)
    requires k < BUCKETS && counts[k] > 0
    ensures Sum(counts) > 0
  {
    hide Upto;
    UptoNext(counts, k);
    UptoSum(counts, k + 1);
  }

  lemma Between(low: real, high: real, n: nat, x: real, above: bool) returns (into: real)
    requires n > 0 && low < high && low <= x <= high && (above ==> x < high) && (!above ==> low < x)
    ensures 0.0 < into < n as real
    ensures if above then into * (high - low) > (x - low) * n as real else into * (high - low) < (x - low) * n as real
  {
    var w, m := high - low, n as real;
    var f := (x - low) / w;
    assert f * w == x - low;
    var g := if above then (f + 1.0) / 2.0 else f / 2.0;
    FractionOf(x - low, w);
    into := g * m;
    StrictScale(0.0, g, m);
    StrictScale(g, 1.0, m);
    Regroup(g, m, w);
    if above {
      StrictScale(f, g, w);
      StrictScale(x - low, g * w, m);
    } else {
      StrictScale(g, f, w);
      StrictScale(g * w, x - low, m);
    }
  }

  lemma FractionOf(d: real, w: real)
    requires w > 0.0 && 0.0 <= d <= w
    ensures 0.0 <= d / w <= 1.0 && (d < w ==> d / w < 1.0) && (d > 0.0 ==> d / w > 0.0)
  {
    var f := d / w;
    assert f * w == d;
    if d < w && f >= 1.0 { Scale(1.0, f, w); }
  }

  lemma LooseIsOutside(latencies: seq<int>) returns (q: real)
    requires latencies != [] && !Tight(RecordedAll(latencies))
    ensures var a := RecordedAll(latencies);
            0.0 < q < 1.0 && !(a.min as real <= PercentileOf(a, q) <= a.max as real)
  {
    hide Bounds, RecordedAll, Bucket, PercentileOf, Sum;
    var a := RecordedAll(latencies);
    Spreads(latencies);
    CountIsTotal(latencies);
    if a.min > 0 && Bucket(a.min) < BOUNDS {
      var k := Bucket(a.min);
      if k > 0 { BucketRank(a.min, k - 1); }
      q := Beyond(a, k, a.min as real, false);
    } else {
      var k := Bucket(a.max);
      if k > 0 { BucketRank(a.max, k - 1); }
      q := Beyond(a, k, a.max as real, true);
    }
  }

  /** Percentiles never decrease from the minimum at 0 to the maximum at 1. */
  ghost predicate MonotoneOnClosed(a: Aggregate) {
    forall q, q' :: 0.0 <= q <= q' <= 1.0 ==> PercentileOf(a, q) <= PercentileOf(a, q')
  }

  /** All percentiles lie between the minimum and the maximum. */
  ghost predicate WithinRange(a: Aggregate) {
    forall q :: 0.0 <= q <= 1.0 ==> a.min as real <= PercentileOf(a, q) <= a.max as real
  }

  /**
   Percentiles stay within the observed range, and never decrease on the closed interval, exactly when the
   extremes are tight: the minimum not positive or above every bound, the maximum a bound or above every one.
   */
  lemma RangeExactly(latencies: seq<int>)
    requires latencies != []
    ensures WithinRange(RecordedAll(latencies)) <==> Tight(RecordedAll(latencies))
    ensures MonotoneOnClosed(RecordedAll(latencies)) <==> Tight(RecordedAll(latencies))
  {
    hide RecordedAll, Tight, PercentileOf;
    var a := RecordedAll(latencies);
    Ends(latencies);
    if Tight(a) {
      forall q | 0.0 < q < 1.0
        ensures a.min as real <= PercentileOf(a, q) <= a.max as real
      {
        TightIsInside(latencies, q);
      }
      forall q, q' | 0.0 <= q <= q' <= 1.0
        ensures PercentileOf(a, q) <= PercentileOf(a, q')
      {
        if 0.0 < q && q' < 1.0 { PercentileMonotone(latencies, q, q'); }
      }
    } else {
      var q := LooseIsOutside(latencies);
      assert !(PercentileOf(a, 0.0) <= PercentileOf(a, q) && PercentileOf(a, q) <= PercentileOf(a, 1.0));
    }
  }

  lemma Ends(latencies: seq<int>)
    requires latencies != []
    ensures var a := RecordedAll(latencies);
            && PercentileOf(a, 0.0) == a.min as real && PercentileOf(a, 1.0) == a.max as real && a.min <= a.max
  {
    hide RecordedAll, Bucket, Bounds;
    Spreads(latencies);
    CountIsTotal(latencies);
  }
}
