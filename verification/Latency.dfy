/**
 Verification metrics (internal/observability): per-policy series, the overall roll-up that merges them, and
 the percentile read off the latency histogram. Latencies are integer nanoseconds; percentiles are real.
 */
module Latency {
  import opened Wrappers

  const MILLISECOND: int := 1_000_000

  const BOUNDS: nat := 11

  /** Upper bounds of the histogram buckets; one more bucket holds everything above. */
  function Bounds(): (s: seq<int>)
    ensures |s| == BOUNDS && s[0] > 0 && forall i, j :: 0 <= i < j < |s| ==> s[i] < s[j]
  {
    [5 * MILLISECOND, 10 * MILLISECOND, 25 * MILLISECOND, 50 * MILLISECOND, 100 * MILLISECOND, 250 * MILLISECOND,
     500 * MILLISECOND, 1000 * MILLISECOND, 2500 * MILLISECOND, 5000 * MILLISECOND, 10000 * MILLISECOND]
  }

  const BUCKETS: nat := 12

  type Counts = s: seq<nat> | |s| == BUCKETS witness [0, 0, 0, 0, 0, 0, 0, 0, 0, 0, 0, 0]

  function Zeros(): (s: Counts)
    ensures forall k :: 0 <= k < BUCKETS ==> s[k] == 0
  {
    seq(BUCKETS, _ => 0)
  }

  datatype Aggregate = Aggregate(count: nat, sum: int, min: int, max: int, buckets: Counts)

  const EMPTY := Aggregate(0, 0, 0, 0, Zeros())

  datatype Observation = Observation(policy: string, latency: int, success: bool, code: string, memory: nat,
                                     instructions: nat)

  datatype Series = Series(lat: Aggregate, total: nat, successes: nat, failures: nat, errors: map<string, nat>,
                           maxMemory: nat, instructions: nat)

  const NO_SERIES := Series(EMPTY, 0, 0, 0, map[], 0, 0)

  // ----- recording and merging, on values -----

  /** The bucket of a latency: the first bound at or above it, or the last bucket. */
  function BucketFrom(d: int, i: nat): (k: nat)
    requires i <= BOUNDS
    ensures i <= k < BUCKETS && (k < BOUNDS ==> d <= Bounds()[k]) && forall j :: i <= j < k ==> d > Bounds()[j]
    decreases BOUNDS - i
  {
    if i == BOUNDS || d <= Bounds()[i] then i else BucketFrom(d, i + 1)
  }

  function Bucket(d: int): (k: nat)
    ensures k < BUCKETS && (k < BOUNDS ==> d <= Bounds()[k]) && forall j :: 0 <= j < k ==> d > Bounds()[j]
  {
    BucketFrom(d, 0)
  }

  /** The twelve buckets in milliseconds; a latency on a bound belongs below it. */
  lemma BucketsInMilliseconds(d: int)
    ensures var ms := d as real / 1_000_000.0;
            Bucket(d) == if ms <= 5.0 then 0 else if ms <= 10.0 then 1 else if ms <= 25.0 then 2
                         else if ms <= 50.0 then 3 else if ms <= 100.0 then 4 else if ms <= 250.0 then 5
                         else if ms <= 500.0 then 6 else if ms <= 1000.0 then 7 else if ms <= 2500.0 then 8
                         else if ms <= 5000.0 then 9 else if ms <= 10000.0 then 10 else 11
  {
    hide BucketFrom;
    assert Bounds()[0] == 5_000_000 && Bounds()[1] == 10_000_000 && Bounds()[2] == 25_000_000;
    assert Bounds()[3] == 50_000_000 && Bounds()[4] == 100_000_000 && Bounds()[5] == 250_000_000;
    assert Bounds()[6] == 500_000_000 && Bounds()[7] == 1_000_000_000 && Bounds()[8] == 2_500_000_000;
    assert Bounds()[9] == 5_000_000_000 && Bounds()[10] == 10_000_000_000;
  }

  function Recorded(a: Aggregate, d: int): Aggregate {
    var i := Bucket(d);
    Aggregate(a.count + 1, a.sum + d,
              if a.count == 0 || d < a.min then d else a.min,
              if d > a.max then d else a.max,
              Bumped(a.buckets, i))
  }

  function Errors(errors: map<string, nat>, code: string): nat {
    if code in errors then errors[code] else 0
  }

  function Observed(s: Series, o: Observation): Series {
    var code := if o.code != "" then o.code else "unknown";
    Series(Recorded(s.lat, o.latency), s.total + 1,
           s.successes + if o.success then 1 else 0,
           s.failures + if o.success then 0 else 1,
           if o.success then s.errors else s.errors[code := Errors(s.errors, code) + 1],
           if o.memory > s.maxMemory then o.memory else s.maxMemory,
           s.instructions + o.instructions)
  }

  function Added(a: Counts, b: Counts): Counts {
    seq(BUCKETS, i requires 0 <= i < BUCKETS => a[i] + b[i])
  }

  function MergedLatency(dst: Aggregate, src: Aggregate): Aggregate {
    if src.count == 0 then dst
    else
      Aggregate(dst.count + src.count, dst.sum + src.sum,
                if dst.count == 0 || src.min < dst.min then src.min else dst.min,
                if src.max > dst.max then src.max else dst.max,
                Added(dst.buckets, src.buckets))
  }

  function MergedErrors(a: map<string, nat>, b: map<string, nat>): map<string, nat> {
    map code | code in a.Keys + b.Keys :: Errors(a, code) + Errors(b, code)
  }

  function Merged(dst: Series, src: Series): Series {
    Series(MergedLatency(dst.lat, src.lat), dst.total + src.total, dst.successes + src.successes,
           dst.failures + src.failures, MergedErrors(dst.errors, src.errors),
           if src.maxMemory > dst.maxMemory then src.maxMemory else dst.maxMemory,
           dst.instructions + src.instructions)
  }

  function ObservedAll(observations: seq<Observation>): Series
    decreases |observations|
  {
    if observations == [] then NO_SERIES
    else Observed(ObservedAll(observations[..|observations| - 1]), observations[|observations| - 1])
  }

  // ----- a merge of parts is the whole -----

  predicate WellFormed(a: Aggregate) {
    a.max >= 0 && (a.count == 0 ==> a == EMPTY)
  }

  function Bumped(a: Counts, i: nat): Counts
    requires i < BUCKETS
  {
    a[i := a[i] + 1]
  }

  lemma AddedBump(a: Counts, b: Counts, i: nat)
    requires i < BUCKETS
    ensures Added(a, Bumped(b, i)) == Bumped(Added(a, b), i) == Added(Bumped(a, i), b)
    ensures Added(a, Zeros()) == a == Added(Zeros(), a)
    ensures Added(b, Zeros()) == b == Added(Zeros(), b)
  {
  }

  lemma MergeRecordRight(dst: Aggregate, src: Aggregate, d: int)
    requires WellFormed(dst) && WellFormed(src)
    ensures MergedLatency(dst, Recorded(src, d)) == Recorded(MergedLatency(dst, src), d)
  {
    hide Bounds, Bucket;
    AddedBump(dst.buckets, src.buckets, Bucket(d));
    hide Added;
  }

  lemma MergeRecordLeft(dst: Aggregate, src: Aggregate, d: int)
    requires WellFormed(dst) && WellFormed(src)
    ensures MergedLatency(Recorded(dst, d), src) == Recorded(MergedLatency(dst, src), d)
  {
    hide Bounds, Bucket;
    AddedBump(dst.buckets, src.buckets, Bucket(d));
    hide Added;
  }

  lemma MergeObserveRight(dst: Series, src: Series, o: Observation)
    requires WellFormed(dst.lat) && WellFormed(src.lat)
    ensures Merged(dst, Observed(src, o)) == Observed(Merged(dst, src), o)
  {
    hide MergedLatency, Recorded, WellFormed;
    MergeRecordRight(dst.lat, src.lat, o.latency);
    assert Merged(dst, Observed(src, o)).errors == Observed(Merged(dst, src), o).errors;
  }

  lemma MergeObserveLeft(dst: Series, src: Series, o: Observation)
    requires WellFormed(dst.lat) && WellFormed(src.lat)
    ensures Merged(Observed(dst, o), src) == Observed(Merged(dst, src), o)
  {
    hide MergedLatency, Recorded, WellFormed;
    MergeRecordLeft(dst.lat, src.lat, o.latency);
    assert Merged(Observed(dst, o), src).errors == Observed(Merged(dst, src), o).errors;
  }

  /** The collector's series after some observations; those without a policy are dropped. */
  function Collected(observations: seq<Observation>): map<string, Series>
    decreases |observations|
  {
    if observations == [] then map[]
    else Collect(Collected(observations[..|observations| - 1]), observations[|observations| - 1])
  }

  function Collect(series: map<string, Series>, o: Observation): map<string, Series> {
    if o.policy == "" then series
    else series[o.policy := Observed(if o.policy in series then series[o.policy] else NO_SERIES, o)]
  }

  function Attributed(observations: seq<Observation>): seq<Observation>
    decreases |observations|
  {
    if observations == [] then []
    else
      var o := observations[|observations| - 1];
      Attributed(observations[..|observations| - 1]) + if o.policy == "" then [] else [o]
  }

  /** The roll-up over some policies, in the order given. */
  function Overall(series: map<string, Series>, policies: seq<string>): Series
    decreases |policies|
  {
    if policies == [] then NO_SERIES
    else
      var p := policies[|policies| - 1];
      Merged(Overall(series, policies[..|policies| - 1]), if p in series then series[p] else NO_SERIES)
  }

  lemma EmptyWellFormed()
    ensures WellFormed(NO_SERIES.lat)
  {
  }

  lemma ObservedWellFormed(s: Series, o: Observation)
    requires WellFormed(s.lat)
    ensures WellFormed(Observed(s, o).lat)
  {
    hide Bucket;
  }

  predicate AllWellFormed(series: map<string, Series>) {
    forall p :: p in series ==> WellFormed(series[p].lat)
  }

  lemma {:induction false} OverallWellFormed(series: map<string, Series>, policies: seq<string>)
    requires AllWellFormed(series)
    ensures WellFormed(Overall(series, policies).lat)
    decreases |policies|
  {
    if policies != [] { OverallWellFormed(series, policies[..|policies| - 1]); }
  }

  lemma {:induction false} OverallElsewhere(series: map<string, Series>, policies: seq<string>, p: string, s: Series)
    requires p !in policies
    ensures Overall(series[p := s], policies) == Overall(series, policies)
    decreases |policies|
  {
    if policies != [] {
      assert policies[|policies| - 1] in policies;
      OverallElsewhere(series, policies[..|policies| - 1], p, s);
    }
  }

  /** Observing in one policy's series shows in the roll-up as observing it there directly. */
  lemma {:induction false} OverallObserves(series: map<string, Series>, policies: seq<string>, o: Observation)
    requires AllWellFormed(series) && o.policy != "" && o.policy in policies
    requires forall i, j :: 0 <= i < j < |policies| ==> policies[i] != policies[j]
    ensures Overall(Collect(series, o), policies) == Observed(Overall(series, policies), o)
    decreases |policies|
  {
    hide Merged, Observed, WellFormed;
    var n := |policies| - 1;
    var before, p := policies[..n], policies[n];
    var s := if p in series then series[p] else NO_SERIES;
    EmptyWellFormed();
    OverallWellFormed(series, before);
    assert policies == before + [p];
    if p == o.policy {
      assert p !in before;
      OverallElsewhere(series, before, p, Observed(s, o));
      MergeObserveRight(Overall(series, before), s, o);
    } else {
      OverallObserves(series, before, o);
      MergeObserveLeft(Overall(series, before), s, o);
    }
  }

  /**
   However observations are spread over policies, and in whatever order the policies are merged, the
   roll-up is the series that would have recorded all of them itself.
   */
  lemma {:induction false} RollUpIsWhole(observations: seq<Observation>, policies: seq<string>)
    requires forall i, j :: 0 <= i < j < |policies| ==> policies[i] != policies[j]
    requires forall k :: 0 <= k < |observations| && observations[k].policy != "" ==> observations[k].policy in policies
    ensures AllWellFormed(Collected(observations))
    ensures Overall(Collected(observations), policies) == ObservedAll(Attributed(observations))
    decreases |observations|
  {
    hide Overall, Observed, Merged, WellFormed;
    if observations == [] {
      OverallOfNothing(policies);
    } else {
      var n := |observations| - 1;
      var before, o := observations[..n], observations[n];
      RollUpIsWhole(before, policies);
      var rest := Attributed(before);
      assert (rest + [o])[..|rest|] == rest;
      assert rest + [] == rest;
      if o.policy != "" {
        OverallObserves(Collected(before), policies, o);
        EmptyWellFormed();
        ObservedWellFormed(if o.policy in Collected(before) then Collected(before)[o.policy] else NO_SERIES, o);
      }
    }
  }

  lemma {:induction false} OverallOfNothing(policies: seq<string>)
    ensures Overall(map[], policies) == NO_SERIES
    decreases |policies|
  {
    hide Merged;
    MergeNothing(NO_SERIES, NO_SERIES);
    if policies != [] { OverallOfNothing(policies[..|policies| - 1]); }
  }

  lemma MergeNothing(dst: Series, src: Series)
    requires src.lat.count == src.total == src.successes == src.failures == src.maxMemory == src.instructions == 0
    requires src.errors == map[]
    ensures Merged(dst, src) == dst
  {
    hide Added, MergedErrors;
    MergeNoErrors(dst.errors);
  }

  lemma MergeNoErrors(first: map<string, nat>)
    ensures MergedErrors(first, map[]) == first
  {
  }

  // ----- what the histogram counts -----

  function RecordedAll(latencies: seq<int>): Aggregate
    decreases |latencies|
  {
    if latencies == [] then EMPTY
    else Recorded(RecordedAll(latencies[..|latencies| - 1]), latencies[|latencies| - 1])
  }

  function Latencies(observations: seq<Observation>): (l: seq<int>)
    ensures |l| == |observations| && forall k :: 0 <= k < |l| ==> l[k] == observations[k].latency
  {
    seq(|observations|, k requires 0 <= k < |observations| => observations[k].latency)
  }

  /** The latencies a series has aggregated are those of its observations. */
  lemma {:induction false} ObservedLatencies(observations: seq<Observation>)
    ensures ObservedAll(observations).lat == RecordedAll(Latencies(observations))
    decreases |observations|
  {
    hide Recorded;
    if observations != [] {
      var n := |observations| - 1;
      ObservedLatencies(observations[..n]);
      assert Latencies(observations)[..n] == Latencies(observations[..n]);
    }
  }

  /** The observations of one policy. */
  function Of(observations: seq<Observation>, policy: string): seq<Observation>
    decreases |observations|
  {
    if observations == [] then []
    else
      var o := observations[|observations| - 1];
      Of(observations[..|observations| - 1], policy) + if o.policy == policy then [o] else []
  }

  /** A policy's series is that of its own observations, and it has one exactly if it has any. */
  lemma {:induction false} SeriesIsOwn(observations: seq<Observation>, policy: string)
    requires policy != ""
    ensures policy in Collected(observations) <==> Of(observations, policy) != []
    ensures policy in Collected(observations) ==>
              Collected(observations)[policy] == ObservedAll(Of(observations, policy))
    decreases |observations|
  {
    hide Observed;
    if observations != [] {
      var n := |observations| - 1;
      SeriesIsOwn(observations[..n], policy);
      var before := Of(observations[..n], policy);
      var o := observations[n];
      assert (before + [o])[..|before|] == before && before + [] == before;
      assert ObservedAll(before + [o]) == Observed(ObservedAll(before), o);
    }
  }

  /** So percentiles of a series, and of the roll-up, are percentiles of the latencies observed. */
  lemma SeriesLatencies(observations: seq<Observation>, policies: seq<string>, policy: string)
    requires forall i, j :: 0 <= i < j < |policies| ==> policies[i] != policies[j]
    requires forall k :: 0 <= k < |observations| && observations[k].policy != "" ==> observations[k].policy in policies
    ensures policy != "" && policy in Collected(observations) ==>
              Collected(observations)[policy].lat == RecordedAll(Latencies(Of(observations, policy)))
    ensures Overall(Collected(observations), policies).lat == RecordedAll(Latencies(Attributed(observations)))
  {
    hide Collected, Of, ObservedAll, Overall, RecordedAll;
    if policy != "" {
      SeriesIsOwn(observations, policy);
      ObservedLatencies(Of(observations, policy));
    }
    RollUpIsWhole(observations, policies);
    ObservedLatencies(Attributed(observations));
  }

  // ----- what a series counts -----

  function Count(observations: seq<Observation>, which: Observation -> bool): nat
    decreases |observations|
  {
    if observations == [] then 0
    else
      var n := |observations| - 1;
      Count(observations[..n], which) + if which(observations[n]) then 1 else 0
  }

  function Total(observations: seq<Observation>, amount: Observation -> int): int
    decreases |observations|
  {
    if observations == [] then 0
    else
      var n := |observations| - 1;
      Total(observations[..n], amount) + amount(observations[n])
  }

  /** The code a failure is filed under. */
  function CodeOf(o: Observation): string {
    if o.code == "" then "unknown" else o.code
  }

  /** m is the greatest of these amounts, or 0 if none is above 0. */
  ghost predicate IsPeak(observations: seq<Observation>, amount: Observation -> int, m: int) {
    && m >= 0 && (forall o :: o in observations ==> amount(o) <= m)
    && (m > 0 ==> exists o :: o in observations && amount(o) == m)
  }

  ghost predicate IsLeast(observations: seq<Observation>, amount: Observation -> int, m: int) {
    && (forall o :: o in observations ==> amount(o) >= m)
    && exists o :: o in observations && amount(o) == m
  }

  /** Every figure of a series is what its name says, over exactly the observations recorded. */
  ghost predicate CountsRight(s: Series, observations: seq<Observation>) {
    && s.total == s.lat.count == |observations|
    && s.successes == Count(observations, (o: Observation) => o.success)
    && s.failures == Count(observations, (o: Observation) => !o.success)
    && s.instructions == Total(observations, (o: Observation) => o.instructions)
    && s.lat.sum == Total(observations, (o: Observation) => o.latency)
    && IsPeak(observations, (o: Observation) => o.memory, s.maxMemory)
    && IsPeak(observations, (o: Observation) => o.latency, s.lat.max)
    && (observations != [] ==> IsLeast(observations, (o: Observation) => o.latency, s.lat.min))
  }

  ghost predicate ErrorsRight(errors: map<string, nat>, observations: seq<Observation>) {
    forall code :: Errors(errors, code) == Failed(observations, code) && (code in errors <==> Errors(errors, code) > 0)
  }

  /** How many observations failed with this code. */
  ghost function Failed(observations: seq<Observation>, code: string): nat {
    Count(observations, (o: Observation) => !o.success && CodeOf(o) == code)
  }

  lemma CountNext(before: seq<Observation>, o: Observation, which: Observation -> bool)
    ensures Count(before + [o], which) == Count(before, which) + if which(o) then 1 else 0
  {
    assert (before + [o])[..|before|] == before;
  }

  lemma TotalNext(before: seq<Observation>, o: Observation, amount: Observation -> int)
    ensures Total(before + [o], amount) == Total(before, amount) + amount(o)
  {
    assert (before + [o])[..|before|] == before;
  }

  lemma PeakNext(before: seq<Observation>, o: Observation, amount: Observation -> int, m: int)
    requires IsPeak(before, amount, m)
    ensures IsPeak(before + [o], amount, if amount(o) > m then amount(o) else m)
  {
    var all := before + [o];
    assert all[|before|] == o;
    if amount(o) <= m && m > 0 {
      var p :| p in before && amount(p) == m;
      assert p in all;
    }
  }

  lemma LeastNext(before: seq<Observation>, o: Observation, amount: Observation -> int, m: int)
    requires before != [] ==> IsLeast(before, amount, m)
    ensures IsLeast(before + [o], amount, if before == [] || amount(o) < m then amount(o) else m)
  {
    var all := before + [o];
    assert all[|before|] == o;
    if before != [] && amount(o) >= m {
      var p :| p in before && amount(p) == m;
      assert p in all;
    }
  }

  lemma CountsOne(s: Series, before: seq<Observation>, o: Observation)
    requires CountsRight(s, before)
    ensures CountsRight(Observed(s, o), before + [o])
  {
    hide Count, Total, IsPeak, IsLeast, Bumped, Bucket;
    CountNext(before, o, (o: Observation) => o.success);
    CountNext(before, o, (o: Observation) => !o.success);
    TotalNext(before, o, (o: Observation) => o.instructions);
    TotalNext(before, o, (o: Observation) => o.latency);
    PeakNext(before, o, (o: Observation) => o.memory, s.maxMemory);
    PeakNext(before, o, (o: Observation) => o.latency, s.lat.max);
    LeastNext(before, o, (o: Observation) => o.latency, s.lat.min);
  }

  lemma ErrorsOne(s: Series, before: seq<Observation>, o: Observation)
    requires ErrorsRight(s.errors, before)
    ensures ErrorsRight(Observed(s, o).errors, before + [o])
  {
    hide Recorded;
    forall code
      ensures var errors := Observed(s, o).errors;
              Errors(errors, code) == Failed(before + [o], code) && (code in errors <==> Errors(errors, code) > 0)
    {
      assert Errors(s.errors, code) == Failed(before, code);
      CountNext(before, o, (o: Observation) => !o.success && CodeOf(o) == code);
    }
  }

  /** A series counts its observations, its successes and failures apart, its failures by code, and their totals. */
  lemma {:induction false} SeriesCounts(observations: seq<Observation>)
    ensures CountsRight(ObservedAll(observations), observations)
    ensures ErrorsRight(ObservedAll(observations).errors, observations)
    decreases |observations|
  {
    hide Observed, CountsRight, ErrorsRight;
    if observations == [] {
      NothingCounted();
    } else {
      var n := |observations| - 1;
      SeriesCounts(observations[..n]);
      CountsOne(ObservedAll(observations[..n]), observations[..n], observations[n]);
      ErrorsOne(ObservedAll(observations[..n]), observations[..n], observations[n]);
      assert observations[..n] + [observations[n]] == observations;
    }
  }

  lemma NothingCounted()
    ensures CountsRight(NO_SERIES, []) && ErrorsRight(NO_SERIES.errors, [])
  {
    hide Zeros;
  }

  /** How many samples the first k buckets hold. */
  function Upto(counts: Counts, k: nat): nat
    requires k <= BUCKETS
  {
    if k == 0 then 0 else Upto(counts, k - 1) + counts[k - 1]
  }

  function AtMost(latencies: seq<int>, bound: int): nat
    decreases |latencies|
  {
    if latencies == [] then 0
    else AtMost(latencies[..|latencies| - 1], bound) + if latencies[|latencies| - 1] <= bound then 1 else 0
  }

  function Sum(counts: Counts): nat {
    Upto(counts, BUCKETS)
  }

  lemma {:induction false} UptoBump(counts: Counts, i: nat, k: nat)
    requires i < BUCKETS && k <= BUCKETS
    ensures Upto(Bumped(counts, i), k) == Upto(counts, k) + if i < k then 1 else 0
    decreases k
  {
    if k > 0 { UptoBump(counts, i, k - 1); }
  }

  lemma {:induction false} UptoZeros(k: nat)
    requires k <= BUCKETS
    ensures Upto(Zeros(), k) == 0
    decreases k
  {
    if k > 0 { UptoZeros(k - 1); }
  }

  /** The first buckets together hold the latencies up to their last bound. */
  lemma {:induction false} CumulativeIsRank(latencies: seq<int>, k: nat)
    requires k < BOUNDS
    ensures Upto(RecordedAll(latencies).buckets, k + 1) == AtMost(latencies, Bounds()[k])
    decreases |latencies|
  {
    hide Bounds, Bucket, Upto, Bumped;
    if latencies == [] {
      UptoZeros(k + 1);
    } else {
      var n := |latencies| - 1;
      CumulativeIsRank(latencies[..n], k);
      BucketRank(latencies[n], k);
      UptoBump(RecordedAll(latencies[..n]).buckets, Bucket(latencies[n]), k + 1);
    }
  }

  lemma BucketRank(d: int, k: nat)
    requires k < BOUNDS
    ensures Bucket(d) <= k <==> d <= Bounds()[k]
  {
    hide Bounds, Bucket;
    var i := Bucket(d);
    assert i < k ==> Bounds()[i] < Bounds()[k];
  }

  /** All buckets together hold every sample, and what the last one holds is above every bound. */
  lemma {:induction false} CountIsTotal(latencies: seq<int>)
    ensures var a := RecordedAll(latencies);
            Sum(a.buckets) == a.count == |latencies| && Tops(a)
    decreases |latencies|
  {
    hide Bounds, Tops, Sum, Bucket, Bumped;
    if latencies == [] {
      EmptyTops();
    } else {
      var n := |latencies| - 1;
      var a := RecordedAll(latencies[..n]);
      CountIsTotal(latencies[..n]);
      SumBump(a.buckets, Bucket(latencies[n]));
      RecordedTops(a, latencies[n]);
    }
  }

  lemma SumBump(counts: Counts, i: nat)
    requires i < BUCKETS
    ensures Sum(Bumped(counts, i)) == Sum(counts) + 1
  {
    UptoBump(counts, i, BUCKETS);
  }

  predicate Tops(a: Aggregate) {
    a.buckets[BOUNDS] > 0 ==> a.max > Bounds()[BOUNDS - 1]
  }

  lemma EmptyTops()
    ensures Sum(EMPTY.buckets) == 0 && Tops(EMPTY)
  {
    UptoZeros(BUCKETS);
  }

  lemma RecordedTops(a: Aggregate, d: int)
    requires Tops(a)
    ensures Tops(Recorded(a, d))
  {
    hide Bounds, Bucket;
  }

  // ----- percentiles -----

  function Bound(i: int): real
    requires -1 <= i < BOUNDS
  {
    if i == -1 then 0.0 else Bounds()[i] as real
  }

  function Clamped(x: real): (r: real)
    ensures 0.0 <= r <= 1.0
  {
    if x < 0.0 then 0.0 else if x > 1.0 then 1.0 else x
  }

  function Ratio(into: real, n: nat): real
    requires n > 0
  {
    into / (n as real)
  }

  function Point(low: real, high: real, f: real): real {
    low + f * (high - low)
  }

  /** A point `into` samples into a bucket that holds n. */
  function Interpolated(low: real, high: real, into: real, n: nat): real {
    if n == 0 then high else Point(low, high, Clamped(Ratio(into, n)))
  }

  /** The buckets up to and including the j-th hold the target. */
  predicate Reaches(counts: Counts, target: real, j: nat)
    requires j < BOUNDS
  {
    Upto(counts, j + 1) as real >= target
  }

  /** The first bucket from i on whose cumulative count reaches the target. */
  function RankBucket(counts: Counts, target: real, i: nat): (k: nat)
    requires i <= BOUNDS
    ensures i <= k <= BOUNDS
    ensures forall j :: i <= j < k ==> !Reaches(counts, target, j)
    ensures k < BOUNDS ==> Reaches(counts, target, k)
    decreases BOUNDS - i
  {
    if i == BOUNDS || Reaches(counts, target, i) then i else RankBucket(counts, target, i + 1)
  }

  function Rank(counts: Counts, target: real): (k: nat)
    ensures k <= BOUNDS && (forall j :: 0 <= j < k ==> !Reaches(counts, target, j))
    ensures k < BOUNDS ==> Reaches(counts, target, k)
  {
    RankBucket(counts, target, 0)
  }

  /** The rank asked for. */
  function Target(q: real, n: nat): real {
    q * n as real
  }

  /** The q-quantile in nanoseconds, before truncation. */
  function PercentileOf(a: Aggregate, q: real): real {
    if a.count == 0 then 0.0
    else if q <= 0.0 then a.min as real
    else if q >= 1.0 then a.max as real
    else
      var target := Target(q, a.count);
      PercentileAt(a, target, Rank(a.buckets, target))
  }

  /** The point that the target has reached in the k-th bucket. */
  function PercentileAt(a: Aggregate, target: real, k: nat): real
    requires k <= BOUNDS
  {
    if k == BOUNDS then a.max as real
    else Interpolated(Bound(k - 1), Bound(k), target - Upto(a.buckets, k) as real, a.buckets[k])
  }

  lemma InterpolatedBetween(low: real, high: real, into: real, n: nat)
    requires low <= high
    ensures low <= Interpolated(low, high, into, n) <= high
  {
    hide Point, Ratio, Clamped;
    if n > 0 { PointBetween(low, high, Clamped(Ratio(into, n))); }
  }

  lemma InterpolatedMonotone(low: real, high: real, into: real, more: real, n: nat)
    requires low <= high && into <= more
    ensures Interpolated(low, high, into, n) <= Interpolated(low, high, more, n)
  {
    hide Point, Ratio;
    if n > 0 {
      RatioMonotone(into, more, n);
      PointMonotone(low, high, Clamped(Ratio(into, n)), Clamped(Ratio(more, n)));
    }
  }

  lemma RatioMonotone(into: real, more: real, n: nat)
    requires into <= more && n > 0
    ensures Ratio(into, n) <= Ratio(more, n)
  {
  }

  lemma PointMonotone(low: real, high: real, f: real, g: real)
    requires low <= high && f <= g
    ensures Point(low, high, f) <= Point(low, high, g)
  {
    Scale(f, g, high - low);
  }

  lemma Scale(f: real, g: real, width: real)
    requires f <= g && width >= 0.0
    ensures f * width <= g * width
  {
  }

  lemma PointBetween(low: real, high: real, f: real)
    requires low <= high && 0.0 <= f <= 1.0
    ensures low <= Point(low, high, f) <= high
  {
    PointMonotone(low, high, 0.0, f);
    PointMonotone(low, high, f, 1.0);
  }

  lemma TargetMonotone(q: real, more: real, n: nat)
    requires q <= more
    ensures Target(q, n) <= Target(more, n)
  {
    Scale(q, more, n as real);
  }

  lemma TargetBelow(q: real, n: nat)
    requires q < 1.0 && n > 0
    ensures Target(q, n) < n as real
  {
  }

  lemma RankStep(counts: Counts, target: real, i: nat)
    requires i < BOUNDS
    ensures Upto(counts, i + 1) == Upto(counts, i) + counts[i]
    ensures RankBucket(counts, target, i)
            == if Upto(counts, i + 1) as real >= target then i else RankBucket(counts, target, i + 1)
  {
  }

  lemma {:induction false} RankBucketMonotone(counts: Counts, target: real, target': real, i: nat)
    requires i <= BOUNDS && target <= target'
    ensures RankBucket(counts, target, i) <= RankBucket(counts, target', i)
    decreases BOUNDS - i
  {
    hide Upto;
    if i < BOUNDS && !Reaches(counts, target, i) { RankBucketMonotone(counts, target, target', i + 1); }
  }

  /** The bucket chosen is that of the true rank: the first bound with enough latencies at or below it. */
  lemma PercentileLandsInItsBucket(latencies: seq<int>, q: real, k: nat)
    requires 0.0 < q < 1.0 && latencies != [] && k < BOUNDS
    requires AtMost(latencies, Bounds()[k]) as real >= Target(q, |latencies|)
    requires forall j :: 0 <= j < k ==> (AtMost(latencies, Bounds()[j]) as real) < Target(q, |latencies|)
    ensures Bound(k - 1) <= PercentileOf(RecordedAll(latencies), q) <= Bound(k)
  {
    hide Bounds, Interpolated, RecordedAll, AtMost, Upto, Target;
    var a := RecordedAll(latencies);
    CountIsTotal(latencies);
    forall j | 0 <= j < BOUNDS
      ensures Upto(a.buckets, j + 1) == AtMost(latencies, Bounds()[j])
    {
      CumulativeIsRank(latencies, j);
    }
    var target := Target(q, a.count);
    assert forall j :: 0 <= j < k ==>
             (AtMost(latencies, Bounds()[j]) as real) < target && !Reaches(a.buckets, target, j);
    assert Rank(a.buckets, target) == k;
    InterpolatedBetween(Bound(k - 1), Bound(k), target - Upto(a.buckets, k) as real, a.buckets[k]);
  }

  /** Within (0, 1) percentiles never decrease. */
  lemma PercentileMonotone(latencies: seq<int>, q: real, q': real)
    requires 0.0 < q <= q' < 1.0
    ensures PercentileOf(RecordedAll(latencies), q) <= PercentileOf(RecordedAll(latencies), q')
  {
    hide Bounds, PercentileAt, RecordedAll, Sum, Target;
    var a := RecordedAll(latencies);
    CountIsTotal(latencies);
    if a.count > 0 {
      var t, t' := Target(q, a.count), Target(q', a.count);
      TargetMonotone(q, q', a.count);
      TargetBelow(q', a.count);
      RankBucketMonotone(a.buckets, t, t', 0);
      RanksMonotone(a, t, t', Rank(a.buckets, t), Rank(a.buckets, t'));
    }
  }

  lemma RanksMonotone(a: Aggregate, t: real, t': real, k: nat, k': nat)
    requires t <= t' && k <= k' <= BOUNDS && t' < Sum(a.buckets) as real
    requires k' == BOUNDS ==> !Reaches(a.buckets, t', BOUNDS - 1)
    requires Tops(a)
    ensures PercentileAt(a, t, k) <= PercentileAt(a, t', k')
  {
    hide Bounds, Interpolated;
    if k < BOUNDS {
      InterpolatedBetween(Bound(k - 1), Bound(k), t - Upto(a.buckets, k) as real, a.buckets[k]);
      if k' == k {
        InterpolatedMonotone(Bound(k - 1), Bound(k), t - Upto(a.buckets, k) as real,
                             t' - Upto(a.buckets, k) as real, a.buckets[k]);
      } else if k' < BOUNDS {
        InterpolatedBetween(Bound(k' - 1), Bound(k'), t' - Upto(a.buckets, k') as real, a.buckets[k']);
      } else {
        assert a.buckets[BOUNDS] > 0;
      }
    }
  }

  /** One sample of six seconds: every percentile is somewhere in its bucket, from five seconds to ten. */
  lemma SixSeconds(q: real)
    requires 0.0 < q < 1.0
    ensures PercentileOf(RecordedAll([6000 * MILLISECOND]), q)
            == Point(5000.0 * MILLISECOND as real, 10000.0 * MILLISECOND as real, q)
  {
    hide Point;
    var d := 6000 * MILLISECOND;
    Single(d);
    var a := RecordedAll([d]);
    CountIsTotal([d]);
    CumulativeIsRank([d], 9);
    CumulativeIsRank([d], 10);
    assert Bounds()[9] == 5000 * MILLISECOND && Bounds()[10] == 10000 * MILLISECOND;
    forall j | 0 <= j < 10
      ensures !Reaches(a.buckets, q, j)
    {
      CumulativeIsRank([d], j);
      assert Bounds()[j] <= Bounds()[9];
    }
    assert Target(q, 1) == q;
    assert Rank(a.buckets, q) == 10;
    assert a.buckets[10] == 1;
    assert Ratio(q, 1) == q;
  }

  /** Interpolation knows nothing of the observed range: a median above the maximum, a percentile below the minimum. */
  lemma MedianAboveMaximum()
    ensures var a := RecordedAll([6000 * MILLISECOND]);
            && PercentileOf(a, 0.5) > PercentileOf(a, 1.0)
            && PercentileOf(a, 0.01) < PercentileOf(a, 0.0)
  {
    Single(6000 * MILLISECOND);
    SixSeconds(0.5);
    SixSeconds(0.01);
    hide Bucket, Rank;
  }

  lemma Single(d: int)
    ensures RecordedAll([d]) == Recorded(EMPTY, d)
    ensures forall b :: AtMost([d], b) == if d <= b then 1 else 0
  {
    assert [d][..0] == [];
  }

  // ----- the code -----

  method LatencyBucketIndex(d: int) returns (i: nat)
    ensures i == Bucket(d)
    ensures i < BUCKETS && (i < BOUNDS ==> d <= Bounds()[i]) && forall j :: 0 <= j < i ==> d > Bounds()[j]
  {
    hide Bounds;
    i := 0;
    while i < BOUNDS
      invariant 0 <= i <= BOUNDS && Bucket(d) == BucketFrom(d, i)
    {
      if d <= Bounds()[i] { return; }
      i := i + 1;
    }
  }

  method Percentile(a: Aggregate, q: real) returns (p: real)
    ensures p == PercentileOf(a, q)
  {
    if a.count == 0 { return 0.0; }
    if q <= 0.0 { return a.min as real; }
    if q >= 1.0 { return a.max as real; }
    var target := Target(q, a.count);
    var cum: nat, prev, i := 0, 0.0, 0;
    while i < BOUNDS
      invariant 0 <= i <= BOUNDS && cum == Upto(a.buckets, i) && prev == Bound(i - 1)
      invariant Rank(a.buckets, target) == RankBucket(a.buckets, target, i)
    {
      hide Bounds, Ratio, Point, RankBucket, Upto, Target;
      RankStep(a.buckets, target, i);
      var n := a.buckets[i];
      var before := cum;
      cum := cum + n;
      var bound := Bounds()[i] as real;
      if cum as real >= target {
        if n == 0 { return bound; }
        var frac := Ratio(target - before as real, n);
        if frac < 0.0 { frac := 0.0; } else if frac > 1.0 { frac := 1.0; }
        return Point(prev, bound, frac);
      }
      prev := bound;
      i := i + 1;
    }
    return a.max as real;
  }

  /** The cumulative counts the dashboard shows. */
  method CumulativeBuckets(counts: Counts) returns (out: seq<nat>)
    ensures |out| == BUCKETS && forall k :: 0 <= k < BUCKETS ==> out[k] == Upto(counts, k + 1)
  {
    out := [];
    var cum: nat, i := 0, 0;
    while i < BOUNDS
      invariant 0 <= i <= BOUNDS && |out| == i && cum == Upto(counts, i)
      invariant forall k :: 0 <= k < i ==> out[k] == Upto(counts, k + 1)
    {
      cum := cum + counts[i];
      out := out + [cum];
      i := i + 1;
    }
    out := out + [cum + counts[|counts| - 1]];
  }

  /** Adds one sample to an aggregate. */
  method RecordLatency(a: Aggregate, d: int) returns (r: Aggregate)
    ensures r == Recorded(a, d)
  {
    hide Bucket, Bounds;
    r := a;
    if r.count == 0 || d < r.min { r := r.(min := d); }
    if d > r.max { r := r.(max := d); }
    var i := LatencyBucketIndex(d);
    r := r.(count := r.count + 1, sum := r.sum + d, buckets := r.buckets[i := r.buckets[i] + 1]);
  }

  class Collector {
    var series: map<string, Series>

    constructor ()
      ensures series == map[]
    {
      series := map[];
    }

    method Record(o: Observation)
      modifies this
      ensures series == Collect(old(series), o)
    {
      hide Recorded;
      if o.policy == "" { return; }
      var s := if o.policy in series then series[o.policy] else NO_SERIES;
      var lat := RecordLatency(s.lat, o.latency);
      s := s.(lat := lat, total := s.total + 1);
      if o.success {
        s := s.(successes := s.successes + 1);
      } else {
        s := s.(failures := s.failures + 1);
        var code := if o.code != "" then o.code else "unknown";
        s := s.(errors := s.errors[code := Errors(s.errors, code) + 1]);
      }
      if o.memory > s.maxMemory { s := s.(maxMemory := o.memory); }
      s := s.(instructions := s.instructions + o.instructions);
      series := series[o.policy := s];
    }
  }

  method MergeSeries(first: Series, src: Series) returns (dst: Series)
    ensures dst == Merged(first, src)
  {
    dst := first;
    if src.lat.count > 0 {
      var lat := dst.lat;
      if lat.count == 0 || src.lat.min < lat.min { lat := lat.(min := src.lat.min); }
      if src.lat.max > lat.max { lat := lat.(max := src.lat.max); }
      var buckets: Counts := lat.buckets;
      var i := 0;
      while i < BUCKETS
        invariant 0 <= i <= BUCKETS
        invariant forall k :: 0 <= k < BUCKETS ==>
                    buckets[k] == first.lat.buckets[k] + if k < i then src.lat.buckets[k] else 0
      {
        buckets := buckets[i := buckets[i] + src.lat.buckets[i]];
        i := i + 1;
      }
      assert buckets == Added(first.lat.buckets, src.lat.buckets);
      dst := dst.(lat := Aggregate(lat.count + src.lat.count, lat.sum + src.lat.sum, lat.min, lat.max, buckets));
    }
    var errors := MergeErrors(dst.errors, src.errors);
    dst := dst.(total := dst.total + src.total, successes := dst.successes + src.successes,
                failures := dst.failures + src.failures, errors := errors,
                instructions := dst.instructions + src.instructions);
    if src.maxMemory > dst.maxMemory { dst := dst.(maxMemory := src.maxMemory); }
  }

  lemma MergeOneError(a: map<string, nat>, b: map<string, nat>, code: string, n: nat)
    requires code !in b
    ensures MergedErrors(a, b[code := n]) == MergedErrors(a, b)[code := Errors(MergedErrors(a, b), code) + n]
  {
  }

  function Taken(src: map<string, nat>, left: set<string>): map<string, nat> {
    src - left
  }

  lemma NoneTaken(src: map<string, nat>)
    ensures Taken(src, src.Keys) == map[] && Taken(src, {}) == src
  {
  }

  lemma TakeOne(src: map<string, nat>, left: set<string>, code: string)
    requires code in left && left <= src.Keys
    ensures code !in Taken(src, left) && Taken(src, left - {code}) == Taken(src, left)[code := src[code]]
  {
  }

  method MergeErrors(first: map<string, nat>, src: map<string, nat>) returns (dst: map<string, nat>)
    ensures dst == MergedErrors(first, src)
  {
    hide MergedErrors, Errors, Taken;
    dst := first;
    var left := src.Keys;
    NoneTaken(src);
    MergeNoErrors(first);
    while left != {}
      invariant left <= src.Keys && dst == MergedErrors(first, Taken(src, left))
      decreases |left|
    {
      var code :| code in left;
      TakeOne(src, left, code);
      MergeOneError(first, Taken(src, left), code, src[code]);
      dst := dst[code := Errors(dst, code) + src[code]];
      left := left - {code};
    }
  }
}
