/** Reducing a series of samples to a chart's number of points (handler/aggregate.go). */
module Aggregate {

  datatype Sample = Sample(t: real, v: real)
  datatype Aggregation = MinMax | Min | Max | Avg | Sum | Count | Rate

  /** Some samples in a row. */
  type Group = s: seq<Sample> | s != [] witness [Sample(0.0, 0.0)]

  ghost predicate InTimeOrder(s: seq<Sample>) {
    forall i, j | 0 <= i < j < |s| :: s[i].t <= s[j].t
  }

  // Cutting the series into buckets.

  function BucketSize(len: nat, n: nat): real
    requires n > 0
  {
    var size := len as real / n as real;
    if size < 1.0 then 1.0 else size
  }

  /** Where bucket b starts; the source converts by cutting off, which for these numbers is the floor. */
  function Start(len: nat, n: nat, b: nat): nat
    requires n > 0
  {
    FloorIsNat(b as real * BucketSize(len, n));
    (b as real * BucketSize(len, n)).Floor
  }

  lemma FloorIsNat(x: real)
    ensures x >= 0.0 ==> x.Floor >= 0
  {
  }

  lemma StartsRise(len: nat, n: nat, b: nat)
    requires n > 0
    ensures Start(len, n, b) < Start(len, n, b + 1)
    ensures Start(len, n, 0) == 0
  {
  }

  /** There are as many buckets as asked for, or one for every sample when there are fewer of those. */
  lemma BucketCount(len: nat, n: nat, b: nat)
    requires n > 0
    ensures Start(len, n, b) < len <==> b < n && b < len
  {
    hide BucketSize;
    var size := BucketSize(len, n);
    if len < n {
      WholeSize(len, n);
      assert b as real * size == b as real;
    } else if len > 0 {
      SizesAddUp(len, n);
      Scaled(size, b as real, n as real);
      FloorBelow(b as real * size, len);
    }
  }

  lemma WholeSize(len: nat, n: nat)
    requires len < n
    ensures BucketSize(len, n) == 1.0
  {
  }

  lemma SizesAddUp(len: nat, n: nat)
    requires 0 < n <= len
    ensures BucketSize(len, n) == len as real / n as real
    ensures BucketSize(len, n) * n as real == len as real && BucketSize(len, n) > 0.0
  {
  }

  lemma FloorBelow(x: real, len: nat)
    ensures x.Floor < len <==> x < len as real
  {
  }

  lemma Scaled(size: real, b: real, n: real)
    requires size > 0.0
    ensures b * size < n * size <==> b < n
  {
  }

  function Bucket(samples: seq<Sample>, n: nat, b: nat): (r: Group)
    requires n > 0 && b < n && b < |samples|
  {
    StartsRise(|samples|, n, b);
    BucketCount(|samples|, n, b);
    var end := Start(|samples|, n, b + 1);
    samples[Start(|samples|, n, b)..if end > |samples| then |samples| else end]
  }

  /** No bucket is more than one sample away from its share. */
  lemma BucketsAreEven(samples: seq<Sample>, n: nat, b: nat)
    requires n > 0 && b < n <= |samples|
    ensures
      var share := |samples| as real / n as real;
      share - 1.0 < |Bucket(samples, n, b)| as real < share + 1.0
  {
    hide Start;
    BucketCount(|samples|, n, b);
    EndIsInside(|samples|, n, b);
    StartsRise(|samples|, n, b);
    BucketShare(|samples|, n, b);
  }

  lemma BucketShare(len: nat, n: nat, b: nat)
    requires n > 0 && b < n <= len
    ensures
      var k, share := Start(len, n, b + 1) - Start(len, n, b), len as real / n as real;
      share - 1.0 < k as real < share + 1.0
  {
  }

  lemma EndIsInside(len: nat, n: nat, b: nat)
    requires n > 0 && b < n <= len
    ensures Start(len, n, b + 1) <= len
  {
    hide BucketSize;
    SizesAddUp(len, n);
    if b + 1 < n {
      BucketCount(len, n, b + 1);
    }
  }

  function Flat(parts: seq<seq<Sample>>): seq<Sample> {
    if parts == [] then [] else Flat(parts[..|parts| - 1]) + parts[|parts| - 1]
  }

  function Least(a: nat, b: nat): nat { if a < b then a else b }

  function AllBuckets(samples: seq<Sample>, n: nat): (r: seq<Group>)
    requires n > 0
    ensures |r| == Least(n, |samples|)
  {
    seq(Least(n, |samples|), b requires 0 <= b < Least(n, |samples|) => Bucket(samples, n, b))
  }

  /** The buckets before one of them make up the samples before its start. */
  lemma {:induction false} FlatBefore(samples: seq<Sample>, n: nat, b: nat)
    requires 0 < n && b <= Least(n, |samples|)
    ensures Flat(AllBuckets(samples, n)[..b]) == samples[..Least(Start(|samples|, n, b), |samples|)]
  {
    hide Start;
    if b == 0 {
      StartsRise(|samples|, n, 0);
    } else {
      var all := AllBuckets(samples, n);
      FlatBefore(samples, n, b - 1);
      StartsRise(|samples|, n, b - 1);
      BucketCount(|samples|, n, b - 1);
      assert all[..b][..b - 1] == all[..b - 1] && all[..b][b - 1] == Bucket(samples, n, b - 1);
      var s, e := Start(|samples|, n, b - 1), Least(Start(|samples|, n, b), |samples|);
      assert samples[..e] == samples[..s] + samples[s..e];
    }
  }

  /** Put together again, the buckets are the samples. */
  lemma FlatBuckets(samples: seq<Sample>, n: nat)
    requires 0 < n
    ensures Flat(AllBuckets(samples, n)) == samples
  {
    hide Start;
    var b := Least(n, |samples|);
    FlatBefore(samples, n, b);
    BucketCount(|samples|, n, b);
    assert AllBuckets(samples, n)[..b] == AllBuckets(samples, n) && samples[..|samples|] == samples;
  }

  /** Contiguous groups, none empty, that make up the samples again. */
  method Buckets(samples: seq<Sample>, n: nat) returns (out: seq<Group>)
    requires n > 0
    ensures out == AllBuckets(samples, n) && Flat(out) == samples
  {
    hide Start;
    out := [];
    var b := 0;
    while true
      invariant b <= Least(n, |samples|) && out == AllBuckets(samples, n)[..b]
      decreases Least(n, |samples|) - b
    {
      BucketCount(|samples|, n, b);
      var start := Start(|samples|, n, b);
      if start >= |samples| {
        break;
      }
      var end := Least(Start(|samples|, n, b + 1), |samples|);
      StartsRise(|samples|, n, b);
      if start >= end {
        assert false;
      }
      out := out + [samples[start..end]];
      b := b + 1;
    }
    FlatBuckets(samples, n);
  }

  // Reducing one bucket.

  function Total(s: seq<Sample>): real {
    if s == [] then 0.0 else Total(s[..|s| - 1]) + s[|s| - 1].v
  }

  /** Where the lowest value stands, the first of them if there are more. */
  function LowestAt(s: Group): (i: nat)
    ensures i < |s| && forall j | 0 <= j < |s| :: s[i].v <= s[j].v && (j < i ==> s[i].v < s[j].v)
  {
    if |s| == 1 then 0
    else
      var i := LowestAt(s[..|s| - 1]);
      assert forall j | 0 <= j < |s| - 1 :: s[..|s| - 1][j] == s[j];
      if s[|s| - 1].v < s[i].v then |s| - 1 else i
  }

  function HighestAt(s: Group): (i: nat)
    ensures i < |s| && forall j | 0 <= j < |s| :: s[i].v >= s[j].v && (j < i ==> s[i].v > s[j].v)
  {
    if |s| == 1 then 0
    else
      var i := HighestAt(s[..|s| - 1]);
      assert forall j | 0 <= j < |s| - 1 :: s[..|s| - 1][j] == s[j];
      if s[|s| - 1].v > s[i].v then |s| - 1 else i
  }

  function Reduced(bucket: Group, agg: Aggregation): seq<Sample>
  {
    var lo, hi, t := LowestAt(bucket), HighestAt(bucket), bucket[|bucket| - 1].t;
    match agg
    case Min => [bucket[lo]]
    case Max => [bucket[hi]]
    case Sum => [Sample(t, Total(bucket))]
    case Count => [Sample(t, |bucket| as real)]
    case Avg => [Sample(t, Total(bucket) / |bucket| as real)]
    case _ =>
      if lo == hi then [bucket[lo]] else if lo < hi then [bucket[lo], bucket[hi]] else [bucket[hi], bucket[lo]]
  }

  lemma NoTotal()
    ensures Total([]) == 0.0
  {
  }

  /** How the extremes and the sum of a beginning move with its next sample. */
  lemma OneMore(bucket: Group, i: nat)
    requires i < |bucket|
    ensures Total(bucket[..i + 1]) == Total(bucket[..i]) + bucket[i].v
    ensures i == 0 ==> LowestAt(bucket[..1]) == HighestAt(bucket[..1]) == 0
    ensures
      i > 0 ==>
      var lo, hi := LowestAt(bucket[..i]), HighestAt(bucket[..i]);
      && LowestAt(bucket[..i + 1]) == (if bucket[i].v < bucket[lo].v then i else lo)
      && HighestAt(bucket[..i + 1]) == if bucket[i].v > bucket[hi].v then i else hi
  {
    assert bucket[..i + 1][..i] == bucket[..i];
  }

  method Reduce(bucket: Group, agg: Aggregation) returns (out: seq<Sample>)
    ensures out == Reduced(bucket, agg)
  {
    hide LowestAt, HighestAt, Total;
    var lo, hi, sum := 0, 0, 0.0;
    assert bucket[..0] == [];
    NoTotal();
    for i := 0 to |bucket|
      invariant i == 0 ==> lo == 0 && hi == 0
      invariant i > 0 ==> lo == LowestAt(bucket[..i]) && hi == HighestAt(bucket[..i])
      invariant sum == Total(bucket[..i])
    {
      var s := bucket[i];
      OneMore(bucket, i);
      if s.v < bucket[lo].v {
        lo := i;
      }
      if s.v > bucket[hi].v {
        hi := i;
      }
      sum := sum + s.v;
    }
    assert bucket[..|bucket|] == bucket;
    var t := bucket[|bucket| - 1].t;
    match agg {
      case Min => return [bucket[lo]];
      case Max => return [bucket[hi]];
      case Sum => return [Sample(t, sum)];
      case Count => return [Sample(t, |bucket| as real)];
      case Avg => return [Sample(t, sum / |bucket| as real)];
      case _ =>
    }
    if lo == hi {
      return [bucket[lo]];
    }
    if lo < hi {
      return [bucket[lo], bucket[hi]];
    }
    return [bucket[hi], bucket[lo]];
  }

  // The whole series.

  /** What all the buckets contribute, one after the other. */
  function ReducedAll(parts: seq<Group>, agg: Aggregation): seq<Sample> {
    if parts == [] then [] else ReducedAll(parts[..|parts| - 1], agg) + Reduced(parts[|parts| - 1], agg)
  }

  lemma {:induction false} TotalOfTwo(a: seq<Sample>, b: seq<Sample>)
    ensures Total(a + b) == Total(a) + Total(b)
  {
    if b == [] {
      assert a + b == a;
    } else {
      TotalOfTwo(a, b[..|b| - 1]);
      assert (a + b)[..|a + b| - 1] == a + b[..|b| - 1];
    }
  }

  /** Summing keeps the sum of all values, and counting the number of samples. */
  lemma {:induction false} SumAndCountAreKept(parts: seq<Group>)
    ensures Total(ReducedAll(parts, Sum)) == Total(Flat(parts))
    ensures Total(ReducedAll(parts, Count)) == |Flat(parts)| as real
  {
    if parts != [] {
      var front, last := parts[..|parts| - 1], parts[|parts| - 1];
      SumAndCountAreKept(front);
      TotalOfTwo(Flat(front), last);
      OnePoint(ReducedAll(front, Sum), Reduced(last, Sum));
      OnePoint(ReducedAll(front, Count), Reduced(last, Count));
    }
  }

  lemma OnePoint(front: seq<Sample>, point: seq<Sample>)
    requires |point| == 1
    ensures Total(front + point) == Total(front) + point[0].v
  {
  }

  ghost predicate Bracketed(v: real, out: seq<Sample>) {
    (exists p | p in out :: p.v <= v) && exists q | q in out :: v <= q.v
  }

  /** Points of the series itself, with a lowest and a highest no sample lies outside of. */
  ghost predicate KeepsExtremes(out: seq<Sample>, all: seq<Sample>) {
    && (forall p | p in out :: p in all)
    && forall s | s in all :: Bracketed(s.v, out)
  }

  /** Keeping both extremes of every bucket keeps those of the whole series, and adds no point. */
  lemma {:induction false} ExtremesAreKept(parts: seq<Group>)
    ensures KeepsExtremes(ReducedAll(parts, MinMax), Flat(parts))
  {
    if parts != [] {
      hide Reduced, Bracketed, KeepsExtremes;
      var front, last := parts[..|parts| - 1], parts[|parts| - 1];
      ExtremesAreKept(front);
      BucketKeepsExtremes(last);
      BothKeepExtremes(ReducedAll(front, MinMax), Flat(front), Reduced(last, MinMax), last);
    }
  }

  lemma BucketKeepsExtremes(bucket: Group)
    ensures KeepsExtremes(Reduced(bucket, MinMax), bucket)
  {
  }

  lemma BothKeepExtremes(out: seq<Sample>, all: seq<Sample>, out': seq<Sample>, all': seq<Sample>)
    requires KeepsExtremes(out, all) && KeepsExtremes(out', all')
    ensures KeepsExtremes(out + out', all + all')
  {
    hide Bracketed;
    forall s | s in all + all' ensures Bracketed(s.v, out + out') {
      Widen(s.v, out, out');
    }
  }

  lemma Widen(v: real, a: seq<Sample>, b: seq<Sample>)
    ensures Bracketed(v, a) || Bracketed(v, b) ==> Bracketed(v, a + b)
  {
  }

  /** Every reduction keeps the order of time, so the line does not travel backwards. */
  lemma {:induction false} TimeGoesForward(parts: seq<Group>, agg: Aggregation)
    requires InTimeOrder(Flat(parts))
    ensures InTimeOrder(ReducedAll(parts, agg))
    ensures forall p | p in ReducedAll(parts, agg) :: exists q | q in Flat(parts) :: p.t <= q.t
  {
    if parts != [] {
      hide Reduced;
      var front, last := parts[..|parts| - 1], parts[|parts| - 1];
      var before, all := Flat(front), Flat(parts);
      SplitInTime(before, last);
      TimeGoesForward(front, agg);
      ReducedInTime(last, agg);
      var a, b := ReducedAll(front, agg), Reduced(last, agg);
      forall p, q | p in a && q in b ensures p.t <= q.t {
        var r :| r in before && p.t <= r.t;
        assert r.t <= last[0].t;
      }
      JoinInTime(a, b);
      forall p | p in a + b ensures exists q | q in all :: p.t <= q.t {
        if p in b {
          assert last[|last| - 1] in all;
        } else {
          var r :| r in before && p.t <= r.t;
          assert r in all;
        }
      }
    }
  }

  lemma SplitInTime(a: seq<Sample>, b: seq<Sample>)
    requires InTimeOrder(a + b)
    ensures InTimeOrder(a) && InTimeOrder(b) && forall p, q | p in a && q in b :: p.t <= q.t
  {
    var all := a + b;
    assert forall i | 0 <= i < |a| :: all[i] == a[i];
    assert forall i | 0 <= i < |b| :: all[|a| + i] == b[i];
  }

  lemma JoinInTime(a: seq<Sample>, b: seq<Sample>)
    requires InTimeOrder(a) && InTimeOrder(b) && forall p, q | p in a && q in b :: p.t <= q.t
    ensures InTimeOrder(a + b)
  {
  }

  lemma ReducedInTime(bucket: Group, agg: Aggregation)
    requires InTimeOrder(bucket)
    ensures InTimeOrder(Reduced(bucket, agg))
    ensures forall p | p in Reduced(bucket, agg) :: bucket[0].t <= p.t <= bucket[|bucket| - 1].t
  {
  }

  /**
   * What each reduction shows of a bucket: its first lowest or first highest sample, or both in the
   * order they occurred; or at the time of its last sample the sum, the number, or what times the
   * number is the sum.
   */
  lemma ReducedIs(bucket: Group) returns (lo: nat, hi: nat)
    ensures IsFirstLowest(bucket, lo) && Reduced(bucket, Min) == [bucket[lo]]
    ensures IsFirstHighest(bucket, hi) && Reduced(bucket, Max) == [bucket[hi]]
    ensures
      Reduced(bucket, MinMax) ==
      if lo == hi then [bucket[lo]] else if lo < hi then [bucket[lo], bucket[hi]] else [bucket[hi], bucket[lo]]
    ensures
      var n, last := |bucket| as real, bucket[|bucket| - 1].t;
      && Reduced(bucket, Sum) == [Sample(last, Total(bucket))] && Reduced(bucket, Count) == [Sample(last, n)]
      && |Reduced(bucket, Avg)| == 1 && Reduced(bucket, Avg)[0].t == last
      && Reduced(bucket, Avg)[0].v * n == Total(bucket)
  {
    lo, hi := LowestAt(bucket), HighestAt(bucket);
    ShareTimes(Total(bucket), |bucket| as real);
  }

  ghost predicate IsFirstLowest(bucket: Group, i: nat) {
    i < |bucket| && forall j | 0 <= j < |bucket| :: bucket[i].v <= bucket[j].v && (j < i ==> bucket[i].v < bucket[j].v)
  }

  ghost predicate IsFirstHighest(bucket: Group, i: nat) {
    i < |bucket| && forall j | 0 <= j < |bucket| :: bucket[i].v >= bucket[j].v && (j < i ==> bucket[i].v > bucket[j].v)
  }

  lemma ShareTimes(total: real, n: real)
    requires n > 0.0
    ensures total / n * n == total
  {
  }

  /** An average lies between the extremes of its bucket. */
  lemma AverageIsBetween(bucket: Group)
    ensures Reduced(bucket, Min)[0].v <= Reduced(bucket, Avg)[0].v <= Reduced(bucket, Max)[0].v
  {
    var lo, hi, n := bucket[LowestAt(bucket)].v, bucket[HighestAt(bucket)].v, |bucket| as real;
    TotalIsBetween(bucket, lo, hi);
    Share(lo, Total(bucket), hi, n);
  }

  lemma Share(lo: real, total: real, hi: real, n: real)
    requires n > 0.0 && lo * n <= total <= hi * n
    ensures lo <= total / n <= hi
  {
  }

  lemma {:induction false} TotalIsBetween(s: seq<Sample>, lo: real, hi: real)
    requires forall i | 0 <= i < |s| :: lo <= s[i].v <= hi
    ensures lo * |s| as real <= Total(s) <= hi * |s| as real
  {
    if s != [] {
      TotalIsBetween(s[..|s| - 1], lo, hi);
    }
  }

  // Rates: the change per second from one bucket's end to the next.

  /** What one point adds: nothing when no time passed, and no change when the value fell. */
  function RateAt(before: Sample, p: Sample): seq<Sample> {
    var dt, dv := (p.t - before.t) / 1000.0, p.v - before.v;
    if dt <= 0.0 then [] else [Sample(p.t, (if dv < 0.0 then 0.0 else dv) / dt)]
  }

  function Rates(points: seq<Sample>): seq<Sample> {
    if |points| < 2 then [] else
      var n := |points| - 1;
      Rates(points[..n]) + RateAt(points[n - 1], points[n])
  }

  method RateOf(points: seq<Sample>) returns (out: seq<Sample>)
    ensures out == Rates(points)
  {
    out := [];
    if |points| < 2 {
      return;
    }
    assert Rates(points[..1]) == [];
    for i := 1 to |points|
      invariant out == Rates(points[..i])
    {
      assert points[..i + 1][..i] == points[..i];
      var dt := (points[i].t - points[i - 1].t) / 1000.0;
      if dt <= 0.0 {
        continue;
      }
      var dv := points[i].v - points[i - 1].v;
      if dv < 0.0 {
        dv := 0.0;
      }
      out := out + [Sample(points[i].t, dv / dt)];
    }
    assert points[..|points|] == points;
  }

  ghost predicate Later(points: seq<Sample>) {
    forall i, j | 0 <= i < j < |points| :: points[i].t < points[j].t
  }

  ghost predicate NeverFalls(points: seq<Sample>) {
    forall i, j | 0 <= i < j < |points| :: points[i].v <= points[j].v
  }

  /** The rates, each times the seconds it stands for. */
  function Grown(points: seq<Sample>, rates: seq<Sample>): real
    requires points != [] && |rates| == |points| - 1
  {
    if rates == [] then 0.0 else
      var n := |rates|;
      Grown(points[..n], rates[..n - 1]) + rates[n - 1].v * ((points[n].t - points[n - 1].t) / 1000.0)
  }

  /** For rising times there is a rate for every point but the first, and it stands at that point's time. */
  lemma {:induction false} RatePerPoint(points: seq<Sample>)
    requires points != [] && Later(points)
    ensures |Rates(points)| == |points| - 1
    ensures forall i | 0 <= i < |Rates(points)| :: Rates(points)[i].t == points[i + 1].t && Rates(points)[i].v >= 0.0
  {
    if |points| >= 2 {
      RatePerPoint(points[..|points| - 1]);
    }
  }

  /** Each of these rates is the change over its own interval. */
  lemma {:induction false} RatesAre(points: seq<Sample>, i: nat)
    requires Later(points) && i + 1 < |points|
    ensures i < |Rates(points)| && IsRate(Rates(points)[i].v, points[i], points[i + 1])
  {
    hide IsRate;
    var n := |points| - 1;
    RatePerPoint(points);
    RatePerPoint(points[..n]);
    if i + 1 < n {
      RatesAre(points[..n], i);
    } else {
      RateIs(points[n - 1], points[n]);
    }
  }

  /** Over the seconds between two points it makes up the change, or nothing where the value fell. */
  ghost predicate IsRate(rate: real, before: Sample, p: Sample) {
    rate * ((p.t - before.t) / 1000.0) == if p.v < before.v then 0.0 else p.v - before.v
  }

  lemma RateIs(before: Sample, p: Sample)
    requires before.t < p.t
    ensures |RateAt(before, p)| == 1 && IsRate(RateAt(before, p)[0].v, before, p)
  {
  }

  /**
   * What the rates add up to: never less than the whole change, and exactly
   * the whole change if and only if the values never fall. A counter that
   * starts over is the case where it is more.
   */
  lemma {:induction false} RatesTelescope(points: seq<Sample>)
    requires points != [] && Later(points)
    ensures
      |Rates(points)| == |points| - 1 &&
      var grown, change := Grown(points, Rates(points)), points[|points| - 1].v - points[0].v;
      grown >= change && (grown == change <==> NeverFalls(points))
  {
    RatePerPoint(points);
    if |points| >= 2 {
      hide Rates, Grown, Later, NeverFalls;
      var n := |points| - 1;
      FrontKeeps(points);
      RatesTelescope(points[..n]);
      GrownByOne(points);
    } else {
      NoRate(points);
    }
  }

  lemma NoRate(points: seq<Sample>)
    requires |points| == 1
    ensures Rates(points) == [] && Grown(points, []) == 0.0 && NeverFalls(points)
  {
  }

  lemma FrontKeeps(points: seq<Sample>)
    requires |points| >= 2 && Later(points)
    ensures
      var n := |points| - 1;
      && Later(points[..n]) && points[n - 1].t < points[n].t
      && (NeverFalls(points) <==> NeverFalls(points[..n]) && points[n - 1].v <= points[n].v)
  {
  }

  lemma GrownByOne(points: seq<Sample>)
    requires |points| >= 2 && |Rates(points)| == |points| - 1 && |Rates(points[..|points| - 1])| == |points| - 2
    requires points[|points| - 2].t < points[|points| - 1].t
    ensures
      var n := |points| - 1;
      Grown(points, Rates(points)) ==
      Grown(points[..n], Rates(points[..n])) +
      if points[n].v < points[n - 1].v then 0.0 else points[n].v - points[n - 1].v
  {
  }

  /** The newest sample of every bucket; the samples themselves when there are few enough. */
  function Ends(samples: seq<Sample>, points: int): seq<Sample> {
    if points <= 0 || |samples| <= points then samples else Lasts(AllBuckets(samples, points))
  }

  method BucketLast(samples: seq<Sample>, points: int) returns (out: seq<Sample>)
    ensures out == Ends(samples, points)
  {
    if points <= 0 || |samples| <= points {
      return samples;
    }
    hide AllBuckets;
    var parts := Buckets(samples, points);
    out := [];
    for b := 0 to |parts|
      invariant |out| == b && out == Lasts(parts[..b])
    {
      assert parts[..b + 1][..b] == parts[..b];
      out := out + [parts[b][|parts[b]| - 1]];
    }
    assert parts[..|parts|] == parts;
  }

  function Lasts(parts: seq<Group>): (r: seq<Sample>)
    ensures |r| == |parts|
  {
    if parts == [] then [] else
      var last := parts[|parts| - 1];
      Lasts(parts[..|parts| - 1]) + [last[|last| - 1]]
  }

  lemma {:induction false} LastsAre(parts: seq<Group>, b: nat)
    requires b < |parts|
    ensures Lasts(parts)[b] == parts[b][|parts[b]| - 1]
  {
    if b + 1 < |parts| {
      LastsAre(parts[..|parts| - 1], b);
    }
  }

  /** Samples of the series, in its order, and rising where it rises. */
  ghost predicate SpreadLike(out: seq<Sample>, all: seq<Sample>) {
    && (forall p | p in out :: p in all)
    && (Later(all) ==> Later(out))
    && (NeverFalls(all) ==> NeverFalls(out))
  }

  /** The ends of the buckets are such samples, up to the last of the series. */
  lemma {:induction false} LastsAreSpread(parts: seq<Group>)
    ensures
      var all, out := Flat(parts), Lasts(parts);
      (parts != [] ==> all != [] && out[|out| - 1] == all[|all| - 1]) && SpreadLike(out, all)
  {
    hide SpreadLike;
    if parts == [] {
      NothingIsSpread();
    } else {
      var front, last := parts[..|parts| - 1], parts[|parts| - 1];
      LastsAreSpread(front);
      SpreadOn(Flat(front), Lasts(front), last);
    }
  }

  lemma NothingIsSpread()
    ensures SpreadLike([], [])
  {
  }

  lemma EndsAreSpread(samples: seq<Sample>, points: int)
    ensures
      var ends := Ends(samples, points);
      && (samples != [] ==> ends != [] && ends[|ends| - 1] == samples[|samples| - 1])
      && (points > 0 ==> |ends| == Least(points, |samples|))
      && (Later(samples) ==> Later(ends)) && (NeverFalls(samples) ==> NeverFalls(ends))
  {
    if points > 0 && |samples| > points {
      FlatBuckets(samples, points);
      LastsAreSpread(AllBuckets(samples, points));
    }
  }

  lemma SplitSpread(a: seq<Sample>, b: seq<Sample>)
    ensures Later(a + b) ==> Later(a) && forall p, q | p in a && q in b :: p.t < q.t
    ensures NeverFalls(a + b) ==> NeverFalls(a) && forall p, q | p in a && q in b :: p.v <= q.v
  {
    var all := a + b;
    assert forall i | 0 <= i < |a| :: all[i] == a[i];
    assert forall i | 0 <= i < |b| :: all[|a| + i] == b[i];
  }

  /** One more group adds its last sample. */
  lemma SpreadOn(a: seq<Sample>, out: seq<Sample>, last: Group)
    requires SpreadLike(out, a)
    ensures SpreadLike(out + [last[|last| - 1]], a + last)
  {
    hide Later, NeverFalls;
    SplitSpread(a, last);
    JoinSpread(out, a, last[|last| - 1], last);
  }

  lemma JoinSpread(out: seq<Sample>, a: seq<Sample>, p: Sample, last: Group)
    requires (forall q | q in out :: q in a) && p in last
    ensures Later(out) && (forall q, r | q in a && r in last :: q.t < r.t) ==> Later(out + [p])
    ensures NeverFalls(out) && (forall q, r | q in a && r in last :: q.v <= r.v) ==> NeverFalls(out + [p])
  {
  }

  // The chart.

  /** A series reduced to about so many points. */
  method Aggregate(samples: seq<Sample>, points: int, agg: Aggregation) returns (out: seq<Sample>)
    ensures agg == Rate ==> out == Rates(Ends(samples, points))
    ensures agg != Rate ==> out == ReducedAll(AllBuckets(samples, if points <= 0 then 1 else points), agg)
    ensures agg != Rate ==> |out| <= (if agg == MinMax then 2 else 1) * (if points <= 0 then 1 else points)
    ensures agg != Rate && InTimeOrder(samples) ==> InTimeOrder(out)
    ensures agg == MinMax ==> KeepsExtremes(out, samples)
    ensures agg == Sum ==> Total(out) == Total(samples)
    ensures agg == Count ==> Total(out) == |samples| as real
  {
    hide Reduced, ReducedAll, AllBuckets, Flat, Total, KeepsExtremes, InTimeOrder;
    if agg == Rate {
      var ends := BucketLast(samples, points);
      out := RateOf(ends);
      return;
    }
    var n := if points <= 0 then 1 else points;
    var parts := Buckets(samples, n);
    out := [];
    FewPoints(parts[..0], agg);
    for b := 0 to |parts|
      invariant out == ReducedAll(parts[..b], agg)
    {
      ReducedOneMore(parts, b, agg);
      var some := Reduce(parts[b], agg);
      out := out + some;
    }
    assert parts[..|parts|] == parts;
    FewPoints(parts, agg);
    SumAndCountAreKept(parts);
    ExtremesAreKept(parts);
    if InTimeOrder(samples) {
      TimeGoesForward(parts, agg);
    }
  }

  lemma ReducedOneMore(parts: seq<Group>, b: nat, agg: Aggregation)
    requires b < |parts|
    ensures ReducedAll(parts[..b + 1], agg) == ReducedAll(parts[..b], agg) + Reduced(parts[b], agg)
  {
    assert parts[..b + 1][..b] == parts[..b];
  }

  lemma {:induction false} FewPoints(parts: seq<Group>, agg: Aggregation)
    ensures agg != Rate ==> |ReducedAll(parts, agg)| <= (if agg == MinMax then 2 else 1) * |parts|
  {
    if parts != [] {
      FewPoints(parts[..|parts| - 1], agg);
    }
  }

  /**
   * The rate branch: between the end of the first bucket and the newest value
   * the rates account for the whole change, whatever the number of buckets.
   */
  lemma RatesAccountForChange(samples: seq<Sample>, points: int)
    requires samples != [] && Later(samples) && NeverFalls(samples)
    ensures
      var ends, rates := Ends(samples, points), Rates(Ends(samples, points));
      && ends != [] && |rates| == |ends| - 1
      && (points > 0 ==> |ends| == Least(points, |samples|))
      && Grown(ends, rates) == samples[|samples| - 1].v - ends[0].v
  {
    hide Later, NeverFalls, Grown;
    EndsAreSpread(samples, points);
    RatesTelescope(Ends(samples, points));
  }
}
