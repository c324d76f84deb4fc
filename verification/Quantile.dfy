/**
 Quantiles of a cumulative histogram (app/metrics_summary.py:247-269), over the reals; the buckets are
 the selected rows after sorting by bound, and `None` is the bound "+Inf".
 */
module Quantile {
  import opened Prelude

  datatype Bucket = Bucket(upper: Option<real>, count: real)

  // ---------------------------------------------------------------- the loop

  /** The finite bound and the count before bucket `k`. */
  function LowerBound(bs: seq<Bucket>, k: nat): real
    requires k <= |bs|
  {
    if k == 0 then 0.0 else bs[k - 1].upper.GetOr(LowerBound(bs, k - 1))
  }

  function CountBefore(bs: seq<Bucket>, k: nat): real
    requires k <= |bs|
  {
    if k == 0 then 0.0 else bs[k - 1].count
  }

  /** The value read off a bucket that starts at `low` after `before` counts. */
  function Interpolate(low: real, before: real, b: Bucket, target: real): real {
    if b.upper.None? then low
    else if b.count - before <= 0.0 then b.upper.value
    else low + (b.upper.value - low) * ((target - before) / (b.count - before))
  }

  function ReadOff(bs: seq<Bucket>, k: nat, target: real): real
    requires k < |bs|
  {
    Interpolate(LowerBound(bs, k), CountBefore(bs, k), bs[k], target)
  }

  /** Bucket `k` holds the target rank: it is the first whose count reaches it. */
  predicate Holds(bs: seq<Bucket>, k: nat, target: real) {
    k < |bs| && bs[k].count >= target && forall j :: 0 <= j < k ==> bs[j].count < target
  }

  function Total(bs: seq<Bucket>): real {
    if bs == [] then 0.0 else bs[|bs| - 1].count
  }

  /** The target rank of a quantile. */
  function Rank(total: real, q: real): real {
    total * q
  }

  method ValueInBucket(previousUpper: real, previousCount: real, b: Bucket, target: real) returns (v: real)
    ensures v == Interpolate(previousUpper, previousCount, b, target)
  {
    if b.upper.None? { return previousUpper; }
    var bucketCount := b.count - previousCount;
    if bucketCount <= 0.0 { return b.upper.value; }
    var offset := (target - previousCount) / bucketCount;
    return previousUpper + (b.upper.value - previousUpper) * offset;
  }

  method HistogramQuantile(bs: seq<Bucket>, q: real) returns (value: Option<real>, ghost k: nat)
    ensures value.Some? ==> Holds(bs, k, Rank(Total(bs), q)) && value.value == ReadOff(bs, k, Rank(Total(bs), q))
    ensures value.None? <==> Total(bs) <= 0.0 || forall j :: 0 <= j < |bs| ==> bs[j].count < Rank(Total(bs), q)
  {
    k := 0;
    if bs == [] { return None, 0; }
    var total := bs[|bs| - 1].count;
    if total <= 0.0 { return None, 0; }
    var target := total * q;
    var previousUpper, previousCount := 0.0, 0.0;
    for i := 0 to |bs|
      invariant previousUpper == LowerBound(bs, i) && previousCount == CountBefore(bs, i)
      invariant forall j :: 0 <= j < i ==> bs[j].count < target
    {
      var (upper, count) := (bs[i].upper, bs[i].count);
      if count >= target {
        var v := ValueInBucket(previousUpper, previousCount, bs[i], target);
        return Some(v), i;
      }
      previousUpper := upper.GetOr(previousUpper);
      previousCount := count;
    }
    return None, 0;
  }

  // ---------------------------------------------------------------- on a histogram

  /** Distinct ascending bounds, none negative, only the last infinite; cumulative counts; something counted. */
  predicate Histogram(bs: seq<Bucket>) {
    && bs != [] && Total(bs) > 0.0
    && (forall i :: 0 <= i < |bs| - 1 ==> bs[i].upper.Some?)
    && (forall i :: 0 <= i < |bs| && bs[i].upper.Some? ==> bs[i].upper.value >= 0.0)
    && (forall i, j :: 0 <= i < j < |bs| && bs[j].upper.Some? ==> bs[i].upper.Some? && bs[i].upper.value < bs[j].upper.value)
    && (forall i :: 0 <= i < |bs| ==> bs[i].count >= 0.0)
    && (forall i, j :: 0 <= i < j < |bs| ==> bs[i].count <= bs[j].count)
  }

  lemma FractionNonneg(part: real, whole: real)
    requires 0.0 <= part && whole > 0.0
    ensures 0.0 <= part / whole
  {
  }

  lemma FractionSum(a: real, b: real, whole: real)
    requires whole > 0.0
    ensures a / whole + b / whole == (a + b) / whole
  {
  }

  lemma FractionBounds(part: real, whole: real)
    requires 0.0 <= part <= whole && whole > 0.0
    ensures 0.0 <= part / whole <= 1.0
  {
    FractionNonneg(part, whole);
    FractionNonneg(whole - part, whole);
    FractionSum(part, whole - part, whole);
    assert whole / whole == 1.0;
  }

  lemma FractionMonotone(a: real, b: real, whole: real)
    requires a <= b && whole > 0.0
    ensures a / whole <= b / whole
  {
    FractionNonneg(b - a, whole);
    FractionSum(a, b - a, whole);
  }

  lemma StretchBounds(length: real, f: real)
    requires length >= 0.0 && 0.0 <= f <= 1.0
    ensures 0.0 <= length * f <= length
  {
  }

  lemma StretchMonotone(length: real, f: real, g: real)
    requires length >= 0.0 && f <= g
    ensures length * f <= length * g
  {
  }

  lemma InterpolateBounds(low: real, before: real, b: Bucket, target: real)
    requires before <= target <= b.count && (b.upper.Some? ==> low <= b.upper.value)
    ensures low <= Interpolate(low, before, b, target)
    ensures b.upper.Some? ==> Interpolate(low, before, b, target) <= b.upper.value
  {
    if b.upper.Some? && b.count > before {
      FractionBounds(target - before, b.count - before);
      StretchBounds(b.upper.value - low, (target - before) / (b.count - before));
    }
  }

  /** In a bucket with a finite bound the value cuts the width as the target cuts the count. */
  predicate CutsWidth(low: real, before: real, b: Bucket, target: real, v: real) {
    b.upper.Some? && b.count > before ==> (v - low) * (b.count - before) == (b.upper.value - low) * (target - before)
  }

  lemma InterpolateCuts(low: real, before: real, b: Bucket, target: real)
    ensures CutsWidth(low, before, b, target, Interpolate(low, before, b, target))
  {
    if b.upper.Some? && b.count > before {
      CutsAlike(b.upper.value - low, target - before, b.count - before);
    }
  }

  lemma CutsAlike(width: real, part: real, whole: real)
    requires whole > 0.0
    ensures (width * (part / whole)) * whole == width * part
  {
    var f := part / whole;
    assert f * whole == part;
    assert (width * f) * whole == width * (f * whole);
  }

  lemma InterpolateMonotone(low: real, before: real, b: Bucket, t: real, t': real)
    requires before <= t <= t' <= b.count && (b.upper.Some? ==> low <= b.upper.value)
    ensures Interpolate(low, before, b, t) <= Interpolate(low, before, b, t')
  {
    if b.upper.Some? && b.count > before {
      FractionMonotone(t - before, t' - before, b.count - before);
      StretchMonotone(b.upper.value - low, (t - before) / (b.count - before), (t' - before) / (b.count - before));
    }
  }

  lemma RankInRange(total: real, q: real)
    requires total > 0.0 && 0.0 <= q <= 1.0
    ensures 0.0 <= Rank(total, q) <= total
  {
    StretchBounds(total, q);
  }

  lemma HolderBounds(bs: seq<Bucket>, k: nat, target: real)
    requires Histogram(bs) && 0.0 <= target && Holds(bs, k, target)
    ensures 0.0 <= CountBefore(bs, k) <= target <= bs[k].count && 0.0 <= LowerBound(bs, k)
    ensures bs[k].upper.Some? ==> LowerBound(bs, k) <= bs[k].upper.value
  {
    if k > 0 { assert bs[k - 1].count < target && bs[k - 1].upper.Some?; }
  }

  /** The value read off the bucket that holds the target rank lies in that bucket. */
  lemma ReadOffLiesInBucket(bs: seq<Bucket>, k: nat, target: real)
    requires Histogram(bs) && 0.0 <= target && Holds(bs, k, target)
    ensures 0.0 <= LowerBound(bs, k) <= ReadOff(bs, k, target)
    ensures if bs[k].upper.None? then ReadOff(bs, k, target) == LowerBound(bs, k)
            else ReadOff(bs, k, target) <= bs[k].upper.value
    ensures CutsWidth(LowerBound(bs, k), CountBefore(bs, k), bs[k], target, ReadOff(bs, k, target))
  {
    HolderBounds(bs, k, target);
    InterpolateBounds(LowerBound(bs, k), CountBefore(bs, k), bs[k], target);
    InterpolateCuts(LowerBound(bs, k), CountBefore(bs, k), bs[k], target);
  }

  lemma HolderExists(bs: seq<Bucket>, target: real) returns (k: nat)
    requires Histogram(bs) && target <= Total(bs)
    ensures Holds(bs, k, target)
  {
    k := |bs| - 1;
    while k > 0 && bs[k - 1].count >= target
      invariant k < |bs| && bs[k].count >= target
    {
      k := k - 1;
    }
    forall j | 0 <= j < k ensures bs[j].count < target {
      assert bs[j].count <= bs[k - 1].count;
    }
  }

  predicate LargestBound(bs: seq<Bucket>, j: nat) {
    j < |bs| && bs[j].upper.Some? && (j == |bs| - 1 || bs[j + 1].upper.None?)
  }

  lemma WithinLargestBound(bs: seq<Bucket>, k: nat, target: real, j: nat)
    requires Histogram(bs) && 0.0 <= target && Holds(bs, k, target) && LargestBound(bs, j)
    ensures ReadOff(bs, k, target) <= bs[j].upper.value
  {
    ReadOffLiesInBucket(bs, k, target);
    if bs[k].upper.Some? { assert k <= j; } else { assert k == j + 1; }
  }

  /** For every q in [0, 1] there is a value, and it never passes the largest finite bound. */
  lemma QuantileExists(bs: seq<Bucket>, q: real) returns (k: nat)
    requires Histogram(bs) && 0.0 <= q <= 1.0
    ensures Holds(bs, k, Rank(Total(bs), q))
    ensures forall j: nat :: LargestBound(bs, j) ==> ReadOff(bs, k, Rank(Total(bs), q)) <= bs[j].upper.value
  {
    RankInRange(Total(bs), q);
    k := HolderExists(bs, Rank(Total(bs), q));
    forall j: nat | LargestBound(bs, j) ensures ReadOff(bs, k, Rank(Total(bs), q)) <= bs[j].upper.value {
      WithinLargestBound(bs, k, Rank(Total(bs), q), j);
    }
  }

  lemma StretchStrictly(length: real, f: real, g: real)
    requires length > 0.0 && f < g
    ensures length * f < length * g
  {
  }

  lemma ShareOf(part: real, whole: real, q: real)
    requires whole > 0.0
    ensures part >= whole * q <==> part / whole >= q
  {
    var f := part / whole;
    assert f * whole == part;
    if f >= q { StretchMonotone(whole, q, f); } else { StretchStrictly(whole, f, q); }
  }

  /** What the quantile is: the first bucket up to whose bound at least the share `q` of everything was counted. */
  lemma HolderHasShare(bs: seq<Bucket>, k: nat, q: real)
    requires k < |bs| && Total(bs) > 0.0
    ensures Holds(bs, k, Rank(Total(bs), q)) <==>
            bs[k].count / Total(bs) >= q && forall j :: 0 <= j < k ==> bs[j].count / Total(bs) < q
  {
    ShareOf(bs[k].count, Total(bs), q);
    forall j | 0 <= j < k ensures bs[j].count < Rank(Total(bs), q) <==> bs[j].count / Total(bs) < q {
      ShareOf(bs[j].count, Total(bs), q);
    }
  }

  /** Where that bucket starts: at the bound and the count of the one before it, the first at zero. */
  lemma BucketEdges(bs: seq<Bucket>, k: nat)
    requires Histogram(bs) && k < |bs|
    ensures LowerBound(bs, k) == (if k == 0 then 0.0 else bs[k - 1].upper.value)
    ensures CountBefore(bs, k) == (if k == 0 then 0.0 else bs[k - 1].count)
    ensures Total(bs) == bs[|bs| - 1].count
  {
    assert k > 0 ==> bs[k - 1].upper.Some?;
  }

  lemma RankMonotone(total: real, q: real, q': real)
    requires total > 0.0 && q <= q'
    ensures Rank(total, q) <= Rank(total, q')
  {
    StretchMonotone(total, q, q');
  }

  lemma ReadOffMonotone(bs: seq<Bucket>, t: real, t': real, k: nat, k': nat)
    requires Histogram(bs) && 0.0 <= t <= t' && Holds(bs, k, t) && Holds(bs, k', t')
    ensures ReadOff(bs, k, t) <= ReadOff(bs, k', t')
  {
    if k == k' {
      HolderBounds(bs, k, t);
      InterpolateMonotone(LowerBound(bs, k), CountBefore(bs, k), bs[k], t, t');
    } else {
      assert k < k';
      ReadOffLiesInBucket(bs, k, t);
      ReadOffLiesInBucket(bs, k', t');
      LowerBoundCovers(bs, k, k');
    }
  }

  /** A larger q never gives a smaller value. */
  lemma QuantileMonotone(bs: seq<Bucket>, q: real, q': real, k: nat, k': nat)
    requires Histogram(bs) && 0.0 <= q <= q' <= 1.0
    requires Holds(bs, k, Rank(Total(bs), q)) && Holds(bs, k', Rank(Total(bs), q'))
    ensures ReadOff(bs, k, Rank(Total(bs), q)) <= ReadOff(bs, k', Rank(Total(bs), q'))
  {
    RankInRange(Total(bs), q);
    RankMonotone(Total(bs), q, q');
    ReadOffMonotone(bs, Rank(Total(bs), q), Rank(Total(bs), q'), k, k');
  }

  lemma LowerBoundCovers(bs: seq<Bucket>, k: nat, k': nat)
    requires Histogram(bs) && k < k' < |bs|
    ensures bs[k].upper.Some? && bs[k].upper.value <= LowerBound(bs, k')
  {
    assert bs[k' - 1].upper.Some?;
  }
}
