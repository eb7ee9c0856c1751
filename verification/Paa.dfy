// PAA: a time series shrunk to fewer points, each the average of a block of consecutive points.
module Paa {
  import opened Basics
  import opened WarpGrid

  datatype Series = Series(times: seq<real>, points: seq<Point>) {
    function Size(): nat {
      |points|
    }

    // What addLast asserts of every series: times strictly increase, and every point has as many
    // values as the series has dimensions.
    ghost predicate Valid(dims: nat) {
      && |times| == |points|
      && (forall a, b :: 0 <= a < b < |times| ==> times[a] < times[b])
      && (forall k :: 0 <= k < |points| ==> |points[k]| == dims)
    }
  }

  // ---------------------------------------------------------------- block boundaries

  // std::round on a nonnegative argument.
  function Round(x: real): int {
    (x + 0.5).Floor
  }

  // Where block `k` starts when `n` points are shrunk to `m`.
  function BlockStart(n: nat, m: nat, k: nat): int
    requires 0 < m
  {
    Round(n as real / m as real * k as real)
  }

  function BlockSize(n: nat, m: nat, k: nat): int
    requires 0 < m
  {
    BlockStart(n, m, k + 1) - BlockStart(n, m, k)
  }

  // Adding y before rounding adds y rounded down or up, and exactly y if y is whole.
  lemma RoundStep(x: real, y: real, q: int)
    requires q as real <= y < q as real + 1.0
    ensures q <= Round(x + y) - Round(x) <= q + 1
    ensures y == q as real ==> Round(x + y) - Round(x) == q
  {
    var a, b := Round(x), Round(x + y);
    assert a as real <= x + 0.5 < a as real + 1.0;
    assert b as real <= x + y + 0.5 < b as real + 1.0;
    assert (b - a) as real < y + 1.0;
    assert (b - a) as real > y - 1.0;
  }

  lemma RealQuotient(n: real, m: real, q: real, r: real)
    requires m > 0.0 && n == q * m + r && 0.0 <= r < m
    ensures q <= n / m < q + 1.0
    ensures r == 0.0 ==> n / m == q
  {
    var y := n / m;
    assert y * m == n;
    CancelFactor(q, y, m);
    CancelFactor(y, q, m);
    assert (q + 1.0) * m == q * m + m;
    CancelFactor(y, q + 1.0, m);
  }

  lemma QuotientBounds(n: nat, m: nat)
    requires 0 < m
    ensures (n / m) as real <= n as real / m as real < (n / m) as real + 1.0
    ensures n % m == 0 ==> n as real / m as real == (n / m) as real
  {
    var q, r := n / m, n % m;
    assert n == q * m + r;
    assert n as real == q as real * m as real + r as real;
    RealQuotient(n as real, m as real, q as real, r as real);
  }

  lemma BlockSizeNear(n: nat, m: nat, k: nat, y: real, q: nat)
    requires 0 < m && y == n as real / m as real && q as real <= y < q as real + 1.0
    ensures q <= BlockSize(n, m, k) <= q + 1
    ensures y == q as real ==> BlockSize(n, m, k) == q
  {
    OneMoreFactor(y, k);
    RoundStep(y * k as real, y, q);
  }

  // Every block has n/m points, rounded down or up; with 0 < m <= n none is empty.
  lemma BlockSizeIsEven(n: nat, m: nat, k: nat)
    requires 0 < m
    ensures n / m <= BlockSize(n, m, k) <= (n + m - 1) / m
    ensures m <= n ==> BlockSize(n, m, k) >= 1
  {
    QuotientBounds(n, m);
    BlockSizeNear(n, m, k, n as real / m as real, n / m);
    DivisionUp(n, m);
    if m <= n {
      QuotientIsPositive(n, m);
    }
  }

  lemma OneMoreFactor(y: real, k: nat)
    ensures y * (k + 1) as real == y * k as real + y
  {
  }

  lemma QuotientIsPositive(n: nat, m: nat)
    requires 0 < m <= n
    ensures n / m >= 1
  {
  }

  lemma DivisionUp(n: nat, m: nat)
    requires 0 < m
    ensures (n + m - 1) / m == n / m + if n % m == 0 then 0 else 1
  {
    var q, r := n / m, n % m;
    assert n == m * q + r;
    var up := if r == 0 then q else q + 1;
    var rest := n + m - 1 - m * up;
    assert 0 <= rest < m by {
      if r != 0 {
        assert m * up == m * q + m;
      }
    }
    assert n + m - 1 == m * up + rest;
    DivisionIsUnique(n + m - 1, m, up, rest);
  }

  lemma AtLeastFactor(m: int, d: int)
    requires m > 0 && d >= 1
    ensures m * d >= m
  {
    assert m * d == m * (d - 1) + m;
  }

  lemma DivisionIsUnique(n: nat, m: nat, q: int, r: int)
    requires 0 < m && 0 <= r < m && n == m * q + r
    ensures n / m == q
  {
    var d := q - n / m;
    assert m * d == n % m - r;
    if d > 0 {
      AtLeastFactor(m, d);
    } else if d < 0 {
      AtLeastFactor(m, -d);
    }
  }

  // The blocks start at the first point and end after the last.
  lemma BlockEnds(n: nat, m: nat)
    requires 0 < m
    ensures BlockStart(n, m, 0) == 0 && BlockStart(n, m, m) == n
  {
    assert n as real / m as real * m as real == n as real;
  }

  lemma {:induction false} BlockStartGrows(n: nat, m: nat, a: nat, b: nat)
    requires 0 < m <= n && a <= b
    ensures 0 <= BlockStart(n, m, a)
    ensures BlockStart(n, m, a) + (b - a) <= BlockStart(n, m, b)
    decreases b
  {
    if a < b {
      BlockStartGrows(n, m, a, b - 1);
      BlockSizeIsEven(n, m, b - 1);
    } else if a > 0 {
      BlockStartGrows(n, m, 0, a - 1);
      BlockSizeIsEven(n, m, a - 1);
      BlockEnds(n, m);
    } else {
      BlockEnds(n, m);
    }
  }

  function BlockSizes(n: nat, m: nat): seq<int>
    requires 0 < m
  {
    seq(m, k requires 0 <= k < m => BlockSize(n, m, k))
  }

  // ---------------------------------------------------------------- averaging

  function Sum(xs: seq<real>, lo: nat, hi: nat): real
    requires lo <= hi <= |xs|
  {
    if lo == hi then 0.0 else Sum(xs, lo, hi - 1) + xs[hi - 1]
  }

  // One coordinate of every point.
  function Coordinate(points: seq<Point>, dims: nat, d: nat): seq<real>
    requires d < dims && forall k :: 0 <= k < |points| ==> |points[k]| == dims
  {
    seq(|points|, k requires 0 <= k < |points| => points[k][d])
  }

  function Mean(xs: seq<real>, lo: nat, hi: nat): real
    requires lo < hi <= |xs|
  {
    Sum(xs, lo, hi) / (hi - lo) as real
  }

  lemma {:induction false} SumBetween(xs: seq<real>, lo: nat, hi: nat, least: real, most: real)
    requires lo <= hi <= |xs| && forall k :: lo <= k < hi ==> least <= xs[k] <= most
    ensures (hi - lo) as real * least <= Sum(xs, lo, hi) <= (hi - lo) as real * most
    decreases hi
  {
    if lo < hi {
      SumBetween(xs, lo, hi - 1, least, most);
      var rest := (hi - 1 - lo) as real;
      assert (hi - lo) as real == rest + 1.0;
      assert (rest + 1.0) * least == rest * least + least;
      assert (rest + 1.0) * most == rest * most + most;
    }
  }

  lemma MeanBetween(xs: seq<real>, lo: nat, hi: nat, least: real, most: real)
    requires lo < hi <= |xs| && forall k :: lo <= k < hi ==> least <= xs[k] <= most
    ensures least <= Mean(xs, lo, hi) <= most
  {
    SumBetween(xs, lo, hi, least, most);
    var count := (hi - lo) as real;
    assert Mean(xs, lo, hi) * count == Sum(xs, lo, hi);
    CancelFactor(least, Mean(xs, lo, hi), count);
    CancelFactor(Mean(xs, lo, hi), most, count);
  }

  lemma BlockRange(n: nat, m: nat, k: nat)
    requires 0 < m <= n && k < m
    ensures 0 <= BlockStart(n, m, k) < BlockStart(n, m, k + 1) <= n
  {
    BlockStartGrows(n, m, k, k + 1);
    BlockStartGrows(n, m, k + 1, m);
    BlockEnds(n, m);
  }

  function BlockMean(xs: seq<real>, m: nat, k: nat): real
    requires 0 < m <= |xs| && k < m
  {
    BlockRange(|xs|, m, k);
    Mean(xs, BlockStart(|xs|, m, k), BlockStart(|xs|, m, k + 1))
  }

  function ShrunkPoint(ts: Series, dims: nat, m: nat, k: nat): Point
    requires ts.Valid(dims) && 0 < m <= ts.Size() && k < m
  {
    seq(dims, d requires 0 <= d < dims => BlockMean(Coordinate(ts.points, dims, d), m, k))
  }

  function Shrunk(ts: Series, dims: nat, m: nat): Series
    requires ts.Valid(dims) && 0 < m <= ts.Size()
  {
    Series(seq(m, k requires 0 <= k < m => BlockMean(ts.times, m, k)),
           seq(m, k requires 0 <= k < m => ShrunkPoint(ts, dims, m, k)))
  }

  // Averaged times still strictly increase, so the shrunk series is again a valid series.
  lemma ShrunkIsValid(ts: Series, dims: nat, m: nat)
    requires ts.Valid(dims) && 0 < m <= ts.Size()
    ensures Shrunk(ts, dims, m).Valid(dims) && Shrunk(ts, dims, m).Size() == m
  {
    var n := ts.Size();
    forall a, b | 0 <= a < b < m ensures BlockMean(ts.times, m, a) < BlockMean(ts.times, m, b) {
      BlockRange(n, m, a);
      BlockRange(n, m, b);
      BlockStartGrows(n, m, a + 1, b);
      var endA, startB := BlockStart(n, m, a + 1), BlockStart(n, m, b);
      MeanBetween(ts.times, BlockStart(n, m, a), endA, ts.times[0], ts.times[endA - 1]);
      MeanBetween(ts.times, startB, BlockStart(n, m, b + 1), ts.times[startB], ts.times[n - 1]);
      assert ts.times[endA - 1] < ts.times[startB];
    }
  }

  // Weighted by block size, the averages add up to the sum of the original values.
  function WeightedSum(xs: seq<real>, m: nat, k: nat): real
    requires 0 < m <= |xs| && k <= m
  {
    if k == 0 then 0.0
    else WeightedSum(xs, m, k - 1) + BlockSize(|xs|, m, k - 1) as real * BlockMean(xs, m, k - 1)
  }

  lemma {:induction false} SumSplit(xs: seq<real>, lo: nat, mid: nat, hi: nat)
    requires lo <= mid <= hi <= |xs|
    ensures Sum(xs, lo, hi) == Sum(xs, lo, mid) + Sum(xs, mid, hi)
    decreases hi
  {
    if mid < hi {
      SumSplit(xs, lo, mid, hi - 1);
    }
  }

  lemma {:induction false} AveragesConserveSum(xs: seq<real>, m: nat, k: nat)
    requires 0 < m <= |xs| && k <= m
    ensures 0 <= BlockStart(|xs|, m, k) <= |xs|
    ensures WeightedSum(xs, m, k) == Sum(xs, 0, BlockStart(|xs|, m, k))
    ensures k == m ==> WeightedSum(xs, m, k) == Sum(xs, 0, |xs|)
  {
    BlockEnds(|xs|, m);
    if k > 0 {
      AveragesConserveSum(xs, m, k - 1);
      BlockRange(|xs|, m, k - 1);
      var lo, hi := BlockStart(|xs|, m, k - 1), BlockStart(|xs|, m, k);
      SumSplit(xs, 0, lo, hi);
      TimesQuotient((hi - lo) as real, Sum(xs, lo, hi));
    }
  }

  // x, as often as the k-th block has points, adds up to the values of that block.
  predicate StandsForBlock(x: real, xs: seq<real>, m: nat, k: nat)
    requires 0 < m && 0 <= BlockStart(|xs|, m, k) <= BlockStart(|xs|, m, k + 1) <= |xs|
  {
    BlockSize(|xs|, m, k) as real * x == Sum(xs, BlockStart(|xs|, m, k), BlockStart(|xs|, m, k + 1))
  }

  // So do the shrunk time and every coordinate of the shrunk point.
  lemma BlockIsAveraged(ts: Series, dims: nat, m: nat, k: nat, d: nat)
    requires ts.Valid(dims) && 0 < m <= ts.Size() && k < m
    ensures 0 <= BlockStart(ts.Size(), m, k) < BlockStart(ts.Size(), m, k + 1) <= ts.Size()
    ensures var s := Shrunk(ts, dims, m);
            && |s.times| == |s.points| == m && |s.points[k]| == dims
            && StandsForBlock(s.times[k], ts.times, m, k)
            && (d < dims ==> StandsForBlock(s.points[k][d], Coordinate(ts.points, dims, d), m, k))
  {
    BlockMeanTimesSize(ts.times, m, k);
    if d < dims {
      BlockMeanTimesSize(Coordinate(ts.points, dims, d), m, k);
    }
  }

  lemma BlockMeanTimesSize(xs: seq<real>, m: nat, k: nat)
    requires 0 < m <= |xs| && k < m
    ensures 0 <= BlockStart(|xs|, m, k) < BlockStart(|xs|, m, k + 1) <= |xs|
    ensures StandsForBlock(BlockMean(xs, m, k), xs, m, k)
  {
    BlockRange(|xs|, m, k);
    var lo, hi := BlockStart(|xs|, m, k), BlockStart(|xs|, m, k + 1);
    TimesQuotient((hi - lo) as real, Sum(xs, lo, hi));
  }

  // ---------------------------------------------------------------- the class

  class PAA {
    var timeReadings: seq<real>
    var tsArray: seq<Point>
    var aggPtSize: seq<int>
    const originalLength: int

    function AsSeries(): Series
      reads this
    {
      Series(timeReadings, tsArray)
    }

    constructor (ts: Series, dims: nat, shrunkSize: nat)
      requires ts.Valid(dims) && 0 < shrunkSize <= ts.Size()
      ensures AsSeries() == Shrunk(ts, dims, shrunkSize)
      ensures aggPtSize == BlockSizes(ts.Size(), shrunkSize)
      ensures originalLength == ts.Size()
    {
      timeReadings, tsArray := [], [];
      aggPtSize := seq(shrunkSize, _ => 0);
      originalLength := ts.Size();
      new;
      ghost var n := ts.Size();
      var m := shrunkSize;
      ShrunkIsValid(ts, dims, m);
      BlockEnds(n, m);
      var ptToReadFrom := 0;
      while ptToReadFrom < ts.Size()
        invariant |timeReadings| <= m && |aggPtSize| == m
        invariant ptToReadFrom == BlockStart(n, m, |timeReadings|)
        invariant ptToReadFrom < n <==> |timeReadings| < m
        invariant timeReadings == Shrunk(ts, dims, m).times[..|timeReadings|]
        invariant tsArray == Shrunk(ts, dims, m).points[..|timeReadings|]
        invariant forall k :: 0 <= k < |timeReadings| ==> aggPtSize[k] == BlockSize(n, m, k)
        decreases ts.Size() - ptToReadFrom
      {
        ghost var k := |timeReadings|;
        BlockRange(n, m, k);
        var ptToReadTo, timeMean, pointMean := ReadBlock(ts, dims, m, |timeReadings|, ptToReadFrom);
        var ptsToRead := ptToReadTo - ptToReadFrom + 1;
        aggPtSize := aggPtSize[|timeReadings| := ptsToRead];
        // addLast asserts that times increase.
        assert |timeReadings| == 0 || timeMean > timeReadings[|timeReadings| - 1];
        timeReadings := timeReadings + [timeMean];
        tsArray := tsArray + [pointMean];
        ptToReadFrom := ptToReadTo + 1;
        if k + 1 < m {
          BlockRange(n, m, k + 1);
        }
      }
      assert timeReadings == Shrunk(ts, dims, m).times;
      assert tsArray == Shrunk(ts, dims, m).points;
    }

    // One block: where it ends, and its averages.
    static method ReadBlock(ts: Series, dims: nat, m: nat, k: nat, from: nat)
      returns (to: int, timeMean: real, pointMean: Point)
      requires ts.Valid(dims) && k < m <= ts.Size() && from == BlockStart(ts.Size(), m, k)
      ensures to + 1 == BlockStart(ts.Size(), m, k + 1)
      ensures Shrunk(ts, dims, m).Size() == m
      ensures timeMean == Shrunk(ts, dims, m).times[k] && pointMean == Shrunk(ts, dims, m).points[k]
    {
      BlockRange(ts.Size(), m, k);
      ShrunkIsValid(ts, dims, m);
      var reducedPtSize := ts.Size() as real / m as real;
      to := Round(reducedPtSize * (k + 1) as real) - 1;
      assert to + 1 == BlockStart(ts.Size(), m, k + 1);
      timeMean, pointMean := Average(ts, dims, from, to);
      assert pointMean == ShrunkPoint(ts, dims, m, k);
    }

    // The inner loops: time and every dimension averaged over ptToReadFrom..ptToReadTo.
    static method Average(ts: Series, dims: nat, from: nat, to: nat) returns (timeMean: real, pointMean: Point)
      requires ts.Valid(dims) && from <= to < ts.Size()
      ensures timeMean == Mean(ts.times, from, to + 1)
      ensures |pointMean| == dims
      ensures forall d :: 0 <= d < dims ==> pointMean[d] == Mean(Coordinate(ts.points, dims, d), from, to + 1)
    {
      var timeSum := 0.0;
      var sums: seq<real> := seq(dims, _ => 0.0);
      for pt := from to to + 1
        invariant timeSum == Sum(ts.times, from, pt)
        invariant |sums| == dims
        invariant forall d :: 0 <= d < dims ==> sums[d] == Sum(Coordinate(ts.points, dims, d), from, pt)
      {
        timeSum := timeSum + ts.times[pt];
        ghost var before := sums;
        for dim := 0 to dims
          invariant |sums| == dims
          invariant forall d :: 0 <= d < dim ==> sums[d] == before[d] + ts.points[pt][d]
          invariant forall d :: dim <= d < dims ==> sums[d] == before[d]
        {
          sums := sums[dim := sums[dim] + ts.points[pt][dim]];
        }
      }
      timeMean := timeSum / (to - from + 1) as real;
      pointMean := seq(dims, d requires 0 <= d < dims => sums[d] / (to - from + 1) as real);
    }
  }
}
