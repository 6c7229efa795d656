// components/clock_sync/consensus_math.h: the mean with one reweighting pass.
module ConsensusMath {
  import opened Numeric
  import opened Permutation

  const CONSENSUS_REWEIGHT_K: real := 2.0
  const CONSENSUS_SCALE_FLOOR_US: real := 50.0

  // ----- the estimator as a function of the sequence

  // Sums run in the order of the loops: the last value is added last.
  function Sum(s: seq<real>): real {
    if s == [] then 0.0 else Sum(s[..|s| - 1]) + s[|s| - 1]
  }

  function Mean(s: seq<real>): real
    requires s != []
  {
    Sum(s) / |s| as real
  }

  function Deviation(s: seq<real>, m: real): real {
    if s == [] then 0.0 else Deviation(s[..|s| - 1], m) + Abs(s[|s| - 1] - m)
  }

  function Scale(dev: real, n: nat, floor: real): real
    requires n > 0
  {
    Max(dev / n as real, floor) * CONSENSUS_REWEIGHT_K
  }

  function WeightOf(v: real, m: real, scale: real): (w: real)
    requires scale > 0.0
    ensures 0.0 < w <= 1.0
  {
    var d := (v - m) / scale;
    ReciprocalInRange(d);
    1.0 / (1.0 + d * d)
  }

  lemma ReciprocalInRange(d: real)
    ensures 1.0 + d * d >= 1.0
    ensures 0.0 < 1.0 / (1.0 + d * d) <= 1.0
  {
    assert d * d >= 0.0;
    var q := 1.0 + d * d;
    var w := 1.0 / q;
    assert w * q == 1.0;
    if w <= 0.0 {
      MulMono(w, 0.0, q);
    }
    if w > 1.0 {
      MulMono(1.0, w, q);
    }
  }

  function Weighted(v: real, w: real): real {
    w * v
  }

  function WeightSum(s: seq<real>, m: real, scale: real): real
    requires scale > 0.0
  {
    if s == [] then 0.0 else WeightSum(s[..|s| - 1], m, scale) + WeightOf(s[|s| - 1], m, scale)
  }

  function WeightedSum(s: seq<real>, m: real, scale: real): real
    requires scale > 0.0
  {
    if s == [] then 0.0
    else WeightedSum(s[..|s| - 1], m, scale) + Weighted(s[|s| - 1], WeightOf(s[|s| - 1], m, scale))
  }

  function RobustScale(s: seq<real>, floor: real): (scale: real)
    requires s != [] && floor > 0.0
    ensures scale > 0.0
  {
    Scale(Deviation(s, Mean(s)), |s|, floor)
  }

  lemma {:induction false} WeightSumPositive(s: seq<real>, m: real, scale: real)
    requires scale > 0.0 && s != []
    ensures 0.0 < WeightSum(s, m, scale) <= |s| as real
  {
    if |s| > 1 {
      WeightSumPositive(s[..|s| - 1], m, scale);
    }
  }

  function RobustMean(s: seq<real>, floor: real): real
    requires s != [] && floor > 0.0
  {
    if |s| < 3 then Mean(s)
    else
      var scale := RobustScale(s, floor);
      WeightSumPositive(s, Mean(s), scale);
      WeightedSum(s, Mean(s), scale) / WeightSum(s, Mean(s), scale)
  }

  // ----- the loops

  lemma LoopStep(s: seq<real>, i: nat, m: real, scale: real)
    requires i < |s| && scale > 0.0
    ensures Sum(s[..i + 1]) == Sum(s[..i]) + s[i]
    ensures Deviation(s[..i + 1], m) == Deviation(s[..i], m) + Abs(s[i] - m)
    ensures WeightSum(s[..i + 1], m, scale) == WeightSum(s[..i], m, scale) + WeightOf(s[i], m, scale)
    ensures WeightedSum(s[..i + 1], m, scale) == WeightedSum(s[..i], m, scale) + Weighted(s[i], WeightOf(s[i], m, scale))
  {
    assert s[..i + 1][..i] == s[..i];
  }

  lemma RobustMeanIs(s: seq<real>, floor: real)
    requires s != [] && floor > 0.0
    ensures var (m, n) := (Sum(s) / |s| as real, |s|);
      var scale := Scale(Deviation(s, m), n, floor);
      && scale > 0.0 && (n >= 3 ==> WeightSum(s, m, scale) != 0.0)
      && RobustMean(s, floor) == if n < 3 then m else WeightedSum(s, m, scale) / WeightSum(s, m, scale)
  {
    WeightSumPositive(s, Mean(s), RobustScale(s, floor));
  }

  method ComputeRobustMean(vals: array<real>, n: nat, floor: real) returns (r: real)
    requires 0 < n <= vals.Length && floor > 0.0
    ensures r == RobustMean(vals[..n], floor)
  {
    hide WeightOf, Weighted, Scale, Abs, RobustMean;
    ghost var s := vals[..n];
    var sum := 0.0;
    for i := 0 to n
      invariant sum == Sum(s[..i])
    {
      LoopStep(s, i, 0.0, 1.0);
      sum := sum + vals[i];
    }
    assert s[..n] == s;
    var mean0 := sum / n as real;
    RobustMeanIs(s, floor);
    if n < 3 {
      return mean0;
    }
    var dev := 0.0;
    for i := 0 to n
      invariant dev == Deviation(s[..i], mean0)
    {
      LoopStep(s, i, mean0, 1.0);
      dev := dev + Abs(vals[i] - mean0);
    }
    var scale := Scale(dev, n, floor);
    var wsum, wvsum := 0.0, 0.0;
    for i := 0 to n
      invariant wsum == WeightSum(s[..i], mean0, scale) && wvsum == WeightedSum(s[..i], mean0, scale)
    {
      LoopStep(s, i, mean0, scale);
      var w := WeightOf(vals[i], mean0, scale);
      wsum := wsum + w;
      wvsum := wvsum + Weighted(vals[i], w);
    }
    return wvsum / wsum;
  }

  // ----- permutation

  lemma {:induction false} SumWithout(s: seq<real>, i: nat)
    requires i < |s|
    ensures Sum(s) == Sum(Without(s, i)) + s[i]
  {
    var l := |s| - 1;
    if i == l {
      assert Without(s, i) == s[..l];
    } else {
      SumWithout(s[..l], i);
      assert Without(s, i)[..l - 1] == Without(s[..l], i);
    }
  }

  lemma {:induction false} DeviationWithout(s: seq<real>, i: nat, m: real)
    requires i < |s|
    ensures Deviation(s, m) == Deviation(Without(s, i), m) + Abs(s[i] - m)
  {
    var l := |s| - 1;
    if i == l {
      assert Without(s, i) == s[..l];
    } else {
      DeviationWithout(s[..l], i, m);
      assert Without(s, i)[..l - 1] == Without(s[..l], i);
    }
  }

  lemma {:induction false} WeightsWithout(s: seq<real>, i: nat, m: real, scale: real)
    requires i < |s| && scale > 0.0
    ensures WeightSum(s, m, scale) == WeightSum(Without(s, i), m, scale) + WeightOf(s[i], m, scale)
    ensures WeightedSum(s, m, scale) == WeightedSum(Without(s, i), m, scale) + Weighted(s[i], WeightOf(s[i], m, scale))
  {
    hide WeightOf;
    var l := |s| - 1;
    if i == l {
      assert Without(s, i) == s[..l];
    } else {
      WeightsWithout(s[..l], i, m, scale);
      assert Without(s, i)[..l - 1] == Without(s[..l], i);
    }
  }

  lemma {:induction false} SumPermutes(s: seq<real>, t: seq<real>)
    requires multiset(s) == multiset(t)
    ensures Sum(s) == Sum(t)
    decreases |s|
  {
    SameSize(s, t);
    if s != [] {
      var j := IndexIn(s, t);
      SumPermutes(s[..|s| - 1], Without(t, j));
      SumWithout(t, j);
    }
  }

  lemma {:induction false} DeviationPermutes(s: seq<real>, t: seq<real>, m: real)
    requires multiset(s) == multiset(t)
    ensures Deviation(s, m) == Deviation(t, m)
    decreases |s|
  {
    SameSize(s, t);
    if s != [] {
      var j := IndexIn(s, t);
      DeviationPermutes(s[..|s| - 1], Without(t, j), m);
      DeviationWithout(t, j, m);
    }
  }

  lemma {:induction false} WeightsPermute(s: seq<real>, t: seq<real>, m: real, scale: real)
    requires multiset(s) == multiset(t) && scale > 0.0
    ensures WeightSum(s, m, scale) == WeightSum(t, m, scale)
    ensures WeightedSum(s, m, scale) == WeightedSum(t, m, scale)
    decreases |s|
  {
    SameSize(s, t);
    if s != [] {
      var j := IndexIn(s, t);
      WeightsPermute(s[..|s| - 1], Without(t, j), m, scale);
      WeightsWithout(t, j, m, scale);
    }
  }

  // The estimate is a function of the multiset of values.
  lemma RobustMeanPermutes(s: seq<real>, t: seq<real>, floor: real)
    requires s != [] && multiset(s) == multiset(t) && floor > 0.0
    ensures t != [] && RobustMean(s, floor) == RobustMean(t, floor)
  {
    SameSize(s, t);
    SumPermutes(s, t);
    DeviationPermutes(s, t, Mean(s));
    WeightsPermute(s, t, Mean(s), RobustScale(s, floor));
  }

  // ----- convexity

  ghost predicate Bounded(s: seq<real>, lo: real, hi: real) {
    forall i :: 0 <= i < |s| ==> lo <= s[i] <= hi
  }

  lemma {:induction false} SumBounds(s: seq<real>, lo: real, hi: real)
    requires Bounded(s, lo, hi)
    ensures |s| as real * lo <= Sum(s) <= |s| as real * hi
  {
    if s != [] {
      SumBounds(s[..|s| - 1], lo, hi);
      NextMultiple(|s| - 1, lo);
      NextMultiple(|s| - 1, hi);
    }
  }

  lemma NextMultiple(n: nat, x: real)
    ensures (n + 1) as real * x == n as real * x + x
  {
  }

  lemma WeightedBetween(w: real, v: real, lo: real, hi: real)
    requires w > 0.0 && lo <= v <= hi
    ensures lo * w <= Weighted(v, w) <= hi * w
  {
    MulMono(lo, v, w);
    MulMono(v, hi, w);
  }

  lemma {:induction false} WeightedSumBounds(s: seq<real>, m: real, scale: real, lo: real, hi: real)
    requires Bounded(s, lo, hi) && scale > 0.0
    ensures lo * WeightSum(s, m, scale) <= WeightedSum(s, m, scale) <= hi * WeightSum(s, m, scale)
  {
    hide WeightOf, Weighted;
    if s != [] {
      var p := s[..|s| - 1];
      WeightedSumBounds(p, m, scale, lo, hi);
      var w := WeightOf(s[|s| - 1], m, scale);
      WeightedBetween(w, s[|s| - 1], lo, hi);
      SplitProduct(lo, WeightSum(p, m, scale), w);
      SplitProduct(hi, WeightSum(p, m, scale), w);
    }
  }

  lemma SplitProduct(k: real, x: real, y: real)
    ensures k * (x + y) == k * x + k * y
  {
  }

  lemma QuotientBetween(x: real, w: real, lo: real, hi: real)
    requires w > 0.0 && lo * w <= x <= hi * w
    ensures lo <= x / w <= hi
  {
    var q := x / w;
    assert q * w == x;
    if q < lo {
      MulStrict(q, lo, w, q * w, lo * w);
    }
    if q > hi {
      MulStrict(hi, q, w, hi * w, q * w);
    }
  }

  // The estimate never leaves the range of its inputs.
  lemma RobustMeanIsBetween(s: seq<real>, floor: real, lo: real, hi: real)
    requires s != [] && floor > 0.0 && Bounded(s, lo, hi)
    ensures lo <= RobustMean(s, floor) <= hi
  {
    MeanIsBetween(s, lo, hi);
    if |s| >= 3 {
      hide Mean, RobustScale, Bounded;
      var m, scale := Mean(s), RobustScale(s, floor);
      WeightSumPositive(s, m, scale);
      WeightedMeanIsBetween(s, m, scale, lo, hi);
    }
  }

  lemma MeanIsBetween(s: seq<real>, lo: real, hi: real)
    requires s != [] && Bounded(s, lo, hi)
    ensures lo <= Mean(s) <= hi
  {
    SumBounds(s, lo, hi);
    hide Bounded, Sum;
    QuotientBetween(Sum(s), |s| as real, lo, hi);
  }

  lemma WeightedMeanIsBetween(s: seq<real>, m: real, scale: real, lo: real, hi: real)
    requires scale > 0.0 && WeightSum(s, m, scale) > 0.0 && Bounded(s, lo, hi)
    ensures lo <= WeightedSum(s, m, scale) / WeightSum(s, m, scale) <= hi
  {
    hide *;
    WeightedSumBounds(s, m, scale, lo, hi);
    QuotientBetween(WeightedSum(s, m, scale), WeightSum(s, m, scale), lo, hi);
  }

  // ----- the affine images v -> g * v + c, with g = 1 or -1

  function Affine(v: real, g: real, c: real): real {
    g * v + c
  }

  function Image(s: seq<real>, g: real, c: real): seq<real> {
    if s == [] then [] else Image(s[..|s| - 1], g, c) + [Affine(s[|s| - 1], g, c)]
  }

  ghost predicate Isometry(g: real) {
    g == 1.0 || g == -1.0
  }

  lemma {:induction false} ImageElements(s: seq<real>, g: real, c: real)
    ensures |Image(s, g, c)| == |s|
    ensures forall i :: 0 <= i < |s| ==> Image(s, g, c)[i] == Affine(s[i], g, c)
  {
    hide Affine;
    if s != [] {
      ImageElements(s[..|s| - 1], g, c);
    }
  }

  lemma ImagePrefix(s: seq<real>, g: real, c: real)
    requires s != []
    ensures |Image(s, g, c)| == |s|
    ensures Image(s, g, c)[..|s| - 1] == Image(s[..|s| - 1], g, c)
    ensures Image(s, g, c)[|s| - 1] == Affine(s[|s| - 1], g, c)
  {
    hide Affine;
    ImageElements(s, g, c);
    ImageElements(s[..|s| - 1], g, c);
  }

  // What an affine image does to a sum x of total weight w.
  function AffineSum(x: real, w: real, g: real, c: real): real {
    g * x + c * w
  }

  lemma AffineSumStep(x0: real, w0: real, w: real, v: real, g: real, c: real)
    ensures AffineSum(x0, w0, g, c) + Weighted(Affine(v, g, c), w) == AffineSum(x0 + Weighted(v, w), w0 + w, g, c)
  {
    assert w * (g * v + c) == g * (w * v) + c * w;
  }

  lemma AffineStep(x0: real, n: nat, v: real, g: real, c: real)
    ensures AffineSum(x0, n as real, g, c) + Affine(v, g, c) == AffineSum(x0 + v, (n + 1) as real, g, c)
  {
    AffineSumStep(x0, n as real, 1.0, v, g, c);
  }

  lemma AffineQuotient(x: real, w: real, g: real, c: real)
    requires w != 0.0
    ensures AffineSum(x, w, g, c) / w == Affine(x / w, g, c)
  {
    var q := x / w;
    assert q * w == x;
    assert (g * q + c) * w == g * x + c * w;
    DivCancel(g * q + c, w);
  }

  lemma {:induction false} SumImage(s: seq<real>, g: real, c: real)
    ensures Sum(Image(s, g, c)) == AffineSum(Sum(s), |s| as real, g, c)
  {
    if s != [] {
      hide Affine, AffineSum;
      ImagePrefix(s, g, c);
      SumImage(s[..|s| - 1], g, c);
      AffineStep(Sum(s[..|s| - 1]), |s| - 1, s[|s| - 1], g, c);
    }
  }

  lemma MeanImage(s: seq<real>, g: real, c: real)
    requires s != []
    ensures Image(s, g, c) != [] && |Image(s, g, c)| == |s|
    ensures Mean(Image(s, g, c)) == Affine(Mean(s), g, c)
  {
    hide Affine, AffineSum;
    ImagePrefix(s, g, c);
    SumImage(s, g, c);
    AffineQuotient(Sum(s), |s| as real, g, c);
  }

  lemma DeviationOfOne(v: real, m: real, g: real, c: real)
    requires Isometry(g)
    ensures Affine(v, g, c) - Affine(m, g, c) == v - m || Affine(v, g, c) - Affine(m, g, c) == -(v - m)
    ensures Abs(Affine(v, g, c) - Affine(m, g, c)) == Abs(v - m)
  {
  }

  lemma {:induction false} DeviationImage(s: seq<real>, m: real, g: real, c: real)
    requires Isometry(g)
    ensures Deviation(Image(s, g, c), Affine(m, g, c)) == Deviation(s, m)
  {
    if s != [] {
      hide Affine, Abs;
      ImagePrefix(s, g, c);
      DeviationImage(s[..|s| - 1], m, g, c);
      DeviationOfOne(s[|s| - 1], m, g, c);
    }
  }

  lemma WeightImage(v: real, m: real, scale: real, g: real, c: real)
    requires scale > 0.0 && Isometry(g)
    ensures WeightOf(Affine(v, g, c), Affine(m, g, c), scale) == WeightOf(v, m, scale)
  {
    hide Affine;
    DeviationOfOne(v, m, g, c);
    MirroredSquare(v - m, scale);
  }

  lemma MirroredSquare(x: real, scale: real)
    requires scale > 0.0
    ensures (-x) / scale * ((-x) / scale) == x / scale * (x / scale)
  {
    assert (-x) / scale == -(x / scale);
  }

  lemma {:induction false} WeightsImage(s: seq<real>, m: real, scale: real, g: real, c: real)
    requires scale > 0.0 && Isometry(g)
    ensures WeightSum(Image(s, g, c), Affine(m, g, c), scale) == WeightSum(s, m, scale)
    ensures WeightedSum(Image(s, g, c), Affine(m, g, c), scale)
      == AffineSum(WeightedSum(s, m, scale), WeightSum(s, m, scale), g, c)
  {
    if s != [] {
      hide WeightOf, Affine, AffineSum, Weighted;
      var p, v := s[..|s| - 1], s[|s| - 1];
      ImagePrefix(s, g, c);
      WeightsImage(p, m, scale, g, c);
      WeightImage(v, m, scale, g, c);
      AffineSumStep(WeightedSum(p, m, scale), WeightSum(p, m, scale), WeightOf(v, m, scale), v, g, c);
    }
  }

  // Translation and reflection pass through: the estimate of g * v + c is g times it plus c.
  lemma RobustMeanImage(s: seq<real>, floor: real, g: real, c: real)
    requires s != [] && floor > 0.0 && Isometry(g)
    ensures Image(s, g, c) != []
    ensures RobustMean(Image(s, g, c), floor) == Affine(RobustMean(s, floor), g, c)
  {
    hide WeightOf, Mean, Deviation, Scale, Affine, AffineSum;
    MeanImage(s, g, c);
    var m := Mean(s);
    DeviationImage(s, m, g, c);
    if |s| >= 3 {
      var scale := RobustScale(s, floor);
      WeightsImage(s, m, scale, g, c);
      WeightSumPositive(s, m, scale);
      AffineQuotient(WeightedSum(s, m, scale), WeightSum(s, m, scale), g, c);
    }
  }

  // ----- how little a single value can be discounted

  // Sum - n * m, taken one value at a time.
  function Excess(s: seq<real>, m: real): real {
    Sum(s) - |s| as real * m
  }

  lemma ExcessArith(x: real, v: real, n: nat, m: real)
    ensures (x + v) - (n + 1) as real * m == (x - n as real * m) + (v - m)
  {
    NextMultiple(n, m);
  }

  lemma ExcessStep(s: seq<real>, m: real)
    requires s != []
    ensures Excess(s, m) == Excess(s[..|s| - 1], m) + (s[|s| - 1] - m)
  {
    ExcessArith(Sum(s[..|s| - 1]), s[|s| - 1], |s| - 1, m);
  }

  lemma ExcessWithout(s: seq<real>, m: real, i: nat)
    requires i < |s|
    ensures Excess(s, m) == Excess(Without(s, i), m) + (s[i] - m)
  {
    hide Sum;
    SumWithout(s, i);
    ExcessArith(Sum(Without(s, i)), s[i], |s| - 1, m);
  }

  lemma {:induction false} ExcessWithinDeviation(s: seq<real>, m: real)
    ensures Abs(Excess(s, m)) <= Deviation(s, m)
  {
    if s == [] {
      assert |s| as real * m == 0.0;
    } else {
      ExcessStep(s, m);
      hide Excess;
      ExcessWithinDeviation(s[..|s| - 1], m);
    }
  }

  lemma SumOfDeviations(s: seq<real>, m: real, i: nat)
    requires i < |s| && Excess(s, m) == 0.0
    ensures 2.0 * Abs(s[i] - m) <= Deviation(s, m)
  {
    hide Excess;
    ExcessWithout(s, m, i);
    DeviationWithout(s, i, m);
    hide Deviation, Without;
    ExcessWithinDeviation(Without(s, i), m);
  }

  // No deviation from the mean exceeds half of their total.
  lemma HalfOfTotal(s: seq<real>, i: nat)
    requires i < |s|
    ensures 2.0 * Abs(s[i] - Mean(s)) <= Deviation(s, Mean(s))
  {
    assert Excess(s, Mean(s)) == 0.0;
    hide *;
    SumOfDeviations(s, Mean(s), i);
  }

  // So with three or more values every weight is at least 16 / (16 + n^2): an outlier of any size
  // keeps a share that depends on the group's size alone.
  lemma WeightAtLeast(s: seq<real>, floor: real, i: nat)
    requires floor > 0.0 && i < |s|
    ensures WeightOf(s[i], Mean(s), RobustScale(s, floor)) >= 16.0 / (16.0 + (|s| * |s|) as real)
  {
    hide WeightOf, Mean, Deviation;
    var m, n, d := Mean(s), |s| as real, Deviation(s, Mean(s));
    var scale := RobustScale(s, floor);
    HalfOfTotal(s, i);
    ScaleAtLeast(d, |s|, floor);
    RealProduct(|s|, |s|);
    WeightFromRatio(s[i], m, scale, n, d);
  }

  lemma ScaleAtLeast(dev: real, n: nat, floor: real)
    requires n > 0 && floor > 0.0
    ensures Scale(dev, n, floor) > 0.0 && 2.0 * dev <= n as real * Scale(dev, n, floor)
  {
    var q, k := dev / n as real, n as real;
    var sc := Scale(dev, n, floor);
    assert q * k == dev;
    MulMono(2.0 * q, sc, k);
  }

  lemma WeightFromRatio(v: real, m: real, scale: real, n: real, dev: real)
    requires scale > 0.0 && n > 0.0 && 2.0 * Abs(v - m) <= dev && 2.0 * dev <= n * scale
    ensures WeightOf(v, m, scale) >= 16.0 / (16.0 + n * n)
  {
    var d := (v - m) / scale;
    assert d * scale == v - m;
    AbsQuotient(d, scale, v - m, n);
    WeightFromSquare(d, n);
  }

  lemma WeightFromSquare(d: real, n: real)
    requires 4.0 * Abs(d) <= n
    ensures n * n >= 0.0 && d * d >= 0.0
    ensures 1.0 / (1.0 + d * d) >= 16.0 / (16.0 + n * n)
  {
    SquareMono(4.0 * d, n);
    assert (4.0 * d) * (4.0 * d) == 16.0 * (d * d);
    var x, y := d * d, n * n;
    ReciprocalMono(1.0 + x, 1.0 + y / 16.0);
    SameQuotient(y);
  }

  lemma AbsQuotient(d: real, scale: real, x: real, n: real)
    requires scale > 0.0 && d * scale == x && 4.0 * Abs(x) <= n * scale
    ensures 4.0 * Abs(d) <= n
  {
    var a := 4.0 * Abs(d);
    assert a * scale == 4.0 * Abs(x) by {
      assert Abs(d) * scale == Abs(x);
      assert a * scale == 4.0 * (Abs(d) * scale);
    }
    if a > n {
      MulStrict(n, a, scale, n * scale, a * scale);
    }
  }

  lemma ReciprocalMono(x: real, y: real)
    requires 0.0 < x <= y
    ensures 1.0 / y <= 1.0 / x
  {
    var p, q := 1.0 / x, 1.0 / y;
    assert p * x == 1.0 && q * y == 1.0;
    if q > p {
      MulStrict(0.0, y, 1.0, 0.0, y);
      MulMono(x, y, p);
    }
  }

  lemma SameQuotient(x: real)
    requires x >= 0.0
    ensures 1.0 / (1.0 + x / 16.0) == 16.0 / (16.0 + x)
  {
    var q := 16.0 / (16.0 + x);
    assert q * (16.0 + x) == 16.0;
    assert q * (1.0 + x / 16.0) == 1.0;
    DivCancel(q, 1.0 + x / 16.0);
  }

  // A value keeps at least half its weight exactly within twice the mean deviation from the mean, or
  // twice the floor where that is more.
  lemma HalfWeight(s: seq<real>, floor: real, v: real)
    requires s != [] && floor > 0.0
    ensures var (m, w) := (Mean(s), WeightOf(v, Mean(s), RobustScale(s, floor)));
      w >= 0.5 <==> WithinDeviations(Abs(v - m), Deviation(s, m), |s|, floor)
  {
    var (m, scale) := (Mean(s), RobustScale(s, floor));
    assert scale == Scale(Deviation(s, m), |s|, floor);
    hide *;
    HalfAtScale(v, m, scale);
    ScaleIs(Deviation(s, m), |s|, floor, Abs(v - m));
  }

  // At most twice the mean of n deviations, or twice the floor.
  predicate WithinDeviations(a: real, dev: real, n: nat, floor: real) {
    a * n as real <= 2.0 * dev || a <= 2.0 * floor
  }

  lemma HalfAtScale(v: real, m: real, scale: real)
    requires scale > 0.0
    ensures WeightOf(v, m, scale) >= 0.5 <==> Abs(v - m) <= scale
  {
    var d, a := (v - m) / scale, Abs(v - m);
    assert d * scale == v - m;
    ReciprocalInRange(d);
    var q := 1.0 + d * d;
    var w := 1.0 / q;
    assert w * q == 1.0;
    var u := Abs(d);
    assert u * u == d * d;
    assert u * scale == a by {
      if d < 0.0 {
        assert (-d) * scale == -(d * scale);
        MulPositive(-d, scale);
      } else if d > 0.0 {
        MulPositive(d, scale);
      }
    }
    assert w >= 0.5 <==> u <= 1.0 by {
      if u <= 1.0 {
        MulLe(u, 1.0, u, u * u, u);
        MulLe(q, 2.0, w, 1.0, 2.0 * w);
      } else {
        MulStrict(1.0, u, u, u, u * u);
        MulStrict(2.0, q, w, 2.0 * w, 1.0);
      }
    }
    if u <= 1.0 {
      MulLe(u, 1.0, scale, a, scale);
    } else {
      MulStrict(1.0, u, scale, scale, a);
    }
  }

  lemma ScaleIs(dev: real, n: nat, floor: real, a: real)
    requires n > 0
    ensures a <= Scale(dev, n, floor) <==> WithinDeviations(a, dev, n, floor)
  {
    var k, q := n as real, dev / n as real;
    assert q * k == dev;
    if a <= 2.0 * q {
      MulLe(a, 2.0 * q, k, a * k, 2.0 * dev);
    } else {
      MulStrict(2.0 * q, a, k, 2.0 * dev, a * k);
    }
  }
}
