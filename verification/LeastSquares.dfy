// What the windowed slope of I2sSkew means: the least-squares line through the window's
// points, whenever the window holds two distinct times.
module LeastSquares {
  import opened Numeric
  import opened I2sSkew

  // ----- products, named so that sums of them stay linear

  function Mul(u: real, v: real): real {
    u * v
  }

  lemma MulAdds(u: real, v: real, w: real)
    ensures Mul(u, v + w) == Mul(u, v) + Mul(u, w)
    ensures Mul(u, 0.0) == 0.0
  {
  }

  function Sq(u: real): real {
    u * u
  }

  // ----- the squared error of a line

  function Residual(p: Point, a: real, b: real): real {
    p.v - a - b * p.x
  }

  function SquaredError(s: seq<Point>, a: real, b: real): real {
    if s == [] then 0.0 else SquaredError(s[..|s| - 1], a, b) + Sq(Residual(s[|s| - 1], a, b))
  }

  // The same from the sums, and the sum of squares of the values.
  function ErrorOf(m: Sums, yy: real, a: real, b: real): real {
    yy - 2.0 * Mul(a, m.y) - 2.0 * Mul(b, m.xy) + Mul(a * a, m.n as real) + 2.0 * Mul(a * b, m.x) + Mul(b * b, m.xx)
  }

  lemma ResidualSquare(p: Point, a: real, b: real)
    ensures Sq(Residual(p, a, b)) == p.v * p.v - 2.0 * Mul(a, p.v) - 2.0 * Mul(b, p.x * p.v)
      + a * a + 2.0 * Mul(a * b, p.x) + Mul(b * b, p.x * p.x)
  {
    var x, v := p.x, p.v;
    var d, e := v - a, b * x;
    assert Sq(Residual(p, a, b)) == d * d - 2.0 * (d * e) + e * e;
    assert d * d == v * v - 2.0 * (a * v) + a * a;
    assert d * e == b * (x * v) - (a * b) * x;
    assert e * e == (b * b) * (x * x);
  }

  lemma {:induction false} ErrorFromSums(s: seq<Point>, a: real, b: real)
    ensures SquaredError(s, a, b) == ErrorOf(SumsOf(s), Total(YY(), s), a, b)
  {
    if s == [] {
      assert a * a * 0.0 == 0.0 && b * b * 0.0 == 0.0 && a * b * 0.0 == 0.0;
    } else {
      var init, p := s[..|s| - 1], s[|s| - 1];
      ErrorFromSums(init, a, b);
      ResidualSquare(p, a, b);
      var m := SumsOf(init);
      MulAdds(a, m.y, p.v);
      MulAdds(b, m.xy, p.x * p.v);
      MulAdds(a * a, m.n as real, 1.0);
      MulAdds(a * b, m.x, p.x);
      MulAdds(b * b, m.xx, p.x * p.x);
      hide Mul, Sq, Residual;
      assert (m.n + 1) as real == m.n as real + 1.0;
      MulOne(a * a);
    }
  }

  lemma MulOne(u: real)
    ensures Mul(u, 1.0) == u
  {
  }

  // ----- the fit

  function Intercept(m: Sums): real
    requires Denominator(m) != 0.0 && m.n > 0
  {
    (m.y - Slope(m) * m.x) / m.n as real
  }

  // The normal equations.
  predicate Normal(m: Sums, a: real, b: real) {
    m.n as real * a + b * m.x == m.y && a * m.x + b * m.xx == m.xy
  }

  lemma FitIsNormal(m: Sums)
    requires Denominator(m) != 0.0 && m.n > 0
    ensures Normal(m, Intercept(m), Slope(m))
  {
    var n, a, b, d := m.n as real, Intercept(m), Slope(m), Denominator(m);
    assert b * d == n * m.xy - m.x * m.y;
    assert a * n == m.y - b * m.x;
    NormalSecond(n, m.x, m.y, m.xy, m.xx, a, b);
    var left := a * m.x + b * m.xx;
    assert n * left == n * m.xy;
    SameFactor(n, left, m.xy);
  }

  lemma SameFactor(n: real, u: real, v: real)
    requires n > 0.0 && n * u == n * v
    ensures u == v
  {
    if u < v {
      MulStrict(u, v, n, n * u, n * v);
    } else if v < u {
      MulStrict(v, u, n, n * v, n * u);
    }
  }

  lemma NormalSecond(n: real, x: real, y: real, xy: real, xx: real, a: real, b: real)
    requires b * (n * xx - x * x) == n * xy - x * y && a * n == y - b * x
    ensures n * (a * x + b * xx) == n * xy
  {
    var p, q := b * x, b * xx;
    assert n * (a * x + q) == (a * n) * x + n * q;
    assert (a * n) * x == y * x - p * x;
    assert b * (n * xx - x * x) == n * q - p * x;
  }

  // Away from the fit by (p, q) the error grows by the sum of (p + q * x)^2.
  function Growth(m: Sums, p: real, q: real): real {
    Mul(p * p, m.n as real) + 2.0 * Mul(p * q, m.x) + Mul(q * q, m.xx)
  }

  lemma ErrorAwayFromFit(m: Sums, yy: real, a: real, b: real, p: real, q: real)
    requires Normal(m, a, b)
    ensures ErrorOf(m, yy, a + p, b + q) == ErrorOf(m, yy, a, b) + Growth(m, p, q)
  {
    var n := m.n as real;
    assert Mul(a + p, m.y) == Mul(a, m.y) + p * m.y;
    assert Mul(b + q, m.xy) == Mul(b, m.xy) + q * m.xy;
    Expand(a, p, a, p, n);
    Expand(a, p, b, q, m.x);
    Expand(b, q, b, q, m.xx);
    assert p * m.y == (a * p) * n + (b * p) * m.x by {
      assert p * (n * a + b * m.x) == (a * p) * n + (b * p) * m.x;
    }
    assert q * m.xy == (a * q) * m.x + (b * q) * m.xx by {
      assert q * (a * m.x + b * m.xx) == (a * q) * m.x + (b * q) * m.xx;
    }
  }

  lemma Expand(a: real, p: real, b: real, q: real, w: real)
    ensures Mul((a + p) * (b + q), w) == Mul(a * b, w) + (a * q) * w + (b * p) * w + Mul(p * q, w)
  {
    assert (a + p) * (b + q) == a * b + a * q + b * p + p * q;
  }

  lemma GrowthTimesN(m: Sums, p: real, q: real)
    ensures Mul(m.n as real, Growth(m, p, q)) == Sq(m.n as real * p + q * m.x) + Mul(Denominator(m), Sq(q))
  {
    var n, u, v := m.n as real, p * (m.n as real), q * m.x;
    assert n * Mul(p * p, n) == u * u;
    assert n * Mul(p * q, m.x) == u * v;
    assert n * Mul(q * q, m.xx) == (n * m.xx) * (q * q);
    assert Sq(n * p + v) == u * u + 2.0 * (u * v) + v * v;
    assert v * v == (m.x * m.x) * (q * q);
    assert Mul(Denominator(m), Sq(q)) == (n * m.xx) * (q * q) - (m.x * m.x) * (q * q);
    assert Mul(n, Growth(m, p, q)) == n * Mul(p * p, n) + 2.0 * (n * Mul(p * q, m.x)) + n * Mul(q * q, m.xx);
  }

  lemma MulSign(u: real, v: real)
    requires u > 0.0
    ensures v >= 0.0 ==> Mul(u, v) >= 0.0
    ensures Mul(u, v) >= 0.0 ==> v >= 0.0
    ensures v > 0.0 <==> Mul(u, v) > 0.0
  {
    var y := v * u;
    if v < 0.0 {
      MulStrict(v, 0.0, u, y, 0.0);
    } else if v > 0.0 {
      MulStrict(0.0, v, u, 0.0, y);
    } else {
      assert y == 0.0;
    }
    assert Mul(u, v) == y;
  }

  lemma SquareSign(u: real)
    ensures Sq(u) >= 0.0 && (u != 0.0 <==> Sq(u) > 0.0)
  {
    var w := if u < 0.0 then -u else u;
    assert Sq(u) == Mul(w, w);
    hide Sq, Mul;
    if w > 0.0 {
      MulSign(w, w);
    } else {
      MulAdds(w, 0.0, 0.0);
    }
  }

  lemma GrowthSign(m: Sums, p: real, q: real)
    requires m.n > 0 && Denominator(m) > 0.0
    ensures Growth(m, p, q) >= 0.0
    ensures q != 0.0 ==> Growth(m, p, q) > 0.0
  {
    GrowthTimesN(m, p, q);
    hide Growth, Sq, Mul;
    SquareSign(m.n as real * p + q * m.x);
    SquareSign(q);
    MulSign(Denominator(m), Sq(q));
    MulSign(m.n as real, Growth(m, p, q));
  }

  // No line has a smaller squared error, and every line of another slope has a larger one.
  ghost predicate BestLine(s: seq<Point>, a: real, b: real) {
    forall a', b' ::
      && SquaredError(s, a, b) <= SquaredError(s, a', b')
      && (b' != b ==> SquaredError(s, a, b) < SquaredError(s, a', b'))
  }

  ghost predicate BestSlope(s: seq<Point>, b: real) {
    exists a :: BestLine(s, a, b)
  }

  lemma NoBetterLine(s: seq<Point>, a': real, b': real)
    requires s != [] && Denominator(SumsOf(s)) > 0.0
    ensures var (a, b) := (Intercept(SumsOf(s)), Slope(SumsOf(s)));
      && SquaredError(s, a, b) <= SquaredError(s, a', b')
      && (b' != b ==> SquaredError(s, a, b) < SquaredError(s, a', b'))
  {
    var m := SumsOf(s);
    assert m.n > 0;
    hide *;
    var a, b := Intercept(m), Slope(m);
    FitIsNormal(m);
    ErrorFromSums(s, a, b);
    ErrorFromSums(s, a', b');
    ErrorAwayFromFit(m, Total(YY(), s), a, b, a' - a, b' - b);
    GrowthSign(m, a' - a, b' - b);
  }

  lemma SlopeIsBest(s: seq<Point>)
    requires s != [] && Denominator(SumsOf(s)) > 0.0
    ensures BestSlope(s, Slope(SumsOf(s)))
  {
    var a, b := Intercept(SumsOf(s)), Slope(SumsOf(s));
    hide SumsOf, Slope, Intercept, Denominator, SquaredError;
    forall a', b'
      ensures SquaredError(s, a, b) <= SquaredError(s, a', b')
      ensures b' != b ==> SquaredError(s, a, b) < SquaredError(s, a', b')
    {
      NoBetterLine(s, a', b');
    }
    assert BestLine(s, a, b);
  }

  // ----- when the denominator is not zero

  ghost predicate TwoTimes(s: seq<Point>) {
    exists i, j :: 0 <= i < j < |s| && s[i].x != s[j].x
  }

  function Deviations(s: seq<Point>, c: real): real {
    if s == [] then 0.0 else Deviations(s[..|s| - 1], c) + Sq(s[|s| - 1].x - c)
  }

  lemma {:induction false} DeviationsFromSums(s: seq<Point>, c: real)
    ensures Deviations(s, c) == Total(XX(), s) - 2.0 * Mul(c, Total(X(), s)) + Mul(c * c, |s| as real)
  {
    if s == [] {
      assert c * c * 0.0 == 0.0;
    } else {
      var init, x := s[..|s| - 1], s[|s| - 1].x;
      DeviationsFromSums(init, c);
      MulAdds(c, Total(X(), init), x);
      MulAdds(c * c, |init| as real, 1.0);
      MulOne(c * c);
      assert Sq(x - c) == x * x - 2.0 * Mul(c, x) + c * c;
      hide Mul, Sq;
      assert |s| as real == |init| as real + 1.0;
    }
  }

  lemma {:induction false} DeviationsSign(s: seq<Point>, c: real)
    ensures Deviations(s, c) >= 0.0
    ensures Deviations(s, c) == 0.0 <==> forall i :: 0 <= i < |s| ==> s[i].x == c
  {
    if s != [] {
      DeviationsSign(s[..|s| - 1], c);
      SquareSign(s[|s| - 1].x - c);
      assert forall i :: 0 <= i < |s| - 1 ==> s[..|s| - 1][i] == s[i];
    }
  }

  // The denominator is n times the squared deviation from the mean time: never negative, and zero
  // only when all the times are the same.
  lemma DenominatorSign(s: seq<Point>)
    requires s != []
    ensures Denominator(SumsOf(s)) >= 0.0
    ensures Denominator(SumsOf(s)) > 0.0 <==> TwoTimes(s)
  {
    var c := Total(X(), s) / |s| as real;
    DenominatorFromMean(s, c);
    DeviationsSign(s, c);
    hide SumsOf, Denominator, Deviations, Mul;
    MulSign(|s| as real, Deviations(s, c));
    if Deviations(s, c) > 0.0 {
      NotAllAtMean(s, c);
    }
  }

  lemma DenominatorFromMean(s: seq<Point>, c: real)
    requires s != [] && c == Total(X(), s) / |s| as real
    ensures c * |s| as real == Total(X(), s)
    ensures Denominator(SumsOf(s)) == Mul(|s| as real, Deviations(s, c))
  {
    DeviationsFromSums(s, c);
    hide Deviations, Total, Mul;
    DenominatorIs(|s| as real, Total(X(), s), Total(XX(), s), c, Deviations(s, c));
  }

  lemma DenominatorIs(n: real, x: real, xx: real, c: real, dev: real)
    requires c * n == x && dev == xx - 2.0 * Mul(c, x) + Mul(c * c, n)
    ensures n * xx - x * x == Mul(n, dev)
  {
    assert Mul(c * c, n) == c * x by {
      assert (c * c) * n == c * (c * n);
    }
    assert dev == xx - c * x;
    assert n * (c * x) == x * x by {
      assert n * (c * x) == (c * n) * x;
    }
    assert n * dev == n * xx - n * (c * x);
  }

  lemma NotAllAtMean(s: seq<Point>, c: real)
    requires s != [] && Deviations(s, c) > 0.0 && c * |s| as real == Total(X(), s)
    ensures TwoTimes(s)
  {
    if !TwoTimes(s) {
      AllEqualTotal(s, s[0].x);
      SameFactor(|s| as real, c, s[0].x);
      DeviationsSign(s, c);
      assert false;
    }
  }

  lemma {:induction false} AllEqualTotal(s: seq<Point>, x: real)
    requires forall i :: 0 <= i < |s| ==> s[i].x == x
    ensures Total(X(), s) == |s| as real * x
  {
    if s != [] {
      AllEqualTotal(s[..|s| - 1], x);
      var n := (|s| - 1) as real;
      assert (n + 1.0) * x == n * x + x;
    }
  }

  // ----- the window's slope

  // The points within half a window of the i-th.
  function Window(s: seq<Point>, i: nat, w: real): seq<Point>
    requires i < |s| && LowEnd(s, i, w) <= HighEnd(s, i, w)
  {
    s[LowEnd(s, i, w)..HighEnd(s, i, w)]
  }

  // Main result: for any time-sorted series a point gets a slope exactly when the window around it
  // holds three points and two distinct times, and that slope is the least-squares one over exactly
  // the points within half a window.
  lemma SlopeIsLeastSquares(s: seq<Point>, i: nat, w: real)
    requires TimeSorted(s) && i < |s| && w >= 0.0
    ensures LowEnd(s, i, w) <= i < HighEnd(s, i, w)
    ensures forall j :: 0 <= j < |s| ==> (LowEnd(s, i, w) <= j < HighEnd(s, i, w) <==> Abs(s[j].x - s[i].x) <= w / 2.0)
    ensures Ok(s, i, w) <==> |Window(s, i, w)| >= 3 && TwoTimes(Window(s, i, w))
    ensures Ok(s, i, w) ==> BestSlope(Window(s, i, w), Slope(SumsAt(s, i, w)))
  {
    WindowIs(s, i, w);
    FastSumsAreDirect(s, LowEnd(s, i, w), HighEnd(s, i, w));
    var win := Window(s, i, w);
    DenominatorSign(win);
    hide LowEnd, HighEnd, BestSlope, Slope, Denominator;
    if Ok(s, i, w) {
      SlopeIsBest(win);
    }
  }

  // ----- the whole output

  // The points that get a slope, by index, in order.
  function OkIndices(s: seq<Point>, k: nat, w: real): seq<nat>
    requires k <= |s|
  {
    if k == 0 then []
    else if Ok(s, k - 1, w) then OkIndices(s, k - 1, w) + [k - 1]
    else OkIndices(s, k - 1, w)
  }

  // In order, each once, all of them and no other.
  ghost predicate ListsOk(s: seq<Point>, k: nat, w: real, idx: seq<nat>)
    requires k <= |s|
  {
    && (forall i, j :: 0 <= i < j < |idx| ==> idx[i] < idx[j])
    && (forall i :: 0 <= i < |idx| ==> idx[i] < k && Ok(s, idx[i], w))
    && (forall i :: 0 <= i < k && Ok(s, i, w) ==> i in idx)
  }

  lemma ListsOneMore(s: seq<Point>, k: nat, w: real, idx: seq<nat>)
    requires 0 < k <= |s| && ListsOk(s, k - 1, w, idx)
    ensures ListsOk(s, k, w, if Ok(s, k - 1, w) then idx + [k - 1] else idx)
  {
    hide Ok;
  }

  lemma {:induction false} OkIndicesAre(s: seq<Point>, k: nat, w: real)
    requires k <= |s|
    ensures ListsOk(s, k, w, OkIndices(s, k, w))
  {
    if k > 0 {
      OkIndicesAre(s, k - 1, w);
      ListsOneMore(s, k, w, OkIndices(s, k - 1, w));
      hide Ok, ListsOk;
    }
  }

  lemma {:induction false} OutputIs(s: seq<Point>, k: nat, w: real)
    requires k <= |s|
    ensures var (idx, out) := (OkIndices(s, k, w), SlopesUpTo(s, k, w));
      && |out| == |idx|
      && forall i :: 0 <= i < |idx| ==>
           idx[i] < |s| && Ok(s, idx[i], w) && out[i] == Point(s[idx[i]].x, Slope(SumsAt(s, idx[i], w)))
  {
    if k > 0 {
      hide SumsAt, Slope, Denominator;
      OutputIs(s, k - 1, w);
    }
  }

  // ----- the points and the window

  // The finite readings among the first k, each once and in order.
  ghost predicate ListsFinite(series: seq<Reading>, k: nat, idx: seq<nat>, out: seq<Point>)
    requires k <= |series|
  {
    && |out| == |idx|
    && (forall i, j :: 0 <= i < j < |idx| ==> idx[i] < idx[j])
    && (forall i :: 0 <= i < |idx| ==> idx[i] < k && series[idx[i]] == Reading(Some(out[i].x), Some(out[i].v)))
    && (forall i :: 0 <= i < k && series[i].x.Some? && series[i].v.Some? ==> i in idx)
  }

  lemma FiniteOneMore(series: seq<Reading>, k: nat, idx: seq<nat>, out: seq<Point>)
    requires k < |series| && ListsFinite(series, k, idx, out)
    ensures var last := series[k];
      if last.x.Some? && last.v.Some? then
        ListsFinite(series, k + 1, idx + [k], out + [Point(last.x.value, last.v.value)])
      else ListsFinite(series, k + 1, idx, out)
  {
  }

  lemma {:induction false} FiniteUpTo(series: seq<Reading>, k: nat) returns (idx: seq<nat>)
    requires k <= |series|
    ensures ListsFinite(series, k, idx, Finite(series[..k]))
  {
    idx := [];
    if k > 0 {
      var last := series[k - 1];
      idx := FiniteUpTo(series, k - 1);
      assert series[..k][..k - 1] == series[..k - 1];
      var out := Finite(series[..k - 1]);
      FiniteOneMore(series, k - 1, idx, out);
      assert Finite(series[..k]) == if last.x.Some? && last.v.Some? then out + [Point(last.x.value, last.v.value)] else out;
      hide ListsFinite, Finite;
      idx := if last.x.Some? && last.v.Some? then idx + [k - 1] else idx;
    }
  }

  // All of them.
  lemma FiniteIs(series: seq<Reading>) returns (idx: seq<nat>)
    ensures ListsFinite(series, |series|, idx, Finite(series))
  {
    idx := FiniteUpTo(series, |series|);
    assert series[..|series|] == series;
  }

  lemma {:induction false} SpacingsAre(s: seq<Point>)
    requires s != []
    ensures |Spacings(s)| == |s| - 1
    ensures forall i :: 0 <= i < |s| - 1 ==> Spacings(s)[i] == s[i + 1].x - s[i].x
  {
    if |s| > 1 {
      SpacingsAre(s[..|s| - 1]);
    }
  }

  ghost predicate Sorted(s: seq<real>) {
    forall i, j :: 0 <= i < j < |s| ==> s[i] <= s[j]
  }

  lemma {:induction false} InsertAdds(x: real, s: seq<real>)
    ensures multiset(Insert(x, s)) == multiset(s) + multiset{x}
  {
    if s != [] && x > s[0] {
      InsertAdds(x, s[1..]);
      assert s == [s[0]] + s[1..];
    }
  }

  lemma {:induction false} InsertSorts(x: real, s: seq<real>)
    requires Sorted(s)
    ensures Sorted(Insert(x, s))
  {
    if s != [] && x > s[0] {
      InsertSorts(x, s[1..]);
      InsertKeeps(x, s[1..], s[0]);
    }
  }

  lemma {:induction false} SortSorts(s: seq<real>)
    ensures Sorted(Sort(s)) && multiset(Sort(s)) == multiset(s)
  {
    if s != [] {
      SortSorts(s[1..]);
      InsertSorts(s[0], Sort(s[1..]));
      InsertAdds(s[0], Sort(s[1..]));
      assert s == [s[0]] + s[1..];
    }
  }

  lemma FirstIsLeast(s: seq<real>, x: real)
    requires Sorted(s) && s != [] && x in multiset(s)
    ensures s[0] <= x
  {
    var i :| 0 <= i < |s| && s[i] == x;
  }

  lemma SameHeads(s: seq<real>, t: seq<real>)
    requires Sorted(s) && Sorted(t) && multiset(s) == multiset(t) && s != [] && t != []
    ensures s[0] == t[0]
  {
    assert s[0] in multiset(s) && t[0] in multiset(t);
    hide Sorted;
    FirstIsLeast(s, t[0]);
    FirstIsLeast(t, s[0]);
  }

  lemma RestOf(s: seq<real>)
    requires s != []
    ensures multiset(s[1..]) == multiset(s) - multiset{s[0]}
    ensures Sorted(s) ==> Sorted(s[1..])
  {
    assert s == [s[0]] + s[1..];
  }

  // There is one way to sort.
  lemma {:induction false} SortedIsUnique(s: seq<real>, t: seq<real>)
    requires Sorted(s) && Sorted(t) && multiset(s) == multiset(t)
    ensures s == t
  {
    assert |multiset(s)| == |s| && |multiset(t)| == |t|;
    hide Sorted;
    if s != [] {
      SameHeads(s, t);
      RestOf(s);
      RestOf(t);
      SortedIsUnique(s[1..], t[1..]);
      assert s == [s[0]] + s[1..] && t == [t[0]] + t[1..];
    }
  }

  // The median is midway between the two middle values of the sorted series, or the one there is.
  lemma MedianIs(s: seq<real>, r: seq<real>)
    requires s != [] && Sorted(r) && multiset(r) == multiset(s)
    ensures |r| == |s| && Median(s) == (r[(|r| - 1) / 2] + r[|r| / 2]) / 2.0
  {
    SortSorts(s);
    hide Sorted, Sort;
    SortedIsUnique(Sort(s), r);
    assert |multiset(r)| == |r| && |multiset(s)| == |s|;
  }

  // The window used is the one asked for, or five times the median spacing where that is more.
  lemma WindowIsWidened(series: seq<Reading>, s: seq<Point>, window: real, gaps: seq<real>, r: seq<real>)
    requires s == Finite(series) && |s| >= 3 && AreGaps(s, gaps)
    requires Sorted(r) && multiset(r) == multiset(gaps)
    ensures |r| == |gaps| && RateDerivative(series, window).1 == Max(window, 5.0 * ((r[(|r| - 1) / 2] + r[|r| / 2]) / 2.0))
  {
    hide Spacings, Median, SlopesUpTo, Finite, Sorted, AreGaps;
    GapsAreSpacings(s, gaps);
    MedianIs(gaps, r);
  }

  ghost predicate AreGaps(s: seq<Point>, gaps: seq<real>) {
    |gaps| + 1 == |s| && forall i :: 0 <= i < |gaps| ==> gaps[i] == s[i + 1].x - s[i].x
  }

  lemma GapsAreSpacings(s: seq<Point>, gaps: seq<real>)
    requires AreGaps(s, gaps)
    ensures gaps == Spacings(s)
  {
    SpacingsAre(s);
    var r := Spacings(s);
    assert |r| == |gaps|;
    forall i | 0 <= i < |gaps|
      ensures gaps[i] == r[i]
    {
      assert gaps[i] == s[i + 1].x - s[i].x;
      assert r[i] == s[i + 1].x - s[i].x;
    }
    assert gaps == r;
  }

  lemma {:induction false} InsertKeeps(x: real, s: seq<real>, lo: real)
    requires x >= lo && forall i :: 0 <= i < |s| ==> s[i] >= lo
    ensures |Insert(x, s)| == |s| + 1
    ensures forall i :: 0 <= i < |Insert(x, s)| ==> Insert(x, s)[i] >= lo
  {
    if s != [] && x > s[0] {
      InsertKeeps(x, s[1..], lo);
    }
  }

  lemma {:induction false} SortKeeps(s: seq<real>, lo: real)
    requires forall i :: 0 <= i < |s| ==> s[i] >= lo
    ensures |Sort(s)| == |s| && forall i :: 0 <= i < |s| ==> Sort(s)[i] >= lo
  {
    if s != [] {
      SortKeeps(s[1..], lo);
      InsertKeeps(s[0], Sort(s[1..]), lo);
    }
  }

  lemma {:induction false} SpacingsNotNegative(s: seq<Point>)
    requires TimeSorted(s)
    ensures forall i :: 0 <= i < |Spacings(s)| ==> Spacings(s)[i] >= 0.0
  {
    if |s| >= 2 {
      SpacingsNotNegative(s[..|s| - 1]);
    }
  }

  lemma WidenedNotNegative(s: seq<Point>, window: real)
    requires TimeSorted(s)
    ensures Widened(s, window) >= 0.0
  {
    SpacingsNotNegative(s);
    if |s| >= 2 {
      SortKeeps(Spacings(s), 0.0);
    }
  }

  // A window that holds three points and two times, and the least-squares slope over it.
  ghost predicate Fitted(s: seq<Point>, i: nat, w: real, slope: real)
    requires i < |s|
  {
    && LowEnd(s, i, w) <= HighEnd(s, i, w) && |Window(s, i, w)| >= 3 && TwoTimes(Window(s, i, w))
    && BestSlope(Window(s, i, w), slope)
  }

  ghost predicate Fits(s: seq<Point>, i: nat, w: real)
    requires i < |s|
  {
    LowEnd(s, i, w) <= HighEnd(s, i, w) && |Window(s, i, w)| >= 3 && TwoTimes(Window(s, i, w))
  }

  // Main result: the output holds, in order and once each, the finite points whose windows hold three
  // points and two times, each with its window's least-squares slope; the window used is at least the
  // one asked for.
  lemma RateDerivativeIs(series: seq<Reading>, window: real) returns (idx: seq<nat>)
    requires TimeSorted(Finite(series))
    ensures |Finite(series)| < 3 ==> RateDerivative(series, window) == ([], window) && idx == []
    ensures var (s, out, w) := (Finite(series), RateDerivative(series, window).0, RateDerivative(series, window).1);
      && w >= window && (|s| >= 3 ==> w >= 0.0) && |out| == |idx|
      && (forall i, j :: 0 <= i < j < |idx| ==> idx[i] < idx[j])
      && (forall i :: 0 <= i < |idx| ==> idx[i] < |s| && out[i].x == s[idx[i]].x && Fitted(s, idx[i], w, out[i].v))
      && (forall i :: 0 <= i < |s| && Fits(s, i, w) ==> i in idx)
  {
    var s, out, w := Finite(series), RateDerivative(series, window).0, RateDerivative(series, window).1;
    if |s| < 3 {
      idx := [];
      FewDoNotFit(s, w);
      hide Finite, Widened, SlopesUpTo, Fits, Fitted;
      return;
    }
    idx := OkIndices(s, |s|, w);
    WidenedNotNegative(s, window);
    hide Finite, Widened, SlopesUpTo, OkIndices, Fits, Fitted;
    SlopesFit(s, w, out);
  }

  lemma FewDoNotFit(s: seq<Point>, w: real)
    requires |s| < 3
    ensures forall i :: 0 <= i < |s| ==> !Fits(s, i, w)
  {
    hide LowEnd, TwoTimes;
  }

  lemma SlopesFit(s: seq<Point>, w: real, out: seq<Point>)
    requires TimeSorted(s) && w >= 0.0 && out == SlopesUpTo(s, |s|, w)
    ensures var idx := OkIndices(s, |s|, w);
      && |out| == |idx|
      && (forall i, j :: 0 <= i < j < |idx| ==> idx[i] < idx[j])
      && (forall i :: 0 <= i < |idx| ==> idx[i] < |s| && out[i].x == s[idx[i]].x && Fitted(s, idx[i], w, out[i].v))
      && (forall i :: 0 <= i < |s| && Fits(s, i, w) ==> i in idx)
  {
    var idx := OkIndices(s, |s|, w);
    OkIndicesAre(s, |s|, w);
    OutputIs(s, |s|, w);
    hide SlopesUpTo, OkIndices, SumsAt, Slope, Denominator, BestSlope, TwoTimes, LowEnd, HighEnd, Ok;
    forall i | 0 <= i < |idx|
      ensures idx[i] < |s| && out[i].x == s[idx[i]].x && Fitted(s, idx[i], w, out[i].v)
    {
      SlopeIsLeastSquares(s, idx[i], w);
    }
    forall i | 0 <= i < |s| && Fits(s, i, w)
      ensures i in idx
    {
      SlopeIsLeastSquares(s, i, w);
    }
  }
}
