// scripts/i2s-skew.py, rate_derivative: the slope of a series over a sliding window, from prefix sums.
module I2sSkew {
  import opened Numeric

  // A capture as it is read; a value that is not finite is None.
  datatype Reading = Reading(x: Option<real>, v: Option<real>)

  datatype Point = Point(x: real, v: real)

  function Finite(series: seq<Reading>): seq<Point> {
    if series == [] then []
    else
      var last := series[|series| - 1];
      Finite(series[..|series| - 1])
        + if last.x.Some? && last.v.Some? then [Point(last.x.value, last.v.value)] else []
  }

  ghost predicate TimeSorted(s: seq<Point>) {
    forall i, j :: 0 <= i < j < |s| ==> s[i].x <= s[j].x
  }

  // ----- the window

  function Insert(x: real, s: seq<real>): seq<real> {
    if s == [] || x <= s[0] then [x] + s else [s[0]] + Insert(x, s[1..])
  }

  function Sort(s: seq<real>): (r: seq<real>)
    ensures s != [] ==> r != []
  {
    if s == [] then [] else Insert(s[0], Sort(s[1..]))
  }

  function Median(s: seq<real>): real
    requires s != []
  {
    var r := Sort(s);
    if |r| % 2 == 1 then r[|r| / 2] else (r[|r| / 2 - 1] + r[|r| / 2]) / 2.0
  }

  function Spacings(s: seq<Point>): (r: seq<real>)
    ensures |s| >= 2 ==> r != []
  {
    if |s| < 2 then [] else Spacings(s[..|s| - 1]) + [s[|s| - 1].x - s[|s| - 2].x]
  }

  // At least five samples' worth.
  function Widened(s: seq<Point>, window: real): (w: real)
    ensures w >= window
  {
    if |s| < 2 then Max(window, 0.0) else Max(window, 5.0 * Median(Spacings(s)))
  }

  // numpy.searchsorted on the left: how many points come before v.
  function SearchLeft(s: seq<Point>, v: real): (k: nat)
    ensures k <= |s|
  {
    if s == [] || s[|s| - 1].x < v then |s| else SearchLeft(s[..|s| - 1], v)
  }

  // And on the right: how many do not come after v.
  function SearchRight(s: seq<Point>, v: real): (k: nat)
    ensures k <= |s|
  {
    if s == [] || s[|s| - 1].x <= v then |s| else SearchRight(s[..|s| - 1], v)
  }

  lemma {:induction false} SearchLeftIs(s: seq<Point>, v: real)
    requires TimeSorted(s)
    ensures forall j :: 0 <= j < |s| ==> (SearchLeft(s, v) <= j <==> s[j].x >= v)
  {
    if s != [] && s[|s| - 1].x >= v {
      SearchLeftIs(s[..|s| - 1], v);
      assert forall j :: 0 <= j < |s| - 1 ==> s[..|s| - 1][j] == s[j];
    }
  }

  lemma {:induction false} SearchRightIs(s: seq<Point>, v: real)
    requires TimeSorted(s)
    ensures forall j :: 0 <= j < |s| ==> (j < SearchRight(s, v) <==> s[j].x <= v)
  {
    if s != [] && s[|s| - 1].x > v {
      SearchRightIs(s[..|s| - 1], v);
      assert forall j :: 0 <= j < |s| - 1 ==> s[..|s| - 1][j] == s[j];
    }
  }

  // ----- prefix sums

  function Total(f: Point -> real, s: seq<Point>): real {
    if s == [] then 0.0 else Total(f, s[..|s| - 1]) + f(s[|s| - 1])
  }

  // numpy.concatenate(([0], numpy.cumsum(...)))
  function Prefix(f: Point -> real, s: seq<Point>): (r: seq<real>)
    ensures |r| == |s| + 1
  {
    if s == [] then [0.0]
    else
      var before := Prefix(f, s[..|s| - 1]);
      before + [before[|s| - 1] + f(s[|s| - 1])]
  }

  lemma {:induction false} PrefixIsTotal(f: Point -> real, s: seq<Point>, k: nat)
    requires k <= |s|
    ensures Prefix(f, s)[k] == Total(f, s[..k])
  {
    if k < |s| {
      PrefixIsTotal(f, s[..|s| - 1], k);
      assert s[..|s| - 1][..k] == s[..k];
    } else {
      assert s[..k] == s;
      if s != [] {
        PrefixIsTotal(f, s[..|s| - 1], |s| - 1);
        assert s[..|s| - 1][..|s| - 1] == s[..|s| - 1];
      }
    }
  }

  lemma {:induction false} TotalOfRange(f: Point -> real, s: seq<Point>, lo: nat, hi: nat)
    requires lo <= hi <= |s|
    ensures Total(f, s[..hi]) - Total(f, s[..lo]) == Total(f, s[lo..hi])
    decreases hi
  {
    if lo < hi {
      TotalOfRange(f, s, lo, hi - 1);
      assert s[..hi][..hi - 1] == s[..hi - 1] && s[lo..hi][..hi - lo - 1] == s[lo..hi - 1];
    }
  }

  function X(): Point -> real {
    (p: Point) => p.x
  }

  function Y(): Point -> real {
    (p: Point) => p.v
  }

  function XY(): Point -> real {
    (p: Point) => p.x * p.v
  }

  function XX(): Point -> real {
    (p: Point) => p.x * p.x
  }

  function YY(): Point -> real {
    (p: Point) => p.v * p.v
  }

  // The sums a line fit needs.
  datatype Sums = Sums(n: int, x: real, y: real, xy: real, xx: real)

  // Taken point by point.
  function SumsOf(s: seq<Point>): Sums {
    Sums(|s|, Total(X(), s), Total(Y(), s), Total(XY(), s), Total(XX(), s))
  }

  // Taken as differences of prefixes.
  function Between(f: Point -> real, s: seq<Point>, lo: nat, hi: nat): real
    requires lo <= |s| && hi <= |s|
  {
    Prefix(f, s)[hi] - Prefix(f, s)[lo]
  }

  function WindowSums(s: seq<Point>, lo: nat, hi: nat): Sums
    requires lo <= |s| && hi <= |s|
  {
    Sums(hi - lo, Between(X(), s, lo, hi), Between(Y(), s, lo, hi), Between(XY(), s, lo, hi), Between(XX(), s, lo, hi))
  }

  function Denominator(m: Sums): real {
    m.n as real * m.xx - m.x * m.x
  }

  function Slope(m: Sums): real
    requires Denominator(m) != 0.0
  {
    (m.n as real * m.xy - m.x * m.y) / Denominator(m)
  }

  function LowEnd(s: seq<Point>, i: nat, w: real): nat
    requires i < |s|
  {
    SearchLeft(s, s[i].x - w / 2.0)
  }

  function HighEnd(s: seq<Point>, i: nat, w: real): nat
    requires i < |s|
  {
    SearchRight(s, s[i].x + w / 2.0)
  }

  function SumsAt(s: seq<Point>, i: nat, w: real): Sums
    requires i < |s|
  {
    WindowSums(s, LowEnd(s, i, w), HighEnd(s, i, w))
  }

  // The mask.
  predicate Ok(s: seq<Point>, i: nat, w: real)
    requires i < |s|
  {
    SumsAt(s, i, w).n >= 3 && Abs(Denominator(SumsAt(s, i, w))) > 0.0
  }

  function SlopesUpTo(s: seq<Point>, k: nat, w: real): seq<Point>
    requires k <= |s|
  {
    if k == 0 then []
    else SlopesUpTo(s, k - 1, w) + if Ok(s, k - 1, w) then [Point(s[k - 1].x, Slope(SumsAt(s, k - 1, w)))] else []
  }

  // The points with a slope, and the window in the end used.
  function RateDerivative(series: seq<Reading>, window: real): (seq<Point>, real) {
    var s := Finite(series);
    if |s| < 3 then ([], window)
    else
      var w := Widened(s, window);
      (SlopesUpTo(s, |s|, w), w)
  }

  // ----- the window's points, and its sums

  // The slice between the two search results is exactly the points within half a window.
  lemma WindowIs(s: seq<Point>, i: nat, w: real)
    requires TimeSorted(s) && i < |s| && w >= 0.0
    ensures LowEnd(s, i, w) <= i < HighEnd(s, i, w)
    ensures forall j :: 0 <= j < |s| ==> (LowEnd(s, i, w) <= j < HighEnd(s, i, w) <==> Abs(s[j].x - s[i].x) <= w / 2.0)
  {
    SearchLeftIs(s, s[i].x - w / 2.0);
    SearchRightIs(s, s[i].x + w / 2.0);
  }

  lemma RangeIs(f: Point -> real, s: seq<Point>, lo: nat, hi: nat)
    requires lo <= hi <= |s|
    ensures Between(f, s, lo, hi) == Total(f, s[lo..hi])
  {
    PrefixIsTotal(f, s, lo);
    PrefixIsTotal(f, s, hi);
    TotalOfRange(f, s, lo, hi);
  }

  // The fast sums are the direct ones.
  lemma FastSumsAreDirect(s: seq<Point>, lo: nat, hi: nat)
    requires lo <= hi <= |s|
    ensures WindowSums(s, lo, hi) == SumsOf(s[lo..hi])
  {
    hide Between, Total;
    RangeIs(X(), s, lo, hi);
    RangeIs(Y(), s, lo, hi);
    RangeIs(XY(), s, lo, hi);
    RangeIs(XX(), s, lo, hi);
  }
}
