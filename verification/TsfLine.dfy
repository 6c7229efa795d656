// components/clock_sync/tsf_sync.cpp: a server<->TSF line and its evaluation.
module TsfLine {
  import opened Numeric

  const PPM: real := 0.000001
  const MAX_EXTRAPOLATION_US: int := 10_000_000
  const MIN_EXTRAPOLATION_US: int := -1000

  // tsf - server is tms at the TSF instant base and moves by drift ppm from there.
  datatype Line = Line(base: int, tms: int, drift: real)

  // One sandwiched read of the TSF counter against the local timer.
  datatype Sample = NoTsf | Tsf(tsf: int, local: int, width: int)

  // The caller's own Kalman estimate.
  datatype Estimate = Estimate(valid: bool, mature: bool, offsetMs: real, drift: real)

  function Drifted(drift: real, dt: int): int {
    Trunc(drift * PPM * dt as real)
  }

  // The line's value at the TSF instant t.
  function At(l: Line, t: int): int {
    l.tms + Drifted(l.drift, t - l.base)
  }

  // The TSF counter's rate against the local timer, over an interval of each.
  function MeasuredPpm(dl: int, dt: int): real
    requires dl > 0
  {
    (dt - dl) as real / dl as real * 1000000.0
  }

  datatype Evaluation = Unreadable | AgeClamp(extrapolation: int) | Offset(us: int)

  // evaluate_mapping_: the server - local offset a line implies at a fresh sample.
  function Evaluate(l: Line, s: Sample): Evaluation {
    match s
    case NoTsf => Unreadable
    case Tsf(tsf, local, _) =>
      var extrapolation := tsf - l.base;
      if extrapolation < MIN_EXTRAPOLATION_US || extrapolation > MAX_EXTRAPOLATION_US then AgeClamp(extrapolation)
      else
        var tms := Trunc(l.tms as real + l.drift * PPM * extrapolation as real);
        Offset(tsf - tms - local)
  }

  // ----- what the evaluations mean

  // What a drift adds over an interval, and the line itself, before anything is cut to microseconds.
  function Carried(drift: real, dt: int): real {
    drift * PPM * dt as real
  }

  function Exact(l: Line, t: int): real {
    l.tms as real + Carried(l.drift, t - l.base)
  }

  lemma TruncIsNear(x: real)
    ensures Abs(Trunc(x) as real - x) < 1.0
    ensures x >= 0.0 ==> 0.0 <= Trunc(x) as real <= x
    ensures x <= 0.0 ==> x <= Trunc(x) as real <= 0.0
  {
  }

  // Every value taken off a line is the line's own to within a microsecond.
  lemma AtIsExact(l: Line, t: int)
    ensures Abs(At(l, t) as real - Exact(l, t)) < 1.0
  {
    TruncIsNear(Carried(l.drift, t - l.base));
    hide Trunc;
  }

  // The server - local offset that a line implies where the TSF counter and the local timer read this.
  function Implied(l: Line, tsf: int, local: int): real {
    tsf as real - Exact(l, tsf) - local as real
  }

  // A line can be evaluated from a millisecond before its base to ten seconds after it, and gives the
  // implied offset to within a microsecond.
  lemma EvaluateIsImplied(l: Line, tsf: int, local: int, width: int)
    ensures var e := Evaluate(l, Tsf(tsf, local, width));
      && (e.Offset? <==> -1000 <= tsf - l.base <= 10_000_000)
      && (e.Offset? ==> Abs(e.us as real - Implied(l, tsf, local)) < 1.0)
  {
    var tms := Trunc(Exact(l, tsf));
    TruncIsNear(Exact(l, tsf));
    if Evaluate(l, Tsf(tsf, local, width)).Offset? {
      assert Evaluate(l, Tsf(tsf, local, width)) == Offset(tsf - tms - local);
    }
    hide Trunc, Exact, Evaluate;
  }

  lemma AtBase(l: Line)
    ensures At(l, l.base) == l.tms
  {
    assert l.drift * PPM * 0.0 == 0.0;
  }

  // ----- a TSF counter of a constant rate

  // The counter reads zero where the local timer does, and gains rate ppm on it.
  datatype Counter = Counter(zero: real, rate: real) {
    function At(local: int): real {
      zero + local as real + Carried(rate, local)
    }

    predicate Reads(tsf: int, local: int, err: real) {
      Abs(tsf as real - At(local)) <= err
    }
  }

  // Two readings that far off measure the rate to within twice that over the interval.
  lemma MeasuredIsNear(k: Counter, tsf0: int, local0: int, tsf1: int, local1: int, err: real)
    requires k.Reads(tsf0, local0, err) && k.Reads(tsf1, local1, err) && local0 < local1
    ensures var dl := local1 - local0;
      Abs(MeasuredPpm(dl, tsf1 - tsf0) - k.rate) * dl as real <= 2.0 * err * 1000000.0
  {
    var dl, dt := local1 - local0, tsf1 - tsf0;
    var m, x, gain, due := MeasuredPpm(dl, dt), dl as real, (dt - dl) as real, Carried(k.rate, dl);
    QuotientTimes(gain, x, m);
    CarriedOver(k.rate, local0, local1);
    CarriedPpm(k.rate, dl);
    hide Carried, MeasuredPpm;
    assert Abs(gain - due) <= 2.0 * err;
    ScaledGap(m, k.rate, x, gain, due, err);
  }

  lemma QuotientTimes(gain: real, x: real, m: real)
    requires x > 0.0 && m == gain / x * 1000000.0
    ensures m * x == gain * 1000000.0
  {
    var q := gain / x;
    assert q * x == gain;
    assert (q * 1000000.0) * x == (q * x) * 1000000.0;
  }

  lemma ScaledGap(m: real, rate: real, x: real, gain: real, due: real, err: real)
    requires x > 0.0 && m * x == gain * 1000000.0 && rate * x == due * 1000000.0 && Abs(gain - due) <= 2.0 * err
    ensures Abs(m - rate) * x <= 2.0 * err * 1000000.0
  {
    AbsTimes(m - rate, x);
    assert (m - rate) * x == m * x - rate * x;
  }

  lemma CarriedOver(rate: real, from: int, to: int)
    ensures Carried(rate, to) - Carried(rate, from) == Carried(rate, to - from)
  {
    var k, x, y := rate * PPM, from as real, to as real;
    assert k * (y - x) == k * y - k * x;
  }

  lemma CarriedPpm(rate: real, dt: int)
    ensures Carried(rate, dt) * 1000000.0 == rate * dt as real
  {
    var x := dt as real;
    assert rate * PPM * x == (rate * x) * PPM;
  }

  lemma AbsTimes(x: real, k: real)
    requires k > 0.0
    ensures Abs(x) * k == Abs(x * k)
  {
    if x < 0.0 {
      MulPositive(-x, k);
      assert (-x) * k == -(x * k);
    } else if x > 0.0 {
      MulPositive(x, k);
    }
  }

  // Over an interval of at least `window` us.
  lemma MeasuredWithin(k: Counter, tsf0: int, local0: int, tsf1: int, local1: int, err: real, window: int, near: real)
    requires k.Reads(tsf0, local0, err) && k.Reads(tsf1, local1, err) && err >= 0.0
    requires 0 < window <= local1 - local0 && near * window as real == 2.0 * err * 1000000.0
    ensures Abs(MeasuredPpm(local1 - local0, tsf1 - tsf0) - k.rate) <= near
  {
    MeasuredIsNear(k, tsf0, local0, tsf1, local1, err);
    hide MeasuredPpm;
    AtMost(Abs(MeasuredPpm(local1 - local0, tsf1 - tsf0) - k.rate), near, (local1 - local0) as real, window as real,
      2.0 * err * 1000000.0);
  }

  lemma AtMost(d: real, near: real, x: real, w: real, bound: real)
    requires d >= 0.0 && 0.0 < w <= x && d * x <= bound && near * w == bound
    ensures d <= near
  {
    MulMono(w, x, d);
    if d > near {
      MulStrict(near, d, w, near * w, d * w);
    }
  }
}
