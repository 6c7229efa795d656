// components/clock_sync/time_filter.h: the two-state Kalman filter with a Huber weight and an
// adaptive measurement noise, over exact reals. The square root of the innovation variance is an
// argument, constrained by its square.
module TimeFilter {
  import opened Numeric

  const PROCESS_VAR: real := 0.0001
  const DRIFT_PROCESS_VAR: real := 0.00000000000001
  const FORGETTING_FACTOR: real := 0.97
  const HUBER_C: real := 1.345
  const R_MIN: real := 0.01
  const MIN_SAMPLES: nat := 5
  const DRIFT_SIG_THRESH_SQ: real := 4.0
  const MAX_DT: real := 5000.0

  // offset_cov_ starts, and restarts, infinite.
  datatype Variance = Infinite | Finite(v: real)

  datatype Filter = Filter(count: nat, offset: real, drift: real, offsetCov: Variance, offsetDriftCov: real,
                           driftCov: real, lastUpdate: real, useDrift: bool, rHat: real)

  datatype Sample = Sample(measurement: real, time: real, sigma: real)

  const FRESH: Filter := Filter(0, 0.0, 0.0, Infinite, 0.0, 0.0, 0.0, false, 25.0)

  function ResetFilter(f: Filter): Filter {
    FRESH.(rHat := f.rHat)
  }

  predicate Accepts(f: Filter, time: real) {
    f.count == 0 || time > f.lastUpdate
  }

  function Dt(f: Filter, time: real): real {
    var d := time - f.lastUpdate;
    if d < MAX_DT then d else MAX_DT
  }

  // The covariance carried forward by dt: entries (offset, offset-drift, drift).
  function PredictedOffsetCov(c: real, oc: real, dc: real, dt: real): real {
    Carried(c, oc, dc, dt) + dt * PROCESS_VAR
  }

  function Carried(c: real, oc: real, dc: real, dt: real): real {
    c + 2.0 * oc * dt + dc * (dt * dt)
  }

  function PredictedCross(oc: real, dc: real, dt: real): real {
    oc + dc * dt
  }

  function PredictedDriftCov(dc: real, dt: real): real {
    dc + dt * DRIFT_PROCESS_VAR
  }

  // Huber weight of a residual.
  function Weight(residual: real, sigma: real): real
    requires sigma > 0.0
  {
    var norm := Abs(residual) / sigma;
    if norm <= HUBER_C then 1.0 else HUBER_C / norm
  }

  // The innovation variance whose root a third or later sample needs.
  function InnovationVar(f: Filter, time: real): real
    requires f.offsetCov.Finite?
  {
    PredictedOffsetCov(f.offsetCov.v, f.offsetDriftCov, f.driftCov, Dt(f, time)) + f.rHat
  }

  ghost predicate IsRoot(sigma: real, s: real) {
    sigma > 0.0 && sigma * sigma == s
  }

  // What a sample must satisfy for the filter's arithmetic to be defined.
  ghost predicate Usable(f: Filter, x: Sample) {
    f.count >= 2 && Accepts(f, x.time) ==> f.offsetCov.Finite? && IsRoot(x.sigma, InnovationVar(f, x.time))
  }

  function PredictedOffset(offset: real, drift: real, dt: real): real {
    offset + drift * dt
  }

  // One update from the predicted state: predicted offset and covariance (p, q, d), residual and
  // effective noise.
  datatype Update = Update(offset: real, driftStep: real, c: real, oc: real, dc: real)

  function Correct(predOffset: real, p: real, q: real, d: real, residual: real, rEff: real): Update
    requires p + rEff != 0.0
  {
    var invS := 1.0 / (p + rEff);
    var kOffset, kDrift := p * invS, q * invS;
    Update(predOffset + kOffset * residual, kDrift * residual, p - kOffset * p, q - kDrift * p, d - kDrift * q)
  }

  function NextRHat(rHat: real, robust: real, p: real): real {
    Max((1.0 - (1.0 - FORGETTING_FACTOR)) * rHat + (1.0 - FORGETTING_FACTOR) * (robust * robust - p), R_MIN)
  }

  lemma WeightInRange(residual: real, sigma: real)
    requires sigma > 0.0
    ensures 0.0 < Weight(residual, sigma) <= 1.0
    ensures Abs(residual) <= HUBER_C * sigma ==> Weight(residual, sigma) == 1.0
    ensures Abs(residual) > HUBER_C * sigma ==> Weight(residual, sigma) * Abs(residual) == HUBER_C * sigma
  {
    var a := Abs(residual);
    var norm := a / sigma;
    assert norm * sigma == a;
    if norm <= HUBER_C {
      MulMono(norm, HUBER_C, sigma);
    } else {
      MulPositive(norm - HUBER_C, sigma);
      var w := HUBER_C / norm;
      assert w * norm == HUBER_C;
      WeightBounds(w, norm);
      assert w * a == (w * norm) * sigma;
    }
  }

  lemma WeightBounds(w: real, norm: real)
    requires norm > HUBER_C && w * norm == HUBER_C
    ensures 0.0 < w < 1.0
  {
    if w <= 0.0 {
      MulMono(w, 0.0, norm);
    }
    if w >= 1.0 {
      MulMono(1.0, w, norm);
    }
  }

  // ----- the covariance, step by step

  ghost predicate PositiveDefinite(c: real, oc: real, dc: real) {
    c > 0.0 && dc > 0.0 && c * dc - oc * oc > 0.0
  }

  // dc times the variance carried forward is the square of the cross term plus the determinant.
  lemma CarriedIdentity(c: real, oc: real, dc: real, dt: real)
    ensures var q := PredictedCross(oc, dc, dt);
      dc * Carried(c, oc, dc, dt) == q * q + (c * dc - oc * oc)
  {
    var x := dc * dt;
    assert dc * (dc * (dt * dt)) == x * x;
    assert dc * (2.0 * oc * dt) == 2.0 * oc * x;
  }

  lemma SquareNonNegative(x: real)
    ensures x * x >= 0.0
  {
  }

  lemma PositiveFactor(k: real, x: real)
    requires k > 0.0 && k * x > 0.0
    ensures x > 0.0
  {
    if x <= 0.0 {
      MulMono(x, 0.0, k);
    }
  }

  lemma PredictKeepsDefinite(c: real, oc: real, dc: real, dt: real)
    requires PositiveDefinite(c, oc, dc) && dt > 0.0
    ensures PositiveDefinite(PredictedOffsetCov(c, oc, dc, dt), PredictedCross(oc, dc, dt), PredictedDriftCov(dc, dt))
  {
    var a, q := Carried(c, oc, dc, dt), PredictedCross(oc, dc, dt);
    var det := c * dc - oc * oc;
    CarriedIdentity(c, oc, dc, dt);
    hide Carried, PredictedCross;
    CarriedIsPositive(a, dc, q, det);
    MulPositive(dt, PROCESS_VAR);
    MulPositive(dt, DRIFT_PROCESS_VAR);
    DeterminantGrows(a, dc, a + dt * PROCESS_VAR, dc + dt * DRIFT_PROCESS_VAR, q);
  }

  lemma CarriedIsPositive(a: real, dc: real, q: real, det: real)
    requires dc > 0.0 && det > 0.0 && dc * a == q * q + det
    ensures a > 0.0 && dc * a - q * q > 0.0
  {
    SquareNonNegative(q);
    PositiveFactor(dc, a);
  }

  // Larger variances keep a positive determinant.
  lemma DeterminantGrows(a: real, b: real, x: real, y: real, q: real)
    requires 0.0 < a <= x && 0.0 < b <= y && b * a - q * q > 0.0
    ensures PositiveDefinite(x, q, y)
  {
    ProductGrows(a, b, x, y);
  }

  lemma ProductGrows(a: real, b: real, x: real, y: real)
    requires 0.0 < a <= x && 0.0 < b <= y
    ensures b * a <= x * y
  {
    MulMono(a, x, b);
    MulMono(b, y, x);
  }

  lemma Gain(p: real, rEff: real)
    requires p > 0.0 && rEff > 0.0
    ensures var k := p * (1.0 / (p + rEff)); 0.0 < k < 1.0 && k * (p + rEff) == p
  {
    var i := 1.0 / (p + rEff);
    assert i * (p + rEff) == 1.0;
    PositiveFactor(p + rEff, i);
    MulPositive(p, i);
    MulPositive(rEff, i);
    assert p * i + rEff * i == 1.0;
  }

  lemma ShrunkVariance(p: real, rEff: real, k: real, c: real)
    requires p > 0.0 && rEff > 0.0 && 0.0 < k < 1.0 && k * (p + rEff) == p && c == p - k * p
    ensures c == k * rEff && 0.0 < c < p && c < rEff
  {
    assert k * (p + rEff) == k * p + k * rEff;
    ProperShare(k, p, k * p);
    ProperShare(k, rEff, k * rEff);
  }

  lemma CorrectedDeterminant(p: real, q: real, d: real, i: real, k: real, w: real, c: real, oc: real, dc: real)
    requires k == p * i && w == 1.0 - k && c == p - k * p && oc == q - (q * i) * p && dc == d - (q * i) * q
    ensures c * dc - oc * oc == w * (p * d - q * q)
  {
    var z := q * q;
    assert c == w * p;
    assert oc == w * q by {
      assert (q * i) * p == k * q;
    }
    assert dc == d - i * z;
    assert c * dc == w * (p * d) - (w * k) * z by {
      assert c * dc == (w * p) * d - (w * p) * (i * z);
      assert (w * p) * (i * z) == (w * k) * z;
    }
    assert oc * oc == (w * w) * z;
    assert (w * k) * z + (w * w) * z == w * z by {
      assert w * k + w * w == w;
    }
  }

  lemma CorrectKeepsDefinite(predOffset: real, p: real, q: real, d: real, residual: real, rEff: real)
    requires PositiveDefinite(p, q, d) && rEff > 0.0
    ensures var u := Correct(predOffset, p, q, d, residual, rEff);
      PositiveDefinite(u.c, u.oc, u.dc) && u.c < p && u.c < rEff
  {
    var u := Correct(predOffset, p, q, d, residual, rEff);
    var i := 1.0 / (p + rEff);
    var k := p * i;
    Gain(p, rEff);
    ShrunkVariance(p, rEff, k, u.c);
    CorrectedDeterminant(p, q, d, i, k, 1.0 - k, u.c, u.oc, u.dc);
    MulPositive(1.0 - k, p * d - q * q);
    SquareNonNegative(u.oc);
    PositiveFactor(u.c, u.dc);
  }

  // ----- what the update computes

  // Twice the determinant times the misfit of a state (x, y) away from the prediction: its distance
  // from it in the predicted covariance, and its distance from the measurement in the noise.
  function Misfit(p: real, q: real, d: real, residual: real, rEff: real, x: real, y: real): real {
    MisfitOf(rEff, Distance(p, q, d, x, y), p * d - q * q, residual - x)
  }

  function MisfitOf(rEff: real, distance: real, det: real, gap: real): real {
    rEff * distance + det * (gap * gap)
  }

  function Distance(p: real, q: real, d: real, x: real, y: real): real {
    d * (x * x) - 2.0 * q * (x * y) + p * (y * y)
  }

  lemma DistanceIsPositive(p: real, q: real, d: real, x: real, y: real)
    requires PositiveDefinite(p, q, d)
    ensures Distance(p, q, d, x, y) >= 0.0
  {
    var z := p * y - q * x;
    assert p * Distance(p, q, d, x, y) == z * z + (p * d - q * q) * (x * x) by {
      assert z * z == (p * y) * (p * y) - 2.0 * ((p * y) * (q * x)) + (q * x) * (q * x);
      assert p * (d * (x * x)) == (p * d) * (x * x) && p * (2.0 * q * (x * y)) == 2.0 * ((p * y) * (q * x));
      assert p * (p * (y * y)) == (p * y) * (p * y) && (q * x) * (q * x) == (q * q) * (x * x);
    }
    SquareNonNegative(z);
    SquareNonNegative(x);
    MulNonNegative(p * d - q * q, x * x);
    if Distance(p, q, d, x, y) < 0.0 {
      MulPositive(p, -Distance(p, q, d, x, y));
    }
  }

  // How far the state moves is its covariance with the offset times what is left of the residual over
  // the noise.
  lemma MoveIsBalanced(p: real, q: real, d: real, residual: real, rEff: real)
    requires p > 0.0 && rEff > 0.0
    ensures var u := Correct(0.0, p, q, d, residual, rEff);
      u.offset * rEff == p * (residual - u.offset) && u.driftStep * rEff == q * (residual - u.offset)
  {
    var i := 1.0 / (p + rEff);
    assert i * (p + rEff) == 1.0;
    var m := i * residual;
    assert (p * i) * residual == p * m && (q * i) * residual == q * m;
    assert m * (p + rEff) == residual;
    assert residual - p * m == m * rEff;
    assert p * (m * rEff) == (p * m) * rEff && q * (m * rEff) == (q * m) * rEff;
  }

  lemma CrossTerms(p: real, q: real, d: real, r: real, e: real, u: real, v: real, a: real, b: real, cross: real,
      det: real)
    requires det == p * d - q * q
    requires u * r == p * e && v * r == q * e && cross == d * (u * a) - q * (u * b) - q * (v * a) + p * (v * b)
    ensures r * cross == det * (e * a)
  {
    var ea, eb := e * a, e * b;
    assert r * (d * (u * a)) == d * (p * ea) by {
      assert r * (d * (u * a)) == d * ((u * r) * a);
    }
    assert r * (q * (u * b)) == q * (p * eb) by {
      assert r * (q * (u * b)) == q * ((u * r) * b);
    }
    assert r * (q * (v * a)) == q * (q * ea) by {
      assert r * (q * (v * a)) == q * ((v * r) * a);
    }
    assert r * (p * (v * b)) == p * (q * eb) by {
      assert r * (p * (v * b)) == p * ((v * r) * b);
    }
    SpreadProduct(r, d * (u * a), q * (u * b), q * (v * a), p * (v * b));
    assert p * (q * eb) == q * (p * eb);
    assert det * ea == d * (p * ea) - q * (q * ea);
  }

  lemma SpreadProduct(r: real, w: real, x: real, y: real, z: real)
    ensures r * (w - x - y + z) == r * w - r * x - r * y + r * z
  {
  }

  lemma DistanceFrom(p: real, q: real, d: real, u: real, v: real, a: real, b: real)
    ensures Distance(p, q, d, u + a, v + b) == Distance(p, q, d, u, v) + Distance(p, q, d, a, b)
      + 2.0 * (d * (u * a) - q * (u * b) - q * (v * a) + p * (v * b))
  {
    assert (u + a) * (u + a) == u * u + 2.0 * (u * a) + a * a;
    assert (u + a) * (v + b) == u * v + u * b + v * a + a * b;
    assert (v + b) * (v + b) == v * v + 2.0 * (v * b) + b * b;
    var s1, s2, s3 := u * u + 2.0 * (u * a) + a * a, u * v + u * b + v * a + a * b, v * v + 2.0 * (v * b) + b * b;
    assert d * s1 == d * (u * u) + 2.0 * (d * (u * a)) + d * (a * a);
    assert q * s2 == q * (u * v) + q * (u * b) + q * (v * a) + q * (a * b);
    assert p * s3 == p * (v * v) + 2.0 * (p * (v * b)) + p * (b * b);
    assert 2.0 * q * s2 == 2.0 * (q * s2);
  }

  // Main result: the state the update moves to misfits prediction and measurement least of all states.
  lemma UpdateIsLeastMisfit(p: real, q: real, d: real, residual: real, rEff: real, x: real, y: real)
    requires PositiveDefinite(p, q, d) && rEff > 0.0
    ensures var u := Correct(0.0, p, q, d, residual, rEff);
      Misfit(p, q, d, residual, rEff, u.offset, u.driftStep) <= Misfit(p, q, d, residual, rEff, x, y)
  {
    MoveIsBalanced(p, q, d, residual, rEff);
    var move := Correct(0.0, p, q, d, residual, rEff);
    var u, v := move.offset, move.driftStep;
    hide Correct;
    var a, b, e, det := x - u, y - v, residual - u, p * d - q * q;
    var cross := d * (u * a) - q * (u * b) - q * (v * a) + p * (v * b);
    DistanceFrom(p, q, d, u, v, a, b);
    CrossTerms(p, q, d, rEff, e, u, v, a, b, cross, det);
    DistanceIsPositive(p, q, d, a, b);
    SquareNonNegative(a);
    MulNonNegative(rEff, Distance(p, q, d, a, b));
    MulNonNegative(det, a * a);
    var near, far := Distance(p, q, d, u, v), Distance(p, q, d, a, b);
    assert u + a == x && v + b == y && residual - x == e - a;
    hide Distance, PositiveDefinite, MisfitOf;
    assert Misfit(p, q, d, residual, rEff, u, v) == MisfitOf(rEff, near, det, e);
    assert Misfit(p, q, d, residual, rEff, x, y) == MisfitOf(rEff, near + far + 2.0 * cross, det, e - a);
    hide Misfit;
    Assemble(rEff, det, near, far, cross, e, a);
  }

  lemma Assemble(r: real, det: real, near: real, far: real, cross: real, e: real, a: real)
    requires r * cross == det * (e * a) && r * far >= 0.0 && det * (a * a) >= 0.0
    ensures MisfitOf(r, near, det, e) <= MisfitOf(r, near + far + 2.0 * cross, det, e - a)
  {
    assert r * (near + far + 2.0 * cross) == r * near + r * far + 2.0 * (r * cross);
    assert (e - a) * (e - a) == e * e - 2.0 * (e * a) + a * a;
    var ea := e * a;
    assert det * (e * e - 2.0 * ea + a * a) == det * (e * e) - 2.0 * (det * ea) + det * (a * a);
  }

  // And its covariance is that misfit's own: distances after the update are distances before it with
  // the measurement's added, each by its determinant.
  lemma UpdateAddsInformation(p: real, q: real, d: real, residual: real, rEff: real, x: real, y: real)
    requires PositiveDefinite(p, q, d) && rEff > 0.0
    ensures var u := Correct(0.0, p, q, d, residual, rEff);
      (p * d - q * q) * (rEff * Distance(u.c, u.oc, u.dc, x, y))
        == (u.c * u.dc - u.oc * u.oc) * Misfit(p, q, d, 0.0, rEff, x, y)
  {
    var u := Correct(0.0, p, q, d, residual, rEff);
    var i, det := 1.0 / (p + rEff), p * d - q * q;
    assert i * (p + rEff) == 1.0;
    CorrectIs(p, q, d, residual, rEff, i);
    hide *;
    EntriesAddInformation(p, q, d, rEff, i, p * i, 1.0 - p * i, u.c, u.oc, u.dc, det, x, y);
  }

  lemma EntriesAddInformation(p: real, q: real, d: real, r: real, i: real, k: real, w: real, c: real, oc: real, dc: real,
      det: real, x: real, y: real)
    requires i * (p + r) == 1.0 && k == p * i && w == 1.0 - k && det == p * d - q * q
    requires c == p - k * p && oc == q - (q * i) * p && dc == d - (q * i) * q
    ensures det * (r * Distance(c, oc, dc, x, y)) == (c * dc - oc * oc) * Misfit(p, q, d, 0.0, r, x, y)
  {
    hide *;
    CorrectedDeterminant(p, q, d, i, k, w, c, oc, dc);
    CorrectedEntries(p, q, d, r, i, k, w, c, oc, dc);
    ScaledDistance(p, q, d, r, w, det, c, oc, dc, x, y);
    Swap(det, w, Misfit(p, q, d, 0.0, r, x, y), c * dc - oc * oc);
  }

  lemma CorrectIs(p: real, q: real, d: real, residual: real, rEff: real, i: real)
    requires p + rEff != 0.0 && i == 1.0 / (p + rEff)
    ensures var u := Correct(0.0, p, q, d, residual, rEff);
      u.c == p - (p * i) * p && u.oc == q - (q * i) * p && u.dc == d - (q * i) * q
  {
  }

  lemma Swap(det: real, w: real, m: real, det': real)
    requires det' == w * det
    ensures det * (w * m) == det' * m
  {
    assert det * (w * m) == (w * det) * m;
  }

  lemma CorrectedEntries(p: real, q: real, d: real, r: real, i: real, k: real, w: real, c: real, oc: real, dc: real)
    requires i * (p + r) == 1.0 && k == p * i && w == 1.0 - k
    requires c == p - k * p && oc == q - (q * i) * p && dc == d - (q * i) * q
    ensures r * c == w * (r * p) && r * oc == w * (r * q) && r * dc == w * (p * d - q * q + r * d)
  {
    assert w == r * i;
    assert c == w * p && oc == w * q by {
      assert (q * i) * p == k * q;
    }
    assert r * (w * p) == w * (r * p) && r * (w * q) == w * (r * q);
    assert (q * i) * p == (p * i) * q;
    assert (q * i) * q == i * (q * q);
    var qq, pd, rd := q * q, p * d, r * d;
    assert dc == i * (pd + rd - qq) by {
      assert i * (pd + rd) == d * (i * (p + r));
      assert i * (pd + rd - qq) == i * (pd + rd) - i * qq;
    }
    var z := pd + rd - qq;
    assert r * (i * z) == (r * i) * z;
  }

  lemma ScaledDistance(p: real, q: real, d: real, r: real, w: real, det: real, c: real, oc: real, dc: real, x: real, y: real)
    requires r * c == w * (r * p) && r * oc == w * (r * q) && r * dc == w * (det + r * d) && det == p * d - q * q
    ensures r * Distance(c, oc, dc, x, y) == w * Misfit(p, q, d, 0.0, r, x, y)
  {
    var xx, xy, yy := x * x, x * y, y * y;
    Scaled(dc, xx, r, w, det + r * d);
    Scaled(oc, xy, r, w, r * q);
    Scaled(c, yy, r, w, r * p);
    var u, v, z := dc * xx, oc * xy, c * yy;
    assert Distance(c, oc, dc, x, y) == u - 2.0 * v + z;
    assert r * (u - 2.0 * v + z) == r * u - 2.0 * (r * v) + r * z;
    hide Distance, Misfit;
    MisfitAtZero(p, q, d, r, det, x, y);
    var f, g, h := (det + r * d) * xx, (r * q) * xy, (r * p) * yy;
    assert w * (f - 2.0 * g + h) == w * f - 2.0 * (w * g) + w * h;
  }

  lemma Scaled(entry: real, x: real, r: real, w: real, k: real)
    requires r * entry == w * k
    ensures r * (entry * x) == w * (k * x)
  {
    assert r * (entry * x) == (r * entry) * x;
    assert w * (k * x) == (w * k) * x;
  }

  lemma MisfitAtZero(p: real, q: real, d: real, r: real, det: real, x: real, y: real)
    requires det == p * d - q * q
    ensures Misfit(p, q, d, 0.0, r, x, y) == (det + r * d) * (x * x) - 2.0 * ((r * q) * (x * y)) + (r * p) * (y * y)
  {
    var xx, xy, yy := x * x, x * y, y * y;
    var dx, qx, px := d * xx, q * xy, p * yy;
    assert (0.0 - x) * (0.0 - x) == xx;
    assert Distance(p, q, d, x, y) == dx - 2.0 * qx + px;
    hide Distance;
    assert r * (dx - 2.0 * qx + px) == r * dx - 2.0 * (r * qx) + r * px;
    assert (det + r * d) * xx == det * xx + r * dx;
    assert (r * q) * xy == r * qx && (r * p) * yy == r * px;
  }

  // ----- the filter

  ghost predicate Valid(f: Filter) {
    && f.rHat >= R_MIN
    && (f.count < 2 ==> f.offsetDriftCov == 0.0 && f.driftCov == 0.0)
    && (f.count == 1 ==> f.offsetCov == Finite(f.rHat))
    && (f.count >= 2 ==> f.offsetCov.Finite? && PositiveDefinite(f.offsetCov.v, f.offsetDriftCov, f.driftCov))
    && f.count <= MIN_SAMPLES
  }

  lemma InnovationPositive(f: Filter, time: real)
    requires Valid(f) && f.count >= 2 && Accepts(f, time)
    ensures Dt(f, time) > 0.0 && InnovationVar(f, time) > f.rHat
  {
    PredictKeepsDefinite(f.offsetCov.v, f.offsetDriftCov, f.driftCov, Dt(f, time));
  }

  // The variance of a slope between two readings this far apart.
  function SlopeVariance(c: real, r: real, dt: real): real
    requires dt > 0.0
  {
    MulPositive(dt, dt);
    (c + r) / (dt * dt)
  }

  function Second(f: Filter, x: Sample): Filter
    requires f.offsetCov.Finite? && x.time > f.lastUpdate
  {
    var dt := Dt(f, x.time);
    f.(count := 2, drift := (x.measurement - f.offset) / dt, offset := x.measurement,
       driftCov := SlopeVariance(f.offsetCov.v, f.rHat, dt), offsetCov := Finite(f.rHat), lastUpdate := x.time)
  }

  // The quantities of one regular update, by the source's names.
  datatype Terms = Terms(predOffset: real, p: real, q: real, d: real, residual: real, weight: real, rEff: real,
                         robust: real)

  // The Huber-clipped innovation.
  function Robust(weight: real, residual: real): real {
    weight * residual
  }

  function TermsOf(f: Filter, x: Sample): Terms
    requires f.offsetCov.Finite? && x.sigma > 0.0
  {
    var dt := Dt(f, x.time);
    var predOffset := PredictedOffset(f.offset, f.drift, dt);
    var residual := x.measurement - predOffset;
    var weight := Weight(residual, x.sigma);
    WeightInRange(residual, x.sigma);
    Terms(predOffset, PredictedOffsetCov(f.offsetCov.v, f.offsetDriftCov, f.driftCov, dt),
          PredictedCross(f.offsetDriftCov, f.driftCov, dt), PredictedDriftCov(f.driftCov, dt),
          residual, weight, f.rHat / weight, Robust(weight, residual))
  }

  // Drift is extrapolated with only once it stands clear of its own uncertainty.
  predicate Significant(drift: real, driftCov: real) {
    drift * drift > DRIFT_SIG_THRESH_SQ * driftCov
  }

  function Advance(f: Filter, time: real, t: Terms): Filter
    requires t.p + t.rEff != 0.0
  {
    var u := Correct(t.predOffset, t.p, t.q, t.d, t.residual, t.rEff);
    var drift := f.drift + u.driftStep;
    f.(offset := u.offset, drift := drift, offsetCov := Finite(u.c), offsetDriftCov := u.oc, driftCov := u.dc,
       lastUpdate := time,
       count := if f.count >= MIN_SAMPLES then f.count else f.count + 1,
       rHat := if f.count >= MIN_SAMPLES then NextRHat(f.rHat, t.robust, t.p) else f.rHat,
       useDrift := Significant(drift, u.dc))
  }

  function Later(f: Filter, x: Sample): Filter
    requires Valid(f) && f.count >= 2 && Accepts(f, x.time) && x.sigma > 0.0
  {
    TermsInRange(f, x);
    Advance(f, x.time, TermsOf(f, x))
  }

  function Insert(f: Filter, x: Sample): Filter
    requires Valid(f) && Usable(f, x)
  {
    if !Accepts(f, x.time) then f
    else if f.count == 0 then f.(count := 1, offset := x.measurement, offsetCov := Finite(f.rHat), lastUpdate := x.time)
    else if f.count == 1 then Second(f, x)
    else Later(f, x)
  }

  lemma InsertKeepsValid(f: Filter, x: Sample)
    requires Valid(f) && Usable(f, x)
    ensures Valid(Insert(f, x))
    ensures Valid(ResetFilter(f))
  {
    if Accepts(f, x.time) {
      if f.count == 1 {
        SecondIsDefinite(f, x);
      } else if f.count >= 2 {
        LaterIsDefinite(f, x);
      }
    }
  }

  lemma SecondIsDefinite(f: Filter, x: Sample)
    requires Valid(f) && f.count == 1 && x.time > f.lastUpdate
    ensures Valid(Second(f, x))
  {
    var dt2 := Dt(f, x.time) * Dt(f, x.time);
    MulPositive(Dt(f, x.time), Dt(f, x.time));
    var v := (f.offsetCov.v + f.rHat) / dt2;
    assert v * dt2 == f.offsetCov.v + f.rHat;
    PositiveFactor(dt2, v);
    MulPositive(f.rHat, v);
  }

  lemma TermsInRange(f: Filter, x: Sample)
    requires Valid(f) && f.count >= 2 && Accepts(f, x.time) && x.sigma > 0.0
    ensures var t := TermsOf(f, x);
      && PositiveDefinite(t.p, t.q, t.d) && t.rEff >= f.rHat && t.rEff * t.weight == f.rHat
      && 0.0 < t.weight <= 1.0 && t.weight * Abs(t.residual) <= HUBER_C * x.sigma
      && InnovationVar(f, x.time) == t.p + f.rHat && t.residual == x.measurement - t.predOffset && t.robust == Robust(t.weight, t.residual)
  {
    hide PositiveDefinite, Weight, PredictedOffsetCov, PredictedCross, PredictedDriftCov;
    var t := TermsOf(f, x);
    PredictKeepsDefinite(f.offsetCov.v, f.offsetDriftCov, f.driftCov, Dt(f, x.time));
    WeightInRange(t.residual, x.sigma);
    EffectiveNoise(f.rHat, t.weight, t.rEff);
  }

  lemma TermsPositive(f: Filter, x: Sample)
    requires Valid(f) && f.count >= 2 && Accepts(f, x.time) && x.sigma > 0.0
    ensures TermsOf(f, x).p > 0.0 && TermsOf(f, x).rEff > 0.0
  {
    TermsInRange(f, x);
  }

  lemma EffectiveNoise(r: real, w: real, rEff: real)
    requires r > 0.0 && 0.0 < w <= 1.0 && rEff == r / w
    ensures rEff * w == r && rEff >= r
  {
    assert rEff * w == r;
    PositiveFactor(w, rEff);
    MulMono(w, 1.0, rEff);
  }

  lemma LaterIsDefinite(f: Filter, x: Sample)
    requires Valid(f) && f.count >= 2 && Accepts(f, x.time) && x.sigma > 0.0
    ensures Valid(Later(f, x))
  {
    hide TermsOf, Correct, PositiveDefinite;
    var t := TermsOf(f, x);
    TermsInRange(f, x);
    CorrectKeepsDefinite(t.predOffset, t.p, t.q, t.d, t.residual, t.rEff);
  }

  // Main result for one update: the gain is a proper fraction, so the new offset lies between the
  // prediction and the measurement, strictly unless they agree, and its variance is below both the
  // predicted one and the effective measurement noise.
  lemma UpdateInterpolates(f: Filter, x: Sample)
    requires Valid(f) && f.count >= 2 && Accepts(f, x.time) && x.sigma > 0.0
    ensures var (f', t) := (Later(f, x), TermsOf(f, x));
      && (t.residual > 0.0 ==> t.predOffset < f'.offset < x.measurement)
      && (t.residual < 0.0 ==> x.measurement < f'.offset < t.predOffset)
      && (t.residual == 0.0 ==> f'.offset == x.measurement)
      && 0.0 < f'.offsetCov.v < t.p && f'.offsetCov.v < t.rEff
  {
    hide TermsOf;
    var t := TermsOf(f, x);
    TermsInRange(f, x);
    CorrectKeepsDefinite(t.predOffset, t.p, t.q, t.d, t.residual, t.rEff);
    Gain(t.p, t.rEff);
    var k := t.p * (1.0 / (t.p + t.rEff));
    Between(k, t.residual, k * t.residual);
    assert Later(f, x).offset == t.predOffset + k * t.residual;
  }

  lemma Between(k: real, r: real, y: real)
    requires 0.0 < k < 1.0 && y == k * r
    ensures r > 0.0 ==> 0.0 < y < r
    ensures r < 0.0 ==> r < y < 0.0
    ensures r == 0.0 ==> y == 0.0
  {
    if r > 0.0 {
      ProperShare(k, r, y);
    }
    if r < 0.0 {
      ProperShare(k, -r, -y);
    }
  }

  // A move of at most |g| * bound / r.
  ghost predicate Limited(move: real, r: real, g: real, bound: real) {
    Abs(move) * r <= Abs(g) * bound
  }

  // Main result for outliers: one measurement, of any size, moves the offset by at most
  // p * HUBER_C * sigma / rHat, p the predicted variance, and the drift by the cross term's share.
  lemma InfluenceIsBounded(f: Filter, x: Sample)
    requires Valid(f) && f.count >= 2 && Accepts(f, x.time) && x.sigma > 0.0
    ensures var (f', t) := (Later(f, x), TermsOf(f, x));
      && t.p > 0.0
      && Limited(f'.offset - t.predOffset, f.rHat, t.p, HUBER_C * x.sigma)
      && Limited(f'.drift - f.drift, f.rHat, t.q, HUBER_C * x.sigma)
  {
    hide TermsOf, Limited, Correct, PositiveDefinite;
    var t := TermsOf(f, x);
    TermsInRange(f, x);
    TermsPositive(f, x);
    var u := Correct(t.predOffset, t.p, t.q, t.d, t.residual, t.rEff);
    TermsInfluence(t, u, f.drift, Later(f, x).drift, f.rHat, HUBER_C * x.sigma);
  }

  lemma TermsInfluence(t: Terms, u: Update, drift: real, drift': real, r: real, bound: real)
    requires t.p > 0.0 && t.rEff > 0.0 && t.weight > 0.0 && t.rEff * t.weight == r
    requires t.weight * Abs(t.residual) <= bound
    requires u == Correct(t.predOffset, t.p, t.q, t.d, t.residual, t.rEff) && drift' == drift + u.driftStep
    ensures Limited(u.offset - t.predOffset, r, t.p, bound) && Limited(drift' - drift, r, t.q, bound)
  {
    hide Limited, Correct;
    Moves(drift, t);
    var i := 1.0 / (t.p + t.rEff);
    assert i * (t.p + t.rEff) == 1.0;
    Influence(u.offset - t.predOffset, t.p, i, t.p, t.rEff, t.weight, r, t.residual, bound);
    Influence(drift' - drift, t.q, i, t.p, t.rEff, t.weight, r, t.residual, bound);
  }

  lemma Moves(drift: real, t: Terms)
    requires t.p + t.rEff != 0.0
    ensures var (u, i) := (Correct(t.predOffset, t.p, t.q, t.d, t.residual, t.rEff), 1.0 / (t.p + t.rEff));
      u.offset - t.predOffset == (t.p * i) * t.residual && (drift + u.driftStep) - drift == (t.q * i) * t.residual
  {
  }

  lemma Influence(move: real, g: real, i: real, p: real, rEff: real, w: real, r: real, residual: real, bound: real)
    requires p > 0.0 && rEff > 0.0 && i * (p + rEff) == 1.0 && move == (g * i) * residual
    requires 0.0 < w && rEff * w == r && w * Abs(residual) <= bound
    ensures Limited(move, r, g, bound)
  {
    PositiveFactor(p + rEff, i);
    var a, ag := Abs(residual), Abs(g);
    AbsProduct(g, i, residual);
    assert Abs((g * i) * residual) == ag * (i * a);
    // i * rEff <= 1, so i * a * r = (i * rEff) * (w * a) <= bound
    MulPositive(i, p);
    var share := i * rEff;
    assert share <= 1.0 by {
      assert i * (p + rEff) == i * p + share;
    }
    assert (i * a) * r == share * (w * a);
    MulNonNegative(w, a);
    MulMono(share, 1.0, w * a);
    MulMono((i * a) * r, bound, ag);
    assert (ag * (i * a)) * r == ((i * a) * r) * ag;
  }

  lemma MulNonNegative(x: real, y: real)
    requires x >= 0.0 && y >= 0.0
    ensures x * y >= 0.0
  {
  }

  lemma AbsProduct(g: real, i: real, r: real)
    requires i > 0.0
    ensures Abs((g * i) * r) == Abs(g) * (i * Abs(r))
  {
    var x := g * r;
    assert (g * i) * r == i * x;
    assert Abs(x) == Abs(g) * Abs(r);
    if x > 0.0 {
      MulPositive(i, x);
    } else if x < 0.0 {
      MulPositive(i, -x);
    }
    assert Abs(i * x) == i * Abs(x);
    assert i * (Abs(g) * Abs(r)) == Abs(g) * (i * Abs(r));
  }

  // Main result: among all offsets and drifts, the state after a sample is the one that misfits least:
  // the extrapolated state, weighed by its predicted covariance, and the measurement by its noise.
  lemma StateIsLeastMisfit(f: Filter, x: Sample, offset: real, drift: real)
    requires Valid(f) && f.count >= 2 && Accepts(f, x.time) && x.sigma > 0.0
    ensures var (f', t, ahead) := (Later(f, x), TermsOf(f, x), f.offset + f.drift * Dt(f, x.time));
      Misfit(t.p, t.q, t.d, x.measurement - ahead, t.rEff, f'.offset - ahead, f'.drift - f.drift)
        <= Misfit(t.p, t.q, t.d, x.measurement - ahead, t.rEff, offset - ahead, drift - f.drift)
  {
    var t, ahead := TermsOf(f, x), f.offset + f.drift * Dt(f, x.time);
    TermsInRange(f, x);
    TermsPositive(f, x);
    PredictKeepsDefinite(f.offsetCov.v, f.offsetDriftCov, f.driftCov, Dt(f, x.time));
    CorrectShifts(0.0, t.p, t.q, t.d, t.residual, t.rEff, ahead);
    assert t.predOffset == ahead && t.residual == x.measurement - ahead;
    hide Correct, PositiveDefinite, Misfit, NextRHat, Significant;
    UpdateIsLeastMisfit(t.p, t.q, t.d, t.residual, t.rEff, offset - ahead, drift - f.drift);
  }

  // The variance of a * offset + b * drift.
  function Spread(c: real, oc: real, dc: real, a: real, b: real): real {
    c * (a * a) + 2.0 * oc * (a * b) + dc * (b * b)
  }

  // Predicting carries the variance of every combination of the two along the motion, and adds the
  // process noise of the time passed.
  lemma PredictionCarriesSpread(c: real, oc: real, dc: real, dt: real, a: real, b: real)
    ensures Spread(PredictedOffsetCov(c, oc, dc, dt), PredictedCross(oc, dc, dt), PredictedDriftCov(dc, dt), a, b)
      == Spread(c, oc, dc, a, a * dt + b) + dt * Spread(PROCESS_VAR, 0.0, DRIFT_PROCESS_VAR, a, b)
  {
    CarriedSpread(c, oc, dc, dt, a, b);
    NoiseSpread(dt, a, b);
    var aa, bb := a * a, b * b;
    Distribute(Carried(c, oc, dc, dt), dt * PROCESS_VAR, aa);
    Distribute(dc, dt * DRIFT_PROCESS_VAR, bb);
    hide Carried, PredictedCross;
  }

  lemma Distribute(x: real, y: real, z: real)
    ensures (x + y) * z == x * z + y * z
  {
  }

  lemma NoiseSpread(dt: real, a: real, b: real)
    ensures dt * Spread(PROCESS_VAR, 0.0, DRIFT_PROCESS_VAR, a, b)
      == dt * PROCESS_VAR * (a * a) + dt * DRIFT_PROCESS_VAR * (b * b)
  {
    var aa, bb := a * a, b * b;
    assert Spread(PROCESS_VAR, 0.0, DRIFT_PROCESS_VAR, a, b) == PROCESS_VAR * aa + DRIFT_PROCESS_VAR * bb;
    assert dt * (PROCESS_VAR * aa + DRIFT_PROCESS_VAR * bb) == dt * PROCESS_VAR * aa + dt * DRIFT_PROCESS_VAR * bb;
  }

  lemma CarriedSpread(c: real, oc: real, dc: real, dt: real, a: real, b: real)
    ensures Spread(Carried(c, oc, dc, dt), PredictedCross(oc, dc, dt), dc, a, b) == Spread(c, oc, dc, a, a * dt + b)
  {
    var k, aa, ab, bb := a * dt, a * a, a * b, b * b;
    var u, v, w := dt * aa, dt * ab, (dt * dt) * aa;
    assert (k + b) * (k + b) == w + 2.0 * v + bb && a * (k + b) == u + ab by {
      assert (k + b) * (k + b) == k * k + 2.0 * (k * b) + bb && a * (k + b) == a * k + ab;
      assert a * k == u && k * b == v && k * k == w;
    }
    assert Carried(c, oc, dc, dt) * aa == c * aa + 2.0 * (oc * u) + dc * w by {
      assert (2.0 * oc * dt) * aa == 2.0 * (oc * u) && (dc * (dt * dt)) * aa == dc * w;
    }
    assert 2.0 * (oc + dc * dt) * ab == 2.0 * (oc * ab) + 2.0 * (dc * v);
    assert dc * (w + 2.0 * v + bb) == dc * w + 2.0 * (dc * v) + dc * bb;
    assert 2.0 * oc * (u + ab) == 2.0 * (oc * u) + 2.0 * (oc * ab);
  }

  // After a stall the prediction is that of five seconds.
  lemma StallIsCapped(f: Filter, x: Sample)
    requires f.offsetCov.Finite? && x.sigma > 0.0 && x.time - f.lastUpdate >= 5000.0
    ensures TermsOf(f, x) == TermsOf(f, x.(time := f.lastUpdate + 5000.0))
  {
  }

  // Two samples give the line through them, with the variance of a slope between two readings of the
  // estimated noise.
  lemma SecondIsThroughBoth(f: Filter, x: Sample)
    requires Valid(f) && f.count == 1 && 0.0 < x.time - f.lastUpdate <= 5000.0
    ensures var (g, dt) := (Insert(f, x), x.time - f.lastUpdate);
      && g.count == 2 && g.offset == x.measurement && g.drift * dt == x.measurement - f.offset
      && g.offsetCov == Finite(f.rHat) && g.offsetDriftCov == 0.0
      && g.driftCov * (dt * dt) == 2.0 * f.rHat
  {
    MulPositive(x.time - f.lastUpdate, x.time - f.lastUpdate);
  }

  // From the third sample on, the drift is used while it is significant.
  lemma DriftIsUsedWhenSignificant(f: Filter, x: Sample, sigma: real)
    requires Valid(f) && f.count >= 2 && Accepts(f, x.time) && x.sigma > 0.0
    requires sigma >= 0.0 && sigma * sigma == Later(f, x).driftCov
    ensures Later(f, x).useDrift <==> Abs(Later(f, x).drift) > 2.0 * sigma
  {
    SignificantIsTwoSigma(Later(f, x).drift, sigma);
    hide TermsOf, Correct, NextRHat, Abs;
  }

  // Once learning, the noise estimate follows the innovations: it moves by 3% of what the clipped
  // residual's square is off its expected value, down to the floor, so it rests where they agree.
  lemma NoiseFollowsInnovation(f: Filter, x: Sample)
    requires Valid(f) && f.count >= 2 && Accepts(f, x.time) && x.sigma > 0.0
    ensures var (f', t) := (Later(f, x), TermsOf(f, x));
      var surprise := t.robust * t.robust - InnovationVar(f, x.time);
      && (f.count < 5 ==> f'.rHat == f.rHat && f'.count == f.count + 1)
      && (f.count == 5 ==> f'.count == 5 && f'.rHat == Max(R_MIN, f.rHat + 0.03 * surprise))
  {
    hide TermsOf, Correct, InnovationVar, PositiveDefinite, Significant;
    TermsInRange(f, x);
  }

  // The noise estimate grows, in one update, by at most 3% of (HUBER_C^2 - 1)(p + rHat), however
  // large the measurement, and never falls below its floor.
  lemma NoiseGrowthIsBounded(f: Filter, x: Sample)
    requires Valid(f) && f.count >= 2 && Accepts(f, x.time) && IsRoot(x.sigma, InnovationVar(f, x.time))
    ensures var (f', t) := (Later(f, x), TermsOf(f, x));
      R_MIN <= f'.rHat <= Max(R_MIN, f.rHat + 0.03 * ((HUBER_C * HUBER_C - 1.0) * (t.p + f.rHat)))
  {
    hide TermsOf, Correct, InnovationVar, PositiveDefinite;
    var t := TermsOf(f, x);
    TermsInRange(f, x);
    var robust := t.robust;
    AbsProduct(t.residual, t.weight, 1.0);
    SquareMono(robust, HUBER_C * x.sigma);
    assert (HUBER_C * x.sigma) * (HUBER_C * x.sigma) == (HUBER_C * HUBER_C) * (t.p + f.rHat);
  }

  // ----- runs

  datatype Event = Measure(x: Sample) | Reset

  // All a run asks of its inputs: the sigma of a sample is the root of its innovation variance.
  ghost predicate RootGiven(f: Filter, e: Event) {
    e.Measure? ==> Usable(f, e.x)
  }

  function Step(f: Filter, e: Event): Filter
    requires Valid(f) && RootGiven(f, e)
  {
    match e
    case Measure(x) => Insert(f, x)
    case Reset => ResetFilter(f)
  }

  lemma StepKeepsValid(f: Filter, e: Event)
    requires Valid(f) && RootGiven(f, e)
    ensures Valid(Step(f, e))
  {
    if e.Measure? {
      InsertKeepsValid(f, e.x);
    }
  }

  ghost predicate RootsGiven(f: Filter, es: seq<Event>)
    requires Valid(f)
    decreases |es|
  {
    es != [] ==>
      RootGiven(f, es[0]) && (StepKeepsValid(f, es[0]); RootsGiven(Step(f, es[0]), es[1..]))
  }

  function Run(f: Filter, es: seq<Event>): Filter
    requires Valid(f) && RootsGiven(f, es)
    decreases |es|
  {
    if es == [] then f
    else
      StepKeepsValid(f, es[0]);
      Run(Step(f, es[0]), es[1..])
  }

  // Main result over runs: through any measurements and resets the covariance stays positive
  // definite from the second accepted sample on, and the noise estimate stays above its floor. So
  // the square root taken for any later sample is that of a positive number.
  lemma {:induction false} RunKeepsValid(f: Filter, es: seq<Event>)
    requires Valid(f) && RootsGiven(f, es)
    ensures var f' := Run(f, es);
      && Valid(f')
      && (f'.count >= 2 ==> forall time :: time > f'.lastUpdate ==> InnovationVar(f', time) > 0.0)
    decreases |es|
  {
    if es == [] {
      forall time | f.count >= 2 && time > f.lastUpdate
        ensures InnovationVar(f, time) > 0.0
      {
        InnovationPositive(f, time);
      }
    } else {
      StepKeepsValid(f, es[0]);
      RunKeepsValid(Step(f, es[0]), es[1..]);
    }
  }

  // No sample of the run is the sixth since a reset, or later.
  ghost predicate TooFewToLearn(f: Filter, es: seq<Event>)
    requires Valid(f) && RootsGiven(f, es)
    decreases |es|
  {
    es != [] ==>
      (es[0].Measure? && Accepts(f, es[0].x.time) ==> f.count < 5)
      && (StepKeepsValid(f, es[0]); TooFewToLearn(Step(f, es[0]), es[1..]))
  }

  // The noise is learned from the sixth sample on alone, and what has been learned outlives every reset.
  lemma {:induction false} NoiseOutlivesResets(f: Filter, es: seq<Event>)
    requires Valid(f) && RootsGiven(f, es) && TooFewToLearn(f, es)
    ensures Run(f, es).rHat == f.rHat
    decreases |es|
  {
    if es != [] {
      StepKeepsValid(f, es[0]);
      if es[0].Measure? && Accepts(f, es[0].x.time) && f.count >= 2 {
        NoiseFollowsInnovation(f, es[0].x);
      }
      hide Later, Second, Valid, InnovationVar;
      NoiseOutlivesResets(Step(f, es[0]), es[1..]);
    }
  }

  // ----- the same run seen from a shifted clock

  function Shift(f: Filter, c: real): Filter {
    if f.count == 0 then f else f.(offset := f.offset + c)
  }

  function ShiftEvent(e: Event, c: real): Event {
    match e
    case Measure(x) => Measure(x.(measurement := x.measurement + c))
    case Reset => Reset
  }

  function ShiftRun(es: seq<Event>, c: real): seq<Event> {
    if es == [] then [] else [ShiftEvent(es[0], c)] + ShiftRun(es[1..], c)
  }

  lemma LaterShifts(f: Filter, x: Sample, c: real)
    requires Valid(f) && f.count >= 2 && Accepts(f, x.time) && x.sigma > 0.0
    ensures Later(Shift(f, c), x.(measurement := x.measurement + c)) == Shift(Later(f, x), c)
  {
    hide Correct, NextRHat, Significant, PositiveDefinite;
    var t, x' := TermsOf(f, x), x.(measurement := x.measurement + c);
    TermsPositive(f, x);
    TermsShift(f, x, c);
    CorrectShifts(t.predOffset, t.p, t.q, t.d, t.residual, t.rEff, c);
  }

  lemma TermsShift(f: Filter, x: Sample, c: real)
    requires Valid(f) && f.count >= 2 && x.sigma > 0.0
    ensures TermsOf(Shift(f, c), x.(measurement := x.measurement + c))
      == TermsOf(f, x).(predOffset := TermsOf(f, x).predOffset + c)
  {
    var dt := Dt(f, x.time);
    PredictionShifts(f.offset, f.drift, dt, c);
    hide PredictedOffset, PredictedOffsetCov, PredictedCross, PredictedDriftCov, Weight, Robust, PositiveDefinite;
    assert (x.measurement + c) - PredictedOffset(f.offset + c, f.drift, dt) == x.measurement - PredictedOffset(f.offset, f.drift, dt);
  }

  lemma PredictionShifts(offset: real, drift: real, dt: real, c: real)
    ensures PredictedOffset(offset + c, drift, dt) == PredictedOffset(offset, drift, dt) + c
  {
  }

  lemma CorrectShifts(predOffset: real, p: real, q: real, d: real, residual: real, rEff: real, c: real)
    requires p + rEff != 0.0
    ensures var u := Correct(predOffset, p, q, d, residual, rEff);
      Correct(predOffset + c, p, q, d, residual, rEff) == u.(offset := u.offset + c)
  {
  }

  lemma StepShifts(f: Filter, e: Event, c: real)
    requires Valid(f) && RootGiven(f, e)
    ensures Valid(Shift(f, c)) && RootGiven(Shift(f, c), ShiftEvent(e, c))
    ensures Step(Shift(f, c), ShiftEvent(e, c)) == Shift(Step(f, e), c)
  {
    hide Later;
    if e.Measure? && f.count >= 2 && Accepts(f, e.x.time) {
      LaterShifts(f, e.x, c);
    }
  }

  // Adding a constant to every measurement of a run adds it to the offset and changes nothing else:
  // drift, covariance, significance and the learned noise are blind to the absolute offset.
  lemma {:induction false} RunShifts(f: Filter, es: seq<Event>, c: real)
    requires Valid(f) && RootsGiven(f, es)
    ensures Valid(Shift(f, c)) && RootsGiven(Shift(f, c), ShiftRun(es, c))
    ensures Run(Shift(f, c), ShiftRun(es, c)) == Shift(Run(f, es), c)
    decreases |es|
  {
    if es != [] {
      StepShifts(f, es[0], c);
      StepKeepsValid(f, es[0]);
      assert ShiftRun(es, c)[1..] == ShiftRun(es[1..], c);
      RunShifts(Step(f, es[0]), es[1..], c);
    }
  }

  // ----- the same run seen from a clock of another rate

  // The line c + s * time at a sample's time.
  function LineAt(c: real, s: real, time: real): real {
    c + s * time
  }

  function TiltEvent(e: Event, c: real, s: real): Event {
    match e
    case Measure(x) => Measure(x.(measurement := x.measurement + LineAt(c, s, x.time)))
    case Reset => Reset
  }

  function TiltRun(es: seq<Event>, c: real, s: real): seq<Event> {
    if es == [] then [] else [TiltEvent(es[0], c, s)] + TiltRun(es[1..], c, s)
  }

  // f as the line's readings leave it: offset on the line, and from the second sample on its slope for
  // a drift. Whether the drift is significant is another matter.
  ghost predicate Tilted(f: Filter, g: Filter, c: real, s: real) {
    && g.count == f.count && g.offsetCov == f.offsetCov && g.offsetDriftCov == f.offsetDriftCov
    && g.driftCov == f.driftCov && g.lastUpdate == f.lastUpdate && g.rHat == f.rHat
    && (f.count > 0 ==> g.offset == f.offset + LineAt(c, s, f.lastUpdate))
    && g.drift == f.drift + (if f.count >= 2 then s else 0.0)
  }

  // The next sample comes within five seconds of the last.
  predicate Timely(f: Filter, e: Event) {
    e.Measure? && f.count > 0 ==> e.x.time - f.lastUpdate <= 5000.0
  }

  ghost predicate AllTimely(f: Filter, es: seq<Event>)
    requires Valid(f) && RootsGiven(f, es)
    decreases |es|
  {
    es != [] ==> Timely(f, es[0]) && (StepKeepsValid(f, es[0]); AllTimely(Step(f, es[0]), es[1..]))
  }

  lemma LineMoves(c: real, s: real, from: real, to: real)
    ensures LineAt(c, s, to) == LineAt(c, s, from) + s * (to - from)
  {
  }

  lemma SecondTilts(f: Filter, g: Filter, x: Sample, c: real, s: real)
    requires Tilted(f, g, c, s) && f.count == 1 && f.offsetCov.Finite? && 0.0 < x.time - f.lastUpdate <= 5000.0
    ensures Tilted(Second(f, x), Second(g, x.(measurement := x.measurement + LineAt(c, s, x.time))), c, s)
    ensures f.drift == 0.0 ==> g.drift == 0.0
  {
    var dt, y := x.time - f.lastUpdate, x.measurement - f.offset;
    LineMoves(c, s, f.lastUpdate, x.time);
    var z := (x.measurement + LineAt(c, s, x.time)) - g.offset;
    hide LineAt;
    SlopeTilts(y, s, dt, z);
    hide SlopeVariance;
    assert Dt(f, x.time) == dt && Dt(g, x.time) == dt;
    var h, k := Second(f, x), Second(g, x.(measurement := x.measurement + LineAt(c, s, x.time)));
    assert h.drift == y / dt && k.drift == z / dt;
  }

  lemma SlopeTilts(y: real, s: real, dt: real, z: real)
    requires dt > 0.0 && z == y + s * dt
    ensures z / dt == y / dt + s
  {
    var q := y / dt;
    assert q * dt == y;
    assert (q + s) * dt == z;
    DivCancel(q + s, dt);
  }

  lemma TermsTilt(f: Filter, g: Filter, x: Sample, c: real, s: real)
    requires Valid(f) && Tilted(f, g, c, s) && f.count >= 2 && x.sigma > 0.0 && x.time - f.lastUpdate <= 5000.0
    ensures var (t, u) := (TermsOf(f, x), TermsOf(g, x.(measurement := x.measurement + LineAt(c, s, x.time))));
      u == t.(predOffset := t.predOffset + LineAt(c, s, x.time))
  {
    var dt, y := x.time - f.lastUpdate, x.(measurement := x.measurement + LineAt(c, s, x.time));
    LineMoves(c, s, f.lastUpdate, x.time);
    PredictionTilts(f.offset, f.drift, dt, s, LineAt(c, s, f.lastUpdate), LineAt(c, s, x.time));
    assert Dt(f, x.time) == dt && Dt(g, x.time) == dt;
    hide PredictedOffset, PredictedOffsetCov, PredictedCross, PredictedDriftCov, Weight, Robust, PositiveDefinite, LineAt;
    assert y.measurement - PredictedOffset(g.offset, g.drift, dt) == x.measurement - PredictedOffset(f.offset, f.drift, dt);
  }

  lemma PredictionTilts(offset: real, drift: real, dt: real, s: real, was: real, now: real)
    requires now == was + s * dt
    ensures PredictedOffset(offset + was, drift + s, dt) == PredictedOffset(offset, drift, dt) + now
  {
    assert (drift + s) * dt == drift * dt + s * dt;
  }

  lemma LaterTilts(f: Filter, g: Filter, x: Sample, c: real, s: real)
    requires Valid(f) && Valid(g) && Tilted(f, g, c, s) && f.count >= 2 && x.sigma > 0.0
    requires 0.0 < x.time - f.lastUpdate <= 5000.0
    ensures Tilted(Later(f, x), Later(g, x.(measurement := x.measurement + LineAt(c, s, x.time))), c, s)
  {
    hide Correct, NextRHat, Significant, PositiveDefinite, LineAt;
    var t := TermsOf(f, x);
    TermsPositive(f, x);
    TermsTilt(f, g, x, c, s);
    CorrectShifts(t.predOffset, t.p, t.q, t.d, t.residual, t.rEff, LineAt(c, s, x.time));
  }

  lemma StepTilts(f: Filter, g: Filter, e: Event, c: real, s: real)
    requires Valid(f) && RootGiven(f, e) && Tilted(f, g, c, s) && Timely(f, e)
    ensures Valid(g) && RootGiven(g, TiltEvent(e, c, s))
    ensures Tilted(Step(f, e), Step(g, TiltEvent(e, c, s)), c, s)
  {
    hide Later, Second, LineAt;
    if e.Measure? && Accepts(f, e.x.time) {
      if f.count == 1 {
        SecondTilts(f, g, e.x, c, s);
      } else if f.count >= 2 {
        LaterTilts(f, g, e.x, c, s);
      }
    }
  }

  // Main result: a line c + s * time added to the measurements of a run is found again: it is added to
  // the offset, and its slope to the drift from the second sample on, and to nothing else. Covariance
  // and learned noise are blind to it.
  lemma {:induction false} RunTilts(f: Filter, g: Filter, es: seq<Event>, c: real, s: real)
    requires Valid(f) && RootsGiven(f, es) && AllTimely(f, es) && Tilted(f, g, c, s)
    ensures Valid(g) && RootsGiven(g, TiltRun(es, c, s))
    ensures Tilted(Run(f, es), Run(g, TiltRun(es, c, s)), c, s)
    decreases |es|
  {
    if es != [] {
      StepTilts(f, g, es[0], c, s);
      StepKeepsValid(f, es[0]);
      StepKeepsValid(g, TiltEvent(es[0], c, s));
      assert TiltRun(es, c, s)[1..] == TiltRun(es[1..], c, s);
      hide Tilted, Step, Timely, RootGiven, Valid;
      RunTilts(Step(f, es[0]), Step(g, TiltEvent(es[0], c, s)), es[1..], c, s);
    }
  }

  // ----- measurements on a line

  // Nothing measured but zero so far.
  ghost predicate AtZero(f: Filter) {
    f.offset == 0.0 && f.drift == 0.0
  }

  predicate IsZero(e: Event) {
    e.Measure? ==> e.x.measurement == 0.0
  }

  lemma StepStaysAtZero(f: Filter, e: Event)
    requires Valid(f) && RootGiven(f, e) && AtZero(f) && IsZero(e)
    ensures AtZero(Step(f, e))
  {
    if e.Measure? && f.count >= 2 && Accepts(f, e.x.time) {
      TermsPositive(f, e.x);
      ZeroResidual(f, e.x);
      hide Correct, TermsOf, NextRHat, Significant, PositiveDefinite;
    }
  }

  lemma ZeroResidual(f: Filter, x: Sample)
    requires Valid(f) && f.count >= 2 && x.sigma > 0.0 && AtZero(f) && x.measurement == 0.0
    requires TermsOf(f, x).p + TermsOf(f, x).rEff != 0.0
    ensures var t := TermsOf(f, x);
      var u := Correct(t.predOffset, t.p, t.q, t.d, t.residual, t.rEff);
      u.offset == 0.0 && u.driftStep == 0.0
  {
    hide PredictedOffsetCov, PredictedCross, PredictedDriftCov, Weight, PositiveDefinite;
  }

  lemma {:induction false} RunStaysAtZero(f: Filter, es: seq<Event>)
    requires Valid(f) && RootsGiven(f, es) && AtZero(f) && forall i :: 0 <= i < |es| ==> IsZero(es[i])
    ensures AtZero(Run(f, es))
    decreases |es|
  {
    if es != [] {
      StepStaysAtZero(f, es[0]);
      StepKeepsValid(f, es[0]);
      hide AtZero, Step, RootGiven, Valid;
      RunStaysAtZero(Step(f, es[0]), es[1..]);
    }
  }

  // Measurements on the line, and the times at which they are made.
  ghost predicate OnLine(es: seq<Event>, c: real, s: real) {
    forall i :: 0 <= i < |es| && es[i].Measure? ==> es[i].x.measurement == LineAt(c, s, es[i].x.time)
  }

  function Flattened(es: seq<Event>): (r: seq<Event>)
    ensures |r| == |es| && forall i :: 0 <= i < |r| ==> IsZero(r[i])
  {
    if es == [] then []
    else
      var e := es[0];
      [match e case Measure(x) => Measure(x.(measurement := 0.0)) case Reset => Reset] + Flattened(es[1..])
  }

  lemma {:induction false} FlattenedTilts(es: seq<Event>, c: real, s: real)
    requires OnLine(es, c, s)
    ensures TiltRun(Flattened(es), c, s) == es
  {
    hide LineAt;
    if es != [] {
      FlattenedTilts(es[1..], c, s);
    }
  }

  // The flat run's roots and times are the line's own.
  lemma {:induction false} FlattenedRoots(f: Filter, g: Filter, es: seq<Event>, c: real, s: real)
    requires Valid(f) && Valid(g) && Tilted(f, g, c, s) && OnLine(es, c, s)
    requires RootsGiven(g, es) && AllTimely(g, es)
    ensures RootsGiven(f, Flattened(es)) && AllTimely(f, Flattened(es))
    decreases |es|
  {
    if es != [] {
      var e := Flattened(es)[0];
      assert TiltEvent(e, c, s) == es[0];
      assert RootGiven(f, e) && Timely(f, e);
      StepTilts(f, g, e, c, s);
      StepKeepsValid(f, e);
      StepKeepsValid(g, es[0]);
      assert Flattened(es)[1..] == Flattened(es[1..]);
      hide Tilted, Step, Timely, RootGiven, Valid, LineAt, TiltEvent;
      FlattenedRoots(Step(f, e), Step(g, es[0]), es[1..], c, s);
    }
  }

  // Main result: measurements on a line, however timed and however often the filter is reset, leave it
  // on the line: its offset is the last measurement, and from the second on its drift is the slope.
  lemma LineIsFound(es: seq<Event>, c: real, s: real)
    requires Valid(FRESH) && RootsGiven(FRESH, es) && AllTimely(FRESH, es) && OnLine(es, c, s)
    ensures var f := Run(FRESH, es);
      && (f.count > 0 ==> f.offset == LineAt(c, s, f.lastUpdate))
      && f.drift == if f.count >= 2 then s else 0.0
  {
    assert Tilted(FRESH, FRESH, c, s);
    FlattenedRoots(FRESH, FRESH, es, c, s);
    FlattenedTilts(es, c, s);
    hide LineAt;
    RunTilts(FRESH, FRESH, Flattened(es), c, s);
    RunStaysAtZero(FRESH, Flattened(es));
  }

  // ----- the class

  function GetOffset(f: Filter, time: real): real {
    f.offset + (if f.useDrift then f.drift else 0.0) * (time - f.lastUpdate)
  }

  // On the line's measurements the answer is the line's own: where it is asked for once the drift is
  // significant, and at the last measurement before.
  lemma AnswersOnTheLine(es: seq<Event>, c: real, s: real, time: real)
    requires Valid(FRESH) && RootsGiven(FRESH, es) && AllTimely(FRESH, es) && OnLine(es, c, s)
    requires Run(FRESH, es).count >= 2
    ensures var f := Run(FRESH, es); GetOffset(f, time) == LineAt(c, s, if f.useDrift then time else f.lastUpdate)
  {
    LineIsFound(es, c, s);
    LineMoves(c, s, Run(FRESH, es).lastUpdate, time);
    hide LineAt;
  }

  // The drift is significant at more than two of its standard deviations.
  lemma SignificantIsTwoSigma(drift: real, sigma: real)
    requires sigma >= 0.0
    ensures Significant(drift, sigma * sigma) <==> Abs(drift) > 2.0 * sigma
  {
    var a, b := Abs(drift), 2.0 * sigma;
    assert a * a == drift * drift && b * b == 4.0 * (sigma * sigma);
    if a > b {
      MulStrict(b, a, a, b * a, a * a);
      MulLe(b, a, b, b * b, a * b);
    } else {
      MulLe(a, b, a, a * a, b * a);
      MulLe(a, b, b, a * b, b * b);
    }
  }

  class KalmanTimeFilter {
    var count: nat
    var offset: real
    var drift: real
    var offsetCov: Variance
    var offsetDriftCov: real
    var driftCov: real
    var lastUpdate: real
    var useDrift: bool
    var rHat: real

    function State(): Filter
      reads this
    {
      Filter(count, offset, drift, offsetCov, offsetDriftCov, driftCov, lastUpdate, useDrift, rHat)
    }

    constructor ()
      ensures State() == FRESH && Valid(State())
    {
      count, offset, drift, offsetCov, offsetDriftCov, driftCov := 0, 0.0, 0.0, Infinite, 0.0, 0.0;
      lastUpdate, useDrift, rHat := 0.0, false, 25.0;
    }

    method ResetState()
      requires Valid(State())
      modifies this
      ensures State() == ResetFilter(old(State())) && Valid(State())
    {
      count, offset, drift, offsetCov, offsetDriftCov, driftCov := 0, 0.0, 0.0, Infinite, 0.0, 0.0;
      lastUpdate, useDrift := 0.0, false;
    }

    method InsertSample(measurement: real, timeAdded: real, sigma: real)
      requires Valid(State()) && Usable(State(), Sample(measurement, timeAdded, sigma))
      modifies this
      ensures State() == Insert(old(State()), Sample(measurement, timeAdded, sigma)) && Valid(State())
    {
      hide PositiveDefinite, NextRHat, Weight, Significant;
      ghost var x := Sample(measurement, timeAdded, sigma);
      InsertKeepsValid(State(), x);
      if count != 0 && timeAdded <= lastUpdate {
        return;
      }
      if count >= 2 {
        UpdateState(measurement, timeAdded, sigma);
        return;
      }
      var dt := Dt(State(), timeAdded);
      lastUpdate := timeAdded;
      if count == 0 {
        count := count + 1;
        offset := measurement;
        offsetCov := Finite(rHat);
        return;
      }
      count := count + 1;
      drift := (measurement - offset) / dt;
      offset := measurement;
      driftCov := SlopeVariance(offsetCov.v, rHat, dt);
      offsetCov := Finite(rHat);
    }

    // The predict and update steps of insert, from the third accepted sample on.
    method UpdateState(measurement: real, timeAdded: real, sigma: real)
      requires Valid(State()) && count >= 2 && timeAdded > lastUpdate && sigma > 0.0
      modifies this
      ensures State() == Later(old(State()), Sample(measurement, timeAdded, sigma))
    {
      hide PositiveDefinite, Significant, NextRHat, Weight, Robust, Correct, PredictedOffset, PredictedOffsetCov, PredictedCross, PredictedDriftCov;
      ghost var f, x := State(), Sample(measurement, timeAdded, sigma);
      var dt := Dt(State(), timeAdded);
      lastUpdate := timeAdded;
      var predOffset := PredictedOffset(offset, drift, dt);
      var newDriftCov := PredictedDriftCov(driftCov, dt);
      var newOffsetDriftCov := PredictedCross(offsetDriftCov, driftCov, dt);
      var newOffsetCov := PredictedOffsetCov(offsetCov.v, offsetDriftCov, driftCov, dt);
      var residual := measurement - predOffset;
      WeightInRange(residual, sigma);
      var weight := Weight(residual, sigma);
      var rEffective := rHat / weight;
      ghost var robust := Robust(weight, residual);
      assert TermsOf(f, x) == Terms(predOffset, newOffsetCov, newOffsetDriftCov, newDriftCov, residual, weight, rEffective,
                                    robust);
      TermsPositive(f, x);
      assert Later(f, x) == Advance(f, timeAdded, TermsOf(f, x));
      var u := Correct(predOffset, newOffsetCov, newOffsetDriftCov, newDriftCov, residual, rEffective);
      offset := u.offset;
      drift := drift + u.driftStep;
      driftCov := u.dc;
      offsetDriftCov := u.oc;
      offsetCov := Finite(u.c);
      if count >= MIN_SAMPLES {
        rHat := NextRHat(rHat, Robust(weight, residual), newOffsetCov);
      } else {
        count := count + 1;
      }
      useDrift := Significant(drift, driftCov);
    }

    method Offset(clientTimeMs: real) returns (r: real)
      ensures r == GetOffset(State(), clientTimeMs)
    {
      var dt := clientTimeMs - lastUpdate;
      r := offset + (if useDrift then drift else 0.0) * dt;
    }
  }
}
