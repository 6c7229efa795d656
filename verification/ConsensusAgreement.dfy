// What the adopted line depends on: the set of contributing lines, up to a microsecond, and not the
// device that computes it.
module ConsensusAgreement {
  import opened Numeric
  import opened Permutation
  import opened TsfLine
  import opened ConsensusMath
  import opened Consensus

  // ----- the reference instant

  lemma NewestPermutes(s: seq<Line>, t: seq<Line>)
    requires s != [] && multiset(s) == multiset(t)
    ensures t != [] && Newest(s) == Newest(t)
  {
    SameSize(s, t);
    NewestIs(s);
    NewestIs(t);
    SameMember(s, t);
    SameMember(t, s);
  }

  lemma SameMember<T>(s: seq<T>, t: seq<T>)
    requires multiset(s) == multiset(t)
    ensures forall i :: 0 <= i < |s| ==> exists j :: 0 <= j < |t| && t[j] == s[i]
  {
    forall i | 0 <= i < |s|
      ensures exists j :: 0 <= j < |t| && t[j] == s[i]
    {
      assert s[i] in multiset(s);
      assert s[i] in multiset(t);
      assert s[i] in t;
    }
  }

  // ----- the choice of zero

  // Rounding a mean taken relative to an integer.
  function RoundFrom(zero: int, mean: real): int {
    zero + LlRound(mean - zero as real)
  }

  ghost predicate HalfInteger(x: real) {
    x - x.Floor as real == 0.5
  }

  // Halves round away from zero, so it matters on which side of the mean the zero lies, and only
  // then.
  lemma RoundFromAny(zero: int, zero': int, mean: real)
    ensures AbsInt(RoundFrom(zero, mean) - RoundFrom(zero', mean)) <= 1
    ensures (RoundFrom(zero, mean) == RoundFrom(zero', mean)) <==>
      (!HalfInteger(mean) || (zero as real <= mean <==> zero' as real <= mean))
  {
    RoundFromIs(zero, mean);
    RoundFromIs(zero', mean);
  }

  lemma RoundFromIs(zero: int, mean: real)
    ensures var k := mean.Floor;
      RoundFrom(zero, mean) ==
        if mean - k as real < 0.5 then k
        else if mean - k as real > 0.5 then k + 1
        else if zero as real <= mean then k + 1 else k
  {
    var k, x := mean.Floor, mean - zero as real;
    if zero as real <= mean {
      FloorShift(x + 0.5, mean + 0.5, zero);
    } else {
      FloorShift(-x + 0.5, -mean + 0.5, -zero);
    }
  }

  lemma FloorShift(x: real, y: real, k: int)
    requires x == y - k as real
    ensures x.Floor == y.Floor - k
  {
  }

  // The reweighted mean of the values at ref, against no zero at all.
  function MeanAt(lines: seq<Line>, ref: int): real
    requires lines != []
  {
    RobustMean(Spread(lines, ref, 0), CONSENSUS_SCALE_FLOOR_US)
  }

  lemma SpreadShift(lines: seq<Line>, ref: int, zero: int)
    ensures Spread(lines, ref, zero) == Image(Spread(lines, ref, 0), 1.0, -(zero as real))
  {
    var s, u := Spread(lines, ref, zero), Spread(lines, ref, 0);
    ImageElements(u, 1.0, -(zero as real));
    hide Image, At;
    forall i | 0 <= i < |lines|
      ensures s[i] == Affine(u[i], 1.0, -(zero as real))
    {
      assert s[i] == OffsetAt(ref, zero)(lines[i]);
      assert u[i] == OffsetAt(ref, 0)(lines[i]);
    }
  }

  // The choice of zero only enters through the rounding.
  lemma AgreedRounds(lines: seq<Line>)
    requires lines != []
    ensures var ref := Newest(lines);
      Agreed(lines).tms == RoundFrom(At(lines[0], ref), MeanAt(lines, ref))
  {
    var ref := Newest(lines);
    var zero := At(lines[0], ref);
    SpreadShift(lines, ref, zero);
    hide RobustMean, Spread, At, Newest;
    RobustMeanImage(Spread(lines, ref, 0), CONSENSUS_SCALE_FLOOR_US, 1.0, -(zero as real));
  }

  lemma MeanAtPermutes(s: seq<Line>, t: seq<Line>, ref: int)
    requires s != [] && multiset(s) == multiset(t)
    ensures t != [] && MeanAt(s, ref) == MeanAt(t, ref)
  {
    SameSize(s, t);
    MapPermutes(OffsetAt(ref, 0), s, t);
    RobustMeanPermutes(Spread(s, ref, 0), Spread(t, ref, 0), CONSENSUS_SCALE_FLOOR_US);
  }

  lemma DriftPermutes(s: seq<Line>, t: seq<Line>)
    requires s != [] && multiset(s) == multiset(t)
    ensures t != [] && RobustMean(Drifts(s), DRIFT_SCALE_FLOOR_PPM) == RobustMean(Drifts(t), DRIFT_SCALE_FLOOR_PPM)
  {
    SameSize(s, t);
    MapPermutes(DriftOf(), s, t);
    RobustMeanPermutes(Drifts(s), Drifts(t), DRIFT_SCALE_FLOOR_PPM);
  }

  // Main result: two lists of the same lines, whichever comes first, agree on the anchor and the
  // drift and to within 1 us on the value; they agree on the value too unless the reweighted mean
  // falls exactly half way between two integers and the two first lines lie on opposite sides of it.
  lemma OrderMovesAtMostOne(s: seq<Line>, t: seq<Line>)
    requires s != [] && multiset(s) == multiset(t)
    ensures t != []
    ensures Agreed(s).base == Agreed(t).base && Agreed(s).drift == Agreed(t).drift
    ensures AbsInt(Agreed(s).tms - Agreed(t).tms) <= 1
    ensures var ref := Newest(s);
      var mean := MeanAt(s, ref);
      (Agreed(s).tms == Agreed(t).tms) <==>
        (!HalfInteger(mean) || (At(s[0], ref) as real <= mean <==> At(t[0], ref) as real <= mean))
  {
    NewestPermutes(s, t);
    var ref := Newest(s);
    MeanAtPermutes(s, t, ref);
    DriftPermutes(s, t);
    AgreedRounds(s);
    AgreedRounds(t);
    hide RobustMean, Spread, At, Newest, MeanAt, HalfInteger, RoundFrom;
    RoundFromAny(At(s[0], ref), At(t[0], ref), MeanAt(s, ref));
  }

  // The microsecond is real: whatever a line, it and the line 1 us above it give two values, one for
  // each order.
  lemma OneApartAreAdoptedApart(a: Line)
    ensures var b := a.(tms := a.tms + 1); Agreed([a, b]).tms == a.tms + 1 && Agreed([b, a]).tms == a.tms
  {
    var b := a.(tms := a.tms + 1);
    TwoLines(a, b);
    TwoLines(b, a);
    AtBase(a);
    AtBase(b);
  }

  lemma TwoLines(a: Line, b: Line)
    requires a.base == b.base
    ensures Agreed([a, b]).tms
      == At(a, a.base) + LlRound((At(b, a.base) - At(a, a.base)) as real / 2.0)
  {
    assert [a, b][..1] == [a];
    var zero := At(a, a.base);
    var s := Spread([a, b], a.base, zero);
    assert s == [0.0, (At(b, a.base) - zero) as real] by {
      assert s[0] == OffsetAt(a.base, zero)(a) && s[1] == OffsetAt(a.base, zero)(b);
    }
    assert Newest([a, b]) == a.base;
    SumOfTwo(s);
  }

  lemma SumOfTwo(s: seq<real>)
    requires |s| == 2
    ensures Sum(s) == s[0] + s[1]
  {
    assert s[..1][..0] == [];
    assert Sum(s[..1]) == Sum([]) + s[0];
  }

  // ----- a group of one

  // A device alone adopts its own published line, unchanged.
  lemma AloneAdoptsItself(l: Line)
    ensures Agreed([l]) == l
  {
    AtBase(l);
    AgreedIsBetween([l], l.tms, l.tms);
    DriftIsBetween([l], l.drift, l.drift);
  }

  // ----- the anchor

  // A line's value before truncation and rounding, and the adopted line's when the contributors are
  // compared at ref.
  function ExactAt(t: int): Line -> real {
    (l: Line) => Exact(l, t)
  }

  function ExactValues(lines: seq<Line>, ref: int): (s: seq<real>)
    ensures |s| == |lines|
    ensures forall i :: 0 <= i < |s| ==> s[i] == lines[i].tms as real + Carried(lines[i].drift, ref - lines[i].base)
  {
    Map(ExactAt(ref), lines)
  }

  function ExactAgreed(lines: seq<Line>, ref: int, t: int): real
    requires lines != []
  {
    RobustMean(ExactValues(lines, ref), CONSENSUS_SCALE_FLOOR_US)
      + Carried(RobustMean(Drifts(lines), DRIFT_SCALE_FLOOR_PPM), t - ref)
  }

  lemma CarriedAdds(drift: real, dt: int, dt': int)
    ensures Carried(drift, dt + dt') == Carried(drift, dt) + Carried(drift, dt')
  {
    var k := drift * PPM;
    assert k * (dt as real + dt' as real) == k * dt as real + k * dt' as real;
  }

  lemma CarriedMean(a: real, b: real, dt: int)
    ensures Carried((a + b) / 2.0, dt) == (Carried(a, dt) + Carried(b, dt)) / 2.0
  {
    var x, y, d := a * PPM, b * PPM, dt as real;
    assert (a + b) / 2.0 * PPM == (x + y) / 2.0;
    assert (x + y) / 2.0 * d == (x * d + y * d) / 2.0;
  }

  // With equal drifts the adopted line is the same whatever instant the values are compared at.
  lemma EqualDriftsFixTheLine(lines: seq<Line>, drift: real, ref: int, ref': int, t: int)
    requires lines != [] && forall i :: 0 <= i < |lines| ==> lines[i].drift == drift
    ensures ExactAgreed(lines, ref, t) == ExactAgreed(lines, ref', t)
  {
    var c := Carried(drift, ref' - ref);
    var u, v := ExactValues(lines, ref), ExactValues(lines, ref');
    assert v == Image(u, 1.0, c) by {
      ImageElements(u, 1.0, c);
      forall i | 0 <= i < |v|
        ensures v[i] == Affine(u[i], 1.0, c)
      {
        CarriedAdds(drift, ref - lines[i].base, ref' - ref);
      }
    }
    DriftIsBetween(lines, drift, drift);
    CarriedAdds(drift, ref' - ref, t - ref');
    hide Carried, RobustMean;
    RobustMeanImage(u, CONSENSUS_SCALE_FLOOR_US, 1.0, c);
  }

  // The lines of the set, each paired with another of it, so that every pair's sum is one and the
  // same line: the set is its own mirror image in half that line.
  ghost predicate Mirrors(lines: seq<Line>, others: seq<Line>, z: real, drift: real) {
    && |others| == |lines| && multiset(others) == multiset(lines)
    && forall i :: 0 <= i < |lines| ==>
         ExactAt(0)(lines[i]) + ExactAt(0)(others[i]) == 2.0 * z && lines[i].drift + others[i].drift == 2.0 * drift
  }

  lemma MirrorsAt(lines: seq<Line>, others: seq<Line>, z: real, drift: real, ref: int, i: nat)
    requires Mirrors(lines, others, z, drift) && i < |lines|
    ensures ExactAt(ref)(others[i]) == Affine(ExactAt(ref)(lines[i]), -1.0, 2.0 * (z + Carried(drift, ref)))
  {
    var l, o := lines[i], others[i];
    CarriedAdds(l.drift, -l.base, ref);
    CarriedAdds(o.drift, -o.base, ref);
    CarriedMean(l.drift, o.drift, ref);
    assert (l.drift + o.drift) / 2.0 == drift;
    hide Carried;
    assert ExactAt(0)(l) + ExactAt(0)(o) == 2.0 * z;
  }

  // A mirrored set's estimate is the centre.
  lemma CentreOf(s: seq<real>, t: seq<real>, floor: real, c: real)
    requires s != [] && |t| == |s| && multiset(s) == multiset(t) && floor > 0.0
    requires forall i :: 0 <= i < |s| ==> t[i] == Affine(s[i], -1.0, 2.0 * c)
    ensures RobustMean(s, floor) == c
  {
    hide RobustMean, Affine, Image;
    ImageElements(s, -1.0, 2.0 * c);
    assert t == Image(s, -1.0, 2.0 * c);
    RobustMeanPermutes(s, t, floor);
    RobustMeanImage(s, floor, -1.0, 2.0 * c);
    FixedPoint(RobustMean(s, floor), c);
  }

  lemma FixedPoint(m: real, c: real)
    ensures m == Affine(m, -1.0, 2.0 * c) ==> m == c
  {
  }

  // So has any set of lines that is its own mirror image: it adopts the line it is mirrored in.
  lemma MirroredFixTheLine(lines: seq<Line>, others: seq<Line>, z: real, drift: real, ref: int, t: int)
    requires lines != [] && Mirrors(lines, others, z, drift)
    ensures ExactAgreed(lines, ref, t) == z + Carried(drift, t)
  {
    MirroredValue(lines, others, z, drift, ref);
    MirroredDrift(lines, others, z, drift);
    CarriedAdds(drift, ref, t - ref);
    hide Carried, RobustMean, Mirrors, ExactValues, Drifts;
  }

  lemma MirroredValue(lines: seq<Line>, others: seq<Line>, z: real, drift: real, ref: int)
    requires lines != [] && Mirrors(lines, others, z, drift)
    ensures RobustMean(ExactValues(lines, ref), CONSENSUS_SCALE_FLOOR_US) == z + Carried(drift, ref)
  {
    MapPermutes(ExactAt(ref), lines, others);
    var c, u, v := z + Carried(drift, ref), Map(ExactAt(ref), lines), Map(ExactAt(ref), others);
    assert ExactValues(lines, ref) == u;
    hide RobustMean, Carried, ExactValues, Affine;
    forall i | 0 <= i < |u|
      ensures v[i] == Affine(u[i], -1.0, 2.0 * c)
    {
      MirrorsAt(lines, others, z, drift, ref, i);
    }
    CentreOf(u, v, CONSENSUS_SCALE_FLOOR_US, c);
  }

  lemma MirroredDrift(lines: seq<Line>, others: seq<Line>, z: real, drift: real)
    requires lines != [] && Mirrors(lines, others, z, drift)
    ensures RobustMean(Drifts(lines), DRIFT_SCALE_FLOOR_PPM) == drift
  {
    MapPermutes(DriftOf(), lines, others);
    var u, v := Drifts(lines), Drifts(others);
    assert u == Map(DriftOf(), lines) && v == Map(DriftOf(), others);
    hide RobustMean, Drifts, Map;
    assert forall i :: 0 <= i < |u| ==> u[i] == lines[i].drift && v[i] == others[i].drift;
    CentreOf(u, v, DRIFT_SCALE_FLOOR_PPM, drift);
  }

  // Any pair of lines is.
  lemma TwoFixTheLine(a: Line, b: Line, ref: int, ref': int, t: int)
    ensures ExactAgreed([a, b], ref, t) == ExactAgreed([a, b], ref', t)
  {
    var z, drift := (ExactAt(0)(a) + ExactAt(0)(b)) / 2.0, (a.drift + b.drift) / 2.0;
    assert multiset([a, b]) == multiset([b, a]);
    assert Mirrors([a, b], [b, a], z, drift);
    MirroredFixTheLine([a, b], [b, a], z, drift, ref, t);
    MirroredFixTheLine([a, b], [b, a], z, drift, ref', t);
  }

  // ----- three lines that do not fix it

  // Two equal values and a third, x away: how far toward it the estimate goes.
  function Pull(x: real, floor: real): real
    requires floor > 0.0
  {
    RobustMean([0.0, 0.0, x], floor)
  }

  lemma PulledFrom(v: real, x: real, floor: real)
    requires floor > 0.0
    ensures RobustMean([v, v, v + x], floor) == v + Pull(x, floor)
    ensures Pull(-x, floor) == -Pull(x, floor)
  {
    var s := [0.0, 0.0, x];
    ImageElements(s, 1.0, v);
    assert Image(s, 1.0, v) == [v, v, v + x];
    ImageElements(s, -1.0, 0.0);
    assert Image(s, -1.0, 0.0) == [0.0, 0.0, -x];
    hide RobustMean;
    RobustMeanImage(s, floor, 1.0, v);
    RobustMeanImage(s, floor, -1.0, 0.0);
  }

  // From afar the pull is this share of the distance; closer it is more.
  const FAR_SHARE: real := 73.0 / 273.0

  lemma PullIs(x: real, floor: real)
    requires x > 0.0 && floor > 0.0
    ensures 4.0 * x >= 9.0 * floor ==> Pull(x, floor) == FAR_SHARE * x
    ensures 4.0 * x < 9.0 * floor ==> Pull(x, floor) > FAR_SHARE * x
  {
    var scale := Scale(4.0 * x / 3.0, 3, floor);
    var u := x / 3.0 / scale;
    assert u * scale == x / 3.0;
    ScaleOfThree(x, floor);
    PullSolves(x, floor, scale, u);
    hide Pull, Scale;
    ShareIs(x, u, scale, Pull(x, floor));
  }

  lemma ScaleOfThree(x: real, floor: real)
    requires x > 0.0 && floor > 0.0
    ensures var scale := Scale(4.0 * x / 3.0, 3, floor);
      scale >= 8.0 * x / 9.0 && scale >= 2.0 * floor && (scale == 8.0 * x / 9.0 || scale == 2.0 * floor)
  {
  }

  lemma PullSolves(x: real, floor: real, scale: real, u: real)
    requires x > 0.0 && floor > 0.0 && scale > 0.0 && scale == Scale(4.0 * x / 3.0, 3, floor) && u == x / 3.0 / scale
    ensures Pull(x, floor) * (3.0 + 9.0 * (u * u)) == x * (1.0 + u * u)
  {
    hide *;
    PullMeans(x, floor);
    TripleWeights(x, scale, u);
    var w0, w2 := WeightOf(0.0, x / 3.0, scale), WeightOf(x, x / 3.0, scale);
    SkewedTriple(x, floor, scale, w0, w2);
    PullFormula(x, u, w0, w2, Pull(x, floor));
  }

  lemma PullMeans(x: real, floor: real)
    requires floor > 0.0
    ensures Pull(x, floor) == RobustMean([0.0, 0.0, x], floor)
  {
    hide RobustMean;
  }

  lemma TripleWeights(x: real, scale: real, u: real)
    requires scale > 0.0 && u == x / 3.0 / scale
    ensures 1.0 + u * u > 0.0 && 1.0 + 4.0 * (u * u) > 0.0
    ensures WeightOf(0.0, x / 3.0, scale) == 1.0 / (1.0 + u * u)
    ensures WeightOf(x, x / 3.0, scale) == 1.0 / (1.0 + 4.0 * (u * u))
  {
    ReciprocalInRange(u);
    ReciprocalInRange(2.0 * u);
    assert u * scale == x / 3.0;
    DivCancel(-u, scale);
    DivCancel(2.0 * u, scale);
    assert (-u) * (-u) == u * u && (2.0 * u) * (2.0 * u) == 4.0 * (u * u);
  }

  lemma PullFormula(x: real, u: real, w0: real, w2: real, pull: real)
    requires 1.0 + u * u > 0.0 && 1.0 + 4.0 * (u * u) > 0.0
    requires w0 == 1.0 / (1.0 + u * u) && w2 == 1.0 / (1.0 + 4.0 * (u * u)) && 2.0 * w0 + w2 > 0.0
    requires pull == w2 * x / (2.0 * w0 + w2)
    ensures pull * (3.0 + 9.0 * (u * u)) == x * (1.0 + u * u)
  {
    var p, q := 1.0 + u * u, 1.0 + 4.0 * (u * u);
    assert w0 * p == 1.0 && w2 * q == 1.0;
    assert pull * (2.0 * w0 + w2) == w2 * x;
    // Times p * q: pull * (2 q + p) == p * x.
    assert (2.0 * w0 + w2) * (p * q) == 2.0 * q + p by {
      assert w0 * (p * q) == (w0 * p) * q && w2 * (p * q) == (w2 * q) * p;
    }
    assert (w2 * x) * (p * q) == ((w2 * q) * p) * x;
    assert pull * ((2.0 * w0 + w2) * (p * q)) == (pull * (2.0 * w0 + w2)) * (p * q);
  }

  lemma ShareIs(x: real, u: real, scale: real, pull: real)
    requires x > 0.0 && scale > 0.0 && u * scale == x / 3.0 && scale >= 8.0 * x / 9.0
    requires pull * (3.0 + 9.0 * (u * u)) == x * (1.0 + u * u)
    ensures scale == 8.0 * x / 9.0 ==> pull == FAR_SHARE * x
    ensures scale > 8.0 * x / 9.0 ==> pull > FAR_SHARE * x
  {
  }

  lemma SkewedTriple(x: real, floor: real, scale: real, w0: real, w2: real)
    requires x > 0.0 && floor > 0.0 && scale > 0.0 && scale == Scale(4.0 * x / 3.0, 3, floor)
    requires w0 == WeightOf(0.0, x / 3.0, scale) && w2 == WeightOf(x, x / 3.0, scale)
    ensures 2.0 * w0 + w2 > 0.0
    ensures RobustMean([0.0, 0.0, x], floor) == w2 * x / (2.0 * w0 + w2)
  {
    var s, m := [0.0, 0.0, x], x / 3.0;
    hide WeightOf, Scale;
    assert s[..2] == [0.0, 0.0] && s[..2][..1] == [0.0] && s[..2][..1][..0] == [];
    assert Sum(s[..2][..1]) == Sum([]) + 0.0;
    assert Sum(s) == x;
    assert Deviation(s[..2][..1], m) == m;
    assert Deviation(s, m) == 4.0 * x / 3.0;
    assert WeightSum(s[..2][..1], m, scale) == w0;
    assert WeightSum(s, m, scale) == 2.0 * w0 + w2;
    assert WeightedSum(s[..2][..1], m, scale) == 0.0;
    assert WeightedSum(s, m, scale) == w2 * x;
  }

  // An affine value that moves by at most one a step comes within one of any target.
  lemma Reach(d: real, k: real, target: real) returns (r: int)
    requires k != 0.0 && -1.0 <= k <= 1.0
    ensures target - 1.0 <= d + k * r as real <= target + 1.0
  {
    var q := (target - d) / k;
    r := q.Floor;
    assert k * q == target - d;
    var rest := q - r as real;
    assert k * q == k * r as real + k * rest;
    SmallProduct(k, rest);
  }

  lemma SmallProduct(k: real, x: real)
    requires -1.0 <= k <= 1.0 && 0.0 <= x <= 1.0
    ensures -1.0 <= k * x <= 1.0
  {
    MulAbs(k, 1.0, x, k * x, x);
  }

  // How far b is above a.
  function GapAt(a: Line, b: Line, ref: int): real {
    ExactAt(ref)(b) - ExactAt(ref)(a)
  }

  lemma GapMoves(a: Line, b: Line, ref: int)
    ensures GapAt(a, b, ref) == GapAt(a, b, 0) + Carried(b.drift - a.drift, ref)
  {
    CarriedAdds(a.drift, -a.base, ref);
    CarriedAdds(b.drift, -b.base, ref);
  }

  lemma TripleIs(a: Line, b: Line, ref: int, t: int)
    ensures ExactAgreed([a, a, b], ref, t)
      == ExactAt(t)(a) + Pull(GapAt(a, b, ref), CONSENSUS_SCALE_FLOOR_US)
         + Carried(Pull(b.drift - a.drift, DRIFT_SCALE_FLOOR_PPM), t - ref)
  {
    var lines, v := [a, a, b], ExactAt(ref)(a);
    assert ExactValues(lines, ref) == [v, v, v + GapAt(a, b, ref)];
    assert Drifts(lines) == [a.drift, a.drift, a.drift + (b.drift - a.drift)];
    PulledFrom(v, GapAt(a, b, ref), CONSENSUS_SCALE_FLOOR_US);
    PulledFrom(a.drift, b.drift - a.drift, DRIFT_SCALE_FLOOR_PPM);
    CarriedAdds(a.drift, ref - a.base, t - ref);
    CarriedSum(a.drift, Pull(b.drift - a.drift, DRIFT_SCALE_FLOOR_PPM), t - ref);
  }

  lemma CarriedSum(a: real, b: real, dt: int)
    ensures Carried(a + b, dt) == Carried(a, dt) + Carried(b, dt)
  {
    var x, y, d := a * PPM, b * PPM, dt as real;
    assert (a + b) * PPM == x + y;
    assert (x + y) * d == x * d + y * d;
  }

  // Main result, the failure: two equal lines and a third of any other drift, up to a million ppm away,
  // fix no line. Some two instants to compare them at give lines that never meet.
  lemma TripleMoves(a: Line, b: Line) returns (ref: int, ref': int)
    requires a.drift != b.drift && Abs(b.drift - a.drift) <= 1000000.0
    ensures forall t :: ExactAgreed([a, a, b], ref, t) != ExactAgreed([a, a, b], ref', t)
  {
    var drift := b.drift - a.drift;
    var pull := Pull(drift, DRIFT_SCALE_FLOOR_PPM);
    ref := GapIsReached(a, b, 1000.0);
    ref' := GapIsReached(a, b, if pull == FAR_SHARE * drift then 60.0 else 2000.0);
    hide ExactAt, Carried, Pull, GapAt;
    TriplesDiffer(a, b, ref, ref');
    forall t
      ensures ExactAgreed([a, a, b], ref, t) != ExactAgreed([a, a, b], ref', t)
    {
      TripleIs(a, b, ref, t);
      TripleIs(a, b, ref', t);
      CarriedAdds(pull, t - ref, ref - ref');
    }
  }

  lemma GapIsReached(a: Line, b: Line, target: real) returns (r: int)
    requires a.drift != b.drift && Abs(b.drift - a.drift) <= 1000000.0
    ensures target - 1.0 <= GapAt(a, b, r) <= target + 1.0
  {
    r := Reach(GapAt(a, b, 0), (b.drift - a.drift) * PPM, target);
    GapMoves(a, b, r);
    hide GapAt;
  }

  // The pull's share of the gap against the share of its drift.
  lemma TriplesDiffer(a: Line, b: Line, ref: int, ref': int)
    requires a.drift != b.drift && 999.0 <= GapAt(a, b, ref) <= 1001.0
    requires var far := Pull(b.drift - a.drift, DRIFT_SCALE_FLOOR_PPM) == FAR_SHARE * (b.drift - a.drift);
      if far then 59.0 <= GapAt(a, b, ref') <= 61.0 else 1999.0 <= GapAt(a, b, ref') <= 2001.0
    ensures Pull(GapAt(a, b, ref), CONSENSUS_SCALE_FLOOR_US) - Pull(GapAt(a, b, ref'), CONSENSUS_SCALE_FLOOR_US)
      != Carried(Pull(b.drift - a.drift, DRIFT_SCALE_FLOOR_PPM), ref - ref')
  {
    var drift := b.drift - a.drift;
    var extra := Pull(drift, DRIFT_SCALE_FLOOR_PPM) - FAR_SHARE * drift;
    PullIs(GapAt(a, b, ref), CONSENSUS_SCALE_FLOOR_US);
    PullIs(GapAt(a, b, ref'), CONSENSUS_SCALE_FLOOR_US);
    GapMoves(a, b, ref);
    GapMoves(a, b, ref');
    CarriedAdds(drift, ref', ref - ref');
    assert GapAt(a, b, ref) - GapAt(a, b, ref') == Carried(drift, ref - ref');
    hide GapAt, Pull;
    CarriedSum(FAR_SHARE * drift, extra, ref - ref');
    CarriedShare(drift, ref - ref');
    CarriedNotZero(extra, ref - ref');
    hide Carried;
  }

  lemma CarriedShare(drift: real, dt: int)
    ensures Carried(FAR_SHARE * drift, dt) == FAR_SHARE * Carried(drift, dt)
  {
    var k := drift * PPM;
    assert FAR_SHARE * drift * PPM == FAR_SHARE * k;
    assert FAR_SHARE * k * dt as real == FAR_SHARE * (k * dt as real);
  }

  lemma CarriedNotZero(drift: real, dt: int)
    ensures Carried(drift, dt) == 0.0 <==> drift == 0.0 || dt == 0
  {
    var k, d := drift * PPM, dt as real;
    assert k == 0.0 <==> drift == 0.0;
    NonZeroProduct(k, d);
  }

  lemma NonZeroProduct(x: real, y: real)
    ensures x * y == 0.0 <==> x == 0.0 || y == 0.0
  {
  }
}
