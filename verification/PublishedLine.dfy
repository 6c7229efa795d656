// components/clock_sync/tsf_sync.cpp, broadcast_: the line a device puts on the wire. It follows
// the device's own Kalman estimate under a slew limit and reads nothing else.
module PublishedLine {
  import opened Numeric
  import opened TsfLine

  const RATE_WINDOW_US: int := 4_000_000
  const RATE_MAX_PPM: real := 100.0
  const MAX_PLAUSIBLE_DRIFT_PPM: real := 200.0
  const TMS_SLEW_MAX_US_PER_S: int := 50
  const TMS_SLEW_CATCHUP_US_PER_S: int := 300
  const TMS_CATCHUP_THRESHOLD_US: int := 1000
  const TMS_SNAP_US: int := 20000
  const SECOND_US: int := 1_000_000

  // The rate reference, the measured TSF-against-local rate and the published line. A rate or line
  // whose valid flag is clear is None; rateRefLocal is 0 until a reference is taken.
  datatype Own = Own(rateRefTsf: int, rateRefLocal: int, rate: Option<real>, pub: Option<Line>)

  const INITIAL_OWN: Own := Own(0, 0, None, None)

  // What reset_ does to it.
  function Reset(o: Own): Own {
    o.(rateRefLocal := 0, rate := None, pub := None)
  }

  // ----- the rate

  function MixRate(rate: Option<real>, measured: real): Option<real> {
    if Abs(measured) >= RATE_MAX_PPM then rate
    else match rate
      case None => Some(measured)
      case Some(r) => Some(0.5 * r + 0.5 * measured)
  }

  function TrackRate(o: Own, tsf: int, local: int): Own {
    if o.rateRefLocal == 0 then o.(rateRefTsf := tsf, rateRefLocal := local)
    else if local - o.rateRefLocal >= RATE_WINDOW_US then
      var measured := MeasuredPpm(local - o.rateRefLocal, tsf - o.rateRefTsf);
      o.(rateRefTsf := tsf, rateRefLocal := local, rate := MixRate(o.rate, measured))
    else o
  }

  // A Kalman drift past the plausible range is published as zero.
  function PublishedDrift(rate: Option<real>, est: Estimate): real {
    var kalman := est.drift * 1000000.0;
    (match rate case None => 0.0 case Some(r) => r) - (if Abs(kalman) <= MAX_PLAUSIBLE_DRIFT_PPM then kalman else 0.0)
  }

  // The server time at the middle of the sandwich.
  function ServerNow(est: Estimate, now: int, local: int): int {
    local + Trunc((est.offsetMs + est.drift * ((local - now) as real / 1000.0)) * 1000.0)
  }

  // ----- the slew

  function SlewLimit(gap: int, elapsed: int): (limit: int)
    ensures limit >= 1
  {
    var rate := if AbsInt(gap) > TMS_CATCHUP_THRESHOLD_US then TMS_SLEW_CATCHUP_US_PER_S else TMS_SLEW_MAX_US_PER_S;
    var authority := rate * (if elapsed < 0 then 0 else elapsed) / SECOND_US;
    if authority < 1 then 1 else authority
  }

  // How far the published value moves toward a target this far away: never past it, never the
  // other way, and by at most the limit unless the gap is more than 20 ms.
  function SlewMove(gap: int, elapsed: int): (move: int)
    ensures gap >= 0 ==> 0 <= move <= gap
    ensures gap <= 0 ==> gap <= move <= 0
    ensures move == 0 <==> gap == 0
    ensures AbsInt(gap) > TMS_SNAP_US ==> move == gap
    ensures AbsInt(gap) <= TMS_SNAP_US ==>
      AbsInt(move) == if AbsInt(gap) < SlewLimit(gap, elapsed) then AbsInt(gap) else SlewLimit(gap, elapsed)
  {
    if AbsInt(gap) > TMS_SNAP_US then gap
    else ClampInt(gap, -SlewLimit(gap, elapsed), SlewLimit(gap, elapsed))
  }

  // The new value lies between the old line carried forward and the target.
  function SlewedTms(pub: Option<Line>, tsf: int, target: int): (tms: int)
    ensures pub.None? ==> tms == target
    ensures pub.Some? && At(pub.value, tsf) <= target ==> At(pub.value, tsf) <= tms <= target
    ensures pub.Some? && At(pub.value, tsf) >= target ==> At(pub.value, tsf) >= tms >= target
  {
    match pub
    case None => target
    case Some(l) => At(l, tsf) + SlewMove(target - At(l, tsf), tsf - l.base)
  }

  function NextLine(o: Own, now: int, est: Estimate, tsf: int, local: int): Line {
    Line(tsf, SlewedTms(o.pub, tsf, tsf - ServerNow(est, now, local)),
      PublishedDrift(TrackRate(o, tsf, local).rate, est))
  }

  // broadcast_ up to the packet it builds; nothing happens without a TSF sample.
  function Broadcast(o: Own, now: int, est: Estimate, s: Sample): Own {
    match s
    case NoTsf => o
    case Tsf(tsf, local, _) => TrackRate(o, tsf, local).(pub := Some(NextLine(o, now, est, tsf, local)))
  }

  // ----- the line and the server's time

  // The server's clock less the local one at a local instant, as the estimate has it: the offset at
  // the call, and the drift from there.
  function ServerOffset(est: Estimate, now: int, local: int): real {
    1000.0 * est.offsetMs + est.drift * (local - now) as real
  }

  // The TSF less the server's time where the counter and the local timer read this.
  function Truth(est: Estimate, now: int, tsf: int, local: int): real {
    (tsf - local) as real - ServerOffset(est, now, local)
  }

  lemma TargetIsTruth(est: Estimate, now: int, tsf: int, local: int)
    ensures Abs((tsf - ServerNow(est, now, local)) as real - Truth(est, now, tsf, local)) < 1.0
  {
    var dt := (local - now) as real;
    var x := (est.offsetMs + est.drift * (dt / 1000.0)) * 1000.0;
    assert est.drift * (dt / 1000.0) * 1000.0 == est.drift * dt;
    assert x == ServerOffset(est, now, local);
    TruncIsNear(x);
    hide Trunc, ServerOffset;
  }

  // Main result: a first line is the truth to within a microsecond, and so is one that the truth is
  // more than 20 ms from the last one; any other lies between the last line, where it has moved to,
  // and the truth, to within a microsecond.
  lemma PublishedIsTruth(o: Own, now: int, est: Estimate, tsf: int, local: int)
    ensures var (l, truth) := (NextLine(o, now, est, tsf, local), Truth(est, now, tsf, local));
      && l.base == tsf
      && (o.pub.None? ==> Abs(l.tms as real - truth) < 1.0)
      && (o.pub.Some? ==>
            var was := Exact(o.pub.value, tsf);
            && (Abs(truth - was) > 20002.0 ==> Abs(l.tms as real - truth) < 1.0)
            && (was <= truth ==> was - 1.0 < l.tms as real < truth + 1.0)
            && (was >= truth ==> was + 1.0 > l.tms as real > truth - 1.0))
  {
    TargetIsTruth(est, now, tsf, local);
    var target, truth := tsf - ServerNow(est, now, local), Truth(est, now, tsf, local);
    hide ServerNow, Truth, PublishedDrift, TrackRate, SlewMove;
    if o.pub.Some? {
      AtIsExact(o.pub.value, tsf);
      var was, at := Exact(o.pub.value, tsf), At(o.pub.value, tsf);
      hide At, Exact;
      Slews(o.pub.value, tsf, target);
    }
  }

  lemma Slews(l: Line, tsf: int, target: int)
    ensures var (tms, at) := (SlewedTms(Some(l), tsf, target), At(l, tsf));
      && (at <= target ==> at <= tms <= target) && (at >= target ==> at >= tms >= target)
      && (AbsInt(target - at) > TMS_SNAP_US ==> tms == target)
  {
    hide At, SlewLimit;
  }

  // ----- the drift and the server's rate

  // One call of broadcast_.
  datatype Try = Try(now: int, est: Estimate, sample: Sample)

  function BroadcastAll(o: Own, tries: seq<Try>): Own {
    if tries == [] then o
    else
      var (before, t) := (BroadcastAll(o, tries[..|tries| - 1]), tries[|tries| - 1]);
      Broadcast(before, t.now, t.est, t.sample)
  }

  // Every sample that could be taken reads the counter to within err us.
  ghost predicate AllRead(k: Counter, tries: seq<Try>, err: real) {
    forall i :: 0 <= i < |tries| && tries[i].sample.Tsf? ==> k.Reads(tries[i].sample.tsf, tries[i].sample.local, err)
  }

  // A rate of the counter to within half a ppm for each microsecond its readings are off.
  ghost predicate KnowsRate(o: Own, k: Counter, err: real) {
    && (o.rateRefLocal != 0 ==> k.Reads(o.rateRefTsf, o.rateRefLocal, err))
    && (o.rate.Some? ==> Abs(o.rate.value - k.rate) <= 0.5 * err)
  }

  lemma BroadcastKnowsRate(o: Own, k: Counter, err: real, tsf: int, local: int)
    requires KnowsRate(o, k, err) && k.Reads(tsf, local, err) && err >= 0.0
    ensures var p := TrackRate(o, tsf, local);
      && KnowsRate(p, k, err)
      && (o.rateRefLocal != 0 && local - o.rateRefLocal >= 4_000_000 && Abs(k.rate) + 0.5 * err < 100.0 ==> p.rate.Some?)
      && (p.rateRefLocal != 0 || local == 0)
  {
    if o.rateRefLocal != 0 && local - o.rateRefLocal >= RATE_WINDOW_US {
      MeasuredWithin(k, o.rateRefTsf, o.rateRefLocal, tsf, local, err, RATE_WINDOW_US, 0.5 * err);
      hide MeasuredPpm;
    }
  }

  // Main result: over any run of broadcasts whose samples read a counter of rate ppm to within err us,
  // the rate measured is that rate to within err / 2 ppm: exactly, if they read it exactly.
  lemma {:induction false} RateIsTheCounters(k: Counter, tries: seq<Try>, err: real)
    requires AllRead(k, tries, err) && err >= 0.0
    ensures KnowsRate(BroadcastAll(INITIAL_OWN, tries), k, err)
  {
    if tries != [] {
      var n := |tries| - 1;
      RateIsTheCounters(k, tries[..n], err);
      var o, t := BroadcastAll(INITIAL_OWN, tries[..n]), tries[n];
      if t.sample.Tsf? {
        assert k.Reads(t.sample.tsf, t.sample.local, err);
        BroadcastKnowsRate(o, k, err, t.sample.tsf, t.sample.local);
      }
      hide TrackRate, NextLine;
    }
  }

  // A jump of the counter, or a measurement otherwise past 100 ppm, costs the window and not the rate.
  lemma JumpKeepsRate(o: Own, tsf: int, local: int)
    requires o.rateRefLocal != 0 && local - o.rateRefLocal >= 4_000_000
    requires AbsInt((tsf - o.rateRefTsf) - (local - o.rateRefLocal)) * 10_000 >= local - o.rateRefLocal
    ensures TrackRate(o, tsf, local) == o.(rateRefTsf := tsf, rateRefLocal := local)
  {
    var dl, gain := local - o.rateRefLocal, (tsf - o.rateRefTsf) - (local - o.rateRefLocal);
    LargeQuotient(gain, dl, MeasuredPpm(dl, tsf - o.rateRefTsf));
    hide MeasuredPpm;
  }

  lemma LargeQuotient(gain: int, dl: int, m: real)
    requires dl > 0 && AbsInt(gain) * 10_000 >= dl && m == gain as real / dl as real * 1000000.0
    ensures Abs(m) >= 100.0
  {
    var x, g := dl as real, gain as real;
    QuotientTimes(g, x, m);
    AbsTimes(m, x);
    if Abs(m) < 100.0 {
      MulStrict(Abs(m), 100.0, x, Abs(m) * x, 100.0 * x);
    }
  }

  // A rate that is off loses half its error with each window measured exactly.
  lemma RateHalves(o: Own, k: Counter, tsf: int, local: int)
    requires o.rate.Some? && o.rateRefLocal != 0 && local - o.rateRefLocal >= 4_000_000 && Abs(k.rate) < 100.0
    requires k.Reads(o.rateRefTsf, o.rateRefLocal, 0.0) && k.Reads(tsf, local, 0.0)
    ensures var p := TrackRate(o, tsf, local); p.rate.Some? && p.rate.value - k.rate == (o.rate.value - k.rate) / 2.0
  {
    MeasuredWithin(k, o.rateRefTsf, o.rateRefLocal, tsf, local, 0.0, RATE_WINDOW_US, 0.0);
    hide MeasuredPpm;
  }

  // The truth along a counter, by local time: it moves at the counter's rate less the estimate's.
  lemma TruthMoves(k: Counter, est: Estimate, now: int, from: int, to: int)
    ensures (k.At(to) - to as real - ServerOffset(est, now, to)) - (k.At(from) - from as real - ServerOffset(est, now, from))
      == Carried(k.rate - est.drift * 1000000.0, to - from)
  {
    CarriedOver(k.rate, from, to);
    var x, d := (to - from) as real, est.drift;
    assert d * (to - now) as real - d * (from - now) as real == d * x;
    assert (k.rate - d * 1000000.0) * PPM * x == k.rate * PPM * x - d * x;
  }

  // The drift published is that rate: to within the error of the one measured, and as if the counter
  // kept local time before one is. An estimate's drift past 200 ppm counts for nothing.
  lemma PublishedDriftIsSlope(o: Own, k: Counter, err: real, est: Estimate)
    requires KnowsRate(o, k, err)
    ensures var (d, own) := (PublishedDrift(o.rate, est), if Abs(est.drift) <= 0.0002 then est.drift * 1000000.0 else 0.0);
      && (o.rate.Some? ==> Abs(d - (k.rate - own)) <= 0.5 * err)
      && (o.rate.None? ==> d == -own)
  {
  }

  // ----- convergence

  // The allowance is that of the measured interval, whatever its length: 50 us/s, or 300 us/s when
  // more than 1 ms behind, and never below 1 us.
  lemma SlewLimitIsRate(gap: int, elapsed: int)
    ensures elapsed >= 0 ==>
      var rate := if AbsInt(gap) > TMS_CATCHUP_THRESHOLD_US then TMS_SLEW_CATCHUP_US_PER_S else TMS_SLEW_MAX_US_PER_S;
      var limit := SlewLimit(gap, elapsed);
      && (limit == 1 || limit * SECOND_US <= rate * elapsed)
      && rate * elapsed < (limit + 1) * SECOND_US
    ensures elapsed < 0 ==> SlewLimit(gap, elapsed) == 1
  {
  }

  // One broadcast: the TSF instant, the raw target there, and the drift published with it.
  datatype Beat = Beat(tsf: int, target: int, drift: real)

  function Publish(l: Line, b: Beat): Line {
    Line(b.tsf, SlewedTms(Some(l), b.tsf, b.target), b.drift)
  }

  function PublishAll(l: Line, beats: seq<Beat>): Line
    decreases |beats|
  {
    if beats == [] then l else PublishAll(Publish(l, beats[0]), beats[1..])
  }

  // Broadcasts at least a second apart whose target keeps to the slope being published: what is
  // left of the gap after one broadcast is the gap at the next.
  ghost predicate KeepsSlope(l: Line, gap: int, beats: seq<Beat>)
    decreases |beats|
  {
    beats != [] ==>
      var b := beats[0];
      && b.tsf - l.base >= SECOND_US
      && b.target - At(l, b.tsf) == gap
      && KeepsSlope(Publish(l, b), b.target - Publish(l, b).tms, beats[1..])
  }

  // How many broadcasts a gap of this size needs at most.
  function Patience(gap: int): int {
    var g := AbsInt(gap);
    if g <= TMS_CATCHUP_THRESHOLD_US then (g + 49) / 50 else 20 + (g - 951) / 300
  }

  lemma PatienceDrops(gap: int, elapsed: int)
    requires elapsed >= SECOND_US && AbsInt(gap) <= TMS_SNAP_US && gap != 0
    ensures AbsInt(gap - SlewMove(gap, elapsed)) <= TMS_SNAP_US
    ensures Patience(gap - SlewMove(gap, elapsed)) < Patience(gap)
  {
    SlewLimitIsRate(gap, elapsed);
    var limit := SlewLimit(gap, elapsed);
    assert limit >= if AbsInt(gap) > TMS_CATCHUP_THRESHOLD_US then 300 else 50;
  }

  lemma OneBroadcast(l: Line, gap: int, b: Beat)
    requires b.target - At(l, b.tsf) == gap
    ensures b.target - Publish(l, b).tms == gap - SlewMove(gap, b.tsf - l.base)
    ensures gap == 0 ==> b.target == Publish(l, b).tms
  {
    hide At;
  }

  // Main result: a gap of at most 20 ms is gone after as many broadcasts as Patience allows, and
  // stays gone.
  lemma {:induction false} SlewConverges(l: Line, gap: int, beats: seq<Beat>)
    requires AbsInt(gap) <= TMS_SNAP_US && KeepsSlope(l, gap, beats)
    requires |beats| >= 1 && |beats| >= Patience(gap)
    ensures PublishAll(l, beats).tms == beats[|beats| - 1].target
    decreases |beats|
  {
    hide At, SlewMove, Publish, Patience;
    var b, l' := beats[0], Publish(l, beats[0]);
    var left := b.target - l'.tms;
    OneBroadcast(l, gap, b);
    if gap != 0 {
      PatienceDrops(gap, b.tsf - l.base);
    }
    PatienceBound(left);
    if |beats| > 1 {
      SlewConverges(l', left, beats[1..]);
    } else {
      assert PublishAll(l', beats[1..]) == l';
    }
  }

  // 83 broadcasts are always enough.
  lemma PatienceBound(gap: int)
    requires AbsInt(gap) <= TMS_SNAP_US
    ensures 0 <= Patience(gap) <= 83
    ensures Patience(gap) == 0 <==> gap == 0
  {
  }

  function GapAfter(gap: int, n: nat): int
    decreases n
  {
    if n == 0 then gap else GapAfter(gap - SlewMove(gap, SECOND_US), n - 1)
  }

  // At exactly one second apart, a gap of 1000 + 300 * a loses 300 us a broadcast, then 50.
  lemma {:induction false} GapAtPace(a: nat, n: nat)
    requires 300 * a <= TMS_SNAP_US - 1000 && n <= a + 20
    ensures GapAfter(1000 + 300 * a, n) == if n <= a then 1000 + 300 * (a - n) else 1000 - 50 * (n - a)
    decreases n
  {
    if n > 0 {
      if a > 0 {
        GapAtPace(a - 1, n - 1);
      } else {
        SteadyPace(20, n);
      }
    }
  }

  lemma {:induction false} SteadyPace(k: nat, n: nat)
    requires n <= k <= 20
    ensures GapAfter(50 * k, n) == 50 * (k - n)
    decreases n
  {
    if n > 0 {
      SteadyPace(k - 1, n - 1);
    }
  }

  // And 83 is the least such number: from 19.9 ms, 82 broadcasts leave 50 us.
  lemma PatienceIsTight()
    ensures GapAfter(19900, 82) == 50 && GapAfter(19900, 83) == 0
  {
    GapAtPace(63, 82);
    GapAtPace(63, 83);
  }

  // ----- the published drift

  ghost predicate RateBounded(o: Own) {
    && (o.rate.Some? ==> Abs(o.rate.value) < RATE_MAX_PPM)
    && (o.pub.Some? ==> Abs(o.pub.value.drift) < RATE_MAX_PPM + MAX_PLAUSIBLE_DRIFT_PPM)
  }

  lemma MixRateBounded(rate: Option<real>, measured: real)
    requires rate.Some? ==> Abs(rate.value) < RATE_MAX_PPM
    ensures MixRate(rate, measured).Some? ==> Abs(MixRate(rate, measured).value) < RATE_MAX_PPM
  {
  }

  lemma BroadcastKeepsRateBounded(o: Own, now: int, est: Estimate, s: Sample)
    requires RateBounded(o)
    ensures RateBounded(Broadcast(o, now, est, s))
  {
    if s.Tsf? {
      hide MixRate, MeasuredPpm, SlewedTms, ServerNow;
      if s.local - o.rateRefLocal >= RATE_WINDOW_US {
        MixRateBounded(o.rate, MeasuredPpm(s.local - o.rateRefLocal, s.tsf - o.rateRefTsf));
      }
    }
  }

  // A published drift can pass the 200 ppm beyond which peers leave a line out of their mean: two
  // broadcasts 4 s apart, a measured rate of 99 ppm and a Kalman drift of -200 ppm publish 299.
  lemma PublishedDriftPassesTheGate()
    ensures exists o: Own, o': Own, est: Estimate, s: Sample, s': Sample ::
      && o == Broadcast(INITIAL_OWN, 1, est, s) && o' == Broadcast(o, 4_000_001, est, s')
      && o'.pub.Some? && o'.pub.value.drift == 299.0
  {
    var est := Estimate(true, true, 0.0, -0.0002);
    var s, s' := Tsf(1_000_000, 1, 40), Tsf(5_000_396, 4_000_001, 40);
    hide SlewedTms, ServerNow;
    var o := Broadcast(INITIAL_OWN, 1, est, s);
    assert o.rateRefLocal == 1 && o.rateRefTsf == 1_000_000;
    assert MeasuredPpm(4_000_000, 4_000_396) == 99.0;
    var o' := Broadcast(o, 4_000_001, est, s');
    assert o'.pub.value.drift == 299.0;
  }
}
