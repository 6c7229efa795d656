// What the rate lock keeps over whole runs of its operations, taken as atomic steps.
module RateLockRuns {
  import opened Numeric
  import opened FracSelect
  import opened RateLock

  datatype Event = Trim(ppm: real) | TickEvent | Invalidate | Clock(active: bool)

  function Step(s: Lock, e: Event): Lock {
    match e
    case Trim(ppm) => SetTrim(s, ppm).0
    case TickEvent => Tick(s)
    case Invalidate => s.(rebaseline := true)
    case Clock(active) => s.(hwActive := active)
  }

  function Run(s: Lock, es: seq<Event>): Lock
    decreases |es|
  {
    if es == [] then s else Run(Step(s, es[0]), es[1..])
  }

  // A baseline has been read.
  predicate Known(s: Lock) {
    s.baseRatio > 0.0
  }

  ghost predicate Untouched(s: Lock) {
    s.baseRatio == 0.0 && !s.oursValid && !s.ditherOn && !s.baselineValid
  }

  ghost predicate Tracking(s: Lock) {
    && s.hwDivNum >= 2
    && Fraction(s.hwReg) == s.lastFrac
    && s.baseInt == s.hwDivNum
    && s.baseRatio > 0.0
    && (s.ditherOn ==> s.baselineValid && s.oursValid)
    && (s.oursValid || (PassesRoundTrip(s.lastFrac) && s.baseRatio == RatioRead(s)))
  }

  function RatioRead(s: Lock): real
    requires s.hwDivNum >= 2 && PassesRoundTrip(s.lastFrac)
  {
    var (b, a) := DecodeFrac(s.lastFrac).value;
    BaselineRatio(s.hwDivNum, b, a, s.outputRate)
  }

  ghost predicate FieldsFit(s: Lock) {
    && s.lastFrac < FRAC_FIELDS && s.ditherLo < FRAC_FIELDS && s.ditherHi < FRAC_FIELDS
    && s.ditherDuty <= ONE_Q16 && s.sdAcc < ONE_Q16
  }

  ghost predicate Good(s: Lock) {
    FieldsFit(s) && (Untouched(s) || Tracking(s))
  }

  // What a step keeps of the hardware and of an established baseline.
  ghost predicate Keeps(s: Lock, s': Lock) {
    && s'.hwDivNum == s.hwDivNum && s'.outputRate == s.outputRate && s'.port == s.port
    && (Known(s) ==> Known(s') && s'.baseInt == s.baseInt && s'.baseRatio == s.baseRatio)
    && (!Known(s') ==> s'.hwReg == s.hwReg)
  }

  lemma {:induction false} IdealIsPositive(mults: seq<nat>, rate: nat, divNum: nat, programmed: real)
    requires rate > 0 && programmed > 0.0 && forall i :: 0 <= i < |mults| ==> mults[i] > 0
    ensures var r := IdealFor(mults, rate, divNum, programmed); r.Some? ==> r.value > 0.0 && Trunc(r.value) == divNum
  {
    if mults != [] {
      IdealIsPositive(mults[1..], rate, divNum, programmed);
    }
  }

  lemma BaselineIsPositive(divNum: nat, b: nat, a: nat, rate: nat)
    requires divNum >= 2 && b < a
    ensures BaselineRatio(divNum, b, a, rate) > 0.0
    ensures BaselineRatio(divNum, b, a, rate).Floor == divNum
  {
    var f := b as real / a as real;
    assert 0.0 <= f < 1.0 by {
      DivLess(b, a, 1, 1);
    }
    if rate != 0 {
      IdealIsPositive(MCLK_MULTIPLES, rate, divNum, Programmed(divNum, b, a));
    }
  }

  lemma EncodingFits(b: nat, a: nat)
    requires CanEncode(b, a) && a <= FRAC_MAX_DENOMINATOR
    ensures EncodeFrac(b, a) < FRAC_FIELDS
    ensures Fraction(EncodeFrac(b, a)) == EncodeFrac(b, a)
  {
    hide EncodeFrac, Fraction, DecodeFrac;
    if b != 0 {
      CodecRoundTrip(b, a);
    } else {
      EncodeZero(a);
    }
    FractionOfFields(EncodeFrac(b, a));
  }

  lemma FractionOfFields(v: nat)
    requires v < FRAC_FIELDS
    ensures Fraction(v) == v
  {
  }

  lemma EncodeZero(a: nat)
    ensures EncodeFrac(0, a) == 0
  {
  }

  lemma ReadKeepsGood(s: Lock)
    requires Good(s) && !s.ditherOn
    ensures var (s', ok) := ReadBaseline(s);
      && Good(s') && Keeps(s, s') && (ok ==> Tracking(s'))
      && s'.ditherOn == s.ditherOn && s'.baselineValid == s.baselineValid && s'.hwReg == s.hwReg
  {
    hide BaselineRatio, Programmed;
    if PassesRoundTrip(Fraction(s.hwReg)) && s.hwDivNum >= 2 {
      var (b, a) := DecodeFrac(Fraction(s.hwReg)).value;
      BaselineIsPositive(s.hwDivNum, b, a, s.outputRate);
    }
  }

  lemma PublishKeepsGood(s: Lock, target: real, frac: real)
    requires Tracking(s) && FieldsFit(s) && s.baselineValid && 0.0 <= frac < 1.0
    ensures var s' := Publish(s, target, Pick(frac)).0; FieldsFit(s') && Tracking(s') && Keeps(s, s') && s'.baselineValid
  {
    hide Pick, EncodeFrac, PassesRoundTrip, RatioRead, Ppm, DutyQ16;
    var c := Pick(frac);
    PickInRange(frac);
    DutyRounding(c.duty);
    if CanEncode(c.loB, c.loA) && CanEncode(c.hiB, c.hiA) {
      EncodingFits(c.loB, c.loA);
      EncodingFits(c.hiB, c.hiA);
    }
  }

  lemma PickInRange(frac: real)
    requires 0.0 <= frac < 1.0
    ensures var c := Pick(frac);
      0 < c.loA <= FRAC_MAX_DENOMINATOR && 0 < c.hiA <= FRAC_MAX_DENOMINATOR && c.loB < c.loA
  {
    PickIsBest(frac);
  }

  lemma TakeKeepsGood(s: Lock)
    requires Good(s)
    ensures var s1 := TakeRebaseline(s); Good(s1) && Keeps(s, s1) && (!s1.baselineValid ==> !s1.ditherOn)
  {
  }

  lemma ApplyKeepsGood(s: Lock, ppm: real)
    requires Tracking(s) && FieldsFit(s) && s.baselineValid
    ensures var s' := Apply(s, ppm).0; Good(s') && Keeps(s, s')
  {
    hide Publish, Pick, Target;
    var frac := TargetFrac(s, ppm);
    if 0.0 <= frac < 1.0 {
      PublishKeepsGood(s, Target(s, ppm), frac);
    }
  }

  lemma ReadyState(s: Lock)
    requires Tracking(s)
    ensures Tracking(s.(baselineValid := true))
    ensures FieldsFit(s) ==> FieldsFit(s.(baselineValid := true))
    ensures Keeps(s, s.(baselineValid := true))
  {
  }

  lemma KeepsIsTransitive(s1: Lock, s2: Lock, s3: Lock)
    requires Keeps(s1, s2) && Keeps(s2, s3)
    ensures Keeps(s1, s3)
  {
  }

  lemma SetTrimKeepsGood(s: Lock, ppm: real)
    requires Good(s)
    ensures var s' := SetTrim(s, ppm).0; Good(s') && Keeps(s, s')
  {
    hide TakeRebaseline, ReadBaseline, Apply, Tracking, Keeps, FieldsFit;
    var s1 := TakeRebaseline(s);
    TakeKeepsGood(s);
    if s1.baselineValid {
      ApplyKeepsGood(s1, ppm);
      KeepsIsTransitive(s, s1, Apply(s1, ppm).0);
    } else {
      ReadKeepsGood(s1);
      var (s2, ok) := ReadBaseline(s1);
      KeepsIsTransitive(s, s1, s2);
      if ok {
        var s3 := s2.(baselineValid := true);
        ReadyState(s2);
        ApplyKeepsGood(s3, ppm);
        KeepsIsTransitive(s, s2, s3);
        KeepsIsTransitive(s, s3, Apply(s3, ppm).0);
      }
    }
  }

  lemma TickKeepsGood(s: Lock)
    requires Good(s)
    ensures Good(Tick(s)) && Keeps(s, Tick(s))
  {
    hide PassesRoundTrip, RatioRead;
  }

  lemma StepKeepsGood(s: Lock, e: Event)
    requires Good(s)
    ensures Good(Step(s, e)) && Keeps(s, Step(s, e))
  {
    match e
    case Trim(ppm) => SetTrimKeepsGood(s, ppm);
    case TickEvent => TickKeepsGood(s);
    case _ =>
  }

  lemma {:induction false} RunKeepsGood(s: Lock, es: seq<Event>)
    requires Good(s)
    ensures Good(Run(s, es)) && Keeps(s, Run(s, es))
    decreases |es|
  {
    if es != [] {
      StepKeepsGood(s, es[0]);
      RunKeepsGood(Step(s, es[0]), es[1..]);
    }
  }

  // Main result: from power-on, with the driver leaving divider and register alone, the register is
  // untouched until a baseline is read, and from then on it always holds the lock's own last value
  // while the baseline never moves again, whatever is trimmed, ticked or invalidated. The operations
  // are atomic here: RateLockTasks says what a tick between two accesses of the other task does to it.
  lemma OwnTrimIsNeverABaseline(port: nat, divNum: nat, reg: nat, active: bool, rate: nat, es1: seq<Event>, es2: seq<Event>)
    ensures var s0 := Initial(port, divNum, reg, active).(outputRate := rate);
      var s1 := Run(s0, es1);
      var s2 := Run(s1, es2);
      && (!Known(s1) ==> s1.hwReg == reg && !s1.ditherOn)
      && (Known(s1) ==>
            && Fraction(s1.hwReg) == s1.lastFrac && Fraction(s2.hwReg) == s2.lastFrac
            && s2.baseInt == s1.baseInt == divNum && s2.baseRatio == s1.baseRatio)
  {
    var s0 := Initial(port, divNum, reg, active).(outputRate := rate);
    RunKeepsGood(s0, es1);
    RunKeepsGood(Run(s0, es1), es2);
  }

  // In every such run a baseline is only ever read with dithering off, so the test against the two
  // dither values never decides anything: recognition is by the last written value alone.
  lemma RecognitionIsByLastValue(s: Lock)
    requires Good(s)
    ensures var s1 := TakeRebaseline(s); !s1.baselineValid ==> !s1.ditherOn
  {
  }

  // What happens when the driver does reprogram: the new divider becomes the baseline exactly when
  // its fraction differs from the last value written. A driver that moves only the integer part is
  // taken for "nothing happened".
  lemma DriverReprograms(s: Lock, divNum: nat, b: nat, a: nat, ppm: real)
    requires Good(s) && Known(s) && s.oursValid && s.port <= 1 && s.hwActive
    requires divNum >= 2 && b < a <= FRAC_MAX_DENOMINATOR
    ensures var f := EncodeFrac(b, a);
      var s' := SetTrim(s.(hwDivNum := divNum, hwReg := f, rebaseline := true), ppm).0;
      && (f != s.lastFrac ==> s'.baseInt == divNum && s'.baseRatio == BaselineRatio(divNum, b, a, s.outputRate))
      && (f == s.lastFrac ==> s'.baseInt == s.baseInt && s'.baseRatio == s.baseRatio)
  {
    ReadsBack(divNum, b, a, s.outputRate);
    EncodingFits(b, a);
    hide EncodeFrac, Pick, BaselineRatio, Target, TargetFrac, DecodeFrac;
  }

  // Reading an encoded fraction gives its baseline, whichever denominator a zero was written with.
  lemma ReadsBack(divNum: nat, b: nat, a: nat, rate: nat)
    requires divNum >= 2 && b < a <= FRAC_MAX_DENOMINATOR
    ensures PassesRoundTrip(EncodeFrac(b, a))
    ensures var (b', a') := DecodeFrac(EncodeFrac(b, a)).value;
      BaselineRatio(divNum, b', a', rate) == BaselineRatio(divNum, b, a, rate)
  {
    if b != 0 {
      CodecRoundTrip(b, a);
    } else {
      assert 0 as real / a as real == 0.0 && Programmed(divNum, 0, a) == Programmed(divNum, 0, 1);
    }
  }

  // ----- what the clock delivers

  // The divider ratio a register value stands for.
  function RatioOf(divNum: nat, reg: nat): real {
    match DecodeFrac(Fraction(reg))
    case None => divNum as real
    case Some(f) => divNum as real + f.0 as real / f.1 as real
  }

  lemma EncodedRatio(divNum: nat, b: nat, a: nat)
    requires b < a <= FRAC_MAX_DENOMINATOR
    ensures RatioOf(divNum, EncodeFrac(b, a)) == divNum as real + b as real / a as real
  {
    EncodingFits(b, a);
    if b != 0 {
      CodecRoundTrip(b, a);
    } else {
      assert 0 as real / a as real == 0.0;
    }
  }

  // Sum of the divider ratios in force after each of n ticks.
  function SumRatios(s: Lock, n: nat): real
    decreases n
  {
    if n == 0 then 0.0
    else
      var s' := Tick(s);
      RatioOf(s'.hwDivNum, s'.hwReg) + SumRatios(s', n - 1)
  }

  // The dither state carries a bracket: both register values decode to their ends.
  ghost predicate Carries(s: Lock, loV: real, hiV: real) {
    && s.ditherOn && FieldsFit(s) && Fraction(s.hwReg) == s.lastFrac
    && RatioOf(s.hwDivNum, s.ditherLo) == s.hwDivNum as real + loV
    && RatioOf(s.hwDivNum, s.ditherHi) == s.hwDivNum as real + hiV
  }

  lemma TickCarries(s: Lock, loV: real, hiV: real)
    requires Carries(s, loV, hiV)
    ensures var s' := Tick(s);
      && Carries(s', loV, hiV) && s'.ditherDuty == s.ditherDuty && s'.hwDivNum == s.hwDivNum
      && s'.sdAcc == SdStep(s.ditherDuty, s.sdAcc).1
      && RatioOf(s'.hwDivNum, s'.hwReg) == s.hwDivNum as real + if SdStep(s.ditherDuty, s.sdAcc).0 then hiV else loV
  {
    hide DecodeFrac;
  }

  // n ticks at the integer divider, `hits` of them at the upper end.
  function Expected(hits: nat, n: nat, divNum: nat, loV: real, hiV: real): real {
    n as real * divNum as real + Delivered(hits, n, loV, hiV)
  }

  lemma ExpectedStep(hits: nat, n: nat, divNum: nat, loV: real, hiV: real)
    ensures Expected(hits + 1, n + 1, divNum, loV, hiV) == divNum as real + hiV + Expected(hits, n, divNum, loV, hiV)
    ensures Expected(hits, n + 1, divNum, loV, hiV) == divNum as real + loV + Expected(hits, n, divNum, loV, hiV)
    ensures Expected(0, 0, divNum, loV, hiV) == 0.0
  {
  }

  lemma HitsStep(n: nat, d: nat, acc: nat)
    ensures Hits(Constant(0, d), acc) == 0
    ensures var (hi, acc') := SdStep(d, acc);
      Hits(Constant(n + 1, d), acc) == (if hi then 1 else 0) + Hits(Constant(n, d), acc')
  {
    assert Constant(n + 1, d)[1..] == Constant(n, d);
  }

  lemma {:induction false} SumOfTicks(s: Lock, n: nat, loV: real, hiV: real)
    requires Carries(s, loV, hiV)
    ensures SumRatios(s, n) == Expected(Hits(Constant(n, s.ditherDuty), s.sdAcc), n, s.hwDivNum, loV, hiV)
    decreases n
  {
    hide Expected, Tick, Carries, Hits, Constant, SdStep, RatioOf;
    if n == 0 {
      HitsStep(0, s.ditherDuty, s.sdAcc);
      ExpectedStep(0, 0, s.hwDivNum, loV, hiV);
    } else {
      var s' := Tick(s);
      TickCarries(s, loV, hiV);
      SumOfTicks(s', n - 1, loV, hiV);
      HitsStep(n - 1, s.ditherDuty, s.sdAcc);
      ExpectedStep(Hits(Constant(n - 1, s.ditherDuty), s'.sdAcc), n - 1, s.hwDivNum, loV, hiV);
    }
  }

  // Given a baseline, a trim is refused outside [0, 1), divides by zero above 510/511 and steers in
  // between.
  lemma ApplyOutcome(s: Lock, ppm: real)
    ensures var frac := TargetFrac(s, ppm);
      Apply(s, ppm).1 == if frac < 0.0 || frac >= 1.0 then Refused else if frac * 511.0 > 510.0 then Trapped else Steered
  {
    hide Pick, EncodeFrac;
    var frac := TargetFrac(s, ppm);
    if 0.0 <= frac < 1.0 {
      PickInRange(frac);
      UpperEndEncodable(frac);
      UpperEndPositive(frac);
    }
  }

  // The trap is within reach of a first trim: a driver that programmed 14 + 510/511 for an unknown
  // rate, slowed by 10 ppm.
  lemma FirstTrimCanTrap()
    ensures SetTrim(Initial(0, 14, EncodeFrac(510, 511), true), -10.0).1 == Trapped
  {
    var s := TakeRebaseline(Initial(0, 14, EncodeFrac(510, 511), true));
    CodecRoundTrip(510, 511);
    EncodingFits(510, 511);
    hide EncodeFrac, DecodeFrac, Publish, Pick;
    var s' := ReadBaseline(s).0.(baselineValid := true);
    assert ReadBaseline(s).1 && s'.baseInt == 14 && s'.baseRatio == 14.0 + 510.0 / 511.0;
    assert TargetFrac(s', -10.0) == (14.0 + 510.0 / 511.0) * 1.00001 - 14.0;
    ApplyOutcome(s', -10.0);
  }

  lemma UpperEndPositive(frac: real)
    requires 0.0 <= frac < 1.0
    ensures Pick(frac).hiB == 0 ==> Pick(frac).hiB < Pick(frac).hiA
  {
    PickIsBest(frac);
  }

  // The driver has put a new fraction in the register and the lock has been told.
  predicate Reprogrammed(s: Lock) {
    s.rebaseline && Fraction(s.hwReg) != s.lastFrac
  }

  // Any state of the lock's own, or one with a fraction of the driver's.
  ghost predicate Steerable(s: Lock) {
    Good(s) || (FieldsFit(s) && Reprogrammed(s))
  }

  lemma NewFractionIsRead(s: Lock)
    requires FieldsFit(s) && Reprogrammed(s)
    ensures var s1 := TakeRebaseline(s);
      var (s2, ok) := ReadBaseline(s1);
      !s1.baselineValid && (ok ==> Tracking(s2) && FieldsFit(s2))
  {
    hide BaselineRatio, Programmed;
    var s1 := TakeRebaseline(s);
    if ReadBaseline(s1).1 {
      var (b, a) := DecodeFrac(Fraction(s.hwReg)).value;
      BaselineIsPositive(s.hwDivNum, b, a, s.outputRate);
    }
  }

  // The state a successful call hands to its last part.
  lemma PreparedBy(s: Lock, ppm: real) returns (p: Lock)
    requires Steerable(s) && SetTrim(s, ppm).1 != Refused
    ensures Tracking(p) && FieldsFit(p) && p.baselineValid && SetTrim(s, ppm) == Apply(p, ppm)
  {
    if !Good(s) {
      NewFractionIsRead(s);
      hide TakeRebaseline, ReadBaseline, Apply, Tracking, FieldsFit;
      p := ReadBaseline(TakeRebaseline(s)).0.(baselineValid := true);
      ReadyState(ReadBaseline(TakeRebaseline(s)).0);
      return;
    }
    hide TakeRebaseline, ReadBaseline, Apply, Tracking, FieldsFit, Keeps;
    var s1 := TakeRebaseline(s);
    TakeKeepsGood(s);
    if s1.baselineValid {
      ValidIsTracking(s1);
      p := s1;
    } else {
      ReadKeepsGood(s1);
      p := ReadBaseline(s1).0.(baselineValid := true);
      ReadyState(ReadBaseline(s1).0);
    }
  }

  lemma ValidIsTracking(s: Lock)
    requires Good(s) && s.baselineValid
    ensures Tracking(s)
  {
  }

  lemma PublishedBracket(p: Lock, ppm: real)
    requires Tracking(p) && FieldsFit(p) && p.baselineValid && Apply(p, ppm).1 == Steered
    ensures var (s', c, frac) := (Apply(p, ppm).0, Pick(TargetFrac(p, ppm)), TargetFrac(p, ppm));
      && s'.ditherOn == !c.exact && s'.hwDivNum == p.baseInt && s'.baseRatio == p.baseRatio
      && (!c.exact ==>
            Carries(s', c.loV, c.hiV) && s'.ditherDuty == DutyQ16(c.duty) && s'.appliedPpm == Ppm(Target(p, ppm), p.baseRatio))
      && (c.exact ==>
            && RatioOf(s'.hwDivNum, s'.hwReg) == p.baseInt as real + (if c.useLo then c.loV else c.hiV)
            && s'.appliedPpm == Ppm(RatioOf(s'.hwDivNum, s'.hwReg), p.baseRatio))
  {
    hide Pick, EncodeFrac, PassesRoundTrip, RatioRead, Ppm, DutyQ16, RatioOf, TargetFrac, Target;
    var frac := TargetFrac(p, ppm);
    var c := Pick(frac);
    EndsAreQuotients(frac);
    DutyRounding(c.duty);
    EncodingFits(c.loB, c.loA);
    EncodingFits(c.hiB, c.hiA);
    EncodedRatio(p.baseInt, c.loB, c.loA);
    EncodedRatio(p.baseInt, c.hiB, c.hiA);
    RatioOfFraction(p.baseInt, p.hwReg);
    RatioOfFraction(p.baseInt, EncodeFrac(c.loB, c.loA));
    RatioOfFraction(p.baseInt, EncodeFrac(c.hiB, c.hiA));
  }

  lemma RatioOfFraction(divNum: nat, reg: nat)
    ensures RatioOf(divNum, reg) == RatioOf(divNum, Fraction(reg))
  {
    hide DecodeFrac;
    assert Fraction(Fraction(reg)) == Fraction(reg);
  }

  lemma EndsAreQuotients(frac: real)
    requires 0.0 <= frac < 1.0
    ensures var c := Pick(frac);
      && 0 < c.loA <= FRAC_MAX_DENOMINATOR && 0 < c.hiA <= FRAC_MAX_DENOMINATOR && c.loB < c.loA
      && (c.hiB < c.hiA || c.hiB == 1)
      && c.loV == c.loB as real / c.loA as real && c.hiV == c.hiB as real / c.hiA as real
  {
    PickIsBest(frac);
  }

  ghost predicate Delivers(s: Lock, ppm: real, n: nat) {
    DeliversRatio(s, Wanted(s.baseRatio, ppm), n)
  }

  // The register holds a ratio within 1e-9 of the target, or the next n ticks take ratios that track it.
  ghost predicate DeliversRatio(s: Lock, target: real, n: nat) {
    && (!s.ditherOn ==> Abs(RatioOf(s.hwDivNum, s.hwReg) - target) < TIE && Tick(s) == s)
    && (s.ditherOn ==>
          var gap := RatioOf(s.hwDivNum, s.ditherHi) - RatioOf(s.hwDivNum, s.ditherLo);
          0.0 < gap <= 1.0 / 511.0 && Tracks(SumRatios(s, n), n, target, gap))
  }

  // Main result, end to end: after a successful trim the register either holds a ratio within 1e-9
  // of the target, or the next n ticks deliver, summed over the values the register actually takes,
  // n times the target to within one tick's gap plus n / 131072 of it, the gap being at most 1/511.
  lemma TrimIsDelivered(s: Lock, ppm: real, n: nat)
    requires Steerable(s) && SetTrim(s, ppm).1 == Steered
    ensures Delivers(SetTrim(s, ppm).0, ppm, n)
  {
    hide SetTrim, Apply, Delivers;
    var p := PreparedBy(s, ppm);
    AppliedIsDelivered(p, ppm, n);
  }

  // ----- the reference the target is taken from

  // The divider ratio that makes the output exactly `rate` at this multiple of it.
  function ExactRatio(rate: nat, mult: nat): real
    requires rate > 0 && mult > 0
  {
    MulPositive(rate as real, mult as real);
    160000000.0 / (rate as real * mult as real)
  }

  predicate Explains(ratio: real, programmed: real) {
    Abs(ratio - programmed) <= 0.01 * programmed
  }

  // The first multiple whose exact ratio is within 1% of the one programmed.
  ghost predicate FirstToExplain(mults: seq<nat>, rate: nat, programmed: real, i: nat)
    requires rate > 0 && forall j :: 0 <= j < |mults| ==> mults[j] > 0
  {
    && i < |mults| && Explains(ExactRatio(rate, mults[i]), programmed)
    && forall j :: 0 <= j < i ==> !Explains(ExactRatio(rate, mults[j]), programmed)
  }

  lemma ToleranceIsShare(ideal: real, programmed: real)
    requires programmed > 0.0
    ensures Abs(ideal - programmed) / programmed > MULT_MATCH_TOL <==> !Explains(ideal, programmed)
  {
    var q, d := Abs(ideal - programmed) / programmed, Abs(ideal - programmed);
    assert q * programmed == d;
    if q > 0.01 {
      MulStrict(0.01, q, programmed, 0.01 * programmed, d);
    } else {
      MulLe(q, 0.01, programmed, d, 0.01 * programmed);
    }
  }

  // What taking the i-th multiple gives.
  function TakenAt(mults: seq<nat>, rate: nat, divNum: nat, i: nat): Option<real>
    requires rate > 0 && i < |mults| && mults[i] > 0
  {
    var ratio := ExactRatio(rate, mults[i]);
    if ratio.Floor == divNum then Some(ratio) else None
  }

  lemma {:induction false} IdealForIs(mults: seq<nat>, rate: nat, divNum: nat, programmed: real)
    requires rate > 0 && programmed > 0.0 && forall i :: 0 <= i < |mults| ==> mults[i] > 0
    ensures forall i: nat :: FirstToExplain(mults, rate, programmed, i) ==>
      IdealFor(mults, rate, divNum, programmed) == TakenAt(mults, rate, divNum, i)
    ensures IdealFor(mults, rate, divNum, programmed).Some? ==> exists i: nat :: FirstToExplain(mults, rate, programmed, i)
  {
    if mults != [] {
      IdealForIs(mults[1..], rate, divNum, programmed);
      IdealForFirst(mults, rate, divNum, programmed);
      hide IdealFor, ExactRatio, Explains, FirstToExplain, TakenAt;
      if Explains(ExactRatio(rate, mults[0]), programmed) {
        FirstIsFirst(mults, rate, programmed);
        OnlyOneIsFirst(mults, rate, programmed, 0);
      } else {
        FirstOfRest(mults, rate, programmed);
        forall i: nat | FirstToExplain(mults, rate, programmed, i)
          ensures IdealFor(mults, rate, divNum, programmed) == TakenAt(mults, rate, divNum, i)
        {
          TakenOfRest(mults, rate, divNum, i);
        }
      }
    }
  }

  lemma TakenOfRest(mults: seq<nat>, rate: nat, divNum: nat, i: nat)
    requires rate > 0 && 0 < i < |mults| && mults[i] > 0
    ensures TakenAt(mults[1..], rate, divNum, i - 1) == TakenAt(mults, rate, divNum, i)
  {
  }

  lemma FirstIsFirst(mults: seq<nat>, rate: nat, programmed: real)
    requires rate > 0 && mults != [] && forall i :: 0 <= i < |mults| ==> mults[i] > 0
    requires Explains(ExactRatio(rate, mults[0]), programmed)
    ensures FirstToExplain(mults, rate, programmed, 0)
  {
  }

  lemma IdealForFirst(mults: seq<nat>, rate: nat, divNum: nat, programmed: real)
    requires rate > 0 && programmed > 0.0 && mults != [] && forall i :: 0 <= i < |mults| ==> mults[i] > 0
    ensures IdealFor(mults, rate, divNum, programmed) ==
      if Explains(ExactRatio(rate, mults[0]), programmed) then TakenAt(mults, rate, divNum, 0)
      else IdealFor(mults[1..], rate, divNum, programmed)
  {
    var first := Ideal(rate, mults[0]);
    assert first == ExactRatio(rate, mults[0]);
    ToleranceIsShare(first, programmed);
    hide Ideal, ExactRatio, Explains, Abs;
    assert Trunc(first) == first.Floor;
  }

  lemma FirstOfRest(mults: seq<nat>, rate: nat, programmed: real)
    requires rate > 0 && mults != [] && forall i :: 0 <= i < |mults| ==> mults[i] > 0
    requires !Explains(ExactRatio(rate, mults[0]), programmed)
    ensures forall i: nat :: FirstToExplain(mults, rate, programmed, i) ==>
      0 < i < |mults| && FirstToExplain(mults[1..], rate, programmed, i - 1)
    ensures forall i: nat :: FirstToExplain(mults[1..], rate, programmed, i) ==>
      FirstToExplain(mults, rate, programmed, i + 1)
  {
    hide ExactRatio, Explains;
    forall i: nat | FirstToExplain(mults, rate, programmed, i)
      ensures 0 < i < |mults| && FirstToExplain(mults[1..], rate, programmed, i - 1)
    {
      assert forall j :: 0 <= j < i - 1 ==> mults[1..][j] == mults[j + 1];
    }
    forall i: nat | FirstToExplain(mults[1..], rate, programmed, i)
      ensures FirstToExplain(mults, rate, programmed, i + 1)
    {
      forall j | 0 <= j < i + 1
        ensures !Explains(ExactRatio(rate, mults[j]), programmed)
      {
        if j > 0 {
          assert mults[1..][j - 1] == mults[j];
        }
      }
    }
  }

  // Main result: the reference is within 1% of what was programmed. It is the exact ratio of the first
  // multiple that explains what was programmed, when that has the programmed integer part, and the
  // programmed ratio itself when it has not, when no multiple explains it, and when the rate is unknown.
  lemma BaselineIs(divNum: nat, b: nat, a: nat, rate: nat)
    requires divNum >= 2 && b < a
    ensures var (p, r) := (divNum as real + b as real / a as real, BaselineRatio(divNum, b, a, rate));
      && Explains(r, p)
      && (rate == 0 ==> r == p)
      && (rate > 0 ==>
            && (forall i: nat :: FirstToExplain(MCLK_MULTIPLES, rate, p, i) ==>
                  r == var ratio := ExactRatio(rate, MCLK_MULTIPLES[i]); if ratio.Floor == divNum then ratio else p)
            && ((forall i: nat :: !FirstToExplain(MCLK_MULTIPLES, rate, p, i)) ==> r == p))
  {
    assert b as real / a as real >= 0.0;
    if rate > 0 {
      var p := divNum as real + b as real / a as real;
      IdealForIs(MCLK_MULTIPLES, rate, divNum, p);
      BaselineFrom(divNum, b, a, rate);
      hide IdealFor, ExactRatio, BaselineRatio;
    }
  }

  lemma BaselineFrom(divNum: nat, b: nat, a: nat, rate: nat)
    requires divNum >= 2 && b < a && rate > 0 && divNum as real + b as real / a as real > 0.0
    ensures var p := divNum as real + b as real / a as real;
      BaselineRatio(divNum, b, a, rate) ==
        match IdealFor(MCLK_MULTIPLES, rate, divNum, p) case None => p case Some(ideal) => ideal
  {
    hide IdealFor;
  }

  lemma OnlyOneIsFirst(mults: seq<nat>, rate: nat, programmed: real, i: nat)
    requires rate > 0 && forall j :: 0 <= j < |mults| ==> mults[j] > 0
    requires FirstToExplain(mults, rate, programmed, i)
    ensures i < |mults|
    ensures forall j: nat :: FirstToExplain(mults, rate, programmed, j) ==> j == i
  {
    hide ExactRatio, Explains;
  }

  // The next trim reads the registers afresh: what they hold is the driver's.
  predicate ReadsAfresh(s: Lock) {
    var s1 := TakeRebaseline(s);
    !s1.baselineValid && (!s1.oursValid || (Reprogrammed(s) && !s1.ditherOn))
  }

  lemma AfreshIsBaseline(s: Lock, ppm: real)
    requires ReadsAfresh(s) && Steerable(s) && SetTrim(s, ppm).1 != Refused
    ensures s.hwDivNum >= 2 && PassesRoundTrip(Fraction(s.hwReg))
    ensures var (b, a) := DecodeFrac(Fraction(s.hwReg)).value;
      SetTrim(s, ppm).0.baseRatio == BaselineRatio(s.hwDivNum, b, a, s.outputRate)
  {
    hide BaselineRatio, Pick, EncodeFrac, DutyQ16, Ppm;
  }

  // The divider ratio of a clock faster by ppm, to first order: smaller by ppm millionths of itself.
  function Faster(base: real, ppm: real): real {
    base - ppm * 0.000001 * base
  }

  // Main result, end to end: where a multiple of the known rate explains the divider the driver chose,
  // with its integer part, a trim by ppm of what was read afresh delivers the exact clock of that rate,
  // faster by ppm.
  lemma ExactClockIsDelivered(s: Lock, ppm: real, n: nat, i: nat)
    requires Steerable(s) && ReadsAfresh(s) && ExplainedBy(s, i)
    requires SetTrim(s, ppm).1 == Steered && -5000.0 <= ppm <= 5000.0
    ensures i < |MCLK_MULTIPLES| && s.outputRate > 0
    ensures var exact := ExactRatio(s.outputRate, MCLK_MULTIPLES[i]);
      DeliversRatio(SetTrim(s, ppm).0, Faster(exact, ppm), n)
  {
    hide *;
    AfreshIsExact(s, ppm, i);
    TrimIsDelivered(s, ppm, n);
    var s', exact := SetTrim(s, ppm).0, ExactRatio(s.outputRate, MCLK_MULTIPLES[i]);
    DeliversWanted(s', exact, ppm, n);
  }

  lemma DeliversWanted(s: Lock, base: real, ppm: real, n: nat)
    requires -5000.0 <= ppm <= 5000.0 && s.baseRatio == base && Delivers(s, ppm, n)
    ensures DeliversRatio(s, Faster(base, ppm), n)
  {
    hide DeliversRatio;
    WantedIs(base, ppm);
    hide Wanted, Faster;
  }

  ghost predicate ExplainedBy(s: Lock, i: nat) {
    && s.outputRate > 0 && DecodeFrac(Fraction(s.hwReg)).Some?
    && var (b, a) := DecodeFrac(Fraction(s.hwReg)).value;
    FirstToExplain(MCLK_MULTIPLES, s.outputRate, s.hwDivNum as real + b as real / a as real, i)
      && ExactRatio(s.outputRate, MCLK_MULTIPLES[i]).Floor == s.hwDivNum
  }

  lemma AfreshIsExact(s: Lock, ppm: real, i: nat)
    requires Steerable(s) && ReadsAfresh(s) && SetTrim(s, ppm).1 == Steered && ExplainedBy(s, i)
    ensures s.outputRate > 0 && i < |MCLK_MULTIPLES| && MCLK_MULTIPLES[i] > 0
    ensures SetTrim(s, ppm).0.baseRatio == ExactRatio(s.outputRate, MCLK_MULTIPLES[i])
  {
    var (b, a) := DecodeFrac(Fraction(s.hwReg)).value;
    hide SetTrim, ReadsAfresh, Steerable, BaselineRatio, DecodeFrac, Fraction;
    AfreshIsBaseline(s, ppm);
    BaselineIs(s.hwDivNum, b, a, s.outputRate);
    hide ExactRatio, Explains;
  }

  lemma WantedIs(base: real, ppm: real)
    requires -5000.0 <= ppm <= 5000.0
    ensures Wanted(base, ppm) == Faster(base, ppm)
  {
    var k := ppm * 0.000001;
    assert (1.0 - k) * base == base - k * base;
  }

  lemma AppliedIsDelivered(p: Lock, ppm: real, n: nat)
    requires Tracking(p) && FieldsFit(p) && p.baselineValid && Apply(p, ppm).1 == Steered
    ensures Delivers(Apply(p, ppm).0, ppm, n)
  {
    hide *;
    PublishedBracket(p, ppm);
    SteeredInRange(p, ppm);
    if Apply(p, ppm).0.ditherOn {
      DitherDelivers(p, Apply(p, ppm).0, ppm, n);
    } else {
      SingleDelivers(p, Apply(p, ppm).0, ppm, n);
    }
  }

  lemma SteeredInRange(p: Lock, ppm: real)
    requires Apply(p, ppm).1 == Steered
    ensures 0.0 <= TargetFrac(p, ppm) < 1.0
    ensures Wanted(p.baseRatio, ppm) == p.baseInt as real + TargetFrac(p, ppm)
  {
    hide Pick, Publish, Wanted;
  }

  lemma SingleDelivers(p: Lock, s: Lock, ppm: real, n: nat)
    requires 0.0 <= TargetFrac(p, ppm) < 1.0 && !s.ditherOn && s.baseRatio == p.baseRatio
    requires Wanted(p.baseRatio, ppm) == p.baseInt as real + TargetFrac(p, ppm)
    requires var c := Pick(TargetFrac(p, ppm));
      c.exact && RatioOf(s.hwDivNum, s.hwReg) == p.baseInt as real + if c.useLo then c.loV else c.hiV
    ensures Delivers(s, ppm, n)
  {
    hide Pick, RatioOf, TargetFrac, Wanted, FareyEnds, WithinTie;
    var frac := TargetFrac(p, ppm);
    PickMeetsTarget(frac);
    EndsAreQuotients(frac);
    NearEnd(frac, Pick(frac));
  }

  lemma DitherDelivers(p: Lock, s: Lock, ppm: real, n: nat)
    requires 0.0 <= TargetFrac(p, ppm) < 1.0 && s.ditherOn && s.baseRatio == p.baseRatio && s.hwDivNum == p.baseInt
    requires Wanted(p.baseRatio, ppm) == p.baseInt as real + TargetFrac(p, ppm)
    requires var c := Pick(TargetFrac(p, ppm));
      !c.exact && Carries(s, c.loV, c.hiV) && s.ditherDuty == DutyQ16(c.duty)
    ensures Delivers(s, ppm, n)
  {
    hide Pick, RatioOf, TargetFrac, Wanted, Tracks, Hits, Constant, Delivered, SumRatios, DutyQ16;
    var frac := TargetFrac(p, ppm);
    var c := Pick(frac);
    DitherGap(frac);
    SumOfTicks(s, n, c.loV, c.hiV);
    DitheredMean(frac, n, s.sdAcc);
    Shifted(Delivered(Hits(Constant(n, s.ditherDuty), s.sdAcc), n, c.loV, c.hiV), n, frac, p.baseInt, c.hiV - c.loV,
            SumRatios(s, n), Wanted(s.baseRatio, ppm), RatioOf(s.hwDivNum, s.ditherHi) - RatioOf(s.hwDivNum, s.ditherLo));
  }

  lemma NearEnd(frac: real, c: FracChoice)
    requires MeetsTarget(frac, c) && c.exact && c.loA > 0 && c.hiA > 0
    requires c.loV == c.loB as real / c.loA as real && c.hiV == c.hiB as real / c.hiA as real
    ensures Abs((if c.useLo then c.loV else c.hiV) - frac) < TIE
  {
  }

  lemma DitherGap(frac: real)
    requires 0.0 <= frac < 1.0 && !Pick(frac).exact
    ensures 0.0 < Pick(frac).hiV - Pick(frac).loV <= 1.0 / 511.0
  {
    hide Representable, FareyEnds;
    PickIsFarey(frac);
    PickMeetsTarget(frac);
  }

  lemma Shifted(sum: real, n: nat, frac: real, divNum: nat, gap: real, total: real, target: real, gap': real)
    requires Tracks(sum, n, frac, gap)
    requires total == n as real * divNum as real + sum && target == divNum as real + frac && gap' == gap
    ensures Tracks(total, n, target, gap')
  {
    assert n as real * target == n as real * divNum as real + n as real * frac;
  }

  // While dithering, the trim reported as applied is the clamped request itself.
  lemma AppliedIsRequested(s: Lock, ppm: real)
    requires Steerable(s) && SetTrim(s, ppm).1 == Steered && SetTrim(s, ppm).0.ditherOn
    ensures SetTrim(s, ppm).0.appliedPpm == Granted(ppm)
  {
    hide SetTrim, Apply;
    var p := PreparedBy(s, ppm);
    ApplyReports(p, ppm);
  }

  lemma ApplyReports(p: Lock, ppm: real)
    requires Tracking(p) && FieldsFit(p) && p.baselineValid && Apply(p, ppm).1 == Steered && Apply(p, ppm).0.ditherOn
    ensures Apply(p, ppm).0.appliedPpm == Granted(ppm)
  {
    hide Apply, Pick, Carries, Wanted, Ppm, TargetFrac, RatioOf, FieldsFit;
    PublishedBracket(p, ppm);
    PpmOfTarget(p.baseRatio, ppm);
  }

  lemma PpmOfTarget(base: real, ppm: real)
    requires base > 0.0
    ensures Ppm(Wanted(base, ppm), base) == Granted(ppm)
  {
    hide Granted;
    RatioCancels(base, 1.0 - Granted(ppm) * 0.000001, Granted(ppm), Wanted(base, ppm));
  }

  lemma RatioCancels(base: real, k: real, g: real, target: real)
    requires base > 0.0 && k == 1.0 - g * 0.000001 && target == k * base
    ensures (1.0 - target / base) * 1000000.0 == g
  {
    DivCancel(k, base);
  }

  // ----- a driver that moves the integer part alone

  lemma DividerShifts(d: nat, d': nat, reg: nat)
    ensures RatioOf(d', reg) == RatioOf(d, reg) + (d' - d) as real
  {
    hide DecodeFrac;
  }

  lemma TickShifts(s: Lock, d: nat)
    ensures Tick(s.(hwDivNum := d)) == Tick(s).(hwDivNum := d)
    ensures Tick(s).hwDivNum == s.hwDivNum
  {
  }

  lemma {:induction false} SumShifts(s: Lock, d: nat, n: nat)
    ensures SumRatios(s.(hwDivNum := d), n) == SumRatios(s, n) + (n * (d - s.hwDivNum)) as real
    decreases n
  {
    if n > 0 {
      TickShifts(s, d);
      DividerShifts(s.hwDivNum, d, Tick(s).hwReg);
      SumShifts(Tick(s), d, n - 1);
      hide Tick, RatioOf;
      assert n * (d - s.hwDivNum) == (n - 1) * (d - s.hwDivNum) + (d - s.hwDivNum);
    }
  }

  // Two integers of the divider are too far apart for one target.
  lemma DeliversOnce(s: Lock, d: nat, ppm: real, n: nat)
    requires n > 0 && d != s.hwDivNum && Delivers(s, ppm, n)
    ensures !Delivers(s.(hwDivNum := d), ppm, n)
  {
    SumShifts(s, d, n);
    DividerShifts(s.hwDivNum, d, s.hwReg);
    DividerShifts(s.hwDivNum, d, s.ditherLo);
    DividerShifts(s.hwDivNum, d, s.ditherHi);
    hide RatioOf, SumRatios, Wanted, Tick, Tracks;
    if s.ditherOn && Delivers(s.(hwDivNum := d), ppm, n) {
      var target, gap := Wanted(s.baseRatio, ppm), RatioOf(s.hwDivNum, s.ditherHi) - RatioOf(s.hwDivNum, s.ditherLo);
      TracksOnce(SumRatios(s, n), n, d - s.hwDivNum, target, gap);
    }
  }

  lemma TracksOnce(sum: real, n: nat, k: int, target: real, gap: real)
    requires n > 0 && k != 0 && 0.0 < gap <= 1.0 / 511.0 && Tracks(sum, n, target, gap)
    ensures !Tracks(sum + (n * k) as real, n, target, gap)
  {
    var x, y, room := n as real, n as real * target, 1.0 + n as real / 131072.0;
    var slack := gap * room;
    MulLe(gap, 1.0 / 511.0, room, slack, 1.0 / 511.0 * room);
    FarApart(n, k, n * k);
    hide *;
    assert 2.0 * slack < x;
    BothNear(sum, (n * k) as real, y, slack, x);
    TracksIs(sum, n, target, gap, y, slack);
    TracksIs(sum + (n * k) as real, n, target, gap, y, slack);
  }

  lemma TracksIs(sum: real, n: nat, target: real, gap: real, y: real, slack: real)
    requires y == n as real * target && slack == gap * (1.0 + n as real / 131072.0)
    ensures Tracks(sum, n, target, gap) <==> -slack < sum - y < slack
  {
  }

  lemma FarApart(n: nat, k: int, m: int)
    requires n > 0 && k != 0 && m == n * k
    ensures m >= n || m + n <= 0
  {
    MulOrder(n, k);
    MulOrder(n, -k);
    assert n * (-k) == -m;
  }

  lemma BothNear(sum: real, shift: real, y: real, slack: real, x: real)
    requires 2.0 * slack < x && (shift >= x || shift <= -x)
    ensures -slack < sum - y < slack ==> !(-slack < sum + shift - y < slack)
  {
  }

  lemma ApplyIgnoresDivider(p: Lock, d: nat, ppm: real)
    ensures Apply(p.(hwDivNum := d), ppm) == (Apply(p, ppm).0.(hwDivNum := d), Apply(p, ppm).1)
    ensures Apply(p, ppm).0.hwDivNum == p.hwDivNum
  {
    hide Pick, EncodeFrac, DutyQ16;
  }

  lemma UnchangedFractionIsKept(s: Lock, divNum: nat, ppm: real)
    requires Good(s) && Known(s) && s.oursValid && s.port <= 1 && s.hwActive && divNum >= 2
    ensures var r := s.(hwDivNum := divNum, rebaseline := true);
      SetTrim(r, ppm) == Apply(TakeRebaseline(r).(baselineValid := true), ppm)
  {
    hide Apply;
  }

  // A driver that moves only the integer part gets a trim that misses: the lock steers from the old
  // integer, and delivers the target exactly when it is still the one in the register.
  lemma IntegerChangeIsMissed(s: Lock, divNum: nat, ppm: real, n: nat)
    requires Good(s) && Known(s) && s.oursValid && s.port <= 1 && s.hwActive && divNum >= 2 && n > 0
    ensures var (s', outcome) := SetTrim(s.(hwDivNum := divNum, rebaseline := true), ppm);
      outcome == Steered ==> (Delivers(s', ppm, n) <==> divNum == s.baseInt)
  {
    var r := s.(hwDivNum := divNum, rebaseline := true);
    UnchangedFractionIsKept(s, divNum, ppm);
    var p := TakeRebaseline(r).(baselineValid := true);
    var q := p.(hwDivNum := s.baseInt);
    assert Tracking(q) && FieldsFit(q);
    hide Apply, Delivers, SetTrim, TakeRebaseline, Tracking;
    if Apply(p, ppm).1 == Steered {
      ApplyIgnoresDivider(q, divNum, ppm);
      assert q.(hwDivNum := divNum) == p;
      AppliedIsDelivered(q, ppm, n);
      if divNum != s.baseInt {
        DeliversOnce(Apply(q, ppm).0, divNum, ppm, n);
      }
    }
  }

  // Otherwise it is what the register's one value amounts to, within a thousandth of a ppm of the
  // request.
  lemma AppliedIsNear(s: Lock, ppm: real)
    requires Steerable(s) && SetTrim(s, ppm).1 == Steered && !SetTrim(s, ppm).0.ditherOn
    ensures Abs(SetTrim(s, ppm).0.appliedPpm - Granted(ppm)) < 0.001
  {
    var p := PreparedBy(s, ppm);
    hide SetTrim, Steerable, Apply;
    SingleIsNear(p, ppm);
  }

  lemma SingleIsNear(p: Lock, ppm: real)
    requires Tracking(p) && FieldsFit(p) && p.baselineValid && Apply(p, ppm).1 == Steered && !Apply(p, ppm).0.ditherOn
    ensures Abs(Apply(p, ppm).0.appliedPpm - Granted(ppm)) < 0.001
  {
    PublishedBracket(p, ppm);
    AppliedIsDelivered(p, ppm, 0);
    var s := Apply(p, ppm).0;
    var ratio := RatioOf(s.hwDivNum, s.hwReg);
    assert Abs(ratio - Wanted(p.baseRatio, ppm)) < TIE;
    BaseIsLarge(p, ppm);
    hide Apply, RatioOf, Wanted, Ppm, Pick, Tick, Granted, SumRatios, Tracking, FieldsFit;
    PpmIsNear(ratio, p.baseRatio, ppm);
  }

  // A target in the bracket of an integer of at least two is no small one.
  lemma BaseIsLarge(p: Lock, ppm: real)
    requires Tracking(p) && Apply(p, ppm).1 == Steered
    ensures p.baseRatio > 1.0
  {
    SteeredInRange(p, ppm);
    assert Wanted(p.baseRatio, ppm) >= 2.0 && p.baseRatio > 0.0;
    hide Apply, TargetFrac, Tracking, Wanted;
    LargeBase(p.baseRatio, ppm);
  }

  lemma LargeBase(base: real, ppm: real)
    requires Wanted(base, ppm) >= 2.0 && base > 0.0
    ensures base > 1.0
  {
    var k := 1.0 - Granted(ppm) * 0.000001;
    MulLe(k, 1.005, base, Wanted(base, ppm), 1.005 * base);
  }

  lemma PpmIsNear(ratio: real, base: real, ppm: real)
    requires base > 1.0 && Abs(ratio - Wanted(base, ppm)) < TIE
    ensures Abs(Ppm(ratio, base) - Granted(ppm)) < 0.001
  {
    PpmOfTarget(base, ppm);
    var target := Wanted(base, ppm);
    var x, y := ratio / base, target / base;
    assert x * base == ratio && y * base == target;
    assert (x - y) * base == ratio - target;
    hide Wanted, Granted;
    SmallerThan(x - y, base, ratio - target);
  }

  lemma SmallerThan(d: real, base: real, gap: real)
    requires base > 1.0 && d * base == gap
    ensures Abs(d) <= Abs(gap)
  {
    if d > 0.0 {
      MulLe(1.0, base, d, d, gap);
    } else if d < 0.0 {
      MulLe(1.0, base, -d, -d, -gap);
    }
  }

  // ----- a reading that is refused

  // Where the registers are to be read and hold no clock of the driver's, or a value that is no
  // fraction's, the trim is refused: nothing is steered or reported from then on, and the register is
  // as it was.
  lemma UnreadableIsRefused(s: Lock, ppm: real)
    requires s.rebaseline
    requires s.port > 1 || !s.hwActive || s.hwDivNum < 2
      || (!s.oursValid && forall b: nat, a: nat :: b < a <= FRAC_MAX_DENOMINATOR ==> EncodeFrac(b, a) != Fraction(s.hwReg))
    ensures var (s', outcome) := SetTrim(s, ppm);
      outcome == Refused && s' == s.(rebaseline := false, baselineValid := false, appliedPpm := 0.0, ditherOn := false)
  {
    var frac := Fraction(s.hwReg);
    if PassesRoundTrip(frac) {
      var (b, a) := DecodeFrac(frac).value;
      assert b < a <= FRAC_MAX_DENOMINATOR && EncodeFrac(b, a) == frac;
    }
    hide PassesRoundTrip, Apply, EncodeFrac, Fraction;
  }

  // A known clock that is read is steered but for a target out of reach.
  lemma ReadableIsTried(s: Lock, ppm: real)
    requires s.rebaseline && s.port <= 1 && s.hwActive && s.hwDivNum >= 2
    requires exists b: nat, a: nat :: b < a <= FRAC_MAX_DENOMINATOR && EncodeFrac(b, a) == Fraction(s.hwReg)
    ensures SetTrim(s, ppm).1 == Refused ==>
      TargetFrac(SetTrim(s, ppm).0, ppm) < 0.0 || TargetFrac(SetTrim(s, ppm).0, ppm) >= 1.0
    ensures !SetTrim(s, ppm).0.rebaseline
  {
    var b: nat, a: nat :| b < a <= FRAC_MAX_DENOMINATOR && EncodeFrac(b, a) == Fraction(s.hwReg);
    ReadsBack(2, b, a, 0);
    hide Publish, Pick, BaselineRatio, EncodeFrac, Target;
  }
}
