// components/i2s_rate_lock/rate_lock.cpp, rate_lock.h: steering the I2S output clock through the
// fractional part of its divider. The register is one of the object's fields; the clock, the
// integer divider and the register may be changed by the driver.
module RateLock {
  import opened Numeric
  import opened FracSelect

  const TRIM_CLAMP_PPM: real := 5000.0
  const I2S_SRC_HZ: real := 160000000.0
  const MCLK_MULTIPLES: seq<nat> := [64, 128, 192, 256, 384, 512, 576, 768, 1024]
  const MULT_MATCH_TOL: real := 0.01

  datatype Lock = Lock(
    port: nat,
    // what the driver and the lock share: div_num, div_conf, tx_clk_active
    hwDivNum: nat, hwReg: nat, hwActive: bool,
    rebaseline: bool, baselineValid: bool, outputRate: nat,
    baseInt: nat, baseRatio: real,
    lastFrac: nat, oursValid: bool,
    ditherLo: nat, ditherHi: nat, ditherDuty: nat, ditherOn: bool, sdAcc: nat,
    appliedPpm: real)

  // Refused is the source's `return false`. Trapped is the division by zero in encode_frac(1, 1).
  datatype Outcome = Steered | Refused | Trapped

  function Fraction(reg: nat): nat {
    reg % FRAC_FIELDS
  }

  function Ideal(rate: nat, mult: nat): (r: real)
    requires rate > 0 && mult > 0
    ensures r > 0.0
  {
    MulPositive(rate as real, mult as real);
    I2S_SRC_HZ / (rate as real * mult as real)
  }

  predicate CanEncode(b: nat, a: nat) {
    b == 0 || b < a
  }

  // The exact divider for the known output rate, where one multiple explains what was programmed
  // and needs no other integer part.
  function IdealFor(mults: seq<nat>, rate: nat, divNum: nat, programmed: real): Option<real>
    requires rate > 0 && programmed > 0.0
    requires forall i :: 0 <= i < |mults| ==> mults[i] > 0
  {
    if mults == [] then None
    else
      var ideal := Ideal(rate, mults[0]);
      if Abs(ideal - programmed) / programmed > MULT_MATCH_TOL then IdealFor(mults[1..], rate, divNum, programmed)
      else if Trunc(ideal) != divNum then None
      else Some(ideal)
  }

  function Programmed(divNum: nat, b: nat, a: nat): real
    requires a > 0
  {
    divNum as real + b as real / a as real
  }

  // The reference ratio a fresh reading of the registers establishes.
  function BaselineRatio(divNum: nat, b: nat, a: nat, rate: nat): real
    requires divNum >= 2 && a > 0
  {
    var programmed := Programmed(divNum, b, a);
    assert b as real / a as real >= 0.0;
    if rate == 0 then programmed
    else
      match IdealFor(MCLK_MULTIPLES, rate, divNum, programmed)
      case None => programmed
      case Some(ideal) => ideal
  }

  function ReadBaseline(s: Lock): (Lock, bool) {
    if s.port > 1 || !s.hwActive || s.hwDivNum < 2 then (s, false)
    else
      var frac := Fraction(s.hwReg);
      var ours := frac == s.lastFrac || (s.ditherOn && (frac == s.ditherLo || frac == s.ditherHi));
      if s.oursValid && ours && s.baseRatio > 0.0 then (s, true)
      else if !PassesRoundTrip(frac) then (s, false)
      else
        var (b, a) := DecodeFrac(frac).value;
        (s.(baseInt := s.hwDivNum, lastFrac := frac, baseRatio := BaselineRatio(s.hwDivNum, b, a, s.outputRate)), true)
  }

  function TakeRebaseline(s: Lock): Lock {
    if s.rebaseline then s.(rebaseline := false, baselineValid := false, appliedPpm := 0.0, ditherOn := false) else s
  }

  // The divider a trim asks for, and its fractional part.
  function Wanted(baseRatio: real, ppm: real): real {
    (1.0 - Granted(ppm) * 0.000001) * baseRatio
  }

  // The trim a call is granted: its request after the clamp.
  function Granted(ppm: real): real {
    Clamp(ppm, -TRIM_CLAMP_PPM, TRIM_CLAMP_PPM)
  }

  function Target(s: Lock, ppm: real): real {
    Wanted(s.baseRatio, ppm)
  }

  function TargetFrac(s: Lock, ppm: real): real {
    Target(s, ppm) - s.baseInt as real
  }

  // Once a baseline is held: bracket the target and publish it.
  function Apply(s: Lock, ppm: real): (Lock, Outcome) {
    var frac := TargetFrac(s, ppm);
    if frac < 0.0 || frac >= 1.0 then (s, Refused) else Publish(s, Target(s, ppm), Pick(frac))
  }

  function Publish(s: Lock, target: real, c: FracChoice): (Lock, Outcome)
    requires c.duty >= 0.0
  {
    if !CanEncode(c.loB, c.loA) || !CanEncode(c.hiB, c.hiA) then (s, Trapped)
    else
      var loVal, hiVal := EncodeFrac(c.loB, c.loA), EncodeFrac(c.hiB, c.hiA);
      if c.exact then
        var val := if c.useLo then loVal else hiVal;
        var ratio := s.baseInt as real + if c.useLo then c.loV else c.hiV;
        (s.(ditherOn := false, hwReg := if val != s.lastFrac then val else s.hwReg, lastFrac := val,
            appliedPpm := Ppm(ratio, s.baseRatio), oursValid := true), Steered)
      else
        (s.(ditherLo := loVal, ditherHi := hiVal, ditherDuty := DutyQ16(c.duty), ditherOn := true,
            appliedPpm := Ppm(target, s.baseRatio), oursValid := true), Steered)
  }

  function Ppm(ratio: real, baseRatio: real): real {
    if baseRatio == 0.0 then 0.0 else (1.0 - ratio / baseRatio) * 1000000.0
  }

  function SetTrim(s: Lock, ppm: real): (Lock, Outcome) {
    var s1 := TakeRebaseline(s);
    if s1.baselineValid then Apply(s1, ppm)
    else
      var (s2, ok) := ReadBaseline(s1);
      if ok then Apply(s2.(baselineValid := true), ppm) else (s2, Refused)
  }

  function Tick(s: Lock): Lock {
    if !s.ditherOn then s
    else
      var (hi, acc) := SdStep(s.ditherDuty, s.sdAcc);
      var want := if hi then s.ditherHi else s.ditherLo;
      s.(sdAcc := acc, hwReg := if want != s.lastFrac then want else s.hwReg, lastFrac := want)
  }

  class RateLock {
    const port: nat
    var hwDivNum: nat
    var hwReg: nat
    var hwActive: bool
    var rebaseline: bool
    var baselineValid: bool
    var outputRate: nat
    var baseInt: nat
    var baseRatio: real
    var lastFrac: nat
    var oursValid: bool
    var ditherLo: nat
    var ditherHi: nat
    var ditherDuty: nat
    var ditherOn: bool
    var sdAcc: nat
    var appliedPpm: real

    function State(): Lock
      reads this
    {
      Lock(port, hwDivNum, hwReg, hwActive, rebaseline, baselineValid, outputRate, baseInt, baseRatio,
           lastFrac, oursValid, ditherLo, ditherHi, ditherDuty, ditherOn, sdAcc, appliedPpm)
    }

    constructor (port: nat, divNum: nat, reg: nat, active: bool)
      ensures State() == Initial(port, divNum, reg, active)
    {
      this.port := port;
      hwDivNum, hwReg, hwActive := divNum, reg, active;
      rebaseline, baselineValid, outputRate := true, false, 0;
      baseInt, baseRatio := 0, 0.0;
      lastFrac, oursValid := 0, false;
      ditherLo, ditherHi, ditherDuty, ditherOn, sdAcc := 0, 0, 0, false, 0;
      appliedPpm := 0.0;
    }

    method InvalidateBaseline()
      modifies this`rebaseline
      ensures State() == old(State()).(rebaseline := true)
    {
      rebaseline := true;
    }

    method SetOutputRate(rate: nat)
      modifies this`outputRate
      ensures State() == old(State()).(outputRate := rate)
    {
      outputRate := rate;
    }

    method ReadBaselineRegisters() returns (ok: bool)
      modifies this`baseInt, this`baseRatio, this`lastFrac
      ensures (State(), ok) == ReadBaseline(old(State()))
    {
      if port > 1 || !hwActive || hwDivNum < 2 {
        return false;
      }
      var frac := Fraction(hwReg);
      var ours := frac == lastFrac || (ditherOn && (frac == ditherLo || frac == ditherHi));
      if oursValid && ours && baseRatio > 0.0 {
        return true;
      }
      var decoded := DecodeFrac(frac);
      if decoded.None? || EncodeFrac(decoded.value.0, decoded.value.1) != frac {
        return false;
      }
      var (b, a) := decoded.value;
      baseInt, lastFrac := hwDivNum, frac;
      CorrectToIdeal(b, a);
      return true;
    }

    // The tail of read_baseline_: the reference ratio from the fraction just decoded.
    method CorrectToIdeal(b: nat, a: nat)
      requires hwDivNum >= 2 && a > 0
      modifies this`baseRatio
      ensures baseRatio == BaselineRatio(hwDivNum, b, a, outputRate)
    {
      var programmed := Programmed(hwDivNum, b, a);
      assert b as real / a as real >= 0.0;
      baseRatio := programmed;
      if outputRate == 0 {
        return;
      }
      ghost var found := IdealFor(MCLK_MULTIPLES, outputRate, hwDivNum, programmed);
      for i := 0 to |MCLK_MULTIPLES|
        invariant baseRatio == programmed
        invariant IdealFor(MCLK_MULTIPLES[i..], outputRate, hwDivNum, programmed) == found
      {
        var ideal := Ideal(outputRate, MCLK_MULTIPLES[i]);
        if Abs(ideal - programmed) / programmed > MULT_MATCH_TOL {
          continue;
        }
        if Trunc(ideal) != hwDivNum {
          break;
        }
        baseRatio := ideal;
        return;
      }
    }

    method SetTrimPpm(ppm: real) returns (outcome: Outcome)
      modifies this
      ensures (State(), outcome) == SetTrim(old(State()), ppm)
    {
      hide Pick, Publish, Target, ReadBaseline;
      if rebaseline {
        rebaseline, baselineValid, appliedPpm, ditherOn := false, false, 0.0, false;
      }
      if !baselineValid {
        var ok := ReadBaselineRegisters();
        if !ok {
          return Refused;
        }
        baselineValid := true;
      }
      var target := Target(State(), ppm);
      var frac := target - baseInt as real;
      if frac < 0.0 || frac >= 1.0 {
        return Refused;
      }
      var fc := PickFrac(frac);
      outcome := PublishBracket(target, fc);
    }

    // The tail of set_trim_ppm: write the single value, or publish the bracket for the tick.
    method PublishBracket(target: real, fc: FracChoice) returns (outcome: Outcome)
      requires fc.duty >= 0.0
      modifies this`ditherLo, this`ditherHi, this`ditherDuty, this`ditherOn, this`hwReg, this`lastFrac,
        this`appliedPpm, this`oursValid
      ensures (State(), outcome) == Publish(old(State()), target, fc)
    {
      hide EncodeFrac, Ppm, DutyQ16;
      if !CanEncode(fc.loB, fc.loA) || !CanEncode(fc.hiB, fc.hiA) {
        return Trapped;
      }
      var loVal, hiVal := EncodeFrac(fc.loB, fc.loA), EncodeFrac(fc.hiB, fc.hiA);
      if fc.exact {
        var val := if fc.useLo then loVal else hiVal;
        ditherOn := false;
        if val != lastFrac {
          hwReg := val;
          lastFrac := val;
        }
        appliedPpm := Ppm(baseInt as real + (if fc.useLo then fc.loV else fc.hiV), baseRatio);
      } else {
        ditherLo := loVal;
        ditherHi := hiVal;
        ditherDuty := DutyQ16(fc.duty);
        ditherOn := true;
        appliedPpm := Ppm(target, baseRatio);
      }
      oursValid := true;
      return Steered;
    }

    method TickOnce()
      modifies this
      ensures State() == Tick(old(State()))
    {
      if !ditherOn {
        return;
      }
      var hi, acc := SigmaDeltaStep(ditherDuty, sdAcc);
      sdAcc := acc;
      var want := if hi then ditherHi else ditherLo;
      if want != lastFrac {
        hwReg := want;
        lastFrac := want;
      }
    }
  }

  function Initial(port: nat, divNum: nat, reg: nat, active: bool): Lock {
    Lock(port, divNum, reg, active, true, false, 0, 0, 0.0, 0, false, 0, 0, 0, false, 0, 0.0)
  }
}
