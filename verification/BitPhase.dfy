// scripts/din-skew.py: the fold of bitphase_lag and unwrap_bitphase, which undoes it.
module BitPhase {
  import opened Numeric

  // A value that is not finite is None.

  // ----- multiples of the period

  ghost predicate Multiple(d: real, period: real) {
    exists m: int :: d == Times(m, period)
  }

  function Times(m: int, period: real): real {
    m as real * period
  }

  lemma TimesAdds(m: int, n: int, period: real)
    ensures Times(m, period) + Times(n, period) == Times(m + n, period)
    ensures Times(1, period) == period && Times(0, period) == 0.0
    ensures -Times(m, period) == Times(-m, period)
  {
  }

  lemma MultipleAdds(d: real, e: real, period: real)
    requires Multiple(d, period) && Multiple(e, period)
    ensures Multiple(d + e, period) && Multiple(d - e, period)
  {
    var m: int :| d == Times(m, period);
    var n: int :| e == Times(n, period);
    TimesAdds(m, n, period);
    TimesAdds(m, -n, period);
    TimesAdds(n, n, period);
    assert d + e == Times(m + n, period) && d - e == Times(m + -n, period);
  }

  lemma MultipleOne(period: real)
    ensures Multiple(period, period) && Multiple(0.0, period)
  {
    TimesAdds(0, 0, period);
    assert period == Times(1, period) && 0.0 == Times(0, period);
  }

  // The only multiple of the period smaller than it is zero.
  lemma SmallMultiple(d: real, period: real)
    requires period > 0.0 && Multiple(d, period) && -period < d < period
    ensures d == 0.0
  {
    var m: int :| d == Times(m, period);
    if m >= 1 {
      MulLe(1.0, m as real, period, period, d);
    } else if m <= -1 {
      MulLe(m as real, -1.0, period, d, -period);
    } else {
      assert m == 0;
    }
  }

  // ----- the fold, with Python's modulo

  function Modulo(x: real, period: real): real
    requires period > 0.0
  {
    x - Times((x / period).Floor, period)
  }

  lemma ModuloRange(x: real, period: real)
    requires period > 0.0
    ensures 0.0 <= Modulo(x, period) < period && Multiple(x - Modulo(x, period), period)
  {
    var q := x / period;
    var k := q.Floor;
    assert q * period == x;
    MulLe(k as real, q, period, Times(k, period), x);
    MulStrict(q, (k + 1) as real, period, x, Times(k + 1, period));
    TimesAdds(k, 1, period);
    assert x - Modulo(x, period) == Times(k, period);
  }

  function Fold(d: real, period: real): (r: real)
    requires period > 0.0
    ensures -period / 2.0 <= r < period / 2.0 && Multiple(r - d, period)
  {
    ModuloRange(d + period / 2.0, period);
    MultipleOne(period);
    var m := Modulo(d + period / 2.0, period);
    MultipleAdds(0.0, d + period / 2.0 - m, period);
    assert 0.0 - (d + period / 2.0 - m) == (m - period / 2.0) - d;
    m - period / 2.0
  }

  function FoldAll(s: seq<Option<real>>, period: real): (r: seq<Option<real>>)
    requires period > 0.0
    ensures |r| == |s|
    ensures forall i :: 0 <= i < |s| ==> r[i] == if s[i].Some? then Some(Fold(s[i].value, period)) else None
  {
    if s == [] then []
    else
      var last := s[|s| - 1];
      FoldAll(s[..|s| - 1], period) + [if last.Some? then Some(Fold(last.value, period)) else None]
  }

  // ----- the inner loops

  lemma FloorStep(x: real, period: real)
    requires period > 0.0
    ensures ((x - period) / period).Floor == (x / period).Floor - 1
    ensures x > period / 2.0 ==> (x / period).Floor >= 0
  {
    var q := x / period;
    assert q * period == x;
    assert (q - 1.0) * period == x - period;
    QuotientIs(x - period, period, q - 1.0);
    FloorBelow(q);
    if x > period / 2.0 && q < 0.0 {
      MulStrict(q, 0.0, period, x, 0.0);
    }
  }

  lemma QuotientIs(y: real, d: real, r: real)
    requires d != 0.0 && y == r * d
    ensures y / d == r
  {
    DivCancel(r, d);
  }

  lemma FloorBelow(q: real)
    ensures (q - 1.0).Floor == q.Floor - 1
  {
  }

  // while x > T / 2: x -= T
  function Down(x: real, period: real): (y: real)
    requires period > 0.0
    ensures y <= period / 2.0 && Multiple(y - x, period)
    ensures if x > period / 2.0 then y > -period / 2.0 else y == x
    decreases (x / period).Floor
  {
    MultipleOne(period);
    if x > period / 2.0 then
      FloorStep(x, period);
      var y := Down(x - period, period);
      MultipleAdds(y - (x - period), period, period);
      y
    else x
  }

  // while x < -T / 2: x += T
  function Up(x: real, period: real): (y: real)
    requires period > 0.0
    ensures y >= -period / 2.0 && Multiple(y - x, period)
    ensures if x < -period / 2.0 then y < period / 2.0 else y == x
    decreases (-x / period).Floor
  {
    MultipleOne(period);
    if x < -period / 2.0 then
      FloorStep(-x, period);
      var y := Up(x + period, period);
      MultipleAdds(y - (x + period), period, period);
      y
    else x
  }

  // A step brought within half a period by whole periods, untouched if it already is.
  function Wrap(x: real, period: real): (y: real)
    requires period > 0.0
    ensures -period / 2.0 <= y <= period / 2.0 && Multiple(y - x, period)
    ensures -period / 2.0 <= x <= period / 2.0 ==> y == x
    ensures x > period / 2.0 ==> y > -period / 2.0
    ensures x < -period / 2.0 ==> y < period / 2.0
  {
    MultipleAdds(Down(x, period) - x, Up(Down(x, period), period) - Down(x, period), period);
    Up(Down(x, period), period)
  }

  predicate Usable(period: Option<real>) {
    period.Some? && period.value > 0.0
  }

  // offset and prev
  datatype State = State(offset: real, prev: Option<real>)

  function Next(st: State, v: real, period: Option<real>): State {
    if st.prev.Some? && Usable(period) then
      var y := st.prev.value + Wrap(v + st.offset - st.prev.value, period.value);
      State(y - v, Some(y))
    else State(st.offset, Some(v + st.offset))
  }

  function After(dts: seq<Option<real>>, period: Option<real>): State {
    if dts == [] then State(0.0, None)
    else
      var (st, v) := (After(dts[..|dts| - 1], period), dts[|dts| - 1]);
      if v.Some? then Next(st, v.value, period) else st
  }

  function Unwrap(dts: seq<Option<real>>, period: Option<real>): (r: seq<Option<real>>)
    ensures |r| == |dts|
  {
    if dts == [] then []
    else
      var v := dts[|dts| - 1];
      Unwrap(dts[..|dts| - 1], period) + [if v.Some? then After(dts, period).prev else None]
  }

  method UnwrapBitphase(dts: seq<Option<real>>, bitNs: Option<real>) returns (out: seq<Option<real>>)
    ensures out == Unwrap(dts, bitNs)
  {
    hide Wrap;
    var offset := 0.0;
    var prev := None;
    out := [];
    for i := 0 to |dts|
      invariant out == Unwrap(dts[..i], bitNs) && State(offset, prev) == After(dts[..i], bitNs)
    {
      assert dts[..i + 1][..i] == dts[..i];
      if dts[i].Some? {
        var v := dts[i].value;
        if prev.Some? && Usable(bitNs) {
          offset := WrapOffset(v, offset, prev.value, bitNs.value);
        }
        prev := Some(v + offset);
        out := out + [prev];
      } else {
        out := out + [None];
      }
    }
    assert dts[..|dts|] == dts;
  }

  // The two inner loops.
  method WrapOffset(v: real, start: real, prev: real, period: real) returns (offset: real)
    requires period > 0.0
    ensures v + offset - prev == Wrap(v + start - prev, period)
  {
    offset := start;
    while v + offset - prev > period / 2.0
      invariant Down(v + offset - prev, period) == Down(v + start - prev, period)
      decreases ((v + offset - prev) / period).Floor
    {
      FloorStep(v + offset - prev, period);
      assert v + (offset - period) - prev == (v + offset - prev) - period;
      offset := offset - period;
    }
    ghost var down := Down(v + start - prev, period);
    while v + offset - prev < -period / 2.0
      invariant Up(v + offset - prev, period) == Up(down, period)
      decreases (-(v + offset - prev) / period).Floor
    {
      FloorStep(-(v + offset - prev), period);
      assert -(v + (offset + period) - prev) == -(v + offset - prev) - period;
      assert v + (offset + period) - prev == (v + offset - prev) + period;
      offset := offset + period;
    }
  }

  // ----- what unwrapping keeps

  // The last finite value.
  function Last(s: seq<Option<real>>): Option<real> {
    if s == [] then None
    else if s[|s| - 1].Some? then s[|s| - 1]
    else Last(s[..|s| - 1])
  }

  lemma {:induction false} StateIs(dts: seq<Option<real>>, period: Option<real>)
    ensures var (st, v) := (After(dts, period), Last(dts));
      && (st.prev.Some? <==> v.Some?) && st.prev == Last(Unwrap(dts, period))
      && (v.Some? ==> st.prev.value == v.value + st.offset)
      && (v.None? ==> st.offset == 0.0)
  {
    if dts != [] {
      hide Wrap;
      StateIs(dts[..|dts| - 1], period);
      assert Unwrap(dts, period)[..|dts| - 1] == Unwrap(dts[..|dts| - 1], period);
    }
  }

  // The offset is a whole number of periods, so every output is its input modulo the period.
  lemma {:induction false} OffsetIsPeriods(dts: seq<Option<real>>, period: real)
    requires period > 0.0
    ensures Multiple(After(dts, Some(period)).offset, period)
  {
    if dts == [] {
      MultipleOne(period);
    } else {
      var st, v := After(dts[..|dts| - 1], Some(period)), dts[|dts| - 1];
      OffsetIsPeriods(dts[..|dts| - 1], period);
      if v.Some? && st.prev.Some? {
        var x := v.value + st.offset - st.prev.value;
        MultipleAdds(st.offset, Wrap(x, period) - x, period);
        assert After(dts, Some(period)).offset == st.offset + (Wrap(x, period) - x);
      }
    }
  }

  // Main result: every finite output is its input plus a whole number of periods, and lies within
  // half a period of the finite output before it.
  lemma {:induction false} UnwrapIsCongruent(dts: seq<Option<real>>, period: real, i: nat)
    requires period > 0.0 && i < |dts|
    ensures var out := Unwrap(dts, Some(period));
      && (out[i].Some? <==> dts[i].Some?)
      && (out[i].Some? ==> Multiple(out[i].value - dts[i].value, period))
      && (out[i].Some? && Last(out[..i]).Some? ==> Abs(out[i].value - Last(out[..i]).value) <= period / 2.0)
  {
    var l := |dts| - 1;
    var out := Unwrap(dts, Some(period));
    assert out[..l] == Unwrap(dts[..l], Some(period));
    if i < l {
      UnwrapIsCongruent(dts[..l], period, i);
      assert out[..l][..i] == out[..i];
    } else {
      StateIs(dts, Some(period));
      StateIs(dts[..l], Some(period));
      OffsetIsPeriods(dts, period);
    }
  }

  // Without a usable period the series passes through.
  lemma {:induction false} NoPeriodNoChange(dts: seq<Option<real>>, period: Option<real>)
    requires !Usable(period)
    ensures Unwrap(dts, period) == dts && After(dts, period).offset == 0.0
  {
    if dts != [] {
      NoPeriodNoChange(dts[..|dts| - 1], period);
    }
  }

  // ----- what unwrapping recovers

  // A step that unwrapping can read off the folded values: less than half a period, or exactly half
  // a period from the side on which the fold does not wrap it.
  predicate Readable(from: real, to: real, period: real)
    requires period > 0.0
  {
    var step := to - from;
    Abs(step) < period / 2.0 || (Abs(step) == period / 2.0 && (step > 0.0 <==> Fold(from, period) < 0.0))
  }

  predicate AllReadable(s: seq<Option<real>>, period: real)
    requires period > 0.0
  {
    s != [] ==>
      var (init, v) := (s[..|s| - 1], s[|s| - 1]);
      AllReadable(init, period) && (v.Some? && Last(init).Some? ==> Readable(Last(init).value, v.value, period))
  }

  lemma FoldedStep(a: real, b: real, period: real)
    requires period > 0.0
    ensures Multiple(Fold(b, period) - Fold(a, period) - (b - a), period)
  {
    var x, y := Fold(a, period) - a, Fold(b, period) - b;
    MultipleAdds(y, x, period);
    assert y - x == Fold(b, period) - Fold(a, period) - (b - a);
  }

  // The step read off is the true one exactly when it is readable.
  lemma StepIsReadable(a: real, b: real, period: real)
    requires period > 0.0
    ensures Wrap(Fold(b, period) - Fold(a, period), period) == b - a <==> Readable(a, b, period)
  {
    var x, s := Fold(b, period) - Fold(a, period), b - a;
    var y := Wrap(x, period);
    FoldedStep(a, b, period);
    MultipleAdds(y - x, x - s, period);
    assert y - x + (x - s) == y - s;
    if Abs(s) < period / 2.0 {
      SmallMultiple(y - s, period);
    } else if Abs(s) == period / 2.0 {
      HalfStep(a, b, period, x, y);
    }
  }

  lemma HalfStep(a: real, b: real, period: real, x: real, y: real)
    requires period > 0.0 && Abs(b - a) == period / 2.0
    requires x == Fold(b, period) - Fold(a, period) && y == Wrap(x, period)
    ensures y == b - a <==> (b - a > 0.0 <==> Fold(a, period) < 0.0)
  {
    var s, fa, fb := b - a, Fold(a, period), Fold(b, period);
    FoldedStep(a, b, period);
    MultipleOne(period);
    MultipleAdds(x - s, period, period);
    if s > 0.0 {
      if fa < 0.0 {
        SmallMultiple(x - s, period);
      } else {
        SmallMultiple(x - s + period, period);
      }
    } else {
      if fa < 0.0 {
        SmallMultiple(x - s - period, period);
      } else {
        SmallMultiple(x - s, period);
      }
    }
  }

  // The outputs are the series moved by c.
  ghost predicate Recovers(s: seq<Option<real>>, out: seq<Option<real>>, c: real) {
    |s| == |out| && forall i :: 0 <= i < |s| ==> out[i] == if s[i].Some? then Some(s[i].value + c) else None
  }

  // The first finite value, and the constant it fixes.
  function Shift(s: seq<Option<real>>, period: real): real
    requires period > 0.0
  {
    if s == [] then 0.0
    else if Last(s[..|s| - 1]).Some? then Shift(s[..|s| - 1], period)
    else if s[|s| - 1].Some? then Fold(s[|s| - 1].value, period) - s[|s| - 1].value
    else 0.0
  }

  lemma FoldedPrefix(s: seq<Option<real>>, period: real)
    requires period > 0.0 && s != []
    ensures FoldAll(s, period)[..|s| - 1] == FoldAll(s[..|s| - 1], period)
  {
  }

  lemma {:induction false} LastFolds(s: seq<Option<real>>, period: real)
    requires period > 0.0
    ensures Last(FoldAll(s, period)) == if Last(s).Some? then Some(Fold(Last(s).value, period)) else None
  {
    if s != [] {
      LastFolds(s[..|s| - 1], period);
      FoldedPrefix(s, period);
    }
  }

  lemma {:induction false} LastMoves(s: seq<Option<real>>, out: seq<Option<real>>, c: real)
    requires Recovers(s, out, c)
    ensures Last(out) == if Last(s).Some? then Some(Last(s).value + c) else None
  {
    if s != [] {
      LastMoves(s[..|s| - 1], out[..|s| - 1], c);
    }
  }

  // The outputs for a series of which only the folds are known.
  function Recovery(s: seq<Option<real>>, period: real): (out: seq<Option<real>>)
    requires period > 0.0
    ensures |out| == |s|
  {
    Unwrap(FoldAll(s, period), Some(period))
  }

  // How the last output comes from the one before it.
  lemma OneMore(s: seq<Option<real>>, period: real)
    requires period > 0.0 && s != [] && s[|s| - 1].Some?
    ensures var (init, v) := (s[..|s| - 1], s[|s| - 1].value);
      var (before, out) := (Last(Recovery(init, period)), Recovery(s, period)[|s| - 1]);
      && (Last(init).Some? <==> before.Some?)
      && out == Some(if Last(init).Some? then
             before.value + Wrap(Fold(v, period) - Fold(Last(init).value, period), period)
           else Fold(v, period))
  {
    var init, v := s[..|s| - 1], s[|s| - 1].value;
    var f, d := FoldAll(init, period), FoldAll(s, period);
    LastFolds(init, period);
    FoldsOneMore(s, period);
    hide *;
    StateIs(f, Some(period));
    NextOutput(d, Some(period));
    NextFrom(After(f, Some(period)), Last(f), Fold(v, period), period);
    RecoveryIs(init, period);
    RecoveryIs(s, period);
  }

  lemma FoldsOneMore(s: seq<Option<real>>, period: real)
    requires period > 0.0 && s != [] && s[|s| - 1].Some?
    ensures var (d, n) := (FoldAll(s, period), |s| - 1);
      |d| == |s| && d[..n] == FoldAll(s[..n], period) && d[n] == Some(Fold(s[n].value, period))
  {
    FoldedPrefix(s, period);
    hide Fold;
  }

  lemma RecoveryIs(s: seq<Option<real>>, period: real)
    requires period > 0.0
    ensures Recovery(s, period) == Unwrap(FoldAll(s, period), Some(period))
  {
  }

  lemma NextOutput(dts: seq<Option<real>>, period: Option<real>)
    requires dts != [] && dts[|dts| - 1].Some?
    ensures var (l, out) := (|dts| - 1, Unwrap(dts, period));
      out[..l] == Unwrap(dts[..l], period)
      && out[l] == Next(After(dts[..l], period), dts[l].value, period).prev
  {
    hide Wrap, Next;
  }

  // Relative to the last input and output, the offset cancels.
  lemma NextFrom(st: State, last: Option<real>, v: real, period: real)
    requires period > 0.0 && (st.prev.Some? <==> last.Some?)
    requires last.Some? ==> st.prev.value == last.value + st.offset
    requires last.None? ==> st.offset == 0.0
    ensures Next(st, v, Some(period)).prev == Some(
      if last.Some? then st.prev.value + Wrap(v - last.value, period) else v)
  {
    if last.Some? {
      assert v + st.offset - st.prev.value == v - last.value;
    }
  }

  lemma RecoveryPrefix(s: seq<Option<real>>, period: real)
    requires period > 0.0 && s != []
    ensures Recovery(s, period)[..|s| - 1] == Recovery(s[..|s| - 1], period)
    ensures s[|s| - 1].None? ==> Recovery(s, period)[|s| - 1] == None
  {
    FoldedPrefix(s, period);
    hide Fold, FoldAll, After;
  }

  lemma RecoversSnoc(s: seq<Option<real>>, out: seq<Option<real>>, c: real)
    requires s != [] && |out| == |s|
    ensures Recovers(s, out, c) <==>
      && Recovers(s[..|s| - 1], out[..|s| - 1], c)
      && out[|s| - 1] == if s[|s| - 1].Some? then Some(s[|s| - 1].value + c) else None
  {
    var l := |s| - 1;
    if Recovers(s[..l], out[..l], c) {
      assert forall i :: 0 <= i < l ==> out[i] == out[..l][i] && s[i] == s[..l][i];
    }
  }

  lemma {:induction false} NothingRecovers(s: seq<Option<real>>, out: seq<Option<real>>, c: real, c': real)
    requires Last(s).None? && Recovers(s, out, c)
    ensures Recovers(s, out, c')
  {
    if s != [] {
      NothingRecovers(s[..|s| - 1], out[..|s| - 1], c, c');
      RecoversSnoc(s, out, c');
    }
  }

  // The next output keeps the distance exactly when the step to it is readable.
  lemma NextRecovers(s: seq<Option<real>>, period: real, c: real)
    requires period > 0.0 && s != [] && s[|s| - 1].Some? && Last(s[..|s| - 1]).Some?
    requires Recovers(s[..|s| - 1], Recovery(s[..|s| - 1], period), c)
    ensures Recovery(s, period)[|s| - 1] == Some(s[|s| - 1].value + c)
      <==> Readable(Last(s[..|s| - 1]).value, s[|s| - 1].value, period)
  {
    hide Fold, Wrap, Recovery, Recovers, Readable, Unwrap, FoldAll;
    var init := s[..|s| - 1];
    OneMore(s, period);
    LastMoves(init, Recovery(init, period), c);
    StepIsReadable(Last(init).value, s[|s| - 1].value, period);
    hide *;
  }

  // Up to its first finite value a series is recovered by what that value's fold fixes.
  lemma FirstRecovers(s: seq<Option<real>>, period: real, c: real)
    requires period > 0.0 && s != [] && Last(s[..|s| - 1]).None?
    requires Recovers(s[..|s| - 1], Recovery(s[..|s| - 1], period), c)
    ensures Recovers(s, Recovery(s, period), Shift(s, period))
  {
    var init, l := s[..|s| - 1], |s| - 1;
    RecoveryPrefix(s, period);
    if s[l].Some? {
      OneMore(s, period);
      assert Shift(s, period) == Fold(s[l].value, period) - s[l].value;
    }
    hide *;
    NothingRecovers(init, Recovery(init, period), c, Shift(s, period));
    RecoversSnoc(s, Recovery(s, period), Shift(s, period));
  }

  // If each step is readable the series comes back, moved by the constant its first value fixes.
  lemma {:induction false} UnwrapRecovers(s: seq<Option<real>>, period: real)
    requires period > 0.0 && AllReadable(s, period)
    ensures Recovers(s, Recovery(s, period), Shift(s, period))
  {
    if s != [] {
      var init, l := s[..|s| - 1], |s| - 1;
      UnwrapRecovers(init, period);
      if Last(init).None? {
        FirstRecovers(s, period, Shift(init, period));
      } else {
        assert Shift(s, period) == Shift(init, period);
        assert s[l].Some? ==> Readable(Last(init).value, s[l].value, period);
        hide *;
        RecoveryPrefix(s, period);
        if s[l].Some? {
          NextRecovers(s, period, Shift(init, period));
        }
        RecoversSnoc(s, Recovery(s, period), Shift(init, period));
      }
    }
  }

  lemma {:induction false} RecoveredIsReadable(s: seq<Option<real>>, period: real, c: real)
    requires period > 0.0 && Recovers(s, Recovery(s, period), c)
    ensures AllReadable(s, period)
  {
    if s != [] {
      var init := s[..|s| - 1];
      hide Fold, Wrap, Recovery, Recovers, Readable;
      RecoveryPrefix(s, period);
      RecoversSnoc(s, Recovery(s, period), c);
      RecoveredIsReadable(init, period, c);
      if s[|s| - 1].Some? && Last(init).Some? {
        NextRecovers(s, period, c);
      }
    }
  }

  // Main result: unwrapping the folds of a series gives the series back, moved by a constant, exactly
  // when each of its steps is readable.
  lemma RecoveredExactly(s: seq<Option<real>>, period: real)
    requires period > 0.0
    ensures (exists c :: Recovers(s, Recovery(s, period), c)) <==> AllReadable(s, period)
  {
    hide *;
    if AllReadable(s, period) {
      UnwrapRecovers(s, period);
    }
    if c :| Recovers(s, Recovery(s, period), c) {
      RecoveredIsReadable(s, period, c);
    }
  }
}
