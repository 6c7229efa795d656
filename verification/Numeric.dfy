// The numeric conversions the C++ sources rely on, over exact reals and unbounded integers.
module Numeric {

  datatype Option<+T> = None | Some(value: T)

  function Abs(x: real): real {
    if x < 0.0 then -x else x
  }

  function AbsInt(x: int): nat {
    if x < 0 then -x else x
  }

  function Max(x: real, y: real): real {
    if x < y then y else x
  }

  // std::ceil
  function Ceil(x: real): int {
    -(-x).Floor
  }

  // static_cast<int64_t>: truncation toward zero.
  function Trunc(x: real): int {
    if x >= 0.0 then x.Floor else -(-x).Floor
  }

  // std::llround and std::lround: nearest integer, halves away from zero.
  function LlRound(x: real): int {
    if x >= 0.0 then (x + 0.5).Floor else -(-x + 0.5).Floor
  }

  // std::clamp
  function Clamp(x: real, lo: real, hi: real): real {
    if x < lo then lo else if hi < x then hi else x
  }

  function ClampInt(x: int, lo: int, hi: int): int {
    if x < lo then lo else if hi < x then hi else x
  }

  lemma MulMono(a: real, b: real, k: real)
    requires a <= b && k >= 0.0
    ensures a * k <= b * k
  {
  }

  // Order of quotients with positive denominators, by cross multiplication.
  lemma DivLess(b1: int, a1: int, b2: int, a2: int)
    requires a1 > 0 && a2 > 0
    ensures b1 as real / a1 as real < b2 as real / a2 as real <==> b1 * a2 < b2 * a1
    ensures b1 as real / a1 as real == b2 as real / a2 as real <==> b1 * a2 == b2 * a1
  {
    var x, y, p, q := b1 as real / a1 as real, b2 as real / a2 as real, a1 as real, a2 as real;
    assert x * p == b1 as real && y * q == b2 as real;
    assert (b1 * a2) as real == x * (p * q) by {
      assert (b1 * a2) as real == (x * p) * q;
    }
    assert (b2 * a1) as real == y * (p * q) by {
      assert (b2 * a1) as real == (y * q) * p;
    }
    assert p * q > 0.0;
    if x < y {
      assert x * (p * q) < y * (p * q);
    } else if y < x {
      assert y * (p * q) < x * (p * q);
    }
  }

  // Comparing a quotient with a real.
  lemma DivReal(b: int, a: int, f: real)
    requires a > 0
    ensures b as real / a as real <= f <==> b as real <= f * a as real
    ensures b as real / a as real >= f <==> b as real >= f * a as real
  {
    var x := b as real / a as real;
    assert x * a as real == b as real;
    if x <= f {
      MulMono(x, f, a as real);
    }
    if x >= f {
      MulMono(f, x, a as real);
    }
    if x < f {
      assert x * a as real < f * a as real;
    }
    if x > f {
      assert x * a as real > f * a as real;
    }
  }

  lemma MulOrder(k: int, x: int)
    requires k > 0
    ensures x <= 0 ==> k * x <= 0
    ensures x >= 1 ==> k * x >= k
  {
  }

  lemma MultipleMod(d: int, m: int)
    requires d > 0
    ensures (d * m) % d == 0
  {
    var q, r := (d * m) / d, (d * m) % d;
    assert d * m == d * q + r;
    assert d * (m - q) == r;
    MulOrder(d, m - q);
  }

  lemma MulMonoInt(x: int, y: int, k: int)
    requires x <= y && k >= 0
    ensures x * k <= y * k
  {
  }

  lemma DivDifference(b1: int, a1: int, b2: int, a2: int)
    requires a1 > 0 && a2 > 0
    ensures a1 * a2 > 0
    ensures b2 as real / a2 as real - b1 as real / a1 as real == (b2 * a1 - b1 * a2) as real / (a1 * a2) as real
  {
    MulOrder(a1, a2);
    var x, y, q, s := b1 as real / a1 as real, b2 as real / a2 as real, a1 as real, a2 as real;
    assert x * q == b1 as real && y * s == b2 as real;
    ScaledDifference(x, y, q, s);
    assert (y - x) * (q * s) == (b2 * a1 - b1 * a2) as real;
    DivCancel(y - x, q * s);
  }

  lemma ScaledDifference(x: real, y: real, q: real, s: real)
    ensures (y - x) * (q * s) == (y * s) * q - (x * q) * s
  {
  }

  lemma DivCancel(x: real, d: real)
    requires d != 0.0
    ensures (x * d) / d == x
  {
  }

  lemma MulPositive(x: real, y: real)
    requires x > 0.0 && y > 0.0
    ensures x * y > 0.0
  {
  }

  lemma RealProduct(x: int, y: int)
    ensures (x * y) as real == x as real * y as real
    ensures (y * x) as real == x as real * y as real
  {
  }

  // Products are named so that the facts about them stay linear.
  lemma MulAbs(x: real, b: real, k: real, y: real, c: real)
    requires -b <= x <= b && k >= 0.0 && y == x * k && c == b * k
    ensures -c <= y <= c
  {
    assert (b - x) * k >= 0.0;
    assert (b + x) * k >= 0.0;
  }

  lemma Distribute(a: real, b: real, k: real, y: real, ya: real, yb: real)
    requires y == (a - b) * k && ya == a * k && yb == b * k
    ensures y == ya - yb
  {
  }

  lemma MulStrict(a: real, b: real, k: real, y: real, z: real)
    requires a < b && k > 0.0 && y == a * k && z == b * k
    ensures y < z
  {
  }

  lemma MulLe(a: real, b: real, k: real, y: real, z: real)
    requires a <= b && k >= 0.0 && y == a * k && z == b * k
    ensures y <= z
  {
    if k > 0.0 && a < b {
      MulStrict(a, b, k, y, z);
    }
  }

  lemma ProperShare(k: real, x: real, y: real)
    requires 0.0 < k < 1.0 && x > 0.0 && y == k * x
    ensures 0.0 < y < x
  {
    MulStrict(0.0, k, x, 0.0, y);
    MulStrict(k, 1.0, x, y, x);
  }

  lemma SquareMono(x: real, b: real)
    requires Abs(x) <= b
    ensures x * x <= b * b
  {
    var a := Abs(x);
    assert x * x == a * a;
    MulMono(a, b, a);
    MulMono(a, b, b);
  }
}
