// components/i2s_rate_lock/frac_select.h: the fraction b/a of the MCLK divider N + b/a, as a packed
// register value, as the best representable bracket of a target, and as a dithered pair.
module FracSelect {
  import opened Numeric

  const FRAC_MAX_DENOMINATOR: nat := 511
  const FRAC_FIELDS: nat := 0x1000_0000

  // z[8:0] y[17:9] x[26:18] yn1[27], each masked to its width.
  function Pack(z: nat, y: nat, x: nat, yn1: nat): nat
    requires yn1 <= 1
  {
    z % 512 + y % 512 * 0x200 + x % 512 * 0x4_0000 + yn1 * 0x800_0000
  }

  // `b == a` would make z zero and a / z undefined, so 1/1 is outside the domain.
  function EncodeFrac(b: nat, a: nat): nat
    requires b == 0 || b < a
  {
    if b == 0 then 0
    else
      var yn1 := if 2 * b > a then 1 else 0;
      var z := if yn1 == 1 then a - b else b;
      Pack(z, a % z, a / z - 1, yn1)
  }

  function DecodeFrac(val: nat): (r: Option<(nat, nat)>)
    ensures r.Some? ==> r.value.0 < r.value.1 <= FRAC_MAX_DENOMINATOR
  {
    var z := val % 512;
    var y := val / 0x200 % 512;
    var x := val / 0x4_0000 % 512;
    var yn1 := val / 0x800_0000 % 2;
    if z == 0 then Some((0, 1))
    else
      var a := (x + 1) * z + y;
      if a == 0 || a > FRAC_MAX_DENOMINATOR then None
      else
        var b := if yn1 == 1 then a - z else z;
        if b < a then Some((b, a)) else None
  }

  // The sanity check of rate_lock.cpp: decode, then re-encode to the same register value.
  predicate PassesRoundTrip(val: nat) {
    match DecodeFrac(val)
    case None => false
    case Some(f) => EncodeFrac(f.0, f.1) == val
  }

  // ----- the register codec

  lemma Digit(v: nat, r: nat, q: nat, d: nat)
    requires r < d && v == r + d * q
    ensures v / d == q && v % d == r
  {
    var q', r' := v / d, v % d;
    assert d * (q' - q) == r - r';
    MulOrder(d, q' - q);
    MulOrder(d, q - q');
    assert d * (q - q') == r' - r;
  }

  lemma PackIs(z: nat, y: nat, x: nat, yn1: nat)
    requires z < 512 && y < 512 && x < 512 && yn1 <= 1
    ensures Pack(z, y, x, yn1) == z + 0x200 * y + 0x4_0000 * x + 0x800_0000 * yn1
  {
    Digit(z, z, 0, 512);
    Digit(y, y, 0, 512);
    Digit(x, x, 0, 512);
    assert z % 512 == z && y % 512 == y && x % 512 == x;
  }

  lemma UnpackPack(z: nat, y: nat, x: nat, yn1: nat)
    requires z < 512 && y < 512 && x < 512 && yn1 <= 1
    ensures var v := Pack(z, y, x, yn1);
      && v < FRAC_FIELDS
      && v % 512 == z && v / 0x200 % 512 == y && v / 0x4_0000 % 512 == x && v / 0x800_0000 % 2 == yn1
  {
    var v := Pack(z, y, x, yn1);
    var u := x + 512 * yn1;
    var w := y + 512 * u;
    PackIs(z, y, x, yn1);
    hide Pack;
    Digit(v, z, w, 0x200);
    Digit(v, z + 0x200 * y, u, 0x4_0000);
    Digit(v, z + 0x200 * y + 0x4_0000 * x, yn1, 0x800_0000);
    Digit(w, y, u, 512);
    Digit(u, x, yn1, 512);
  }

  lemma QuotientBounds(q: int, r: int, z: int, a: int)
    requires 0 < z <= a && 0 <= r < z && z * q + r == a
    ensures 1 <= q <= a
  {
    MulOrder(z, q);
    assert q >= 1;
    assert (z - 1) * q >= 0;
    assert z * q == (z - 1) * q + q;
  }

  lemma Division(a: nat, z: nat)
    requires 0 < z <= a
    ensures 1 <= a / z <= a && a % z < z && (a / z) * z + a % z == a
  {
    var q, r := a / z, a % z;
    assert z * q + r == a;
    QuotientBounds(q, r, z, a);
  }

  // Every field of a legal fraction fits its nine bits, and decoding returns the pair itself, not
  // only its value.
  lemma CodecRoundTrip(b: nat, a: nat)
    requires 0 < b < a <= FRAC_MAX_DENOMINATOR
    ensures var z := if 2 * b > a then a - b else b; 0 < z < 512 && a % z < 512 && a / z - 1 < 512
    ensures EncodeFrac(b, a) < FRAC_FIELDS
    ensures EncodeFrac(b, a) % 512 != 0
    ensures DecodeFrac(EncodeFrac(b, a)) == Some((b, a))
  {
    var yn1 := if 2 * b > a then 1 else 0;
    var z := if yn1 == 1 then a - b else b;
    Division(a, z);
    DecodePacked(z, a % z, a / z - 1, yn1);
  }

  lemma DecodePacked(z: nat, y: nat, x: nat, yn1: nat)
    requires 0 < z < 512 && y < 512 && x < 512 && yn1 <= 1
    requires (x + 1) * z + y <= FRAC_MAX_DENOMINATOR
    ensures Pack(z, y, x, yn1) < FRAC_FIELDS && Pack(z, y, x, yn1) % 512 == z
    ensures var a := (x + 1) * z + y;
      var b := if yn1 == 1 then a - z else z;
      DecodeFrac(Pack(z, y, x, yn1)) == if 0 < a && b < a then Some((b, a)) else None
  {
    UnpackPack(z, y, x, yn1);
    assert (x + 1) * z >= z;
  }

  lemma EncodeInjective(b1: nat, a1: nat, b2: nat, a2: nat)
    requires 0 < b1 < a1 <= FRAC_MAX_DENOMINATOR && 0 < b2 < a2 <= FRAC_MAX_DENOMINATOR
    requires EncodeFrac(b1, a1) == EncodeFrac(b2, a2)
    ensures b1 == b2 && a1 == a2
  {
    CodecRoundTrip(b1, a1);
    CodecRoundTrip(b2, a2);
  }

  ghost predicate IsEncoding(val: nat, b: nat, a: nat) {
    0 < b < a <= FRAC_MAX_DENOMINATOR && val == EncodeFrac(b, a)
  }

  // The register values the sanity check accepts are exactly zero and the encodings, each of one
  // fraction only.
  lemma AcceptedValues(val: nat)
    requires val < FRAC_FIELDS
    ensures PassesRoundTrip(val) <==> val == 0 || exists b, a :: IsEncoding(val, b, a)
    ensures forall b1, a1, b2, a2 :: IsEncoding(val, b1, a1) && IsEncoding(val, b2, a2) ==> b1 == b2 && a1 == a2
  {
    forall b1, a1, b2, a2 | IsEncoding(val, b1, a1) && IsEncoding(val, b2, a2)
      ensures b1 == b2 && a1 == a2
    {
      EncodeInjective(b1, a1, b2, a2);
    }
    if PassesRoundTrip(val) && val != 0 {
      var f := DecodeFrac(val).value;
      assert IsEncoding(val, f.0, f.1);
    }
    if b, a :| IsEncoding(val, b, a) {
      CodecRoundTrip(b, a);
    }
  }

  // ----- the bracket search

  datatype Bracket = Bracket(loB: nat, loA: nat, hiB: nat, hiA: nat) {
    function LoV(): real
      requires loA > 0
    {
      loB as real / loA as real
    }

    function HiV(): real
      requires hiA > 0
    {
      hiB as real / hiA as real
    }

    ghost predicate Positive() {
      loA > 0 && hiA > 0
    }
  }

  // Numerators tried at denominator a: floor and ceiling of frac * a, both capped at a - 1.
  function FloorAt(frac: real, a: nat): nat
    requires 0.0 <= frac && a > 0
  {
    var f := (frac * a as real).Floor;
    if f < a - 1 then f else a - 1
  }

  function CeilAt(frac: real, a: nat): (c: nat)
    requires 0.0 <= frac && a > 0
  {
    var f := Ceil(frac * a as real);
    if f < a - 1 then f else a - 1
  }

  // One pass of the loop body.
  function Improve(frac: real, k: Bracket, a: nat): (r: Bracket)
    requires 0.0 <= frac && a > 0 && k.Positive()
    ensures r.Positive()
  {
    var bl, bh := FloorAt(frac, a), CeilAt(frac, a);
    var vl, vh := bl as real / a as real, bh as real / a as real;
    var k1 := if vl <= frac && vl > k.LoV() then k.(loB := bl, loA := a) else k;
    if vh >= frac && vh < k.HiV() then k1.(hiB := bh, hiA := a) else k1
  }

  // The bracket after denominators 1..n.
  function BracketUpTo(frac: real, n: nat): (r: Bracket)
    requires 0.0 <= frac && n >= 1
    ensures r.Positive()
  {
    if n == 1 then Bracket(0, 1, 1, 1) else Improve(frac, BracketUpTo(frac, n - 1), n)
  }

  // b/a <= frac and b/a >= frac, without division.
  predicate AtMost(b: int, a: int, frac: real) {
    b as real <= frac * a as real
  }

  predicate AtLeast(b: int, a: int, frac: real) {
    b as real >= frac * a as real
  }

  predicate Below(b: int, a: int, frac: real) {
    b as real < frac * a as real
  }

  predicate Above(b: int, a: int, frac: real) {
    b as real > frac * a as real
  }

  // The determinant of two fractions: positive when the second is the greater.
  ghost function Det(b1: int, a1: int, b2: int, a2: int): int {
    b2 * a1 - b1 * a2
  }

  ghost predicate LowestTerms(b: nat, a: nat) {
    forall d: nat :: d >= 2 && a % d == 0 ==> b % d != 0
  }

  ghost predicate Representable(frac: real, n: nat) {
    exists b: nat, a: nat :: IsRatio(frac, n, b, a)
  }

  ghost predicate IsRatio(frac: real, n: nat, b: nat, a: nat) {
    b < a <= n && b as real == frac * a as real
  }

  // Farey neighbours of level n with frac strictly between them.
  ghost predicate Neighbours(frac: real, n: nat, k: Bracket) {
    && 0 < k.loA <= n && 0 < k.hiA <= n && k.loB < k.loA && k.hiB <= k.hiA
    && Below(k.loB, k.loA, frac)
    && Above(k.hiB, k.hiA, frac)
    && Det(k.loB, k.loA, k.hiB, k.hiA) == 1
    && k.loA + k.hiA > n
  }

  // Both ends are frac itself, reduced.
  ghost predicate Hit(frac: real, n: nat, k: Bracket) {
    && k.loB == k.hiB && k.loA == k.hiA
    && IsRatio(frac, n, k.loB, k.loA)
    && LowestTerms(k.loB, k.loA)
  }

  lemma CommonDivisor(d: int, a: int, b: int, x: int, y: int)
    requires d > 0 && a % d == 0 && b % d == 0
    ensures (x * a - b * y) % d == 0
  {
    var k, l := a / d, b / d;
    var m := x * k - l * y;
    assert a == d * k && b == d * l;
    assert x * a == d * (x * k);
    assert b * y == d * (l * y);
    assert x * a - b * y == d * m;
    MultipleMod(d, m);
  }

  lemma UnimodularIsLowest(b: nat, a: nat, x: int, y: int)
    requires Det(b, a, x, y) == 1 || Det(b, a, x, y) == -1
    ensures LowestTerms(b, a)
  {
    forall d: nat | d >= 2 && a % d == 0
      ensures b % d != 0
    {
      if b % d == 0 {
        CommonDivisor(d, a, b, x, y);
        assert false;
      }
    }
  }

  lemma Combination(p: int, q: int, r: int, s: int, b: int, a: int)
    ensures s * Det(p, q, b, a) + q * Det(b, a, r, s) == a * Det(p, q, r, s)
  {
    assert s * (b * q - p * a) == s * (b * q) - s * (p * a);
    assert q * (r * a - b * s) == q * (r * a) - q * (b * s);
    assert s * (b * q) == q * (b * s);
    assert a * (r * q - p * s) == a * (r * q) - a * (p * s);
    assert a * (r * q) == q * (r * a) && a * (p * s) == s * (p * a);
  }

  // A fraction strictly between Farey neighbours has a denominator of at least their sum, and the
  // only one with exactly that denominator is the mediant.
  lemma Between(p: int, q: int, r: int, s: int, b: int, a: int)
    requires q > 0 && s > 0 && Det(p, q, r, s) == 1
    requires Det(p, q, b, a) > 0 && Det(b, a, r, s) > 0
    ensures a >= q + s
    ensures a == q + s ==> b == p + r
  {
    var u, v := b * q - p * a, r * a - b * s;
    Combination(p, q, r, s, b, a);
    assert s * u + q * v == a;
    MulOrder(s, u);
    MulOrder(q, v);
    MulOrder(s, u - 1);
    if a == q + s {
      assert u == 1;
      assert b * q - (p + r) * q == 0 by {
        assert p * a == p * q + p * s;
      }
      MulOrder(q, b - (p + r));
      MulOrder(q, p + r - b);
      assert q * (b - (p + r)) == 0 && q * (p + r - b) == 0;
    }
  }

  lemma Candidates(frac: real, a: nat)
    requires 0.0 <= frac < 1.0 && a > 0
    ensures var bl := FloorAt(frac, a); bl < a && AtMost(bl, a, frac)
    ensures forall b: int :: AtMost(b, a, frac) ==> b <= FloorAt(frac, a)
    ensures CeilAt(frac, a) < a
    ensures forall b: int :: b < a && AtLeast(b, a, frac) ==> CeilAt(frac, a) <= b && AtLeast(CeilAt(frac, a), a, frac)
  {
    var fa := frac * a as real;
    MulMono(frac, 1.0, a as real);
    assert fa < a as real by {
      assert (1.0 - frac) * a as real > 0.0;
    }
  }

  // The loop body's comparisons, over integers.
  lemma ImproveCases(frac: real, k: Bracket, a: nat)
    requires 0.0 <= frac < 1.0 && a > 0 && k.Positive()
    ensures var bl, bh := FloorAt(frac, a), CeilAt(frac, a);
      var up := Det(k.loB, k.loA, bl, a) > 0;
      var down := AtLeast(bh, a, frac) && Det(bh, a, k.hiB, k.hiA) > 0;
      Improve(frac, k, a) == Bracket(if up then bl else k.loB, if up then a else k.loA,
                                     if down then bh else k.hiB, if down then a else k.hiA)
  {
    var bl, bh := FloorAt(frac, a), CeilAt(frac, a);
    assert bl as real / a as real <= frac by {
      Candidates(frac, a);
      DivReal(bl, a, frac);
    }
    assert bh as real / a as real >= frac <==> AtLeast(bh, a, frac) by {
      DivReal(bh, a, frac);
    }
    DivLess(k.loB, k.loA, bl, a);
    DivLess(bh, a, k.hiB, k.hiA);
  }

  // b1/a1 <= frac < b2/a2 orders the fractions; likewise with the strictness on the other side.
  lemma Separated(b1: int, a1: int, b2: int, a2: int, frac: real)
    requires a1 > 0 && a2 > 0 && AtMost(b1, a1, frac) && AtLeast(b2, a2, frac)
    ensures Det(b1, a1, b2, a2) >= 0
    ensures Below(b1, a1, frac) || Above(b2, a2, frac) ==> Det(b1, a1, b2, a2) > 0
    ensures Det(b1, a1, b2, a2) == 0 ==> b1 as real == frac * a1 as real && b2 as real == frac * a2 as real
  {
    var x, y := a1 as real, a2 as real;
    MulMono(b1 as real, frac * x, y);
    MulMono(frac * y, b2 as real, x);
    assert (frac * x) * y == (frac * y) * x;
    assert (b1 * a2) as real == b1 as real * y && (b2 * a1) as real == b2 as real * x;
    if b1 as real < frac * x {
      assert (frac * x - b1 as real) * y > 0.0;
    }
    if b2 as real > frac * y {
      assert (b2 as real - frac * y) * x > 0.0;
    }
  }

  // A new lower or upper end can only be the mediant.
  lemma LowerUpdateIsMediant(frac: real, n: nat, k: Bracket, bl: nat, a: nat)
    requires Neighbours(frac, n, k) && a > 0 && AtMost(bl, a, frac)
    requires Det(k.loB, k.loA, bl, a) > 0
    ensures a >= k.loA + k.hiA
    ensures a == k.loA + k.hiA ==> bl == k.loB + k.hiB
  {
    StrictlyBelow(bl, a, k.hiB, k.hiA, frac);
    Between(k.loB, k.loA, k.hiB, k.hiA, bl, a);
  }

  lemma UpperUpdateIsMediant(frac: real, n: nat, k: Bracket, bh: nat, a: nat)
    requires Neighbours(frac, n, k) && a > 0 && AtLeast(bh, a, frac)
    requires Det(bh, a, k.hiB, k.hiA) > 0
    ensures a >= k.loA + k.hiA
    ensures a == k.loA + k.hiA ==> bh == k.loB + k.hiB
  {
    StrictlyBelow(k.loB, k.loA, bh, a, frac);
    Between(k.loB, k.loA, k.hiB, k.hiA, bh, a);
  }

  lemma StrictlyBelow(b1: int, a1: int, b2: int, a2: int, frac: real)
    requires a1 > 0 && a2 > 0 && AtMost(b1, a1, frac) && AtLeast(b2, a2, frac)
    requires Below(b1, a1, frac) || Above(b2, a2, frac)
    ensures Det(b1, a1, b2, a2) > 0
  {
    Separated(b1, a1, b2, a2, frac);
  }

  lemma DetFlip(b1: int, a1: int, b2: int, a2: int)
    ensures Det(b2, a2, b1, a1) == -Det(b1, a1, b2, a2)
  {
  }

  lemma MediantDeterminants(p: int, q: int, r: int, s: int)
    ensures Det(p, q, p + r, q + s) == Det(p, q, r, s)
    ensures Det(p + r, q + s, r, s) == Det(p, q, r, s)
  {
    assert (p + r) * q == p * q + r * q && p * (q + s) == p * q + p * s;
    assert r * (q + s) == r * q + r * s && (p + r) * s == p * s + r * s;
  }

  // When n + 1 is the sum of the denominators, the mediant is found as the floor if it is at most
  // frac and as the ceiling if it is at least frac.
  lemma MediantIsFound(frac: real, n: nat, k: Bracket)
    requires 0.0 < frac < 1.0 && n >= 1 && Neighbours(frac, n, k) && k.loA + k.hiA == n + 1
    ensures var (m, a) := (k.loB + k.hiB, n + 1);
      && m < a
      && (AtMost(m, a, frac) ==> FloorAt(frac, a) == m)
      && (AtLeast(m, a, frac) ==> CeilAt(frac, a) == m)
  {
    var (m, a) := (k.loB + k.hiB, n + 1);
    var bl, bh := FloorAt(frac, a), CeilAt(frac, a);
    Candidates(frac, a);
    MediantDeterminants(k.loB, k.loA, k.hiB, k.hiA);
    if AtMost(m, a, frac) {
      MulMonoInt(m, bl, k.loA);
      LowerUpdateIsMediant(frac, n, k, bl, a);
    }
    if AtLeast(m, a, frac) {
      MulMonoInt(bh, m, k.hiA);
      UpperUpdateIsMediant(frac, n, k, bh, a);
    }
  }

  lemma ImproveSkips(frac: real, n: nat, k: Bracket)
    requires 0.0 < frac < 1.0 && n >= 1 && Neighbours(frac, n, k) && k.loA + k.hiA > n + 1
    ensures Improve(frac, k, n + 1) == k
  {
    var a := n + 1;
    var bl, bh := FloorAt(frac, a), CeilAt(frac, a);
    Candidates(frac, a);
    ImproveCases(frac, k, a);
    if Det(k.loB, k.loA, bl, a) > 0 {
      LowerUpdateIsMediant(frac, n, k, bl, a);
    }
    if AtLeast(bh, a, frac) && Det(bh, a, k.hiB, k.hiA) > 0 {
      UpperUpdateIsMediant(frac, n, k, bh, a);
    }
  }

  function WithMediant(frac: real, k: Bracket, m: nat, a: nat): Bracket {
    var (up, down) := (AtMost(m, a, frac), AtLeast(m, a, frac));
    Bracket(if up then m else k.loB, if up then a else k.loA, if down then m else k.hiB, if down then a else k.hiA)
  }

  lemma ImproveTakesMediant(frac: real, n: nat, k: Bracket)
    requires 0.0 < frac < 1.0 && n >= 1 && Neighbours(frac, n, k) && k.loA + k.hiA == n + 1
    ensures Improve(frac, k, n + 1) == WithMediant(frac, k, k.loB + k.hiB, n + 1)
  {
    hide Det, AtMost, AtLeast, Improve, FloorAt, CeilAt;
    var (m, a) := (k.loB + k.hiB, n + 1);
    var bl, bh := FloorAt(frac, a), CeilAt(frac, a);
    assert Det(k.loB, k.loA, bl, a) > 0 <==> AtMost(m, a, frac) by {
      LowerTakesMediant(frac, n, k);
    }
    assert AtLeast(bh, a, frac) && Det(bh, a, k.hiB, k.hiA) > 0 <==> AtLeast(m, a, frac) by {
      UpperTakesMediant(frac, n, k);
    }
    MediantIsFound(frac, n, k);
    ImproveCases(frac, k, a);
  }

  lemma LowerTakesMediant(frac: real, n: nat, k: Bracket)
    requires 0.0 < frac < 1.0 && n >= 1 && Neighbours(frac, n, k) && k.loA + k.hiA == n + 1
    ensures Det(k.loB, k.loA, FloorAt(frac, n + 1), n + 1) > 0 <==> AtMost(k.loB + k.hiB, n + 1, frac)
  {
    var bl := FloorAt(frac, n + 1);
    Candidates(frac, n + 1);
    MediantIsFound(frac, n, k);
    MediantDeterminants(k.loB, k.loA, k.hiB, k.hiA);
    if Det(k.loB, k.loA, bl, n + 1) > 0 {
      LowerUpdateIsMediant(frac, n, k, bl, n + 1);
    }
  }

  lemma UpperTakesMediant(frac: real, n: nat, k: Bracket)
    requires 0.0 < frac < 1.0 && n >= 1 && Neighbours(frac, n, k) && k.loA + k.hiA == n + 1
    ensures var bh := CeilAt(frac, n + 1);
      AtLeast(bh, n + 1, frac) && Det(bh, n + 1, k.hiB, k.hiA) > 0 <==> AtLeast(k.loB + k.hiB, n + 1, frac)
  {
    var bh := CeilAt(frac, n + 1);
    Candidates(frac, n + 1);
    MediantIsFound(frac, n, k);
    MediantDeterminants(k.loB, k.loA, k.hiB, k.hiA);
    if AtLeast(bh, n + 1, frac) && Det(bh, n + 1, k.hiB, k.hiA) > 0 {
      UpperUpdateIsMediant(frac, n, k, bh, n + 1);
    }
  }

  // With an end replaced by the mediant, the bracket is again one of neighbours or of frac itself.
  lemma ReplaceByMediant(frac: real, n: nat, k: Bracket)
    requires 0.0 < frac < 1.0 && n >= 1 && Neighbours(frac, n, k) && k.loA + k.hiA == n + 1
    ensures var r := WithMediant(frac, k, k.loB + k.hiB, n + 1); Neighbours(frac, n + 1, r) || Hit(frac, n + 1, r)
  {
    hide Det, LowestTerms;
    MediantDeterminants(k.loB, k.loA, k.hiB, k.hiA);
    UnimodularIsLowest(k.loB + k.hiB, n + 1, k.hiB, k.hiA);
  }

  lemma NeighbourSum(frac: real, n: nat, k: Bracket)
    requires Neighbours(frac, n, k)
    ensures k.Positive() && k.loA + k.hiA > n
    ensures k.loA + k.hiA > n + 1 ==> Neighbours(frac, n + 1, k)
  {
  }

  lemma ImproveNeighbours(frac: real, n: nat, k: Bracket)
    requires 0.0 < frac < 1.0 && n >= 1 && Neighbours(frac, n, k)
    ensures var k' := Improve(frac, k, n + 1); Neighbours(frac, n + 1, k') || Hit(frac, n + 1, k')
  {
    hide *;
    NeighbourSum(frac, n, k);
    if k.loA + k.hiA == n + 1 {
      ImproveTakesMediant(frac, n, k);
      ReplaceByMediant(frac, n, k);
    } else {
      ImproveSkips(frac, n, k);
    }
  }

  lemma ImproveHit(frac: real, n: nat, k: Bracket, a: nat)
    requires 0.0 < frac < 1.0 && Hit(frac, n, k) && a > 0
    ensures Improve(frac, k, a) == k
  {
    Candidates(frac, a);
    ImproveCases(frac, k, a);
    Separated(FloorAt(frac, a), a, k.hiB, k.hiA, frac);
    if AtLeast(CeilAt(frac, a), a, frac) {
      Separated(k.loB, k.loA, CeilAt(frac, a), a, frac);
    }
  }

  lemma {:induction false} SearchInvariant(frac: real, n: nat)
    requires 0.0 < frac < 1.0 && n >= 1
    ensures var k := BracketUpTo(frac, n); Neighbours(frac, n, k) || Hit(frac, n, k)
  {
    if n > 1 {
      SearchInvariant(frac, n - 1);
      var k := BracketUpTo(frac, n - 1);
      if Hit(frac, n - 1, k) {
        ImproveHit(frac, n - 1, k, n);
      } else {
        ImproveNeighbours(frac, n - 1, k);
      }
    }
  }

  lemma ImproveAtZero(k: Bracket, a: nat)
    requires a >= 2 && (k == Bracket(0, 1, 1, 1) || k == Bracket(0, 1, 0, 2))
    ensures Improve(0.0, k, a) == if k.hiB == 1 then Bracket(0, 1, 0, a) else k
  {
    assert 0.0 * a as real == 0.0;
    assert FloorAt(0.0, a) == CeilAt(0.0, a) == 0;
    assert 0 as real / a as real == 0.0;
  }

  // At zero the lower end is 0/1 and the upper end the first zero tried, 0/2.
  lemma {:induction false} SearchAtZero(n: nat)
    requires n >= 2
    ensures BracketUpTo(0.0, n) == Bracket(0, 1, 0, 2)
  {
    if n > 2 {
      SearchAtZero(n - 1);
      ImproveAtZero(BracketUpTo(0.0, n - 1), n);
    } else {
      ImproveAtZero(Bracket(0, 1, 1, 1), 2);
      assert BracketUpTo(0.0, 1) == Bracket(0, 1, 1, 1);
    }
  }

  // ----- what the search returns

  datatype FracChoice = FracChoice(loB: nat, loA: nat, hiB: nat, hiA: nat, loV: real, hiV: real,
                                   duty: real, exact: bool, useLo: bool)

  const TIE: real := 0.000000001

  function Pick(frac: real): (c: FracChoice)
    requires 0.0 <= frac < 1.0
    ensures 0.0 <= c.duty < 1.0
  {
    var k := BracketUpTo(frac, FRAC_MAX_DENOMINATOR);
    SearchIsBest(frac, FRAC_MAX_DENOMINATOR);
    ChoiceMeetsTarget(frac, k);
    Choose(frac, k.loB, k.loA, k.hiB, k.hiA, k.LoV(), k.HiV())
  }

  function Choose(frac: real, loB: nat, loA: nat, hiB: nat, hiA: nat, loV: real, hiV: real): FracChoice {
    var gap := hiV - loV;
    var exact := gap < TIE || frac - loV < TIE || hiV - frac < TIE;
    FracChoice(loB, loA, hiB, hiA, loV, hiV, if exact then 0.0 else (frac - loV) / gap, exact,
               frac - loV <= hiV - frac)
  }

  method PickFrac(frac: real) returns (c: FracChoice)
    requires 0.0 <= frac < 1.0
    ensures c == Pick(frac)
  {
    var loB: nat, loA: nat, hiB: nat, hiA: nat := 0, 1, 1, 1;
    var loV, hiV := 0.0, 1.0;
    for a := 2 to FRAC_MAX_DENOMINATOR + 1
      invariant loA > 0 && hiA > 0
      invariant BracketUpTo(frac, a - 1) == Bracket(loB, loA, hiB, hiA)
      invariant loV == loB as real / loA as real && hiV == hiB as real / hiA as real
    {
      ghost var k := Bracket(loB, loA, hiB, hiA);
      assert BracketUpTo(frac, a) == Improve(frac, k, a);
      var fa := frac * a as real;
      var fl, ce := fa.Floor, Ceil(fa);
      var bl, bh := if fl < a - 1 then fl else a - 1, if ce < a - 1 then ce else a - 1;
      var vl, vh := bl as real / a as real, bh as real / a as real;
      if vl <= frac && vl > loV {
        loV, loB, loA := vl, bl, a;
      }
      if vh >= frac && vh < hiV {
        hiV, hiB, hiA := vh, bh, a;
      }
    }
    c := Choose(frac, loB, loA, hiB, hiA, loV, hiV);
  }

  // The greatest ratio with denominator up to n that does not exceed frac, and the least that is
  // not below it.
  ghost predicate GreatestBelow(frac: real, n: nat, b: nat, a: nat) {
    && 0 < a && AtMost(b, a, frac)
    && forall b', a' {:trigger AtMost(b', a', frac)} :: 0 <= b' < a' <= n && AtMost(b', a', frac) ==> Det(b', a', b, a) >= 0
  }

  ghost predicate LeastAbove(frac: real, n: nat, b: nat, a: nat) {
    && 0 < a && AtLeast(b, a, frac)
    && forall b', a' {:trigger AtLeast(b', a', frac)} ::
         0 <= b' && (b' < a' <= n || b' == a' == 1) && AtLeast(b', a', frac) ==> Det(b, a, b', a') >= 0
  }

  lemma NeighboursAreBest(frac: real, n: nat, k: Bracket)
    requires 0.0 < frac < 1.0 && Neighbours(frac, n, k)
    ensures GreatestBelow(frac, n, k.loB, k.loA) && LeastAbove(frac, n, k.hiB, k.hiA)
  {
    forall b: int, a: int | 0 <= b < a <= n && AtMost(b, a, frac)
      ensures Det(b, a, k.loB, k.loA) >= 0
    {
      if Det(b, a, k.loB, k.loA) < 0 {
        LowerUpdateIsMediant(frac, n, k, b, a);
      }
    }
    forall b: int, a: int | 0 <= b && (b < a <= n || b == a == 1) && AtLeast(b, a, frac)
      ensures Det(k.hiB, k.hiA, b, a) >= 0
    {
      if Det(k.hiB, k.hiA, b, a) < 0 && a <= n {
        UpperUpdateIsMediant(frac, n, k, b, a);
      }
    }
  }

  lemma HitIsBest(frac: real, n: nat, k: Bracket)
    requires 0.0 <= frac < 1.0 && k.Positive()
    requires k.loB as real == frac * k.loA as real && k.hiB as real == frac * k.hiA as real
    ensures GreatestBelow(frac, n, k.loB, k.loA) && LeastAbove(frac, n, k.hiB, k.hiA)
  {
    forall b: int, a: int | 0 <= b < a <= n && AtMost(b, a, frac)
      ensures Det(b, a, k.loB, k.loA) >= 0
    {
      Separated(b, a, k.loB, k.loA, frac);
    }
    forall b: int, a: int | 0 <= b && (b < a <= n || b == a == 1) && AtLeast(b, a, frac)
      ensures Det(k.hiB, k.hiA, b, a) >= 0
    {
      Separated(k.hiB, k.hiA, b, a, frac);
    }
  }

  ghost predicate Bounds(frac: real, n: nat, k: Bracket) {
    && k.loB < k.loA <= n && 0 < k.hiA <= n && (k.hiB < k.hiA || k.hiB == k.hiA == 1)
    && k.LoV() <= frac <= k.HiV()
    && GreatestBelow(frac, n, k.loB, k.loA)
    && LeastAbove(frac, n, k.hiB, k.hiA)
  }

  lemma NeighboursBound(frac: real, n: nat, k: Bracket)
    requires 0.0 < frac < 1.0 && Neighbours(frac, n, k)
    ensures Bounds(frac, n, k)
  {
    assert GreatestBelow(frac, n, k.loB, k.loA) && LeastAbove(frac, n, k.hiB, k.hiA) by {
      NeighboursAreBest(frac, n, k);
    }
    assert k.LoV() <= frac <= k.HiV() by {
      DivReal(k.loB, k.loA, frac);
      DivReal(k.hiB, k.hiA, frac);
    }
    assert k.hiB < k.hiA || k.hiB == k.hiA == 1 by {
      assert frac * k.hiA as real > 0.0;
      NeighbourTop(k);
    }
  }

  lemma HitBounds(frac: real, n: nat, k: Bracket)
    requires 0.0 <= frac < 1.0 && k.loB < k.loA <= n && k.hiB < k.hiA <= n
    requires k.loB as real == frac * k.loA as real && k.hiB as real == frac * k.hiA as real
    ensures Bounds(frac, n, k) && k.LoV() == k.HiV() == frac
  {
    assert GreatestBelow(frac, n, k.loB, k.loA) && LeastAbove(frac, n, k.hiB, k.hiA) by {
      HitIsBest(frac, n, k);
    }
    DivReal(k.loB, k.loA, frac);
    DivReal(k.hiB, k.hiA, frac);
  }

  // Main result of the search: the two ends are the best representable bounds of frac.
  lemma SearchBounds(frac: real, n: nat, k: Bracket)
    requires 0.0 < frac < 1.0 && (Neighbours(frac, n, k) || Hit(frac, n, k))
    ensures Bounds(frac, n, k)
  {
    if Hit(frac, n, k) {
      HitBounds(frac, n, k);
    } else {
      NeighboursBound(frac, n, k);
    }
  }

  lemma SearchIsBest(frac: real, n: nat)
    requires 0.0 <= frac < 1.0 && n >= 2
    ensures Bounds(frac, n, BracketUpTo(frac, n))
  {
    if frac == 0.0 {
      SearchAtZero(n);
      HitBounds(frac, n, Bracket(0, 1, 0, 2));
    } else {
      SearchInvariant(frac, n);
      SearchBounds(frac, n, BracketUpTo(frac, n));
    }
  }

  lemma PickIsBest(frac: real)
    requires 0.0 <= frac < 1.0
    ensures var c := Pick(frac);
      && Bounds(frac, FRAC_MAX_DENOMINATOR, Bracket(c.loB, c.loA, c.hiB, c.hiA))
      && c.loV == c.loB as real / c.loA as real && c.hiV == c.hiB as real / c.hiA as real
  {
    SearchIsBest(frac, FRAC_MAX_DENOMINATOR);
  }

  lemma NeighbourTop(k: Bracket)
    requires Det(k.loB, k.loA, k.hiB, k.hiA) == 1 && k.loB < k.loA && 0 < k.hiB <= k.hiA
    ensures k.hiB < k.hiA || k.hiB == 1
  {
    if k.hiB == k.hiA {
      assert k.hiB * (k.loA - k.loB) == 1;
      MulOrder(k.loA - k.loB, k.hiB - 1);
      assert k.hiB * (k.loA - k.loB) == (k.loA - k.loB) * (k.hiB - 1) + (k.loA - k.loB);
    }
  }

  lemma RatioBetween(frac: real, n: nat, k: Bracket, b: nat, a: nat)
    requires Neighbours(frac, n, k) && IsRatio(frac, n, b, a)
    ensures Det(k.loB, k.loA, b, a) > 0 && Det(b, a, k.hiB, k.hiA) > 0
  {
    assert AtMost(b, a, frac) && AtLeast(b, a, frac);
    assert AtMost(k.loB, k.loA, frac) && AtLeast(k.hiB, k.hiA, frac);
    hide AtMost, AtLeast, Below, Above, Det;
    StrictlyBelow(k.loB, k.loA, b, a, frac);
    StrictlyBelow(b, a, k.hiB, k.hiA, frac);
  }

  // The end in use is the nearer one, the lower on a tie.
  lemma PickUsesNearer(frac: real)
    requires 0.0 <= frac < 1.0
    ensures var c := Pick(frac);
      c.loA > 0 && c.hiA > 0 &&
      (c.useLo <==> Abs(frac - c.loB as real / c.loA as real) <= Abs(c.hiB as real / c.hiA as real - frac))
  {
    PickIsBest(frac);
    hide BracketUpTo, GreatestBelow, LeastAbove;
  }

  // Between two neighbours lies no ratio of the level, so frac is representable exactly when the
  // search hit it.
  lemma NeighboursMissFrac(frac: real, n: nat, k: Bracket)
    requires 0.0 < frac < 1.0 && Neighbours(frac, n, k)
    ensures !Representable(frac, n)
  {
    if b: nat, a: nat :| IsRatio(frac, n, b, a) {
      RatioBetween(frac, n, k, b, a);
      hide Below, Above, Det;
      Between(k.loB, k.loA, k.hiB, k.hiA, b, a);
    }
  }

  lemma NeighbourGap(frac: real, n: nat, k: Bracket)
    requires Neighbours(frac, n, k)
    ensures k.Positive() && Det(k.loB, k.loA, k.hiB, k.hiA) == 1 && k.loA + k.hiA > n
    ensures k.HiV() - k.LoV() == 1.0 / (k.loA * k.hiA) as real
    ensures n <= k.loA * k.hiA <= n * n
  {
    DivDifference(k.loB, k.loA, k.hiB, k.hiA);
    MulMonoInt(k.loA, n, k.hiA);
    MulMonoInt(k.hiA, n, n);
    MulOrder(k.loA, k.hiA - 1);
    ProductBound(k.loA, k.hiA);
  }

  lemma ProductBound(q: int, s: int)
    requires q > 0 && s > 0
    ensures q * s >= q + s - 1
  {
    MulMonoInt(0, q - 1, s - 1);
    assert (q - 1) * (s - 1) == q * s - q - s + 1;
  }

  lemma SmallQuotient(d: int, lo: int, hi: int)
    requires 0 < lo <= d <= hi
    ensures 1.0 / hi as real <= 1.0 / d as real <= 1.0 / lo as real
  {
    DivLess(1, d, 1, hi);
    DivLess(1, lo, 1, d);
  }

  ghost predicate FareyEnds(frac: real, n: nat, k: Bracket)
    requires k.Positive()
  {
    && k.LoV() < frac < k.HiV()
    && Det(k.loB, k.loA, k.hiB, k.hiA) == 1
    && LowestTerms(k.loB, k.loA) && LowestTerms(k.hiB, k.hiA)
    && k.loA + k.hiA > n
    && k.HiV() - k.LoV() == 1.0 / (k.loA * k.hiA) as real
    && n <= k.loA * k.hiA <= n * n
  }

  lemma NeighboursAreFarey(frac: real, n: nat, k: Bracket)
    requires 0.0 < frac < 1.0 && Neighbours(frac, n, k)
    ensures FareyEnds(frac, n, k) && !Representable(frac, n)
  {
    hide Neighbours, Det, LowestTerms, Representable, Bracket.LoV, Bracket.HiV;
    NeighboursStrict(frac, n, k);
    NeighboursReduced(frac, n, k);
    NeighboursMissFrac(frac, n, k);
    NeighbourGap(frac, n, k);
  }

  lemma NeighboursStrict(frac: real, n: nat, k: Bracket)
    requires Neighbours(frac, n, k)
    ensures k.LoV() < frac < k.HiV()
  {
    DivReal(k.loB, k.loA, frac);
    DivReal(k.hiB, k.hiA, frac);
  }

  lemma NeighboursReduced(frac: real, n: nat, k: Bracket)
    requires Neighbours(frac, n, k)
    ensures LowestTerms(k.loB, k.loA) && LowestTerms(k.hiB, k.hiA)
  {
    DetFlip(k.loB, k.loA, k.hiB, k.hiA);
    UnimodularIsLowest(k.loB, k.loA, k.hiB, k.hiA);
    UnimodularIsLowest(k.hiB, k.hiA, k.loB, k.loA);
  }

  lemma ZeroIsHit(n: nat)
    requires n >= 2
    ensures Representable(0.0, n) && Bracket(0, 1, 0, 2).LoV() == Bracket(0, 1, 0, 2).HiV() == 0.0
  {
    assert IsRatio(0.0, n, 0, 1);
  }

  lemma SearchIsFarey(frac: real, n: nat)
    requires 0.0 <= frac < 1.0 && n >= 2
    ensures var k := BracketUpTo(frac, n);
      && (Representable(frac, n) ==> k.LoV() == k.HiV() == frac)
      && (!Representable(frac, n) ==> FareyEnds(frac, n, k))
  {
    hide *;
    if frac == 0.0 {
      SearchAtZero(n);
      ZeroIsHit(n);
    } else {
      SearchInvariant(frac, n);
      FareyOrHit(frac, n, BracketUpTo(frac, n));
    }
  }

  lemma FareyOrHit(frac: real, n: nat, k: Bracket)
    requires 0.0 < frac < 1.0 && (Neighbours(frac, n, k) || Hit(frac, n, k))
    ensures Representable(frac, n) ==> k.LoV() == k.HiV() == frac
    ensures !Representable(frac, n) ==> FareyEnds(frac, n, k)
  {
    if Hit(frac, n, k) {
      HitBounds(frac, n, k);
    } else {
      NeighboursAreFarey(frac, n, k);
    }
  }

  // For a frac that is no ratio of denominator up to 511, the ends are Farey neighbours: reduced,
  // unimodular, and at most 1/511 apart. The gap test below 1e-9 is exactly representability.
  lemma PickIsFarey(frac: real)
    requires 0.0 <= frac < 1.0
    ensures var c := Pick(frac);
      && (Representable(frac, FRAC_MAX_DENOMINATOR) <==> c.hiV - c.loV < TIE)
      && (Representable(frac, FRAC_MAX_DENOMINATOR) ==> c.loV == c.hiV == frac)
      && (!Representable(frac, FRAC_MAX_DENOMINATOR) ==>
            && FareyEnds(frac, FRAC_MAX_DENOMINATOR, Bracket(c.loB, c.loA, c.hiB, c.hiA))
            && 1.0 / 261121.0 <= c.hiV - c.loV <= 1.0 / 511.0)
  {
    hide Representable, FareyEnds, BracketUpTo;
    var n := FRAC_MAX_DENOMINATOR;
    SearchIsFarey(frac, n);
    if !Representable(frac, n) {
      FareyGap(frac, BracketUpTo(frac, n));
    }
  }

  lemma FareyGap(frac: real, k: Bracket)
    requires k.Positive() && FareyEnds(frac, FRAC_MAX_DENOMINATOR, k)
    ensures 1.0 / 261121.0 <= k.HiV() - k.LoV() <= 1.0 / 511.0
  {
    SmallQuotient(k.loA * k.hiA, 511, 261121);
  }

  ghost predicate WithinTie(frac: real, b: nat, a: nat) {
    0 < a <= FRAC_MAX_DENOMINATOR && (b < a || b == a == 1) && Abs(b as real / a as real - frac) < TIE
  }

  ghost predicate MeetsTarget(frac: real, c: FracChoice) {
    && (c.exact <==> exists b, a :: WithinTie(frac, b, a))
    && (c.exact ==> if c.useLo then WithinTie(frac, c.loB, c.loA) else WithinTie(frac, c.hiB, c.hiA))
    && (!c.exact ==> 0.0 < c.duty < 1.0 && c.loV < c.hiV && c.loV + c.duty * (c.hiV - c.loV) == frac)
  }

  // `exact` means that some representable ratio lies within 1e-9, and then the chosen end does. Else
  // the duty is a proper share that makes the mean of the two ends frac itself.
  lemma PickMeetsTarget(frac: real)
    requires 0.0 <= frac < 1.0
    ensures MeetsTarget(frac, Pick(frac))
  {
    PickIsBest(frac);
    ChoiceMeetsTarget(frac, BracketUpTo(frac, FRAC_MAX_DENOMINATOR));
  }

  lemma ChoiceMeetsTarget(frac: real, k: Bracket)
    requires 0.0 <= frac < 1.0 && Bounds(frac, FRAC_MAX_DENOMINATOR, k)
    ensures MeetsTarget(frac, Choose(frac, k.loB, k.loA, k.hiB, k.hiA, k.LoV(), k.HiV()))
  {
    var c := Choose(frac, k.loB, k.loA, k.hiB, k.hiA, k.LoV(), k.HiV());
    if c.exact {
      assert WithinTie(frac, if c.useLo then k.loB else k.hiB, if c.useLo then k.loA else k.hiA);
    } else {
      DutyShare(frac - c.loV, c.hiV - c.loV);
    }
    forall b, a | WithinTie(frac, b, a)
      ensures c.exact
    {
      BestEndIsNear(frac, k, b, a);
    }
  }

  lemma DutyShare(x: real, gap: real)
    requires 0.0 < x < gap
    ensures 0.0 < x / gap < 1.0 && x / gap * gap == x
  {
    var q := x / gap;
    assert q * gap == x;
    if q >= 1.0 {
      MulMono(1.0, q, gap);
    }
  }

  lemma BestEndIsNear(frac: real, k: Bracket, b: nat, a: nat)
    requires 0.0 <= frac < 1.0 && Bounds(frac, FRAC_MAX_DENOMINATOR, k) && WithinTie(frac, b, a)
    ensures frac - k.LoV() < TIE || k.HiV() - frac < TIE
  {
    DivReal(b, a, frac);
    if AtMost(b, a, frac) && b < a {
      DivLess(k.loB, k.loA, b, a);
    } else if AtLeast(b, a, frac) {
      DivLess(b, a, k.hiB, k.hiA);
    }
  }

  // The upper end has an encoding exactly up to 510/511. The caller admits every frac below one, so
  // a target beyond that makes it encode 1/1.
  lemma UpperEndEncodable(frac: real)
    requires 0.0 <= frac < 1.0
    ensures Pick(frac).hiB < Pick(frac).hiA <==> frac * 511.0 <= 510.0
  {
    var c := Pick(frac);
    PickIsBest(frac);
    if AtLeast(510, 511, frac) {
      assert Det(c.hiB, c.hiA, 510, 511) >= 0;
    } else if c.hiB < c.hiA {
      DivReal(c.hiB, c.hiA, frac);
      BelowOne(c.hiB, c.hiA, frac);
    }
  }

  lemma BelowOne(b: nat, a: nat, frac: real)
    requires b < a <= 511 && AtLeast(b, a, frac)
    ensures frac * 511.0 <= 510.0
  {
    var x := a as real;
    assert frac * x <= x - 1.0;
    assert (frac * 511.0 - 510.0) * x <= 0.0 by {
      assert (frac * 511.0) * x == (frac * x) * 511.0;
    }
    if frac * 511.0 - 510.0 > 0.0 {
      MulPositive(frac * 511.0 - 510.0, x);
    }
  }

  // ----- the sigma-delta

  const ONE_Q16: nat := 65536

  // Whether this tick is a hi tick, and the accumulator afterwards.
  function SdStep(dutyQ16: nat, acc: nat): (bool, nat) {
    if acc + dutyQ16 >= ONE_Q16 then (true, acc + dutyQ16 - ONE_Q16) else (false, acc + dutyQ16)
  }

  method SigmaDeltaStep(dutyQ16: nat, acc: nat) returns (hi: bool, acc': nat)
    ensures (hi, acc') == SdStep(dutyQ16, acc)
    ensures acc' + (if hi then ONE_Q16 else 0) == acc + dutyQ16
    ensures acc < ONE_Q16 && dutyQ16 <= ONE_Q16 ==> acc' < ONE_Q16
  {
    acc' := acc + dutyQ16;
    if acc' >= ONE_Q16 {
      acc' := acc' - ONE_Q16;
      return true, acc';
    }
    return false, acc';
  }

  // Hi ticks delivered, and the accumulator left, by a run of ticks whose duties may change.
  function Hits(duties: seq<nat>, acc: nat): nat {
    if duties == [] then 0
    else
      var (hi, acc') := SdStep(duties[0], acc);
      (if hi then 1 else 0) + Hits(duties[1..], acc')
  }

  function AccAfter(duties: seq<nat>, acc: nat): nat {
    if duties == [] then acc else AccAfter(duties[1..], SdStep(duties[0], acc).1)
  }

  function Total(duties: seq<nat>): nat {
    if duties == [] then 0 else duties[0] + Total(duties[1..])
  }

  ghost predicate Duties(duties: seq<nat>) {
    forall i :: 0 <= i < |duties| ==> duties[i] <= ONE_Q16
  }

  lemma {:induction false} SdConserves(duties: seq<nat>, acc: nat)
    requires acc < ONE_Q16 && Duties(duties)
    ensures AccAfter(duties, acc) < ONE_Q16
    ensures ONE_Q16 * Hits(duties, acc) + AccAfter(duties, acc) == acc + Total(duties)
  {
    if duties != [] {
      SdConserves(duties[1..], SdStep(duties[0], acc).1);
    }
  }

  // The hi ticks of every window of a run are within one of the ideal share.
  lemma {:induction false} SdWindow(duties: seq<nat>, acc: nat, i: nat, j: nat)
    requires acc < ONE_Q16 && Duties(duties) && i <= j <= |duties|
    ensures var w := duties[i..j];
      var hits := Hits(w, AccAfter(duties[..i], acc));
      -(ONE_Q16 as int) < ONE_Q16 * hits - Total(w) < ONE_Q16
  {
    SdConserves(duties[..i], acc);
    SdConserves(duties[i..j], AccAfter(duties[..i], acc));
  }

  function Constant(n: nat, d: nat): seq<nat> {
    seq(n, _ => d)
  }

  lemma {:induction false} TotalConstant(n: nat, d: nat)
    ensures Total(Constant(n, d)) == n * d
  {
    if n > 0 {
      assert Constant(n, d)[1..] == Constant(n - 1, d);
      TotalConstant(n - 1, d);
    }
  }

  function DutyQ16(duty: real): nat
    requires 0.0 <= duty
  {
    LlRound(duty * 65536.0)
  }

  lemma DutyRounding(duty: real)
    requires 0.0 <= duty <= 1.0
    ensures DutyQ16(duty) <= ONE_Q16
    ensures Abs(DutyQ16(duty) as real - duty * 65536.0) <= 0.5
  {
  }

  // Sum over n ticks of the ratio each delivers, `hits` of them at hiV.
  function Delivered(hits: nat, n: nat, loV: real, hiV: real): real {
    hits as real * hiV + (n - hits) as real * loV
  }

  // A sum over n ticks is off n times the target by less than the gap times one tick plus n / 131072.
  ghost predicate Tracks(sum: real, n: nat, target: real, gap: real) {
    Abs(sum - n as real * target) < gap * (1.0 + n as real / 131072.0)
  }

  // The dithered mean tracks the target: over n ticks the summed ratio is off by less than the gap
  // times one tick plus the duty's rounding, n / 131072.
  lemma DitheredMean(frac: real, n: nat, acc: nat)
    requires 0.0 <= frac < 1.0 && !Pick(frac).exact && acc < ONE_Q16
    ensures var c := Pick(frac);
      var hits := Hits(Constant(n, DutyQ16(c.duty)), acc);
      Tracks(Delivered(hits, n, c.loV, c.hiV), n, frac, c.hiV - c.loV)
  {
    PickMeetsTarget(frac);
    ChoiceMean(frac, Pick(frac), n, acc);
  }

  lemma ChoiceMean(frac: real, c: FracChoice, n: nat, acc: nat)
    requires MeetsTarget(frac, c) && !c.exact && acc < ONE_Q16
    ensures var hits := Hits(Constant(n, DutyQ16(c.duty)), acc);
      Tracks(Delivered(hits, n, c.loV, c.hiV), n, frac, c.hiV - c.loV)
  {
    DutyMean(c.loV, c.hiV, c.hiV - c.loV, c.duty, frac, n, acc);
  }

  lemma DutyMean(loV: real, hiV: real, gap: real, duty: real, target: real, n: nat, acc: nat)
    requires gap > 0.0 && 0.0 <= duty <= 1.0 && acc < ONE_Q16
    requires hiV == loV + gap && target == loV + duty * gap
    ensures var hits := Hits(Constant(n, DutyQ16(duty)), acc);
      Tracks(Delivered(hits, n, loV, hiV), n, target, gap)
  {
    DutyRounding(duty);
    var d := DutyQ16(duty);
    var duties := Constant(n, d);
    SdConserves(duties, acc);
    TotalConstant(n, d);
    MeanError(loV, gap, duty, d, n, Hits(duties, acc));
  }

  lemma MeanError(loV: real, gap: real, duty: real, d: nat, n: nat, hits: nat)
    requires gap > 0.0 && Abs(d as real - duty * 65536.0) <= 0.5
    requires -65536 < 65536 * hits - n * d < 65536
    ensures Tracks(Delivered(hits, n, loV, loV + gap), n, loV + duty * gap, gap)
  {
    hide Tracks, Delivered;
    var m, share := n as real, d as real / 65536.0;
    assert share * m == (n * d) as real / 65536.0 by {
      RealProduct(d, n);
    }
    ShareError(hits as real, m, share, duty, share * m, duty * m, (1.0 / 131072.0) * m);
    Spread(hits, n, loV, gap, duty);
    TracksFrom(Delivered(hits, n, loV, loV + gap), n, loV + duty * gap, gap, hits as real - duty * m);
  }

  lemma Spread(hits: nat, n: nat, loV: real, gap: real, duty: real)
    ensures Delivered(hits, n, loV, loV + gap) - n as real * (loV + duty * gap) == gap * (hits as real - duty * n as real)
  {
    var m, h := n as real, hits as real;
    assert h * (loV + gap) + (m - h) * loV == h * gap + m * loV;
    assert m * (loV + duty * gap) == m * loV + (m * duty) * gap;
  }

  lemma TracksFrom(sum: real, n: nat, target: real, gap: real, e: real)
    requires gap > 0.0 && sum - n as real * target == gap * e && Abs(e) < 1.0 + n as real / 131072.0
    ensures Tracks(sum, n, target, gap)
  {
    AbsScale(gap, e, 1.0 + n as real / 131072.0);
  }

  lemma ShareError(hits: real, m: real, share: real, duty: real, ms: real, md: real, c: real)
    requires m >= 0.0 && Abs(share - duty) <= 1.0 / 131072.0
    requires ms == share * m && md == duty * m && c == (1.0 / 131072.0) * m
    requires -1.0 < hits - ms < 1.0
    ensures Abs(hits - md) < 1.0 + c
  {
    var y := (share - duty) * m;
    MulAbs(share - duty, 1.0 / 131072.0, m, y, c);
    Distribute(share, duty, m, y, ms, md);
  }

  lemma AbsScale(k: real, x: real, y: real)
    requires k > 0.0 && Abs(x) < y
    ensures Abs(k * x) < k * y
  {
    MulPositive(k, y - x);
    MulPositive(k, y + x);
  }
}
