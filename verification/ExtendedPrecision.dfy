/** The double-precision format of EN 300 395-2 section A.5.2: a 31-bit integer is carried as
    hi * 2^15 + lo, and divided or multiplied piecewise. */
module ExtendedPrecision {
  import opened FixedPoint

  // ---- composing and splitting ----

  /** The integer a pair stands for. */
  function Paired(hi: int, lo: int): int { hi * 0x8000 + lo }

  function LComp(hi: Word16, lo: Word16): Word32 {
    AddSh(LoadSh(lo, 0), hi, 15)
  }

  function LExtract(x: Word32): (Word16, Word16) {
    var hi := ExtractH(LShl(x, 1));
    (hi, ExtractL(SubSh(x, hi, 15)))
  }

  predicate InFormat(x: int) {
    -0x4000_0000 <= x <= 0x3fff_ffff
  }

  lemma SplitParts(x: Word32, hi: int, lo: int)
    requires InFormat(x) && x == hi * 0x8000 + lo && 0 <= lo < 0x8000
    ensures LExtract(x) == (hi, lo)
  {
    assert Power(1) == 2;
    assert LShl(x, 1) == 2 * x;
    HighPart(x, hi, lo);
    assert ExtractH(2 * x) == hi;
    PowerThirty();
    AddShExact(x, hi, 15);
    assert SubSh(x, hi, 15) == lo;
  }

  lemma HighPart(x: int, hi: int, lo: int)
    requires x == hi * 0x8000 + lo && 0 <= lo < 0x8000
    ensures (2 * x) / 0x1_0000 == hi && x / 0x8000 == hi && x % 0x8000 == lo
  {
  }

  lemma ComposeValue(hi: Word16, lo: Word16)
    requires InFormat(hi * 0x8000 + lo)
    ensures LComp(hi, lo) == hi * 0x8000 + lo
  {
    PowerThirty();
    assert Power(0) == 1;
    AddShExact(0, lo, 0);
    AddShExact(lo, hi, 15);
  }

  /** Splitting and composing are inverse on the whole 31-bit format, and the low part is never negative. */
  lemma SplitIsExact(x: Word32)
    requires InFormat(x)
    ensures var (hi, lo) := LExtract(x);
            && LComp(hi, lo) == x
            && hi == x / 0x8000 && lo == x % 0x8000
  {
    var hi, lo := x / 0x8000, x % 0x8000;
    SplitParts(x, hi, lo);
    ComposeValue(hi, lo);
  }

  lemma ComposeIsExact(hi: Word16, lo: Word16, x: Word32)
    requires 0 <= lo && InFormat(hi * 0x8000 + lo)
    requires x == LComp(hi, lo)
    ensures x == hi * 0x8000 + lo && LExtract(x) == (hi, lo)
  {
    ComposeValue(hi, lo);
    SplitParts(x, hi, lo);
  }

  // ---- multiplication ----

  function MpyMix(hi1: Word16, lo1: Word16, lo2: Word16): Word32 {
    AddSh(LMult0(hi1, lo2), ExtractH(LMult0(lo1, lo2)), 1)
  }

  function Mpy32(hi1: Word16, lo1: Word16, hi2: Word16, lo2: Word16): Word32 {
    AddSh(AddSh(LMult0(hi1, hi2), ExtractH(LMult0(hi1, lo2)), 1), ExtractH(LMult0(lo1, hi2)), 1)
  }

  /** `mpy_mix` loses less than two units against the true product, and cannot saturate on
      non-negative operands. */
  lemma MpyMixError(hi: Word16, lo: Word16, m: Word16)
    requires hi >= 0 && lo >= 0 && m >= 0
    ensures var p := (hi * 0x8000 + lo) * m;
            p - 0x1_0000 < 0x8000 * MpyMix(hi, lo, m) <= p
    ensures 0 <= MpyMix(hi, lo, m)
  {
    ProductBound(hi, m, 0x7fff, 0x7fff);
    ProductBound(lo, m, 0x7fff, 0x7fff);
    NonNegativeProducts(hi, lo, m, m);
    Distribute(hi, lo, m);
    MixValue(LMult0(hi, m), LMult0(lo, m));
  }

  /** The product of a pair and a 16-bit value as `mpy_mix` forms it, when nothing saturates. */
  function Mixed(hi: int, lo: int, m: int): int { hi * m + 2 * (lo * m / 0x1_0000) }

  lemma MixIs(hi: Word16, lo: Word16, m: Word16)
    requires hi >= 0 && lo >= 0 && m >= 0
    ensures MpyMix(hi, lo, m) == Mixed(hi, lo, m)
  {
    ProductBound(hi, m, 0x7fff, 0x7fff);
    ProductBound(lo, m, 0x7fff, 0x7fff);
    NonNegativeProducts(hi, lo, m, m);
    MixValue(LMult0(hi, m), LMult0(lo, m));
  }

  /** The shift-and-add step of both products, on the partial products themselves. */
  lemma MixValue(whole: Word32, part: Word32)
    requires 0 <= whole <= 0x3fff_ffff && 0 <= part <= 0x3fff_ffff
    ensures AddSh(whole, ExtractH(part), 1) == whole + 2 * (part / 0x1_0000)
  {
    assert Power(1) == 2;
    AddShExact(whole, ExtractH(part), 1);
  }

  lemma Distribute(hi: int, lo: int, m: int)
    ensures (hi * 0x8000 + lo) * m == 0x8000 * (hi * m) + lo * m
  {
  }

  /** `mpy_32` is less than five below the true product (in units of 2^30). */
  lemma Mpy32Error(hi1: Word16, lo1: Word16, hi2: Word16, lo2: Word16)
    requires hi1 >= 0 && lo1 >= 0 && hi2 >= 0 && lo2 >= 0
    ensures var p := (hi1 * 0x8000 + lo1) * (hi2 * 0x8000 + lo2);
            p - 5 * 0x4000_0000 < 0x4000_0000 * Mpy32(hi1, lo1, hi2, lo2) <= p
    ensures 0 <= Mpy32(hi1, lo1, hi2, lo2)
  {
    var whole, left, right, low := LMult0(hi1, hi2), LMult0(hi1, lo2), LMult0(lo1, hi2), LMult0(lo1, lo2);
    ProductBound(hi1, hi2, 0x7fff, 0x7fff);
    ProductBound(hi1, lo2, 0x7fff, 0x7fff);
    ProductBound(lo1, hi2, 0x7fff, 0x7fff);
    ProductBound(lo1, lo2, 0x7fff, 0x7fff);
    NonNegativeProducts(hi1, lo1, hi2, lo2);
    TwoMixes(whole, left, right, low);
    FourProducts(hi1, lo1, hi2, lo2);
  }

  lemma TwoMixes(whole: Word32, left: Word32, right: Word32, low: Word32)
    requires 0 <= whole <= 0x3fff_0001 && 0 <= left <= 0x3fff_0001
    requires 0 <= right <= 0x3fff_0001 && 0 <= low <= 0x3fff_0001
    ensures var p := 0x4000_0000 * whole + 0x8000 * left + 0x8000 * right + low;
            p - 5 * 0x4000_0000
            < 0x4000_0000 * AddSh(AddSh(whole, ExtractH(left), 1), ExtractH(right), 1) <= p
    ensures 0 <= AddSh(AddSh(whole, ExtractH(left), 1), ExtractH(right), 1)
  {
    MixValue(whole, left);
    MixValue(AddSh(whole, ExtractH(left), 1), right);
  }

  lemma FourProducts(a: int, b: int, c: int, d: int)
    ensures (a * 0x8000 + b) * (c * 0x8000 + d)
            == 0x4000_0000 * (a * c) + 0x8000 * (a * d) + 0x8000 * (b * c) + b * d
  {
    var e := c * 0x8000 + d;
    Distribute(a, b, e);
    assert a * e == 0x8000 * (a * c) + a * d;
    assert b * e == 0x8000 * (b * c) + b * d;
  }

  lemma NonNegativeProducts(a: int, b: int, c: int, d: int)
    requires a >= 0 && b >= 0 && c >= 0 && d >= 0
    ensures a * c >= 0 && a * d >= 0 && b * c >= 0 && b * d >= 0
  {
    MulOrder(0, a, c);
    MulOrder(0, a, d);
    MulOrder(0, b, c);
    MulOrder(0, b, d);
  }

  // ---- division ----

  /** What `div_s` promises: the quotient in Q15, one less than 1.0 when the operands are equal, and 0 for
      the operands it rejects. */
  function DivS(num: Word16, den: Word16): Word16 {
    if num > den || num < 0 || den <= 0 then 0
    else if num == den then 0x7fff
    else
      QuotientRange(num, den);
      (num * 0x8000) / den
  }

  lemma QuotientRange(num: int, den: int)
    requires 0 <= num < den <= 0x7fff
    ensures 0 <= num * 0x8000 / den < 0x8000
  {
    DivisionBounds(num * 0x8000, den);
    var q := num * 0x8000 / den;
    if q >= 0x8000 {
      MulOrder(0x8000, q, den);
    }
    if q < 0 {
      MulOrder(q, -1, den);
    }
  }

  /** `div_s`: fifteen shift-and-subtract steps give exactly the floor of the quotient. */
  method DivSLoop(num: Word16, den: Word16) returns (quotient: Word16)
    ensures quotient == DivS(num, den)
  {
    if num > den || num < 0 || den < 0 {
      return 0;
    }
    if den == 0 {
      return 0;
    }
    if num == 0 {
      assert 0 / den == 0 by { DivisionBounds(0, den); FloorWithin(0, den); }
      return 0;
    }
    if num == den {
      return 0x7fff;
    }
    var rest: Word32 := num;
    quotient := 0;
    for iteration := 0 to 15
      invariant 0 <= rest < den
      invariant 0 <= quotient < Power(iteration)
      invariant num * Power(iteration) == quotient * den + rest
    {
      ghost var q0 := quotient;
      PowerMonotone(iteration, 14);
      assert Power(14) == 0x4000;
      DoubleEquation(num, Power(iteration), quotient, den, rest);
      quotient := quotient * 2;
      rest := rest * 2;
      if rest >= den {
        rest := LSub(rest, den);
        quotient := Add(quotient, 1);
        NextMultiple(den, 2 * q0);
      }
    }
    PowerThirty();
    UniqueQuotient(num * 0x8000, den, quotient, rest);
  }

  lemma DoubleEquation(num: int, p: int, q: int, den: int, r: int)
    requires num * p == q * den + r
    ensures num * (2 * p) == (2 * q) * den + 2 * r
  {
    TwiceProduct(num, p);
    TwiceProduct(q, den);
  }

  lemma UniqueQuotient(n: int, den: int, q: int, r: int)
    requires 0 <= r < den && n == q * den + r
    ensures n / den == q
  {
    DivisionBounds(n, den);
    var k := n / den;
    Commute(den, k);
    if k < q {
      MulOrder(k + 1, q, den);
    } else if k > q {
      MulOrder(q + 1, k, den);
    }
  }

  /** The reciprocal of the divisor in Q28: one Newton step from a 15-bit estimate. */
  function Reciprocal(denHi: Word16, denLo: Word16): Word32 {
    var approx := DivS(0x3fff, denHi);
    var (hi, lo) := LExtract(LSub(0x4000_0000, MpyMix(denHi, denLo, approx)));
    MpyMix(hi, lo, approx)
  }

  /** The numerator times the reciprocal, in Q28. */
  function QuotientQ28(num: Word32, denHi: Word16, denLo: Word16): Word32 {
    var (hi, lo) := LExtract(Reciprocal(denHi, denLo));
    var (nhi, nlo) := LExtract(num);
    Mpy32(nhi, nlo, hi, lo)
  }

  /** `div_32`: from Q28 to Q30. */
  function Div32(num: Word32, denHi: Word16, denLo: Word16): Word32 {
    LShl(QuotientQ28(num, denHi, denLo), 2)
  }

  /** The reciprocal estimate times the divisor is just below 2^44. */
  lemma ReciprocalEstimate(hi: int, lo: int, a: int)
    requires 0x4000 <= hi <= 0x7fff && 0 <= lo <= 0x7fff
    requires a == 0x3fff * 0x8000 / hi
    ensures 0 <= a <= 0x7fff
    ensures 0x1000_0000_0000 - 0x8000_0000 < (hi * 0x8000 + lo) * a < 0x1000_0000_0000
  {
    var n := 0x3fff * 0x8000;
    DivisionBounds(n, hi);
    FloorWithin(n, hi);
    Commute(hi, a);
    if a > 0x7fff {
      MulOrder(0x8000, a, hi);
    }
    var r := n - hi * a;
    Distribute(hi, lo, a);
    ProductBound(lo, a, 0x7fff, 0x7fff);
    MulOrder(0, lo, a);
    // lo * a <= 2 * hi * a, because lo <= 0x7fff < 2 * hi
    MulOrder(lo, 2 * hi - 1, a);
    assert (2 * hi - 1) * a == 2 * (hi * a) - a;
  }

  /** Squaring the relative error: u estimates (2 - D*a) and X = u*a estimates 1/D. */
  lemma NewtonStep(d: int, a: int, t: int, u: int, x: int)
    requires 0 <= a <= 0x7fff && 0 < d < 0x4000_0000
    requires 0x1000_0000_0000 - 0x8000_0000 < d * a < 0x1000_0000_0000
    requires d * a - 0x1_0000 < 0x8000 * t <= d * a
    requires u == 0x4000_0000 - t
    requires u * a - 0x1_0000 < 0x8000 * x <= u * a
    ensures 0x400_0000_0000_0000 - 3 * 0x8000_0000 < x * d < 0x400_0000_0000_0000 + 0x4000_0000
  {
    var p := d * a;
    SquaredError(p);
    var w := u * p;
    ScaledOrder(0x2000_0000_0000 - p, 0x8000 * u, 0x2000_0000_0000 - p + 0x1_0000, p);
    assert (0x8000 * u) * p == 0x8000 * w;
    assert (0x2000_0000_0000 - p + 0x1_0000) * p == (0x2000_0000_0000 - p) * p + 0x1_0000 * p;
    TripleProduct(u, a, d);
    ScaledOrder(u * a - 0x1_0000, 0x8000 * x, u * a, d);
    assert (u * a - 0x1_0000) * d == w - 0x1_0000 * d;
    assert (0x8000 * x) * d == 0x8000 * (x * d);
  }

  /** (2^45 - p) * p == 2^88 - e^2 with e == 2^44 - p. */
  lemma SquaredError(p: int)
    requires 0x1000_0000_0000 - 0x8000_0000 < p < 0x1000_0000_0000
    ensures 0x1000_0000_0000 * 0x1000_0000_0000 - 0x8000_0000 * 0x8000_0000
            <= (0x2000_0000_0000 - p) * p <= 0x1000_0000_0000 * 0x1000_0000_0000
  {
    var e := 0x1000_0000_0000 - p;
    assert (0x2000_0000_0000 - p) * p == 0x1000_0000_0000 * 0x1000_0000_0000 - e * e;
    ProductBound(e, e, 0x8000_0000, 0x8000_0000);
    MulOrder(0, e, e);
  }

  lemma ScaledOrder(a: int, b: int, c: int, k: int)
    requires a <= b <= c && 0 <= k
    ensures a * k <= b * k <= c * k
  {
    MulOrder(a, b, k);
    MulOrder(b, c, k);
  }

  lemma TripleProduct(u: int, a: int, d: int)
    ensures (u * a) * d == u * (d * a)
  {
  }

  /** Scaling the reciprocal by the numerator. */
  lemma ScaleReciprocal(num: int, d: int, x: int, r: int)
    requires 0 <= num <= d < 0x4000_0000
    requires 0x400_0000_0000_0000 - 3 * 0x8000_0000 < x * d < 0x400_0000_0000_0000 + 0x4000_0000
    requires num * x - 5 * 0x4000_0000 < 0x4000_0000 * r <= num * x
    ensures -44 * d < (4 * r) * d - num * 0x4000_0000 <= 4 * d
  {
    var xd := x * d;
    MulOrder(num * x - 5 * 0x4000_0000 + 1, 0x4000_0000 * r, d);
    MulOrder(0x4000_0000 * r, num * x, d);
    TripleProduct(num, x, d);
    Commute(d, x);
    MulOrder(xd, 0x400_0000_0000_0000 + 0x4000_0000, num);
    MulOrder(0x400_0000_0000_0000 - 3 * 0x8000_0000, xd, num);
    Commute(num, xd);
    assert (num * x - 5 * 0x4000_0000 + 1) * d == num * xd - (5 * 0x4000_0000 - 1) * d;
    assert (0x4000_0000 * r) * d == 0x4000_0000 * (r * d);
    assert (4 * r) * d == 4 * (r * d);
  }

  /** The estimate times the divisor, and what the subtraction makes of it. */
  lemma EstimateFits(denHi: Word16, denLo: Word16)
    requires 0x4000 <= denHi && 0 <= denLo
    ensures var a := DivS(0x3fff, denHi);
            && 0 <= a && a == 0x3fff * 0x8000 / denHi
            && var t := MpyMix(denHi, denLo, a);
               0x1fff_0000 <= LSub(0x4000_0000, t) == 0x4000_0000 - t <= 0x2001_0002
  {
    hide MpyMix;
    var a := DivS(0x3fff, denHi);
    ReciprocalEstimate(denHi, denLo, a);
    MpyMixError(denHi, denLo, a);
  }

  /** No step of the reciprocal saturates: both products and the subtraction between them are exact. */
  lemma NothingSaturates(denHi: Word16, denLo: Word16)
    requires 0x4000 <= denHi && 0 <= denLo
    ensures var a := 0x3fff * 0x8000 / denHi;
            var u := 0x4000_0000 - Mixed(denHi, denLo, a);
            && 0 <= u && InFormat(u)
            && Reciprocal(denHi, denLo) == Mixed(u / 0x8000, u % 0x8000, a)
  {
    hide MpyMix, LExtract, LComp, Mixed, DivS;
    EstimateFits(denHi, denLo);
    var a := DivS(0x3fff, denHi);
    MixIs(denHi, denLo, a);
    var u := LSub(0x4000_0000, MpyMix(denHi, denLo, a));
    SplitIsExact(u);
    MixIs(u / 0x8000, u % 0x8000, a);
  }

  /** The reciprocal is 2^58 / d within the Newton bound. */
  lemma ReciprocalAccuracy(denHi: Word16, denLo: Word16)
    requires 0x4000 <= denHi && 0 <= denLo
    ensures var x, d := Reciprocal(denHi, denLo), denHi * 0x8000 + denLo;
            && 0 <= x && InFormat(x)
            && 0x400_0000_0000_0000 - 3 * 0x8000_0000 < x * d < 0x400_0000_0000_0000 + 0x4000_0000
  {
    hide MpyMix, LExtract, LComp, DivS;
    var d := denHi * 0x8000 + denLo;
    var a := DivS(0x3fff, denHi);
    EstimateFits(denHi, denLo);
    ReciprocalEstimate(denHi, denLo, a);
    var t := MpyMix(denHi, denLo, a);
    MpyMixError(denHi, denLo, a);
    var u := LSub(0x4000_0000, t);
    var (hi, lo) := LExtract(u);
    SplitIsExact(u);
    var x := MpyMix(hi, lo, a);
    MpyMixError(hi, lo, a);
    assert hi * 0x8000 + lo == u;
    ReciprocalInFormat(u, a, x);
    NewtonStep(d, a, t, u, x);
  }

  lemma ReciprocalInFormat(u: int, a: int, x: int)
    requires 0x1fff_0000 <= u <= 0x2001_0002 && 0 <= a <= 0x7fff
    requires u * a - 0x1_0000 < 0x8000 * x <= u * a
    ensures -2 < x <= 0x3fff_ffff
  {
    ProductBound(u, a, 0x2001_0002, 0x7fff);
    MulOrder(0, u, a);
  }

  /** `div_32` has 24 bits of precision: the Q30 result is less than 44 units below and at most 4 units
      above the true quotient, and the final shift does not saturate. */
  lemma Div32Accuracy(num: Word32, denHi: Word16, denLo: Word16)
    requires 0x4000 <= denHi && 0 <= denLo
    requires 0 <= num <= denHi * 0x8000 + denLo
    ensures var d := denHi * 0x8000 + denLo;
            -44 * d < Div32(num, denHi, denLo) * d - num * 0x4000_0000 <= 4 * d
    ensures Div32(num, denHi, denLo) == 4 * QuotientQ28(num, denHi, denLo)
    ensures 0 <= Div32(num, denHi, denLo) <= 0x4000_0004
    ensures num < denHi * 0x8000 + denLo ==> Div32(num, denHi, denLo) <= 0x4000_0003
  {
    hide Power, Pow2Entry, Reciprocal, Mpy32, LExtract, LComp, LShl;
    var d := denHi * 0x8000 + denLo;
    ReciprocalAccuracy(denHi, denLo);
    var x := Reciprocal(denHi, denLo);
    var (hi, lo) := LExtract(x);
    var (nhi, nlo) := LExtract(num);
    SplitIsExact(x);
    SplitIsExact(num);
    var r := Mpy32(nhi, nlo, hi, lo);
    Mpy32Error(nhi, nlo, hi, lo);
    assert nhi * 0x8000 + nlo == num && hi * 0x8000 + lo == x;
    ScaleReciprocal(num, d, x, r);
    FinalShift(num, d, r);
  }

  lemma FinalShift(num: int, d: int, r: Word32)
    requires 0 <= num <= d && 0 < d && 0 <= r
    requires (4 * r) * d - num * 0x4000_0000 <= 4 * d
    ensures 4 * r <= 0x4000_0004 && (num < d ==> 4 * r <= 0x4000_0003)
    ensures LShl(r, 2) == 4 * r
  {
    if 4 * r >= 0x4000_0005 {
      MulOrder(0x4000_0005, 4 * r, d);
    }
    if num < d && 4 * r >= 0x4000_0004 {
      MulOrder(0x4000_0004, 4 * r, d);
    }
    assert Power(2) == 4;
    LShlExact(r, 2);
  }
}
