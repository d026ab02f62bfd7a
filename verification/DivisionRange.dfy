/** When the long division keeps to its documented range. The result is exactly 1.0, one above the largest
    fraction, for some numerators equal to the denominator or one less, and for no others. */
module DivisionRange {
  import opened FixedPoint
  import opened ExtendedPrecision

  /** What a denominator's reciprocal leaves over: the 15-bit estimate a; the floor f and remainder rho of
      lo * a; the distance s of the first product below one half; the floor g and remainder eps of s * a. */
  datatype Trace = Trace(a: int, f: int, rho: int, s: int, g: int, eps: int)

  function TraceOf(hi: int, lo: int): Trace
    requires hi > 0
  {
    var a := 0x1fff_8000 / hi;
    var f, rho := lo * a / 0x1_0000, lo * a % 0x1_0000;
    var s := 0x8000 + 0x1fff_8000 % hi - 2 * f;
    Trace(a, f, rho, s, s * a / 0x1_0000, s * a % 0x1_0000)
  }

  /** The condition, for a numerator j below the denominator: the estimate and f are odd, the low parts carry
      twice, and the remainders together stay below one unit of the quotient. */
  predicate Overruns(hi: int, lo: int, j: int)
    requires hi > 0
  {
    var t := TraceOf(hi, lo);
    && t.a % 2 == 1 && t.f % 2 == 1
    && t.s < 0x8000 && 2 * t.g >= 0x4000
    && t.rho + lo >= 0x1_0000 + j * (t.a + 1)
    && Remainders(hi, lo, j, t) <= 0x2000_0000_0000
  }

  function Remainders(hi: int, lo: int, j: int, t: Trace): int {
    var d := hi * 0x8000 + lo;
    0x8000 * (t.s * t.s) + t.eps * (d - j) + 0x4000_0000 * (hi * (2 * t.g - 0x4000) % 0x1_0000)
    + 0x1_0000 * ((lo - j) * t.g) - (t.rho - j * t.a) * t.s
  }

  // ---- the reciprocal, exactly ----

  /** The products behind a trace. */
  ghost predicate Traced(hi: int, lo: int, t: Trace) {
    lo * t.a == 0x1_0000 * t.f + t.rho && hi * t.a == 0x2000_0000 - t.s - 2 * t.f
  }

  lemma TraceFacts(hi: int, lo: int)
    requires 0x4000 <= hi <= 0x7fff && 0 <= lo <= 0x7fff
    ensures var t := TraceOf(hi, lo);
            && Traced(hi, lo, t)
            && 16383 <= t.a <= 32766 && 3 <= t.s <= 0x8000 + hi && 0 <= t.f <= 0x3fff && 0 <= t.rho < 0x1_0000
            && (lo <= 2 ==> t.s >= 0x8000)
  {
    var n := 0x1fff_8000;
    var a := n / hi;
    DivisionBounds(n, hi);
    assert n % hi == n - hi * a;
    if a < 16383 {
      MulOrder(a, 16382, hi);
      Commute(hi, a);
    }
    if a > 32766 {
      MulOrder(32767, a, hi);
      Commute(hi, a);
    }
    LowProduct(lo, a);
  }

  lemma LowProduct(lo: int, a: int)
    requires 0 <= lo <= 0x7fff && 16383 <= a <= 32766
    ensures var f := lo * a / 0x1_0000;
            0 <= f <= 0x3fff && 2 * f < a && lo * a == 0x1_0000 * f + lo * a % 0x1_0000 && (lo <= 2 ==> f == 0)
  {
    MulOrder(0, lo, a);
    MulOrder(lo, 0x7fff, a);
    if lo <= 2 {
      MulOrder(lo, 2, a);
    }
  }

  /** u is the corrected estimate, 0x8000 * x == u * a up to a remainder. */
  lemma ReciprocalIs(hi: Word16, lo: Word16)
    requires 0x4000 <= hi && 0 <= lo
    ensures var t, x := TraceOf(hi, lo), Reciprocal(hi, lo);
            var u := 0x2000_0000 + t.s;
            && 0 <= x && InFormat(x)
            && x == u / 0x8000 * t.a + 2 * (u % 0x8000 * t.a / 0x1_0000)
  {
    TraceFacts(hi, lo);
    ReciprocalAccuracy(hi, lo);
    var t := TraceOf(hi, lo);
    EstimateIs(hi);
    MixIs(hi, lo, t.a);
    var u: Word32 := 0x2000_0000 + t.s;
    SplitIsExact(u);
    MixIs(u / 0x8000, u % 0x8000, t.a);
  }

  lemma EstimateIs(hi: Word16)
    requires 0x4000 <= hi
    ensures DivS(0x3fff, hi) == 0x1fff_8000 / hi
  {
  }

  /** The Q28 quotient, exactly, from the halves of numerator and reciprocal. */
  lemma QuotientIs(num: Word32, hi: Word16, lo: Word16)
    requires 0x4000 <= hi && 0 <= lo && 0 <= num <= hi * 0x8000 + lo
    ensures var x := Reciprocal(hi, lo);
            && 0 <= x && InFormat(x)
            && QuotientQ28(num, hi, lo) == Product(High(num), Low(num), High(x), Low(x))
  {
    hide Reciprocal, Power, Pow2Entry, AddSh, LComp;
    ReciprocalAccuracy(hi, lo);
    var x := Reciprocal(hi, lo);
    SplitIsExact(x);
    SplitIsExact(num);
    var nh, nl, xh, xl := num / 0x8000, num % 0x8000, x / 0x8000, x % 0x8000;
    ProductBound(nh, xh, 0x7fff, 0x7fff);
    ProductBound(nh, xl, 0x7fff, 0x7fff);
    ProductBound(nl, xh, 0x7fff, 0x7fff);
    NonNegativeProducts(nh, nl, xh, xl);
    MixValue(LMult0(nh, xh), LMult0(nh, xl));
    MixValue(AddSh(LMult0(nh, xh), ExtractH(LMult0(nh, xl)), 1), LMult0(nl, xh));
  }

  function Product(nh: int, nl: int, xh: int, xl: int): int {
    nh * xh + 2 * (nh * xl / 0x1_0000) + 2 * (nl * xh / 0x1_0000)
  }

  // ---- how far the quotient is from one ----

  function High(x: int): int { x / 0x8000 }

  function Low(x: int): int { x % 0x8000 }

  /** The corrected estimate, whose product with a is the reciprocal, and the remainder of that product. */
  function Corrected(t: Trace): int { 0x2000_0000 + t.s }

  function Left(t: Trace): int { Low(Corrected(t)) * t.a % 0x1_0000 }

  /** The part of the reciprocal beyond 0x4000 * a. */
  function Beyond(hi: Word16, lo: Word16): int
    requires 0 < hi
  {
    Reciprocal(hi, lo) - 0x4000 * TraceOf(hi, lo).a
  }

  /** d * a falls short of 2^44 by 0x8000 * s, less rho. */
  lemma DenominatorTimes(hi: int, lo: int, t: Trace)
    requires Traced(hi, lo, t)
    ensures Times(hi * 0x8000 + lo, t.a) == 0x1000_0000_0000 - 0x8000 * t.s + t.rho
  {
    Distribute(hi, lo, t.a);
  }

  /** The reciprocal from the halves of u. */
  lemma ScaledReciprocal(u: int, a: int, x: int)
    requires x == u / 0x8000 * a + 2 * (u % 0x8000 * a / 0x1_0000)
    ensures 0x8000 * x == u * a - u % 0x8000 * a % 0x1_0000
  {
    var uh, ul := u / 0x8000, u % 0x8000;
    assert u == uh * 0x8000 + ul;
    Distribute(uh, ul, a);
    var low := ul * a;
    assert low == 0x1_0000 * (low / 0x1_0000) + low % 0x1_0000;
  }

  /** n times the reciprocal, for n == d - j. */
  lemma NumeratorTimes(d: int, j: int, t: Trace, u: int, x: int, eps: int)
    requires Times(d, t.a) == 0x1000_0000_0000 - 0x8000 * t.s + t.rho
    requires u == 0x2000_0000 + t.s && 0x8000 * x == u * t.a - eps
    ensures 0x8000 * ((d - j) * x)
            == 0x200_0000_0000_0000_0000 - 0x8000 * (t.s * t.s) + u * (t.rho - j * t.a) - eps * (d - j)
  {
    var n, v := d - j, t.rho - j * t.a;
    assert n * t.a == 0x8000 * (0x2000_0000 - t.s) + v by {
      Minus(d, j, t.a);
    }
    assert 0x8000 * (n * x) == n * (0x8000 * x) by { Regroup(n, x); }
    assert n * (u * t.a - eps) == n * (u * t.a) - n * eps by { Spread(n, u * t.a, eps); }
    assert n * (u * t.a) == u * (n * t.a) by { Rotate(n, u, t.a); }
    assert u * (0x8000 * (0x2000_0000 - t.s) + v) == u * (0x8000 * (0x2000_0000 - t.s)) + u * v by {
      Spread(u, 0x8000 * (0x2000_0000 - t.s), -v);
    }
    Squares(t.s);
    Commute(n, eps);
  }

  lemma Minus(d: int, j: int, a: int)
    ensures (d - j) * a == d * a - j * a
  {
  }

  lemma Spread(n: int, a: int, b: int)
    ensures n * (a - b) == n * a - n * b && n * -b == -(n * b)
  {
  }

  lemma Regroup(n: int, x: int)
    ensures 0x8000 * (n * x) == n * (0x8000 * x)
  {
  }

  lemma Rotate(a: int, b: int, c: int)
    ensures a * (b * c) == b * (a * c)
  {
  }

  lemma Squares(s: int)
    ensures (0x2000_0000 + s) * (0x8000 * (0x2000_0000 - s)) == 0x200_0000_0000_0000_0000 - 0x8000 * (s * s)
  {
  }

  /** What the truncations of the product lose. */
  function Lost(nh: int, nl: int, xh: int, xl: int): int {
    0x8000 * (nh * xl % 0x1_0000 + nl * xh % 0x1_0000) + nl * xl
  }

  lemma ProductLoses(nh: int, nl: int, xh: int, xl: int)
    ensures 0x4000_0000 * Product(nh, nl, xh, xl)
            == Times(nh * 0x8000 + nl, xh * 0x8000 + xl) - Lost(nh, nl, xh, xl)
  {
    FourProducts(nh, nl, xh, xl);
    var p, q := nh * xl, nl * xh;
    assert p == 0x1_0000 * (p / 0x1_0000) + p % 0x1_0000;
    assert q == 0x1_0000 * (q / 0x1_0000) + q % 0x1_0000;
  }

  /** The quotient against 2^28, with every remainder accounted for. */
  lemma Excess(num: Word32, hi: Word16, lo: Word16, j: int)
    requires 0x4000 <= hi && 0 <= lo && 0 <= j && num == hi * 0x8000 + lo - j && 0 <= num
    ensures var t, x := TraceOf(hi, lo), Reciprocal(hi, lo);
            0x2000_0000_0000 * QuotientQ28(num, hi, lo)
            == 0x200_0000_0000_0000_0000 - 0x8000 * Times(t.s, t.s)
               + Times(Corrected(t), t.rho - Times(j, t.a)) - Times(Left(t), num)
               - 0x8000 * Lost(High(num), Low(num), High(x), Low(x))
  {
    hide *;
    var t, x := TraceOf(hi, lo), Reciprocal(hi, lo);
    ReciprocalHalves(hi, lo);
    QuotientHalves(num, hi, lo);
    ExcessOf(hi * 0x8000 + lo, j, t, x, num, QuotientQ28(num, hi, lo));
  }

  lemma ReciprocalHalves(hi: Word16, lo: Word16)
    requires 0x4000 <= hi && 0 <= lo
    ensures var t, x := TraceOf(hi, lo), Reciprocal(hi, lo);
            0 <= x && 0x8000 * x == Times(Corrected(t), t.a) - Left(t)
    ensures var t := TraceOf(hi, lo);
            Times(hi * 0x8000 + lo, t.a) == 0x1000_0000_0000 - 0x8000 * t.s + t.rho
  {
    hide TraceOf, Reciprocal;
    var t, x := TraceOf(hi, lo), Reciprocal(hi, lo);
    TraceFacts(hi, lo);
    ReciprocalIs(hi, lo);
    ScaledReciprocal(Corrected(t), t.a, x);
    DenominatorTimes(hi, lo, t);
  }

  lemma QuotientHalves(num: Word32, hi: Word16, lo: Word16)
    requires 0x4000 <= hi && 0 <= lo && 0 <= num <= hi * 0x8000 + lo
    ensures var x := Reciprocal(hi, lo);
            0x4000_0000 * QuotientQ28(num, hi, lo) == Times(num, x) - Lost(High(num), Low(num), High(x), Low(x))
  {
    hide *;
    var x := Reciprocal(hi, lo);
    QuotientIs(num, hi, lo);
    ProductLoses(High(num), Low(num), High(x), Low(x));
    Rejoined(num);
    Rejoined(x);
  }

  lemma Rejoined(x: int)
    ensures x == High(x) * 0x8000 + Low(x) && 0 <= Low(x) < 0x8000
  {
  }

  lemma SplitNumerator(num: int, hi: int, nl: int)
    requires num == hi * 0x8000 + nl && 0 <= nl < 0x8000
    ensures High(num) == hi && Low(num) == nl
  {
  }

  lemma ExcessOf(d: int, j: int, t: Trace, x: int, num: int, m: int)
    requires num == d - j && 0x8000 * x == Times(Corrected(t), t.a) - Left(t)
    requires Times(d, t.a) == 0x1000_0000_0000 - 0x8000 * t.s + t.rho
    requires 0x4000_0000 * m == Times(num, x) - Lost(High(num), Low(num), High(x), Low(x))
    ensures 0x2000_0000_0000 * m
            == 0x200_0000_0000_0000_0000 - 0x8000 * Times(t.s, t.s)
               + Times(Corrected(t), t.rho - Times(j, t.a)) - Times(Left(t), num)
               - 0x8000 * Lost(High(num), Low(num), High(x), Low(x))
  {
    hide *;
    NumeratorTimesIs(d, j, t, x);
  }

  lemma NumeratorTimesIs(d: int, j: int, t: Trace, x: int)
    requires 0x8000 * x == Times(Corrected(t), t.a) - Left(t)
    requires Times(d, t.a) == 0x1000_0000_0000 - 0x8000 * t.s + t.rho
    ensures 0x8000 * Times(d - j, x)
            == 0x200_0000_0000_0000_0000 - 0x8000 * Times(t.s, t.s)
               + Times(Corrected(t), t.rho - Times(j, t.a)) - Times(Left(t), d - j)
  {
    hide Left;
    NumeratorTimes(d, j, t, Corrected(t), x, Left(t));
  }

  // ---- in units of the quotient ----

  lemma ReciprocalBeyond(hi: Word16, lo: Word16)
    requires 0x4000 <= hi && 0 <= lo && TraceOf(hi, lo).s <= 0x8000
    ensures var t := TraceOf(hi, lo);
            && 0 <= Beyond(hi, lo) <= t.a && 0 <= Left(t) < 0x1_0000
            && (if t.s < 0x8000 then Beyond(hi, lo) == 2 * t.g && Left(t) == t.eps
                else Beyond(hi, lo) == t.a && Left(t) == 0)
  {
    hide Reciprocal;
    TraceFacts(hi, lo);
    ReciprocalIs(hi, lo);
    var t := TraceOf(hi, lo);
    var u := Corrected(t);
    if t.s < 0x8000 {
      assert u / 0x8000 == 0x4000 && u % 0x8000 == t.s;
      MulOrder(t.s, 0x8000, t.a);
      MulOrder(0, t.s, t.a);
    } else {
      assert u / 0x8000 == 0x4001 && u % 0x8000 == 0;
    }
  }

  lemma BeyondIs(hi: Word16, lo: Word16)
    requires 0 < hi
    ensures Beyond(hi, lo) == Reciprocal(hi, lo) - 0x4000 * TraceOf(hi, lo).a
  {
  }

  lemma LeanIs(t: Trace, x: int)
    ensures Lean(t, x) == 2 * High(x) - t.a
  {
  }

  /** Twice the high half of the reciprocal is a, or one less, or one more. */
  function Lean(t: Trace, x: int): int { 2 * High(x) - t.a }

  lemma Halves(x: int, t: Trace, beyond: int)
    requires 0 <= t.a <= 0x7fff && 0 <= beyond <= t.a && beyond == x - 0x4000 * t.a
    ensures -1 <= Lean(t, x) <= 1 && Low(x) == beyond - 0x4000 * Lean(t, x)
    ensures Lean(t, x) == 1 <==> t.a % 2 == 1 && beyond >= 0x4000
  {
  }

  /** The product of the low half, doubled, in terms of lo * a. */
  lemma LowTimesHigh(hi: int, lo: int, j: int, t: Trace, xh: int)
    requires Traced(hi, lo, t)
    ensures var c := 2 * xh - t.a;
            2 * Times(lo - j, xh) == 0x1_0000 * t.f + t.rho - Times(j, t.a) + Times(c, lo - j)
  {
    var c := 2 * xh - t.a;
    assert 2 * ((lo - j) * xh) == (lo - j) * (t.a + c) by { TwiceProduct(lo - j, xh); }
    Minus(lo, j, t.a);
    Spread(lo - j, t.a, -c);
    Commute(lo - j, c);
  }

  /** The remainders, for either size of s. */
  function Spent(hi: int, lo: int, j: int, t: Trace, beyond: int, eps: int, xl: int): int {
    0x8000 * Times(t.s, t.s) + Times(eps, hi * 0x8000 + lo - j) + 0x4000_0000 * (hi * xl % 0x1_0000)
    + 0x8000 * Times(lo - j, beyond) - Times(t.rho - Times(j, t.a), t.s)
  }

  /** They are never nothing. */
  lemma SpentIsPositive(hi: int, lo: int, j: int, t: Trace, beyond: int, eps: int, xl: int)
    requires 0 <= j <= lo && 0 <= hi && 0 <= eps && 0 <= beyond && 3 <= t.s && 0 <= t.a && t.rho < 0x1_0000
    ensures Spent(hi, lo, j, t, beyond, eps, xl) > 0
  {
    var v := t.rho - j * t.a;
    MulOrder(0, j, t.a);
    MulOrder(v, 0xffff, t.s);
    MulOrder(3, t.s, t.s);
    assert 0x8000 * (t.s * t.s) >= 0x8000 * (3 * t.s);
    MulOrder(0, eps, hi * 0x8000 + lo - j);
    MulOrder(0, lo - j, beyond);
  }

  /** Whether the low halves carry into the quotient. */
  function Carry(lo: int, j: int, t: Trace, xh: int): int {
    2 * (Times(lo - j, xh) / 0x1_0000) - t.f
  }

  function LowRest(lo: int, j: int, xh: int): int {
    Times(lo - j, xh) % 0x1_0000
  }

  /** The excess of the quotient is a whole carry less the remainders. */
  lemma CarryLessSpent(num: Word32, hi: Word16, lo: Word16, j: int)
    requires 0x4000 <= hi && 0 <= j <= lo && num == hi * 0x8000 + lo - j && TraceOf(hi, lo).s <= 0x8000
    ensures var t, x := TraceOf(hi, lo), Reciprocal(hi, lo);
            && 0x1_0000 * Carry(lo, j, t, High(x))
               == t.rho - Times(j, t.a) + Times(Lean(t, x), lo - j) - 2 * LowRest(lo, j, High(x))
            && 0x2000_0000_0000 * (QuotientQ28(num, hi, lo) - 0x1000_0000)
               == 0x2000_0000_0000 * Carry(lo, j, t, High(x))
                  - Spent(hi, lo, j, t, Beyond(hi, lo), Left(t), Low(x))
  {
    hide *;
    var t, x := TraceOf(hi, lo), Reciprocal(hi, lo);
    Excess(num, hi, lo, j);
    TraceFacts(hi, lo);
    ReciprocalBeyond(hi, lo);
    SplitNumerator(num, hi, lo - j);
    BeyondIs(hi, lo);
    Halves(x, t, Beyond(hi, lo));
    LeanIs(t, x);
    CollectTerms(hi, lo, j, t, Beyond(hi, lo), Left(t), High(x), Low(x), num, QuotientQ28(num, hi, lo));
  }

  lemma CollectTerms(hi: int, lo: int, j: int, t: Trace, beyond: int, eps: int, xh: int, xl: int, num: int, m: int)
    requires num == hi * 0x8000 + lo - j && xl == beyond - 0x4000 * (2 * xh - t.a)
    requires Traced(hi, lo, t)
    requires 0x2000_0000_0000 * m
             == 0x200_0000_0000_0000_0000 - 0x8000 * Times(t.s, t.s)
                + Times(Corrected(t), t.rho - Times(j, t.a)) - Times(eps, num)
                - 0x8000 * Lost(hi, lo - j, xh, xl)
    ensures 0x1_0000 * Carry(lo, j, t, xh)
            == t.rho - Times(j, t.a) + Times(2 * xh - t.a, lo - j) - 2 * LowRest(lo, j, xh)
    ensures 0x2000_0000_0000 * (m - 0x1000_0000)
            == 0x2000_0000_0000 * Carry(lo, j, t, xh) - Spent(hi, lo, j, t, beyond, eps, xl)
  {
    var c, nl, v := 2 * xh - t.a, lo - j, t.rho - Times(j, t.a);
    LowTimesHigh(hi, lo, j, t, xh);
    var p := Times(nl, xh);
    assert p == 0x1_0000 * (p / 0x1_0000) + p % 0x1_0000;
    assert nl * xl == Times(nl, beyond) - 0x4000 * Times(c, nl) by { LowPart(nl, beyond, c); }
    assert Times(Corrected(t), v) == 0x2000_0000 * v + Times(v, t.s) by { TimesCorrected(t.s, v); }
    assert Lost(hi, nl, xh, xl) == 0x8000 * (hi * xl % 0x1_0000 + p % 0x1_0000) + nl * xl;
    hide Times;
  }

  lemma LowPart(n: int, beyond: int, c: int)
    ensures n * (beyond - 0x4000 * c) == n * beyond - 0x4000 * (c * n)
  {
  }

  lemma TimesCorrected(s: int, v: int)
    ensures (0x2000_0000 + s) * v == 0x2000_0000 * v + v * s
  {
  }

  // ---- the range ----

  /** A first product too far below one half leaves the quotient below one. */
  lemma FarBelow(num: Word32, hi: Word16, lo: Word16, j: int)
    requires 0x4000 <= hi && 0 <= lo && 0 <= j && num == hi * 0x8000 + lo - j && 0 <= num
    requires TraceOf(hi, lo).s > 0x8000 || (TraceOf(hi, lo).s == 0x8000 && j >= 1)
    ensures QuotientQ28(num, hi, lo) < 0x1000_0000
  {
    hide *;
    var t, x := TraceOf(hi, lo), Reciprocal(hi, lo);
    Excess(num, hi, lo, j);
    TraceFacts(hi, lo);
    ReciprocalHalves(hi, lo);
    LostIsNatural(num, x);
    LeftIsNatural(t, num);
    FarTerms(t, j);
  }

  lemma LostIsNatural(num: int, x: int)
    requires 0 <= num && 0 <= x
    ensures Lost(High(num), Low(num), High(x), Low(x)) >= 0
  {
    MulOrder(0, Low(num), Low(x));
  }

  lemma LeftIsNatural(t: Trace, num: int)
    requires 0 <= num
    ensures Times(Left(t), num) >= 0
  {
    MulOrder(0, Left(t), num);
  }

  lemma FarTerms(t: Trace, j: int)
    requires 0x8000 <= t.s && 16383 <= t.a && t.rho < 0x1_0000 && 0 <= j && (t.s > 0x8000 || j >= 1)
    ensures Times(Corrected(t), t.rho - Times(j, t.a)) < 0x8000 * Times(t.s, t.s)
  {
    var s := t.s;
    var top := if j == 0 then 0xffff else 0xffff - 16383;
    if j > 0 {
      MulOrder(1, j, t.a);
    }
    var v := t.rho - j * t.a;
    assert v <= top;
    MulOrder(v, top, 0x2000_0000 + s);
    Commute(0x2000_0000 + s, v);
    var least := if j == 0 then 0x8001 else 0x8000;
    MulOrder(least, s, s);
  }

  /** The carry is at most one. */
  lemma CarryBounds(t: Trace, lo: int, j: int, c: int, carry: int, r: int)
    requires 0 <= j <= lo <= 0x7fff && 16383 <= t.a && t.rho < 0x1_0000 && -1 <= c <= 1 && 0 <= r < 0x1_0000
    requires 0x1_0000 * carry == t.rho - Times(j, t.a) + Times(c, lo - j) - 2 * r
    requires (carry + t.f) % 2 == 0
    ensures carry <= 1
    ensures carry == 1 <==> c == 1 && t.f % 2 == 1 && t.rho + lo >= 0x1_0000 + Times(j, t.a + 1)
    ensures j >= 2 ==> carry <= 0
  {
    MulOrder(0, j, t.a);
    assert j * (t.a + 1) == j * t.a + j by { Spread(j, t.a, -1); }
    assert c * (lo - j) == if c == 1 then lo - j else if c == 0 then 0 else j - lo;
    if j >= 2 {
      MulOrder(2, j, t.a);
    }
  }

  lemma CarryParity(lo: int, j: int, t: Trace, xh: int)
    ensures (Carry(lo, j, t, xh) + t.f) % 2 == 0 && 0 <= LowRest(lo, j, xh) < 0x1_0000
  {
  }

  /** Within reach: the quotient is at most one, and is one exactly under the condition. */
  lemma NearOne(num: Word32, hi: Word16, lo: Word16, j: int)
    requires 0x4000 <= hi && 0 <= j <= lo && num == hi * 0x8000 + lo - j
    requires TraceOf(hi, lo).s < 0x8000 || (TraceOf(hi, lo).s == 0x8000 && j == 0)
    ensures QuotientQ28(num, hi, lo) <= 0x1000_0000
    ensures QuotientQ28(num, hi, lo) == 0x1000_0000 <==> j <= 1 && Overruns(hi, lo, j)
  {
    hide *;
    var t, x := TraceOf(hi, lo), Reciprocal(hi, lo);
    var beyond, carry := Beyond(hi, lo), Carry(lo, j, t, High(x));
    CarryLessSpent(num, hi, lo, j);
    TraceFacts(hi, lo);
    ReciprocalBeyond(hi, lo);
    BeyondIs(hi, lo);
    Halves(x, t, beyond);
    OverrunsIs(hi, lo, j);
    CarryParity(lo, j, t, High(x));
    CarryBounds(t, lo, j, Lean(t, x), carry, LowRest(lo, j, High(x)));
    SpentIsPositive(hi, lo, j, t, beyond, Left(t), Low(x));
    if t.s == 0x8000 {
      OddFloorSpends(hi, lo, t, Left(t), Low(x));
    } else if Lean(t, x) == 1 {
      SpentIs(hi, lo, j, t, Low(x));
    }
  }

  lemma OverrunsIs(hi: int, lo: int, j: int)
    requires hi > 0
    ensures var t := TraceOf(hi, lo);
            Overruns(hi, lo, j) <==>
              && t.a % 2 == 1 && t.f % 2 == 1 && t.s < 0x8000 && 2 * t.g >= 0x4000
              && t.rho + lo >= 0x1_0000 + Times(j, t.a + 1) && Remainders(hi, lo, j, t) <= 0x2000_0000_0000
  {
  }

  lemma SpentIs(hi: int, lo: int, j: int, t: Trace, xl: int)
    requires xl == 2 * t.g - 0x4000
    ensures Spent(hi, lo, j, t, 2 * t.g, t.eps, xl) == Remainders(hi, lo, j, t)
  {
    TwiceProduct(lo - j, t.g);
  }

  /** With s at its largest, an odd f alone spends more than the carry. */
  lemma OddFloorSpends(hi: int, lo: int, t: Trace, eps: int, xl: int)
    requires t.s == 0x8000 && eps == 0 && Traced(hi, lo, t) && 0 <= t.f
    ensures t.f % 2 == 1 ==> Spent(hi, lo, 0, t, t.a, eps, xl) > 0x2000_0000_0000
  {
  }

  /** `div_32` never exceeds 1.0. It reaches 1.0, and so leaves the range that its header documents, exactly for
      numerators within one of a denominator that meets the condition. */
  lemma StaysInRange(num: Word32, hi: Word16, lo: Word16)
    requires 0x4000 <= hi && 0 <= lo && 0 <= num <= hi * 0x8000 + lo
    ensures 0 <= Div32(num, hi, lo) <= 0x4000_0000
    ensures var j := hi * 0x8000 + lo - num;
            Div32(num, hi, lo) <= 0x3fff_ffff <==> !(j <= 1 && Overruns(hi, lo, j))
  {
    hide *;
    var d := hi * 0x8000 + lo;
    var j, t := d - num, TraceOf(hi, lo);
    Div32Accuracy(num, hi, lo);
    TraceFacts(hi, lo);
    if j >= 4 {
      FourBelow(d, j, QuotientQ28(num, hi, lo), Div32(num, hi, lo));
    } else if t.s > 0x8000 || (t.s == 0x8000 && j >= 1) || lo < j {
      FarBelow(num, hi, lo, j);
      NoOverrun(hi, lo, j);
    } else {
      NearOne(num, hi, lo, j);
    }
  }

  lemma NoOverrun(hi: int, lo: int, j: int)
    requires hi > 0 && TraceOf(hi, lo).s >= 0x8000
    ensures !Overruns(hi, lo, j)
  {
  }

  lemma FourBelow(d: int, j: int, m: int, r: int)
    requires 4 <= j <= d < 0x4000_0000 && r == 4 * m
    requires r * d - (d - j) * 0x4000_0000 <= 4 * d
    ensures m < 0x1000_0000
  {
    if m >= 0x1000_0000 {
      MulOrder(0x4000_0000, r, d);
    }
  }

  /** So a numerator at least two below the denominator is always safe, and so is any with an even estimate. */
  lemma SafeNumerators(num: Word32, hi: Word16, lo: Word16)
    requires 0x4000 <= hi && 0 <= lo && 0 <= num <= hi * 0x8000 + lo
    ensures num + 2 <= hi * 0x8000 + lo ==> 0 <= Div32(num, hi, lo) <= 0x3fff_ffff
    ensures 0x1fff_8000 / hi % 2 == 0 ==> 0 <= Div32(num, hi, lo) <= 0x3fff_ffff
  {
    hide Div32, Remainders;
    StaysInRange(num, hi, lo);
  }

  lemma ExampleTrace()
    ensures TraceOf(16935, 32339) == Trace(31699, 15641, 65385, 17065, 8254, 9291)
  {
    assert 0x1fff_8000 / 16935 == 31699 && 0x1fff_8000 % 16935 == 15579;
  }

  lemma ExampleOverruns()
    ensures Overruns(16935, 32339, 1)
  {
    ExampleTrace();
    assert 16935 * 124 % 0x1_0000 == 2788;
  }

  /** 1.0 does not split: its low part comes out negative, and the high part one too small. */
  lemma OneDoesNotSplit()
    ensures LExtract(0x4000_0000) == (0x7fff, -0x8000)
  {
    assert Power(1) == 2;
    assert LShl(0x4000_0000, 1) == MAX_32;
    PowerThirty();
    AddShExact(0x4000_0000, 0x7fff, 15);
  }

  /** One numerator just below its denominator that gives 1.0, outside the documented range. */
  lemma OverrunExample()
    ensures 554958418 + 1 == 16935 * 0x8000 + 32339
    ensures Div32(554958418, 16935, 32339) == 0x4000_0000
    ensures LExtract(Div32(554958418, 16935, 32339)) == (0x7fff, -0x8000)
  {
    hide *;
    ExampleOverruns();
    StaysInRange(554958418, 16935, 32339);
    OneDoesNotSplit();
  }
}
