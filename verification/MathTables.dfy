/** Table-driven logarithm and inverse square root: linear interpolation between 33 or 49 samples.
    Both are monotone over every positive 32-bit argument, across table segments and octaves. */
module MathTables {
  import opened FixedPoint

  const TAB_LOG2: seq<int> := [
    0, 1455, 2866, 4236, 5568, 6863, 8124, 9352, 10549, 11716,
    12855, 13967, 15054, 16117, 17156, 18172, 19167, 20142, 21097, 22033,
    22951, 23852, 24735, 25603, 26455, 27291, 28113, 28922, 29716, 30497,
    31266, 32023, 32767]

  const TAB_INV_SQRT: seq<int> := [
    32767, 31790, 30894, 30070, 29309, 28602, 27945, 27330, 26755, 26214,
    25705, 25225, 24770, 24339, 23930, 23541, 23170, 22817, 22479, 22155] + [
    21845, 21548, 21263, 20988, 20724, 20470, 20225, 19988, 19760, 19539,
    19326, 19119, 18919, 18725, 18536, 18354, 18176, 18004, 17837, 17674,
    17515, 17361, 17211, 17064, 16921, 16782, 16646, 16514, 16384]

  const TAB_POW2: seq<int> := [
    16384, 16743, 17109, 17484, 17867, 18258, 18658, 19066, 19484, 19911,
    20347, 20792, 21247, 21713, 22188, 22674, 23170, 23678, 24196, 24726,
    25268, 25821, 26386, 26964, 27554, 28158, 28774, 29405, 30048, 30706,
    31379, 32066, 32767]

  /** Neighbouring entries are 16-bit and strictly ordered; `rising` says which way. */
  predicate Step(tab: seq<int>, rising: bool, i: int)
    requires 0 <= i < |tab| - 1
  {
    if rising then 0 <= tab[i] < tab[i + 1] <= 0x7fff else 0x7fff >= tab[i] > tab[i + 1] >= 0
  }

  ghost predicate Ordered(tab: seq<int>, rising: bool) {
    forall i :: 0 <= i < |tab| - 1 ==> Step(tab, rising, i)
  }

  lemma LogStep(i: int)
    requires 0 <= i < 32
    ensures |TAB_LOG2| == 33 && Step(TAB_LOG2, true, i)
  {
  }

  lemma LogTableOrdered()
    ensures |TAB_LOG2| == 33 && Ordered(TAB_LOG2, true)
    ensures TAB_LOG2[0] == 0 && TAB_LOG2[32] == 0x7fff
  {
    forall i | 0 <= i < |TAB_LOG2| - 1
      ensures Step(TAB_LOG2, true, i)
    {
      LogStep(i);
    }
  }

  lemma RootStep(i: int)
    requires 0 <= i < 48
    ensures |TAB_INV_SQRT| == 49 && Step(TAB_INV_SQRT, false, i)
  {
  }

  lemma RootTableOrdered()
    ensures |TAB_INV_SQRT| == 49 && Ordered(TAB_INV_SQRT, false)
    ensures TAB_INV_SQRT[0] == 0x7fff && TAB_INV_SQRT[48] == 0x4000
  {
    forall i | 0 <= i < |TAB_INV_SQRT| - 1
      ensures Step(TAB_INV_SQRT, false, i)
    {
      RootStep(i);
    }
  }

  lemma {:induction false} TableOrder(tab: seq<int>, rising: bool, i: int, j: int)
    requires Ordered(tab, rising) && 0 <= i <= j < |tab|
    ensures if rising then tab[i] <= tab[j] else tab[i] >= tab[j]
  {
    if i < j {
      TableOrder(tab, rising, i, j - 1);
      assert Step(tab, rising, j - 1);
    }
  }

  lemma PowTableInRange(i: int)
    requires 0 <= i < 33
    ensures |TAB_POW2| == 33
    ensures 0x4000 <= TAB_POW2[i] <= 0x7fff
  {
  }

  // ---- one interpolation step: table entry minus slope times the low 15 bits ----

  function LDepositH(a: Word16): Word32 {
    a * 0x1_0000
  }

  function Interpolate(here: Word16, next: Word16, a: Word16): Word32 {
    LMsu(LDepositH(here), Sub(here, next), a)
  }

  /** Neither the slope nor the interpolated value saturates, and the value stays between the samples. */
  lemma InterpolateExact(here: Word16, next: Word16, a: Word16)
    requires 0 <= here && 0 <= next && 0 <= a
    ensures Interpolate(here, next, a) == here * 0x1_0000 + 2 * ((next - here) * a)
    ensures next >= here ==> here * 0x1_0000 <= Interpolate(here, next, a) <= next * 0x1_0000
    ensures next <= here ==> next * 0x1_0000 <= Interpolate(here, next, a) <= here * 0x1_0000
  {
    NegateFactor(a, here - next);
    SlopeBound(here, next, a);
  }

  lemma SlopeBound(here: int, next: int, a: int)
    requires 0 <= here <= 0x7fff && 0 <= next <= 0x7fff && 0 <= a <= 0x7fff
    ensures (here - next) * a == -((next - here) * a)
    ensures next >= here ==> 0 <= (next - here) * a <= (next - here) * 0x7fff
    ensures next <= here ==> (next - here) * 0x7fff <= (next - here) * a <= 0
  {
    if next >= here {
      MulOrder(0, a, next - here);
      MulOrder(a, 0x7fff, next - here);
    } else {
      MulOrder(0, a, here - next);
      MulOrder(a, 0x7fff, here - next);
    }
  }

  /** Bits 25.. and 10..24 of a normalised value: the segment and the position within it. */
  function Segment(y: Word32): Word16 {
    ExtractH(LShr(y, 9))
  }

  function Position(y: Word32): Word16 {
    ExtractL(LShr(LShr(y, 9), 1)) % 0x8000
  }

  lemma SegmentAndPosition(y: Word32)
    requires y >= 0
    ensures Segment(y) == y / 0x200_0000
    ensures Position(y) == y / 0x400 % 0x8000
  {
    assert Power(9) == 0x200 && Power(1) == 2;
    NestedFloor(y);
    LowBits(y / 0x400);
  }

  lemma NestedFloor(y: int)
    requires y >= 0
    ensures y / 0x200 / 0x1_0000 == y / 0x200_0000 && y / 0x200 / 2 == y / 0x400
  {
  }

  lemma LowBits(z: int)
    ensures Truncate(z) % 0x8000 == z % 0x8000
  {
  }

  /** The interpolated curve over a table whose first entry stands for segment `base`. */
  function Curve(tab: seq<int>, rising: bool, base: Word16, y: Word32): Word32
    requires Ordered(tab, rising) && 0 <= base && base * 0x200_0000 <= y && |tab| == 65 - base
  {
    SegmentAndPosition(y);
    var i := Sub(Segment(y), base);
    assert Step(tab, rising, i);
    Interpolate(tab[i], tab[i + 1], Position(y))
  }

  lemma InterpolateOrder(here: Word16, next: Word16, a: Word16, b: Word16)
    requires 0 <= here && 0 <= next && 0 <= a <= b
    ensures here <= next ==> Interpolate(here, next, a) <= Interpolate(here, next, b)
    ensures here >= next ==> Interpolate(here, next, a) >= Interpolate(here, next, b)
  {
    hide Interpolate;
    InterpolateExact(here, next, a);
    InterpolateExact(here, next, b);
    if here <= next {
      MulOrder(a, b, next - here);
    } else {
      MulOrder(a, b, here - next);
      SlopeBound(here, next, a);
      SlopeBound(here, next, b);
      NegateFactor(a, here - next);
      NegateFactor(b, here - next);
    }
  }

  lemma CurveIs(tab: seq<int>, rising: bool, base: Word16, y: Word32, i: int, a: int)
    requires Ordered(tab, rising) && 0 <= base && base * 0x200_0000 <= y && |tab| == 65 - base
    requires i == y / 0x200_0000 - base && a == y / 0x400 % 0x8000
    ensures 0 <= i < 64 - base && Step(tab, rising, i)
    ensures Curve(tab, rising, base, y) == Interpolate(tab[i], tab[i + 1], a)
  {
    SegmentAndPosition(y);
    assert Step(tab, rising, i);
  }

  lemma CurveWithin(tab: seq<int>, rising: bool, base: Word16, y: Word32, i: int, a: int)
    requires Ordered(tab, rising) && 0 <= base && base * 0x200_0000 <= y && |tab| == 65 - base
    requires i == y / 0x200_0000 - base && a == y / 0x400 % 0x8000
    ensures 0 <= i < 64 - base && Step(tab, rising, i)
    ensures Curve(tab, rising, base, y) == Interpolate(tab[i], tab[i + 1], a)
    ensures if rising then tab[i] * 0x1_0000 <= Curve(tab, rising, base, y) <= tab[i + 1] * 0x1_0000
            else tab[i] * 0x1_0000 >= Curve(tab, rising, base, y) >= tab[i + 1] * 0x1_0000
  {
    CurveIs(tab, rising, base, y, i, a);
    InterpolateExact(tab[i], tab[i + 1], a);
  }

  lemma SameSegmentOrder(y1: int, y2: int)
    requires y1 <= y2 && y1 / 0x200_0000 == y2 / 0x200_0000
    ensures y1 / 0x400 % 0x8000 <= y2 / 0x400 % 0x8000
  {
    var u, v := y1 / 0x400, y2 / 0x400;
    assert u <= v;
    assert u / 0x8000 == y1 / 0x200_0000;
    assert v / 0x8000 == y2 / 0x200_0000;
  }

  /** Within a segment the curve follows its slope; between segments the table orders it. */
  lemma CurveOrdered(tab: seq<int>, rising: bool, base: Word16, y1: Word32, y2: Word32)
    requires Ordered(tab, rising) && 0 <= base && base * 0x200_0000 <= y1 <= y2 && |tab| == 65 - base
    ensures if rising then
              tab[0] * 0x1_0000 <= Curve(tab, rising, base, y1) <= Curve(tab, rising, base, y2)
              <= tab[|tab| - 1] * 0x1_0000
            else
              tab[0] * 0x1_0000 >= Curve(tab, rising, base, y1) >= Curve(tab, rising, base, y2)
              >= tab[|tab| - 1] * 0x1_0000
  {
    hide Interpolate, Curve, Ordered;
    var i, a := y1 / 0x200_0000 - base, y1 / 0x400 % 0x8000;
    var j, b := y2 / 0x200_0000 - base, y2 / 0x400 % 0x8000;
    CurveWithin(tab, rising, base, y1, i, a);
    CurveWithin(tab, rising, base, y2, j, b);
    TableOrder(tab, rising, 0, i);
    TableOrder(tab, rising, j + 1, |tab| - 1);
    if i == j {
      SameSegmentOrder(y1, y2);
      InterpolateOrder(tab[i], tab[i + 1], a, b);
    } else {
      TableOrder(tab, rising, i + 1, j);
    }
  }

  // ---- Log2 ----

  /** The mantissa curve of `Log2` on a normalised argument. */
  function LogCurve(y: Word32): Word32
    requires 0x4000_0000 <= y
  {
    LogTableOrdered();
    Curve(TAB_LOG2, true, 32, y)
  }

  function LogTwo(x: Word32): (Word16, Word16) {
    if x <= 0 then (0, 0)
    else
      var n := NormL(x);
      LShlExact(x, n);
      (Sub(30, n), ExtractH(LogCurve(LShl(x, n))))
  }

  /** The logarithm in plain integers: the exponent is that of the leading bit, and the fraction lies on the straight
      line between the two table entries around x / 2^e, rounded down. */
  ghost predicate LogRight(x: int, e: int, f: int) {
    && 0 <= e <= 30 && Power(e) <= x < 2 * Power(e)
    && var y := Times(x, Power(30 - e));
       var i, a := y / 0x200_0000 - 32, y / 0x400 % 0x8000;
       && 0 <= i < 32 && |TAB_LOG2| == 33
       && f == TAB_LOG2[i] + Times(TAB_LOG2[i + 1] - TAB_LOG2[i], a) / 0x8000
  }

  lemma LogTwoIs(x: Word32)
    requires x > 0
    ensures LogRight(x, LogTwo(x).0, LogTwo(x).1)
  {
    hide Curve, Interpolate, Power, TAB_LOG2;
    var n := NormL(x);
    var e := 30 - n;
    LShlExact(x, n);
    LeadingBit(x, n, e);
    var y := x * Power(n);
    LogTableOrdered();
    var i, a := y / 0x200_0000 - 32, y / 0x400 % 0x8000;
    CurveIs(TAB_LOG2, true, 32, y, i, a);
    InterpolateExact(TAB_LOG2[i], TAB_LOG2[i + 1], a);
    HighOfLine(TAB_LOG2[i], Times(TAB_LOG2[i + 1] - TAB_LOG2[i], a));
  }

  lemma LeadingBit(x: int, n: nat, e: nat)
    requires e + n == 30 && 0x4000_0000 <= x * Power(n) <= MAX_32
    ensures Power(e) <= x < 2 * Power(e)
  {
    PowerSum(e, n);
    PowerThirty();
    hide Power;
    Between(x, Power(e), Power(n));
  }

  lemma Between(x: int, p: int, q: int)
    requires 0 < p && 0 < q && p * q == 0x4000_0000 <= x * q <= MAX_32
    ensures p <= x < 2 * p
  {
    NextMultiple(q, x);
    TwiceProduct(p, q);
    if x < p {
      MulOrder(x + 1, p, q);
    }
    if x >= 2 * p {
      MulOrder(2 * p, x, q);
    }
  }

  lemma HighOfLine(here: int, d: int)
    ensures (here * 0x1_0000 + 2 * d) / 0x1_0000 == here + d / 0x8000
  {
  }

  lemma LogCurveRises(y1: Word32, y2: Word32)
    requires 0x4000_0000 <= y1 <= y2
    ensures 0 <= LogCurve(y1) <= LogCurve(y2) <= 0x7fff * 0x1_0000
  {
    LogTableOrdered();
    CurveOrdered(TAB_LOG2, true, 32, y1, y2);
  }

  /** `Log2` never decreases: exponent * 2^15 + fraction is monotone over all positive arguments. */
  lemma LogTwoMonotone(x1: Word32, x2: Word32)
    requires 0 < x1 <= x2
    ensures var (e1, f1) := LogTwo(x1);
            var (e2, f2) := LogTwo(x2);
            && 0 <= f1 && 0 <= f2
            && e1 * 0x8000 + f1 <= e2 * 0x8000 + f2
  {
    var n1, n2 := NormL(x1), NormL(x2);
    NormFalls(x1, x2);
    LShlExact(x1, n1);
    LShlExact(x2, n2);
    var y1, y2 := LShl(x1, n1), LShl(x2, n2);
    LogCurveRises(y1, y1);
    LogCurveRises(y2, y2);
    if n1 == n2 {
      MulOrder(x1, x2, Power(n1));
      LogCurveRises(y1, y2);
    }
  }

  /** A larger value needs no more normalisation. */
  lemma NormFalls(x1: Word32, x2: Word32)
    requires 0 < x1 <= x2
    ensures NormL(x1) >= NormL(x2)
  {
    var n1, n2 := NormL(x1), NormL(x2);
    if n1 < n2 {
      PowerMonotone(n1 + 1, n2);
      OverNormalised(x1, x2, Power(n1), Power(n2));
    }
  }

  lemma OverNormalised(x1: int, x2: int, p1: int, p2: int)
    requires 0 < x1 <= x2 && 0 < p1 && 2 * p1 <= p2
    requires 0x4000_0000 <= x1 * p1
    ensures x2 * p2 > MAX_32
  {
    MulOrder(x1, x2, p2);
    MulOrder(2 * p1, p2, x1);
    assert x1 * (2 * p1) == 2 * (x1 * p1);
  }

  // ---- inv_sqrt ----

  function RootCurve(w: Word32): Word32
    requires 0x2000_0000 <= w
  {
    RootTableOrdered();
    Curve(TAB_INV_SQRT, false, 16, w)
  }

  function InvSqrt(x: Word32): Word32 {
    if x <= 0 then 0x3fff_ffff
    else
      var n := NormL(x);
      LShlExact(x, n);
      var e := Sub(30, n);
      var y := LShl(x, n);
      var w := if e % 2 == 0 then LShr(y, 1) else y;
      HalfOfNormal(y);
      LShr(RootCurve(w), Add(Shr(e, 1), 1))
  }

  lemma HalfOfNormal(y: Word32)
    requires 0x4000_0000 <= y
    ensures LShr(y, 1) == y / 2 && 0x2000_0000 <= LShr(y, 1) < 0x4000_0000
  {
    assert Power(1) == 2;
  }

  lemma RootCurveFalls(w1: Word32, w2: Word32)
    requires 0x2000_0000 <= w1 <= w2
    ensures 0x7fff * 0x1_0000 >= RootCurve(w1) >= RootCurve(w2) >= 0x4000_0000
  {
    RootTableOrdered();
    CurveOrdered(TAB_INV_SQRT, false, 16, w1, w2);
  }

  /** The argument of the root curve and the final shift, as functions of the normalised value. */
  lemma RootParts(x: Word32) returns (w: Word32, k: int)
    requires x > 0
    ensures 0x2000_0000 <= w && k == (30 - NormL(x)) / 2 + 1
    ensures InvSqrt(x) == LShr(RootCurve(w), k)
    ensures var y := x * Power(NormL(x));
            w == if (30 - NormL(x)) % 2 == 0 then y / 2 else y
  {
    var n := NormL(x);
    LShlExact(x, n);
    var y := LShl(x, n);
    HalfOfNormal(y);
    var e := 30 - n;
    w := if e % 2 == 0 then LShr(y, 1) else y;
    k := e / 2 + 1;
    assert Power(1) == 2;
    assert Add(Shr(e, 1), 1) == k;
  }

  /** `inv_sqrt` never increases over the positive arguments. Two octaves share one final shift; between
      such pairs the extra shift outweighs the whole fall of the curve. */
  lemma InvSqrtMonotone(x1: Word32, x2: Word32)
    requires 0 < x1 <= x2
    ensures InvSqrt(x1) >= InvSqrt(x2) > 0
  {
    NormFalls(x1, x2);
    var w1, k1 := RootParts(x1);
    var w2, k2 := RootParts(x2);
    RootCurveFalls(w1, w1);
    RootCurveFalls(w2, w2);
    if k1 == k2 {
      if NormL(x1) == NormL(x2) {
        MulOrder(x1, x2, Power(NormL(x1)));
      }
      assert w1 <= w2;
      RootCurveFalls(w1, w2);
      ShiftOrder(RootCurve(w2), RootCurve(w1), k1, k1);
    } else {
      FinalShiftBeatsCurve(RootCurve(w1), RootCurve(w2), k1, k2);
    }
    ShiftedPositive(RootCurve(w2), k2);
  }

  lemma ShiftedPositive(c: Word32, k: int)
    requires 0x4000_0000 <= c && 0 < k <= 16
    ensures LShr(c, k) > 0
  {
    PowerMonotone(k, 16);
    assert Power(8) == 0x100;
    assert Power(16) == 0x1_0000;
    QuotientAtLeast(c, Power(k), 1);
  }

  lemma QuotientAtLeast(c: int, d: int, q: int)
    requires d > 0 && q * d <= c
    ensures q <= c / d
  {
    DivisionBounds(c, d);
    var k := c / d;
    if k < q {
      MulOrder(k + 1, q, d);
      NextMultiple(d, k);
    }
  }

  /** Dividing something smaller by something larger. */
  lemma QuotientOrder(small: int, big: int, d1: int, d2: int)
    requires 0 <= small <= big && 0 < d1 <= d2
    ensures small / d2 <= big / d1
  {
    var q := small / d2;
    DivisionBounds(small, d2);
    FloorWithin(small, d2);
    MulOrder(d1, d2, q);
    Commute(q, d2);
    QuotientAtLeast(big, d1, q);
  }

  lemma ShiftOrder(small: Word32, big: Word32, k: int, m: int)
    requires 0 <= small <= big && 0 < m <= k <= 16
    ensures LShr(small, k) <= LShr(big, m)
  {
    PowerMonotone(m, k);
    QuotientOrder(small, big, Power(m), Power(k));
  }

  lemma FinalShiftBeatsCurve(c1: Word32, c2: Word32, k1: int, k2: int)
    requires 0x4000_0000 <= c1 && 0 <= c2 <= 0x7fff_0000
    requires 0 < k1 < k2 <= 16
    ensures LShr(c1, k1) >= LShr(c2, k2)
  {
    PowerMonotone(k1 + 1, k2);
    QuotientOrder(c2, 2 * c1, 2 * Power(k1), Power(k2));
    DoubledQuotient(c1, Power(k1));
  }

  lemma DoubledQuotient(c: int, d: int)
    requires 0 <= c && 0 < d
    ensures (2 * c) / (2 * d) == c / d
  {
    var q := c / d;
    DivisionBounds(c, d);
    DivisionBounds(2 * c, 2 * d);
    var k := (2 * c) / (2 * d);
    TwiceProduct(d, k);
    TwiceProduct(d, q);
    NextMultiple(d, k);
    NextMultiple(d, q);
    if k < q {
      MulOrder(k + 1, q, d);
    } else if k > q {
      MulOrder(q + 1, k, d);
    }
  }

  /** The reciprocal root in plain integers: the normalised argument w, halved in every other octave, is located in the
      table, and the point on the line is divided by a power of two, rounding down. */
  ghost predicate RootRight(x: int, r: int) {
    exists n: nat, w: int :: n <= 30 && RootAt(x, r, n, w)
  }

  ghost predicate RootAt(x: int, r: int, n: nat, w: int)
    requires n <= 30
  {
    && 0x4000_0000 <= Times(x, Power(n)) <= MAX_32
    && w == (if n % 2 == 0 then Times(x, Power(n)) / 2 else Times(x, Power(n)))
    && r == RootLine(w) / Power((30 - n) / 2 + 1)
  }

  /** The line between two table entries, in Q16 of their last bit. */
  function RootLine(w: int): int
  {
    var i := w / 0x200_0000 - 16;
    if 0 <= i < 48 then
      assert |TAB_INV_SQRT| == 49;
      TAB_INV_SQRT[i] * 0x1_0000 + 2 * Times(TAB_INV_SQRT[i + 1] - TAB_INV_SQRT[i], w / 0x400 % 0x8000)
    else 0
  }

  lemma InvSqrtIs(x: Word32)
    requires x > 0
    ensures RootRight(x, InvSqrt(x))
  {
    hide InvSqrt, Power, RootCurve, RootLine;
    var w, k := RootParts(x);
    var n := NormL(x);
    RootCurveIs(w);
    ShiftedDown(RootCurve(w), k);
    assert RootAt(x, InvSqrt(x), n, w);
  }

  lemma RootCurveIs(w: Word32)
    requires 0x2000_0000 <= w
    ensures RootCurve(w) == RootLine(w)
  {
    hide Curve, Interpolate, TAB_INV_SQRT;
    RootTableOrdered();
    var i, a := w / 0x200_0000 - 16, w / 0x400 % 0x8000;
    CurveIs(TAB_INV_SQRT, false, 16, w, i, a);
    InterpolateExact(TAB_INV_SQRT[i], TAB_INV_SQRT[i + 1], a);
  }

  /** At every table entry the square of the root times its argument is 2^34, to one part in sixteen thousand. */
  lemma RootEntry(i: int)
    requires 0 <= i < 49
    ensures |TAB_INV_SQRT| == 49
    ensures -0x10_0000 <= TAB_INV_SQRT[i] * TAB_INV_SQRT[i] * (16 + i) - 0x4_0000_0000 <= 0x10_0000
  {
  }

  /** At every table entry of the logarithm the power gives the argument back, to one part in eight thousand: the two
      tables invert each other. */
  lemma LogEntry(i: int)
    requires 0 <= i <= 32
    ensures |TAB_LOG2| == 33 && 0 <= TAB_LOG2[i] <= 0x7fff
    ensures -0x40_0000 <= 32 * PowLine(TAB_LOG2[i]) - (32 + i) * 0x4000_0000 <= 0x40_0000
  {
    if i < 4 {
      LogEntriesBelow4(i);
    } else if i < 6 {
      LogEntriesBelow6(i);
    } else if i < 9 {
      LogEntriesBelow9(i);
    } else if i < 13 {
      LogEntriesBelow13(i);
    } else if i < 18 {
      LogEntriesBelow18(i);
    } else if i < 23 {
      LogEntriesBelow23(i);
    } else if i < 28 {
      LogEntriesBelow28(i);
    } else {
      LogEntriesBelow33(i);
    }
  }

  lemma LogEntriesBelow4(i: int)
    requires 0 <= i < 4
    ensures |TAB_LOG2| == 33 && 0 <= TAB_LOG2[i] <= 0x7fff
    ensures -0x40_0000 <= 32 * PowLine(TAB_LOG2[i]) - (32 + i) * 0x4000_0000 <= 0x40_0000
  {
  }

  lemma LogEntriesBelow6(i: int)
    requires 4 <= i < 6
    ensures |TAB_LOG2| == 33 && 0 <= TAB_LOG2[i] <= 0x7fff
    ensures -0x40_0000 <= 32 * PowLine(TAB_LOG2[i]) - (32 + i) * 0x4000_0000 <= 0x40_0000
  {
  }

  lemma LogEntriesBelow9(i: int)
    requires 6 <= i < 9
    ensures |TAB_LOG2| == 33 && 0 <= TAB_LOG2[i] <= 0x7fff
    ensures -0x40_0000 <= 32 * PowLine(TAB_LOG2[i]) - (32 + i) * 0x4000_0000 <= 0x40_0000
  {
  }

  lemma LogEntriesBelow13(i: int)
    requires 9 <= i < 13
    ensures |TAB_LOG2| == 33 && 0 <= TAB_LOG2[i] <= 0x7fff
    ensures -0x40_0000 <= 32 * PowLine(TAB_LOG2[i]) - (32 + i) * 0x4000_0000 <= 0x40_0000
  {
  }

  lemma LogEntriesBelow18(i: int)
    requires 13 <= i < 18
    ensures |TAB_LOG2| == 33 && 0 <= TAB_LOG2[i] <= 0x7fff
    ensures -0x40_0000 <= 32 * PowLine(TAB_LOG2[i]) - (32 + i) * 0x4000_0000 <= 0x40_0000
  {
  }

  lemma LogEntriesBelow23(i: int)
    requires 18 <= i < 23
    ensures |TAB_LOG2| == 33 && 0 <= TAB_LOG2[i] <= 0x7fff
    ensures -0x40_0000 <= 32 * PowLine(TAB_LOG2[i]) - (32 + i) * 0x4000_0000 <= 0x40_0000
  {
  }

  lemma LogEntriesBelow28(i: int)
    requires 23 <= i < 28
    ensures |TAB_LOG2| == 33 && 0 <= TAB_LOG2[i] <= 0x7fff
    ensures -0x40_0000 <= 32 * PowLine(TAB_LOG2[i]) - (32 + i) * 0x4000_0000 <= 0x40_0000
  {
  }

  lemma LogEntriesBelow33(i: int)
    requires 28 <= i < 33
    ensures |TAB_LOG2| == 33 && 0 <= TAB_LOG2[i] <= 0x7fff
    ensures -0x40_0000 <= 32 * PowLine(TAB_LOG2[i]) - (32 + i) * 0x4000_0000 <= 0x40_0000
  {
  }

  // ---- pow2 ----

  /** `pow2` on a fraction in [0, 1): the range every caller passes. */
  function PowTwo(exponent: Word16, fraction: Word16): Word32
    requires 0 <= fraction
  {
    PowSegment(fraction);
    var x := LShl(fraction, 6);
    var i := ExtractH(x);
    var a := ExtractL(LShr(x, 1)) % 0x8000;
    PowTableInRange(i);
    PowTableInRange(i + 1);
    var y := LMsu(LDepositH(TAB_POW2[i]), Sub(TAB_POW2[i], TAB_POW2[i + 1]), a);
    LShrR(y, Sub(30, exponent))
  }

  /** The line between two table entries, in Q16 of their last bit. */
  function PowLine(fraction: int): int
    requires 0 <= fraction <= 0x7fff
  {
    assert |TAB_POW2| == 33;
    var i := fraction / 0x400;
    TAB_POW2[i] * 0x1_0000 + 2 * Times(TAB_POW2[i + 1] - TAB_POW2[i], fraction % 0x400 * 32)
  }

  /** The power in plain integers: the point on the line, divided by 2^(30 - exponent) to the nearest integer. */
  ghost predicate PowRight(r: int, exponent: int, fraction: int)
    requires 0 <= fraction <= 0x7fff
  {
    && (exponent < -1 ==> r == 0)
    && (-1 <= exponent <= 29 ==>
          var half: int := Power(29 - exponent);
          -half <= PowLine(fraction) - Times(2 * half, r) < half)
    && (exponent == 30 ==> r == PowLine(fraction))
    && (exponent > 30 ==> r == MAX_32)
  }

  lemma PowTwoUnfolds(exponent: Word16, fraction: Word16)
    requires 0 <= fraction
    ensures 0x4000_0000 <= PowLine(fraction) <= MAX_32
    ensures PowTwo(exponent, fraction) == LShrR(PowLine(fraction), Sub(30, exponent))
  {
    hide Power, LShrR, LShl, LShr, Truncate, TAB_POW2;
    var i, a := fraction / 0x400, fraction % 0x400 * 32;
    PowPosition(fraction);
    PowTableInRange(i);
    PowTableInRange(i + 1);
    InterpolateExact(TAB_POW2[i], TAB_POW2[i + 1], a);
    assert PowLine(fraction) == Interpolate(TAB_POW2[i], TAB_POW2[i + 1], a);
  }

  lemma PowTwoIs(exponent: Word16, fraction: Word16)
    requires 0 <= fraction
    ensures PowRight(PowTwo(exponent, fraction), exponent, fraction)
  {
    hide Power, PowTwo, PowLine, LShrR;
    PowTwoUnfolds(exponent, fraction);
    var y, n := PowLine(fraction), Sub(30, exponent);
    if -1 <= exponent <= 29 {
      LShrRNearest(y, n);
    } else {
      FarShift(y, n);
    }
  }

  lemma PowPosition(fraction: Word16)
    requires 0 <= fraction
    ensures ExtractH(LShl(fraction, 6)) == fraction / 0x400
    ensures ExtractL(LShr(LShl(fraction, 6), 1)) % 0x8000 == fraction % 0x400 * 32
  {
    PowSegment(fraction);
    SmallPowers();
    hide Power, LShl, Truncate;
    LowBits(fraction * 32);
  }

  lemma FarShift(y: Word32, n: Shift)
    requires 0x4000_0000 <= y && (n <= 0 || n > 31)
    ensures LShrR(y, n) == if n > 31 then 0 else if n == 0 then y else MAX_32
  {
    if n < 0 {
      PowerMonotone(1, -n);
      assert Power(1) == 2;
      MulOrder(2, Power(-n), y);
    } else if n == 0 {
      assert Power(0) == 1;
    }
  }

  lemma PowSegment(fraction: Word16)
    requires 0 <= fraction
    ensures LShl(fraction, 6) == fraction * 64
    ensures 0 <= ExtractH(LShl(fraction, 6)) < 32
  {
    assert Power(6) == 64;
    LShlExact(fraction, 6);
  }
}
