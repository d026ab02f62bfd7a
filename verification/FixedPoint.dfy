/** The saturating 16/32-bit operators of the TETRA codec, written over `int` with explicit ranges.
    The operators of the C code also touch `st->Overflow`; only their values are defined here, and the
    routine that reads the flag (`Autocorr`) tracks it itself. */
module FixedPoint {

  type Word16 = x: int | -0x8000 <= x <= 0x7fff
  type Word32 = x: int | -0x8000_0000 <= x <= 0x7fff_ffff

  /** Shift counts: -0x8000 is excluded because negating it wraps and `L_shl`/`L_shr` would call each
      other for ever. */
  type Shift = n: int | -0x7fff <= n <= 0x7fff

  const MAX_32: Word32 := 0x7fff_ffff
  const MIN_32: Word32 := -0x8000_0000

  function Power(n: nat): (p: nat)
    ensures p > 0
  {
    if n == 0 then 1 else 2 * Power(n - 1)
  }

  lemma {:induction false} PowerSum(m: nat, n: nat)
    ensures Power(m + n) == Power(m) * Power(n)
  {
    if m == 0 {
    } else {
      PowerSum(m - 1, n);
      assert Power(m - 1 + n) * 2 == (2 * Power(m - 1)) * Power(n);
    }
  }

  lemma {:induction false} PowerMonotone(m: nat, n: nat)
    requires m <= n
    ensures Power(m) <= Power(n)
  {
    if m < n {
      PowerMonotone(m, n - 1);
    }
  }

  /** Multiplication without a range. */
  function Times(a: int, b: int): int { a * b }

  // ---- saturation, extraction ----

  function Sature(x: int): Word16 {
    if x > 0x7fff then 0x7fff else if x < -0x8000 then -0x8000 else x
  }

  function Sature32(x: int): Word32 {
    if x > MAX_32 then MAX_32 else if x < MIN_32 then MIN_32 else x
  }

  /** A conversion to a 16-bit integer that keeps the low bits. */
  function Truncate(x: int): Word16 {
    (x + 0x8000) % 0x1_0000 - 0x8000
  }

  function ExtractH(x: Word32): Word16 {
    x / 0x1_0000
  }

  function ExtractL(x: Word32): Word16 {
    Truncate(x)
  }

  // ---- 16-bit operators ----

  function Add(a: Word16, b: Word16): Word16 { Sature(a + b) }

  function Sub(a: Word16, b: Word16): Word16 { Sature(a - b) }

  function AbsS(a: Word16): Word16 { if a == -0x8000 then 0x7fff else if a < 0 then -a else a }

  function Mult(a: Word16, b: Word16): Word16 { Sature((a * b) / 0x8000) }

  function MultR(a: Word16, b: Word16): Word16 { Sature((a * b + 0x4000) / 0x8000) }

  function Shr(a: Word16, n: int): Word16
    requires -31 <= n <= 0x7fff
  {
    if n < 0 then Sature(a * Power(-n))
    else if n >= 15 then (if a < 0 then -1 else 0)
    else
      FloorWithin(a, Power(n));
      a / Power(n)
  }

  function Shl(a: Word16, n: int): Word16
    requires -0x7fff <= n <= 31
  {
    if n < 0 then Shr(a, -n) else Sature(a * Power(n))
  }

  // ---- 32-bit operators ----

  function LAdd(a: Word32, b: Word32): Word32 { Sature32(a + b) }

  /** `L_add(a, a)`. */
  function LDouble(a: Word32): Word32 { Sature32(2 * a) }

  function LSub(a: Word32, b: Word32): Word32 { Sature32(a - b) }

  function LAbs(a: Word32): Word32 { if a == MIN_32 then MAX_32 else if a < 0 then -a else a }

  function LNegate(a: Word32): Word32 { if a == MIN_32 then MAX_32 else -a }

  function LMult0(a: Word16, b: Word16): (p: Word32)
    ensures p == a * b
  {
    ProductRange(a, b);
    a * b
  }

  function LMult(a: Word16, b: Word16): Word32 {
    ProductRange(a, b);
    if a * b != 0x4000_0000 then a * b * 2 else MAX_32
  }

  function LMac(s: Word32, a: Word16, b: Word16): Word32 { LAdd(s, LMult(a, b)) }

  function LMac0(s: Word32, a: Word16, b: Word16): Word32 { LAdd(s, LMult0(a, b)) }

  function LMsu(s: Word32, a: Word16, b: Word16): Word32 { LSub(s, LMult(a, b)) }

  function LMsu0(s: Word32, a: Word16, b: Word16): Word32 { LSub(s, LMult0(a, b)) }

  function LShr(a: Word32, n: Shift): Word32 {
    if n < 0 then Sature32(a * Power(-n))
    else if n >= 31 then (if a < 0 then -1 else 0)
    else
      FloorWithin(a, Power(n));
      a / Power(n)
  }

  function LShl(a: Word32, n: Shift): Word32 {
    if n <= 0 then LShr(a, -n) else Sature32(a * Power(n))
  }

  /** Right shift that rounds by adding the last bit shifted out. */
  function LShrR(a: Word32, n: Shift): Word32 {
    if n > 31 then 0
    else if n <= 0 then LShr(a, n)
    else
      HalfRoundRange(a, n);
      LShr(a, n) + (if LShr(a, n - 1) % 2 != 0 then 1 else 0)
  }

  function TscRound(a: Word32): Word16 { ExtractH(LAdd(a, 0x8000)) }

  // ---- the shift-and-add family; `POW2[shift]` holds -2^shift, so `L_msu0` adds ----

  function Pow2Entry(shift: int): Word16
    requires 0 <= shift <= 15
  {
    PowerMonotone(shift, 15);
    assert Power(15) == 0x8000;
    0 - Power(shift)
  }

  function AddSh(s: Word32, a: Word16, shift: int): Word32
    requires 0 <= shift <= 15
  {
    LMsu0(s, a, Pow2Entry(shift))
  }

  function SubSh(s: Word32, a: Word16, shift: int): Word32
    requires 0 <= shift <= 15
  {
    LMac0(s, a, Pow2Entry(shift))
  }

  function LoadSh(a: Word16, shift: int): Word32
    requires 0 <= shift <= 15
  {
    LMsu0(0, a, Pow2Entry(shift))
  }

  function SubSh16(s: Word32, a: Word16): Word32 { LMac(s, a, -0x8000) }

  function LoadSh16(a: Word16): Word32 { LMsu(0, a, -0x8000) }

  function StoreHi(x: Word32, shift: int): Word16
    requires 0 <= shift <= 7
  {
    ExtractL(LShr(x, 16 - shift))
  }

  // ---- normalisation ----

  /** The left shift that brings a positive value into [2^30, 2^31). */
  function NormPositive(x: Word32): (n: nat)
    requires x > 0
    ensures n <= 30
    ensures 0x4000_0000 <= x * Power(n) <= MAX_32
    decreases MAX_32 - x
  {
    if x >= 0x4000_0000 then 0
    else
      var n := NormPositive(2 * x);
      DoublingStep(x, n);
      n + 1
  }

  lemma DoublingStep(x: int, n: nat)
    requires x > 0 && n <= 30
    requires 0x4000_0000 <= (2 * x) * Power(n) <= MAX_32
    ensures n <= 29
    ensures x * Power(n + 1) == (2 * x) * Power(n)
  {
    TwiceProduct(x, Power(n));
    if n == 30 {
      PowerThirty();
      MulOrder(2, 2 * x, 0x4000_0000);
    }
  }

  lemma SmallPowers()
    ensures Power(0) == 1 && Power(1) == 2 && Power(2) == 4 && Power(3) == 8 && Power(4) == 16 && Power(5) == 32
    ensures Power(6) == 64 && Power(7) == 128 && Power(8) == 256 && Power(9) == 512 && Power(10) == 1024
    ensures Power(11) == 0x800 && Power(12) == 0x1000 && Power(13) == 0x2000 && Power(14) == 0x4000 && Power(15) == 0x8000
  {
    assert Power(5) == 32;
    assert Power(10) == 1024;
  }

  lemma PowerThirty()
    ensures Power(15) == 0x8000 && Power(30) == 0x4000_0000
  {
    assert Power(10) == 0x400 && Power(15) == 0x8000;
    assert Power(20) == 0x10_0000;
    assert Power(25) == 0x200_0000;
  }

  /** A factor of two may stand anywhere in a product. */
  lemma TwiceProduct(x: int, p: int)
    ensures (2 * x) * p == 2 * (x * p) && x * (2 * p) == 2 * (x * p)
  {
  }

  function NormL(x: Word32): (n: nat)
    ensures n <= 31
    ensures x > 0 ==> n <= 30 && 0x4000_0000 <= x * Power(n) <= MAX_32
  {
    if x == 0 then 0
    else if x == -1 then 31
    else if x < 0 then NormPositive(-1 - x)
    else NormPositive(x)
  }

  // ---- small arithmetic facts ----

  lemma Commute(a: int, b: int)
    ensures a * b == b * a
  {
  }

  lemma NextMultiple(p: int, k: int)
    ensures (k + 1) * p == p * k + p && k * p == p * k
  {
  }

  lemma SquareNonNegative(a: int)
    ensures a * a >= 0
  {
    if a >= 0 {
      MulOrder(0, a, a);
    } else {
      MulOrder(0, -a, -a);
    }
  }

  lemma MulOrder(x: int, y: int, z: int)
    requires x <= y && 0 <= z
    ensures x * z <= y * z
  {
  }

  /** |a| <= m and |b| <= n bound the product. */
  lemma ProductBound(a: int, b: int, m: int, n: int)
    requires 0 <= m && 0 <= n
    requires -m <= a <= m && -n <= b <= n
    ensures -(m * n) <= a * b <= m * n
  {
    if b >= 0 {
      MulOrder(a, m, b);
      MulOrder(-m, a, b);
      MulOrder(b, n, m);
    } else {
      MulOrder(a, m, -b);
      MulOrder(-m, a, -b);
      MulOrder(-b, n, m);
    }
  }

  lemma ProductRange(a: Word16, b: Word16)
    ensures -0x4000_0000 <= a * b <= 0x4000_0000
  {
    ProductBound(a, b, 0x8000, 0x8000);
  }

  lemma DivisionBounds(a: int, d: int)
    requires d > 0
    ensures d * (a / d) <= a < d * (a / d) + d
  {
  }

  lemma FloorWithin(a: int, d: int)
    requires d > 0
    ensures if a >= 0 then 0 <= a / d <= a else a <= a / d <= -1
  {
    DivisionBounds(a, d);
    var q := a / d;
    if q >= 0 {
      MulOrder(1, d, q);
    } else {
      MulOrder(1, d, -q);
      if q < a {
        MulOrder(q + 1, a, d);
        MulOrder(1, d, -a);
      }
    }
  }

  lemma HalfRoundRange(a: Word32, n: int)
    requires 0 < n <= 31
    ensures LShr(a, n) < MAX_32
  {
    if n < 31 && a >= 0 {
      HalfAtMost(a, Power(n));
    }
  }

  lemma HalfAtMost(a: int, d: int)
    requires a >= 0 && d >= 2
    ensures 2 * (a / d) <= a
  {
    DivisionBounds(a, d);
    FloorWithin(a, d);
    MulOrder(2, d, a / d);
  }

  lemma NegateFactor(a: int, p: int)
    ensures a * -p == -(a * p)
  {
  }

  /** When nothing overflows, `L_shl` is plain multiplication. */
  lemma LShlExact(a: Word32, n: nat)
    requires n <= 31
    requires MIN_32 <= a * Power(n) <= MAX_32
    ensures LShl(a, n) == a * Power(n)
  {
  }

  lemma AddShExact(s: Word32, a: Word16, shift: int)
    requires 0 <= shift <= 15
    ensures AddSh(s, a, shift) == Sature32(s + a * Power(shift))
    ensures SubSh(s, a, shift) == Sature32(s - a * Power(shift))
    ensures LoadSh(a, shift) == a * Power(shift)
  {
    hide Power;
    NegateFactor(a, Power(shift));
    var t: int := a * Pow2Entry(shift);
    assert t == -(a * Power(shift)) && LMult0(a, Pow2Entry(shift)) == t;
    ProductRange(a, Pow2Entry(shift));
  }

  // ---- the rounding operators in plain integers ----

  /** A rounded right shift is the quotient to the nearest integer, halves upwards. */
  lemma LShrRNearest(a: Word32, n: int)
    requires 1 <= n <= 31
    ensures 0 - Power(n - 1) <= a - (2 * Power(n - 1)) * LShrR(a, n) < Power(n - 1)
  {
    var p := Power(n - 1);
    assert Power(n) == 2 * p;
    ShiftedDown(a, n - 1);
    ShiftedDown(a, n);
    NearestQuotient(a, p);
  }

  /** `L_shr` by less than 32 is the floor of a division. */
  lemma ShiftedDown(a: Word32, n: int)
    requires 0 <= n <= 31
    ensures LShr(a, n) == a / Power(n)
  {
    if n == 31 {
      PowerThirty();
      assert Power(31) == 2 * Power(30);
    }
  }

  lemma NearestQuotient(a: int, p: int)
    requires 0 < p
    ensures 0 - p <= a - (2 * p) * (a / (2 * p) + if a / p % 2 != 0 then 1 else 0) < p
  {
    var h, q := a / p, a / (2 * p);
    DivisionBounds(a, p);
    DivisionBounds(a, 2 * p);
    TwiceProduct(p, q);
    if h > 2 * q + 1 {
      MulOrder(2 * q + 2, h, p);
    }
    if h < 2 * q {
      MulOrder(h + 1, 2 * q, p);
    }
    NextMultiple(p, 2 * q);
    NextMultiple(p, h);
    NextMultiple(2 * p, q);
    assert p * (2 * q) == 2 * (p * q);
  }

  /** `tsc_round` is the high half to the nearest integer, unless it would be 0x8000. */
  lemma TscRoundNearest(a: Word32)
    requires a <= MAX_32 - 0x8000
    ensures -0x8000 <= a - 0x1_0000 * TscRound(a) < 0x8000
  {
  }

  /** `store_hi` is the floor of a division, reduced to 16 bits. */
  lemma StoreHiIs(x: Word32, shift: int)
    requires 0 <= shift <= 7
    ensures StoreHi(x, shift) == Truncate(x / Power(16 - shift))
  {
    ShiftedDown(x, 16 - shift);
  }

  lemma TruncateFits(x: int)
    requires -0x8000 <= x <= 0x7fff
    ensures Truncate(x) == x
  {
  }

  // ---- saturating sums of many terms ----

  /** Terms added one after the other, each sum saturated. */
  function SumInOrder(start: int, terms: seq<int>): int {
    if terms == [] then start
    else Sature32(SumInOrder(start, terms[..|terms| - 1]) + terms[|terms| - 1])
  }

  function Total(start: int, terms: seq<int>): int {
    if terms == [] then start else Total(start, terms[..|terms| - 1]) + terms[|terms| - 1]
  }

  /** No partial sum leaves the 32 bits. */
  ghost predicate NoOverflow(start: int, terms: seq<int>) {
    forall k :: 0 <= k <= |terms| ==> MIN_32 <= Total(start, terms[..k]) <= MAX_32
  }

  /** Saturation does nothing while no partial sum overflows. */
  lemma {:induction false} InOrderIsTotal(start: int, terms: seq<int>)
    requires NoOverflow(start, terms)
    ensures SumInOrder(start, terms) == Total(start, terms)
    ensures MIN_32 <= Total(start, terms) <= MAX_32
  {
    assert terms[..|terms|] == terms;
    if terms != [] {
      var init := terms[..|terms| - 1];
      forall k | 0 <= k <= |init|
        ensures MIN_32 <= Total(start, init[..k]) <= MAX_32
      {
        assert init[..k] == terms[..k];
      }
      InOrderIsTotal(start, init);
    }
  }

  lemma SumOneMore(start: int, terms: seq<int>, last: int)
    ensures SumInOrder(start, terms + [last]) == Sature32(SumInOrder(start, terms) + last)
    ensures Total(start, terms + [last]) == Total(start, terms) + last
    ensures SumInOrder(start, []) == start == Total(start, [])
  {
    assert (terms + [last])[..|terms|] == terms;
  }

  // ---- plain inner products ----

  /** The inner product of two sequences, over the integers. */
  function Dot(x: seq<int>, y: seq<int>): int
    requires |x| == |y|
  {
    if x == [] then 0 else Dot(x[..|x| - 1], y[..|y| - 1]) + Times(x[|x| - 1], y[|y| - 1])
  }

  lemma DotOneMore(x: seq<int>, y: seq<int>, a: int, b: int)
    requires |x| == |y|
    ensures Dot(x + [a], y + [b]) == Dot(x, y) + Times(a, b)
    ensures Dot([], []) == 0
  {
    assert (x + [a])[..|x|] == x && (y + [b])[..|y|] == y;
  }

  /** start plus every partial inner product fits 32 bits. */
  ghost predicate DotFits(start: int, x: seq<int>, y: seq<int>)
    requires |x| == |y|
  {
    forall k :: 0 <= k <= |x| ==> MIN_32 <= start + Dot(x[..k], y[..k]) <= MAX_32
  }

  lemma EmptyDot(x: seq<int>, y: seq<int>)
    requires |x| == |y|
    ensures Dot(x[..0], y[..0]) == 0
  {
  }

  /** The same with the products subtracted. */
  ghost predicate DiffFits(start: int, x: seq<int>, y: seq<int>)
    requires |x| == |y|
  {
    forall k :: 0 <= k <= |x| ==> MIN_32 <= start - Dot(x[..k], y[..k]) <= MAX_32
  }

  lemma NextDot(x: seq<int>, y: seq<int>, n: nat)
    requires |x| == |y| && n < |x|
    ensures Dot(x[..n + 1], y[..n + 1]) == Dot(x[..n], y[..n]) + Times(x[n], y[n])
    ensures Dot(x[..0], y[..0]) == 0
  {
    assert x[..n + 1] == x[..n] + [x[n]] && y[..n + 1] == y[..n] + [y[n]];
    DotOneMore(x[..n], y[..n], x[n], y[n]);
  }

  /** A sum of squares only grows. */
  lemma {:induction false} SquaresGrow(x: seq<int>, k: nat)
    requires k <= |x|
    ensures 0 <= Dot(x[..k], x[..k]) <= Dot(x, x)
    decreases |x| - k
  {
    if k == 0 {
      assert x[..0] == [];
    }
    if k == |x| {
      assert x[..k] == x;
      SquaresAreNatural(x);
    } else {
      SquaresGrow(x, k + 1);
      NextDot(x, x, k);
      SquareNonNegative(x[k]);
      SquaresAreNatural(x[..k]);
    }
  }

  lemma {:induction false} SquaresAreNatural(x: seq<int>)
    ensures Dot(x, x) >= 0
  {
    if x != [] {
      SquaresAreNatural(x[..|x| - 1]);
      SquareNonNegative(x[|x| - 1]);
    }
  }

  /** It is linear. */
  lemma {:induction false} DotSum(x: seq<int>, x1: seq<int>, x2: seq<int>, y: seq<int>)
    requires |x| == |x1| == |x2| == |y| && forall j :: 0 <= j < |x| ==> x[j] == x1[j] + x2[j]
    ensures Dot(x, y) == Dot(x1, y) + Dot(x2, y)
  {
    if x != [] {
      var n := |x| - 1;
      DotSum(x[..n], x1[..n], x2[..n], y[..n]);
      assert Times(x1[n] + x2[n], y[n]) == Times(x1[n], y[n]) + Times(x2[n], y[n]);
    }
  }

  /** A single entry picks one value. */
  lemma {:induction false} DotSingle(x: seq<int>, at: int, w: int, y: seq<int>)
    requires |x| == |y| && forall j :: 0 <= j < |x| ==> x[j] == if j == at then w else 0
    ensures Dot(x, y) == if 0 <= at < |y| then Times(w, y[at]) else 0
  {
    if x != [] {
      var n := |x| - 1;
      DotSingle(x[..n], at, w, y[..n]);
      if at != n {
        assert Times(0, y[n]) == 0;
      }
    }
  }

  // ---- the loops of the C operators, refining the functions above ----

  /** `L_shl`: one doubling per pass, stopping at the first overflow. */
  method LShlLoop(a: Word32, count: Shift) returns (r: Word32)
    ensures r == LShl(a, count)
  {
    if count <= 0 {
      return LShr(a, -count);
    }
    var x, n := a, count;
    r := 0;
    while n > 0
      invariant 0 <= n <= count
      invariant Sature32(x * Power(n)) == Sature32(a * Power(count))
      invariant n < count ==> r == x
    {
      ghost var p := Power(n - 1);
      assert Power(n) == 2 * p;
      assert x * Power(n) == (2 * x) * p;
      if x > 0x3fff_ffff {
        assert (2 * x) * p >= 2 * x;
        return MAX_32;
      } else if x < -0x4000_0000 {
        assert (2 * x) * p <= 2 * x;
        return MIN_32;
      }
      x := x * 2;
      r := x;
      n := n - 1;
    }
  }

  /** `norm_l`: counts the doublings that normalise the value. */
  method NormLLoop(a: Word32) returns (n: nat)
    ensures n == NormL(a)
  {
    if a == 0 {
      return 0;
    }
    if a == -1 {
      return 31;
    }
    var x: Word32 := a;
    if x < 0 {
      x := -1 - x;
    }
    ghost var start := x;
    n := 0;
    while x < 0x4000_0000
      invariant x > 0
      invariant NormPositive(start) == n + NormPositive(x)
      decreases MAX_32 - x
    {
      x := x * 2;
      n := n + 1;
    }
  }
}
