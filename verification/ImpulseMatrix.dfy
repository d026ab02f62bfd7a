/** The 32 x 32 matrix of impulse-response correlations that the codebook search reads. */
module ImpulseMatrix {
  import opened FixedPoint
  import opened Autocorrelation

  const L := 60
  const DIM := 32
  const HALF := 30

  // ---- specification ----

  /** The saturating energy that `Cal_Rr2` normalises by. */
  function SaturatedEnergy(h: seq<Word16>, n: nat): Word32
    requires n <= |h|
  {
    if n == 0 then 0 else LMac0(SaturatedEnergy(h, n - 1), h[n - 1], h[n - 1])
  }

  function ScaleShift(h: seq<Word16>): (k: int)
    ensures -1 <= k <= 15
  {
    assert Power(1) == 2;
    Shr(Sub(NormL(SaturatedEnergy(h, |h|)), 1), 1)
  }

  function Scaled(h: seq<Word16>): (hs: seq<Word16>)
    ensures |hs| == |h|
  {
    seq(|h|, i requires 0 <= i < |h| => Shl(h[i], ScaleShift(h)))
  }

  /** The saturating sum of 2 * hs[t] * hs[t + lag] over t < n. */
  function MacSum(hs: seq<Word16>, lag: nat, n: nat): Word32
    requires lag + n <= |hs|
  {
    if n == 0 then 0 else LMac(MacSum(hs, lag, n - 1), hs[n - 1], hs[n - 1 + lag])
  }

  /** What cell (i, j) should hold, for rows at or below the diagonal. */
  function Entry(hs: seq<Word16>, i: int, j: int): Word16
    requires |hs| == L && 0 <= j <= i < HALF
  {
    ExtractH(MacSum(hs, 2 * (i - j), L - 2 * i))
  }

  function Cell(rr: seq<Word16>, i: int, j: int): Word16
    requires |rr| == DIM * DIM && 0 <= i < DIM && 0 <= j < DIM
  {
    rr[DIM * i + j]
  }

  ghost predicate Filled(rr: seq<Word16>, hs: seq<Word16>, diagonals: int, cells: int)
    requires |rr| == DIM * DIM && |hs| == L
  {
    forall i, j :: 0 <= j <= i < HALF && (i - j < diagonals || (i - j == diagonals && i >= HALF - cells))
      ==> Cell(rr, i, j) == Entry(hs, i, j) && Cell(rr, j, i) == Entry(hs, i, j)
  }

  /** Rows and columns 30 and 31. */
  ghost predicate SameMargin(rr: seq<Word16>, before: seq<Word16>)
    requires |rr| == |before| == DIM * DIM
  {
    forall i, j :: 0 <= i < DIM && 0 <= j < DIM && (i >= HALF || j >= HALF)
      ==> Cell(rr, i, j) == Cell(before, i, j)
  }

  // ---- the routine ----

  /** `Cal_Rr2`: one diagonal at a time, both triangles at once, by two pointers that step back 33. */
  method CalRr2(h: array<Word16>, rr: array<Word16>)
    requires h.Length == L && rr.Length == DIM * DIM && h != rr
    modifies rr
    ensures Filled(rr[..], Scaled(h[..]), HALF, 0) && ScaledRight(h[..], Scaled(h[..]))
    ensures SameMargin(rr[..], old(rr[..]))
  {
    ScaledIs(h[..]);
    hide ScaledRight;
    var hs := ScaleResponse(h);
    var finC, finR := 957, 957;
    for d := 0 to HALF
      invariant finC == 957 - d && finR == 957 - DIM * d
      invariant hs[..] == Scaled(h[..])
      invariant Filled(rr[..], hs[..], d, 0)
      invariant SameMargin(rr[..], old(rr[..]))
    {
      FillDiagonal(hs, d, finC, finR, rr);
      finC := finC - 1;
      finR := finR - DIM;
    }
  }

  method ScaleResponse(h: array<Word16>) returns (hs: array<Word16>)
    requires h.Length == L
    ensures fresh(hs) && hs[..] == Scaled(h[..])
  {
    var s: Word32 := 0;
    for i := 0 to L
      invariant s == SaturatedEnergy(h[..], i)
    {
      s := LMac0(s, h[i], h[i]);
    }
    assert Power(1) == 2;
    var k := Shr(Sub(NormL(s), 1), 1);
    hs := new Word16[L];
    for i := 0 to L
      invariant forall t :: 0 <= t < i ==> hs[t] == Shl(h[t], k)
    {
      hs[i] := Shl(h[i], k);
    }
  }

  /** The inner loop: diagonal d, from its last cell back to the first row. */
  method FillDiagonal(hs: array<Word16>, d: nat, finC: int, finR: int, rr: array<Word16>)
    requires hs.Length == L && rr.Length == DIM * DIM && hs != rr && d < HALF
    requires finC == 957 - d && finR == 957 - DIM * d
    requires Filled(rr[..], hs[..], d, 0)
    modifies rr
    ensures Filled(rr[..], hs[..], d + 1, 0)
    ensures SameMargin(rr[..], old(rr[..]))
  {
    var ph, phd := 0, 2 * d;
    var ij, ji := finC, finR;
    var s: Word32 := 0;
    for m := 0 to HALF - d
      invariant ph == 2 * m && phd == 2 * d + 2 * m
      invariant ij == finC - 33 * m && ji == finR - 33 * m
      invariant s == MacSum(hs[..], 2 * d, 2 * m)
      invariant Filled(rr[..], hs[..], d, m)
      invariant SameMargin(rr[..], old(rr[..]))
    {
      TwoMacs(hs[..], 2 * d, m);
      s := LMac(s, hs[ph], hs[phd]);
      s := LMac(s, hs[ph + 1], hs[phd + 1]);
      ph, phd := ph + 2, phd + 2;
      EntryIs(hs[..], d, m);
      ghost var before := rr[..];
      StoreBoth(rr, ij, ji, ExtractH(s), hs[..], d, m);
      SameMarginChains(rr[..], before, old(rr[..]));
      ij, ji := ij - 33, ji - 33;
    }
    DiagonalDone(rr[..], hs[..], d);
  }

  lemma EntryIs(hs: seq<Word16>, d: nat, m: nat)
    requires |hs| == L && d + m < HALF
    ensures Entry(hs, HALF - 1 - m, HALF - 1 - m - d) == ExtractH(MacSum(hs, 2 * d, 2 * m + 2))
  {
    var i := HALF - 1 - m;
    assert L - 2 * i == 2 * m + 2 && 2 * (i - (i - d)) == 2 * d;
  }

  lemma DiagonalDone(rr: seq<Word16>, hs: seq<Word16>, d: nat)
    requires |rr| == DIM * DIM && |hs| == L && d < HALF
    requires Filled(rr, hs, d, HALF - d)
    ensures Filled(rr, hs, d + 1, 0)
  {
  }

  /** The two stores of one step: row end and column end of the same value. */
  method StoreBoth(rr: array<Word16>, ij: int, ji: int, v: Word16, ghost hs: seq<Word16>, ghost d: nat, ghost m: nat)
    requires rr.Length == DIM * DIM && |hs| == L && d + m < HALF
    requires ij == 957 - d - 33 * m && ji == 957 - DIM * d - 33 * m
    requires v == Entry(hs, HALF - 1 - m, HALF - 1 - m - d)
    requires Filled(rr[..], hs, d, m)
    modifies rr
    ensures Filled(rr[..], hs, d, m + 1)
    ensures SameMargin(rr[..], old(rr[..]))
  {
    ghost var before := rr[..];
    rr[ij] := v;
    rr[ji] := v;
    ghost var middle := Put(before, HALF - 1 - m, HALF - 1 - m - d, v);
    assert rr[..] == Put(middle, HALF - 1 - m - d, HALF - 1 - m, v);
    CellsWritten(before, rr[..], hs, d, m, v);
  }

  lemma SameMarginChains(c: seq<Word16>, b: seq<Word16>, a: seq<Word16>)
    requires |a| == |b| == |c| == DIM * DIM && SameMargin(c, b) && SameMargin(b, a)
    ensures SameMargin(c, a)
  {
    forall i, j | 0 <= i < DIM && 0 <= j < DIM && (i >= HALF || j >= HALF)
      ensures Cell(c, i, j) == Cell(a, i, j)
    {
      assert Cell(c, i, j) == Cell(b, i, j);
    }
  }

  function Put(rr: seq<Word16>, i: int, j: int, v: Word16): seq<Word16>
    requires |rr| == DIM * DIM && 0 <= i < DIM && 0 <= j < DIM
  {
    rr[DIM * i + j := v]
  }

  lemma CellOfPut(rr: seq<Word16>, i: int, j: int, v: Word16, a: int, b: int)
    requires |rr| == DIM * DIM && 0 <= i < DIM && 0 <= j < DIM && 0 <= a < DIM && 0 <= b < DIM
    ensures Cell(Put(rr, i, j, v), a, b) == if a == i && b == j then v else Cell(rr, a, b)
  {
  }

  lemma CellsWritten(before: seq<Word16>, after: seq<Word16>, hs: seq<Word16>, d: nat, m: nat, v: Word16)
    requires |before| == |after| == DIM * DIM && |hs| == L && d + m < HALF
    requires v == Entry(hs, HALF - 1 - m, HALF - 1 - m - d)
    requires after == Put(Put(before, HALF - 1 - m, HALF - 1 - m - d, v), HALF - 1 - m - d, HALF - 1 - m, v)
    requires Filled(before, hs, d, m)
    ensures Filled(after, hs, d, m + 1)
    ensures SameMargin(after, before)
  {
    var r, c := HALF - 1 - m, HALF - 1 - m - d;
    var middle := Put(before, r, c, v);
    forall i, j | 0 <= j <= i < HALF && (i - j < d || (i - j == d && i >= HALF - (m + 1)))
      ensures Cell(after, i, j) == Entry(hs, i, j) && Cell(after, j, i) == Entry(hs, i, j)
    {
      CellOfPut(before, r, c, v, i, j);
      CellOfPut(before, r, c, v, j, i);
      CellOfPut(middle, c, r, v, i, j);
      CellOfPut(middle, c, r, v, j, i);
    }
    forall i, j | 0 <= i < DIM && 0 <= j < DIM && (i >= HALF || j >= HALF)
      ensures Cell(after, i, j) == Cell(before, i, j)
    {
      CellOfPut(before, r, c, v, i, j);
      CellOfPut(middle, c, r, v, i, j);
    }
  }

  lemma TwoMacs(hs: seq<Word16>, lag: nat, m: nat)
    requires lag + 2 * m + 2 <= |hs|
    ensures MacSum(hs, lag, 2 * m + 2)
            == LMac(LMac(MacSum(hs, lag, 2 * m), hs[2 * m], hs[2 * m + lag]), hs[2 * m + 1], hs[2 * m + 1 + lag])
  {
    assert MacSum(hs, lag, 2 * m + 1) == LMac(MacSum(hs, lag, 2 * m), hs[2 * m], hs[2 * m + lag]);
  }

  // ---- nothing saturates when the energy fits ----

  ghost predicate EnergyFits(h: seq<Word16>) {
    Energy(h) <= MAX_32
  }

  lemma {:induction false} EnergyUnsaturated(h: seq<Word16>, n: nat)
    requires n <= |h| && EnergyFits(h)
    ensures SaturatedEnergy(h, n) == Squares(h, 0, n)
  {
    if n > 0 {
      EnergyUnsaturated(h, n - 1);
      SquaresWithin(h, 0, n);
      ProductRange(h[n - 1], h[n - 1]);
      assert h[0 + n - 1] == h[n - 1];
    }
  }

  /** The scaled response keeps less than 2^30 of energy. */
  ghost predicate HalfEnergy(hs: seq<Word16>) {
    Energy(hs) < 0x4000_0000
  }

  lemma {:induction false} MacSumExact(hs: seq<Word16>, lag: nat, n: nat)
    requires lag + n <= |hs| && HalfEnergy(hs)
    ensures MacSum(hs, lag, n) == 2 * Correlation(hs, lag, n)
  {
    if n > 0 {
      MacSumExact(hs, lag, n - 1);
      PartialSumBound(hs, lag, n);
      SquaresWithin(hs, n - 1, 1);
      SingleSquare(hs, n - 1);
      ProductRange(hs[n - 1], hs[n - 1 + lag]);
      NotBothMinimum(hs[n - 1], hs[n - 1 + lag]);
    }
  }

  lemma SingleSquare(hs: seq<Word16>, k: nat)
    requires k < |hs|
    ensures Squares(hs, k, 1) == Times(hs[k], hs[k])
  {
    assert Squares(hs, k, 0) == 0;
    assert hs[k + 1 - 1] == hs[k];
  }

  lemma NotBothMinimum(a: Word16, b: Word16)
    requires Times(a, a) < 0x4000_0000
    ensures Times(a, b) < 0x4000_0000
  {
    if a != -0x8000 {
      ProductBound(a, b, 0x7fff, 0x8000);
    }
  }

  lemma SampleBelowEnergy(h: seq<Word16>, i: nat)
    requires i < |h|
    ensures Times(h[i], h[i]) <= Energy(h)
  {
    SquaresWithin(h, i, 1);
    SingleSquare(h, i);
  }

  /** Shifting left by k multiplies a square by 2^(2k); below 2^30 the shift itself is exact. */
  lemma ShiftedSquare(a: Word16, k: nat)
    requires k <= 15 && Times(a, a) * Power(2 * k) < 0x4000_0000
    ensures Shl(a, k) == Times(a, Power(k))
    ensures Times(Shl(a, k), Shl(a, k)) == Times(a, a) * Power(2 * k)
  {
    PowerSum(k, k);
    var b := Times(a, Power(k));
    SquareOfProduct(a, Power(k));
    SquareRoot(b);
  }

  lemma SquareOfProduct(a: int, p: int)
    ensures Times(a * p, a * p) == Times(a, a) * (p * p)
  {
    assert (a * p) * (a * p) == (a * a) * (p * p);
  }

  lemma SquareRoot(b: int)
    requires Times(b, b) < 0x4000_0000
    ensures -0x8000 < b < 0x8000
  {
    if b >= 0x8000 {
      MulOrder(0x8000, b, b);
    } else if b <= -0x8000 {
      MulOrder(0x8000, -b, -b);
    }
  }

  lemma {:induction false} ShiftedEnergy(h: seq<Word16>, hs: seq<Word16>, k: nat, n: nat)
    requires |h| == |hs| && n <= |h| && k <= 15
    requires forall i :: 0 <= i < |h| ==> hs[i] == Shl(h[i], k)
    requires Energy(h) * Power(2 * k) < 0x4000_0000
    ensures Squares(hs, 0, n) == Squares(h, 0, n) * Power(2 * k)
  {
    if n > 0 {
      ShiftedEnergy(h, hs, k, n - 1);
      SampleBelowEnergy(h, n - 1);
      MulOrder(Times(h[n - 1], h[n - 1]), Energy(h), Power(2 * k));
      ShiftedSquare(h[n - 1], k);
      assert h[0 + n - 1] == h[n - 1] && hs[0 + n - 1] == hs[n - 1];
      DistributeRight(Squares(h, 0, n - 1), Times(h[n - 1], h[n - 1]), Power(2 * k));
    }
  }

  lemma DistributeRight(a: int, b: int, c: int)
    ensures (a + b) * c == a * c + b * c
  {
  }

  lemma HalvedSquare(a: Word16)
    ensures 4 * Times(a / 2, a / 2) <= Times(a, a) + 0x1_0001
  {
    var q := a / 2;
    if a == 2 * q {
      assert a * a == 4 * (q * q);
    } else {
      assert a == 2 * q + 1;
      assert a * a == 4 * (q * q) + 4 * q + 1;
    }
  }

  lemma {:induction false} HalvedEnergy(h: seq<Word16>, hs: seq<Word16>, n: nat)
    requires |h| == |hs| && n <= |h|
    requires forall i :: 0 <= i < |h| ==> hs[i] == h[i] / 2
    ensures 4 * Squares(hs, 0, n) <= Squares(h, 0, n) + 0x1_0001 * n
  {
    if n > 0 {
      HalvedEnergy(h, hs, n - 1);
      HalvedSquare(h[n - 1]);
      assert h[0 + n - 1] == h[n - 1] && hs[0 + n - 1] == hs[n - 1];
    }
  }

  /** The shift chosen from the energy leaves one guard bit. */
  lemma ScaledHasHalfEnergy(h: seq<Word16>)
    requires |h| == L && EnergyFits(h)
    ensures HalfEnergy(Scaled(h))
  {
    EnergyUnsaturated(h, |h|);
    var e := Energy(h);
    var n := NormL(e);
    var k := ScaleShift(h);
    var m: int := n;
    assert Power(1) == 2;
    assert k == (m - 1) / 2;
    if n == 0 {
      HalvedEnergy(h, Scaled(h), L);
    } else {
      PowerMonotone(2 * k, n - 1);
      GuardBit(e, Power(2 * k), Power(n - 1));
      ShiftedEnergy(h, Scaled(h), k, L);
    }
  }

  /** The scaled response in plain integers. It is the given one, times the largest power of two that leaves its energy
      below 2^30, which is then at least 2^28; or, for no energy at all and for 2^30 and more, halved. */
  ghost predicate ScaledRight(h: seq<Word16>, hs: seq<Word16>)
    requires |h| == |hs|
  {
    if 0 < Energy(h) < 0x4000_0000 then
      exists k: nat ::
        && k <= 15 && 0x1000_0000 <= Times(Energy(h), Power(2 * k)) < 0x4000_0000
        && forall i :: 0 <= i < |h| ==> hs[i] == Times(h[i], Power(k))
    else
      forall i :: 0 <= i < |h| ==> hs[i] == h[i] / 2
  }

  lemma ScaledIs(h: seq<Word16>)
    requires |h| == L
    ensures ScaledRight(h, Scaled(h))
  {
    if !EnergyFits(h) {
      SaturatedIsHalved(h);
    } else {
      EnergyUnsaturated(h, |h|);
      var e := Energy(h);
      var n := NormL(e);
      assert ScaleShift(h) == HalfLess(n);
      if 0 < e < 0x4000_0000 {
        NormPositiveIs(e, n);
        ShiftFromNorm(h, e, n);
      } else {
        FullNorm(e);
        HalvingShift(h);
      }
    }
  }

  /** One less than n, halved, rounding down. */
  function HalfLess(n: nat): int {
    assert Power(1) == 2;
    ((n as int) - 1) / 2
  }

  lemma NormPositiveIs(e: Word32, n: nat)
    requires 0 < e < 0x4000_0000 && n == NormL(e)
    ensures 1 <= n <= 30 && 0x4000_0000 <= e * Power(n) <= MAX_32
  {
  }

  lemma FullNorm(e: Word32)
    requires e == 0 || e >= 0x4000_0000
    ensures NormL(e) == 0
  {
  }

  lemma HalvingShift(h: seq<Word16>)
    requires ScaleShift(h) == -1
    ensures forall i :: 0 <= i < |h| ==> Scaled(h)[i] == h[i] / 2
  {
    assert Power(0) == 1 && Power(1) == 2;
  }

  lemma ShiftFromNorm(h: seq<Word16>, e: Word32, n: nat)
    requires |h| == L && EnergyFits(h) && e == Energy(h) && 1 <= n <= 30 && ScaleShift(h) == HalfLess(n)
    requires 0x4000_0000 <= e * Power(n) <= MAX_32
    ensures 0 <= HalfLess(n) <= 15
    ensures var k := HalfLess(n);
            && 0x1000_0000 <= Times(e, Power(2 * k)) < 0x4000_0000
            && forall i :: 0 <= i < |h| ==> Scaled(h)[i] == Times(h[i], Power(k))
  {
    hide Power, Energy;
    var k: nat := HalfLess(n);
    BelowNorm(e, n, k);
    forall i | 0 <= i < |h|
      ensures Scaled(h)[i] == Times(h[i], Power(k))
    {
      SampleBelowEnergy(h, i);
      MulOrder(Times(h[i], h[i]), e, Power(2 * k));
      ShiftedSquare(h[i], k);
    }
  }

  lemma BelowNorm(e: int, n: nat, k: nat)
    requires 0 < e && 1 <= n <= 30 && k == (n - 1) / 2 && 0x4000_0000 <= e * Power(n) <= MAX_32
    ensures k <= 15 && 0x1000_0000 <= Times(e, Power(2 * k)) < 0x4000_0000
  {
    var p := Power(2 * k);
    if n == 2 * k + 1 {
      assert Power(n) == 2 * p;
      TwiceProduct(e, p);
    } else {
      assert n == 2 * k + 2;
      assert Power(n - 1) == 2 * p && Power(n) == 2 * (2 * p);
      TwiceProduct(e, p);
      TwiceProduct(e, 2 * p);
    }
  }

  /** The samples halved, rounding down. */
  function Halved(h: seq<Word16>): (hs: seq<Word16>)
    ensures |hs| == |h|
  {
    seq(|h|, i requires 0 <= i < |h| => h[i] / 2)
  }

  /** Once the energy sum saturates it stays there. */
  lemma {:induction false} EnergySaturated(h: seq<Word16>, n: nat)
    requires n <= |h|
    ensures SaturatedEnergy(h, n) == if Squares(h, 0, n) <= MAX_32 then Squares(h, 0, n) else MAX_32
  {
    if n > 0 {
      EnergySaturated(h, n - 1);
      SquareNonNegative(h[n - 1]);
      ProductRange(h[n - 1], h[n - 1]);
    }
  }

  /** A response whose energy sum saturates is halved, which need not be enough. */
  lemma SaturatedIsHalved(h: seq<Word16>)
    requires |h| == L && !EnergyFits(h)
    ensures Scaled(h) == Halved(h)
  {
    EnergySaturated(h, |h|);
    assert Power(0) == 1 && Power(1) == 2;
    assert ScaleShift(h) == -1;
    forall i | 0 <= i < |h|
      ensures Scaled(h)[i] == Halved(h)[i]
    {
    }
  }

  /** When the scaled response has its guard bit. */
  lemma GuardBitIff(h: seq<Word16>)
    requires |h| == L
    ensures HalfEnergy(Scaled(h)) <==> EnergyFits(h) || HalfEnergy(Halved(h))
  {
    if EnergyFits(h) {
      ScaledHasHalfEnergy(h);
    } else {
      SaturatedIsHalved(h);
    }
  }

  lemma {:induction false} LoudSquares(h: seq<Word16>, v: int, n: nat)
    requires n <= |h| && forall i :: 0 <= i < |h| ==> h[i] == v
    ensures Squares(h, 0, n) == Times(n, Times(v, v))
  {
    if n > 0 {
      LoudSquares(h, v, n - 1);
    }
  }

  /** Full-scale samples are a response without it. */
  lemma LoudResponse(h: seq<Word16>)
    requires |h| == L && forall i :: 0 <= i < |h| ==> h[i] == 0x7fff
    ensures !HalfEnergy(Scaled(h))
  {
    LoudSquares(h, 0x7fff, L);
    LoudSquares(Halved(h), 0x3fff, L);
    GuardBitIff(h);
  }

  /** The guard bit is what the sums need: without it the first one saturates. */
  lemma ExactIffGuardBit(hs: seq<Word16>)
    requires |hs| == L
    ensures HalfEnergy(hs) <==> forall lag: nat, n: nat :: lag + n <= L ==> MacSum(hs, lag, n) == 2 * Correlation(hs, lag, n)
  {
    if HalfEnergy(hs) {
      forall lag: nat, n: nat | lag + n <= L
        ensures MacSum(hs, lag, n) == 2 * Correlation(hs, lag, n)
      {
        MacSumExact(hs, lag, n);
      }
    } else {
      CorrelationIsEnergy(hs, L);
      assert MacSum(hs, 0, L) <= MAX_32 < 2 * Correlation(hs, 0, L);
    }
  }

  lemma {:induction false} CorrelationIsEnergy(hs: seq<Word16>, n: nat)
    requires n <= |hs|
    ensures Correlation(hs, 0, n) == Squares(hs, 0, n)
  {
    if n > 0 {
      CorrelationIsEnergy(hs, n - 1);
    }
  }

  lemma GuardBit(e: int, p: int, q: int)
    requires 0 <= e && 0 < p <= q && e * (2 * q) <= MAX_32
    ensures e * p < 0x4000_0000
  {
    MulOrder(p, q, e);
    assert e * (2 * q) == 2 * (q * e);
    assert e * p == p * e;
  }

  /** The definition of the matrix: sum of hs[t - 2i] * hs[t - 2j] over t < n. */
  function Overlap(hs: seq<Word16>, i: nat, j: nat, n: nat): int
    requires j <= i && n <= |hs|
  {
    if n <= 2 * i then 0 else Overlap(hs, i, j, n - 1) + Times(hs[n - 1 - 2 * i], hs[n - 1 - 2 * j])
  }

  lemma {:induction false} OverlapIsCorrelation(hs: seq<Word16>, i: nat, j: nat, n: nat)
    requires j <= i && 2 * i <= n <= |hs|
    ensures Overlap(hs, i, j, n) == Correlation(hs, 2 * (i - j), n - 2 * i)
  {
    if n > 2 * i {
      OverlapIsCorrelation(hs, i, j, n - 1);
    }
  }

  /** The diagonal recursion fills every cell of the 30 x 30 block with the high half of twice the
      defining sum, without saturation, whenever the scaled response has its guard bit; in particular when the
      energy sum of the response does not saturate. */
  lemma MatrixIsExact(h: seq<Word16>, rr: seq<Word16>, i: nat, j: nat)
    requires |h| == L && (EnergyFits(h) || HalfEnergy(Halved(h))) && |rr| == DIM * DIM
    requires Filled(rr, Scaled(h), HALF, 0) && j <= i < HALF
    ensures MIN_32 <= 2 * Overlap(Scaled(h), i, j, L) <= MAX_32
    ensures Cell(rr, i, j) == Cell(rr, j, i) == 2 * Overlap(Scaled(h), i, j, L) / 0x1_0000
  {
    var hs := Scaled(h);
    GuardBitIff(h);
    OverlapIsCorrelation(hs, i, j, L);
    MacSumExact(hs, 2 * (i - j), L - 2 * i);
    assert Cell(rr, i, j) == Entry(hs, i, j);
  }

  /** Rows and columns 30 and 31 of a matrix that starts at zero stay zero through any number of calls. */
  ghost predicate ZeroMargin(rr: seq<Word16>)
    requires |rr| == DIM * DIM
  {
    forall i, j :: 0 <= i < DIM && 0 <= j < DIM && (i >= HALF || j >= HALF) ==> Cell(rr, i, j) == 0
  }

  lemma ZeroMarginKept(before: seq<Word16>, after: seq<Word16>)
    requires |before| == |after| == DIM * DIM && SameMargin(after, before) && ZeroMargin(before)
    ensures ZeroMargin(after)
  {
    forall i, j | 0 <= i < DIM && 0 <= j < DIM && (i >= HALF || j >= HALF)
      ensures Cell(after, i, j) == 0
    {
      assert Cell(after, i, j) == Cell(before, i, j);
    }
  }

  /** Over any number of calls that each keep the border, a zero border stays zero. */
  lemma {:induction false} ZeroMarginOverCalls(matrices: seq<seq<Word16>>)
    requires |matrices| > 0 && forall k :: 0 <= k < |matrices| ==> |matrices[k]| == DIM * DIM
    requires ZeroMargin(matrices[0])
    requires forall k :: 0 <= k < |matrices| - 1 ==> SameMargin(matrices[k + 1], matrices[k])
    ensures ZeroMargin(matrices[|matrices| - 1])
    decreases |matrices|
  {
    var n := |matrices|;
    if n > 1 {
      ZeroMarginOverCalls(matrices[..n - 1]);
      assert SameMargin(matrices[n - 2 + 1], matrices[n - 2]);
      ZeroMarginKept(matrices[n - 2], matrices[n - 1]);
    }
  }
}
