/** Windowed autocorrelation of the analysis frame, normalised so that r[0] fills the 31-bit format. */
module Autocorrelation {
  import opened FixedPoint
  import opened ExtendedPrecision

  const WINDOW_LENGTH := 256

  // ---- specification ----

  /** Sum of y[j] * y[j + lag] over j < n. */
  function Correlation(y: seq<Word16>, lag: nat, n: nat): int
    requires lag + n <= |y|
  {
    if n == 0 then 0 else Correlation(y, lag, n - 1) + Times(y[n - 1], y[n - 1 + lag])
  }

  /** Sum of the squares of n samples from `from`. */
  function Squares(y: seq<Word16>, from: nat, n: nat): (s: int)
    requires from + n <= |y|
    ensures s >= 0
  {
    if n == 0 then 0
    else
      SquareNonNegative(y[from + n - 1]);
      Squares(y, from, n - 1) + Times(y[from + n - 1], y[from + n - 1])
  }

  function Energy(y: seq<Word16>): int {
    Squares(y, 0, |y|)
  }

  function Windowed(x: seq<Word16>, window: seq<Word16>): seq<Word16>
    requires |x| == |window|
  {
    seq(|x|, i requires 0 <= i < |x| => MultR(x[i], window[i]))
  }

  /** The signal divided by four, rounding down. */
  function Quartered(y: seq<Word16>): seq<Word16> {
    seq(|y|, i requires 0 <= i < |y| => Shr(y[i], 2))
  }

  function Rescaled(y: seq<Word16>, times: nat): (r: seq<Word16>)
    ensures |r| == |y|
  {
    if times == 0 then y else Quartered(Rescaled(y, times - 1))
  }

  predicate Fits(y: seq<Word16>) {
    1 + Energy(y) <= MAX_32
  }

  /** The normalised lag value that ends up split over r_h and r_l. */
  function LagValue(y: seq<Word16>, lag: nat): int
    requires Fits(y) && lag <= |y|
  {
    var norm := NormL(1 + Energy(y));
    if lag == 0 then ((1 + Energy(y)) * Power(norm)) / 2
    else Correlation(y, lag, |y| - lag) / 2 * Power(norm)
  }

  // ---- the same in plain integers ----

  /** Windowing multiplies by the window in Q15, to the nearest integer. */
  lemma WindowedIs(x: seq<Word16>, window: seq<Word16>, i: nat)
    requires |x| == |window| && i < |x| && !(x[i] == window[i] == -0x8000)
    ensures -0x4000 <= Times(x[i], window[i]) - Times(0x8000, Windowed(x, window)[i]) < 0x4000
  {
    var a, b := x[i], window[i];
    if a == -0x8000 {
      ProductBound(b, a, 0x7fff, 0x8000);
    } else {
      ProductBound(a, b, 0x7fff, 0x8000);
    }
  }

  /** A signal moved forward, with zeros behind its end. */
  function Moved(y: seq<Word16>, lag: nat): (z: seq<Word16>)
    ensures |z| == |y|
  {
    seq(|y|, j requires 0 <= j < |y| => if j + lag < |y| then y[j + lag] else 0)
  }

  /** A correlation is the inner product of the signal with itself, moved. */
  lemma {:induction false} CorrelationIsDot(y: seq<Word16>, lag: nat, n: nat)
    requires lag <= |y| && n <= |y|
    ensures Dot(y[..n], Moved(y, lag)[..n]) == Correlation(y, lag, if n + lag <= |y| then n else |y| - lag)
  {
    hide Dot;
    var z := Moved(y, lag);
    if n == 0 {
      EmptyDot(y, z);
    } else {
      CorrelationIsDot(y, lag, n - 1);
      NextDot(y, z, n - 1);
      if n + lag > |y| {
        assert z[n - 1] == 0;
      }
    }
  }

  lemma {:induction false} EnergyIsDot(y: seq<Word16>, n: nat)
    requires n <= |y|
    ensures Squares(y, 0, n) == Dot(y[..n], y[..n])
  {
    hide Dot;
    if n == 0 {
      EmptyDot(y, y);
    } else {
      EnergyIsDot(y, n - 1);
      NextDot(y, y, n - 1);
      assert y[0 + n - 1] == y[n - 1];
    }
  }

  /** The rescale loop stops exactly when the energy plus one fits 31 bits. */
  lemma FitsIff(y: seq<Word16>)
    ensures Fits(y) <==> 1 + Dot(y, y) <= 0x7fff_ffff
  {
    EnergyIsDot(y, |y|);
    assert y[..|y|] == y;
  }

  /** A lag value is half the correlation times the power of two that brings the energy, plus one, into the upper half of
      31 bits. */
  ghost predicate LagRight(y: seq<Word16>, lag: nat, v: int) {
    exists n: nat :: 0x4000_0000 <= Times(1 + Dot(y, y), Power(n)) <= MAX_32
      && v == if lag == 0 then Times(1 + Dot(y, y), Power(n)) / 2 else Times(Dot(y, Moved(y, lag)) / 2, Power(n))
  }

  lemma LagValueIs(y: seq<Word16>, lag: nat)
    requires Fits(y) && lag <= |y|
    ensures LagRight(y, lag, LagValue(y, lag))
  {
    hide Dot, Power, Correlation, Squares;
    EnergyIsDot(y, |y|);
    CorrelationIsDot(y, lag, |y|);
    assert y[..|y|] == y && Moved(y, lag)[..|y|] == Moved(y, lag);
    var n := NormL(1 + Energy(y));
    assert 0x4000_0000 <= Times(1 + Dot(y, y), Power(n)) <= MAX_32;
  }

  // ---- bounds ----

  lemma ProductBelowSquares(a: int, b: int)
    ensures -(a * a + b * b) <= 2 * (a * b) <= a * a + b * b
  {
    SquareNonNegative(a - b);
    SquareNonNegative(a + b);
    assert (a - b) * (a - b) == a * a - 2 * (a * b) + b * b;
    assert (a + b) * (a + b) == a * a + 2 * (a * b) + b * b;
  }

  lemma {:induction false} SquaresSplit(y: seq<Word16>, from: nat, m: nat, n: nat)
    requires from + m + n <= |y|
    ensures Squares(y, from, m + n) == Squares(y, from, m) + Squares(y, from + m, n)
  {
    if n > 0 {
      SquaresSplit(y, from, m, n - 1);
      assert from + (m + n) - 1 == (from + m) + n - 1;
    }
  }

  /** Any stretch of the signal has at most the energy of the whole. */
  lemma SquaresWithin(y: seq<Word16>, from: nat, n: nat)
    requires from + n <= |y|
    ensures Squares(y, from, n) <= Energy(y)
  {
    SquaresSplit(y, 0, from, n);
    SquaresSplit(y, 0, from + n, |y| - (from + n));
  }

  /** Cauchy-Schwarz in the form the code needs: twice a correlation is at most two energies. */
  lemma {:induction false} CorrelationBound(y: seq<Word16>, lag: nat, n: nat)
    requires lag + n <= |y|
    ensures -(Squares(y, 0, n) + Squares(y, lag, n)) <= 2 * Correlation(y, lag, n)
    ensures 2 * Correlation(y, lag, n) <= Squares(y, 0, n) + Squares(y, lag, n)
  {
    if n > 0 {
      CorrelationBound(y, lag, n - 1);
      ProductBelowSquares(y[n - 1], y[n - 1 + lag]);
    }
  }

  /** Every partial sum of every lag stays within the energy, so no sum saturates. */
  lemma PartialSumBound(y: seq<Word16>, lag: nat, n: nat)
    requires lag + n <= |y|
    ensures -Energy(y) <= Correlation(y, lag, n) <= Energy(y)
  {
    CorrelationBound(y, lag, n);
    SquaresWithin(y, 0, n);
    SquaresWithin(y, lag, n);
  }

  lemma {:induction false} BoundedEnergy(y: seq<Word16>, n: nat, b: int)
    requires n <= |y| && 0 <= b
    requires forall i :: 0 <= i < |y| ==> -b <= y[i] <= b
    ensures Squares(y, 0, n) <= n * (b * b)
  {
    if n > 0 {
      BoundedEnergy(y, n - 1, b);
      ProductBound(y[n - 1], y[n - 1], b, b);
      assert n * (b * b) == (n - 1) * (b * b) + b * b;
    }
  }

  lemma QuarteredBound(y: seq<Word16>, b: int)
    requires 0 <= b && forall i :: 0 <= i < |y| ==> -4 * b <= y[i] <= 4 * b
    ensures forall i :: 0 <= i < |y| ==> -b <= Quartered(y)[i] <= b
  {
    assert Power(2) == 4;
  }

  /** Two divisions by four bring any 256-sample frame below 2^31. */
  lemma TwoRescalesFit(y: seq<Word16>)
    requires |y| == WINDOW_LENGTH
    ensures Fits(Rescaled(y, 2))
  {
    var once := Rescaled(y, 1);
    assert once == Quartered(Rescaled(y, 0));
    QuarteredBound(y, 0x2000);
    QuarteredBound(once, 0x800);
    var twice := Rescaled(y, 2);
    BoundedEnergy(twice, |twice|, 0x800);
  }

  /** r[0] is normalised and no lag exceeds it. */
  lemma LagsBelowFirst(y: seq<Word16>, lag: nat)
    requires Fits(y) && 0 < lag <= |y|
    ensures 0x2000_0000 <= LagValue(y, 0) <= 0x3fff_ffff
    ensures -LagValue(y, 0) <= LagValue(y, lag) <= LagValue(y, 0)
  {
    var e := 1 + Energy(y);
    var c := Correlation(y, lag, |y| - lag);
    PartialSumBound(y, lag, |y| - lag);
    var norm := NormL(e);
    HalvesUnderScaling(e, c, Power(norm));
  }

  lemma HalvesUnderScaling(e: int, c: int, p: int)
    requires -e < c < e && 0 < p
    ensures -((e * p) / 2) <= c / 2 * p <= (e * p) / 2
  {
    var h := e / 2;
    // |c / 2| <= h because |c| <= e - 1
    assert -h <= c / 2 <= h;
    MulOrder(-h, c / 2, p);
    MulOrder(c / 2, h, p);
    MulOrder(2 * h, e, p);
    assert (2 * h) * p == 2 * (h * p);
    assert -h * p == -(h * p);
  }

  // ---- the routine ----

  /** `Autocorr`: window, rescale until the energy fits, then normalise every lag. */
  method Autocorr(x: array<Word16>, window: seq<Word16>, p: nat, rh: array<Word16>, rl: array<Word16>)
    returns (passes: nat, y: seq<Word16>)
    requires x.Length == |window| == WINDOW_LENGTH && p < WINDOW_LENGTH
    requires rh.Length > p && rl.Length > p && rh != rl
    modifies rh, rl
    ensures 1 <= passes <= 3
    ensures y == Rescaled(Windowed(old(x[..]), window), passes - 1) && Fits(y)
    ensures passes > 1 ==> !Fits(Rescaled(Windowed(old(x[..]), window), passes - 2))
    ensures forall i :: 0 <= i <= p ==> Paired(rh[i], rl[i]) == LagValue(y, i) && 0 <= rl[i]
    ensures forall i :: 0 <= i <= p ==> LagRight(y, i, Paired(rh[i], rl[i]))
    ensures forall i :: 0 <= i <= p ==> -LagValue(y, 0) <= LagValue(y, i) <= LagValue(y, 0)
    ensures 0x2000_0000 <= LagValue(y, 0) <= 0x3fff_ffff
    ensures forall i :: p < i < rh.Length ==> rh[i] == old(rh[i])
    ensures forall i :: p < i < rl.Length ==> rl[i] == old(rl[i])
  {
    var buffer := ApplyWindow(x, window);
    var sum;
    passes, sum := RescaleUntilFits(buffer);
    y := buffer[..];
    NormaliseAndSplit(buffer, sum, p, rh, rl);
    forall i | 0 <= i <= p
      ensures -LagValue(y, 0) <= LagValue(y, i) <= LagValue(y, 0)
    {
      LagsBelowFirst(y, if i == 0 then 1 else i);
    }
    LagsBelowFirst(y, 1);
    hide LagRight, LagValue, Paired;
    forall i | 0 <= i <= p
      ensures LagRight(y, i, Paired(rh[i], rl[i]))
    {
      LagValueIs(y, i);
    }
  }

  method ApplyWindow(x: array<Word16>, window: seq<Word16>) returns (y: array<Word16>)
    requires x.Length == |window|
    ensures fresh(y) && y[..] == Windowed(x[..], window)
  {
    y := new Word16[x.Length];
    for i := 0 to x.Length
      invariant forall k :: 0 <= k < i ==> y[k] == MultR(x[k], window[k])
    {
      y[i] := MultR(x[i], window[i]);
    }
  }

  /** The `do ... while` loop. `overflow` stands for `st->Overflow`: the sums only ever set it, and it
      decides whether the signal is divided by four and summed again. */
  method RescaleUntilFits(y: array<Word16>) returns (passes: nat, sum: Word32)
    requires y.Length == WINDOW_LENGTH
    modifies y
    ensures 1 <= passes <= 3
    ensures y[..] == Rescaled(old(y[..]), passes - 1) && Fits(y[..]) && sum == 1 + Energy(y[..])
    ensures passes > 1 ==> !Fits(Rescaled(old(y[..]), passes - 2))
  {
    ghost var start := y[..];
    var overflow;
    passes := 1;
    sum, overflow := SumOfSquares(y);
    while overflow
      invariant 1 <= passes <= 3
      invariant y[..] == Rescaled(start, passes - 1)
      invariant overflow <==> !Fits(y[..])
      invariant !overflow ==> sum == 1 + Energy(y[..])
      invariant passes > 1 ==> !Fits(Rescaled(start, passes - 2))
      decreases 3 - passes
    {
      TwoRescalesFit(start);
      QuarterInPlace(y);
      passes := passes + 1;
      sum, overflow := SumOfSquares(y);
    }
  }

  /** One pass of the energy loop, with the flag it leaves. */
  method SumOfSquares(y: array<Word16>) returns (sum: Word32, overflow: bool)
    requires y.Length == WINDOW_LENGTH
    ensures overflow <==> !Fits(y[..])
    ensures !overflow ==> sum == 1 + Energy(y[..])
  {
    overflow := false;
    sum := 1;
    for i := 0 to WINDOW_LENGTH
      invariant overflow <==> 1 + Squares(y[..], 0, i) > MAX_32
      invariant !overflow ==> sum == 1 + Squares(y[..], 0, i)
      invariant overflow ==> sum == MAX_32
    {
      ProductRange(y[i], y[i]);
      SquareNonNegative(y[i]);
      overflow := overflow || sum + LMult0(y[i], y[i]) > MAX_32;
      sum := LMac0(sum, y[i], y[i]);
      assert y[..][0 + (i + 1) - 1] == y[i];
    }
  }

  method QuarterInPlace(y: array<Word16>)
    modifies y
    ensures y[..] == Quartered(old(y[..]))
  {
    for i := 0 to y.Length
      invariant forall k :: 0 <= k < i ==> y[k] == Shr(old(y[k]), 2)
      invariant forall k :: i <= k < y.Length ==> y[k] == old(y[k])
    {
      y[i] := Shr(y[i], 2);
    }
  }

  /** The part after the rescale loop: normalise r[0], then every other lag by the same shift. */
  method NormaliseAndSplit(y: array<Word16>, sum: Word32, p: nat, rh: array<Word16>, rl: array<Word16>)
    requires y.Length == WINDOW_LENGTH && p < WINDOW_LENGTH
    requires Fits(y[..]) && sum == 1 + Energy(y[..])
    requires rh.Length > p && rl.Length > p && rh != rl && y != rh && y != rl
    modifies rh, rl
    ensures forall i :: 0 <= i <= p ==> Paired(rh[i], rl[i]) == LagValue(y[..], i) && 0 <= rl[i]
    ensures forall i :: p < i < rh.Length ==> rh[i] == old(rh[i])
    ensures forall i :: p < i < rl.Length ==> rl[i] == old(rl[i])
  {
    var norm := NormL(sum);
    FirstLag(y[..], sum, norm);
    StorePair(LShr(LShl(sum, norm), 1), 0, rh, rl);
    for i := 1 to p + 1
      invariant forall k :: 0 <= k < i ==> Paired(rh[k], rl[k]) == LagValue(y[..], k) && 0 <= rl[k]
      invariant forall k :: p < k < rh.Length ==> rh[k] == old(rh[k])
      invariant forall k :: p < k < rl.Length ==> rl[k] == old(rl[k])
    {
      var c := LagSum(y, i);
      OtherLag(y[..], i, c, norm);
      StorePair(LShl(LShr(c, 1), norm), i, rh, rl);
    }
  }

  /** `L_extract` into slot i of the two output arrays. */
  method StorePair(value: Word32, i: nat, rh: array<Word16>, rl: array<Word16>)
    requires InFormat(value) && i < rh.Length && i < rl.Length && rh != rl
    modifies rh, rl
    ensures Paired(rh[i], rl[i]) == value && 0 <= rl[i]
    ensures forall k :: 0 <= k < rh.Length && k != i ==> rh[k] == old(rh[k])
    ensures forall k :: 0 <= k < rl.Length && k != i ==> rl[k] == old(rl[k])
  {
    SplitIsExact(value);
    var (h, l) := LExtract(value);
    rh[i], rl[i] := h, l;
  }

  /** The inner loop of one lag: the saturating sum is the exact correlation. */
  method LagSum(y: array<Word16>, lag: nat) returns (sum: Word32)
    requires y.Length == WINDOW_LENGTH && lag < WINDOW_LENGTH && Fits(y[..])
    ensures sum == Correlation(y[..], lag, WINDOW_LENGTH - lag)
  {
    sum := 0;
    for j := 0 to WINDOW_LENGTH - lag
      invariant sum == Correlation(y[..], lag, j)
    {
      PartialSumBound(y[..], lag, j + 1);
      ProductRange(y[j], y[j + lag]);
      sum := LMac0(sum, y[j], y[j + lag]);
    }
  }

  lemma FirstLag(s: seq<Word16>, sum: Word32, norm: nat)
    requires Fits(s) && sum == 1 + Energy(s) && norm == NormL(sum)
    ensures LShr(LShl(sum, norm), 1) == LagValue(s, 0)
    ensures InFormat(LShr(LShl(sum, norm), 1))
  {
    LShlExact(sum, norm);
    assert Power(1) == 2;
  }

  lemma OtherLag(s: seq<Word16>, lag: nat, c: Word32, norm: nat)
    requires Fits(s) && 0 < lag <= |s| && c == Correlation(s, lag, |s| - lag)
    requires norm == NormL(1 + Energy(s))
    ensures LShl(LShr(c, 1), norm) == LagValue(s, lag)
    ensures InFormat(LShl(LShr(c, 1), norm))
  {
    assert Power(1) == 2;
    LagsBelowFirst(s, lag);
    LShlExact(LShr(c, 1), norm);
  }
}
