/** Fractional pitch lags in thirds of a sample: the closed-loop search, and the indices that carry the lag
    over the channel. */
module PitchLag {
  import opened FixedPoint
  import Ltp = LongTermPrediction

  const PIT_MIN: Word16 := 20
  const PIT_MAX: Word16 := 143
  const LG_INTER := 4

  // ---- search windows ----

  datatype Window = Window(min: Word16, max: Word16)

  /** The window around an open-loop lag, for the first subframe. */
  function FirstWindow(open: Word16): Window {
    var low := if Sub(open, 2) < PIT_MIN then PIT_MIN else Sub(open, 2);
    var high := Add(low, 4);
    if high > PIT_MAX then Window(Sub(PIT_MAX, 4), PIT_MAX) else Window(low, high)
  }

  /** The window around the first subframe's lag, for the other three. */
  function NextWindow(lag: Word16): Window {
    var low := if Sub(lag, 5) < PIT_MIN then PIT_MIN else Sub(lag, 5);
    var high := Add(low, 9);
    if high > PIT_MAX then Window(Sub(PIT_MAX, 9), PIT_MAX) else Window(low, high)
  }

  lemma WindowsWithinRange(lag: Word16)
    ensures var w := FirstWindow(lag); PIT_MIN <= w.min && w.max == w.min + 4 && w.max <= PIT_MAX
    ensures var w := NextWindow(lag); PIT_MIN <= w.min && w.max == w.min + 9 && w.max <= PIT_MAX
  {
  }

  /** In plain integers: a window of five lags around the open-loop lag, one of ten around the first lag, each moved into
      20 .. 143. */
  lemma WindowsAre(lag: Word16)
    ensures var low: int := (lag as int) - 2;
            var from := if low < 20 then 20 else if low > 139 then 139 else low;
            FirstWindow(lag) == Window(from, from + 4)
    ensures var low: int := (lag as int) - 5;
            var from := if low < 20 then 20 else if low > 134 then 134 else low;
            NextWindow(lag) == Window(from, from + 9)
  {
  }

  // ---- legal lags ----

  /** What the first subframe can carry: thirds from 19 1/3 to 84 2/3, then integers 85 to 143. */
  predicate LegalFirst(lag: int, frac: int) {
    && -1 <= frac <= 1
    && 19 <= lag <= 143
    && (lag == 19 ==> frac == 1)
    && (lag == 85 ==> frac <= 0)
    && (lag > 85 ==> frac == 0)
  }

  /** What the others can carry: thirds from min - 2/3 to max + 2/3. */
  predicate LegalNext(lag: int, frac: int, w: Window) {
    && -1 <= frac <= 1
    && w.min - 1 <= lag <= w.max + 1
    && (lag == w.min - 1 ==> frac == 1)
    && (lag == w.max + 1 ==> frac == -1)
  }

  // ---- indices ----

  /** `Coder_Tetra`, first subframe. */
  function FirstIndex(lag: Word16, frac: Word16): Word16 {
    if lag <= 85 then Add(Sub(Add(lag, Add(lag, lag)), 58), frac) else Add(lag, 112)
  }

  /** `Coder_Tetra`, other subframes. */
  function NextIndex(lag: Word16, frac: Word16, min: Word16): Word16 {
    var i := Sub(lag, min);
    Add(Add(Add(i, Add(i, i)), 2), frac)
  }

  /** `Decod_Tetra`, first subframe; 10923 is one third in Q15. */
  function DecodedFirst(index: Word16): (Word16, Word16) {
    if index < 197 then
      var lag := Add(Mult(Add(index, 2), 10923), 19);
      (lag, Add(index, Sub(58, Add(lag, Add(lag, lag)))))
    else
      (Sub(index, 112), 0)
  }

  /** `Decod_Tetra`, other subframes. */
  function DecodedNext(index: Word16, min: Word16): (Word16, Word16) {
    LagFromThird(Mult(Add(index, 2), 10923), index, min)
  }

  function LagFromThird(third: Word16, index: Word16, min: Word16): (Word16, Word16) {
    var i := Sub(third, 1);
    (Add(min, i), Sub(index, Add(Add(i, Add(i, i)), 2)))
  }

  /** Multiplying by 10923 and dropping 15 bits divides small numbers by three. */
  lemma ThirdByMultiplication(n: Word16, q: int)
    requires 0 <= n <= 198 && 3 * q <= n <= 3 * q + 2
    ensures Mult(n, 10923) == q
  {
    assert q * 0x8000 <= n * 10923 < (q + 1) * 0x8000;
  }

  /** In plain integers: thirds are counted from 19 1/3 up to 84 2/3, whole lags follow. */
  lemma FirstIndexValue(lag: Word16, frac: Word16)
    requires LegalFirst(lag, frac)
    ensures FirstIndex(lag, frac) == if lag <= 85 then 3 * lag + frac - 58 else lag + 112
  {
  }

  /** The 8-bit index is a bijection with the legal lags. */
  lemma FirstIndexRoundTrip(lag: Word16, frac: Word16)
    requires LegalFirst(lag, frac)
    ensures 0 <= FirstIndex(lag, frac) < 256
    ensures DecodedFirst(FirstIndex(lag, frac)) == (lag, frac)
  {
    var index := FirstIndex(lag, frac);
    if index < 197 {
      ThirdByMultiplication(Add(index, 2), (index + 2) / 3);
    }
  }

  lemma DecodedFirstLegal(index: Word16)
    requires 0 <= index < 256
    ensures var (lag, frac) := DecodedFirst(index);
            LegalFirst(lag, frac) && FirstIndex(lag, frac) == index
  {
    hide Power;
    if index < 197 {
      ThirdByMultiplication(Add(index, 2), (index + 2) / 3);
    }
  }

  predicate NextWindowRange(w: Window) {
    PIT_MIN <= w.min && w.max == w.min + 9 && w.max <= PIT_MAX
  }

  lemma NextIndexValue(lag: Word16, frac: Word16, w: Window)
    requires LegalNext(lag, frac, w) && NextWindowRange(w)
    ensures NextIndex(lag, frac, w.min) == 3 * (lag - w.min) + 2 + frac
  {
  }

  /** The 5-bit index is a bijection with the legal lags of its window. */
  lemma NextIndexRoundTrip(lag: Word16, frac: Word16, w: Window)
    requires LegalNext(lag, frac, w) && NextWindowRange(w)
    ensures 0 <= NextIndex(lag, frac, w.min) < 32
    ensures DecodedNext(NextIndex(lag, frac, w.min), w.min) == (lag, frac)
  {
    NextIndexValue(lag, frac, w);
    var index := NextIndex(lag, frac, w.min);
    ThirdByMultiplication(Add(index, 2), lag - w.min + 1);
    FromThird(index, lag - w.min, frac, w.min);
  }

  lemma FromThird(index: Word16, i: int, frac: int, min: Word16)
    requires 0 <= min <= 0x1000 && -1 <= i <= 10 && -1 <= frac <= 1 && index == 3 * i + 2 + frac
    ensures LagFromThird(i + 1, index, min) == (min + i, frac)
  {
  }

  lemma DecodedNextLegal(index: Word16, w: Window)
    requires 0 <= index < 32 && NextWindowRange(w)
    ensures var (lag, frac) := DecodedNext(index, w.min);
            LegalNext(lag, frac, w) && NextIndex(lag, frac, w.min) == index
  {
    ThirdByMultiplication(Add(index, 2), (index + 2) / 3);
  }

  // ---- the closed-loop search ----

  const COEF_M1_3: seq<Word16> := [-236, 1050, -3572, 12714, 26674, -5217, 1630, -384]
  const COEF_1_3: seq<Word16> := [-384, 1630, -5217, 26674, 12714, -3572, 1050, -236]

  /** `Inter8_M1_3` and `Inter8_1_3` at position k. */
  function Inter8M13(x: seq<Word16>, k: int): Word32
    requires 4 <= k && k + 4 <= |x|
  {
    assert |COEF_M1_3| == 8;
    Ltp.MacSum(x, k - 4, COEF_M1_3, 8)
  }

  function Inter813(x: seq<Word16>, k: int): Word32
    requires 3 <= k && k + 5 <= |x|
  {
    assert |COEF_1_3| == 8;
    Ltp.MacSum(x, k - 3, COEF_1_3, 8)
  }

  /** The interpolated correlation f thirds away from position k. */
  function Score(corr: seq<Word16>, k: int, f: int): Word32
    requires 4 <= k && k + 5 <= |corr| && -2 <= f <= 2
  {
    if f == 0 then LoadSh(corr[k], 15)
    else if f == 1 then Inter813(corr, k)
    else if f == 2 then Inter8M13(corr, k + 1)
    else if f == -2 then Inter813(corr, k - 1)
    else Inter8M13(corr, k)
  }

  /** The correlation f thirds away from position k, in plain integers: eight samples around it, interpolated in Q15. */
  function Interpolated(corr: seq<Word16>, k: int, f: int): int
    requires 4 <= k && k + 5 <= |corr| && -2 <= f <= 2
  {
    if f == 0 then 0x8000 * corr[k]
    else Dot(Around(corr, k, f), Filter(f))
  }

  /** The samples from three or four before k, and the filter whose phase f stands for. */
  function Around(corr: seq<Word16>, k: int, f: int): (x: seq<Word16>)
    requires 4 <= k && k + 5 <= |corr|
    ensures |x| == 8
  {
    if f > 0 then corr[k - 3..k + 5] else corr[k - 4..k + 4]
  }

  function Filter(f: int): (c: seq<Word16>)
    ensures |c| == 8
  {
    if f == 1 || f == -2 then [-384, 1630, -5217, 26674, 12714, -3572, 1050, -236]
    else [-236, 1050, -3572, 12714, 26674, -5217, 1630, -384]
  }

  lemma ScoreIs(corr: seq<Word16>, k: int, f: int)
    requires 4 <= k && k + 5 <= |corr| && -2 <= f <= 2
    requires DotFits(0, Around(corr, k, f), Filter(f))
    ensures Score(corr, k, f) == Interpolated(corr, k, f)
  {
    hide Dot, Power, Ltp.MacSum;
    if f == 0 {
      LoadedHigh(corr[k]);
    } else {
      var at := if f > 0 then k - 3 else k - 4;
      var x, c := Around(corr, k, f), Filter(f);
      assert x == corr[at..at + 8];
      Ltp.MacSumIs(corr, at, c, 8);
      assert x[..8] == x && c[..8] == c;
    }
  }

  lemma LoadedHigh(x: Word16)
    ensures LoadSh(x, 15) == 0x8000 * x
  {
    hide Power;
    PowerThirty();
    AddShExact(0, x, 15);
  }

  /** f is the best third around k, in plain integers, as long as no sum overflows. */
  ghost predicate ThirdRight(corr: seq<Word16>, k: int, f: int)
    requires 4 <= k && k + 5 <= |corr| && -2 <= f <= 2
  {
    (forall g :: -2 <= g <= 2 ==> DotFits(0, Around(corr, k, g), Filter(g))) ==>
      forall g :: -2 <= g <= 2 ==> Interpolated(corr, k, g) <= Interpolated(corr, k, f)
  }

  lemma BestThirdIs(corr: seq<Word16>, k: int, f: int)
    requires 4 <= k && k + 5 <= |corr| && -2 <= f <= 2 && BestThird(corr, k, f)
    ensures ThirdRight(corr, k, f)
  {
    hide Score, Interpolated, DotFits, Around, Filter;
    if forall g :: -2 <= g <= 2 ==> DotFits(0, Around(corr, k, g), Filter(g)) {
      ScoreIs(corr, k, f);
      forall g | -2 <= g <= 2
        ensures Interpolated(corr, k, g) <= Interpolated(corr, k, f)
      {
        ScoreIs(corr, k, g);
      }
    }
  }

  /** The correlation of lag t; the buffer starts four lags below the window. */
  function At(corr: seq<Word16>, w: Window, t: int): Word16
    requires w.min - LG_INTER <= t && t - w.min + LG_INTER < |corr|
  {
    corr[t - w.min + LG_INTER]
  }

  /** f is the best of the five fractions around position k. */
  predicate BestThird(corr: seq<Word16>, k: int, f: int)
    requires 4 <= k && k + 5 <= |corr| && -2 <= f <= 2
  {
    && Score(corr, k, 0) <= Score(corr, k, f)
    && Score(corr, k, 1) <= Score(corr, k, f)
    && Score(corr, k, 2) <= Score(corr, k, f)
    && Score(corr, k, -2) <= Score(corr, k, f)
    && Score(corr, k, -1) <= Score(corr, k, f)
  }

  /** `Pitch_Fr` from the normalised correlations of the lags t0_min - 4 .. t0_max + 4. The winning lag, in
      thirds, is the last best integer lag, moved by the best of five fractions around it. */
  method PitchFr(corr: seq<Word16>, w: Window, first: bool)
    returns (lag: Word16, frac: Word16, ghost best: int, ghost third: int)
    requires PIT_MIN <= w.min <= w.max <= PIT_MAX && |corr| >= w.max - w.min + 1 + 2 * LG_INTER
    ensures w.min <= best <= w.max && -2 <= third <= 2
    ensures 3 * lag + frac == 3 * best + third && -1 <= frac <= 1
    ensures forall t :: w.min <= t <= best ==> At(corr, w, t) <= At(corr, w, best)
    ensures forall t :: best < t <= w.max ==> At(corr, w, t) < At(corr, w, best)
    ensures if first && best > 84 then third == 0
            else BestThird(corr, best - w.min + LG_INTER, third) && ThirdRight(corr, best - w.min + LG_INTER, third)
    ensures if first then LegalFirst(lag, frac) else LegalNext(lag, frac, w)
  {
    hide BestThird, ThirdRight;
    var tMin := Sub(w.min, LG_INTER);
    var max := corr[w.min - tMin];
    lag := w.min;
    for i := w.min + 1 to w.max + 1
      invariant w.min <= lag <= w.max && lag < i
      invariant max == At(corr, w, lag)
      invariant forall t :: w.min <= t <= lag ==> At(corr, w, t) <= max
      invariant forall t :: lag < t < i ==> At(corr, w, t) < max
    {
      assert corr[i - tMin] == At(corr, w, i);
      if Sub(corr[i - tMin], max) >= 0 {
        max := corr[i - tMin];
        lag := i;
      }
    }
    best, third := lag, 0;
    if first && Sub(lag, 84) > 0 {
      frac := 0;
      return;
    }
    frac := BestFraction(corr, lag - tMin);
    third := frac;
    BestThirdIs(corr, lag - tMin, third);
    if Sub(frac, 2) == 0 {
      frac := -1;
      lag := Add(lag, 1);
    }
    if Sub(frac, -2) == 0 {
      frac := 1;
      lag := Sub(lag, 1);
    }
  }

  /** The four tests after the integer search. */
  method BestFraction(corr: seq<Word16>, k: int) returns (frac: Word16)
    requires 4 <= k && k + 5 <= |corr|
    ensures -2 <= frac <= 2 && BestThird(corr, k, frac)
  {
    frac := LastBest(LoadSh(corr[k], 15), Inter813(corr, k), Inter8M13(corr, k + 1), Inter813(corr, k - 1),
                     Inter8M13(corr, k));
  }

  /** Scores of 0, +1/3, +2/3, -2/3 and -1/3, tried in this order; a later one wins a tie. */
  method LastBest(s0: Word32, s1: Word32, s2: Word32, m2: Word32, m1: Word32) returns (frac: Word16)
    ensures -2 <= frac <= 2
    ensures var top := if frac == 0 then s0 else if frac == 1 then s1 else if frac == 2 then s2
                       else if frac == -2 then m2 else m1;
            && s0 <= top && s1 <= top && s2 <= top && m2 <= top && m1 <= top
            && (frac != -1 ==> m1 < top)
            && (frac != -1 && frac != -2 ==> m2 < top)
            && ((frac == 0 || frac == 1) ==> s2 < top)
            && (frac == 0 ==> s1 < top)
  {
    frac := 0;
    var lMax := s0;
    if LSub(s1, lMax) >= 0 {
      lMax := s1;
      frac := 1;
    }
    if LSub(s2, lMax) >= 0 {
      lMax := s2;
      frac := 2;
    }
    if LSub(m2, lMax) >= 0 {
      lMax := m2;
      frac := -2;
    }
    if LSub(m1, lMax) >= 0 {
      lMax := m1;
      frac := -1;
    }
  }
}
