/** The adaptive codebook: the past excitation, interpolated in place at a fractional lag. */
module LongTermPrediction {
  import opened FixedPoint
  import opened Synthesis

  /** The two 32-tap interpolation filters, for -1/3 and +1/3. */
  datatype Taps = Taps(minus: seq<Word16>, plus: seq<Word16>) {
    predicate Valid() {
      |minus| == 32 && |plus| == 32
    }

    function For(frac: int): seq<Word16> {
      if frac == 1 then plus else minus
    }
  }

  function TetraTaps(): (taps: Taps)
    ensures taps.Valid()
  {
    var minus: seq<Word16> := [
      -49, 66, -96, 142, -207, 294, -407, 553, -739,
      981, -1304, 1758, -2452, 3688, -6669, 27072, 13496, -5287, 3179,
      -2182, 1587, -1185, 893, -672, 500, -366, 263, -183, 125,
      -84, 59, -47];
    var plus: seq<Word16> := [
      -47, 59, -84, 125, -183, 263, -366, 500, -672, 893,
      -1185, 1587, -2182, 3179, -5287, 13496, 27072, -6669, 3688, -2452,
      1758, -1304, 981, -739, 553, -407, 294, -207, 142, -96,
      66, -49];
    Taps(minus, plus)
  }

  // ---- specification: each sample is a function of the samples before it ----

  /** The saturating sum of n products of samples from x[at] and coefficients. */
  function MacSum(x: seq<Word16>, at: int, coef: seq<Word16>, n: nat): Word32
    requires n <= |coef| && 0 <= at && at + n <= |x|
  {
    if n == 0 then 0 else LMac0(MacSum(x, at, coef, n - 1), x[at + n - 1], coef[n - 1])
  }

  function Rounded(s: Word32): Word16 {
    TscRound(LDouble(s))
  }

  /** Lags the interpolation can serve from `known` samples of history: it reaches 16 samples back beyond
      the lag and 16 forward, and a lag of at least 17 keeps all of those in the past. */
  predicate Reachable(known: int, lag: int, frac: int) {
    && -1 <= frac <= 1
    && (if frac == 0 then 1 <= lag <= known else 17 <= lag <= known - 16)
  }

  function NextSample(taps: Taps, past: seq<Word16>, lag: int, frac: int): Word16
    requires taps.Valid() && Reachable(|past|, lag, frac)
  {
    if frac == 0 then past[|past| - lag]
    else Rounded(MacSum(past, |past| - lag - (if frac == 1 then 16 else 15), taps.For(frac), 32))
  }

  /** The history followed by n predicted samples, each computed from everything before it. */
  function Extended(taps: Taps, past: seq<Word16>, lag: int, frac: int, n: nat): (x: seq<Word16>)
    requires taps.Valid() && Reachable(|past|, lag, frac)
    ensures |x| == |past| + n
  {
    if n == 0 then past
    else
      var shorter := Extended(taps, past, lag, frac, n - 1);
      shorter + [NextSample(taps, shorter, lag, frac)]
  }

  /** Prediction only appends. */
  lemma {:induction false} ExtendedPrefix(taps: Taps, past: seq<Word16>, lag: int, frac: int, n: nat)
    requires taps.Valid() && Reachable(|past|, lag, frac)
    ensures Extended(taps, past, lag, frac, n)[..|past|] == past
  {
    if n > 0 {
      ExtendedPrefix(taps, past, lag, frac, n - 1);
    }
  }

  lemma {:induction false} MacSumPrefix(x: seq<Word16>, y: seq<Word16>, at: int, coef: seq<Word16>, n: nat)
    requires n <= |coef| && 0 <= at && at + n <= |x| <= |y|
    requires y[..|x|] == x
    ensures MacSum(x, at, coef, n) == MacSum(y, at, coef, n)
  {
    if n > 0 {
      MacSumPrefix(x, y, at, coef, n - 1);
      assert x[at + n - 1] == y[..|x|][at + n - 1];
    }
  }

  // ---- what a predicted sample is, in plain integers ----

  /** The sample one lag back, or the interpolation around it: the inner product of 32 past samples with the filter, in
      Q15 to the nearest integer, as long as no partial sum overflows and the result fits 16 bits. */
  ghost predicate SampleRight(y: int, past: seq<Word16>, lag: int, frac: int, taps: Taps)
    requires taps.Valid() && Reachable(|past|, lag, frac)
  {
    if frac == 0 then y == past[|past| - lag]
    else
      var at := |past| - lag - (if frac == 1 then 16 else 15);
      var filter := if frac == 1 then taps.plus else taps.minus;
      var s := Dot(past[at..at + 32], filter);
      DotFits(0, past[at..at + 32], filter) && -0x4000_0000 <= s < 0x3fff_c000 ==> -0x4000 <= s - 0x8000 * y < 0x4000
  }

  lemma {:induction false} MacSumIs(x: seq<Word16>, at: int, coef: seq<Word16>, n: nat)
    requires n <= |coef| && 0 <= at && at + |coef| <= |x|
    requires DotFits(0, x[at..at + |coef|], coef)
    ensures MacSum(x, at, coef, n) == Dot(x[at..at + |coef|][..n], coef[..n])
  {
    var w := x[at..at + |coef|];
    hide Dot;
    if n == 0 {
      EmptyDot(w, coef);
    } else {
      MacSumIs(x, at, coef, n - 1);
      NextDot(w, coef, n - 1);
      assert w[n - 1] == x[at + n - 1];
    }
  }

  lemma RoundedIs(s: Word32)
    requires -0x4000_0000 <= s < 0x3fff_c000
    ensures -0x4000 <= s - 0x8000 * Rounded(s) < 0x4000
  {
    TscRoundNearest(2 * s);
  }

  lemma NextSampleIs(taps: Taps, past: seq<Word16>, lag: int, frac: int)
    requires taps.Valid() && Reachable(|past|, lag, frac)
    ensures SampleRight(NextSample(taps, past, lag, frac), past, lag, frac, taps)
  {
    hide Dot, Rounded;
    if frac != 0 {
      var at := |past| - lag - (if frac == 1 then 16 else 15);
      var filter := if frac == 1 then taps.plus else taps.minus;
      var w := past[at..at + 32];
      var s := Dot(w, filter);
      if DotFits(0, w, filter) && -0x4000_0000 <= s < 0x3fff_c000 {
        MacSumIs(past, at, filter, 32);
        assert w[..32] == w && filter[..32] == filter;
        RoundedIs(s);
      }
    }
  }

  /** Each new sample of an extended history, from the samples before it. */
  lemma {:induction false} ExtendedIs(taps: Taps, past: seq<Word16>, lag: int, frac: int, n: nat, i: nat)
    requires taps.Valid() && Reachable(|past|, lag, frac) && i < n
    ensures var x := Extended(taps, past, lag, frac, n);
            SampleRight(x[|past| + i], x[..|past| + i], lag, frac, taps)
  {
    hide SampleRight, NextSample;
    var shorter, x := Extended(taps, past, lag, frac, n - 1), Extended(taps, past, lag, frac, n);
    if i == n - 1 {
      assert x[..|past| + i] == shorter;
      NextSampleIs(taps, shorter, lag, frac);
    } else {
      ExtendedIs(taps, past, lag, frac, n - 1, i);
      assert x[..|past| + i] == shorter[..|past| + i];
    }
  }

  /** The two filters are mirror images. */
  lemma TapsMirror(k: nat)
    requires k < 32
    ensures TetraTaps().plus[k] == TetraTaps().minus[31 - k]
  {
    if k < 16 {
      LeadingTaps(k);
    } else {
      TrailingTaps(k);
    }
  }

  lemma LeadingTaps(k: nat)
    requires k < 16
    ensures TetraTaps().plus[k] == TetraTaps().minus[31 - k]
  {
  }

  lemma TrailingTaps(k: nat)
    requires 16 <= k < 32
    ensures TetraTaps().plus[k] == TetraTaps().minus[31 - k]
  {
  }

  /** Every sample from `pos` on is what the samples before it predict. */
  ghost predicate PredictedRight(x: seq<Word16>, pos: nat, lag: int, frac: int, taps: Taps)
    requires taps.Valid() && pos <= |x| && Reachable(pos, lag, frac)
  {
    forall i :: pos <= i < |x| ==> SampleRight(x[i], x[..i], lag, frac, taps)
  }

  lemma ExtensionIs(taps: Taps, past: seq<Word16>, lag: int, frac: int, n: nat)
    requires taps.Valid() && Reachable(|past|, lag, frac)
    ensures PredictedRight(Extended(taps, past, lag, frac, n), |past|, lag, frac, taps)
  {
    hide SampleRight, Extended;
    var x := Extended(taps, past, lag, frac, n);
    forall i | |past| <= i < |x|
      ensures SampleRight(x[i], x[..i], lag, frac, taps)
    {
      ExtendedIs(taps, past, lag, frac, n, i - |past|);
    }
  }

  // ---- the routine ----

  /** `Inter32_1_3` and `Inter32_M1_3`: 32 products from x[at], doubled and rounded. */
  method Interpolate(x: array<Word16>, at: int, coef: seq<Word16>) returns (sample: Word16)
    requires |coef| == 32 && 0 <= at && at + 32 <= x.Length
    ensures sample == Rounded(MacSum(x[..], at, coef, 32))
  {
    var s: Word32 := 0;
    for i := 0 to 32
      invariant s == MacSum(x[..], at, coef, i)
    {
      s := LMac0(s, x[at + i], coef[i]);
    }
    s := LDouble(s);
    sample := TscRound(s);
  }

  /** `Pred_Lt` on the 60 samples at `pos`. The result depends on the samples before `pos` alone: whatever
      the subframe held is overwritten unread. */
  method PredLt(taps: Taps, exc: array<Word16>, pos: nat, lag: int, frac: int)
    requires taps.Valid() && pos + L_SUBFR <= exc.Length && Reachable(pos, lag, frac)
    modifies exc
    ensures exc[..pos + L_SUBFR] == Extended(taps, old(exc[..pos]), lag, frac, L_SUBFR)
    ensures exc[pos + L_SUBFR..] == old(exc[pos + L_SUBFR..])
    ensures PredictedRight(exc[..pos + L_SUBFR], pos, lag, frac, taps)
  {
    hide PredictedRight;
    ghost var past := exc[..pos];
    for i := 0 to L_SUBFR
      invariant exc[..pos + i] == Extended(taps, past, lag, frac, i)
      invariant exc[pos + L_SUBFR..] == old(exc[pos + L_SUBFR..])
    {
      ghost var shorter := exc[..pos + i];
      var sample := SampleAt(taps, exc, pos + i, lag, frac);
      exc[pos + i] := sample;
      assert exc[..pos + i + 1] == shorter + [sample];
    }
    ExtensionIs(taps, past, lag, frac, L_SUBFR);
  }

  /** One pass of the loop body, for whichever fraction applies. */
  method SampleAt(taps: Taps, exc: array<Word16>, at: nat, lag: int, frac: int) returns (sample: Word16)
    requires taps.Valid() && at < exc.Length && Reachable(at, lag, frac)
    ensures sample == NextSample(taps, exc[..at], lag, frac)
  {
    if frac == 0 {
      sample := exc[at - lag];
    } else if frac == 1 {
      sample := InterpolateAt(exc, at, at - lag - 16, taps.plus);
    } else {
      sample := InterpolateAt(exc, at, at - lag - 15, taps.minus);
    }
  }

  method InterpolateAt(exc: array<Word16>, at: nat, from: int, coef: seq<Word16>) returns (sample: Word16)
    requires |coef| == 32 && 0 <= from && from + 32 <= at <= exc.Length
    ensures sample == Rounded(MacSum(exc[..at], from, coef, 32))
  {
    sample := Interpolate(exc, from, coef);
    assert exc[..][..at] == exc[..at];
    MacSumPrefix(exc[..at], exc[..], from, coef, 32);
  }
}
