/** Short-term filters shared by the encoder and the decoder: spectral expansion, the synthesis filter, the
    interpolation of the spectral pairs, and the noise filter of the codebook. */
module Synthesis {
  import opened FixedPoint
  import opened ExtendedPrecision

  const ORDER := 10
  const L_SUBFR := 60

  type Lpc = a: seq<Word16> | |a| == 11 witness [0, 0, 0, 0, 0, 0, 0, 0, 0, 0, 0]
  type Factors = f: seq<Word16> | |f| == 10 witness [0, 0, 0, 0, 0, 0, 0, 0, 0, 0]

  function Zeros(n: nat): (z: seq<Word16>)
    ensures |z| == n && forall i :: 0 <= i < n ==> z[i] == 0
  {
    seq(n, i => 0)
  }

  // ---- bandwidth expansion ----

  /** `Pond_Ai`. */
  function PondAi(a: Lpc, fac: Factors): Lpc {
    [a[0]] + seq(ORDER, i requires 0 <= i < ORDER => TscRound(LMult(a[i + 1], fac[i])))
  }

  /** `Fac_Pond`: the first n powers of gamma. */
  function FacPond(gamma: Word16, n: nat): (fac: seq<Word16>)
    requires n > 0
    ensures |fac| == n
  {
    if n == 1 then [gamma]
    else
      var shorter := FacPond(gamma, n - 1);
      shorter + [TscRound(LMult(shorter[n - 2], gamma))]
  }

  function FactorsOf(gamma: Word16): Factors {
    FacPond(gamma, ORDER)
  }

  /** The expanded coefficients in plain integers: each is multiplied by its own factor, in Q15 to the nearest. */
  ghost predicate ExpandedRight(a: Lpc, fac: Factors, r: Lpc) {
    && r[0] == a[0]
    && forall i :: 0 <= i < ORDER && fac[i] >= 0 ==> -0x4000 <= Times(a[i + 1], fac[i]) - Times(0x8000, r[i + 1]) < 0x4000
  }

  lemma PondAiIs(a: Lpc, fac: Factors)
    ensures ExpandedRight(a, fac, PondAi(a, fac))
  {
    hide TscRound, LMult;
    forall i | 0 <= i < ORDER && fac[i] >= 0
      ensures -0x4000 <= Times(a[i + 1], fac[i]) - Times(0x8000, PondAi(a, fac)[i + 1]) < 0x4000
    {
      RoundedProduct(a[i + 1], fac[i]);
    }
  }

  lemma RoundedProduct(a: Word16, b: Word16)
    requires 0 <= b
    ensures -0x4000 <= Times(a, b) - Times(0x8000, TscRound(LMult(a, b))) < 0x4000
    ensures 0 <= a ==> 0 <= TscRound(LMult(a, b))
  {
    ProductBound(a, b, 0x8000, 0x7fff);
    if a >= 0 {
      MulOrder(0, a, b);
      ProductBound(a, b, 0x7fff, 0x7fff);
    }
    TscRoundNearest(LMult(a, b));
  }

  /** The factors are the powers of gamma in plain integers: each is the one before times gamma, in Q15 to the nearest. */
  ghost predicate PowersRight(gamma: int, fac: seq<Word16>) {
    && (|fac| > 0 ==> fac[0] == gamma)
    && (forall i :: 0 <= i < |fac| ==> fac[i] >= 0)
    && forall i :: 0 < i < |fac| ==> -0x4000 <= Times(fac[i - 1], gamma) - Times(0x8000, fac[i]) < 0x4000
  }

  lemma {:induction false} FacPondIs(gamma: Word16, n: nat)
    requires n > 0 && gamma >= 0
    ensures PowersRight(gamma, FacPond(gamma, n))
  {
    hide TscRound, LMult;
    if n > 1 {
      FacPondIs(gamma, n - 1);
      RoundedProduct(FacPond(gamma, n - 1)[n - 2], gamma);
    }
  }

  // ---- the synthesis filter ----

  /** The feedback sum over the last n outputs. */
  function Feedback(a: Lpc, past: seq<Word16>, s: Word32, n: nat): Word32
    requires n <= ORDER <= |past|
  {
    if n == 0 then s else LMsu0(Feedback(a, past, s, n - 1), a[n], past[|past| - n])
  }

  function FilterStep(a: Lpc, past: seq<Word16>, x: Word16): Word16
    requires ORDER <= |past|
  {
    ExtractH(LShl(AddSh(Feedback(a, past, LoadSh(x, 12), ORDER), 1, 11), 4))
  }

  /** The memory followed by the outputs for the inputs x. */
  function Filtered(a: Lpc, mem: Factors, x: seq<Word16>): (out: seq<Word16>)
    ensures |out| == ORDER + |x|
    decreases |x|
  {
    if x == [] then mem
    else
      var past := Filtered(a, mem, x[..|x| - 1]);
      past + [FilterStep(a, past, x[|x| - 1])]
  }

  /** `Syn_Filt` as a function of coefficients, input and memory. */
  function SynFilt(a: Lpc, x: seq<Word16>, mem: Factors): (y: seq<Word16>)
    ensures |y| == |x|
  {
    Filtered(a, mem, x)[ORDER..]
  }

  /** One output in plain integers: the input in Q12, less the last ten outputs each times its own coefficient, divided
      by 4096 to the nearest integer, as long as no partial sum overflows and the result fits 16 bits. */
  ghost predicate OutputRight(y: int, past: seq<Word16>, a: Lpc, x: int)
    requires ORDER <= |past|
  {
    var recent := seq(ORDER, j requires 0 <= j < ORDER => past[|past| - 1 - j]);
    var s := 4096 * x - Dot(a[1..], recent);
    DiffFits(4096 * x, a[1..], recent) && -0x800_0000 <= s < 0x800_0000 - 2048 ==> -2048 <= s - 4096 * y < 2048
  }

  lemma {:induction false} FeedbackIs(a: Lpc, past: seq<Word16>, recent: seq<Word16>, s: Word32, n: nat)
    requires n <= ORDER <= |past| && |recent| == ORDER
    requires forall j :: 0 <= j < ORDER ==> recent[j] == past[|past| - 1 - j]
    requires DiffFits(s, a[1..], recent)
    ensures Feedback(a, past, s, n) == s - Dot(a[1..][..n], recent[..n])
  {
    hide Dot;
    var c: seq<int> := a[1..];
    if n == 0 {
      NextDot(c, recent, 0);
    } else {
      FeedbackIs(a, past, recent, s, n - 1);
      NextDot(c, recent, n - 1);
      assert c[n - 1] == a[n] && recent[n - 1] == past[|past| - n];
    }
  }

  lemma FilterStepIs(a: Lpc, past: seq<Word16>, x: Word16)
    requires ORDER <= |past|
    ensures OutputRight(FilterStep(a, past, x), past, a, x)
  {
    hide Dot, Feedback, Power, Pow2Entry, AddSh, LoadSh, LShl;
    var recent := seq(ORDER, j requires 0 <= j < ORDER => past[|past| - 1 - j]);
    var s := 4096 * x - Dot(a[1..], recent);
    if DiffFits(4096 * x, a[1..], recent) && -0x800_0000 <= s < 0x800_0000 - 2048 {
      FeedbackIs(a, past, recent, 4096 * x, ORDER);
      assert a[1..][..ORDER] == a[1..] && recent[..ORDER] == recent;
      LoadedInput(x);
      RoundedOutput(s);
    }
  }

  lemma LoadedInput(x: Word16)
    ensures LoadSh(x, 12) == 4096 * x
  {
    hide Power, LoadSh;
    SmallPowers();
    AddShExact(0, x, 12);
  }

  lemma RoundedOutput(s: Word32)
    requires -0x800_0000 <= s < 0x800_0000 - 2048
    ensures -2048 <= s - 4096 * ExtractH(LShl(AddSh(s, 1, 11), 4)) < 2048
  {
    hide Power, AddSh, LShl;
    SmallPowers();
    AddShExact(s, 1, 11);
    LShlExact(s + 2048, 4);
  }

  /** A filter's outputs in plain integers: each from the memory, the outputs before it, and its input. */
  ghost predicate FilterRight(a: Lpc, x: seq<Word16>, mem: Factors, y: seq<Word16>) {
    |y| == |x| && forall i :: 0 <= i < |x| ==> OutputRight(y[i], mem + y[..i], a, x[i])
  }

  lemma {:induction false} FilteredIs(a: Lpc, mem: Factors, x: seq<Word16>, i: nat)
    requires i < |x|
    ensures var z := Filtered(a, mem, x);
            OutputRight(z[ORDER + i], z[..ORDER + i], a, x[i])
    ensures Filtered(a, mem, x)[..ORDER] == mem
  {
    hide FilterStep, OutputRight;
    var n := |x| - 1;
    var shorter, z := Filtered(a, mem, x[..n]), Filtered(a, mem, x);
    if i == n {
      assert z[..ORDER + i] == shorter;
      FilterStepIs(a, shorter, x[n]);
      if n > 0 {
        FilteredIs(a, mem, x[..n], 0);
        assert z[..ORDER] == shorter[..ORDER];
      } else {
        assert z[..ORDER] == shorter == mem;
      }
    } else {
      FilteredIs(a, mem, x[..n], i);
      assert z[..ORDER + i] == shorter[..ORDER + i] && z[..ORDER] == shorter[..ORDER];
    }
  }

  lemma SynFiltIs(a: Lpc, x: seq<Word16>, mem: Factors)
    ensures FilterRight(a, x, mem, SynFilt(a, x, mem))
  {
    hide OutputRight, Filtered;
    var z, y := Filtered(a, mem, x), SynFilt(a, x, mem);
    forall i | 0 <= i < |x|
      ensures OutputRight(y[i], mem + y[..i], a, x[i])
    {
      FilteredIs(a, mem, x, i);
      assert mem + y[..i] == z[..ORDER + i];
    }
  }

  /** The memory that an updating call leaves: the last ten outputs. */
  function NextMemory(y: seq<Word16>): Factors
    requires |y| >= ORDER
  {
    y[|y| - ORDER..]
  }

  /** A copy loop into a buffer. */
  method StoreAt(dst: array<Word16>, at: nat, v: seq<Word16>)
    requires at + |v| <= dst.Length
    modifies dst
    ensures dst[at..at + |v|] == v
    ensures dst[..at] == old(dst[..at]) && dst[at + |v|..] == old(dst[at + |v|..])
  {
    for i := 0 to |v|
      invariant dst[at..at + i] == v[..i]
      invariant dst[..at] == old(dst[..at]) && dst[at + |v|..] == old(dst[at + |v|..])
    {
      dst[at + i] := v[i];
    }
  }

  /** A buffer with given contents. */
  method FreshCopy(v: seq<Word16>) returns (a: array<Word16>)
    ensures fresh(a) && a.Length == |v| && a[..] == v
  {
    a := new Word16[|v|];
    StoreAt(a, 0, v);
    assert a[0..0 + |v|] == a[..];
  }

  /** `Syn_Filt` on buffers. All input and all memory is read before any output is stored, so x may be y, and
      mem may lie inside y when it is not updated. */
  method SynFiltBuffers(a: Lpc, x: array<Word16>, xo: nat, y: array<Word16>, yo: nat, lg: nat,
                        mem: array<Word16>, mo: nat, update: bool)
    requires xo + lg <= x.Length && yo + lg <= y.Length && mo + ORDER <= mem.Length && lg >= ORDER
    requires update ==> mem != y
    modifies y, if update then {mem} else {}
    ensures y[yo..yo + lg] == SynFilt(a, old(x[xo..xo + lg]), old(mem[mo..mo + ORDER]))
    ensures FilterRight(a, old(x[xo..xo + lg]), old(mem[mo..mo + ORDER]), y[yo..yo + lg])
    ensures y[..yo] == old(y[..yo]) && y[yo + lg..] == old(y[yo + lg..])
    ensures update ==> mem[mo..mo + ORDER] == NextMemory(y[yo..yo + lg])
    ensures update ==> mem[..mo] == old(mem[..mo]) && mem[mo + ORDER..] == old(mem[mo + ORDER..])
  {
    hide FilterStep, Feedback, Filtered, FilterRight;
    SynFiltIs(a, x[xo..xo + lg], mem[mo..mo + ORDER]);
    var tmp := FilterAll(a, x[xo..xo + lg], mem[mo..mo + ORDER]);
    StoreAt(y, yo, tmp[ORDER..]);
    if update {
      StoreAt(mem, mo, y[yo + lg - ORDER..yo + lg]);
      assert y[yo..yo + lg][lg - ORDER..] == y[yo + lg - ORDER..yo + lg];
    }
  }

  /** The filtering loop into the local buffer. */
  method FilterAll(a: Lpc, x: seq<Word16>, mem: Factors) returns (tmp: seq<Word16>)
    ensures tmp == Filtered(a, mem, x)
  {
    hide FilterStep, Feedback;
    tmp := mem;
    for i := 0 to |x|
      invariant tmp == Filtered(a, mem, x[..i])
    {
      assert x[..i + 1][..i] == x[..i];
      var sample := FilterOne(a, tmp, x[i]);
      tmp := tmp + [sample];
    }
    assert x[..|x|] == x;
  }

  /** The inner loop of one output sample. */
  method FilterOne(a: Lpc, past: seq<Word16>, x: Word16) returns (sample: Word16)
    requires ORDER <= |past|
    ensures sample == FilterStep(a, past, x)
  {
    var s := LoadSh(x, 12);
    for j := 1 to ORDER + 1
      invariant s == Feedback(a, past, LoadSh(x, 12), j - 1)
    {
      s := LMsu0(s, a[j], past[|past| - j]);
    }
    s := AddSh(s, 1, 11);
    sample := ExtractH(LShl(s, 4));
  }

  // ---- the noise filter ----

  /** Adds the pitch contribution with fixed gain 0.8, each sample using those already shaped. */
  function PitchShaped(f: seq<Word16>, lag: int, n: nat): (g: seq<Word16>)
    requires 1 <= lag && n <= |f|
    ensures |g| == n
  {
    if n == 0 then []
    else
      var done := PitchShaped(f, lag, n - 1);
      done + [if n - 1 < lag then f[n - 1] else Add(f[n - 1], Mult(done[n - 1 - lag], 26216))]
  }

  /** Shaping in plain integers: from the lag on, 26216 / 2^15 of the shaped sample one lag earlier is added. */
  ghost predicate ShapedRight(f: seq<Word16>, lag: int, g: seq<Word16>)
    requires 1 <= lag
  {
    && |g| <= |f|
    && (forall i :: 0 <= i < |g| && i < lag ==> g[i] == f[i])
    && forall i, j :: 0 <= j && i == j + lag < |g| ==> g[i] == Sature(f[i] + Times(g[j], 26216) / 0x8000)
  }

  lemma {:induction false} PitchShapedIs(f: seq<Word16>, lag: int, n: nat)
    requires 1 <= lag && n <= |f|
    ensures ShapedRight(f, lag, PitchShaped(f, lag, n))
  {
    if n > 0 {
      PitchShapedIs(f, lag, n - 1);
      var done, all := PitchShaped(f, lag, n - 1), PitchShaped(f, lag, n);
      forall i, j | 0 <= j && i == j + lag < n
        ensures all[i] == Sature(f[i] + Times(all[j], 26216) / 0x8000)
      {
        assert all[j] == done[j];
        ShapedSample(f[i], done[j]);
        assert i < n - 1 ==> all[i] == done[i];
      }
      assert forall i :: 0 <= i < n - 1 ==> all[i] == done[i];
    }
  }

  lemma ShapedSample(x: Word16, a: Word16)
    ensures Add(x, Mult(a, 26216)) == Sature(x + Times(a, 26216) / 0x8000)
  {
  }

  /** The noise filter in plain integers: the coefficients expanded with one set of factors go, ahead of zeros, through
      the filter of those expanded with the other set, from rest, and the result is shaped. */
  ghost predicate NoiseRight(a: Lpc, fac3: Factors, fac4: Factors, lag: int, f: seq<Word16>)
    requires 1 <= lag
  {
    exists zeros: Lpc, poles: Lpc, u: seq<Word16> ::
      && ExpandedRight(a, fac3, zeros) && ExpandedRight(a, fac4, poles)
      && FilterRight(poles, zeros + Zeros(L_SUBFR - 11), Zeros(ORDER), u)
      && |f| == |u| && ShapedRight(u, lag, f)
  }

  lemma NoiseResponseIs(a: Lpc, fac3: Factors, fac4: Factors, lag: int)
    requires 1 <= lag
    ensures NoiseRight(a, fac3, fac4, lag, NoiseResponse(a, fac3, fac4, lag))
  {
    hide PondAi, SynFilt, PitchShaped, ExpandedRight, FilterRight, ShapedRight;
    var zeros, poles := PondAi(a, fac3), PondAi(a, fac4);
    var u := SynFilt(poles, zeros + Zeros(L_SUBFR - 11), Zeros(ORDER));
    PondAiIs(a, fac3);
    PondAiIs(a, fac4);
    SynFiltIs(poles, zeros + Zeros(L_SUBFR - 11), Zeros(ORDER));
    PitchShapedIs(u, lag, L_SUBFR);
  }

  /** The impulse response F[] of the noise filter, as a function of the LPC filter and the lag. */
  function NoiseResponse(a: Lpc, fac3: Factors, fac4: Factors, lag: int): (f: seq<Word16>)
    requires 1 <= lag
    ensures |f| == L_SUBFR
  {
    var input := PondAi(a, fac3) + Zeros(L_SUBFR - 11);
    PitchShaped(SynFilt(PondAi(a, fac4), input, Zeros(ORDER)), lag, L_SUBFR)
  }

  method ShapeInPlace(f: array<Word16>, lead: nat, lag: int)
    requires f.Length == lead + L_SUBFR && 1 <= lag
    modifies f
    ensures f[lead..] == PitchShaped(old(f[lead..]), lag, L_SUBFR)
    ensures f[..lead] == old(f[..lead])
  {
    hide Mult, Add;
    ghost var before := f[lead..];
    PitchShapedStart(before, lag, if lag < L_SUBFR then lag else L_SUBFR);
    if lag >= L_SUBFR {
      assert before[..L_SUBFR] == before;
      return;
    }
    ghost var shaped := before[..lag];
    for i := lag to L_SUBFR
      invariant |shaped| == i && shaped == PitchShaped(before, lag, i)
      invariant forall k :: 0 <= k < i ==> f[lead + k] == shaped[k]
      invariant forall k :: i <= k < L_SUBFR ==> f[lead + k] == before[k]
      invariant f[..lead] == old(f[..lead])
    {
      var temp := Mult(f[lead + i - lag], 26216);
      f[lead + i] := Add(f[lead + i], temp);
      assert f[lead + (i - lag)] == shaped[i - lag];
      shaped := shaped + [f[lead + i]];
    }
    assert f[lead..] == shaped;
  }

  lemma {:induction false} PitchShapedStart(f: seq<Word16>, lag: int, n: nat)
    requires 1 <= lag && n <= lag && n <= |f|
    ensures PitchShaped(f, lag, n) == f[..n]
  {
    if n > 0 {
      PitchShapedStart(f, lag, n - 1);
      assert f[..n] == f[..n - 1] + [f[n - 1]];
    }
  }

  /** The encoder's way: the expanded coefficients sit in front of a vector of zeros, which also serves as the
      filter memory, and the response goes to a buffer of its own. */
  method EncoderNoiseFilter(a: Lpc, fac3: Factors, fac4: Factors, lag: int, aiZero: array<Word16>, f: array<Word16>)
    requires aiZero.Length == 11 + L_SUBFR && aiZero[11..] == Zeros(L_SUBFR)
    requires f.Length == 64 + L_SUBFR && aiZero != f && 1 <= lag
    modifies aiZero, f
    ensures aiZero[11..] == Zeros(L_SUBFR)
    ensures f[64..] == NoiseResponse(a, fac3, fac4, lag) && NoiseRight(a, fac3, fac4, lag, f[64..])
    ensures f[..64] == old(f[..64])
  {
    hide PondAi, PitchShaped, Filtered, SynFilt, NoiseRight, FilterRight;
    NoiseResponseIs(a, fac3, fac4, lag);
    var ap3, ap4 := PondAi(a, fac3), PondAi(a, fac4);
    StoreAt(aiZero, 0, ap3);
    assert aiZero[0..L_SUBFR] == ap3 + Zeros(L_SUBFR - 11);
    assert aiZero[11..11 + ORDER] == Zeros(ORDER);
    SynFiltBuffers(ap4, aiZero, 0, f, 64, L_SUBFR, aiZero, 11, false);
    assert f[64..64 + L_SUBFR] == f[64..];
    ShapeInPlace(f, 64, lag);
  }

  /** The decoder's way: the response overwrites its own input, and the memory is read out of the same buffer. */
  method DecoderNoiseFilter(a: Lpc, fac3: Factors, fac4: Factors, lag: int, f: array<Word16>)
    requires f.Length == 64 + L_SUBFR && 1 <= lag
    modifies f
    ensures f[64..] == NoiseResponse(a, fac3, fac4, lag) && NoiseRight(a, fac3, fac4, lag, f[64..])
    ensures f[..64] == old(f[..64])
  {
    hide PondAi, PitchShaped, Filtered, SynFilt, NoiseRight, FilterRight;
    NoiseResponseIs(a, fac3, fac4, lag);
    var ap3, ap4 := PondAi(a, fac3), PondAi(a, fac4);
    StoreAt(f, 64, ap3);
    StoreAt(f, 75, Zeros(L_SUBFR - 11));
    assert f[64..75] == f[..75][64..] == ap3;
    assert f[64..64 + L_SUBFR] == f[64..75] + f[75..75 + (L_SUBFR - 11)];
    assert f[75..75 + ORDER] == f[75..75 + (L_SUBFR - 11)][..ORDER] == Zeros(ORDER);
    assert f[..64] == f[..75][..64];
    SynFiltBuffers(ap4, f, 64, f, 64, L_SUBFR, f, 75, false);
    assert f[64..64 + L_SUBFR] == f[64..];
    ShapeInPlace(f, 64, lag);
  }

  // ---- energy of the synthesis filter ----

  /** A saturating sum of squares on top of s0. */
  function SumSquares(s0: Word32, v: seq<Word16>, n: nat): Word32
    requires n <= |v|
  {
    if n == 0 then s0 else LMac0(SumSquares(s0, v, n - 1), v[n - 1], v[n - 1])
  }

  /** While the sum fits 32 bits it is the true one. */
  lemma {:induction false} SumSquaresIs(s0: Word32, v: seq<Word16>, n: nat)
    requires n <= |v| && 0 <= s0 && s0 + Dot(v, v) <= MAX_32
    ensures SumSquares(s0, v, n) == s0 + Dot(v[..n], v[..n])
  {
    hide Dot;
    SquaresGrow(v, n);
    if n == 0 {
      EmptyDot(v, v);
    } else {
      SumSquaresIs(s0, v, n - 1);
      NextDot(v, v, n - 1);
      SquaresGrow(v, n - 1);
    }
  }

  /** The gain of a synthesis filter in plain integers: the energy of its response to 1024 at rest, as long as it fits. */
  ghost predicate LpcGainRight(a: Lpc, gain: int) {
    exists h: seq<Word16> ::
      && |h| == L_SUBFR && FilterRight(a, [1024] + Zeros(L_SUBFR - 1), Zeros(ORDER), h)
      && (Dot(h, h) <= MAX_32 ==> gain == Dot(h, h))
  }

  lemma LpcGainIs(a: Lpc)
    ensures LpcGainRight(a, LpcGain(a))
  {
    hide SynFilt, FilterRight, Dot;
    var h := SynFilt(a, [1024] + Zeros(L_SUBFR - 1), Zeros(ORDER));
    SynFiltIs(a, [1024] + Zeros(L_SUBFR - 1), Zeros(ORDER));
    if Dot(h, h) <= MAX_32 {
      SumSquaresIs(0, h, L_SUBFR);
      assert h[..L_SUBFR] == h;
    }
  }

  /** `Lpc_Gain`. */
  function LpcGain(a: Lpc): Word32 {
    SumSquares(0, SynFilt(a, [1024] + Zeros(L_SUBFR - 1), Zeros(ORDER)), L_SUBFR)
  }

  // ---- spectral pairs to filters ----

  /** One step of `Get_Lsp_Pol`: multiplies the polynomial by (1 - 2*l*z^-1 + z^-2). */
  function LspStep(f: seq<Word32>, l: Word16): (g: seq<Word32>)
    requires |f| >= 2
    ensures |g| == |f| + 1
  {
    seq(|f| + 1, p requires 0 <= p <= |f| => LspCoefficient(f, l, p))
  }

  function LspCoefficient(f: seq<Word32>, l: Word16, p: int): Word32
    requires |f| >= 2 && 0 <= p <= |f|
  {
    if p == 0 then f[0]
    else if p == 1 then SubSh(f[1], l, 10)
    else
      var (hi, lo) := LExtract(f[p - 1]);
      var t0 := LShl(MpyMix(hi, lo, l), 1);
      LSub(LAdd(if p == |f| then f[p - 2] else f[p], f[p - 2]), t0)
  }

  /** `Get_Lsp_Pol` from every second spectral pair starting at `from`. */
  function GetLspPol(lsp: seq<Word16>, from: nat, steps: nat): (f: seq<Word32>)
    requires 1 <= steps && from + 2 * (steps - 1) < |lsp|
    ensures |f| == steps + 1
  {
    if steps == 1 then [LoadSh(4096, 12), SubSh(0, lsp[from], 10)]
    else LspStep(GetLspPol(lsp, from, steps - 1), lsp[from + 2 * (steps - 1)])
  }

  /** `Lsp_Az`. */
  function LspAz(lsp: seq<Word16>): Lpc
    requires |lsp| == ORDER
  {
    var f1, f2 := GetLspPol(lsp, 0, 5), GetLspPol(lsp, 1, 5);
    [4096] + seq(ORDER, i requires 0 <= i < ORDER => LpcCoefficient(f1, f2, i + 1))
  }

  function LpcCoefficient(f1: seq<Word32>, f2: seq<Word32>, i: int): Word16
    requires |f1| == |f2| == 6 && 1 <= i <= ORDER
  {
    var k := if i <= 5 then i else 11 - i;
    var a, b := LAdd(f1[k], f1[k - 1]), LSub(f2[k], f2[k - 1]);
    ExtractL(LShrR(if i <= 5 then LAdd(a, b) else LSub(a, b), 13))
  }

  /** The mix of old and new spectral pairs for one subframe. */
  function MixedLsp(lspOld: seq<Word16>, lspNew: seq<Word16>, facOld: Word16, facNew: Word16): (lsp: seq<Word16>)
    requires |lspOld| == |lspNew| == ORDER
    ensures |lsp| == ORDER
  {
    seq(ORDER, i requires 0 <= i < ORDER => ExtractH(LMac(LMult(lspOld[i], facOld), lspNew[i], facNew)))
  }

  /** `Int_Lpc4`: the filter of subframe k, weighting old to new 3:1, 1:1, 1:3 and finally new alone. */
  function IntLpc4(lspOld: seq<Word16>, lspNew: seq<Word16>, k: int): Lpc
    requires |lspOld| == |lspNew| == ORDER && 0 <= k < 4
  {
    if k == 3 then LspAz(lspNew)
    else LspAz(MixedLsp(lspOld, lspNew, 24576 - 8192 * k, 8192 + 8192 * k))
  }
}
