/** Quantisation of the pitch and code gains through predicted energies in the log domain. */
module Gains {
  import opened FixedPoint
  import opened ExtendedPrecision
  import opened MathTables
  import opened Synthesis
  import LspQuantizer

  const NB_QUA_ENER := 64

  /** The gain codebook: 64 pairs (pitch energy, code energy) in Q8. Its contents are free. */
  type EnergyBook = t: seq<Word16> | |t| == 128 witness seq(128, i => 0)

  /** `last_ener_pit` and `last_ener_cod`. */
  datatype Energies = Energies(pit: Word16, cod: Word16)

  datatype GainPair = GainPair(pit: Word16, cod: Word16)

  // ---- log energies ----

  /** Log2 of a value, as exponent and fraction in one Q16 word. */
  function LogQ16(x: Word32): Word32 {
    var (e, f) := LogTwo(x);
    AddSh(LoadSh16(e), f, 1)
  }

  function ToQ8(x: Word32): Word16 {
    ExtractL(LShr(x, 8))
  }

  /** Normalised high part of an energy. */
  function Mantissa(x: Word32): Word16 {
    ExtractH(LShl(x, NormL(x)))
  }

  /** Energy of the adaptive code vector through the synthesis filter. */
  function PitchEnergy(lpc: Word32, prd: seq<Word16>): Word16
    requires |prd| == L_SUBFR
  {
    var e := SumSquares(1, prd, L_SUBFR);
    var log := LogQ16(LMult0(Mantissa(e), Mantissa(lpc)));
    ToQ8(AddSh(SubSh16(log, Add(NormL(e), NormL(lpc))), 1710, 8))
  }

  /** Energy of the innovation through the synthesis filter. */
  function CodeEnergy(lpc: Word32, code: seq<Word16>): Word16
    requires |code| == L_SUBFR
  {
    var e := SumSquares(0, code, L_SUBFR);
    var log := LogQ16(LMult0(ExtractH(e), Mantissa(lpc)));
    ToQ8(SubSh(SubSh16(log, NormL(lpc)), 4434, 8))
  }

  /** 0.5 * own + 0.25 * other - 3.0, not below zero, in Q8. */
  function Predicted(own: Word16, other: Word16): Word16 {
    var l := SubSh(AddSh(LoadSh(own, 8), other, 7), 768, 9);
    StoreHi(if l < 0 then 0 else l, 7)
  }

  /** The energy that is expected, in plain integers: half of the own and a quarter of the other last energy, less
      768 (3.0 in Q8), and not below zero. */
  lemma PredictedIs(own: Word16, other: Word16)
    ensures var e: int := (2 * own + other) / 4 - 768;
            Predicted(own, other) == if e < 0 then 0 else e
  {
    hide Power, Pow2Entry, AddSh, SubSh, LoadSh;
    SmallPowers();
    AddShExact(0, own, 8);
    AddShExact(256 * own, other, 7);
    AddShExact(256 * own + 128 * other, 768, 9);
    var l: int := 256 * own + 128 * other - 512 * 768;
    StoreHiIs(if l < 0 then 0 else l, 7);
    QuarterSum(own, other, l);
  }

  lemma QuarterSum(own: int, other: int, l: int)
    requires l == 256 * own + 128 * other - 512 * 768
    ensures l / 512 == (2 * own + other) / 4 - 768
  {
  }

  /** An energy is the book's entry plus what was expected, limited above: in plain integers. */
  ghost predicate EnergyRight(next: int, entry: int, own: int, other: int, limit: int) {
    var expected := (2 * own + other) / 4 - 768;
    var sum: int := Sature(entry + if expected < 0 then 0 else expected);
    next == if sum > limit then limit else sum
  }

  ghost predicate EnergiesRight(next: Energies, book: EnergyBook, index: int, last: Energies)
    requires 0 <= index < NB_QUA_ENER
  {
    && EnergyRight(next.pit, book[2 * index], last.pit, last.cod, 6912)
    && EnergyRight(next.cod, book[2 * index + 1], last.cod, last.pit, 6400)
  }

  lemma NextEnergiesAre(book: EnergyBook, index: int, last: Energies)
    requires 0 <= index < NB_QUA_ENER
    ensures EnergiesRight(NextEnergies(book, index, last), book, index, last)
  {
    hide Predicted;
    PredictedIs(last.pit, last.cod);
    PredictedIs(last.cod, last.pit);
  }

  /** The energies after quantising with entry `index`. */
  function NextEnergies(book: EnergyBook, index: int, last: Energies): Energies
    requires 0 <= index < NB_QUA_ENER
  {
    var pit := Add(book[2 * index], Predicted(last.pit, last.cod));
    var cod := Add(book[2 * index + 1], Predicted(last.cod, last.pit));
    Energies(if pit > 6912 then 6912 else pit, if cod > 6400 then 6400 else cod)
  }

  /** 2 ^ (0.5 * (energy - reference)), scaled by 2^lift. */
  function GainFrom(energy: Word16, reference: Word16, lift: Word16): Word32
    requires 0 <= lift <= 12
  {
    var l := AddSh(SubSh(LoadSh(energy, 6), reference, 6), lift, 15);
    HalfDifference(energy, reference, lift);
    SplitIsExact(l);
    var (exponent, fraction) := LExtract(l);
    PowTwo(exponent, fraction)
  }

  lemma HalfDifference(energy: Word16, reference: Word16, lift: Word16)
    requires 0 <= lift <= 12
    ensures AddSh(SubSh(LoadSh(energy, 6), reference, 6), lift, 15) == 64 * energy - 64 * reference + 0x8000 * lift
    ensures InFormat(AddSh(SubSh(LoadSh(energy, 6), reference, 6), lift, 15))
  {
    assert Power(6) == 64;
    PowerThirty();
    AddShExact(0, energy, 6);
    AddShExact(64 * energy, reference, 6);
    AddShExact(64 * energy - 64 * reference, lift, 15);
  }

  function Limited(gain: Word32): Word32 {
    if LSub(gain, 4915) > 0 then 4915 else gain
  }

  /** The two quantised gains: pitch in Q12 limited to 1.2, code in Q0. */
  function QuantisedGains(lpc: Word32, prd: seq<Word16>, code: seq<Word16>, energies: Energies): GainPair
    requires |prd| == |code| == L_SUBFR
  {
    GainPair(ExtractL(Limited(GainFrom(energies.pit, PitchEnergy(lpc, prd), 12))),
             ExtractL(GainFrom(energies.cod, CodeEnergy(lpc, code), 0)))
  }

  // ---- what the gains are, in plain integers ----

  /** v is the logarithm of x in Q8, plus an offset. */
  ghost predicate LogQ8Right(v: int, x: int, offset: int) {
    exists e: int, f: int :: LogParted(x, e, f) && v == 256 * e + f / 128 + offset
  }

  /** Exponent and fraction of a logarithm; that of nothing is nothing. */
  ghost predicate LogParted(x: int, e: int, f: int) {
    if x > 0 then LogRight(x, e, f) else e == f == 0
  }

  /** The high half of a normalised value. */
  function High(x: Word32): int {
    Times(x, Power(NormL(x))) / 0x1_0000
  }

  lemma MantissaIs(x: Word32)
    requires x >= 0
    ensures Mantissa(x) == High(x) && 0 <= High(x) <= 0x7fff
  {
    hide Power;
    if x == 0 {
      ZeroStays(NormL(x));
    } else {
      LShlExact(x, NormL(x));
    }
  }

  lemma ZeroStays(n: nat)
    requires n <= 31
    ensures LShl(0, n) == 0 == Times(0, Power(n))
  {
  }

  /** The energy of the prediction through the filter: the logarithms of both energies, less what normalising them
      added, and 1710. */
  ghost predicate PitchEnergyRight(v: int, lpc: Word32, prd: seq<Word16>) {
    var e := 1 + Dot(prd, prd);
    0 <= e <= MAX_32 && lpc >= 0 ==> LogQ8Right(v, Times(High(e), High(lpc)), 1710 - 256 * (NormL(e) + NormL(lpc)))
  }

  ghost predicate CodeEnergyRight(v: int, lpc: Word32, code: seq<Word16>) {
    var e := Dot(code, code);
    0 <= e <= MAX_32 && lpc >= 0 ==> LogQ8Right(v, Times(e / 0x1_0000, High(lpc)), -4434 - 256 * NormL(lpc))
  }

  lemma LogOf(x: Word32) returns (e: Word16, f: Word16)
    ensures LogTwo(x) == (e, f) && 0 <= e <= 30 && 0 <= f <= 0x7fff
    ensures LogParted(x, e, f)
    ensures LogQ16(x) == 0x1_0000 * e + 2 * f
  {
    hide *;
    e, f := LogTwo(x).0, LogTwo(x).1;
    LogParts(x);
    LogWord(x, e, f);
  }

  lemma LogParts(x: Word32)
    ensures var (e, f) := LogTwo(x);
            && 0 <= e <= 30 && 0 <= f <= 0x7fff
            && LogParted(x, e, f)
  {
    hide Power, LogCurve, LogRight, NormL;
    if x > 0 {
      LogTwoIs(x);
      LogTwoMonotone(x, x);
      LogExponent(x, LogTwo(x).0, LogTwo(x).1);
    }
  }

  lemma LogWord(x: Word32, e: Word16, f: Word16)
    requires LogTwo(x) == (e, f) && 0 <= e <= 30 && 0 <= f <= 0x7fff
    ensures LogQ16(x) == 0x1_0000 * e + 2 * f
  {
    hide Power, LogTwo, AddSh;
    SmallPowers();
    AddShExact(0x1_0000 * e, f, 1);
  }

  lemma LogExponent(x: int, e: int, f: int)
    requires LogRight(x, e, f)
    ensures 0 <= e <= 30
  {
  }

  /** Scaling to Q8 after whole exponents and a constant have been added. */
  lemma ToQ8Is(e: int, f: int, n: int, c: int, x: Word32)
    requires 0 <= e <= 30 && 0 <= f <= 0x7fff && 0 <= n <= 70 && -5000 <= c <= 5000
    requires x == 0x1_0000 * e + 2 * f - 0x1_0000 * n + 0x100 * c
    ensures ToQ8(x) == 256 * e + f / 128 + (c - 256 * n)
  {
    hide Power, Truncate;
    SmallPowers();
    ShiftedDown(x, 8);
    TruncateFits(x / 0x100);
  }

  /** The logarithm of a product of mantissas, less n, plus or minus c. */
  lemma EnergyLog(m1: Word16, m2: Word16, n: Word16, c: Word16)
    requires 0 <= n <= 70 && 0 <= c <= 5000
    ensures LogQ8Right(ToQ8(AddSh(SubSh16(LogQ16(LMult0(m1, m2)), n), c, 8)), Times(m1, m2), c - 256 * n)
    ensures LogQ8Right(ToQ8(SubSh(SubSh16(LogQ16(LMult0(m1, m2)), n), c, 8)), Times(m1, m2), -c - 256 * n)
  {
    hide *;
    ProductIs(m1, m2);
    var e, f := LogOf(LMult0(m1, m2));
    AddedConstants(LogQ16(LMult0(m1, m2)), n, c);
    InQ8(Times(m1, m2), e, f, n, c);
    InQ8(Times(m1, m2), e, f, n, -c);
  }

  lemma ProductIs(m1: Word16, m2: Word16)
    ensures LMult0(m1, m2) == Times(m1, m2)
  {
  }

  lemma InQ8(x: int, e: int, f: int, n: int, c: int)
    requires LogParted(x, e, f)
    requires 0 <= e <= 30 && 0 <= f <= 0x7fff && 0 <= n <= 70 && -5000 <= c <= 5000
    ensures var log := 0x1_0000 * e + 2 * f - 0x1_0000 * n + 0x100 * c;
            && MIN_32 <= log <= MAX_32
            && LogQ8Right(ToQ8(log), x, c - 256 * n)
  {
    hide ToQ8, LogParted;
    ToQ8Is(e, f, n, c, 0x1_0000 * e + 2 * f - 0x1_0000 * n + 0x100 * c);
  }

  lemma PitchEnergyIs(lpc: Word32, prd: seq<Word16>)
    requires |prd| == L_SUBFR
    ensures PitchEnergyRight(PitchEnergy(lpc, prd), lpc, prd)
  {
    hide Power, LogQ16, ToQ8, SumSquares, Dot, Mantissa, High, LogQ8Right, AddSh, SubSh16, NormPositive, LMult0;
    var e := 1 + Dot(prd, prd);
    if 0 <= e <= MAX_32 && lpc >= 0 {
      SquaresAreNatural(prd);
      SumSquaresIs(1, prd, L_SUBFR);
      assert prd[..L_SUBFR] == prd;
      MantissaIs(e);
      MantissaIs(lpc);
      assert Add(NormL(e), NormL(lpc)) == NormL(e) + NormL(lpc);
      EnergyLog(Mantissa(e), Mantissa(lpc), Add(NormL(e), NormL(lpc)), 1710);
    }
  }

  lemma CodeEnergyIs(lpc: Word32, code: seq<Word16>)
    requires |code| == L_SUBFR
    ensures CodeEnergyRight(CodeEnergy(lpc, code), lpc, code)
  {
    hide Power, LogQ16, ToQ8, SumSquares, Dot, Mantissa, High, LogQ8Right, SubSh, SubSh16, NormPositive, LMult0;
    var e := Dot(code, code);
    if 0 <= e <= MAX_32 && lpc >= 0 {
      SquaresAreNatural(code);
      SumSquaresIs(0, code, L_SUBFR);
      assert code[..L_SUBFR] == code;
      MantissaIs(lpc);
      EnergyLog(ExtractH(e), Mantissa(lpc), NormL(lpc), 4434);
    }
  }

  lemma AddedConstants(log: Word32, n: Word16, c: Word16)
    requires 0 <= log <= 0x20_0000 && 0 <= n <= 70 && 0 <= c <= 5000
    ensures SubSh16(log, n) == log - 0x1_0000 * n
    ensures AddSh(SubSh16(log, n), c, 8) == log - 0x1_0000 * n + 0x100 * c
    ensures SubSh(SubSh16(log, n), c, 8) == log - 0x1_0000 * n - 0x100 * c
  {
    hide Power, AddSh, SubSh;
    SmallPowers();
    var less: int := log - 0x1_0000 * (n as int);
    assert SubSh16(log, n) == less;
    AddShExact(less, c, 8);
  }

  /** g is 2 to the power of (energy - reference) / 512, times 2^lift. */
  ghost predicate PowerOf(g: int, energy: int, reference: int, lift: int) {
    var x := 64 * (energy - reference) + 0x8000 * lift;
    PowRight(g, x / 0x8000, x % 0x8000)
  }

  lemma GainFromIs(energy: Word16, reference: Word16, lift: Word16)
    requires 0 <= lift <= 12
    ensures PowerOf(GainFrom(energy, reference, lift), energy, reference, lift)
  {
    hide PowTwo, PowRight, LExtract, LComp, AddSh, SubSh, LoadSh;
    HalfDifference(energy, reference, lift);
    var x := 64 * ((energy as int) - reference) + 0x8000 * (lift as int);
    SplitIsExact(x);
    PowTwoIs(x / 0x8000, x % 0x8000);
  }

  /** Both gains: the powers for the distances of the energies from those of the two vectors, the pitch gain in Q12
      limited to 4915 (1.2). */
  ghost predicate GainsRight(g: GainPair, lpc: Word32, prd: seq<Word16>, code: seq<Word16>, energies: Energies) {
    exists ep: Word16, ec: Word16, gp: int, gc: int ::
      && PitchEnergyRight(ep, lpc, prd) && CodeEnergyRight(ec, lpc, code)
      && PowerOf(gp, energies.pit, ep, 12) && PowerOf(gc, energies.cod, ec, 0)
      && g.pit == Truncate(if gp > 4915 then 4915 else gp) && g.cod == Truncate(gc)
  }

  lemma QuantisedGainsAre(lpc: Word32, prd: seq<Word16>, code: seq<Word16>, energies: Energies)
    requires |prd| == |code| == L_SUBFR
    ensures GainsRight(QuantisedGains(lpc, prd, code, energies), lpc, prd, code, energies)
  {
    hide PitchEnergy, CodeEnergy, PitchEnergyRight, CodeEnergyRight, PowerOf, GainFrom, Truncate;
    var ep, ec := PitchEnergy(lpc, prd), CodeEnergy(lpc, code);
    PitchEnergyIs(lpc, prd);
    CodeEnergyIs(lpc, code);
    var gp, gc := GainFrom(energies.pit, ep, 12), GainFrom(energies.cod, ec, 0);
    GainFromIs(energies.pit, ep, 12);
    GainFromIs(energies.cod, ec, 0);
    LimitedIs(gp);
  }

  lemma LimitedIs(g: Word32)
    ensures Limited(g) == if g > 4915 then 4915 else g
  {
  }

  /** The same, over the filter that the coefficients stand for. */
  ghost predicate GainsFit(g: GainPair, a: Lpc, prd: seq<Word16>, code: seq<Word16>, energies: Energies) {
    exists lpc: Word32 :: LpcGainRight(a, lpc) && GainsRight(g, lpc, prd, code, energies)
  }

  lemma GainsFitFilter(a: Lpc, prd: seq<Word16>, code: seq<Word16>, energies: Energies)
    requires |prd| == |code| == L_SUBFR
    ensures GainsFit(QuantisedGains(LpcGain(a), prd, code, energies), a, prd, code, energies)
  {
    hide LpcGain, LpcGainRight, GainsRight, QuantisedGains;
    LpcGainIs(a);
    QuantisedGainsAre(LpcGain(a), prd, code, energies);
  }

  // ---- the encoder's search ----

  /** Log2(gain^2), in Q8, with the scaling of the gain taken off. */
  function GainEnergy(gain: Word16, scale: Word16): Word16 {
    ToQ8(SubSh16(LogQ16(LMac0(1, gain, gain)), scale))
  }

  /** Distances of the prediction errors to the first n entries. */
  function GainDistances(book: EnergyBook, errPit: Word16, errCod: Word16, n: nat): (ds: seq<Word32>)
    requires n <= NB_QUA_ENER
    ensures |ds| == n
  {
    if n == 0 then []
    else
      GainDistances(book, errPit, errCod, n - 1)
      + [LAdd(LspQuantizer.Square(Sub(book[2 * n - 2], errPit)), LspQuantizer.Square(Sub(book[2 * n - 1], errCod)))]
  }

  /** The searched quantity: log energies of the unquantised gains minus their prediction. */
  function PitchError(lpc: Word32, prd: seq<Word16>, gain: Word16, last: Energies): Word16
    requires |prd| == L_SUBFR
  {
    Sub(Add(GainEnergy(gain, 24), PitchEnergy(lpc, prd)), Predicted(last.pit, last.cod))
  }

  function CodeError(lpc: Word32, code: seq<Word16>, gain: Word16, last: Energies): Word16
    requires |code| == L_SUBFR
  {
    Sub(Add(ToQ8(LogQ16(LMac0(1, gain, gain))), CodeEnergy(lpc, code)), Predicted(last.cod, last.pit))
  }

  // ---- what is searched for, in plain integers ----

  function Expected(own: int, other: int): int {
    if (2 * own + other) / 4 < 768 then 0 else (2 * own + other) / 4 - 768
  }

  /** The logarithm of a squared gain, with the scaling of the gain taken off. */
  ghost predicate GainLogRight(v: int, gain: int, scale: int) {
    LogQ8Right(v, 1 + Times(gain, gain), -256 * scale)
  }

  /** The wanted errors: logarithms of the squared gains, plus the energies of the vectors, less what is expected. */
  ghost predicate WantedRight(errPit: int, errCod: int, lpc: Word32, prd: seq<Word16>, code: seq<Word16>,
                              wanted: GainPair, last: Energies)
  {
    exists ep: Word16, ec: Word16, gp: Word16, gc: Word16 ::
      && PitchEnergyRight(ep, lpc, prd) && CodeEnergyRight(ec, lpc, code)
      && GainLogRight(gp, wanted.pit, 24) && GainLogRight(gc, wanted.cod, 0)
      && errPit == Sature(Sature(gp + ep) - Expected(last.pit, last.cod))
      && errCod == Sature(Sature(gc + ec) - Expected(last.cod, last.pit))
  }

  lemma GainEnergyIs(gain: Word16, scale: Word16)
    requires 0 <= scale <= 70
    ensures GainLogRight(GainEnergy(gain, scale), gain, scale)
    ensures scale == 0 ==> GainEnergy(gain, 0) == ToQ8(LogQ16(LMac0(1, gain, gain)))
  {
    hide Power, LogQ16, ToQ8, LogTwo, LogParted;
    SquareNonNegative(gain);
    ProductRange(gain, gain);
    var exponent, fraction := LogOf(1 + gain * gain);
    var log: int := 0x1_0000 * (exponent as int) + 2 * (fraction as int);
    assert SubSh16(log, scale) == log - 0x1_0000 * scale;
    ToQ8Is(exponent, fraction, scale, 0, log - 0x1_0000 * scale);
  }

  lemma WantedErrors(lpc: Word32, prd: seq<Word16>, code: seq<Word16>, wanted: GainPair, last: Energies)
    requires |prd| == |code| == L_SUBFR
    ensures WantedRight(PitchError(lpc, prd, wanted.pit, last), CodeError(lpc, code, wanted.cod, last), lpc, prd, code,
                        wanted, last)
  {
    hide PitchEnergy, CodeEnergy, PitchEnergyRight, CodeEnergyRight, GainEnergy, GainLogRight, ToQ8, LogQ16, LMac0, Predicted;
    PitchEnergyIs(lpc, prd);
    CodeEnergyIs(lpc, code);
    GainEnergyIs(wanted.pit, 24);
    GainEnergyIs(wanted.cod, 0);
    PredictedIs(last.pit, last.cod);
    PredictedIs(last.cod, last.pit);
  }

  function SquaredDistance(book: EnergyBook, errPit: int, errCod: int, k: int): int
    requires 0 <= k < NB_QUA_ENER
  {
    Times(book[2 * k] - errPit, book[2 * k] - errPit) + Times(book[2 * k + 1] - errCod, book[2 * k + 1] - errCod)
  }

  ghost predicate InSight(book: EnergyBook, errPit: int, errCod: int) {
    forall k :: 0 <= k < NB_QUA_ENER ==> EntryInSight(book, errPit, errCod, k)
  }

  ghost predicate EntryInSight(book: EnergyBook, errPit: int, errCod: int, k: int)
    requires 0 <= k < NB_QUA_ENER
  {
    -0x7fff <= book[2 * k] - errPit <= 0x7fff && -0x7fff <= book[2 * k + 1] - errCod <= 0x7fff
  }

  /** The first of the nearest entries, by squared distance, as long as all differences fit 16 bits. */
  ghost predicate NearestRight(book: EnergyBook, errPit: int, errCod: int, index: int) {
    && 0 <= index < NB_QUA_ENER
    && (InSight(book, errPit, errCod) ==>
          && (forall k :: 0 <= k < NB_QUA_ENER ==>
               SquaredDistance(book, errPit, errCod, index) <= SquaredDistance(book, errPit, errCod, k))
          && (forall k :: 0 <= k < index ==>
               SquaredDistance(book, errPit, errCod, index) < SquaredDistance(book, errPit, errCod, k)))
  }

  lemma {:induction false} GainDistanceIs(book: EnergyBook, errPit: Word16, errCod: Word16, n: nat, k: nat)
    requires k < n <= NB_QUA_ENER && EntryInSight(book, errPit, errCod, k)
    ensures GainDistances(book, errPit, errCod, n)[k] == SquaredDistance(book, errPit, errCod, k) < MAX_32
  {
    hide LMult0;
    if k < n - 1 {
      GainDistanceIs(book, errPit, errCod, n - 1, k);
    } else {
      OneDistance(book[2 * k], book[2 * k + 1], errPit, errCod);
    }
  }

  lemma OneDistance(b0: Word16, b1: Word16, e0: Word16, e1: Word16)
    requires -0x7fff <= (b0 as int) - e0 <= 0x7fff && -0x7fff <= (b1 as int) - e1 <= 0x7fff
    ensures var d0: int, d1: int := (b0 as int) - e0, (b1 as int) - e1;
            LAdd(LspQuantizer.Square(Sub(b0, e0)), LspQuantizer.Square(Sub(b1, e1))) == Times(d0, d0) + Times(d1, d1) < MAX_32
  {
    var d0: int, d1: int := (b0 as int) - e0, (b1 as int) - e1;
    ProductBound(d0, d0, 0x7fff, 0x7fff);
    ProductBound(d1, d1, 0x7fff, 0x7fff);
  }

  lemma NearestEntry(book: EnergyBook, errPit: Word16, errCod: Word16, index: Word16)
    requires 0 <= index < NB_QUA_ENER
    requires LspQuantizer.FirstMinimum(GainDistances(book, errPit, errCod, NB_QUA_ENER), index, 0)
    ensures NearestRight(book, errPit, errCod, index)
  {
    hide GainDistances, SquaredDistance, EntryInSight;
    if InSight(book, errPit, errCod) {
      var ds := GainDistances(book, errPit, errCod, NB_QUA_ENER);
      forall k | 0 <= k < NB_QUA_ENER
        ensures ds[k] == SquaredDistance(book, errPit, errCod, k) < MAX_32
      {
        GainDistanceIs(book, errPit, errCod, NB_QUA_ENER, k);
      }
      assert ds[0] < MAX_32;
    }
  }

  /** What the search returns: an entry nearest to errors that are the wanted ones. */
  ghost predicate SearchedRight(book: EnergyBook, index: int, a: Lpc, prd: seq<Word16>, code: seq<Word16>,
                                wanted: GainPair, last: Energies)
  {
    exists lpc: Word32, errPit: Word16, errCod: Word16 ::
      && LpcGainRight(a, lpc) && WantedRight(errPit, errCod, lpc, prd, code, wanted, last)
      && NearestRight(book, errPit, errCod, index)
  }

  /** The first of the nearest entries, by the saturating distances of the search. */
  ghost predicate FirstNearest(book: EnergyBook, index: int, a: Lpc, prd: seq<Word16>, code: seq<Word16>,
                               wanted: GainPair, last: Energies)
    requires |prd| == |code| == L_SUBFR
  {
    LspQuantizer.FirstMinimum(GainDistances(book, PitchError(LpcGain(a), prd, wanted.pit, last),
                                            CodeError(LpcGain(a), code, wanted.cod, last), NB_QUA_ENER), index, 0)
  }

  lemma SearchIs(book: EnergyBook, index: Word16, a: Lpc, prd: seq<Word16>, code: seq<Word16>, wanted: GainPair,
                 last: Energies)
    requires |prd| == |code| == L_SUBFR && 0 <= index < NB_QUA_ENER
    requires FirstNearest(book, index, a, prd, code, wanted, last)
    ensures SearchedRight(book, index, a, prd, code, wanted, last)
  {
    hide LpcGain, LpcGainRight, WantedRight, NearestRight, PitchError, CodeError, GainDistances;
    var lpc := LpcGain(a);
    LpcGainIs(a);
    WantedErrors(lpc, prd, code, wanted, last);
    NearestEntry(book, PitchError(lpc, prd, wanted.pit, last), CodeError(lpc, code, wanted.cod, last), index);
  }

  /** The codebook loop of `Ener_Qua`. */
  method SearchGains(book: EnergyBook, errPit: Word16, errCod: Word16) returns (index: Word16)
    ensures 0 <= index < NB_QUA_ENER
    ensures LspQuantizer.FirstMinimum(GainDistances(book, errPit, errCod, NB_QUA_ENER), index, 0)
  {
    hide LspQuantizer.Square, Sub;
    var distMin: Word32 := MAX_32;
    index := 0;
    ghost var ds := [];
    for i := 0 to NB_QUA_ENER
      invariant ds == GainDistances(book, errPit, errCod, i)
      invariant LspQuantizer.FirstMinimum(ds, index, 0)
      invariant distMin == if forall k :: 0 <= k < i ==> ds[k] == MAX_32 then MAX_32 else ds[index]
      invariant 0 <= index < NB_QUA_ENER
    {
      var dist := LAdd(LspQuantizer.Square(Sub(book[2 * i], errPit)), LspQuantizer.Square(Sub(book[2 * i + 1], errCod)));
      assert GainDistances(book, errPit, errCod, i + 1) == ds + [dist];
      LspQuantizer.MinimumStep(ds, dist, index, 0, distMin);
      ds := ds + [dist];
      if LSub(dist, distMin) < 0 {
        distMin := dist;
        index := i;
      }
    }
  }

  /** The running sum of squares both routines take over a subframe. */
  method SumLoop(s0: Word32, v: array<Word16>, at: nat) returns (s: Word32)
    requires at + L_SUBFR <= v.Length
    ensures s == SumSquares(s0, v[at..at + L_SUBFR], L_SUBFR)
  {
    hide LMac0;
    s := s0;
    for i := 0 to L_SUBFR
      invariant s == SumSquares(s0, v[at..at + L_SUBFR], i)
    {
      s := LMac0(s, v[at + i], v[at + i]);
    }
  }

  /** The log energies of both contributions, as `Ener_Qua` and `Dec_Ener` each compute them. */
  method LogEnergies(a: Lpc, exc: array<Word16>, at: nat, code: array<Word16>)
    returns (lpc: Word32, enerPlt: Word16, enerC: Word16)
    requires at + L_SUBFR <= exc.Length && L_SUBFR <= code.Length
    ensures lpc == LpcGain(a)
    ensures enerPlt == PitchEnergy(lpc, exc[at..at + L_SUBFR]) && enerC == CodeEnergy(lpc, code[..L_SUBFR])
  {
    hide LpcGain, LogQ16, ToQ8, LMult0, AddSh, SubSh, SubSh16, Add;
    lpc := LpcGain(a);
    var expLpc, enerLpc := NormL(lpc), Mantissa(lpc);
    var t := SumLoop(1, exc, at);
    var log := LogQ16(LMult0(Mantissa(t), enerLpc));
    enerPlt := ToQ8(AddSh(SubSh16(log, Add(NormL(t), expLpc)), 1710, 8));
    t := SumLoop(0, code, 0);
    assert code[0..0 + L_SUBFR] == code[..L_SUBFR];
    log := LogQ16(LMult0(ExtractH(t), enerLpc));
    enerC := ToQ8(SubSh(SubSh16(log, expLpc), 4434, 8));
  }

  /** `Ener_Qua`: picks the entry nearest to the wanted energies and returns the gains it stands for. */
  method EnerQua(book: EnergyBook, a: Lpc, exc: array<Word16>, at: nat, code: array<Word16>,
                 wanted: GainPair, last: Energies)
    returns (index: Word16, gains: GainPair, energies: Energies)
    requires at + L_SUBFR <= exc.Length && L_SUBFR <= code.Length
    ensures 0 <= index < NB_QUA_ENER
    ensures FirstNearest(book, index, a, exc[at..at + L_SUBFR], code[..L_SUBFR], wanted, last)
    ensures energies == NextEnergies(book, index, last) && EnergiesRight(energies, book, index, last)
    ensures gains == QuantisedGains(LpcGain(a), exc[at..at + L_SUBFR], code[..L_SUBFR], energies)
    ensures SearchedRight(book, index, a, exc[at..at + L_SUBFR], code[..L_SUBFR], wanted, last)
    ensures GainsFit(gains, a, exc[at..at + L_SUBFR], code[..L_SUBFR], energies)
  {
    hide SearchedRight, GainsFit, NextEnergies, LpcGain, PitchEnergy, CodeEnergy, EnergiesRight, GainEnergy, Predicted, GainFrom, Add, Sub, LogQ16, ToQ8, LMac0, ExtractL, Limited;
    var lpc, enerPlt, enerC := LogEnergies(a, exc, at, code);
    var enerPit := Add(GainEnergy(wanted.pit, 24), enerPlt);
    var enerCod := Add(ToQ8(LogQ16(LMac0(1, wanted.cod, wanted.cod))), enerC);
    var predPit := Predicted(last.pit, last.cod);
    var predCod := Predicted(last.cod, last.pit);
    index := SearchGains(book, Sub(enerPit, predPit), Sub(enerCod, predCod));
    SearchIs(book, index, a, exc[at..at + L_SUBFR], code[..L_SUBFR], wanted, last);
    energies := NextEnergies(book, index, last);
    NextEnergiesAre(book, index, last);
    GainsFitFilter(a, exc[at..at + L_SUBFR], code[..L_SUBFR], energies);
    gains := GainPair(ExtractL(Limited(GainFrom(energies.pit, enerPlt, 12))), ExtractL(GainFrom(energies.cod, enerC, 0)));
  }

  /** `Dec_Ener` for a good frame. */
  method DecEner(book: EnergyBook, index: Word16, a: Lpc, exc: array<Word16>, at: nat, code: array<Word16>,
                 last: Energies)
    returns (gains: GainPair, energies: Energies)
    requires 0 <= index < NB_QUA_ENER
    requires at + L_SUBFR <= exc.Length && L_SUBFR <= code.Length
    ensures energies == NextEnergies(book, index, last) && EnergiesRight(energies, book, index, last)
    ensures gains == QuantisedGains(LpcGain(a), exc[at..at + L_SUBFR], code[..L_SUBFR], energies)
    ensures GainsFit(gains, a, exc[at..at + L_SUBFR], code[..L_SUBFR], energies)
  {
    GainsFitFilter(a, exc[at..at + L_SUBFR], code[..L_SUBFR], NextEnergies(book, index, last));
    hide GainsFit, NextEnergies, LpcGain, PitchEnergy, CodeEnergy, EnergiesRight, Predicted, GainFrom, Add, ExtractL, Limited;
    var lpc, enerPlt, enerC := LogEnergies(a, exc, at, code);
    energies := NextEnergies(book, index, last);
    NextEnergiesAre(book, index, last);
    gains := GainPair(ExtractL(Limited(GainFrom(energies.pit, enerPlt, 12))), ExtractL(GainFrom(energies.cod, enerC, 0)));
  }
}
