/** The algebraic codebook: four pulses of fixed signs on a grid, found by a time-limited search and rebuilt
    by the decoder from a 14-bit index. */
module CodeSearch {
  import opened FixedPoint
  import Im = ImpulseMatrix

  const LCODE := 60
  const LEAD := 64

  const GAIN_Q11: Word16 := 2896
  const GAIN_Q13: Word16 := 11585
  const GAIN_Q14: Word16 := 23170
  const THRESHOLD: Word16 := 19200
  const MAX_TIME: Word16 := 350

  // ---- pulses ----

  datatype Pulses = Pulses(ip0: Word16, ip1: Word16, ip2: Word16, ip3: Word16, shift: Word16, sign: Word16) {
    /** Positions the codebook contains: i0 on the 30 even samples, the others eight apart from 2, 4, 6. */
    predicate Legal() {
      && 0 <= ip0 <= 58 && ip0 % 2 == 0
      && 2 <= ip1 <= 58 && ip1 % 8 == 2
      && 4 <= ip2 <= 60 && ip2 % 8 == 4
      && 6 <= ip3 <= 62 && ip3 % 8 == 6
      && 0 <= shift <= 1 && 0 <= sign <= 1
    }

    /** Positions that stay within the 64 samples in front of the filter. */
    predicate InReach() {
      && 0 <= ip0 <= 62 && 0 <= ip1 <= 62 && 0 <= ip2 <= 62 && 0 <= ip3 <= 62
      && 0 <= shift <= 1
    }
  }

  lemma LegalInReach(p: Pulses)
    requires p.Legal()
    ensures p.InReach()
  {
  }

  /** The returned index. */
  function CodeIndex(p: Pulses): Word16
    requires p.Legal()
  {
    var a := Shr(p.ip0, 1);
    var b := Add(a, Shl(Shr(p.ip1, 3), 5));
    var c := Add(b, Shl(Shr(p.ip2, 3), 8));
    Add(c, Shl(Shr(p.ip3, 3), 11))
  }

  /** `index & mask` for a mask of consecutive ones: the lowest stands for `unit`, and `span` is the number of values
      they take. */
  function Masked(index: Word16, unit: int, span: int): Word16
    requires 0 <= index && 0 < unit && 0 < span
  {
    MaskRange(index, unit, span);
    Times(index / unit % span, unit)
  }

  lemma MaskRange(index: int, unit: int, span: int)
    requires 0 <= index <= 0x7fff && 0 < unit && 0 < span
    ensures 0 <= (index / unit % span) * unit <= index
  {
    DivisionBounds(index, unit);
    FloorWithin(index, unit);
    var q := index / unit;
    FloorWithin(q, span);
    DivisionBounds(q, span);
    MulOrder(0, span, q / span);
    assert span * (q / span) == (q / span) * span;
    assert q % span == q - span * (q / span);
    MulOrder(q % span, q, unit);
    MulOrder(0, q % span, unit);
    assert q * unit == unit * q;
  }

  /** Positions from an index, as `D_D4i60` computes them. */
  function DecodedPulses(index: Word16, sign: Word16, shift: Word16): Pulses
    requires 0 <= index < 0x4000
  {
    Pulses(Shl(Masked(index, 1, 32), 1),
           Add(Shr(Masked(index, 32, 8), 2), 2),
           Add(Shr(Masked(index, 256, 8), 5), 4),
           Add(Shr(Masked(index, 2048, 8), 8), 6),
           shift, sign)
  }

  lemma CodeIndexValue(p: Pulses)
    requires p.Legal()
    ensures CodeIndex(p) == p.ip0 / 2 + p.ip1 / 8 * 32 + p.ip2 / 8 * 256 + p.ip3 / 8 * 2048
    ensures 0 <= CodeIndex(p) < 0x4000
  {
    SmallPowers();
  }

  lemma FieldsOfIndex(index: int, a: int, b: int, c: int, d: int)
    requires 0 <= a < 32 && 0 <= b < 8 && 0 <= c < 8 && 0 <= d < 8
    requires index == a + b * 32 + c * 256 + d * 2048
    ensures index % 32 == a && index / 32 % 8 == b && index / 256 % 8 == c && index / 2048 % 8 == d
  {
    assert index / 32 == b + c * 8 + d * 64;
    assert index / 256 == c + d * 8;
    assert index / 2048 == d;
  }

  lemma DecodedPulsesValue(index: Word16, sign: Word16, shift: Word16)
    requires 0 <= index < 0x4000
    ensures DecodedPulses(index, sign, shift)
            == Pulses(index % 32 * 2, index / 32 % 8 * 8 + 2, index / 256 % 8 * 8 + 4, index / 2048 % 8 * 8 + 6,
                      shift, sign)
  {
    SmallPowers();
    assert index / 1 == index;
  }

  /** The decoder finds the encoder's pulses again, and the index fits 14 bits. */
  lemma PulsesRoundTrip(p: Pulses)
    requires p.Legal()
    ensures 0 <= CodeIndex(p) < 0x4000
    ensures DecodedPulses(CodeIndex(p), p.sign, p.shift) == p
  {
    hide CodeIndex, DecodedPulses;
    CodeIndexValue(p);
    FieldsOfIndex(CodeIndex(p), p.ip0 / 2, p.ip1 / 8, p.ip2 / 8, p.ip3 / 8);
    DecodedPulsesValue(CodeIndex(p), p.sign, p.shift);
  }

  /** Any 14-bit index stays within the zeros in front of the filter. */
  lemma DecodedInReach(index: Word16, sign: Word16, shift: Word16)
    requires 0 <= index < 0x4000 && 0 <= shift <= 1
    ensures DecodedPulses(index, sign, shift).InReach()
  {
    DecodedPulsesValue(index, sign, shift);
  }

  // ---- code vectors ----

  /** Sample i of the pulses convolved with the filter that starts at f[64]. */
  function CodeSample(f: seq<Word16>, p: Pulses, i: int): Word16
    requires |f| == LEAD + LCODE && p.InReach() && 0 <= i < LCODE
  {
    var at := LEAD - p.shift + i;
    var a := LMult0(f[at - p.ip0], GAIN_Q11);
    var b := SubSh(a, f[at - p.ip1], 11);
    var c := AddSh(b, f[at - p.ip2], 11);
    var d := SubSh(c, f[at - p.ip3], 11);
    StoreHi(if p.sign == 0 then d else LNegate(d), 5)
  }

  function CodeVector(f: seq<Word16>, p: Pulses): (code: seq<Word16>)
    requires |f| == LEAD + LCODE && p.InReach()
    ensures |code| == LCODE
  {
    seq(LCODE, i requires 0 <= i < LCODE => CodeSample(f, p, i))
  }

  // ---- what the pulses stand for, in plain integers ----

  /** One pulse in a train of 64 samples. */
  function Pulse(at: int, weight: int): (x: seq<int>)
    ensures |x| == 64
  {
    seq(64, j => if j == at then weight else 0)
  }

  /** The four pulses: the square root of two and one in Q11, of alternating sign, moved by the shift. */
  function Train(ip0: int, ip1: int, ip2: int, ip3: int, shift: int): (x: seq<int>)
    ensures |x| == 64
  {
    seq(64, j requires 0 <= j < 64 => Pulse(ip0 + shift, 2896)[j] + Pulse(ip1 + shift, -2048)[j]
                                      + Pulse(ip2 + shift, 2048)[j] + Pulse(ip3 + shift, -2048)[j])
  }

  lemma TrainDot(ip0: int, ip1: int, ip2: int, ip3: int, shift: int, y: seq<int>)
    requires |y| == 64 && 0 <= ip0 + shift < 64 && 0 <= ip1 + shift < 64 && 0 <= ip2 + shift < 64 && 0 <= ip3 + shift < 64
    ensures Dot(Train(ip0, ip1, ip2, ip3, shift), y)
            == 2896 * y[ip0 + shift] - 2048 * y[ip1 + shift] + 2048 * y[ip2 + shift] - 2048 * y[ip3 + shift]
  {
    hide Dot, Times;
    var a, b := Pulse(ip0 + shift, 2896), Pulse(ip1 + shift, -2048);
    var c, d := Pulse(ip2 + shift, 2048), Pulse(ip3 + shift, -2048);
    var ab := seq(64, j requires 0 <= j < 64 => a[j] + b[j]);
    var abc := seq(64, j requires 0 <= j < 64 => ab[j] + c[j]);
    DotSum(ab, a, b, y);
    DotSum(abc, ab, c, y);
    DotSum(Train(ip0, ip1, ip2, ip3, shift), abc, d, y);
    DotSingle(a, ip0 + shift, 2896, y);
    DotSingle(b, ip1 + shift, -2048, y);
    DotSingle(c, ip2 + shift, 2048, y);
    DotSingle(d, ip3 + shift, -2048, y);
    SignedTerms(y[ip0 + shift], y[ip1 + shift], y[ip2 + shift], y[ip3 + shift]);
  }

  lemma SignedTerms(a: int, b: int, c: int, d: int)
    ensures Times(2896, a) + Times(-2048, b) + Times(2048, c) + Times(-2048, d) == 2896 * a - 2048 * b + 2048 * c - 2048 * d
  {
  }

  /** The filter as the train meets it at sample i: the latest value first. */
  function Backwards(f: seq<Word16>, i: int): (g: seq<Word16>)
    requires |f| == LEAD + LCODE && 0 <= i < LCODE
    ensures |g| == 64
  {
    seq(64, j requires 0 <= j < 64 => f[LEAD + i - j])
  }

  /** A code vector is the signed train convolved with the filter, in Q11, reduced to 16 bits: in plain integers. */
  ghost predicate CodeRight(code: seq<Word16>, f: seq<Word16>, p: Pulses)
    requires |f| == LEAD + LCODE
  {
    && |code| == LCODE
    && forall i :: 0 <= i < LCODE ==>
         var s := Dot(Train(p.ip0, p.ip1, p.ip2, p.ip3, p.shift), Backwards(f, i));
         code[i] == Truncate((if p.sign == 0 then s else 0 - s) / 2048)
  }

  lemma CodeSampleIs(f: seq<Word16>, p: Pulses, i: int)
    requires |f| == LEAD + LCODE && p.InReach() && 0 <= i < LCODE
    ensures var s := Dot(Train(p.ip0, p.ip1, p.ip2, p.ip3, p.shift), Backwards(f, i));
            CodeSample(f, p, i) == Truncate((if p.sign == 0 then s else 0 - s) / 2048)
  {
    hide Power, Dot, Train, StoreHi, AddSh, SubSh, LNegate;
    var at, g := LEAD - p.shift + i, Backwards(f, i);
    TrainDot(p.ip0, p.ip1, p.ip2, p.ip3, p.shift, g);
    assert g[p.ip0 + p.shift] == f[at - p.ip0] && g[p.ip1 + p.shift] == f[at - p.ip1];
    assert g[p.ip2 + p.shift] == f[at - p.ip2] && g[p.ip3 + p.shift] == f[at - p.ip3];
    FourPulses(f[at - p.ip0], f[at - p.ip1], f[at - p.ip2], f[at - p.ip3]);
  }

  /** Four samples through the operators: nothing saturates. */
  lemma FourPulses(d0: Word16, d1: Word16, d2: Word16, d3: Word16)
    ensures var t := SubSh(AddSh(SubSh(LMult0(d0, GAIN_Q11), d1, 11), d2, 11), d3, 11);
            var s: int := 2896 * (d0 as int) - 2048 * (d1 as int) + 2048 * (d2 as int) - 2048 * (d3 as int);
            && StoreHi(t, 5) == Truncate(s / 2048) && StoreHi(LNegate(t), 5) == Truncate((0 - s) / 2048)
  {
    hide Power, Pow2Entry, AddSh, SubSh, StoreHi, Truncate;
    SmallPowers();
    var x0: int, x1: int, x2: int, x3: int := d0, d1, d2, d3;
    AddShExact(2896 * x0, d1, 11);
    AddShExact(2896 * x0 - 2048 * x1, d2, 11);
    AddShExact(2896 * x0 - 2048 * x1 + 2048 * x2, d3, 11);
    var s := 2896 * x0 - 2048 * x1 + 2048 * x2 - 2048 * x3;
    StoreHiIs(s, 5);
    StoreHiIs(0 - s, 5);
  }

  lemma CodeVectorIs(f: seq<Word16>, p: Pulses)
    requires |f| == LEAD + LCODE && p.InReach()
    ensures CodeRight(CodeVector(f, p), f, p)
  {
    hide CodeSample, Dot, Train, Backwards, Truncate;
    forall i | 0 <= i < LCODE
      ensures var s := Dot(Train(p.ip0, p.ip1, p.ip2, p.ip3, p.shift), Backwards(f, i));
              CodeVector(f, p)[i] == Truncate((if p.sign == 0 then s else 0 - s) / 2048)
    {
      CodeSampleIs(f, p, i);
    }
  }

  /** The convolution loop, whose text the source repeats for F, for h and for either sign. */
  method Convolve(f: array<Word16>, p: Pulses, code: array<Word16>)
    requires f.Length == LEAD + LCODE && p.InReach() && code.Length >= LCODE && f != code
    modifies code
    ensures code[..LCODE] == CodeVector(f[..], p) && CodeRight(code[..LCODE], f[..], p)
    ensures code[LCODE..] == old(code[LCODE..])
  {
    hide CodeRight, CodeSample;
    CodeVectorIs(f[..], p);
    var base := LEAD - p.shift;
    var p0, p1, p2, p3 := base - p.ip0, base - p.ip1, base - p.ip2, base - p.ip3;
    for i := 0 to LCODE
      invariant forall k :: 0 <= k < i ==> code[k] == CodeSample(f[..], p, k)
      invariant code[LCODE..] == old(code[LCODE..])
    {
      var t := LMult0(f[p0 + i], GAIN_Q11);
      t := SubSh(t, f[p1 + i], 11);
      t := AddSh(t, f[p2 + i], 11);
      t := SubSh(t, f[p3 + i], 11);
      if p.sign != 0 {
        t := LNegate(t);
      }
      StoredSample(f[..], p, i, t);
      code[i] := StoreHi(t, 5);
    }
  }

  lemma StoredSample(f: seq<Word16>, p: Pulses, i: int, t: Word32)
    requires |f| == LEAD + LCODE && p.InReach() && 0 <= i < LCODE
    requires var at := LEAD - p.shift + i;
             var s := SubSh(AddSh(SubSh(LMult0(f[at - p.ip0], GAIN_Q11), f[at - p.ip1], 11), f[at - p.ip2], 11),
                            f[at - p.ip3], 11);
             t == if p.sign == 0 then s else LNegate(s)
    ensures CodeSample(f, p, i) == StoreHi(t, 5)
  {
  }

  /** `D_D4i60`. */
  method DD4i60(index: Word16, sign: Word16, shift: Word16, f: array<Word16>, code: array<Word16>)
    requires 0 <= index < 0x4000 && 0 <= shift <= 1
    requires f.Length == LEAD + LCODE && code.Length >= LCODE && f != code
    modifies code
    ensures DecodedPulses(index, sign, shift).InReach()
    ensures code[..LCODE] == CodeVector(f[..], DecodedPulses(index, sign, shift))
    ensures CodeRight(code[..LCODE], f[..], DecodedPulses(index, sign, shift))
  {
    hide CodeRight, CodeVector, DecodedPulses;
    DecodedInReach(index, sign, shift);
    Convolve(f, DecodedPulses(index, sign, shift), code);
  }

  // ---- the search ----

  function FirstScore(d0: Word16): Word16 { StoreHi(LMult0(GAIN_Q11, d0), 5) }

  function ThirdScore(ps0: Word16, d1: Word16, d2: Word16): Word16 { Add(Sub(ps0, d1), d2) }

  function FourthScore(ps2: Word16, d3: Word16): Word16 { ExtractH(SubSh(LoadSh(ps2, 15), d3, 15)) }

  /** The (halved) correlation of the target with a set of pulses. */
  function PulseScore(dn: seq<Word16>, ip0: int, ip1: int, ip2: int, ip3: int, shift: int): Word16
    requires |dn| == LCODE + 4 && 0 <= shift <= 1
    requires 0 <= ip0 <= 58 && 0 <= ip1 <= 58 && 0 <= ip2 <= 60 && 0 <= ip3 <= 62
  {
    FourthScore(ThirdScore(FirstScore(dn[ip0 + shift]), dn[ip1 + shift], dn[ip2 + shift]), dn[ip3 + shift])
  }

  // ---- what score and energy stand for, in plain integers ----

  /** The score is half the correlation of the target with the unsigned train, in Q11, as long as the sums of the first
      two and three pulses fit 16 bits. */
  ghost predicate ScoreRight(ps: int, dn: seq<Word16>, ip0: int, ip1: int, ip2: int, ip3: int, shift: int)
    requires |dn| == LCODE + 4 && 0 <= shift <= 1
    requires 0 <= ip0 <= 58 && 0 <= ip1 <= 58 && 0 <= ip2 <= 60 && 0 <= ip3 <= 62
  {
    var one: int := 2896 * (dn[ip0 + shift] as int) / 2048;
    var two: int := one - dn[ip1 + shift];
    var three: int := two + dn[ip2 + shift];
    -0x8000 <= one <= 0x7fff && -0x8000 <= two <= 0x7fff && -0x8000 <= three <= 0x7fff ==>
      ps == Dot(Train(ip0, ip1, ip2, ip3, shift), dn) / 4096
  }

  lemma PulseScoreIs(dn: seq<Word16>, ip0: int, ip1: int, ip2: int, ip3: int, shift: int)
    requires |dn| == LCODE + 4 && 0 <= shift <= 1
    requires 0 <= ip0 <= 58 && 0 <= ip1 <= 58 && 0 <= ip2 <= 60 && 0 <= ip3 <= 62
    ensures ScoreRight(PulseScore(dn, ip0, ip1, ip2, ip3, shift), dn, ip0, ip1, ip2, ip3, shift)
  {
    hide FirstScore, ThirdScore, FourthScore, Dot, Train;
    TrainDot(ip0, ip1, ip2, ip3, shift, dn);
    FourScores(dn[ip0 + shift], dn[ip1 + shift], dn[ip2 + shift], dn[ip3 + shift]);
  }

  lemma FourScores(d0: Word16, d1: Word16, d2: Word16, d3: Word16)
    ensures var one: int, two: int, three: int := 2896 * (d0 as int) / 2048, 2896 * (d0 as int) / 2048 - d1,
                                                  2896 * (d0 as int) / 2048 - d1 + d2;
            -0x8000 <= one <= 0x7fff && -0x8000 <= two <= 0x7fff && -0x8000 <= three <= 0x7fff ==>
              FourthScore(ThirdScore(FirstScore(d0), d1, d2), d3)
              == (2896 * (d0 as int) - 2048 * (d1 as int) + 2048 * (d2 as int) - 2048 * (d3 as int)) / 4096
  {
    hide Power, Pow2Entry, SubSh, LoadSh, StoreHi, Truncate;
    var x0: int, x1: int, x2: int, x3: int := d0, d1, d2, d3;
    var one := 2896 * x0 / 2048;
    if -0x8000 <= one <= 0x7fff && -0x8000 <= one - x1 <= 0x7fff && -0x8000 <= one - x1 + x2 <= 0x7fff {
      SmallPowers();
      StoreHiIs(2896 * x0, 5);
      TruncateFits(one);
      assert ThirdScore(FirstScore(d0), d1, d2) == one - x1 + x2;
      HalfDifference(one - x1 + x2, d3);
      HalvedTwice(2896 * x0, x1, x2, x3);
    }
  }

  lemma HalfDifference(a: Word16, b: Word16)
    ensures FourthScore(a, b) == ((a as int) - b) / 2
  {
    hide Power;
    PowerThirty();
    AddShExact(0, a, 15);
    AddShExact(0x8000 * a, b, 15);
  }

  lemma HalvedTwice(c: int, x1: int, x2: int, x3: int)
    ensures (c / 2048 - x1 + x2 - x3) / 2 == (c - 2048 * x1 + 2048 * x2 - 2048 * x3) / 4096
  {
  }

  /** Sixteen times the energy is the quadratic form of the matrix over the train (whose square is two, and whose
      products with the other pulses are 185360 / 2^17 of the square root of two), less what the three divisions drop,
      as long as the last sum does not overflow. */
  ghost predicate EnergyRight(alpha: int, rr: seq<Word16>, i0: int, i1: int, i2: int, i3: int)
    requires |rr| == Im.DIM * Im.DIM && 0 <= i0 < Im.DIM && 0 <= i1 < Im.DIM && 0 <= i2 < Im.DIM && 0 <= i3 < Im.DIM
  {
    var r00: int, r11: int, r22: int, r33: int := Im.Cell(rr, i0, i0), Im.Cell(rr, i1, i1), Im.Cell(rr, i2, i2),
                                                  Im.Cell(rr, i3, i3);
    var r01: int, r02: int, r03: int := Im.Cell(rr, i0, i1), Im.Cell(rr, i0, i2), Im.Cell(rr, i0, i3);
    var r12: int, r13: int, r23: int := Im.Cell(rr, i1, i2), Im.Cell(rr, i1, i3), Im.Cell(rr, i2, i3);
    FormRight(alpha, r00, r11, r22, r33, r01, r02, r03, r12, r13, r23)
  }

  ghost predicate FormRight(alpha: int, r00: int, r11: int, r22: int, r33: int, r01: int, r02: int, r03: int,
                            r12: int, r13: int, r23: int)
  {
    var two := (0x4000 * r00 + 0x2000 * r11 - 23170 * r01) / 0x1_0000;
    var three := (0x8000 * two + 0x1000 * r22 + 11585 * r02 - 0x2000 * r12) / 0x1_0000;
    var form := 0x2_0000 * r00 + 0x1_0000 * r11 + 0x1_0000 * r22 + 0x1_0000 * r33
                - 185360 * r01 + 185360 * r02 - 185360 * r03 - 0x2_0000 * r12 + 0x2_0000 * r13 - 0x2_0000 * r23;
    three > -0x8000
    && NoOverflow(0x1_0000 * three, [0x1000 * r33, 0x2000 * r13, 0 - 11585 * r03, 0 - 0x2000 * r23]) ==>
      0 <= form - 0x10_0000 * alpha < 0x28_0000
  }

  lemma FourEnergyIs(rr: seq<Word16>, i0: int, i1: int, i2: int, i3: int)
    requires |rr| == Im.DIM * Im.DIM && 0 <= i0 < Im.DIM && 0 <= i1 < Im.DIM && 0 <= i2 < Im.DIM && 0 <= i3 < Im.DIM
    ensures EnergyRight(FourEnergy(rr, i0, i1, i2, i3), rr, i0, i1, i2, i3)
  {
    hide Im.Cell, SumInOrder, Total, NoOverflow;
    var r33: int, r13: int, r03: int, r23: int := Im.Cell(rr, i3, i3), Im.Cell(rr, i1, i3), Im.Cell(rr, i0, i3),
                                                  Im.Cell(rr, i2, i3);
    var three := ThreeEnergy(rr, i0, i1, i2);
    var terms := [0x1000 * r33, 0x2000 * r13, 0 - 11585 * r03, 0 - 0x2000 * r23];
    assert FourthTerms(rr, i0, i1, i2, i3) == terms;
    if three > -0x8000 && NoOverflow(0x1_0000 * three, terms) {
      InOrderIsTotal(0x1_0000 * three, terms);
      FourTerms(0x1_0000 * three, terms[0], terms[1], terms[2], terms[3]);
    }
  }

  lemma FourTerms(start: int, a: int, b: int, c: int, d: int)
    ensures Total(start, [a, b, c, d]) == start + a + b + c + d
  {
    assert [a, b, c, d] == [] + [a] + [b] + [c] + [d];
    SumOneMore(start, [], a);
    SumOneMore(start, [] + [a], b);
    SumOneMore(start, [] + [a] + [b], c);
    SumOneMore(start, [] + [a] + [b] + [c], d);
  }

  /** The winner of a search: nothing, or pulses with the score and the energy they really have. */
  ghost predicate WinnerRight(dn: seq<Word16>, rr: seq<Word16>, b: Best)
    requires |dn| == LCODE + 4 && |rr| == Im.DIM * Im.DIM
  {
    b == START
    || (&& b.Positions() && ScoreRight(b.ps, dn, b.ip0, b.ip1, b.ip2, b.ip3, b.shift)
        && EnergyRight(b.alpha, rr, b.ip0 / 2, b.ip1 / 2, b.ip2 / 2, b.ip3 / 2))
  }

  lemma MeasuredIs(dn: seq<Word16>, rr: seq<Word16>, b: Best)
    requires |dn| == LCODE + 4 && |rr| == Im.DIM * Im.DIM && b.Measured(dn, rr)
    ensures WinnerRight(dn, rr, b)
  {
    hide PulseScore, FourEnergy, ScoreRight, EnergyRight;
    PulseScoreIs(dn, b.ip0, b.ip1, b.ip2, b.ip3, b.shift);
    FourEnergyIs(rr, b.ip0 / 2, b.ip1 / 2, b.ip2 / 2, b.ip3 / 2);
  }

  /** A combination of four pulses with its score, the score's square and its energy. */
  datatype Best = Best(ps: Word16, psc: Word16, alpha: Word16,
                       ip0: Word16, ip1: Word16, ip2: Word16, ip3: Word16, shift: Word16) {
    /** Legal positions, with the score and the energy that they really have. */
    predicate Measured(dn: seq<Word16>, rr: seq<Word16>)
      requires |dn| == LCODE + 4 && |rr| == Im.DIM * Im.DIM
    {
      && Pulses(ip0, ip1, ip2, ip3, shift, 0).Legal()
      && ps == PulseScore(dn, ip0, ip1, ip2, ip3, shift) && psc == Mult(ps, ps)
      && alpha == FourEnergy(rr, ip0 / 2, ip1 / 2, ip2 / 2, ip3 / 2)
    }

    predicate Positions() {
      Pulses(ip0, ip1, ip2, ip3, shift, 0).Legal()
    }
  }

  /** Where the search starts: no score at all, over a small energy. */
  const START := Best(0, 0, 255, 0, 2, 4, 6, 0)

  /** Square of the score to energy: is c better than b? Only meant for positive energies. */
  predicate Beats(c: Best, b: Best) {
    Times(c.psc, b.alpha) > Times(b.psc, c.alpha)
  }

  ghost predicate AllPositive(tried: seq<Best>) {
    forall i :: 0 <= i < |tried| ==> tried[i].alpha > 0
  }

  ghost predicate Unbeaten(best: Best, tried: seq<Best>) {
    best.alpha > 0 && forall i :: 0 <= i < |tried| ==> !Beats(tried[i], best)
  }

  /** What a search that tried these combinations, in this order, has to show for it. */
  ghost predicate Ranked(dn: seq<Word16>, rr: seq<Word16>, best: Best, tried: seq<Best>)
    requires |dn| == LCODE + 4 && |rr| == Im.DIM * Im.DIM
  {
    && (best == START || best in tried)
    && (forall i :: 0 <= i < |tried| ==> tried[i].Measured(dn, rr))
    && (AllPositive(tried) ==> Unbeaten(best, tried))
  }

  lemma NothingTried(dn: seq<Word16>, rr: seq<Word16>)
    requires |dn| == LCODE + 4 && |rr| == Im.DIM * Im.DIM
    ensures Ranked(dn, rr, START, [])
  {
  }

  /** One more combination, which is taken if it beats the best. */
  lemma OneMoreTried(dn: seq<Word16>, rr: seq<Word16>, best: Best, tried: seq<Best>, c: Best)
    requires |dn| == LCODE + 4 && |rr| == Im.DIM * Im.DIM
    requires Ranked(dn, rr, best, tried) && c.Measured(dn, rr)
    ensures Ranked(dn, rr, if Beats(c, best) then c else best, tried + [c])
  {
    hide Best.Measured, Times;
    var now := tried + [c];
    if AllPositive(now) {
      assert AllPositive(tried) by {
        forall i | 0 <= i < |tried|
          ensures tried[i].alpha > 0
        {
          assert now[i] == tried[i];
        }
      }
      assert now[|tried|] == c;
      if Beats(c, best) {
        forall i | 0 <= i < |now|
          ensures !Beats(now[i], c)
        {
          if i < |tried| {
            assert now[i] == tried[i];
            BeatsIsTransitive(tried[i], best, c);
          } else {
            NeverBeatsItself(c);
          }
        }
      }
    }
  }

  lemma NeverBeatsItself(c: Best)
    ensures !Beats(c, c)
  {
  }

  /** Among positive energies what the prior best held off, a better one holds off too. */
  lemma BeatsIsTransitive(t: Best, prior: Best, c: Best)
    requires t.alpha > 0 && prior.alpha > 0 && c.alpha > 0
    requires !Beats(t, prior) && Beats(c, prior)
    ensures !Beats(t, c)
  {
    CrossMultiplied(t.psc, t.alpha, prior.psc, prior.alpha, c.psc, c.alpha);
  }

  lemma CrossMultiplied(p: int, a: int, q: int, b: int, r: int, c: int)
    requires a > 0 && b > 0 && c > 0
    requires p * b <= q * a && r * b > q * c
    ensures p * c <= r * a
  {
    MulOrder(q * c, r * b, a);
    MulOrder(p * b, q * a, c);
    assert (q * c) * a == (q * a) * c && (p * b) * c == (p * c) * b && (r * a) * b == (r * b) * a;
    if p * c > r * a {
      MulOrder(r * a + 1, p * c, b);
      assert false;
    }
  }

  /** The winner is the start or a combination that was tried. */
  lemma RankedIsLegal(dn: seq<Word16>, rr: seq<Word16>, best: Best, tried: seq<Best>)
    requires |dn| == LCODE + 4 && |rr| == Im.DIM * Im.DIM && Ranked(dn, rr, best, tried)
    ensures best == START || best.Measured(dn, rr)
    ensures best.Positions() && WinnerRight(dn, rr, best)
  {
    hide PulseScore, FourEnergy, ScoreRight, EnergyRight;
    if best != START {
      MeasuredIs(dn, rr, best);
    }
  }

  /** Sum of a sample and its successor, saturating. */
  function PairSum(dn: seq<Word16>, i: int): Word16
    requires 0 <= i < |dn| - 1
  {
    Add(dn[i], dn[i + 1])
  }

  /** The pair sums at every step-th position from i. */
  function PairSums(dn: seq<Word16>, i: nat, step: nat): seq<Word16>
    requires |dn| == LCODE + 4 && step > 0
    decreases LCODE - i
  {
    if i >= LCODE then [] else [PairSum(dn, i)] + PairSums(dn, i + step, step)
  }

  /** They are the sums at i, i + step, i + 2 * step and so on below 60. */
  lemma {:induction false} PairSumsAre(dn: seq<Word16>, i: nat, step: nat, k: nat)
    requires |dn| == LCODE + 4 && step > 0
    ensures k < |PairSums(dn, i, step)| <==> i + Times(k, step) < LCODE
    ensures k < |PairSums(dn, i, step)| ==>
              var at := i + Times(k, step); PairSums(dn, i, step)[k] == Sature((dn[at] as int) + dn[at + 1])
    decreases LCODE - i
  {
    hide Sature, PairSums, Times;
    StepTimes(step, k);
    FirstPairSum(dn, i, step);
    if i < LCODE && k > 0 {
      PairSumsAre(dn, i + step, step, k - 1);
    }
  }

  lemma FirstPairSum(dn: seq<Word16>, i: nat, step: nat)
    requires |dn| == LCODE + 4 && step > 0
    ensures PairSums(dn, i, step)
            == if i >= LCODE then [] else [Sature((dn[i] as int) + dn[i + 1])] + PairSums(dn, i + step, step)
  {
    hide Sature;
  }

  lemma StepTimes(step: nat, k: nat)
    ensures Times(0, step) == 0 && 0 <= Times(k, step)
    ensures k > 0 ==> Times(k, step) == Times(k - 1, step) + step
  {
    MulOrder(0, k, step);
    if k > 0 {
      NextMultiple(step, k - 1);
    }
  }

  /** The largest of zero and the sums, and the smallest. */
  function TopOf(sums: seq<Word16>): Word16 {
    if sums == [] then 0
    else
      var top, last := TopOf(sums[..|sums| - 1]), sums[|sums| - 1];
      if last > top then last else top
  }

  function BottomOf(sums: seq<Word16>): Word16 {
    if sums == [] then 0
    else
      var bottom, last := BottomOf(sums[..|sums| - 1]), sums[|sums| - 1];
      if last < bottom then last else bottom
  }

  /** They bound zero and every sum, and each is one of them. */
  lemma {:induction false} TopAndBottom(sums: seq<Word16>)
    ensures BottomOf(sums) <= 0 <= TopOf(sums)
    ensures forall k :: 0 <= k < |sums| ==> BottomOf(sums) <= sums[k] <= TopOf(sums)
    ensures TopOf(sums) == 0 || TopOf(sums) in sums
    ensures BottomOf(sums) == 0 || BottomOf(sums) in sums
  {
    if sums != [] {
      TopAndBottom(sums[..|sums| - 1]);
    }
  }

  lemma ExtremesStep(sums: seq<Word16>, j: Word16)
    ensures TopOf(sums + [j]) == if j > TopOf(sums) then j else TopOf(sums)
    ensures BottomOf(sums + [j]) == if j < BottomOf(sums) then j else BottomOf(sums)
    ensures TopOf([]) == BottomOf([]) == 0 && BottomOf(sums) <= TopOf(sums)
  {
    TopAndBottom(sums);
    assert (sums + [j])[..|sums|] == sums;
  }

  /** The larger and smaller extreme of zero and the pair sums, halved. */
  method Extremes(dn: array<Word16>, from: nat, step: nat) returns (max: Word16, min: Word16)
    requires dn.Length == LCODE + 4 && step > 0
    ensures max == Shr(TopOf(PairSums(dn[..], from, step)), 1)
    ensures min == Shr(BottomOf(PairSums(dn[..], from, step)), 1)
  {
    hide Add, Sub, Shr, TopOf, BottomOf, PairSums;
    min, max := 0, 0;
    var i := from;
    ghost var d, sums := dn[..], [];
    ExtremesStep([], 0);
    while i < LCODE
      invariant sums + PairSums(d, i, step) == PairSums(d, from, step)
      invariant max == TopOf(sums) && min == BottomOf(sums)
    {
      var j := Add(dn[i], dn[i + 1]);
      assert j == PairSum(d, i);
      NextPairSum(d, i, step, sums);
      SubSign(j, max);
      SubSign(j, min);
      ExtremesStep(sums, j);
      sums := sums + [j];
      if Sub(j, max) > 0 {
        max := j;
      } else if Sub(j, min) < 0 {
        min := j;
      }
      i := i + step;
    }
    NoPairSum(d, i, step, sums);
    max := Shr(max, 1);
    min := Shr(min, 1);
  }

  lemma NextPairSum(d: seq<Word16>, i: nat, step: nat, sums: seq<Word16>)
    requires |d| == LCODE + 4 && step > 0 && i < LCODE
    ensures sums + PairSums(d, i, step) == sums + [PairSum(d, i)] + PairSums(d, i + step, step)
  {
  }

  lemma NoPairSum(d: seq<Word16>, i: nat, step: nat, sums: seq<Word16>)
    requires |d| == LCODE + 4 && step > 0 && i >= LCODE
    ensures sums + PairSums(d, i, step) == sums
  {
  }

  /** A saturated difference has the sign of the true one. */
  lemma SubSign(a: Word16, b: Word16)
    ensures (Sub(a, b) > 0 <==> a > b) && (Sub(a, b) < 0 <==> a < b)
  {
  }

  function HalfTop(dn: seq<Word16>, from: nat, step: nat): Word16
    requires |dn| == LCODE + 4 && step > 0
  {
    Shr(TopOf(PairSums(dn, from, step)), 1)
  }

  function HalfBottom(dn: seq<Word16>, from: nat, step: nat): Word16
    requires |dn| == LCODE + 4 && step > 0
  {
    Shr(BottomOf(PairSums(dn, from, step)), 1)
  }

  function Larger(a: Word16, b: Word16): Word16 { if a > b then a else b }

  /** The largest scores two and three pulses could have, from the extremes of each pulse alone: the second pulse is
      negative, the others positive, or the other way round. */
  function FirstThreshold(dn: seq<Word16>): Word16
    requires |dn| == LCODE + 4
  {
    Mult(Larger(Sub(FirstScore(HalfTop(dn, 0, 2)), HalfBottom(dn, 2, 8)),
                Sub(HalfTop(dn, 2, 8), FirstScore(HalfBottom(dn, 0, 2)))), THRESHOLD)
  }

  function SecondThreshold(dn: seq<Word16>): Word16
    requires |dn| == LCODE + 4
  {
    Mult(Larger(Add(Sub(FirstScore(HalfTop(dn, 0, 2)), HalfBottom(dn, 2, 8)), HalfTop(dn, 4, 8)),
                Sub(Sub(HalfTop(dn, 2, 8), FirstScore(HalfBottom(dn, 0, 2))), HalfBottom(dn, 4, 8))), THRESHOLD)
  }

  /** The thresholds in plain integers: 19200 / 2^15 of the larger estimate, where the first pulse counts with the
      square root of two. */
  ghost predicate ThresholdsRight(dn: seq<Word16>, first: int, second: int)
    requires |dn| == LCODE + 4
  {
    var top0: int, bottom0: int := TopOf(PairSums(dn, 0, 2)), BottomOf(PairSums(dn, 0, 2));
    var top1: int, bottom1: int := TopOf(PairSums(dn, 2, 8)), BottomOf(PairSums(dn, 2, 8));
    var top2: int, bottom2: int := TopOf(PairSums(dn, 4, 8)), BottomOf(PairSums(dn, 4, 8));
    (forall i :: 0 <= i < |dn| ==> -8000 <= dn[i] <= 8000) ==>
      && first == Max(2896 * (top0 / 2) / 2048 - bottom1 / 2, top1 / 2 - 2896 * (bottom0 / 2) / 2048) * 19200 / 0x8000
      && second == Max(2896 * (top0 / 2) / 2048 - bottom1 / 2 + top2 / 2,
                       top1 / 2 - 2896 * (bottom0 / 2) / 2048 - bottom2 / 2) * 19200 / 0x8000
  }

  function Max(a: int, b: int): int { if a >= b then a else b }

  lemma SmallExtremes(dn: seq<Word16>, from: nat, step: nat)
    requires |dn| == LCODE + 4 && step > 0 && forall i :: 0 <= i < |dn| ==> -8000 <= dn[i] <= 8000
    ensures 0 <= TopOf(PairSums(dn, from, step)) <= 16000 && -16000 <= BottomOf(PairSums(dn, from, step)) <= 0
  {
    hide TopOf, BottomOf, PairSums;
    var sums := PairSums(dn, from, step);
    TopAndBottom(sums);
    forall k | 0 <= k < |sums|
      ensures -16000 <= sums[k] <= 16000
    {
      PairSumsAre(dn, from, step, k);
    }
  }

  lemma HalvesAre(dn: seq<Word16>, from: nat, step: nat)
    requires |dn| == LCODE + 4 && step > 0 && forall i :: 0 <= i < |dn| ==> -8000 <= dn[i] <= 8000
    ensures HalfTop(dn, from, step) == TopOf(PairSums(dn, from, step)) / 2
    ensures HalfBottom(dn, from, step) == BottomOf(PairSums(dn, from, step)) / 2
    ensures 0 <= HalfTop(dn, from, step) <= 8000 && -8000 <= HalfBottom(dn, from, step) <= 0
  {
    hide TopOf, BottomOf, PairSums;
    SmallExtremes(dn, from, step);
    assert Power(1) == 2;
  }

  lemma FirstScoreIs(x: Word16)
    requires -8000 <= x <= 8000
    ensures FirstScore(x) == 2896 * (x as int) / 2048
  {
    hide Power, StoreHi;
    SmallPowers();
    StoreHiIs(2896 * (x as int), 5);
    TruncateFits(2896 * (x as int) / 2048);
  }

  lemma ThresholdsAre(dn: seq<Word16>)
    requires |dn| == LCODE + 4
    ensures ThresholdsRight(dn, FirstThreshold(dn), SecondThreshold(dn))
  {
    hide HalfTop, HalfBottom, FirstScore, TopOf, BottomOf, PairSums;
    if forall i :: 0 <= i < |dn| ==> -8000 <= dn[i] <= 8000 {
      HalvesAre(dn, 0, 2);
      HalvesAre(dn, 2, 8);
      HalvesAre(dn, 4, 8);
      FirstScoreIs(HalfTop(dn, 0, 2));
      FirstScoreIs(HalfBottom(dn, 0, 2));
    }
  }

  method Thresholds(dn: array<Word16>) returns (seuil1: Word16, seuil2: Word16)
    requires dn.Length == LCODE + 4
    ensures ThresholdsRight(dn[..], seuil1, seuil2)
    ensures seuil1 == FirstThreshold(dn[..]) && seuil2 == SecondThreshold(dn[..])
  {
    hide Add, Sub, Shr, Mult, TopOf, BottomOf, PairSums, StoreHi, ThresholdsRight;
    ThresholdsAre(dn[..]);
    var max0, min0 := Extremes(dn, 0, 2);
    max0 := StoreHi(LMult0(max0, GAIN_Q11), 5);
    min0 := StoreHi(LMult0(min0, GAIN_Q11), 5);
    var max1, min1 := Extremes(dn, 2, 8);
    var max2, min2 := Extremes(dn, 4, 8);
    max0 := Sub(max0, min1);
    max2 := Add(max0, max2);
    max1 := Sub(max1, min0);
    var j := Sub(max1, min2);
    SubSign(max0, max1);
    SubSign(j, max2);
    if Sub(max0, max1) > 0 {
      max1 := max0;
    }
    if Sub(j, max2) > 0 {
      max2 := j;
    }
    seuil1 := Mult(max1, THRESHOLD);
    seuil2 := Mult(max2, THRESHOLD);
  }

  function Magnitude(x: int): int {
    if x < 0 then 0 - x else x
  }

  lemma SumAt15(a: Word16, b: Word16)
    ensures AddSh(LoadSh(a, 15), b, 15) == 0x8000 * (a + b)
  {
    assert Power(15) == 0x8000;
    AddShExact(0, a, 15);
    AddShExact(0x8000 * a, b, 15);
  }

  /** Is the mean of two scores, in magnitude, above the threshold? */
  method Exceeds(a: Word16, b: Word16, seuil: Word16) returns (above: bool)
    ensures above <==> Magnitude(a + b) > Times(2, seuil)
    ensures above <==> (a as int) + b > 2 * (seuil as int) || 0 - (a as int) - b > 2 * (seuil as int)
  {
    hide Power, Pow2Entry;
    SumAt15(a, b);
    var t := LAbs(AddSh(LoadSh(a, 15), b, 15));
    above := SubSh16(t, seuil) > 0;
  }

  // The energies of two, three and four pulses, each scaled down against overflow. The first two never saturate.

  function TwoEnergy(rr: seq<Word16>, i0: int, i1: int): int
    requires |rr| == Im.DIM * Im.DIM && 0 <= i0 < Im.DIM && 0 <= i1 < Im.DIM
  {
    (Times(0x4000, Im.Cell(rr, i0, i0)) + Times(0x2000, Im.Cell(rr, i1, i1))
     - Times(GAIN_Q14, Im.Cell(rr, i0, i1))) / 0x1_0000
  }

  function ThreeEnergy(rr: seq<Word16>, i0: int, i1: int, i2: int): int
    requires |rr| == Im.DIM * Im.DIM && 0 <= i0 < Im.DIM && 0 <= i1 < Im.DIM && 0 <= i2 < Im.DIM
  {
    (Times(0x8000, TwoEnergy(rr, i0, i1)) + Times(0x1000, Im.Cell(rr, i2, i2)) + Times(GAIN_Q13, Im.Cell(rr, i0, i2))
     - Times(0x2000, Im.Cell(rr, i1, i2))) / 0x1_0000
  }

  function FourEnergy(rr: seq<Word16>, i0: int, i1: int, i2: int, i3: int): Word16
    requires |rr| == Im.DIM * Im.DIM && 0 <= i0 < Im.DIM && 0 <= i1 < Im.DIM && 0 <= i2 < Im.DIM && 0 <= i3 < Im.DIM
  {
    SumFits(HighLoaded(ThreeEnergy(rr, i0, i1, i2)), FourthTerms(rr, i0, i1, i2, i3));
    SumInOrder(HighLoaded(ThreeEnergy(rr, i0, i1, i2)), FourthTerms(rr, i0, i1, i2, i3)) / 0x1_0000
  }

  method EnergyOfTwo(rr: seq<Word16>, i0: int, i1: int) returns (alp1: Word16)
    requires |rr| == Im.DIM * Im.DIM && 0 <= i0 < Im.DIM && 0 <= i1 < Im.DIM
    ensures alp1 == TwoEnergy(rr, i0, i1)
  {
    hide Power, Pow2Entry, Im.Cell;
    TwoExact(Im.Cell(rr, i0, i0), Im.Cell(rr, i1, i1), Im.Cell(rr, i0, i1));
    var t := AddSh(LoadSh(Im.Cell(rr, i0, i0), 14), Im.Cell(rr, i1, i1), 13);
    t := LMsu0(t, GAIN_Q14, Im.Cell(rr, i0, i1));
    alp1 := ExtractH(t);
  }

  method EnergyOfThree(rr: seq<Word16>, i0: int, i1: int, i2: int, alp1: Word16) returns (alp2: Word16)
    requires |rr| == Im.DIM * Im.DIM && 0 <= i0 < Im.DIM && 0 <= i1 < Im.DIM && 0 <= i2 < Im.DIM
    requires alp1 == TwoEnergy(rr, i0, i1)
    ensures alp2 == ThreeEnergy(rr, i0, i1, i2)
  {
    hide Power, Pow2Entry, Im.Cell, TwoEnergy;
    ThreeExact(alp1, Im.Cell(rr, i2, i2), Im.Cell(rr, i0, i2), Im.Cell(rr, i1, i2));
    var t := AddSh(LoadSh(alp1, 15), Im.Cell(rr, i2, i2), 12);
    t := LMac0(t, GAIN_Q13, Im.Cell(rr, i0, i2));
    t := SubSh(t, Im.Cell(rr, i1, i2), 13);
    alp2 := ExtractH(t);
  }

  lemma SumFits(start: int, terms: seq<int>)
    requires terms != []
    ensures MIN_32 <= SumInOrder(start, terms) <= MAX_32
  {
  }

  /** The contributions of the fourth pulse to the energy. */
  function FourthTerms(rr: seq<Word16>, i0: int, i1: int, i2: int, i3: int): (terms: seq<int>)
    requires |rr| == Im.DIM * Im.DIM && 0 <= i0 < Im.DIM && 0 <= i1 < Im.DIM && 0 <= i2 < Im.DIM && 0 <= i3 < Im.DIM
    ensures |terms| == 4
  {
    [Times(0x1000, Im.Cell(rr, i3, i3)), Times(0x2000, Im.Cell(rr, i1, i3)), 0 - Times(GAIN_Q13, Im.Cell(rr, i0, i3)),
     0 - Times(0x2000, Im.Cell(rr, i2, i3))]
  }

  /** A value in the high half; the product that puts it there saturates at the smallest one. */
  function HighLoaded(a: int): int {
    if a == -0x8000 then MIN_32 + 1 else Times(0x1_0000, a)
  }

  /** This sum can saturate; it is taken in the order of the source. */
  method EnergyOfFour(rr: seq<Word16>, i0: int, i1: int, i2: int, i3: int, alp2: Word16) returns (alp3: Word16)
    requires |rr| == Im.DIM * Im.DIM && 0 <= i0 < Im.DIM && 0 <= i1 < Im.DIM && 0 <= i2 < Im.DIM && 0 <= i3 < Im.DIM
    requires alp2 == ThreeEnergy(rr, i0, i1, i2)
    ensures alp3 == FourEnergy(rr, i0, i1, i2, i3)
  {
    hide Power, Pow2Entry, Im.Cell, SumInOrder, ThreeEnergy;
    FourInOrder(alp2, Im.Cell(rr, i3, i3), Im.Cell(rr, i1, i3), Im.Cell(rr, i0, i3), Im.Cell(rr, i2, i3));
    var t := AddSh(LoadSh16(alp2), Im.Cell(rr, i3, i3), 12);
    t := AddSh(t, Im.Cell(rr, i1, i3), 13);
    t := LMsu0(t, GAIN_Q13, Im.Cell(rr, i0, i3));
    t := SubSh(t, Im.Cell(rr, i2, i3), 13);
    alp3 := ExtractH(t);
  }

  lemma TwoExact(a: Word16, b: Word16, c: Word16)
    ensures LMsu0(AddSh(LoadSh(a, 14), b, 13), GAIN_Q14, c)
            == Times(0x4000, a) + Times(0x2000, b) - Times(GAIN_Q14, c)
  {
    hide Power;
    SmallPowers();
    AddShExact(0, a, 14);
    AddShExact(0x4000 * a, b, 13);
  }

  lemma ThreeExact(alp1: Word16, a: Word16, b: Word16, c: Word16)
    ensures SubSh(LMac0(AddSh(LoadSh(alp1, 15), a, 12), GAIN_Q13, b), c, 13)
            == Times(0x8000, alp1) + Times(0x1000, a) + Times(GAIN_Q13, b) - Times(0x2000, c)
  {
    hide Power;
    SmallPowers();
    AddShExact(0, alp1, 15);
    AddShExact(0x8000 * alp1, a, 12);
    AddShExact(0x8000 * alp1 + 0x1000 * a + GAIN_Q13 * b, c, 13);
  }

  lemma FourInOrder(alp2: Word16, a: Word16, b: Word16, c: Word16, d: Word16)
    ensures SubSh(LMsu0(AddSh(AddSh(LoadSh16(alp2), a, 12), b, 13), GAIN_Q13, c), d, 13)
            == SumInOrder(HighLoaded(alp2),
                          [Times(0x1000, a), Times(0x2000, b), 0 - Times(GAIN_Q13, c), 0 - Times(0x2000, d)])
  {
    hide LoadSh16, AddSh, SubSh, LMsu0, Times, HighLoaded, SumInOrder, Sature32;
    FourSums(HighLoaded(alp2), Times(0x1000, a), Times(0x2000, b), 0 - Times(GAIN_Q13, c), 0 - Times(0x2000, d));
    var s0 := LoadSh16(alp2);
    var s1 := AddSh(s0, a, 12);
    var s2 := AddSh(s1, b, 13);
    var s3 := LMsu0(s2, GAIN_Q13, c);
    SumSteps(alp2, s0, a, 0);
    SumSteps(alp2, s1, b, 0);
    SumSteps(alp2, s2, 0, c);
    SumSteps(alp2, s3, d, 0);
  }

  /** Each operation of the sum is one saturated addition. */
  lemma SumSteps(alp2: Word16, s: Word32, a: Word16, c: Word16)
    ensures LoadSh16(alp2) == HighLoaded(alp2)
    ensures AddSh(s, a, 12) == Sature32(s + Times(0x1000, a)) && AddSh(s, a, 13) == Sature32(s + Times(0x2000, a))
    ensures SubSh(s, a, 13) == Sature32(s + (0 - Times(0x2000, a)))
    ensures LMsu0(s, GAIN_Q13, c) == Sature32(s + (0 - Times(GAIN_Q13, c)))
  {
    hide Power, Pow2Entry;
    SmallPowers();
    AddShExact(s, a, 12);
    AddShExact(s, a, 13);
  }

  lemma FourSums(start: int, a: int, b: int, c: int, d: int)
    ensures SumInOrder(start, [a, b, c, d]) == Sature32(Sature32(Sature32(Sature32(start + a) + b) + c) + d)
  {
    assert [a, b, c, d][..3] == [a, b, c] && [a, b, c][..2] == [a, b] && [a, b][..1] == [a] && [a][..0] == [];
    assert SumInOrder(start, [a]) == Sature32(start + a);
    assert SumInOrder(start, [a, b]) == Sature32(Sature32(start + a) + b);
    assert SumInOrder(start, [a, b, c]) == Sature32(Sature32(Sature32(start + a) + b) + c);
  }

  /** Is ps3c / alp3 better than psc / alpha? Decided by cross-multiplying; saturation does not disturb it. */
  method Improves(ps3c: Word16, alp3: Word16, psc: Word16, alpha: Word16) returns (better: bool)
    ensures better <==> Times(ps3c, alpha) > Times(psc, alp3)
  {
    ProductRange(ps3c, alpha);
    ProductRange(psc, alp3);
    better := LMsu(LMult(ps3c, alpha), psc, alp3) > 0;
  }

  // ---- what there is to try: pulses at 2 * i0, 8 * k1 + 2, 8 * k2 + 4 and 8 * k3 + 6 ----

  function TwoScore(dn: seq<Word16>, i0: int, k1: int, shif: int): Word16
    requires |dn| == LCODE + 4 && 0 <= i0 < 30 && 0 <= k1 < 8 && 0 <= shif <= 1
  {
    Sub(FirstScore(dn[2 * i0 + shif]), dn[8 * k1 + 2 + shif])
  }

  function ThreeScore(dn: seq<Word16>, i0: int, k1: int, k2: int, shif: int): Word16
    requires |dn| == LCODE + 4 && 0 <= i0 < 30 && 0 <= k1 < 8 && 0 <= k2 < 8 && 0 <= shif <= 1
  {
    ThirdScore(FirstScore(dn[2 * i0 + shif]), dn[8 * k1 + 2 + shif], dn[8 * k2 + 4 + shif])
  }

  /** Two pulses are worth a third, and three a fourth, when the mean of both shifts is above the threshold. */
  predicate OverFirst(dn: seq<Word16>, seuil1: Word16, i0: int, k1: int)
    requires |dn| == LCODE + 4 && 0 <= i0 < 30 && 0 <= k1 < 8
  {
    Magnitude(TwoScore(dn, i0, k1, 0) + TwoScore(dn, i0, k1, 1)) > Times(2, seuil1)
  }

  predicate OverSecond(dn: seq<Word16>, seuil2: Word16, i0: int, k1: int, k2: int)
    requires |dn| == LCODE + 4 && 0 <= i0 < 30 && 0 <= k1 < 8 && 0 <= k2 < 8
  {
    Magnitude(ThreeScore(dn, i0, k1, k2, 0) + ThreeScore(dn, i0, k1, k2, 1)) > Times(2, seuil2)
  }

  /** Three pulses are shifted when that makes their score larger. */
  function ShiftFor(dn: seq<Word16>, i0: int, k1: int, k2: int): (shif: Word16)
    requires |dn| == LCODE + 4 && 0 <= i0 < 30 && 0 <= k1 < 8 && 0 <= k2 < 8
    ensures 0 <= shif <= 1
  {
    if Sub(AbsS(ThreeScore(dn, i0, k1, k2, 1)), AbsS(ThreeScore(dn, i0, k1, k2, 0))) > 0 then 1 else 0
  }

  /** Both thresholds in plain integers, for targets within 8000: the scores of both shifts are added, the first pulse
      with the square root of two, the second subtracted and the third added. */
  lemma OverThresholds(dn: seq<Word16>, seuil1: Word16, seuil2: Word16, i0: int, k1: int, k2: int)
    requires |dn| == LCODE + 4 && 0 <= i0 < 30 && 0 <= k1 < 8 && 0 <= k2 < 8
    requires forall i :: 0 <= i < |dn| ==> -8000 <= dn[i] <= 8000
    ensures var two: int := 2896 * (dn[2 * i0] as int) / 2048 + 2896 * (dn[2 * i0 + 1] as int) / 2048
                            - dn[8 * k1 + 2] - dn[8 * k1 + 3];
            var three: int := two + dn[8 * k2 + 4] + dn[8 * k2 + 5];
            && (OverFirst(dn, seuil1, i0, k1) <==> two > 2 * (seuil1 as int) || -two > 2 * (seuil1 as int))
            && (OverSecond(dn, seuil2, i0, k1, k2) <==> three > 2 * (seuil2 as int) || -three > 2 * (seuil2 as int))
  {
    hide FirstScore;
    FirstScoreIs(dn[2 * i0]);
    FirstScoreIs(dn[2 * i0 + 1]);
  }

  /** The chosen shift has the larger magnitude, and the first one in a draw. */
  lemma BetterShift(dn: seq<Word16>, i0: int, k1: int, k2: int)
    requires |dn| == LCODE + 4 && 0 <= i0 < 30 && 0 <= k1 < 8 && 0 <= k2 < 8
    ensures var shif := ShiftFor(dn, i0, k1, k2);
            var a: int, b: int := AbsS(ThreeScore(dn, i0, k1, k2, shif)), AbsS(ThreeScore(dn, i0, k1, k2, 1 - shif));
            a >= b && (shif == 1 ==> a > b)
  {
    hide ThreeScore;
  }

  /** A combination in the better shift, measured. */
  function Candidate(dn: seq<Word16>, rr: seq<Word16>, i0: int, k1: int, k2: int, k3: int): Best
    requires |dn| == LCODE + 4 && |rr| == Im.DIM * Im.DIM
    requires 0 <= i0 < 30 && 0 <= k1 < 8 && 0 <= k2 < 8 && 0 <= k3 < 8
  {
    var shif := ShiftFor(dn, i0, k1, k2);
    var ps := FourthScore(ThreeScore(dn, i0, k1, k2, shif), dn[8 * k3 + 6 + shif]);
    Best(ps, Mult(ps, ps), FourEnergy(rr, i0, 4 * k1 + 1, 4 * k2 + 2, 4 * k3 + 3),
         2 * i0, 8 * k1 + 2, 8 * k2 + 4, 8 * k3 + 6, shif)
  }

  /** The eight positions of the fourth pulse, if the three before it are worth it. */
  function Octet(dn: seq<Word16>, rr: seq<Word16>, seuil2: Word16, i0: int, k1: int, k2: int): seq<Best>
    requires |dn| == LCODE + 4 && |rr| == Im.DIM * Im.DIM && 0 <= i0 < 30 && 0 <= k1 < 8 && 0 <= k2 < 8
  {
    if OverSecond(dn, seuil2, i0, k1, k2) then Fourths(dn, rr, i0, k1, k2, 8) else []
  }

  function Fourths(dn: seq<Word16>, rr: seq<Word16>, i0: int, k1: int, k2: int, n: nat): (list: seq<Best>)
    requires |dn| == LCODE + 4 && |rr| == Im.DIM * Im.DIM && 0 <= i0 < 30 && 0 <= k1 < 8 && 0 <= k2 < 8 && n <= 8
    ensures |list| == n
  {
    seq(n, k requires 0 <= k < n => Candidate(dn, rr, i0, k1, k2, k))
  }

  /** The combinations worth trying with the first n positions of the third, second and first pulse, in order. */
  function Thirds(dn: seq<Word16>, rr: seq<Word16>, seuil2: Word16, i0: int, k1: int, n: nat): seq<Best>
    requires |dn| == LCODE + 4 && |rr| == Im.DIM * Im.DIM && 0 <= i0 < 30 && 0 <= k1 < 8 && n <= 8
  {
    if n == 0 then [] else Thirds(dn, rr, seuil2, i0, k1, n - 1) + Octet(dn, rr, seuil2, i0, k1, n - 1)
  }

  function Group(dn: seq<Word16>, rr: seq<Word16>, seuil1: Word16, seuil2: Word16, i0: int, k1: int): seq<Best>
    requires |dn| == LCODE + 4 && |rr| == Im.DIM * Im.DIM && 0 <= i0 < 30 && 0 <= k1 < 8
  {
    if OverFirst(dn, seuil1, i0, k1) then Thirds(dn, rr, seuil2, i0, k1, 8) else []
  }

  function Seconds(dn: seq<Word16>, rr: seq<Word16>, seuil1: Word16, seuil2: Word16, i0: int, n: nat): seq<Best>
    requires |dn| == LCODE + 4 && |rr| == Im.DIM * Im.DIM && 0 <= i0 < 30 && n <= 8
  {
    if n == 0 then [] else Seconds(dn, rr, seuil1, seuil2, i0, n - 1) + Group(dn, rr, seuil1, seuil2, i0, n - 1)
  }

  function Firsts(dn: seq<Word16>, rr: seq<Word16>, seuil1: Word16, seuil2: Word16, n: nat): seq<Best>
    requires |dn| == LCODE + 4 && |rr| == Im.DIM * Im.DIM && n <= 30
  {
    if n == 0 then [] else Firsts(dn, rr, seuil1, seuil2, n - 1) + Seconds(dn, rr, seuil1, seuil2, n - 1, 8)
  }

  // One step through each of the lists, which only grow.

  lemma NextFourth(dn: seq<Word16>, rr: seq<Word16>, i0: int, k1: int, k2: int, n: nat)
    requires |dn| == LCODE + 4 && |rr| == Im.DIM * Im.DIM && 0 <= i0 < 30 && 0 <= k1 < 8 && 0 <= k2 < 8 && n < 8
    ensures Fourths(dn, rr, i0, k1, k2, n + 1) == Fourths(dn, rr, i0, k1, k2, n) + [Candidate(dn, rr, i0, k1, k2, n)]
    ensures Fourths(dn, rr, i0, k1, k2, 0) == []
  {
    hide Candidate;
  }

  lemma NextThird(dn: seq<Word16>, rr: seq<Word16>, seuil2: Word16, i0: int, k1: int, n: nat)
    requires |dn| == LCODE + 4 && |rr| == Im.DIM * Im.DIM && 0 <= i0 < 30 && 0 <= k1 < 8 && n < 8
    ensures Thirds(dn, rr, seuil2, i0, k1, n + 1)
            == Thirds(dn, rr, seuil2, i0, k1, n)
               + if OverSecond(dn, seuil2, i0, k1, n) then Fourths(dn, rr, i0, k1, n, 8) else []
    ensures Thirds(dn, rr, seuil2, i0, k1, 0) == []
  {
    hide Candidate, OverSecond, Fourths;
  }

  lemma NextSecond(dn: seq<Word16>, rr: seq<Word16>, seuil1: Word16, seuil2: Word16, i0: int, n: nat)
    requires |dn| == LCODE + 4 && |rr| == Im.DIM * Im.DIM && 0 <= i0 < 30 && n < 8
    ensures Seconds(dn, rr, seuil1, seuil2, i0, n + 1)
            == Seconds(dn, rr, seuil1, seuil2, i0, n)
               + if OverFirst(dn, seuil1, i0, n) then Thirds(dn, rr, seuil2, i0, n, 8) else []
    ensures Seconds(dn, rr, seuil1, seuil2, i0, 0) == []
  {
    hide Thirds, OverFirst;
  }

  lemma NextFirst(dn: seq<Word16>, rr: seq<Word16>, seuil1: Word16, seuil2: Word16, n: nat)
    requires |dn| == LCODE + 4 && |rr| == Im.DIM * Im.DIM && n < 30
    ensures Firsts(dn, rr, seuil1, seuil2, n + 1)
            == Firsts(dn, rr, seuil1, seuil2, n) + Seconds(dn, rr, seuil1, seuil2, n, 8)
    ensures Firsts(dn, rr, seuil1, seuil2, 0) == []
  {
    hide Seconds;
  }

  lemma {:induction false} ThirdsGrow(dn: seq<Word16>, rr: seq<Word16>, seuil2: Word16, i0: int, k1: int,
                                      m: nat, n: nat)
    requires |dn| == LCODE + 4 && |rr| == Im.DIM * Im.DIM && 0 <= i0 < 30 && 0 <= k1 < 8 && m <= n <= 8
    ensures Thirds(dn, rr, seuil2, i0, k1, m) <= Thirds(dn, rr, seuil2, i0, k1, n)
  {
    hide Thirds, Octet, OverSecond, Fourths;
    if m < n {
      ThirdsGrow(dn, rr, seuil2, i0, k1, m, n - 1);
      NextThird(dn, rr, seuil2, i0, k1, n - 1);
    }
  }

  lemma {:induction false} SecondsGrow(dn: seq<Word16>, rr: seq<Word16>, seuil1: Word16, seuil2: Word16, i0: int,
                                       m: nat, n: nat)
    requires |dn| == LCODE + 4 && |rr| == Im.DIM * Im.DIM && 0 <= i0 < 30 && m <= n <= 8
    ensures Seconds(dn, rr, seuil1, seuil2, i0, m) <= Seconds(dn, rr, seuil1, seuil2, i0, n)
  {
    hide Seconds, Group, OverFirst, Thirds;
    if m < n {
      SecondsGrow(dn, rr, seuil1, seuil2, i0, m, n - 1);
      NextSecond(dn, rr, seuil1, seuil2, i0, n - 1);
    }
  }

  lemma {:induction false} FirstsGrow(dn: seq<Word16>, rr: seq<Word16>, seuil1: Word16, seuil2: Word16, m: nat, n: nat)
    requires |dn| == LCODE + 4 && |rr| == Im.DIM * Im.DIM && m <= n <= 30
    ensures Firsts(dn, rr, seuil1, seuil2, m) <= Firsts(dn, rr, seuil1, seuil2, n)
  {
    hide Firsts, Seconds;
    if m < n {
      FirstsGrow(dn, rr, seuil1, seuil2, m, n - 1);
      NextFirst(dn, rr, seuil1, seuil2, n - 1);
    }
  }

  /** What is a beginning of a shorter list is one of a longer list. */
  lemma PrefixOfMore(a: seq<Best>, head: seq<Best>, b: seq<Best>, all: seq<Best>)
    requires a <= head + b && b <= all
    ensures a <= head + all
  {
    assert (head + all)[..|head + b|] == head + b;
  }

  // ---- the list holds exactly the eligible combinations ----

  /** c is the candidate at its own positions. */
  predicate Own(dn: seq<Word16>, rr: seq<Word16>, c: Best)
    requires |dn| == LCODE + 4 && |rr| == Im.DIM * Im.DIM
  {
    && 0 <= c.ip0 / 2 < 30 && 0 <= c.ip1 / 8 < 8 && 0 <= c.ip2 / 8 < 8 && 0 <= c.ip3 / 8 < 8
    && c == Candidate(dn, rr, c.ip0 / 2, c.ip1 / 8, c.ip2 / 8, c.ip3 / 8)
  }

  /** On the grid, over both thresholds, in the better shift, and measured. */
  predicate Eligible(dn: seq<Word16>, rr: seq<Word16>, seuil1: Word16, seuil2: Word16, c: Best)
    requires |dn| == LCODE + 4 && |rr| == Im.DIM * Im.DIM
  {
    && Own(dn, rr, c)
    && OverFirst(dn, seuil1, c.ip0 / 2, c.ip1 / 8) && OverSecond(dn, seuil2, c.ip0 / 2, c.ip1 / 8, c.ip2 / 8)
  }

  lemma OwnCandidate(dn: seq<Word16>, rr: seq<Word16>, i0: int, k1: int, k2: int, k3: int)
    requires |dn| == LCODE + 4 && |rr| == Im.DIM * Im.DIM
    requires 0 <= i0 < 30 && 0 <= k1 < 8 && 0 <= k2 < 8 && 0 <= k3 < 8
    ensures var c := Candidate(dn, rr, i0, k1, k2, k3);
            c.ip0 / 2 == i0 && c.ip1 / 8 == k1 && c.ip2 / 8 == k2 && c.ip3 / 8 == k3 && Own(dn, rr, c)
  {
    hide FourthScore, ThreeScore, FourEnergy, Mult, ShiftFor;
  }

  lemma {:induction false} InFourths(dn: seq<Word16>, rr: seq<Word16>, i0: int, k1: int, k2: int, n: nat, c: Best)
    requires |dn| == LCODE + 4 && |rr| == Im.DIM * Im.DIM && 0 <= i0 < 30 && 0 <= k1 < 8 && 0 <= k2 < 8 && n <= 8
    ensures c in Fourths(dn, rr, i0, k1, k2, n)
            <==> Own(dn, rr, c) && c.ip0 / 2 == i0 && c.ip1 / 8 == k1 && c.ip2 / 8 == k2 && c.ip3 / 8 < n
  {
    hide Candidate, Fourths;
    if n == 0 {
      NextFourth(dn, rr, i0, k1, k2, 0);
    } else {
      NextFourth(dn, rr, i0, k1, k2, n - 1);
      InFourths(dn, rr, i0, k1, k2, n - 1, c);
      OwnCandidate(dn, rr, i0, k1, k2, n - 1);
    }
  }

  lemma {:induction false} InThirds(dn: seq<Word16>, rr: seq<Word16>, seuil2: Word16, i0: int, k1: int, n: nat, c: Best)
    requires |dn| == LCODE + 4 && |rr| == Im.DIM * Im.DIM && 0 <= i0 < 30 && 0 <= k1 < 8 && n <= 8
    ensures c in Thirds(dn, rr, seuil2, i0, k1, n)
            <==> Own(dn, rr, c) && c.ip0 / 2 == i0 && c.ip1 / 8 == k1 && c.ip2 / 8 < n
                 && OverSecond(dn, seuil2, i0, k1, c.ip2 / 8)
  {
    hide Candidate, OverSecond, Fourths, Thirds;
    if n == 0 {
      NextThird(dn, rr, seuil2, i0, k1, 0);
    } else {
      NextThird(dn, rr, seuil2, i0, k1, n - 1);
      InThirds(dn, rr, seuil2, i0, k1, n - 1, c);
      InFourths(dn, rr, i0, k1, n - 1, 8, c);
    }
  }

  lemma {:induction false} InSeconds(dn: seq<Word16>, rr: seq<Word16>, seuil1: Word16, seuil2: Word16, i0: int, n: nat,
                                     c: Best)
    requires |dn| == LCODE + 4 && |rr| == Im.DIM * Im.DIM && 0 <= i0 < 30 && n <= 8
    ensures c in Seconds(dn, rr, seuil1, seuil2, i0, n)
            <==> Own(dn, rr, c) && c.ip0 / 2 == i0 && c.ip1 / 8 < n && OverFirst(dn, seuil1, i0, c.ip1 / 8)
                 && OverSecond(dn, seuil2, i0, c.ip1 / 8, c.ip2 / 8)
  {
    hide Candidate, OverFirst, OverSecond, Thirds, Seconds;
    if n == 0 {
      NextSecond(dn, rr, seuil1, seuil2, i0, 0);
    } else {
      NextSecond(dn, rr, seuil1, seuil2, i0, n - 1);
      InSeconds(dn, rr, seuil1, seuil2, i0, n - 1, c);
      InThirds(dn, rr, seuil2, i0, n - 1, 8, c);
    }
  }

  lemma {:induction false} InFirsts(dn: seq<Word16>, rr: seq<Word16>, seuil1: Word16, seuil2: Word16, n: nat, c: Best)
    requires |dn| == LCODE + 4 && |rr| == Im.DIM * Im.DIM && n <= 30
    ensures c in Firsts(dn, rr, seuil1, seuil2, n) <==> Eligible(dn, rr, seuil1, seuil2, c) && c.ip0 / 2 < n
  {
    hide Candidate, OverFirst, OverSecond, Seconds, Firsts;
    if n == 0 {
      NextFirst(dn, rr, seuil1, seuil2, 0);
    } else {
      NextFirst(dn, rr, seuil1, seuil2, n - 1);
      InFirsts(dn, rr, seuil1, seuil2, n - 1, c);
      InSeconds(dn, rr, seuil1, seuil2, n - 1, 8, c);
    }
  }

  /** A search that ran to its end over positive energies returns what no eligible combination beats; it finds nothing
      only if every eligible score is nothing. */
  lemma BestOfAll(dn: seq<Word16>, rr: seq<Word16>, seuil1: Word16, seuil2: Word16, best: Best, tried: seq<Best>)
    requires |dn| == LCODE + 4 && |rr| == Im.DIM * Im.DIM
    requires Ranked(dn, rr, best, tried) && tried == Firsts(dn, rr, seuil1, seuil2, 30)
    requires forall c :: Eligible(dn, rr, seuil1, seuil2, c) ==> c.alpha > 0
    ensures best == START || Eligible(dn, rr, seuil1, seuil2, best)
    ensures forall c :: Eligible(dn, rr, seuil1, seuil2, c) ==> !Beats(c, best)
    ensures best == START ==> forall c :: Eligible(dn, rr, seuil1, seuil2, c) ==> c.psc <= 0
  {
    hide Eligible, Firsts, Best.Measured;
    InFirsts(dn, rr, seuil1, seuil2, 30, best);
    forall i | 0 <= i < |tried|
      ensures tried[i].alpha > 0
    {
      InFirsts(dn, rr, seuil1, seuil2, 30, tried[i]);
    }
    assert AllPositive(tried) && Unbeaten(best, tried);
    forall c | Eligible(dn, rr, seuil1, seuil2, c)
      ensures !Beats(c, best)
    {
      EligibleIsEarly(dn, rr, seuil1, seuil2, c);
      InFirsts(dn, rr, seuil1, seuil2, 30, c);
      var i :| 0 <= i < |tried| && tried[i] == c;
    }
  }

  lemma EligibleIsEarly(dn: seq<Word16>, rr: seq<Word16>, seuil1: Word16, seuil2: Word16, c: Best)
    requires |dn| == LCODE + 4 && |rr| == Im.DIM * Im.DIM && Eligible(dn, rr, seuil1, seuil2, c)
    ensures c.ip0 / 2 < 30
  {
    hide OverFirst, OverSecond, Candidate;
  }

  lemma CandidateIsMeasured(dn: seq<Word16>, rr: seq<Word16>, i0: int, k1: int, k2: int, k3: int)
    requires |dn| == LCODE + 4 && |rr| == Im.DIM * Im.DIM
    requires 0 <= i0 < 30 && 0 <= k1 < 8 && 0 <= k2 < 8 && 0 <= k3 < 8
    ensures Candidate(dn, rr, i0, k1, k2, k3).Measured(dn, rr)
  {
    hide FirstScore, ThirdScore, FourthScore, Mult, FourEnergy, ShiftFor;
    GridPositions(i0, k1, k2, k3, ShiftFor(dn, i0, k1, k2));
  }

  lemma GridPositions(i0: int, k1: int, k2: int, k3: int, shif: Word16)
    requires 0 <= i0 < 30 && 0 <= k1 < 8 && 0 <= k2 < 8 && 0 <= k3 < 8 && 0 <= shif <= 1
    ensures Pulses(2 * i0, 8 * k1 + 2, 8 * k2 + 4, 8 * k3 + 6, shif, 0).Legal()
    ensures (8 * k1 + 2) / 2 == 4 * k1 + 1 && (8 * k2 + 4) / 2 == 4 * k2 + 2 && (8 * k3 + 6) / 2 == 4 * k3 + 3
  {
  }

  // ---- the loops ----

  /** The innermost loop: the eight positions of the fourth pulse, each of them tried. */
  method TryFourth(dn: seq<Word16>, rr: seq<Word16>, ii0: int, ii1: int, ii2: int, ps2: Word16, alp2: Word16,
                   shif: Word16, start: Best, ghost k1: int, ghost k2: int, ghost before: seq<Best>)
    returns (best: Best, ghost tried: seq<Best>)
    requires |dn| == LCODE + 4 && |rr| == Im.DIM * Im.DIM && 0 <= ii0 < 30 && 0 <= k1 < 8 && 0 <= k2 < 8
    requires ii1 == 4 * k1 + 1 && ii2 == 4 * k2 + 2
    requires shif == ShiftFor(dn, ii0, k1, k2) && ps2 == ThreeScore(dn, ii0, k1, k2, shif)
    requires alp2 == ThreeEnergy(rr, ii0, ii1, ii2)
    requires Ranked(dn, rr, start, before)
    ensures Ranked(dn, rr, best, tried)
    ensures tried == before + Fourths(dn, rr, ii0, k1, k2, 8)
  {
    hide ThreeScore, ShiftFor, FourthScore, Mult, Times, Im.Cell, ThreeEnergy, FourEnergy, Ranked, Fourths;
    best, tried := start, before;
    var ii3 := 3;
    ghost var k3 := 0;
    NextFourth(dn, rr, ii0, k1, k2, 0);
    while ii3 < 32
      invariant 0 <= k3 <= 8 && ii3 == 4 * k3 + 3
      invariant tried == before + Fourths(dn, rr, ii0, k1, k2, k3)
      invariant Ranked(dn, rr, best, tried)
    {
      var ps3 := FourthScore(ps2, dn[2 * ii3 + shif]);
      var alp3 := EnergyOfFour(rr, ii0, ii1, ii2, ii3, alp2);
      var ps3c := Mult(ps3, ps3);
      var better := Improves(ps3c, alp3, best.psc, best.alpha);
      ghost var c := Candidate(dn, rr, ii0, k1, k2, k3);
      CandidateIsMeasured(dn, rr, ii0, k1, k2, k3);
      OneMoreTried(dn, rr, best, tried, c);
      NextFourth(dn, rr, ii0, k1, k2, k3);
      tried := tried + [c];
      if better {
        best := Best(ps3, ps3c, alp3, 2 * ii0, 2 * ii1, 2 * ii2, 2 * ii3, shif);
      }
      ii3 := ii3 + 4;
      k3 := k3 + 1;
    }
  }

  /** The third pulse's loop; false when the time budget ran out. `passes` counts the innermost loops, `pairs` the
      pairs of first and second pulse that are done with. */
  method TryThird(dn: seq<Word16>, rr: seq<Word16>, ii0: int, ii1: int, ps1: Word16, ps1a: Word16, alp1: Word16,
                  seuil2: Word16, start: Best, time0: Word16, ghost k1: int, ghost passes0: nat, ghost pairs: nat,
                  ghost before: seq<Best>)
    returns (best: Best, time: Word16, more: bool, ghost passes: nat, ghost tried: seq<Best>)
    requires |dn| == LCODE + 4 && |rr| == Im.DIM * Im.DIM && 0 <= ii0 < 30 && 0 <= k1 < 8 && ii1 == 4 * k1 + 1
    requires ps1 == TwoScore(dn, ii0, k1, 0) && ps1a == TwoScore(dn, ii0, k1, 1)
    requires alp1 == TwoEnergy(rr, ii0, ii1)
    requires Ranked(dn, rr, start, before) && |before| == 8 * passes0
    requires 0 < time0 && 3 * passes0 + 4 * pairs + time0 == MAX_TIME
    ensures Ranked(dn, rr, best, tried) && |tried| == 8 * passes
    ensures var all := before + Thirds(dn, rr, seuil2, ii0, k1, 8); tried <= all && (more ==> tried == all)
    ensures -3 < time && 3 * passes + 4 * pairs + time == MAX_TIME
    ensures more <==> time > 0
  {
    hide TwoScore, ThreeScore, Add, Times, Im.Cell, Magnitude, Ranked, TwoEnergy, ThreeEnergy, Thirds, Fourths;
    best, time, more, passes, tried := start, time0, true, passes0, before;
    var ii2 := 2;
    ghost var k2 := 0;
    NextThird(dn, rr, seuil2, ii0, k1, 0);
    while ii2 < 31
      invariant 0 <= k2 <= 8 && ii2 == 4 * k2 + 2
      invariant Ranked(dn, rr, best, tried) && |tried| == 8 * passes
      invariant tried == before + Thirds(dn, rr, seuil2, ii0, k1, k2)
      invariant 0 < time && 3 * passes + 4 * pairs + time == MAX_TIME
    {
      var ps2 := Add(ps1, dn[2 * ii2]);
      var ps2a := Add(ps1a, dn[2 * ii2 + 1]);
      ThreeScoreIs(dn, ii0, k1, k2);
      var alp2 := EnergyOfThree(rr, ii0, ii1, ii2, alp1);
      var above := Exceeds(ps2, ps2a, seuil2);
      NextThird(dn, rr, seuil2, ii0, k1, k2);
      if above {
        best, tried := TryHalf(dn, rr, ii0, ii1, ii2, ps2, ps2a, alp2, best, k1, k2, tried);
        passes := passes + 1;
        time := Sub(time, 3);
        if time <= 0 {
          more := false;
          ThirdsGrow(dn, rr, seuil2, ii0, k1, k2 + 1, 8);
          PrefixOfMore(tried, before, Thirds(dn, rr, seuil2, ii0, k1, k2 + 1), Thirds(dn, rr, seuil2, ii0, k1, 8));
          return;
        }
      }
      ii2 := ii2 + 4;
      k2 := k2 + 1;
    }
  }

  lemma ThreeScoreIs(dn: seq<Word16>, i0: int, k1: int, k2: int)
    requires |dn| == LCODE + 4 && 0 <= i0 < 30 && 0 <= k1 < 8 && 0 <= k2 < 8
    ensures ThreeScore(dn, i0, k1, k2, 0) == Add(TwoScore(dn, i0, k1, 0), dn[8 * k2 + 4])
    ensures ThreeScore(dn, i0, k1, k2, 1) == Add(TwoScore(dn, i0, k1, 1), dn[8 * k2 + 5])
  {
    hide FirstScore, Add, Sub;
  }

  /** Chooses the shift by the larger partial score, then runs the innermost loop. */
  method TryHalf(dn: seq<Word16>, rr: seq<Word16>, ii0: int, ii1: int, ii2: int, ps2: Word16, ps2a: Word16,
                 alp2: Word16, start: Best, ghost k1: int, ghost k2: int, ghost before: seq<Best>)
    returns (best: Best, ghost tried: seq<Best>)
    requires |dn| == LCODE + 4 && |rr| == Im.DIM * Im.DIM && 0 <= ii0 < 30 && 0 <= k1 < 8 && 0 <= k2 < 8
    requires ii1 == 4 * k1 + 1 && ii2 == 4 * k2 + 2
    requires ps2 == ThreeScore(dn, ii0, k1, k2, 0) && ps2a == ThreeScore(dn, ii0, k1, k2, 1)
    requires alp2 == ThreeEnergy(rr, ii0, ii1, ii2)
    requires Ranked(dn, rr, start, before)
    ensures Ranked(dn, rr, best, tried)
    ensures tried == before + Fourths(dn, rr, ii0, k1, k2, 8)
  {
    hide ThreeScore, ThreeEnergy, Ranked, Fourths, AbsS, Sub;
    if Sub(AbsS(ps2a), AbsS(ps2)) > 0 {
      best, tried := TryFourth(dn, rr, ii0, ii1, ii2, ps2a, alp2, 1, start, k1, k2, before);
    } else {
      best, tried := TryFourth(dn, rr, ii0, ii1, ii2, ps2, alp2, 0, start, k1, k2, before);
    }
  }

  /** The outcome of a search: what was tried is the list of eligible combinations, or a beginning of it once the time
      is spent, at three for each innermost loop and four for each pair. */
  ghost predicate Searched(dn: seq<Word16>, rr: seq<Word16>, seuil1: Word16, seuil2: Word16, best: Best,
                           tried: seq<Best>, passes: nat, pairs: nat)
    requires |dn| == LCODE + 4 && |rr| == Im.DIM * Im.DIM
  {
    && Ranked(dn, rr, best, tried) && |tried| == 8 * passes
    && var all := Firsts(dn, rr, seuil1, seuil2, 30);
       tried <= all && (tried == all || 3 * passes + 4 * pairs >= MAX_TIME)
  }

  /** The two outer loops. */
  method Search(dn: seq<Word16>, rr: seq<Word16>, seuil1: Word16, seuil2: Word16)
    returns (best: Best, ghost tried: seq<Best>, ghost passes: nat, ghost pairs: nat)
    requires |dn| == LCODE + 4 && |rr| == Im.DIM * Im.DIM
    ensures Searched(dn, rr, seuil1, seuil2, best, tried, passes, pairs)
    ensures best.Positions() && passes <= 117 && WinnerRight(dn, rr, best)
  {
    hide Ranked, Firsts, Seconds, WinnerRight;
    best, tried := START, [];
    NothingTried(dn, rr);
    var time: Word16 := MAX_TIME;
    passes, pairs := 0, 0;
    NextFirst(dn, rr, seuil1, seuil2, 0);
    for ii0 := 0 to 30
      invariant Ranked(dn, rr, best, tried) && |tried| == 8 * passes
      invariant tried == Firsts(dn, rr, seuil1, seuil2, ii0)
      invariant 0 < time && 3 * passes + 4 * pairs + time == MAX_TIME
    {
      var more;
      NextFirst(dn, rr, seuil1, seuil2, ii0);
      best, time, more, passes, pairs, tried :=
        TrySecond(dn, rr, ii0, seuil1, seuil2, best, time, passes, pairs, tried);
      if !more {
        FirstsGrow(dn, rr, seuil1, seuil2, ii0 + 1, 30);
        PrefixOfMore(tried, [], Firsts(dn, rr, seuil1, seuil2, ii0 + 1), Firsts(dn, rr, seuil1, seuil2, 30));
        RankedIsLegal(dn, rr, best, tried);
        return;
      }
    }
    RankedIsLegal(dn, rr, best, tried);
  }

  /** The second pulse's loop. */
  method TrySecond(dn: seq<Word16>, rr: seq<Word16>, ii0: int, seuil1: Word16, seuil2: Word16, start: Best,
                   time0: Word16, ghost passes0: nat, ghost pairs0: nat, ghost before: seq<Best>)
    returns (best: Best, time: Word16, more: bool, ghost passes: nat, ghost pairs: nat, ghost tried: seq<Best>)
    requires |dn| == LCODE + 4 && |rr| == Im.DIM * Im.DIM && 0 <= ii0 < 30
    requires Ranked(dn, rr, start, before) && |before| == 8 * passes0
    requires 0 < time0 && 3 * passes0 + 4 * pairs0 + time0 == MAX_TIME
    ensures Ranked(dn, rr, best, tried) && |tried| == 8 * passes
    ensures var all := before + Seconds(dn, rr, seuil1, seuil2, ii0, 8); tried <= all && (more ==> tried == all)
    ensures 3 * passes + 4 * pairs + time == MAX_TIME && passes <= 117
    ensures more <==> time > 0
  {
    hide FirstScore, Times, Im.Cell, Magnitude, Ranked, TwoEnergy, Seconds, Thirds;
    best, time, more, passes, pairs, tried := start, time0, true, passes0, pairs0, before;
    var ps0, ps0a := FirstScore(dn[2 * ii0]), FirstScore(dn[2 * ii0 + 1]);
    var ii1 := 1;
    ghost var k1 := 0;
    NextSecond(dn, rr, seuil1, seuil2, ii0, 0);
    while ii1 < 30
      invariant 0 <= k1 <= 8 && ii1 == 4 * k1 + 1
      invariant Ranked(dn, rr, best, tried) && |tried| == 8 * passes && more
      invariant tried == before + Seconds(dn, rr, seuil1, seuil2, ii0, k1)
      invariant 0 < time && 3 * passes + 4 * pairs + time == MAX_TIME
    {
      var ps1 := Sub(ps0, dn[2 * ii1]);
      var ps1a := Sub(ps0a, dn[2 * ii1 + 1]);
      var alp1 := EnergyOfTwo(rr, ii0, ii1);
      var above := Exceeds(ps1, ps1a, seuil1);
      NextSecond(dn, rr, seuil1, seuil2, ii0, k1);
      if above {
        best, time, more, passes, tried :=
          TryThird(dn, rr, ii0, ii1, ps1, ps1a, alp1, seuil2, best, time, k1, passes, pairs, tried);
        assert tried <= before + Seconds(dn, rr, seuil1, seuil2, ii0, k1 + 1);
        SecondsGrow(dn, rr, seuil1, seuil2, ii0, k1 + 1, 8);
        PrefixOfMore(tried, before, Seconds(dn, rr, seuil1, seuil2, ii0, k1 + 1),
                     Seconds(dn, rr, seuil1, seuil2, ii0, 8));
        if !more {
          return;
        }
        time := Sub(time, 4);
        pairs := pairs + 1;
        if time <= 0 {
          more := false;
          return;
        }
      }
      ii1 := ii1 + 4;
      k1 := k1 + 1;
    }
  }

  /** The same with the thresholds of the target. */
  ghost predicate SearchedWell(dn: seq<Word16>, rr: seq<Word16>, best: Best, tried: seq<Best>, passes: nat, pairs: nat)
    requires |dn| == LCODE + 4 && |rr| == Im.DIM * Im.DIM
  {
    Searched(dn, rr, FirstThreshold(dn), SecondThreshold(dn), best, tried, passes, pairs)
  }

  lemma EitherSign(best: Best, sign: Word16)
    requires best.Positions() && 0 <= sign <= 1
    ensures var p := Pulses(best.ip0, best.ip1, best.ip2, best.ip3, best.shift, sign);
            p.Legal() && p.InReach()
  {
    LegalInReach(Pulses(best.ip0, best.ip1, best.ip2, best.ip3, best.shift, sign));
  }

  /** `D4i60_16`: clears the four guard samples, searches, and returns the code in both filtered forms. */
  method D4i60(dn: array<Word16>, f: array<Word16>, h: array<Word16>, rr: seq<Word16>,
               code: array<Word16>, y: array<Word16>)
    returns (index: Word16, pulses: Pulses,
             ghost best: Best, ghost tried: seq<Best>, ghost passes: nat, ghost pairs: nat)
    requires dn.Length == LCODE + 4 && |rr| == Im.DIM * Im.DIM
    requires f.Length == h.Length == LEAD + LCODE && code.Length >= LCODE && y.Length >= LCODE
    requires dn != f && dn != h && dn != code && dn != y && f != code && f != y && h != code && h != y && code != y
    modifies dn, code, y
    ensures dn[..LCODE] == old(dn[..LCODE]) && forall i :: LCODE <= i < LCODE + 4 ==> dn[i] == 0
    ensures pulses.Legal() && pulses.InReach() && index == CodeIndex(pulses) && passes <= 117
    ensures SearchedWell(dn[..], rr, best, tried, passes, pairs) && WinnerRight(dn[..], rr, best)
    ensures pulses == Pulses(best.ip0, best.ip1, best.ip2, best.ip3, best.shift, if best.ps < 0 then 1 else 0)
    ensures code[..LCODE] == CodeVector(f[..], pulses) && y[..LCODE] == CodeVector(h[..], pulses)
    ensures CodeRight(code[..LCODE], f[..], pulses) && CodeRight(y[..LCODE], h[..], pulses)
  {
    hide CodeRight, WinnerRight, Searched, FirstThreshold, SecondThreshold, CodeVector, CodeIndex, Best.Positions, Pulses.Legal, Pulses.InReach;
    ghost var target := dn[..LCODE];
    dn[60], dn[61], dn[62], dn[63] := 0, 0, 0, 0;
    assert dn[..LCODE] == target;
    var seuil1, seuil2 := Thresholds(dn);
    var winner;
    winner, tried, passes, pairs := Search(dn[..], rr, seuil1, seuil2);
    best := winner;
    ghost var finalDn := dn[..];
    pulses := Pulses(winner.ip0, winner.ip1, winner.ip2, winner.ip3, winner.shift, if winner.ps >= 0 then 0 else 1);
    EitherSign(winner, pulses.sign);
    Convolve(f, pulses, code);
    Convolve(h, pulses, y);
    assert dn[..] == finalDn;
    index := CodeIndex(pulses);
  }
}
