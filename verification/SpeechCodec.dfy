/** What a coded frame means: the decisions it carries, and the reconstruction both ends perform from them. */
module SpeechCodec {
  import opened FixedPoint
  import opened Synthesis
  import opened PitchLag
  import Lsp = LspQuantizer
  import Ltp = LongTermPrediction
  import Cs = CodeSearch
  import Gains
  import opened FrameBits

  const L_FRAME := 240
  const HISTORY := 158

  function Factors3(): Factors { FactorsOf(24576) }

  function Factors4(): Factors { FactorsOf(27853) }

  /** The constant tables; only their sizes matter. */
  datatype Tables = Tables(books: Lsp.Books, taps: Ltp.Taps, energies: Gains.EnergyBook) {
    predicate Valid() {
      books.Valid() && taps.Valid()
    }
  }

  /** The tables of the standard, for any codebooks. */
  function StandardTables(books: Lsp.Books, energies: Gains.EnergyBook): (t: Tables)
    requires books.Valid()
    ensures t.Valid()
  {
    Tables(books, Ltp.TetraTaps(), energies)
  }

  // ---- decisions and parameters ----

  datatype SubDecision = SubDecision(lag: Word16, frac: Word16, pulses: Cs.Pulses, gain: Word16)

  datatype FrameDecision = FrameDecision(ind: Lsp.Indices, subs: seq<SubDecision>)

  predicate LegalPitch(lag: Word16, frac: Word16, k: nat, lead: Word16) {
    if k == 0 then LegalFirst(lag, frac) else LegalNext(lag, frac, NextWindow(lead))
  }

  lemma PitchReaches(lag: Word16, frac: Word16, k: nat, lead: Word16)
    requires LegalPitch(lag, frac, k, lead)
    ensures Ltp.Reachable(HISTORY + L_SUBFR * k, lag, frac)
  {
    if k > 0 {
      NextWindowFits(lead);
    }
  }

  /** What the encoder can decide in subframe k of a frame whose first lag is `lead`. */
  predicate LegalSub(d: SubDecision, k: nat, lead: Word16) {
    && LegalPitch(d.lag, d.frac, k, lead)
    && d.pulses.Legal()
    && 0 <= d.gain < Gains.NB_QUA_ENER
  }

  predicate Legal(d: FrameDecision) {
    && d.ind.Valid() && |d.subs| == 4
    && forall k :: 0 <= k < 4 ==> LegalSub(d.subs[k], k, d.subs[0].lag)
  }

  function PitchIndex(lag: Word16, frac: Word16, k: nat, lead: Word16): Word16 {
    if k == 0 then FirstIndex(lag, frac) else NextIndex(lag, frac, NextWindow(lead).min)
  }

  /** The search window of subframe k: five lags in the first, ten around the lead in the others. */
  predicate WindowOf(w: Window, k: nat, lead: Word16) {
    if k == 0 then PIT_MIN <= w.min && w.max == w.min + 4 && w.max <= PIT_MAX
    else w == NextWindow(lead) && NextWindowRange(w)
  }

  /** The five parameters of a subframe. */
  function SubParams(d: SubDecision, k: nat, lead: Word16): (p: seq<Word16>)
    requires d.pulses.Legal()
    ensures |p| == 5
  {
    [PitchIndex(d.lag, d.frac, k, lead), Cs.CodeIndex(d.pulses), d.pulses.sign, d.pulses.shift, d.gain]
  }

  lemma LegalPulses(d: FrameDecision)
    requires Legal(d)
    ensures forall k :: 0 <= k < 4 ==> d.subs[k].pulses.Legal()
  {
    forall k | 0 <= k < 4
      ensures d.subs[k].pulses.Legal()
    {
      assert LegalSub(d.subs[k], k, d.subs[0].lag);
    }
  }

  function Params(d: FrameDecision): (prm: seq<Word16>)
    requires Legal(d)
    ensures |prm| == PRM_NO
  {
    LegalPulses(d);
    var lead := d.subs[0].lag;
    [d.ind.i1, d.ind.i2, d.ind.i3]
    + SubParams(d.subs[0], 0, lead) + SubParams(d.subs[1], 1, lead)
    + SubParams(d.subs[2], 2, lead) + SubParams(d.subs[3], 3, lead)
  }

  /** The parameters of the first k subframes. */
  function SubsParams(subs: seq<SubDecision>, k: nat, lead: Word16): (p: seq<Word16>)
    requires k <= |subs| && forall i :: 0 <= i < k ==> subs[i].pulses.Legal()
    ensures |p| == 5 * k
  {
    if k == 0 then [] else SubsParams(subs, k - 1, lead) + SubParams(subs[k - 1], k - 1, lead)
  }

  /** The parameters come in the order the subframes produce them. */
  lemma ParamsInOrder(d: FrameDecision)
    requires Legal(d)
    ensures forall i :: 0 <= i < 4 ==> d.subs[i].pulses.Legal()
    ensures Params(d) == [d.ind.i1, d.ind.i2, d.ind.i3] + SubsParams(d.subs, 4, d.subs[0].lag)
  {
    hide SubParams, LegalSub, Cs.Pulses.Legal;
    LegalPulses(d);
    var subs, lead := d.subs, d.subs[0].lag;
    assert SubsParams(subs, 1, lead) == SubParams(subs[0], 0, lead);
    assert SubsParams(subs, 2, lead) == SubsParams(subs, 1, lead) + SubParams(subs[1], 1, lead);
    assert SubsParams(subs, 3, lead) == SubsParams(subs, 2, lead) + SubParams(subs[2], 2, lead);
    assert SubsParams(subs, 4, lead) == SubsParams(subs, 3, lead) + SubParams(subs[3], 3, lead);
  }

  lemma {:induction false} SubsParamsAppend(subs: seq<SubDecision>, d: SubDecision, k: nat, lead: Word16)
    requires k <= |subs| && forall i :: 0 <= i < k ==> subs[i].pulses.Legal()
    ensures forall i :: 0 <= i < k ==> (subs + [d])[i].pulses.Legal()
    ensures SubsParams(subs + [d], k, lead) == SubsParams(subs, k, lead)
  {
    hide SubParams, Cs.Pulses.Legal;
    if k > 0 {
      SubsParamsAppend(subs, d, k - 1, lead);
    }
  }

  /** The first subframe sets the lead; it does not depend on it. */
  lemma LeadIrrelevant(d: SubDecision, a: Word16, b: Word16)
    requires LegalSub(d, 0, a)
    ensures LegalSub(d, 0, b) && SubParams(d, 0, a) == SubParams(d, 0, b)
  {
    hide FirstIndex, LegalFirst, Cs.CodeIndex, Cs.Pulses.Legal;
  }

  /** Parameter bounds, as the field widths impose them. */
  predicate SubInRange(p: seq<Word16>, k: nat) {
    && |p| == 5 && 0 <= p[0] < (if k == 0 then 256 else 32) && 0 <= p[1] < 0x4000
    && 0 <= p[2] <= 1 && 0 <= p[3] <= 1 && 0 <= p[4] < 64
  }

  predicate ParamsInRange(prm: seq<Word16>) {
    && |prm| == PRM_NO
    && 0 <= prm[0] < 256 && 0 <= prm[1] < 512 && 0 <= prm[2] < 512
    && SubInRange(prm[3..8], 0) && SubInRange(prm[8..13], 1)
    && SubInRange(prm[13..18], 2) && SubInRange(prm[18..23], 3)
  }

  function DecodedSub(p: seq<Word16>, k: nat, lead: Word16): SubDecision
    requires SubInRange(p, k)
  {
    var (lag, frac) := if k == 0 then DecodedFirst(p[0]) else DecodedNext(p[0], NextWindow(lead).min);
    SubDecision(lag, frac, Cs.DecodedPulses(p[1], p[2], p[3]), p[4])
  }

  /** The decisions a decoder reads out of a frame. */
  function Decoded(prm: seq<Word16>): FrameDecision
    requires ParamsInRange(prm)
  {
    var lead := DecodedFirst(prm[3]).0;
    FrameDecision(Lsp.Indices(prm[0], prm[1], prm[2]),
                  [DecodedSub(prm[3..8], 0, lead), DecodedSub(prm[8..13], 1, lead),
                   DecodedSub(prm[13..18], 2, lead), DecodedSub(prm[18..23], 3, lead)])
  }

  lemma SubRoundTrip(d: SubDecision, k: nat, lead: Word16)
    requires LegalSub(d, k, lead)
    ensures SubInRange(SubParams(d, k, lead), k)
    ensures DecodedSub(SubParams(d, k, lead), k, lead) == d
  {
    hide FirstIndex, NextIndex, DecodedFirst, DecodedNext, Cs.CodeIndex, Cs.DecodedPulses, NextWindow, LegalFirst, LegalNext;
    Cs.PulsesRoundTrip(d.pulses);
    PulseFlags(d.pulses);
    if k == 0 {
      FirstIndexRoundTrip(d.lag, d.frac);
    } else {
      NextWindowFits(lead);
      NextIndexRoundTrip(d.lag, d.frac, NextWindow(lead));
    }
  }

  lemma PulseFlags(p: Cs.Pulses)
    requires p.Legal()
    ensures 0 <= p.sign <= 1 && 0 <= p.shift <= 1
  {
  }

  lemma NextWindowFits(lead: Word16)
    ensures NextWindowRange(NextWindow(lead))
  {
    WindowsWithinRange(lead);
  }

  /** Every decision of the encoder survives the parameters. */
  lemma ParamsRoundTrip(d: FrameDecision)
    requires Legal(d)
    ensures ParamsInRange(Params(d)) && Decoded(Params(d)) == d
  {
    hide SubParams, DecodedSub, LegalSub, DecodedFirst, SubInRange, Cs.Pulses.Legal;
    var prm, lead := Params(d), d.subs[0].lag;
    assert forall k :: 0 <= k < 4 ==> LegalSub(d.subs[k], k, lead);
    LegalPulses(d);
    assert prm[3..8] == SubParams(d.subs[0], 0, lead);
    assert prm[8..13] == SubParams(d.subs[1], 1, lead);
    assert prm[13..18] == SubParams(d.subs[2], 2, lead);
    assert prm[18..23] == SubParams(d.subs[3], 3, lead);
    SubRoundTrip(d.subs[0], 0, lead);
    SubRoundTrip(d.subs[1], 1, lead);
    SubRoundTrip(d.subs[2], 2, lead);
    SubRoundTrip(d.subs[3], 3, lead);
    LeadLag(d.subs[0], lead, prm);
    assert Decoded(prm).subs == d.subs;
  }

  lemma LeadLag(d: SubDecision, lead: Word16, prm: seq<Word16>)
    requires |prm| == PRM_NO && LegalSub(d, 0, lead) && prm[3..8] == SubParams(d, 0, lead)
    ensures DecodedFirst(prm[3]).0 == d.lag
  {
    hide FirstIndex, DecodedFirst, Cs.CodeIndex, LegalFirst;
    assert prm[3] == prm[3..8][0];
    FirstIndexRoundTrip(d.lag, d.frac);
  }

  lemma InRangeAppend(a: seq<nat>, b: seq<nat>, p: seq<Word16>, q: seq<Word16>)
    requires |a| == |p| && |b| == |q|
    ensures InRange(a + b, p + q) <==> InRange(a, p) && InRange(b, q)
  {
    hide Power;
    if InRange(a + b, p + q) {
      forall i | 0 <= i < |p|
        ensures 0 <= p[i] < Power(a[i])
      {
        assert (p + q)[i] == p[i] && (a + b)[i] == a[i];
      }
      forall i | 0 <= i < |q|
        ensures 0 <= q[i] < Power(b[i])
      {
        assert (p + q)[|p| + i] == q[i] && (a + b)[|a| + i] == b[i];
      }
    }
  }

  lemma SubWidths(p: seq<Word16>, k: nat)
    requires |p| == 5
    ensures InRange(FieldWidths(k), p) <==> SubInRange(p, k)
  {
    assert Power(8) == 256 && Power(14) == 0x4000 && Power(1) == 2 && Power(6) == 64 && Power(5) == 32;
    EachInRange(FieldWidths(k), p);
  }

  lemma EachInRange(w: seq<nat>, p: seq<Word16>)
    requires |p| == |w| == 5
    ensures InRange(w, p) <==> 0 <= p[0] < Power(w[0]) && 0 <= p[1] < Power(w[1]) && 0 <= p[2] < Power(w[2])
                               && 0 <= p[3] < Power(w[3]) && 0 <= p[4] < Power(w[4])
  {
    hide Power;
  }

  lemma HeadWidths(p: seq<Word16>)
    requires |p| == 3
    ensures InRange([8, 9, 9], p) <==> 0 <= p[0] < 256 && 0 <= p[1] < 512 && 0 <= p[2] < 512
  {
    assert Power(8) == 256 && Power(9) == 512;
    var w: seq<nat> := [8, 9, 9];
    assert InRange(w, p) <==> 0 <= p[0] < Power(w[0]) && 0 <= p[1] < Power(w[1]) && 0 <= p[2] < Power(w[2]);
  }

  /** Field widths of the five parameters of subframe k. */
  function FieldWidths(k: nat): (w: seq<nat>)
    ensures |w| == 5
  {
    [if k == 0 then 8 else 5, 14, 1, 1, 6]
  }

  lemma FrameLayout()
    ensures BITNO == [8, 9, 9] + (FieldWidths(0) + (FieldWidths(1) + (FieldWidths(2) + FieldWidths(3))))
  {
  }

  /** The parameters that fit their fields are the ones the decoder can take. */
  lemma RangesMatchWidths(prm: seq<Word16>)
    ensures FrameParameters(prm) <==> ParamsInRange(prm)
  {
    hide InRange, SubInRange, FieldWidths;
    FrameWidths();
    FrameLayout();
    if |prm| == PRM_NO {
      var head, p0, p1, p2, p3 := prm[..3], prm[3..8], prm[8..13], prm[13..18], prm[18..23];
      assert prm == head + (p0 + (p1 + (p2 + p3)));
      InRangeAppend([8, 9, 9], FieldWidths(0) + (FieldWidths(1) + (FieldWidths(2) + FieldWidths(3))),
                    head, p0 + (p1 + (p2 + p3)));
      InRangeAppend(FieldWidths(0), FieldWidths(1) + (FieldWidths(2) + FieldWidths(3)), p0, p1 + (p2 + p3));
      InRangeAppend(FieldWidths(1), FieldWidths(2) + FieldWidths(3), p1, p2 + p3);
      InRangeAppend(FieldWidths(2), FieldWidths(3), p2, p3);
      HeadWidths(head);
      SubWidths(p0, 0);
      SubWidths(p1, 1);
      SubWidths(p2, 2);
      SubWidths(p3, 3);
    } else {
      WrongCount(prm);
    }
  }

  lemma WrongCount(prm: seq<Word16>)
    requires |prm| != |BITNO|
    ensures !FrameParameters(prm)
  {
  }

  // ---- reconstruction ----

  /** The excitation known so far, the gain memory, the filter memory and the speech of the frame so far. */
  datatype SubState = SubState(hist: seq<Word16>, energies: Gains.Energies, memSyn: Factors, out: seq<Word16>)

  /** What a subframe needs of a decision to be reconstructed: lags within reach of the history, pulses within
      reach of the zeros. */
  predicate UsableAt(d: SubDecision, known: int) {
    && Ltp.Reachable(known, d.lag, d.frac)
    && d.pulses.InReach()
    && 0 <= d.gain < Gains.NB_QUA_ENER
  }

  predicate Usable(s: SubState, d: SubDecision) {
    UsableAt(d, |s.hist|)
  }

  function MixedSample(exc: Word16, code: Word16, g: Gains.GainPair): Word16 {
    Truncate(LShrR(LMac0(LMult0(exc, g.pit), code, g.cod), 12))
  }

  /** What the mixed sample is, in plain integers: the two samples weighted with their own gains, divided by 4096 to
      the nearest integer, as long as that fits 16 bits. */
  ghost predicate MixedRight(e: int, exc: int, code: int, g: Gains.GainPair) {
    var s := exc * g.pit + code * g.cod;
    -0x800_0000 <= s < 0x800_0000 - 2048 ==> -2048 <= s - 4096 * e < 2048
  }

  lemma MixedSampleIs(exc: Word16, code: Word16, g: Gains.GainPair)
    ensures MixedRight(MixedSample(exc, code, g), exc, code, g)
  {
    hide Power;
    var p, c := exc * g.pit, code * g.cod;
    ProductRange(exc, g.pit);
    ProductRange(code, g.cod);
    var s := p + c;
    if -0x800_0000 <= s < 0x800_0000 - 2048 {
      assert LMac0(LMult0(exc, g.pit), code, g.cod) == s;
      SmallPowers();
      LShrRNearest(s, 12);
      TruncateFits(LShrR(s, 12));
    }
  }

  /** gain_pit * exc + gain_code * code. */
  function MixedExcitation(exc: seq<Word16>, code: seq<Word16>, g: Gains.GainPair): (e: seq<Word16>)
    requires |exc| == |code| == L_SUBFR
    ensures |e| == L_SUBFR
  {
    seq(L_SUBFR, i requires 0 <= i < L_SUBFR => MixedSample(exc[i], code[i], g))
  }

  lemma MixedExcitationIs(exc: seq<Word16>, code: seq<Word16>, g: Gains.GainPair)
    requires |exc| == |code| == L_SUBFR
    ensures forall i :: 0 <= i < L_SUBFR ==> MixedRight(MixedExcitation(exc, code, g)[i], exc[i], code[i], g)
  {
    hide MixedSample, MixedRight;
    forall i | 0 <= i < L_SUBFR
      ensures MixedRight(MixedExcitation(exc, code, g)[i], exc[i], code[i], g)
    {
      MixedSampleIs(exc[i], code[i], g);
    }
  }

  /** The mixing loop, in place over the adaptive vector. */
  method MixInPlace(exc: array<Word16>, pos: nat, code: array<Word16>, g: Gains.GainPair)
    requires pos + L_SUBFR <= exc.Length && L_SUBFR <= code.Length && exc != code
    modifies exc
    ensures exc[pos..pos + L_SUBFR] == MixedExcitation(old(exc[pos..pos + L_SUBFR]), code[..L_SUBFR], g)
    ensures exc[..pos] == old(exc[..pos]) && exc[pos + L_SUBFR..] == old(exc[pos + L_SUBFR..])
  {
    hide MixedSample;
    ghost var was := exc[pos..pos + L_SUBFR];
    for i := 0 to L_SUBFR
      invariant exc[pos..pos + i] == MixedExcitation(was, code[..L_SUBFR], g)[..i]
      invariant exc[pos + i..] == old(exc[pos + i..])
      invariant exc[..pos] == old(exc[..pos])
    {
      assert exc[pos + i] == exc[pos + i..][0] == was[i];
      var mixed := MixOne(exc[pos + i], code[i], g);
      exc[pos + i] := mixed;
    }
  }

  method MixOne(exc: Word16, code: Word16, g: Gains.GainPair) returns (mixed: Word16)
    ensures mixed == MixedSample(exc, code, g)
  {
    var t := LMult0(exc, g.pit);
    t := LMac0(t, code, g.cod);
    mixed := Truncate(LShrR(t, 12));
  }

  /** The end of a frame: the last 158 samples become the history of the next. */
  method ShiftHistory(exc: array<Word16>)
    requires exc.Length == HISTORY + L_FRAME
    modifies exc
    ensures exc[..HISTORY] == old(exc[L_FRAME..])
  {
    assert L_FRAME >= HISTORY > 0;
    hide *;
    for i := 0 to HISTORY
      invariant forall k :: 0 <= k < i ==> exc[k] == old(exc[L_FRAME + k])
      invariant forall k :: i <= k < exc.Length ==> exc[k] == old(exc[k])
    {
      exc[i] := exc[i + L_FRAME];
    }
  }

  function AdaptiveVector(t: Tables, hist: seq<Word16>, lag: int, frac: int): (v: seq<Word16>)
    requires t.Valid() && Ltp.Reachable(|hist|, lag, frac)
    ensures |v| == L_SUBFR
  {
    Ltp.Extended(t.taps, hist, lag, frac, L_SUBFR)[|hist|..]
  }

  function InnovationVector(a: Lpc, lag: int, p: Cs.Pulses): (v: seq<Word16>)
    requires 1 <= lag && p.InReach()
    ensures |v| == L_SUBFR
  {
    Cs.CodeVector(Zeros(64) + NoiseResponse(a, Factors3(), Factors4(), lag), p)
  }

  /** One subframe, from its decision. */
  function SubStep(t: Tables, a: Lpc, s: SubState, d: SubDecision): (r: SubState)
    requires t.Valid() && Usable(s, d)
    ensures |r.hist| == |s.hist| + L_SUBFR && |r.out| == |s.out| + L_SUBFR
  {
    var prd := AdaptiveVector(t, s.hist, d.lag, d.frac);
    var code := InnovationVector(a, d.lag, d.pulses);
    var energies := Gains.NextEnergies(t.energies, d.gain, s.energies);
    var gains := Gains.QuantisedGains(LpcGain(a), prd, code, energies);
    var exc := MixedExcitation(prd, code, gains);
    var y := SynFilt(a, exc, s.memSyn);
    SubState(s.hist + exc, energies, NextMemory(y), s.out + y)
  }

  /** A subframe's step from its intermediate vectors. */
  lemma SubStepIs(t: Tables, a: Lpc, s: SubState, d: SubDecision, prd: seq<Word16>, code: seq<Word16>,
                  energies: Gains.Energies, gains: Gains.GainPair)
    requires t.Valid() && Usable(s, d) && |prd| == |code| == L_SUBFR
    requires prd == AdaptiveVector(t, s.hist, d.lag, d.frac)
    requires code == InnovationVector(a, d.lag, d.pulses)
    requires energies == Gains.NextEnergies(t.energies, d.gain, s.energies)
    requires gains == Gains.QuantisedGains(LpcGain(a), prd, code, energies)
    ensures var exc := MixedExcitation(prd, code, gains);
            var y := SynFilt(a, exc, s.memSyn);
            SubStep(t, a, s, d) == SubState(s.hist + exc, energies, NextMemory(y), s.out + y)
  {
  }

  /** The adaptive vector, built in the excitation buffer over whatever stood there. */
  method PredictInPlace(t: Tables, exc: array<Word16>, pos: nat, lag: Word16, frac: Word16)
    requires t.Valid() && pos + L_SUBFR <= exc.Length && Ltp.Reachable(pos, lag, frac)
    modifies exc
    ensures exc[..pos] == old(exc[..pos])
    ensures exc[pos..pos + L_SUBFR] == AdaptiveVector(t, old(exc[..pos]), lag, frac)
  {
    hide Ltp.Extended;
    ghost var hist := exc[..pos];
    Ltp.PredLt(t.taps, exc, pos, lag, frac);
    Ltp.ExtendedPrefix(t.taps, hist, lag, frac, L_SUBFR);
    assert exc[pos..pos + L_SUBFR] == exc[..pos + L_SUBFR][pos..];
    assert exc[..pos] == exc[..pos + L_SUBFR][..pos];
  }

  /** The total excitation and the speech of one subframe. */
  method Synthesise(a: Lpc, exc: array<Word16>, pos: nat, code: array<Word16>, g: Gains.GainPair,
                    synth: array<Word16>, at: nat, memSyn: array<Word16>)
    requires pos + L_SUBFR <= exc.Length && L_SUBFR <= code.Length && exc != code
    requires at + L_SUBFR <= synth.Length && memSyn.Length == ORDER
    requires exc != synth && exc != memSyn && synth != memSyn
    modifies exc, synth, memSyn
    ensures var e := MixedExcitation(old(exc[pos..pos + L_SUBFR]), old(code[..L_SUBFR]), g);
            var y := SynFilt(a, e, old(memSyn[..]));
            && exc[..pos + L_SUBFR] == old(exc[..pos]) + e
            && synth[..at + L_SUBFR] == old(synth[..at]) + y
            && memSyn[..] == NextMemory(y)
    ensures forall i :: 0 <= i < L_SUBFR ==> MixedRight(exc[pos + i], old(exc[pos + i]), old(code[i]), g)
  {
    hide MixedExcitation, SynFilt, MixedRight;
    ghost var prd, inno := exc[pos..pos + L_SUBFR], code[..L_SUBFR];
    MixInPlace(exc, pos, code, g);
    MixedExcitationIs(prd, inno, g);
    assert memSyn[0..0 + ORDER] == memSyn[..];
    SynFiltBuffers(a, exc, pos, synth, at, L_SUBFR, memSyn, 0, true);
    assert memSyn[0..0 + ORDER] == memSyn[..];
  }

  /** What both ends carry from frame to frame. */
  datatype Link = Link(lsp: seq<Word16>, hist: seq<Word16>, energies: Gains.Energies, memSyn: Factors) {
    predicate Valid() {
      |lsp| == ORDER && |hist| == HISTORY
    }
  }

  const START: Link := Link(Lsp.LSP_INIT, Zeros(HISTORY), Gains.Energies(0, 0), Zeros(ORDER))

  predicate UsableFrame(d: FrameDecision) {
    d.ind.Valid() && |d.subs| == 4 && UsableSubs(d.subs)
  }

  /** The first k subframes of a frame. */
  function SubSteps(t: Tables, lspOld: seq<Word16>, lspNew: seq<Word16>, link: Link,
                    subs: seq<SubDecision>, k: nat): (s: SubState)
    requires t.Valid() && |lspOld| == |lspNew| == ORDER && link.Valid() && k <= |subs| && k <= 4 && UsableSubs(subs)
    ensures |s.hist| == HISTORY + L_SUBFR * k && |s.out| == L_SUBFR * k
  {
    if k == 0 then SubState(link.hist, link.energies, link.memSyn, [])
    else SubStep(t, IntLpc4(lspOld, lspNew, k - 1), SubSteps(t, lspOld, lspNew, link, subs, k - 1), subs[k - 1])
  }

  /** One frame: the next link and 240 samples of synthetic speech. */
  function FrameStep(t: Tables, link: Link, d: FrameDecision): (r: (Link, seq<Word16>))
    requires t.Valid() && link.Valid() && UsableFrame(d)
    ensures r.0.Valid() && |r.1| == L_FRAME
  {
    var lsp := Lsp.Quantised(t.books, d.ind, link.lsp);
    var s := SubSteps(t, link.lsp, lsp, link, d.subs, 4);
    (Link(lsp, s.hist[L_FRAME..], s.energies, s.memSyn), s.out)
  }

  predicate UsableSubs(subs: seq<SubDecision>) {
    forall k :: 0 <= k < |subs| ==> UsableAt(subs[k], HISTORY + L_SUBFR * k)
  }

  lemma NextSubStep(t: Tables, lspOld: seq<Word16>, lspNew: seq<Word16>, link: Link, subs: seq<SubDecision>, k: nat)
    requires t.Valid() && |lspOld| == |lspNew| == ORDER && link.Valid() && k < |subs| <= 4 && UsableSubs(subs)
    ensures Usable(SubSteps(t, lspOld, lspNew, link, subs, k), subs[k])
    ensures SubSteps(t, lspOld, lspNew, link, subs, k + 1)
            == SubStep(t, IntLpc4(lspOld, lspNew, k), SubSteps(t, lspOld, lspNew, link, subs, k), subs[k])
  {
    hide IntLpc4, SubStep, UsableAt;
  }

  /** Later decisions do not change the subframes already made. */
  lemma {:induction false} SubStepsAppend(t: Tables, lspOld: seq<Word16>, lspNew: seq<Word16>, link: Link,
                                          subs: seq<SubDecision>, d: SubDecision, k: nat)
    requires t.Valid() && |lspOld| == |lspNew| == ORDER && link.Valid() && k <= |subs| < 4
    requires UsableSubs(subs) && UsableSubs(subs + [d])
    ensures SubSteps(t, lspOld, lspNew, link, subs + [d], k) == SubSteps(t, lspOld, lspNew, link, subs, k)
  {
    hide IntLpc4, SubStep, UsableAt;
    if k == 0 {
      NoSubStep(t, lspOld, lspNew, link, subs);
      NoSubStep(t, lspOld, lspNew, link, subs + [d]);
    } else {
      SubStepsAppend(t, lspOld, lspNew, link, subs, d, k - 1);
      NextSubStep(t, lspOld, lspNew, link, subs, k - 1);
      NextSubStep(t, lspOld, lspNew, link, subs + [d], k - 1);
      assert (subs + [d])[k - 1] == subs[k - 1];
    }
  }

  lemma NoSubStep(t: Tables, lspOld: seq<Word16>, lspNew: seq<Word16>, link: Link, subs: seq<SubDecision>)
    requires t.Valid() && |lspOld| == |lspNew| == ORDER && link.Valid() && UsableSubs(subs)
    ensures SubSteps(t, lspOld, lspNew, link, subs, 0) == SubState(link.hist, link.energies, link.memSyn, [])
  {
    hide IntLpc4, SubStep, UsableAt;
  }

  lemma FrameStepIs(t: Tables, link: Link, d: FrameDecision)
    requires t.Valid() && link.Valid() && UsableFrame(d)
    ensures var lsp := Lsp.Quantised(t.books, d.ind, link.lsp);
            var s := SubSteps(t, link.lsp, lsp, link, d.subs, 4);
            FrameStep(t, link, d) == (Link(lsp, s.hist[L_FRAME..], s.energies, s.memSyn), s.out)
  {
    hide SubSteps, Lsp.Quantised;
  }

  lemma DecodedIndices(prm: seq<Word16>)
    requires ParamsInRange(prm)
    ensures Decoded(prm).ind == Lsp.Indices(prm[0], prm[1], prm[2]) && Decoded(prm).ind.Valid()
  {
    hide DecodedSub, SubInRange;
  }

  /** Legal decisions can be reconstructed, and so can anything read from in-range parameters. */
  lemma LegalIsUsable(d: FrameDecision)
    requires Legal(d)
    ensures UsableFrame(d)
  {
    var lead := d.subs[0].lag;
    NextWindowFits(lead);
    forall k | 0 <= k < 4
      ensures UsableAt(d.subs[k], HISTORY + L_SUBFR * k)
    {
      assert LegalSub(d.subs[k], k, lead);
    }
  }

  lemma DecodedSubUsable(p: seq<Word16>, k: nat, lead: Word16)
    requires SubInRange(p, k) && k < 4
    ensures UsableAt(DecodedSub(p, k, lead), HISTORY + L_SUBFR * k)
  {
    hide DecodedFirst, DecodedNext, NextWindow, Cs.DecodedPulses;
    Cs.DecodedInReach(p[1], p[2], p[3]);
    if k == 0 {
      DecodedFirstLegal(p[0]);
    } else {
      NextWindowFits(lead);
      DecodedNextLegal(p[0], NextWindow(lead));
    }
  }

  lemma DecodedIsUsable(prm: seq<Word16>)
    requires ParamsInRange(prm)
    ensures UsableFrame(Decoded(prm))
  {
    hide DecodedSub, SubInRange, DecodedFirst, Power;
    var lead := DecodedFirst(prm[3]).0;
    DecodedSubUsable(prm[3..8], 0, lead);
    DecodedSubUsable(prm[8..13], 1, lead);
    DecodedSubUsable(prm[13..18], 2, lead);
    DecodedSubUsable(prm[18..23], 3, lead);
  }

  /** The parameters of subframe k where the decoder's pointer finds them, and what it makes of them. */
  lemma DecodedAt(prm: seq<Word16>, k: nat)
    requires ParamsInRange(prm) && k < 4
    ensures 0 <= prm[4 + 5 * k] < 0x4000 && 0 <= prm[6 + 5 * k] <= 1 && 0 <= prm[7 + 5 * k] < 64
    ensures var lead := DecodedFirst(prm[3]).0;
            var pitch := if k == 0 then DecodedFirst(prm[3]) else DecodedNext(prm[3 + 5 * k], NextWindow(lead).min);
            && Decoded(prm).subs[k] == SubDecision(pitch.0, pitch.1,
                                         Cs.DecodedPulses(prm[4 + 5 * k], prm[5 + 5 * k], prm[6 + 5 * k]), prm[7 + 5 * k])
            && Ltp.Reachable(HISTORY + L_SUBFR * k, pitch.0, pitch.1)
            && Decoded(prm).subs[k].pulses.InReach()
  {
    hide DecodedFirst, DecodedNext, Cs.DecodedPulses, NextWindow;
    DecodedIsUsable(prm);
    var p := prm[3 + 5 * k..8 + 5 * k];
    assert p[0] == prm[3 + 5 * k] && p[1] == prm[4 + 5 * k] && p[2] == prm[5 + 5 * k] && p[3] == prm[6 + 5 * k]
           && p[4] == prm[7 + 5 * k];
    assert SubInRange(p, k);
  }
}
