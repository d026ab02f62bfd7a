/** What a coded frame reconstructs to, in plain integers: from the spectral pairs to the speech, without the saturating
    operators. Every step is exact or within its rounding wherever nothing overflows. */
module FrameMeaning {
  import opened FixedPoint
  import opened Synthesis
  import opened SpectralPolynomials
  import opened PitchLag
  import opened SpeechCodec
  import opened FrameBits
  import Lsp = LspQuantizer
  import Ltp = LongTermPrediction
  import Cs = CodeSearch
  import Gains

  // ---- one subframe ----

  /** The code vector: the signed pulses through the noise filter of the subframe, with the powers of 0.75 and 0.85. */
  ghost predicate InnovationRight(a: Lpc, lag: int, p: Cs.Pulses, code: seq<Word16>)
    requires 1 <= lag
  {
    exists fac3: Factors, fac4: Factors, noise: seq<Word16> ::
      && PowersRight(24576, fac3) && PowersRight(27853, fac4)
      && NoiseRight(a, fac3, fac4, lag, noise) && |noise| == L_SUBFR
      && Cs.CodeRight(code, Zeros(64) + noise, p)
  }

  lemma InnovationIs(a: Lpc, lag: int, p: Cs.Pulses)
    requires 1 <= lag && p.InReach()
    ensures InnovationRight(a, lag, p, InnovationVector(a, lag, p))
  {
    hide PowersRight, NoiseRight, Cs.CodeRight, NoiseResponse, Cs.CodeVector, FacPond, Cs.Pulses.InReach;
    var noise := NoiseResponse(a, Factors3(), Factors4(), lag);
    FacPondIs(24576, ORDER);
    FacPondIs(27853, ORDER);
    NoiseResponseIs(a, Factors3(), Factors4(), lag);
    Cs.CodeVectorIs(Zeros(64) + noise, p);
    assert NoiseRight(a, Factors3(), Factors4(), lag, noise);
  }

  /** The vectors of a subframe: prediction, innovation, gains, excitation and speech. */
  datatype Work = Work(prd: seq<Word16>, code: seq<Word16>, gains: Gains.GainPair, exc: seq<Word16>, y: seq<Word16>)

  ghost predicate WorkRight(t: Tables, a: Lpc, s: SubState, d: SubDecision, r: SubState, w: Work)
    requires t.Valid() && Usable(s, d)
  {
    && |w.prd| == |w.code| == |w.exc| == |w.y| == L_SUBFR
    && Ltp.PredictedRight(s.hist + w.prd, |s.hist|, d.lag, d.frac, t.taps)
    && InnovationRight(a, d.lag, d.pulses, w.code)
    && Gains.EnergiesRight(r.energies, t.energies, d.gain, s.energies)
    && Gains.GainsFit(w.gains, a, w.prd, w.code, r.energies)
    && (forall i :: 0 <= i < L_SUBFR ==> MixedRight(w.exc[i], w.prd[i], w.code[i], w.gains))
    && FilterRight(a, w.exc, s.memSyn, w.y)
    && r.hist == s.hist + w.exc && r.out == s.out + w.y && r.memSyn == w.y[L_SUBFR - ORDER..]
  }

  ghost predicate SubRight(t: Tables, a: Lpc, s: SubState, d: SubDecision, r: SubState) {
    t.Valid() && Usable(s, d) && exists w: Work :: WorkRight(t, a, s, d, r, w)
  }

  lemma SubStepIsRight(t: Tables, a: Lpc, s: SubState, d: SubDecision)
    requires t.Valid() && Usable(s, d)
    ensures SubRight(t, a, s, d, SubStep(t, a, s, d))
  {
    hide Ltp.PredictedRight, InnovationRight, Gains.EnergiesRight, Gains.GainsFit, MixedRight, FilterRight, SubStep,
         Ltp.Extended, InnovationVector, Gains.NextEnergies, Gains.QuantisedGains, LpcGain, MixedExcitation, SynFilt;
    var prd := AdaptiveVector(t, s.hist, d.lag, d.frac);
    var code := InnovationVector(a, d.lag, d.pulses);
    var energies := Gains.NextEnergies(t.energies, d.gain, s.energies);
    var gains := Gains.QuantisedGains(LpcGain(a), prd, code, energies);
    var exc := MixedExcitation(prd, code, gains);
    var y := SynFilt(a, exc, s.memSyn);
    SubStepIs(t, a, s, d, prd, code, energies, gains);
    Ltp.ExtensionIs(t.taps, s.hist, d.lag, d.frac, L_SUBFR);
    Ltp.ExtendedPrefix(t.taps, s.hist, d.lag, d.frac, L_SUBFR);
    assert s.hist + prd == Ltp.Extended(t.taps, s.hist, d.lag, d.frac, L_SUBFR);
    InnovationIs(a, d.lag, d.pulses);
    Gains.NextEnergiesAre(t.energies, d.gain, s.energies);
    Gains.GainsFitFilter(a, prd, code, energies);
    MixedExcitationIs(prd, code, gains);
    SynFiltIs(a, exc, s.memSyn);
    assert WorkRight(t, a, s, d, SubStep(t, a, s, d), Work(prd, code, gains, exc, y));
  }

  // ---- one frame ----

  /** The state before each subframe and after the last, and the filter of each. */
  ghost predicate StagesRight(t: Tables, link: Link, d: FrameDecision, lsp: seq<Word16>, states: seq<SubState>,
                              filters: seq<Lpc>)
    requires |link.lsp| == |lsp| == ORDER && |d.subs| == 4
  {
    && |states| == 5 && |filters| == 4
    && states[0] == SubState(link.hist, link.energies, link.memSyn, [])
    && forall k :: 0 <= k < 4 ==>
         InterpolatedRight(link.lsp, lsp, k, filters[k]) && SubRight(t, filters[k], states[k], d.subs[k], states[k + 1])
  }

  /** A frame, from the carried state and the decisions: the quantised pairs, four subframes, and what is carried on. */
  ghost predicate FrameRight(t: Tables, link: Link, d: FrameDecision, after: Link, speech: seq<Word16>)
    requires t.Valid() && link.Valid() && after.Valid() && d.ind.Valid() && |d.subs| == 4
  {
    && Lsp.Accepted(Lsp.Looked(t.books, d.ind), link.lsp, after.lsp)
    && exists states: seq<SubState>, filters: seq<Lpc> ::
         && StagesRight(t, link, d, after.lsp, states, filters)
         && |states[4].hist| == HISTORY + L_FRAME
         && after.hist == states[4].hist[L_FRAME..] && after.energies == states[4].energies
         && after.memSyn == states[4].memSyn && speech == states[4].out
  }

  lemma FrameStepIsRight(t: Tables, link: Link, d: FrameDecision)
    requires t.Valid() && link.Valid() && UsableFrame(d)
    ensures FrameRight(t, link, d, FrameStep(t, link, d).0, FrameStep(t, link, d).1)
  {
    hide FrameStep, SubSteps, SubStep, IntLpc4, Lsp.Quantised, Lsp.Accepted, InterpolatedRight, SubRight;
    FrameStepIs(t, link, d);
    var lsp := Lsp.Quantised(t.books, d.ind, link.lsp);
    QuantisedIsAccepted(t.books, d.ind, link.lsp);
    var states := seq(5, k requires 0 <= k < 5 => SubSteps(t, link.lsp, lsp, link, d.subs, k));
    var filters := seq(4, k requires 0 <= k < 4 => IntLpc4(link.lsp, lsp, k));
    NoSubStep(t, link.lsp, lsp, link, d.subs);
    forall k | 0 <= k < 4
      ensures InterpolatedRight(link.lsp, lsp, k, filters[k])
      ensures SubRight(t, filters[k], states[k], d.subs[k], states[k + 1])
    {
      IntLpc4Is(link.lsp, lsp, k);
      NextSubStep(t, link.lsp, lsp, link, d.subs, k);
      SubStepIsRight(t, filters[k], states[k], d.subs[k]);
    }
    assert StagesRight(t, link, d, lsp, states, filters);
  }

  lemma QuantisedIsAccepted(books: Lsp.Books, ind: Lsp.Indices, previous: seq<Word16>)
    requires books.Valid() && ind.Valid() && |previous| == ORDER
    ensures Lsp.Accepted(Lsp.Looked(books, ind), previous, Lsp.Quantised(books, ind, previous))
  {
    hide Lsp.Spaced, Lsp.Separated, Lsp.Looked;
    Lsp.SeparatedIs(Lsp.Looked(books, ind));
  }

  // ---- the parameters ----

  /** The 23 parameters, in the order in which they are sent. */
  ghost predicate ParamsRight(d: FrameDecision, prm: seq<Word16>) {
    && |prm| == PRM_NO && |d.subs| == 4
    && prm[0] == d.ind.i1 && prm[1] == d.ind.i2 && prm[2] == d.ind.i3
    && forall k :: 0 <= k < 4 ==> SubParamsRight(d.subs[k], k, d.subs[0].lag, prm[3 + 5 * k..8 + 5 * k])
  }

  /** Five for each subframe: the lag in thirds, the pulses in their fields of 5, 3, 3 and 3 bits, sign, shift and gains. */
  ghost predicate SubParamsRight(s: SubDecision, k: nat, lead: Word16, p: seq<Word16>) {
    && |p| == 5
    && p[0] == (if k > 0 then 3 * (s.lag - NextWindow(lead).min) + 2 + s.frac
                else if s.lag <= 85 then 3 * s.lag + s.frac - 58 else s.lag + 112)
    && p[1] == s.pulses.ip0 / 2 + s.pulses.ip1 / 8 * 32 + s.pulses.ip2 / 8 * 256 + s.pulses.ip3 / 8 * 2048
    && p[2] == s.pulses.sign && p[3] == s.pulses.shift && p[4] == s.gain
  }

  lemma ParamsAre(d: FrameDecision)
    requires Legal(d)
    ensures ParamsRight(d, Params(d))
  {
    hide SubParams, LegalSub, SubParamsRight, Cs.Pulses.Legal;
    LegalPulses(d);
    var prm, lead := Params(d), d.subs[0].lag;
    assert prm[3..8] == SubParams(d.subs[0], 0, lead) && prm[8..13] == SubParams(d.subs[1], 1, lead);
    assert prm[13..18] == SubParams(d.subs[2], 2, lead) && prm[18..23] == SubParams(d.subs[3], 3, lead);
    forall k | 0 <= k < 4
      ensures SubParamsRight(d.subs[k], k, lead, prm[3 + 5 * k..8 + 5 * k])
    {
      SubParamsAre(d.subs[k], k, lead);
    }
  }

  lemma SubParamsAre(s: SubDecision, k: nat, lead: Word16)
    requires LegalSub(s, k, lead)
    ensures s.pulses.Legal() && SubParamsRight(s, k, lead, SubParams(s, k, lead))
  {
    hide FirstIndex, NextIndex, NextWindow, LegalFirst, LegalNext, Cs.CodeIndex, Cs.Pulses.Legal;
    Cs.CodeIndexValue(s.pulses);
    if k == 0 {
      FirstIndexValue(s.lag, s.frac);
    } else {
      NextWindowFits(lead);
      NextIndexValue(s.lag, s.frac, NextWindow(lead));
    }
  }

  /** The same read the other way: what a decoder finds in any parameters that fit their fields. */
  lemma DecodedAre(prm: seq<Word16>)
    requires ParamsInRange(prm)
    ensures ParamsRight(Decoded(prm), prm)
  {
    hide DecodedSub, SubInRange, SubParamsRight, DecodedFirst;
    var lead := DecodedFirst(prm[3]).0;
    DecodedSubIs(prm[3..8], 0, lead);
    DecodedSubIs(prm[8..13], 1, lead);
    DecodedSubIs(prm[13..18], 2, lead);
    DecodedSubIs(prm[18..23], 3, lead);
    DecodedLead(prm[3..8], lead);
    assert prm[3..8][0] == prm[3];
  }

  lemma DecodedLead(p: seq<Word16>, lead: Word16)
    requires SubInRange(p, 0)
    ensures DecodedSub(p, 0, lead).lag == DecodedFirst(p[0]).0
  {
    hide DecodedFirst, Cs.DecodedPulses;
  }

  lemma DecodedSubIs(p: seq<Word16>, k: nat, lead: Word16)
    requires SubInRange(p, k)
    ensures SubParamsRight(DecodedSub(p, k, lead), k, lead, p)
  {
    hide DecodedFirst, DecodedNext, NextWindow, FirstIndex, NextIndex, Cs.DecodedPulses;
    Cs.DecodedPulsesValue(p[1], p[2], p[3]);
    FourFields(p[1]);
    if k == 0 {
      DecodedFirstLegal(p[0]);
      var (lag, frac) := DecodedFirst(p[0]);
      FirstIndexValue(lag, frac);
    } else {
      NextWindowFits(lead);
      DecodedNextLegal(p[0], NextWindow(lead));
      var (lag, frac) := DecodedNext(p[0], NextWindow(lead).min);
      NextIndexValue(lag, frac, NextWindow(lead));
    }
  }

  lemma FourFields(index: int)
    requires 0 <= index < 0x4000
    ensures index == index % 32 * 2 / 2 + (index / 32 % 8 * 8 + 2) / 8 * 32 + (index / 256 % 8 * 8 + 4) / 8 * 256
                     + (index / 2048 % 8 * 8 + 6) / 8 * 2048
  {
    var a, b, c, e := index % 32, index / 32 % 8, index / 256 % 8, index / 2048;
    assert index / 256 == c + 8 * e && index / 32 == b + 8 * (index / 256);
    assert e % 8 == e;
    GridIndices(b, c, e);
  }

  lemma GridIndices(b: int, c: int, e: int)
    requires b >= 0 && c >= 0 && e >= 0
    ensures (b * 8 + 2) / 8 == b && (c * 8 + 4) / 8 == c && (e * 8 + 6) / 8 == e
  {
  }
}
