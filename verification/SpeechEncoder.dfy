/** `Coder_Tetra`: decides a frame and keeps, as it goes, the reconstruction the decoder will make of it. */
module SpeechEncoder {
  import opened FixedPoint
  import opened Synthesis
  import opened PitchLag
  import opened SpeechCodec
  import opened FrameMeaning
  import opened ImpulseMatrix
  import Lsp = LspQuantizer
  import Ltp = LongTermPrediction
  import Cs = CodeSearch
  import Gains

  /** What the analysis of one subframe produces: the residual, the normalised correlations of the lags in the
      search window, the backward-filtered target, and the unquantised gains. Nothing is assumed of the values. */
  datatype SubAnalysis = SubAnalysis(residual: seq<Word16>, corr: seq<Word16>, dn: seq<Word16>, wanted: Gains.GainPair) {
    predicate Valid() {
      |residual| == L_SUBFR && |corr| >= 10 + 2 * LG_INTER && |dn| == L_SUBFR
    }
  }

  /** What the analysis of a whole frame produces: the spectral pairs, the open-loop lag and the subframes. */
  datatype Analysis = Analysis(lsp: seq<Word16>, openLag: Word16, subs: seq<SubAnalysis>) {
    predicate Valid() {
      |lsp| == ORDER && |subs| == 4 && forall k :: 0 <= k < 4 ==> subs[k].Valid()
    }
  }

  class Encoder {
    const tables: Tables
    /** `lsp_old`, which the quantiser keeps, and `lspold_q`, which the interpolation reads. */
    const lspOld: array<Word16>
    const lspOldQ: array<Word16>
    const lspNewQ: array<Word16>
    /** `old_exc`: 158 past samples, then the frame under construction. */
    const oldExc: array<Word16>
    const memSyn: array<Word16>
    /** `ai_zero`: room for 11 coefficients, then the zeros that serve as filter memory. */
    const aiZero: array<Word16>
    const rr: array<Word16>
    /** `last_ener_pit` and `last_ener_cod`. */
    var energies: Gains.Energies

    ghost function Buffers(): set<array<Word16>> {
      {lspOld, lspOldQ, lspNewQ, oldExc, memSyn, aiZero, rr}
    }

    ghost predicate Shaped()
      reads this
    {
      && tables.Valid()
      && lspOld.Length == lspOldQ.Length == lspNewQ.Length == memSyn.Length == ORDER
      && oldExc.Length == HISTORY + L_FRAME && aiZero.Length == 11 + L_SUBFR && rr.Length == DIM * DIM
      && lspOld != lspOldQ && lspOld != lspNewQ && lspOldQ != lspNewQ
      && memSyn !in {lspOld, lspOldQ, lspNewQ}
      && oldExc !in {lspOld, lspOldQ, lspNewQ, memSyn}
      && aiZero !in {lspOld, lspOldQ, lspNewQ, memSyn, oldExc}
      && rr !in {lspOld, lspOldQ, lspNewQ, memSyn, oldExc, aiZero}
    }

    /** Between frames the two copies of the quantised pairs agree and are strictly decreasing, the zeros
        behind the coefficients are intact, and so is the border of the correlation matrix. */
    ghost predicate Valid()
      reads this, lspOld, lspOldQ, aiZero, rr
    {
      && Shaped()
      && lspOld[..] == lspOldQ[..] && Lsp.Decreasing(lspOldQ[..])
      && aiZero[11..] == Zeros(L_SUBFR)
      && ZeroMargin(rr[..])
    }

    /** The part of the state the decoder has as well. */
    ghost function Carried(): (link: Link)
      requires Shaped()
      reads this, lspOldQ, oldExc, memSyn
      ensures link.Valid()
    {
      Link(lspOldQ[..], oldExc[..HISTORY], energies, memSyn[..])
    }

    /** `Init_Coder_Tetra`. */
    constructor (tables: Tables)
      requires tables.Valid()
      ensures Valid() && this.tables == tables
      ensures fresh(lspOld) && fresh(lspOldQ) && fresh(lspNewQ) && fresh(oldExc) && fresh(memSyn)
              && fresh(aiZero) && fresh(rr)
      ensures Carried() == START
    {
      this.tables := tables;
      var pairs := FreshCopy(Lsp.LSP_INIT);
      var pairsQ := FreshCopy(Lsp.LSP_INIT);
      var exc := FreshCopy(Zeros(HISTORY + L_FRAME));
      var mem := FreshCopy(Zeros(ORDER));
      var zeros := FreshCopy(Zeros(11 + L_SUBFR));
      var matrix := FreshCopy(Zeros(DIM * DIM));
      lspOld, lspOldQ, lspNewQ := pairs, pairsQ, new Word16[ORDER];
      oldExc, memSyn, aiZero, rr := exc, mem, zeros, matrix;
      energies := Gains.Energies(0, 0);
      new;
      assert oldExc[..HISTORY] == Zeros(HISTORY) && aiZero[11..] == Zeros(L_SUBFR);
      ZeroMatrix();
    }

    /** Everything subframe k has left behind. */
    ghost function Rebuilt(synth: array<Word16>, k: nat): SubState
      requires Shaped() && synth.Length == L_FRAME && k <= 4
      reads this, oldExc, memSyn, synth
    {
      SubState(oldExc[..HISTORY + L_SUBFR * k], energies, memSyn[..], synth[..L_SUBFR * k])
    }

    /** The innovation of a subframe: the two filters, the matrix, and the code they lead to. */
    method Innovate(a: Lpc, lag: Word16, target: seq<Word16>)
      returns (code: array<Word16>, pulses: Cs.Pulses, index: Word16)
      requires Shaped() && aiZero[11..] == Zeros(L_SUBFR) && ZeroMargin(rr[..])
      requires 1 <= lag && |target| == L_SUBFR
      modifies aiZero, rr
      ensures aiZero[11..] == Zeros(L_SUBFR) && ZeroMargin(rr[..])
      ensures fresh(code) && code.Length == L_SUBFR + 4
      ensures pulses.Legal() && index == Cs.CodeIndex(pulses)
      ensures code[..L_SUBFR] == InnovationVector(a, lag, pulses)
    {
      hide Cs.SearchedWell, Cs.Pulses.Legal, Cs.Pulses.InReach, Cs.Best.Positions, Cs.CodeVector, Cs.CodeIndex;
      hide Cs.CodeRight, Cs.WinnerRight, NoiseRight, FilterRight, ScaledRight, NoiseResponse, FactorsOf, PondAi, SynFilt, ZeroMargin, SameMargin, Filled, Scaled;
      var f := FreshCopy(Zeros(64 + L_SUBFR));
      var h2 := FreshCopy(Zeros(64 + L_SUBFR));
      var dn := FreshCopy(target + Zeros(4));
      var y2;
      code, y2 := new Word16[L_SUBFR + 4], new Word16[L_SUBFR];
      assert f[..64] == Zeros(64);
      EncoderNoiseFilter(a, Factors3(), Factors4(), lag, aiZero, f);
      assert f[..] == f[..64] + f[64..];
      SynFiltBuffers(PondAi(a, Factors4()), f, 64, h2, 64, L_SUBFR, aiZero, 11, false);
      ghost var border := rr[..];
      var response := FreshCopy(h2[64..]);
      CalRr2(response, rr);
      ZeroMarginKept(border, rr[..]);
      ghost var best, tried, passes, pairs;
      index, pulses, best, tried, passes, pairs := Cs.D4i60(dn, f, h2, rr[..], code, y2);
    }

    /** The pitch of a subframe. The residual is in the way of the adaptive vector and is overwritten. */
    method ChoosePitch(exc: array<Word16>, k: nat, lead: Word16, w: Window, x: SubAnalysis)
      returns (lag: Word16, frac: Word16, index: Word16)
      requires tables.Valid() && k < 4 && exc.Length == HISTORY + L_FRAME && x.Valid()
      requires WindowOf(w, k, lead)
      modifies exc
      ensures LegalPitch(lag, frac, k, lead) && Ltp.Reachable(HISTORY + L_SUBFR * k, lag, frac)
      ensures index == PitchIndex(lag, frac, k, lead)
      ensures var pos := HISTORY + L_SUBFR * k;
              && exc[..pos] == old(exc[..pos])
              && exc[pos..pos + L_SUBFR] == AdaptiveVector(tables, exc[..pos], lag, frac)
    {
      hide AdaptiveVector, FirstIndex, NextIndex, NextWindow, Score;
      var pos := HISTORY + L_SUBFR * k;
      StoreAt(exc, pos, x.residual);
      ghost var best, third;
      lag, frac, best, third := PitchFr(x.corr, w, k == 0);
      PitchReaches(lag, frac, k, lead);
      index := if k == 0 then FirstIndex(lag, frac) else NextIndex(lag, frac, w.min);
      PredictInPlace(tables, exc, pos, lag, frac);
    }

    /** One pass of the subframe loop. */
    method CodeSubframe(a: Lpc, k: nat, lead: Word16, w: Window, x: SubAnalysis, synth: array<Word16>)
      returns (ana: seq<Word16>, d: SubDecision)
      requires Shaped() && aiZero[11..] == Zeros(L_SUBFR) && ZeroMargin(rr[..])
      requires k < 4 && x.Valid() && synth.Length == L_FRAME && synth !in {oldExc, memSyn, aiZero, rr}
      requires WindowOf(w, k, lead)
      modifies this`energies, oldExc, memSyn, aiZero, rr, synth
      ensures aiZero[11..] == Zeros(L_SUBFR) && ZeroMargin(rr[..])
      ensures LegalSub(d, k, lead) && ana == SubParams(d, k, lead)
      ensures Usable(old(Rebuilt(synth, k)), d)
      ensures Rebuilt(synth, k + 1) == SubStep(tables, a, old(Rebuilt(synth, k)), d)
    {
      hide MixedRight, Gains.FirstNearest, Gains.EnergiesRight, Gains.SearchedRight, Gains.GainsFit;
      hide AdaptiveVector, InnovationVector, SubStep, MixedExcitation, SynFilt, NextMemory, Gains.QuantisedGains,
           Gains.NextEnergies, LpcGain, ZeroMargin, FirstIndex, NextIndex, NextWindow, LegalPitch, Cs.CodeIndex,
           Gains.GainDistances, Gains.PitchError, Gains.CodeError, Lsp.FirstMinimum, Cs.Pulses.Legal;
      var pos := HISTORY + L_SUBFR * k;
      ghost var s := Rebuilt(synth, k);
      var lag, frac, pitch := ChoosePitch(oldExc, k, lead, w, x);
      PitchReaches(lag, frac, k, lead);
      ghost var prd := oldExc[pos..pos + L_SUBFR];
      var code, pulses, index := Innovate(a, lag, x.dn);

      Cs.LegalInReach(pulses);
      var gain, gains;
      gain, gains, energies := Gains.EnerQua(tables.energies, a, oldExc, pos, code, x.wanted, energies);
      ana := [pitch, index, pulses.sign, pulses.shift, gain];
      d := SubDecision(lag, frac, pulses, gain);
      SubStepIs(tables, a, s, d, prd, code[..L_SUBFR], energies, gains);
      Synthesise(a, oldExc, pos, code, gains, synth, L_SUBFR * k, memSyn);
    }

    /** `Coder_Tetra`: codes one frame. What is left behind is what the decisions alone determine. */
    method CodeFrame(x: Analysis, synth: array<Word16>) returns (ana: seq<Word16>, d: FrameDecision)
      requires Valid() && x.Valid()
      requires synth.Length == L_FRAME && synth !in {lspOld, lspOldQ, lspNewQ, oldExc, memSyn, aiZero, rr}
      modifies this`energies, lspOld, lspOldQ, lspNewQ, oldExc, memSyn, aiZero, rr, synth
      ensures Valid()
      ensures Legal(d) && ana == Params(d) && UsableFrame(d)
      ensures (Carried(), synth[..]) == FrameStep(tables, old(Carried()), d)
      ensures ParamsRight(d, ana) && FrameRight(tables, old(Carried()), d, Carried(), synth[..])
    {
      hide Lsp.Accepted, Lsp.NearestPart, Lsp.Looked, Lsp.FirstMinimum, Lsp.Distances, Lsp.Quantised, FrameStep, SubSteps,
           LegalSub, SubParams, Params, ZeroMargin, Legal, UsableFrame, UsableSubs, ParamsRight, FrameRight;
      ghost var link := Carried();
      var ind := Lsp.Clsp334(tables.books, x.lsp, lspNewQ, lspOld);
      var before, after := lspOldQ[..], lspNewQ[..];
      Lsp.QuantisedDecreasing(tables.books, ind, before);
      Lsp.CopyInto(lspNewQ, lspOldQ);
      assert synth[..0] == [];
      var params, subs := CodeSubframes(before, after, x, synth, link);
      ana := [ind.i1, ind.i2, ind.i3] + params;
      d := FrameDecision(ind, subs);
      FrameIsLegal(d);
      ParamsInOrder(d);
      ParamsAre(d);
      FrameStepIs(tables, link, d);
      FrameStepIsRight(tables, link, d);
      assert oldExc[..HISTORY + L_FRAME] == oldExc[..];
      assert synth[..L_FRAME] == synth[..];
      ShiftHistory(oldExc);
    }

    /** The subframe loop: each subframe with its own filter, the search windows after the first around its lag. */
    method CodeSubframes(before: seq<Word16>, after: seq<Word16>, x: Analysis, synth: array<Word16>, ghost link: Link)
      returns (params: seq<Word16>, subs: seq<SubDecision>)
      requires Shaped() && x.Valid() && aiZero[11..] == Zeros(L_SUBFR) && ZeroMargin(rr[..])
      requires |before| == |after| == ORDER && link.Valid()
      requires synth.Length == L_FRAME && synth !in {oldExc, memSyn, aiZero, rr}
      requires Rebuilt(synth, 0) == SubState(link.hist, link.energies, link.memSyn, [])
      modifies this`energies, oldExc, memSyn, aiZero, rr, synth
      ensures aiZero[11..] == Zeros(L_SUBFR) && ZeroMargin(rr[..])
      ensures |subs| == 4 && UsableSubs(subs)
      ensures forall i :: 0 <= i < 4 ==> LegalSub(subs[i], i, subs[0].lag) && subs[i].pulses.Legal()
      ensures params == SubsParams(subs, 4, subs[0].lag)
      ensures Rebuilt(synth, 4) == SubSteps(tables, before, after, link, subs, 4)
    {
      hide SubSteps, SubStep, IntLpc4, NextWindow, FirstWindow, LegalSub, SubParams, ZeroMargin, Usable, UsableSubs,
           Cs.Pulses.Legal;
      var w, lead := FirstWindow(x.openLag), 0;
      WindowsWithinRange(x.openLag);
      params, subs := [], [];
      NoDecisions();
      NoSubStep(tables, before, after, link, subs);
      for k := 0 to 4
        invariant |subs| == k && UsableSubs(subs)
        invariant forall i :: 0 <= i < k ==> LegalSub(subs[i], i, lead) && subs[i].pulses.Legal()
        invariant k > 0 ==> subs[0].lag == lead
        invariant WindowOf(w, k, lead)
        invariant params == SubsParams(subs, k, lead)
        invariant Rebuilt(synth, k) == SubSteps(tables, before, after, link, subs, k)
        invariant aiZero[11..] == Zeros(L_SUBFR) && ZeroMargin(rr[..])
      {
        var p, s := CodeSubframe(IntLpc4(before, after, k), k, lead, w, x.subs[k], synth);
        if k == 0 {
          LeadIrrelevant(s, lead, s.lag);
          NextWindowFits(s.lag);
          lead := s.lag;
          w := NextWindow(lead);
        }
        AppendSub(tables, before, after, link, subs, s, lead);
        params := params + p;
        subs := subs + [s];
      }
    }
  }

  lemma NoDecisions()
    ensures UsableSubs([])
  {
  }

  lemma FrameIsLegal(d: FrameDecision)
    requires d.ind.Valid() && |d.subs| == 4 && UsableSubs(d.subs)
    requires forall k :: 0 <= k < 4 ==> LegalSub(d.subs[k], k, d.subs[0].lag)
    ensures Legal(d) && UsableFrame(d)
  {
    hide LegalSub, UsableSubs;
  }

  lemma AppendSub(t: Tables, before: seq<Word16>, after: seq<Word16>, link: Link, subs: seq<SubDecision>,
                  s: SubDecision, lead: Word16)
    requires t.Valid() && |before| == |after| == ORDER && link.Valid() && UsableSubs(subs) && |subs| < 4
    requires LegalSub(s, |subs|, lead)
    requires forall i :: 0 <= i < |subs| ==> subs[i].pulses.Legal()
    ensures s.pulses.Legal() && UsableSubs(subs + [s])
    ensures Usable(SubSteps(t, before, after, link, subs, |subs|), s)
    ensures SubSteps(t, before, after, link, subs + [s], |subs| + 1)
            == SubStep(t, IntLpc4(before, after, |subs|), SubSteps(t, before, after, link, subs, |subs|), s)
    ensures forall i :: 0 <= i < |subs| + 1 ==> (subs + [s])[i].pulses.Legal()
    ensures SubsParams(subs + [s], |subs| + 1, lead) == SubsParams(subs, |subs|, lead) + SubParams(s, |subs|, lead)
  {
    hide SubSteps, SubStep, IntLpc4, SubParams, LegalPitch, Cs.Pulses.Legal, Cs.Pulses.InReach;
    PitchReaches(s.lag, s.frac, |subs|, lead);
    Cs.LegalInReach(s.pulses);
    SubStepsAppend(t, before, after, link, subs, s, |subs|);
    NextSubStep(t, before, after, link, subs + [s], |subs|);
    SubsParamsAppend(subs, s, |subs|, lead);
  }

  lemma ZeroMatrix()
    ensures ZeroMargin(Zeros(DIM * DIM)) && Lsp.Decreasing(Lsp.LSP_INIT)
  {
  }
}
