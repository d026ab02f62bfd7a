/** `Decod_Tetra` on error-free frames: rebuilds the speech from the 23 parameters. */
module SpeechDecoder {
  import opened FixedPoint
  import opened Synthesis
  import opened PitchLag
  import opened SpeechCodec
  import opened FrameMeaning
  import opened FrameBits
  import Lsp = LspQuantizer
  import Cs = CodeSearch
  import Gains

  class Decoder {
    const tables: Tables
    /** `lspold` and `lspnew`. */
    const lspOld: array<Word16>
    const lspNew: array<Word16>
    /** `old_exc`: 158 past samples, then the frame under construction. */
    const oldExc: array<Word16>
    const memSyn: array<Word16>
    /** `last_ener_pit` and `last_ener_cod`. */
    var energies: Gains.Energies

    ghost function Buffers(): set<array<Word16>> {
      {lspOld, lspNew, oldExc, memSyn}
    }

    ghost predicate Valid()
      reads this
    {
      && tables.Valid()
      && lspOld.Length == lspNew.Length == memSyn.Length == ORDER
      && oldExc.Length == HISTORY + L_FRAME
      && lspOld != lspNew && lspOld != oldExc && lspOld != memSyn
      && lspNew != oldExc && lspNew != memSyn && oldExc != memSyn
    }

    /** What the decoder carries into the next frame. */
    ghost function Carried(): (link: Link)
      requires Valid()
      reads this, lspOld, oldExc, memSyn
      ensures link.Valid()
    {
      Link(lspOld[..], oldExc[..HISTORY], energies, memSyn[..])
    }

    /** `Init_Decod_Tetra`. */
    constructor (tables: Tables)
      requires tables.Valid()
      ensures Valid() && this.tables == tables
      ensures fresh(lspOld) && fresh(lspNew) && fresh(oldExc) && fresh(memSyn)
      ensures Carried() == START
    {
      this.tables := tables;
      var pairs := FreshCopy(Lsp.LSP_INIT);
      var exc := FreshCopy(Zeros(HISTORY + L_FRAME));
      var mem := FreshCopy(Zeros(ORDER));
      lspOld, lspNew := pairs, new Word16[ORDER];
      oldExc, memSyn := exc, mem;
      energies := Gains.Energies(0, 0);
      new;
      assert oldExc[..HISTORY] == Zeros(HISTORY);
    }

    /** Everything subframe k has left behind. */
    ghost function Rebuilt(synth: array<Word16>, k: nat): SubState
      requires Valid() && synth.Length == L_FRAME && k <= 4
      reads this, oldExc, memSyn, synth
    {
      SubState(oldExc[..HISTORY + L_SUBFR * k], energies, memSyn[..], synth[..L_SUBFR * k])
    }

    /** One pass of the subframe loop, once the pitch has been decoded. */
    method DecodeSubframe(a: Lpc, k: nat, lag: Word16, frac: Word16, index: Word16, sign: Word16, shift: Word16,
                          gain: Word16, synth: array<Word16>, ghost d: SubDecision)
      requires Valid() && k < 4 && synth.Length == L_FRAME
      requires synth != oldExc && synth != memSyn
      requires 0 <= index < 0x4000 && 0 <= shift <= 1 && UsableAt(d, HISTORY + L_SUBFR * k)
      requires d == SubDecision(lag, frac, Cs.DecodedPulses(index, sign, shift), gain)
      modifies this`energies, oldExc, memSyn, synth
      ensures Rebuilt(synth, k + 1) == SubStep(tables, a, old(Rebuilt(synth, k)), d)
    {
      hide MixedRight, Gains.EnergiesRight, Gains.GainsFit;
      hide AdaptiveVector, InnovationVector, SubStep, MixedExcitation, SynFilt, NoiseResponse,
           Gains.QuantisedGains, Gains.NextEnergies, Cs.CodeVector, Cs.DecodedPulses, LpcGain, FactorsOf, NextMemory;
      var pos := HISTORY + L_SUBFR * k;
      ghost var s, prd := Rebuilt(synth, k), AdaptiveVector(tables, oldExc[..pos], lag, frac);
      PredictInPlace(tables, oldExc, pos, lag, frac);
      var code := Innovation(a, lag, index, sign, shift);
      var gains;
      gains, energies := Gains.DecEner(tables.energies, gain, a, oldExc, pos, code, energies);
      SubStepIs(tables, a, s, d, prd, code[..L_SUBFR], energies, gains);
      Synthesise(a, oldExc, pos, code, gains, synth, L_SUBFR * k, memSyn);
    }

    /** `Decod_Tetra` with a clear bad-frame flag. */
    method DecodeFrame(parm: seq<Word16>, synth: array<Word16>)
      requires Valid() && |parm| == 1 + PRM_NO && parm[0] == 0 && ParamsInRange(parm[1..])
      requires synth.Length == L_FRAME && synth !in {lspOld, lspNew, oldExc, memSyn}
      modifies this`energies, lspOld, lspNew, oldExc, memSyn, synth
      ensures UsableFrame(Decoded(parm[1..]))
      ensures (Carried(), synth[..]) == FrameStep(tables, old(Carried()), Decoded(parm[1..]))
      ensures ParamsRight(Decoded(parm[1..]), parm[1..])
      ensures FrameRight(tables, old(Carried()), Decoded(parm[1..]), Carried(), synth[..])
    {
      hide ParamsRight, FrameRight, SubRight, Decoded, ParamsInRange, FrameStep, SubSteps, SubStep, IntLpc4, DecodedFirst, DecodedNext, NextWindow,
           Cs.DecodedPulses, Lsp.Quantised;
      ghost var link := Carried();
      var prm := parm[1..];
      ghost var d := Decoded(prm);
      DecodedIsUsable(prm);
      DecodedIndices(prm);
      Lsp.DLsp334(tables.books, Lsp.Indices(prm[0], prm[1], prm[2]), lspNew, lspOld);
      var before, after := lspOld[..], lspNew[..];
      Lsp.CopyInto(lspNew, lspOld);

      var lead := DecodedFirst(prm[3]).0;
      var min := NextWindow(lead).min;
      NoSubStep(tables, before, after, link, d.subs);
      for k := 0 to 4
        invariant Rebuilt(synth, k) == SubSteps(tables, before, after, link, d.subs, k)
        invariant lspOld[..] == after
      {
        DecodedAt(prm, k);
        var (lag, frac) := if k == 0 then DecodedFirst(prm[3]) else DecodedNext(prm[3 + 5 * k], min);
        DecodeSubframe(IntLpc4(before, after, k), k, lag, frac, prm[4 + 5 * k], prm[5 + 5 * k], prm[6 + 5 * k],
                       prm[7 + 5 * k], synth, d.subs[k]);
        NextSubStep(tables, before, after, link, d.subs, k);
      }
      FrameStepIs(tables, link, d);
      FrameStepIsRight(tables, link, d);
      DecodedAre(prm);
      assert oldExc[..HISTORY + L_FRAME] == oldExc[..];
      assert synth[..L_FRAME] == synth[..];
      ShiftHistory(oldExc);
    }
  }

  /** The noise filter and the code vector it shapes. */
  method Innovation(a: Lpc, lag: Word16, index: Word16, sign: Word16, shift: Word16) returns (code: array<Word16>)
    requires 1 <= lag && 0 <= index < 0x4000 && 0 <= shift <= 1
    ensures fresh(code) && code.Length == L_SUBFR + 4
    ensures Cs.DecodedPulses(index, sign, shift).InReach()
    ensures code[..L_SUBFR] == InnovationVector(a, lag, Cs.DecodedPulses(index, sign, shift))
  {
    hide Cs.CodeVector, Cs.DecodedPulses, NoiseResponse, FactorsOf;
    var f := new Word16[64 + L_SUBFR];
    code := new Word16[L_SUBFR + 4];
    StoreAt(f, 0, Zeros(64));
    assert f[0..0 + |Zeros(64)|] == f[..64];
    DecoderNoiseFilter(a, Factors3(), Factors4(), lag, f);
    assert f[..] == f[..64] + f[64..];
    Cs.DD4i60(index, sign, shift, f, code);
  }
}
