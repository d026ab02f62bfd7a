/** Encoder and decoder joined by 18-byte frames: whatever the encoder is fed, the decoder follows it exactly. */
module Lockstep {
  import opened FixedPoint
  import opened SpeechCodec
  import opened SpeechEncoder
  import opened SpeechDecoder
  import opened FrameBits
  import ImpulseMatrix
  import Lsp = LspQuantizer

  /** The 18 bytes that carry a frame's decisions. */
  function Sent(d: FrameDecision): (bytes: seq<Byte>)
    requires Legal(d)
    ensures |bytes| == BYTE_COUNT
  {
    ParamsRoundTrip(d);
    RangesMatchWidths(Params(d));
    CodedFrame(Params(d))
  }

  /** The decisions a decoder finds in 18 bytes. */
  function Received(bytes: seq<Byte>): (d: FrameDecision)
    requires |bytes| == BYTE_COUNT
    ensures UsableFrame(d)
  {
    RangesMatchWidths(FrameContents(bytes));
    DecodedIsUsable(FrameContents(bytes));
    Decoded(FrameContents(bytes))
  }

  lemma SentIs(d: FrameDecision)
    requires Legal(d)
    ensures FrameParameters(Params(d)) && Sent(d) == CodedFrame(Params(d))
  {
    hide Params, FrameParameters, ParamsInRange, CodedFrame;
    ParamsRoundTrip(d);
    RangesMatchWidths(Params(d));
  }

  /** Lag, fraction, pulses, gains and spectral indices all survive the channel. */
  lemma DecisionsSurvive(d: FrameDecision)
    requires Legal(d)
    ensures Received(Sent(d)) == d
  {
    hide Legal, Params, Decoded, ParamsInRange, FrameParameters, CodedFrame, FrameContents;
    ParamsRoundTrip(d);
    RangesMatchWidths(Params(d));
    FrameRoundTrip(Params(d));
  }

  // ---- whole runs ----

  datatype Heard = Heard(link: Link, speech: seq<Word16>)

  ghost predicate AllLegal(ds: seq<FrameDecision>) {
    forall i :: 0 <= i < |ds| ==> Legal(ds[i])
  }

  /** The encoder's own reconstruction of a run of frames. */
  function Local(t: Tables, link: Link, ds: seq<FrameDecision>): (h: Heard)
    requires t.Valid() && link.Valid() && forall i :: 0 <= i < |ds| ==> UsableFrame(ds[i])
    ensures h.link.Valid() && |h.speech| == L_FRAME * |ds|
  {
    if ds == [] then Heard(link, [])
    else
      var before := Local(t, link, ds[..|ds| - 1]);
      var (next, synth) := FrameStep(t, before.link, ds[|ds| - 1]);
      Heard(next, before.speech + synth)
  }

  /** A decoder fed 18 bytes at a time. */
  function Remote(t: Tables, link: Link, frames: seq<seq<Byte>>): (h: Heard)
    requires t.Valid() && link.Valid() && forall i :: 0 <= i < |frames| ==> |frames[i]| == BYTE_COUNT
    ensures h.link.Valid() && |h.speech| == L_FRAME * |frames|
  {
    if frames == [] then Heard(link, [])
    else
      var before := Remote(t, link, frames[..|frames| - 1]);
      var (next, synth) := FrameStep(t, before.link, Received(frames[|frames| - 1]));
      Heard(next, before.speech + synth)
  }

  function SentAll(ds: seq<FrameDecision>): (frames: seq<seq<Byte>>)
    requires AllLegal(ds)
    ensures |frames| == |ds| && forall i :: 0 <= i < |frames| ==> |frames[i]| == BYTE_COUNT
  {
    seq(|ds|, i requires 0 <= i < |ds| => Sent(ds[i]))
  }

  /** Over every run of legal decisions the decoder's quantised pairs, excitation, energies, filter memory and
      speech are the encoder's, frame by frame, and the pairs stay strictly decreasing. */
  lemma {:induction false} RunsAgree(t: Tables, link: Link, ds: seq<FrameDecision>)
    requires t.Valid() && link.Valid() && AllLegal(ds)
    ensures forall i :: 0 <= i < |ds| ==> UsableFrame(ds[i])
    ensures Remote(t, link, SentAll(ds)) == Local(t, link, ds)
    ensures Lsp.Decreasing(link.lsp) ==> Lsp.Decreasing(Local(t, link, ds).link.lsp)
  {
    hide Legal, Sent, Received, UsableFrame, FrameStep, Lsp.Decreasing;
    forall i | 0 <= i < |ds|
      ensures UsableFrame(ds[i])
    {
      LegalIsUsable(ds[i]);
    }
    if ds != [] {
      var init, last := ds[..|ds| - 1], ds[|ds| - 1];
      RunsAgree(t, link, init);
      DecisionsSurvive(last);
      assert SentAll(ds)[..|ds| - 1] == SentAll(init);
      if Lsp.Decreasing(link.lsp) {
        PairsStayOrdered(t, Local(t, link, init).link, last);
      }
    }
  }

  lemma PairsStayOrdered(t: Tables, link: Link, d: FrameDecision)
    requires t.Valid() && link.Valid() && UsableFrame(d) && Lsp.Decreasing(link.lsp)
    ensures Lsp.Decreasing(FrameStep(t, link, d).0.lsp)
  {
    hide SubSteps, Lsp.Quantised, Lsp.Decreasing;
    FrameStepIs(t, link, d);
    Lsp.QuantisedDecreasing(t.books, d.ind, link.lsp);
  }

  // ---- the two entry points ----

  /** `tetra_encode` after pre-processing. */
  method TetraEncode(st: Encoder, x: Analysis, coded: array<Byte>, syn: array<Word16>) returns (d: FrameDecision)
    requires st.Valid() && x.Valid() && coded.Length == BYTE_COUNT && syn.Length == L_FRAME
    requires syn !in st.Buffers()
    modifies st`energies, st.Buffers(), coded, syn
    ensures st.Valid()
    ensures Legal(d) && UsableFrame(d) && coded[..] == Sent(d)
    ensures (st.Carried(), syn[..]) == FrameStep(st.tables, old(st.Carried()), d)
  {
    hide FrameStep, Legal, UsableFrame, Params, FrameParameters, CodedFrame, Sent, ImpulseMatrix.ZeroMargin, Lsp.Decreasing;
    var ana;
    ana, d := st.CodeFrame(x, syn);
    SentIs(d);
    WriteFrame(ana, coded);
  }

  /** `tetra_decode` of an error-free frame, before post-processing. */
  method TetraDecode(st: Decoder, coded: array<Byte>, pcm: array<Word16>)
    requires st.Valid() && coded.Length == BYTE_COUNT && pcm.Length == L_FRAME
    requires pcm !in st.Buffers()
    modifies st`energies, st.Buffers(), pcm
    ensures (st.Carried(), pcm[..]) == FrameStep(st.tables, old(st.Carried()), Received(old(coded[..])))
  {
    hide FrameStep, Decoded, ParamsInRange, UsableFrame;
    var parm := ReadFrame(coded);
    assert parm[1..] == FrameContents(coded[..]);
    RangesMatchWidths(parm[1..]);
    st.DecodeFrame(parm, pcm);
  }

  /** The two ends have no storage in common. */
  ghost predicate Apart(near: Encoder, far: Decoder, syn: array<Word16>, pcm: array<Word16>) {
    && near.Buffers() !! far.Buffers()
    && syn !in near.Buffers() && syn !in far.Buffers()
    && pcm !in near.Buffers() && pcm !in far.Buffers()
    && syn != pcm
  }

  /** One frame across the channel keeps the two states equal and reproduces the local synthesis. */
  method Exchange(near: Encoder, far: Decoder, x: Analysis, coded: array<Byte>, syn: array<Word16>, pcm: array<Word16>)
    returns (d: FrameDecision)
    requires near.Valid() && far.Valid() && near.tables == far.tables && Apart(near, far, syn, pcm)
    requires x.Valid() && coded.Length == BYTE_COUNT && syn.Length == pcm.Length == L_FRAME
    requires near.Carried() == far.Carried()
    modifies near`energies, near.Buffers(), far`energies, far.Buffers(), coded, syn, pcm
    ensures near.Valid() && far.Valid()
    ensures pcm[..] == syn[..] && near.Carried() == far.Carried()
    ensures Legal(d) && UsableFrame(d)
    ensures (near.Carried(), syn[..]) == FrameStep(near.tables, old(near.Carried()), d)
  {
    hide FrameStep, Legal, UsableFrame, Sent, Received, ImpulseMatrix.ZeroMargin, Lsp.Decreasing;
    d := TetraEncode(near, x, coded, syn);
    DecisionsSurvive(d);
    TetraDecode(far, coded, pcm);
  }

  lemma NoFrames(t: Tables)
    requires t.Valid()
    ensures AllLegal([]) && Local(t, START, []) == Heard(START, [])
  {
  }

  lemma OneMoreFrame(t: Tables, link: Link, ds: seq<FrameDecision>, d: FrameDecision)
    requires t.Valid() && link.Valid() && AllLegal(ds) && Legal(d) && UsableFrame(d)
    requires forall i :: 0 <= i < |ds| ==> UsableFrame(ds[i])
    ensures AllLegal(ds + [d])
    ensures forall i :: 0 <= i < |ds + [d]| ==> UsableFrame((ds + [d])[i])
    ensures var before := Local(t, link, ds);
            var (next, synth) := FrameStep(t, before.link, d);
            Local(t, link, ds + [d]) == Heard(next, before.speech + synth)
  {
    hide FrameStep, Legal, UsableFrame;
    assert (ds + [d])[..|ds|] == ds;
  }

  /** A conversation from two fresh codecs: what the far end hears is the encoder's own local synthesis, and
      after the last frame both carry the same state. */
  method Converse(tables: Tables, xs: seq<Analysis>)
    returns (spoken: seq<Word16>, heard: seq<Word16>, ds: seq<FrameDecision>, near: Encoder, far: Decoder)
    requires tables.Valid() && forall i :: 0 <= i < |xs| ==> xs[i].Valid()
    ensures |ds| == |xs| && AllLegal(ds) && forall i :: 0 <= i < |ds| ==> UsableFrame(ds[i])
    ensures heard == spoken == Local(tables, START, ds).speech
    ensures near.Valid() && far.Valid() && near.Carried() == far.Carried() == Local(tables, START, ds).link
  {
    hide FrameStep, Legal, UsableFrame, ImpulseMatrix.ZeroMargin, Lsp.Decreasing, Analysis.Valid, Local, AllLegal;
    near := new Encoder(tables);
    far := new Decoder(tables);
    spoken, heard, ds := [], [], [];
    NoFrames(tables);
    var coded, syn, pcm := new Byte[BYTE_COUNT], new Word16[L_FRAME], new Word16[L_FRAME];
    for i := 0 to |xs|
      invariant |ds| == i && AllLegal(ds) && forall k :: 0 <= k < i ==> UsableFrame(ds[k])
      invariant near.Valid() && far.Valid() && near.tables == far.tables == tables
      invariant Apart(near, far, syn, pcm)
      invariant near.Carried() == far.Carried() == Local(tables, START, ds).link
      invariant heard == spoken == Local(tables, START, ds).speech
    {
      var d := Exchange(near, far, xs[i], coded, syn, pcm);
      OneMoreFrame(tables, START, ds, d);
      ds := ds + [d];
      spoken, heard := spoken + syn[..], heard + pcm[..];
    }
  }
}
