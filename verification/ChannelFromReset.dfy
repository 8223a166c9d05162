/** The chain of decimators from reset: translate if asked to, decimate by two with the widening
stage, then halve so many times. */
module ChannelFromReset {
  import opened Simd
  import opened Decimation
  import opened FsQuarterFir
  import opened Cic3
  import opened UnityCic3
  import opened StreamCuts
  import C = ChannelDecimation

  const SILENCE: seq<Complex> := [ZERO, ZERO]

  /** One decimation by two of a whole stream. */
  function Halved(xs: seq<Complex>): seq<Complex> {
    Decimate<Complex, Complex>(UnityWindow(), 4, 2, SILENCE + xs)
  }

  function HalvedTimes(xs: seq<Complex>, stages: nat): seq<Complex>
    decreases stages
  {
    if stages == 0 then xs else HalvedTimes(Halved(xs), stages - 1)
  }

  lemma {:induction false} HalvedOnceMore(xs: seq<Complex>, stages: nat)
    ensures HalvedTimes(xs, stages + 1) == Halved(HalvedTimes(xs, stages))
    decreases stages
  {
    if stages > 0 {
      HalvedOnceMore(Halved(xs), stages - 1);
    }
  }

  /** No unity stage has seen a sample yet. */
  function Silent(stages: nat): (hs: seq<seq<Complex>>)
    ensures |hs| == stages && forall h <- hs :: h == SILENCE && |h| == 2
  {
    seq(stages, _ => SILENCE)
  }

  lemma {:induction false} CascadeFromReset(count: nat, xs: seq<Complex>, stages: nat)
    requires stages <= count
    ensures C.Cascade(Silent(count), xs, stages) == HalvedTimes(xs, stages)
  {
    hide Halved;
    C.NoStages(Silent(count), xs);
    if stages > 0 {
      CascadeFromReset(count, xs, stages - 1);
      HalvedOnceMore(xs, stages - 1);
      C.OneMoreStage(Silent(count), xs, stages - 1);
      HalvedMeans(C.Cascade(Silent(count), xs, stages - 1));
      hide C.Cascade, HalvedTimes;
      assert Silent(count)[stages - 1] == SILENCE;
    }
  }

  lemma HalvedMeans(xs: seq<Complex>)
    ensures Halved(xs) == Decimate<Complex, Complex>(UnityWindow(), 4, 2, SILENCE + xs)
  {
  }

  /** The stream that is decimated: translated down by a quarter of its sampling rate, or as it is. */
  function Received(fsOver4: bool, xs: seq<Complex>): seq<Complex> { if fsOver4 then Translate(xs, Down) else xs }

  lemma FirstStageFromReset(fsOver4: bool, xs: seq<Complex>)
    ensures C.FirstStage(fsOver4, SILENCE, xs)
         == Decimate<Complex, Complex>(WideningWindow(), 4, 2, SILENCE + Received(fsOver4, xs))
  {
    hide Decimate, Translate, TranslateDown, WideningWindow;
    TranslatesFromReset(xs);
  }

  /** From reset, over any session: the outputs are those of the plain chain on the whole stream. */
  lemma ChainFromReset(fsOver4: bool, stages: nat, blocks: seq<seq<Complex>>)
    requires stages <= 4 && forall block <- blocks :: StreamCuts.WholeGroups(block, stages)
    ensures ChannelSession(fsOver4, SILENCE, Silent(4), stages, blocks)
         == HalvedTimes(Decimate<Complex, Complex>(WideningWindow(), 4, 2, SILENCE + Received(fsOver4, Joined(blocks))), stages)
  {
    assert |SILENCE| == 2;
    hide *;
    ChannelAnyCut(fsOver4, SILENCE, Silent(4), stages, blocks);
    FirstStageFromReset(fsOver4, Joined(blocks));
    CascadeFromReset(4, C.FirstStage(fsOver4, SILENCE, Joined(blocks)), stages);
    if blocks == [] {
      NothingReceived(fsOver4, stages);
    }
  }

  lemma {:induction false} NothingHalved(stages: nat)
    ensures HalvedTimes([], stages) == []
  {
    if stages > 0 {
      assert Halved([]) == [];
      NothingHalved(stages - 1);
    }
  }

  lemma NothingReceived(fsOver4: bool, stages: nat)
    requires stages <= 4
    ensures Joined<Complex>([]) == []
    ensures HalvedTimes(Decimate<Complex, Complex>(WideningWindow(), 4, 2, SILENCE + Received(fsOver4, [])), stages) == []
    ensures ChannelSession(fsOver4, SILENCE, Silent(4), stages, []) == []
  {
    NothingHalved(stages);
    hide HalvedTimes;
    assert Received(fsOver4, []) == [];
  }
}
