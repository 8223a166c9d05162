/** A stream may be cut into any number of blocks: what the decimators give over a whole session. */
module StreamCuts {
  import opened Simd
  import opened Decimation
  import opened FsQuarterFir
  import opened FsQuarterTheorems
  import OutputRounding
  import Fir
  import C = ChannelDecimation
  import ChannelTheorems

  function Joined<X>(blocks: seq<seq<X>>): seq<X> {
    if blocks == [] then [] else blocks[0] + Joined(blocks[1..])
  }

  /** The outputs of one call per block, each starting from the history that the last one left. */
  function Session<X, Y>(w: seq<X> -> Y, len: nat, d: nat, h: seq<X>, blocks: seq<seq<X>>): seq<Y>
    requires 1 <= d <= len && |h| == len - d
    decreases |blocks|
  {
    if blocks == [] then []
    else Decimate(w, len, d, h + blocks[0]) + Session(w, len, d, Carry(len, d, h + blocks[0]), blocks[1..])
  }

  /** However the stream is cut into blocks of whole groups, the session gives the outputs of one call. */
  lemma {:induction false} AnyCut<X, Y>(w: seq<X> -> Y, len: nat, d: nat, h: seq<X>, blocks: seq<seq<X>>)
    requires 1 <= d <= len && |h| == len - d
    requires forall block <- blocks :: |block| % d == 0
    ensures Session(w, len, d, h, blocks) == Decimate(w, len, d, h + Joined(blocks))
    decreases |blocks|
  {
    if blocks == [] {
      assert h + [] == h;
    } else {
      SplitInvariance(w, len, d, h, blocks[0], Joined(blocks[1..]));
      AnyCut(w, len, d, Carry(len, d, h + blocks[0]), blocks[1..]);
    }
  }

  /** A whole session of the packed quarter-rate filter, from reset and in any blocks, gives the
  translated, filtered and decimated stream. */
  lemma PackedSession(taps: seq<Int16>, scale: Int32, shift: Shift, d: nat, blocks: seq<seq<Complex>>)
    requires |taps| == TAPS && (d == 4 || d == 8) && NegationsExact(taps, shift)
    requires forall block <- blocks :: |block| % d == 0
    ensures Session<Complex, Complex>(PackedWindow(StoredTaps(taps, shift), scale), TAPS, d, Silence(TAPS - d, ZERO), blocks)
         == Decimate<Complex, Complex>(Fir.PlainWindow(taps, scale), TAPS, d, Silence(TAPS - d, ZERO) + Translate(Joined(blocks), shift))
  {
    hide Decimate, Carry, Session, Translate, Joined, NegationsExact;
    AnyCut<Complex, Complex>(PackedWindow(StoredTaps(taps, shift), scale), TAPS, d, Silence(TAPS - d, ZERO), blocks);
    PackedIsTranslateFilterDecimate(taps, scale, shift, d, Joined(blocks));
  }

  /** The same in numbers: from reset, in any blocks, output k is the plain tap sum over the translated
  stream from position d * k of 24 - d zeros and that stream, scaled, rounded and saturated. */
  lemma PackedSessionOutputs(taps: seq<Int16>, scale: Int32, shift: Shift, d: nat, blocks: seq<seq<Complex>>)
    requires |taps| == TAPS && (d == 4 || d == 8) && NegationsExact(taps, shift)
    requires forall block <- blocks :: |block| % d == 0
    ensures OutputRounding.AreOutputs(
              Session<Complex, Complex>(PackedWindow(StoredTaps(taps, shift), scale), TAPS, d, Silence(TAPS - d, ZERO), blocks),
              taps, scale, d, Silence(TAPS - d, ZERO) + Translate(Joined(blocks), shift))
  {
    hide Decimate, Session, Translate, Joined, NegationsExact, OutputRounding.AreOutputs;
    PackedSession(taps, scale, shift, d, blocks);
    OutputRounding.PlainOutputs(taps, scale, d, Silence(TAPS - d, ZERO) + Translate(Joined(blocks), shift));
  }

  /** The outputs of the channel decimator over one call per block. */
  function ChannelSession(fsOver4: bool, h: seq<Complex>, hs: seq<seq<Complex>>, stages: nat, blocks: seq<seq<Complex>>): seq<Complex>
    requires |h| == 2 && stages <= |hs| && forall g <- hs :: |g| == 2
    decreases |blocks|
  {
    if blocks == [] then []
    else
      var xs := C.FirstStage(fsOver4, h, blocks[0]);
      ChannelTheorems.NewHistoriesAt(hs, xs, stages);
      C.Cascade(hs, xs, stages)
      + ChannelSession(fsOver4, (h + blocks[0])[|blocks[0]|..], C.NewHistories(hs, xs, stages), stages, blocks[1..])
  }

  /** A block the source accepts: so many samples that every stage gets a multiple of four. */
  ghost predicate WholeGroups(block: seq<Complex>, stages: nat) { exists m: nat :: |block| == 4 * C.Groups(m, stages) }

  /** Likewise for the whole chain of stages that share one work buffer, for any factor. */
  lemma {:induction false} ChannelAnyCut(fsOver4: bool, h: seq<Complex>, hs: seq<seq<Complex>>, stages: nat, blocks: seq<seq<Complex>>)
    requires |h| == 2 && stages <= |hs| && forall g <- hs :: |g| == 2
    requires forall block <- blocks :: WholeGroups(block, stages)
    ensures ChannelSession(fsOver4, h, hs, stages, blocks)
         == if blocks == [] then [] else C.Cascade(hs, C.FirstStage(fsOver4, h, Joined(blocks)), stages)
    decreases |blocks|
  {
    if blocks != [] {
      var first, rest := blocks[0], blocks[1..];
      var xs := C.FirstStage(fsOver4, h, first);
      ChannelTheorems.NewHistoriesAt(hs, xs, stages);
      hide C.Cascade, C.FirstStage, C.NewHistories, C.Groups;
      if rest == [] {
        assert Joined(blocks) == first;
        assert C.Cascade(hs, xs, stages) + [] == C.Cascade(hs, xs, stages);
      } else {
        assert WholeGroups(first, stages);
        var m: nat :| |first| == 4 * C.Groups(m, stages);
        ChannelTheorems.ChannelSplit(fsOver4, h, hs, stages, first, m, Joined(rest));
        ChannelAnyCut(fsOver4, (h + first)[|first|..], C.NewHistories(hs, xs, stages), stages, rest);
      }
    }
  }
}
