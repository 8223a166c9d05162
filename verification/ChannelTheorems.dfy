/** The whole cascade gives the same samples however the stream is cut into blocks. */
module ChannelTheorems {
  import opened Simd
  import opened Decimation
  import opened Cic3
  import opened UnityCic3
  import opened ChannelDecimation

  lemma SuffixOfSuffix(h: seq<Complex>, a: seq<Complex>, b: seq<Complex>)
    ensures (h + (a + b))[|a + b|..] == ((h + a)[|a|..] + b)[|b|..]
  {
  }

  lemma {:induction false} MultipleOfFour(m: nat, left: nat, done: nat)
    requires left >= 1
    ensures 2 * Groups(m, left + done) == (4 * Groups(m, left - 1)) * Power2(done)
  {
    if done == 0 {
      SizeOf(m, left - 1);
    } else {
      MultipleOfFour(m, left, done - 1);
      SizeOf(m, left + done - 1);
      Regroup(4 * Groups(m, left - 1), Power2(done - 1));
    }
  }

  lemma Regroup(a: nat, b: nat)
    ensures 2 * (a * b) == a * (2 * b)
  {
  }

  /** Stage `j` of a cascade run on two blocks in turn. */
  lemma {:induction false} CascadeSplit(hs: seq<seq<Complex>>, x1: seq<Complex>, x2: seq<Complex>, m: nat, stages: nat, j: nat)
    requires j <= stages <= |hs| && forall h <- hs :: |h| == 2
    requires |x1| == 2 * Groups(m, stages)
    ensures var hs' := NewHistories(hs, x1, stages);
            && (forall h <- hs' :: |h| == 2)
            && Cascade(hs, x1 + x2, j) == Cascade(hs, x1, j) + Cascade(hs', x2, j)
  {
    hide CascadeHistory, Decimate, Groups, NewHistories;
    var hs' := NewHistories(hs, x1, stages);
    NewHistoriesAt(hs, x1, stages);
    if j > 0 {
      CascadeSplit(hs, x1, x2, m, stages, j - 1);
      var a, b := Cascade(hs, x1, j - 1), Cascade(hs', x2, j - 1);
      MultipleOfFour(m, stages - j + 1, j - 1);
      CascadeLength(hs, x1, j - 1, 4 * Groups(m, stages - j));
      UnitySplit(hs[j - 1], a, Groups(m, stages - j), b);
      OneMoreStage(hs, x1, j - 1);
      assert hs'[j - 1] == (hs[j - 1] + a)[|a|..];
    }
  }

  lemma NewHistoriesAt(hs: seq<seq<Complex>>, xs: seq<Complex>, stages: nat)
    requires stages <= |hs| && forall h <- hs :: |h| == 2
    ensures var r := NewHistories(hs, xs, stages);
            && |r| == |hs|
            && (forall k :: 0 <= k < |hs| ==> |r[k]| == 2)
            && (forall k :: 0 <= k < stages ==> r[k] == CascadeHistory(hs, xs, k))
            && (forall k :: stages <= k < |hs| ==> r[k] == hs[k])
  {
  }

  /** Decimating two blocks in turn gives the samples, and leaves the state, of decimating their
      concatenation: for either first stage and any decimation factor. */
  lemma ChannelSplit(fsOver4: bool, h: seq<Complex>, hs: seq<seq<Complex>>, stages: nat,
                     src1: seq<Complex>, m: nat, src2: seq<Complex>)
    requires |h| == 2 && stages <= |hs| && forall g <- hs :: |g| == 2
    requires |src1| == 4 * Groups(m, stages)
    ensures var h', hs' := (h + src1)[|src1|..], NewHistories(hs, FirstStage(fsOver4, h, src1), stages);
            && (forall g <- hs' :: |g| == 2)
            && Cascade(hs, FirstStage(fsOver4, h, src1 + src2), stages)
               == Cascade(hs, FirstStage(fsOver4, h, src1), stages) + Cascade(hs', FirstStage(fsOver4, h', src2), stages)
            && NewHistories(hs, FirstStage(fsOver4, h, src1 + src2), stages)
               == NewHistories(hs', FirstStage(fsOver4, h', src2), stages)
  {
    hide Cascade, CascadeHistory, NewHistories, FirstStage, Groups;
    var h' := (h + src1)[|src1|..];
    var x1, x2 := FirstStage(fsOver4, h, src1), FirstStage(fsOver4, h', src2);
    FirstStageSplit(fsOver4, h, src1, Groups(m, stages), src2);
    CascadeSplit(hs, x1, x2, m, stages, stages);
    SameFinalHistories(hs, x1, x2, m, stages);
  }

  lemma FirstStageSplit(fsOver4: bool, h: seq<Complex>, a: seq<Complex>, g: nat, b: seq<Complex>)
    requires |h| == 2 && |a| == 4 * g
    ensures FirstStage(fsOver4, h, a + b) == FirstStage(fsOver4, h, a) + FirstStage(fsOver4, (h + a)[|a|..], b)
    ensures |FirstStage(fsOver4, h, a)| == 2 * g
  {
    hide Decimate, TranslateDown, Carry, WideningWindow;
    var w := WideningWindow();
    UniqueQuotient(4 * g, 2, 2 * g, 0);
    if fsOver4 {
      TranslatingSplit(w, h, a, g, b);
      DecimateAt(w, 4, 2, TranslateDown(h + a), 0);
    } else {
      SplitInvariance(w, 4, 2, h, a, b);
      CarryIsNewest(4, 2, h + a);
      DecimateAt(w, 4, 2, h + a, 0);
    }
  }

  lemma SameFinalHistories(hs: seq<seq<Complex>>, x1: seq<Complex>, x2: seq<Complex>, m: nat, stages: nat)
    requires stages <= |hs| && forall h <- hs :: |h| == 2
    requires |x1| == 2 * Groups(m, stages)
    ensures var hs' := NewHistories(hs, x1, stages);
            && (forall h <- hs' :: |h| == 2)
            && NewHistories(hs, x1 + x2, stages) == NewHistories(hs', x2, stages)
  {
    hide Cascade, CascadeHistory, NewHistories, Groups;
    var hs' := NewHistories(hs, x1, stages);
    NewHistoriesAt(hs, x1, stages);
    NewHistoriesAt(hs, x1 + x2, stages);
    NewHistoriesAt(hs', x2, stages);
    forall k | 0 <= k < stages ensures CascadeHistory(hs, x1 + x2, k) == CascadeHistory(hs', x2, k) {
      CascadeSplit(hs, x1, x2, m, stages, k);
      OneMoreStage(hs, x1, k);
      OneMoreStage(hs, x1 + x2, k);
      OneMoreStage(hs', x2, k);
      SuffixOfSuffix(hs[k], Cascade(hs, x1, k), Cascade(hs', x2, k));
    }
  }
}
