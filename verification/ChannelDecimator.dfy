/** The decimation cascade of firmware/baseband/channel_decimator.cpp: one 8-bit stage and up to
four CIC stages that all read from and write to the same work buffer. */
module ChannelDecimation {
  import opened Simd
  import opened Decimation
  import opened Cic3
  import opened UnityCic3

  const WORK_SIZE: nat := 1024

  /** The same cascade on separate sequences.  `hs` holds the two samples of history of each
      unity stage; `xs` is the output of the first stage. */
  function Cascade(hs: seq<seq<Complex>>, xs: seq<Complex>, stages: nat): seq<Complex>
    requires stages <= |hs| && forall h <- hs :: |h| == 2
  {
    if stages == 0 then xs
    else Decimate<Complex, Complex>(UnityWindow(), 4, 2, hs[stages - 1] + Cascade(hs, xs, stages - 1))
  }

  /** The history of unity stage `k` after the block. */
  function CascadeHistory(hs: seq<seq<Complex>>, xs: seq<Complex>, k: nat): (h: seq<Complex>)
    requires k < |hs| && forall h <- hs :: |h| == 2
    ensures |h| == 2
  {
    var input := Cascade(hs, xs, k);
    (hs[k] + input)[|input|..]
  }

  /** Stages beyond the selected factor keep their history. */
  function NewHistories(hs: seq<seq<Complex>>, xs: seq<Complex>, stages: nat): (r: seq<seq<Complex>>)
    requires stages <= |hs| && forall h <- hs :: |h| == 2
  {
    seq(|hs|, k requires 0 <= k < |hs| => if k < stages then CascadeHistory(hs, xs, k) else hs[k])
  }

  function FirstStage(fsOver4: bool, h: seq<Complex>, src: seq<Complex>): seq<Complex> {
    Decimate<Complex, Complex>(WideningWindow(), 4, 2, if fsOver4 then TranslateDown(h + src) else h + src)
  }

  /** Each unity stage halves the number of samples. */
  lemma {:induction false} CascadeLength(hs: seq<seq<Complex>>, xs: seq<Complex>, stages: nat, n: nat)
    requires stages <= |hs| && forall h <- hs :: |h| == 2
    requires |xs| == n * Power2(stages)
    ensures |Cascade(hs, xs, stages)| == n
  {
    hide Decimate;
    if stages > 0 {
      assert |xs| == (2 * n) * Power2(stages - 1);
      CascadeLength(hs, xs, stages - 1, 2 * n);
      var input := hs[stages - 1] + Cascade(hs, xs, stages - 1);
      assert hs[stages - 1] in hs;
      DecimateAt<Complex, Complex>(UnityWindow(), 4, 2, input, 0);
    }
  }

  function Power2(k: nat): nat { if k == 0 then 1 else 2 * Power2(k - 1) }

  predicate Distinct(cics: seq<Unity>) {
    forall i, j :: 0 <= i < j < |cics| ==> cics[i] != cics[j]
  }

  ghost function HistoriesOf(cics: seq<Unity>): (hs: seq<seq<Complex>>)
    reads cics
    ensures |hs| == |cics| && forall h <- hs :: |h| == 2
  {
    seq(|cics|, k requires 0 <= k < |cics| reads cics => cics[k].History())
  }

  class ChannelDecimator {
    const work: array<Complex16>
    const fsOver4: bool
    const translate: Translating
    const cic0: Widening
    const cics: seq<Unity>   // cic_1 to cic_4
    var unityStages: nat     // 0 to 4, for a decimation factor of 2 to 32

    ghost predicate Valid()
      reads this, translate, cic0
    {
      && work.Length == WORK_SIZE && unityStages <= 4
      && translate.Valid() && cic0.Valid()
      && |cics| == 4 && Distinct(cics)
    }

    ghost function FirstHistory(): seq<Complex>
      requires Valid()
      reads this, translate, cic0
    {
      if fsOver4 then translate.History() else cic0.History()
    }

    constructor (stages: nat, fsOver4Downconvert: bool)
      requires stages <= 4
      ensures Valid() && unityStages == stages && fsOver4 == fsOver4Downconvert
      ensures fresh(work) && fresh(translate) && fresh(cic0) && (forall c <- cics :: fresh(c))
      ensures FirstHistory() == [ZERO, ZERO]
      ensures forall k :: 0 <= k < 4 ==> cics[k].History() == [ZERO, ZERO]
    {
      work := new Complex16[WORK_SIZE](_ => ZERO);
      translate := new Translating();
      cic0 := new Widening();
      var c1 := new Unity();
      var c2 := new Unity();
      var c3 := new Unity();
      var c4 := new Unity();
      cics := [c1, c2, c3, c4];
      unityStages := stages;
      fsOver4 := fsOver4Downconvert;
    }

    method ExecuteStage0(src: seq<Complex8>)
      requires Valid() && |src| % 4 == 0 && |src| / 2 <= WORK_SIZE
      modifies work, translate, cic0
      ensures Valid()
      ensures work[..|src| / 2] == FirstStage(fsOver4, old(FirstHistory()), src)
      ensures FirstHistory() == (old(FirstHistory()) + src)[|src|..]
    {
      if fsOver4 {
        translate.Execute(src, work);
      } else {
        cic0.Execute(src, work);
      }
    }

    /** The unity stages up to the selected factor, each from the work buffer into itself. */
    method ExecuteUnityStages(n: nat, ghost xs: seq<Complex>) returns (count: nat)
      requires Valid() && 2 * Groups(n, unityStages) <= WORK_SIZE
      requires |xs| == 2 * Groups(n, unityStages) && work[..|xs|] == xs
      modifies work, cics
      ensures Valid() && count == 2 * n && count <= WORK_SIZE
      ensures work[..count] == Cascade(old(HistoriesOf(cics)), xs, unityStages)
      ensures HistoriesOf(cics) == NewHistories(old(HistoriesOf(cics)), xs, unityStages)
    {
      hide Cascade, CascadeHistory, NewHistories, Groups, Decimate, UnityWindow, Unity.History, HistoriesOf;
      ghost var hs := HistoriesOf(cics);
      NoStages(hs, xs);
      SizeOf(n, 0);
      count := 2 * Groups(n, unityStages);
      for k := 0 to unityStages
        invariant Valid()
        invariant count == 2 * Groups(n, unityStages - k) && count <= WORK_SIZE
        invariant work[..count] == Cascade(hs, xs, k)
        invariant HistoriesOf(cics) == NewHistories(hs, xs, k)
      {
        SizeOf(n, unityStages - k - 1);
        OneMoreStage(hs, xs, k);
        RunStage(k, count);
        count := count / 2;
      }
    }

    /** One unity stage, from the start of the work buffer into itself. */
    method RunStage(k: nat, count: nat)
      requires Valid() && k < unityStages && count % 4 == 0 && count <= WORK_SIZE == work.Length
      modifies work, cics
      ensures Valid()
      ensures var h, input := old(HistoriesOf(cics)[k]), old(work[..count]);
              && work[..count / 2] == Decimate<Complex, Complex>(UnityWindow(), 4, 2, h + input)
              && HistoriesOf(cics) == old(HistoriesOf(cics))[k := (h + input)[count..]]
    {
      hide Decimate, UnityWindow, Unity.History;
      cics[k].Execute(work, count, work);
    }

    /** The first `count` samples of the work buffer are the decimated block: exactly what the
        same stages compute on separate buffers.  Stages beyond the selected factor are not run. */
    method Execute(src: seq<Complex8>, n: nat) returns (count: nat)
      requires Valid() && |src| / 2 <= WORK_SIZE
      requires |src| == 4 * Groups(n, unityStages)
      modifies work, translate, cic0, cics
      ensures Valid() && count == 2 * n && count <= WORK_SIZE
      ensures var xs, hs := FirstStage(fsOver4, old(FirstHistory()), src), old(HistoriesOf(cics));
              && work[..count] == Cascade(hs, xs, unityStages)
              && HistoriesOf(cics) == NewHistories(hs, xs, unityStages)
      ensures FirstHistory() == (old(FirstHistory()) + src)[|src|..]
    {
      hide Cascade, NewHistories, FirstStage, Groups;
      ghost var xs := FirstStage(fsOver4, FirstHistory(), src);
      ExecuteStage0(src);
      assert |work[..|src| / 2]| == |src| / 2;
      count := ExecuteUnityStages(n, xs);
    }
  }

  /** `n` groups of samples at the output are n * 2^stages groups at the input. */
  function Groups(n: nat, stages: nat): nat { n * Power2(stages) }

  lemma SizeOf(n: nat, stages: nat)
    ensures Groups(n, stages + 1) == 2 * Groups(n, stages) && Groups(n, 0) == n
  {
  }

  lemma NoStages(hs: seq<seq<Complex>>, xs: seq<Complex>)
    requires forall h <- hs :: |h| == 2
    ensures Cascade(hs, xs, 0) == xs && NewHistories(hs, xs, 0) == hs
  {
  }

  lemma OneMoreStage(hs: seq<seq<Complex>>, xs: seq<Complex>, k: nat)
    requires k < |hs| && forall h <- hs :: |h| == 2
    ensures |NewHistories(hs, xs, k)| == |hs| && NewHistories(hs, xs, k)[k] == hs[k]
    ensures var input := Cascade(hs, xs, k);
            && Cascade(hs, xs, k + 1) == Decimate<Complex, Complex>(UnityWindow(), 4, 2, hs[k] + input)
            && CascadeHistory(hs, xs, k) == (hs[k] + input)[|input|..]
            && NewHistories(hs, xs, k + 1) == NewHistories(hs, xs, k)[k := CascadeHistory(hs, xs, k)]
  {
    hide Decimate;
  }
}
