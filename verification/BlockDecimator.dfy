/** Re-blocking of a sample stream: every `factor`-th sample goes into blocks of fixed size. */
module BlockDecimation {

  import Decimation
  import Simd

  /** The samples at positions s, s + f, s + 2f, ... */
  function Every<T>(src: seq<T>, s: nat, f: nat): (taken: seq<T>)
    requires f >= 1
    decreases |src| - s
  {
    if s >= |src| then [] else [src[s]] + Every(src, s + f, f)
  }

  /** How far past the end of `count` samples that walk stops. */
  function Exit(s: nat, count: nat, f: nat): nat
    requires f >= 1
    decreases count - s
  {
    if s >= count then s - count else Exit(s + f, count, f)
  }

  /** Samples collected so far, and where in the next feed the next one is. */
  datatype Collected<T> = Collected(samples: seq<T>, offset: nat)

  /** A feed that, walked from position f, cannot fill a second block. */
  predicate OneBlockAtMost(count: nat, n: nat, f: nat) { count <= n * f }

  /** One such feed, as the source does it.  Completing a block also rewinds
  the walk: it goes on from position f of the same feed, wherever it was. */
  function AfterFeed<T>(c: Collected<T>, src: seq<T>, n: nat, f: nat): (r: (Collected<T>, seq<seq<T>>))
    requires f >= 1 && |c.samples| < n && OneBlockAtMost(|src|, n, f)
    ensures |r.0.samples| < n
  {
    var taken := Every(src, c.offset, f);
    if |c.samples| + |taken| < n then
      (Collected(c.samples + taken, Exit(c.offset, |src|, f)), [])
    else
      RewoundFits(src, f, n);
      (Collected(Every(src, f, f), Exit(f, |src|, f)), [c.samples + taken[..n - |c.samples|]])
  }

  /** After a rewind the rest of the feed cannot fill a block again exactly when the feed is that
  small.  A larger one fills the same block over and over, and the source's loop never ends. */
  lemma RewoundFits<T>(src: seq<T>, f: nat, n: nat)
    requires f >= 1 && n >= 1
    ensures |Every(src, f, f)| < n <==> OneBlockAtMost(|src|, n, f)
  {
    if f < |src| {
      var taken := |Every(src, f, f)|;
      EveryLength(src, f, f);
      SmallerFactor(taken, n, f);
    } else {
      assert n * f >= f by { SmallerFactor(n, 1, f); }
    }
  }

  lemma SmallerFactor(a: nat, n: nat, f: nat)
    requires f >= 1
    ensures a * f < n * f <==> a < n
    ensures a * f + f <= n * f <==> a < n
  {
    if a < n {
      Simd.ProductOrder(f, a + 1, n);
    } else {
      Simd.ProductOrder(f, n, a);
    }
  }

  lemma {:induction false} EveryLength<T>(src: seq<T>, s: nat, f: nat)
    requires f >= 1 && s < |src|
    ensures |src| - s <= |Every(src, s, f)| * f < |src| - s + f
    decreases |src| - s
  {
    if s + f < |src| {
      EveryLength(src, s + f, f);
      var k := |Every(src, s + f, f)|;
      assert |Every(src, s, f)| == k + 1;
      hide Every;
      NextMultiple(k, f);
    } else {
      assert |Every(src, s, f)| == 1;
    }
  }

  lemma NextMultiple(k: nat, f: nat)
    ensures (k + 1) * f == k * f + f
  {
  }

  /** Which samples the walk takes: every f-th, from position s on. */
  lemma {:induction false} EveryAt<T>(src: seq<T>, s: nat, f: nat, k: nat)
    requires f >= 1 && s + k * f < |src|
    ensures k < |Every(src, s, f)| && Every(src, s, f)[k] == src[s + k * f]
    decreases k
  {
    if k > 0 {
      NextMultiple(k - 1, f);
      EveryAt(src, s + f, f, k - 1);
    } else {
      assert 0 * f == 0;
    }
  }

  /** Where it stops: at the position of the first sample that it does not find. */
  lemma {:induction false} ExitPosition<T>(src: seq<T>, s: nat, f: nat)
    requires f >= 1
    ensures s + |Every(src, s, f)| * f == |src| + Exit(s, |src|, f)
    decreases |src| - s
  {
    if s < |src| {
      ExitPosition(src, s + f, f);
      NextMultiple(|Every(src, s + f, f)|, f);
    } else {
      assert 0 * f == 0;
    }
  }

  class BlockDecimator<T(0)> {
    const buffer: array<T>
    var inputSamplingRate: nat
    var factor: nat
    var srcI: nat
    var dstI: nat

    ghost predicate Valid()
      reads this
    {
      dstI < buffer.Length && factor >= 1
    }

    ghost function Abstract(): Collected<T>
      requires Valid()
      reads this, buffer
    {
      Collected(buffer[..dstI], srcI)
    }

    constructor (n: nat, factor: nat)
      requires n >= 1 && factor >= 1
      ensures Valid() && fresh(buffer) && buffer.Length == n && this.factor == factor
      ensures inputSamplingRate == 0 && Abstract() == Collected([], 0)
    {
      buffer := new T[n];
      inputSamplingRate, this.factor, srcI, dstI := 0, factor, 0, 0;
    }

    method ResetState()
      modifies this
      ensures srcI == dstI == 0 && factor == old(factor) && inputSamplingRate == old(inputSamplingRate)
    {
      srcI, dstI := 0, 0;
    }

    method SetInputSamplingRate(newSamplingRate: nat)
      requires Valid()
      modifies this
      ensures Valid() && factor == old(factor) && inputSamplingRate == newSamplingRate
      ensures Abstract() == if newSamplingRate == old(inputSamplingRate) then old(Abstract()) else Collected([], 0)
    {
      if newSamplingRate != inputSamplingRate {
        inputSamplingRate := newSamplingRate;
        ResetState();
      }
    }

    method SetFactor(newFactor: nat)
      requires Valid() && newFactor >= 1
      modifies this
      ensures Valid() && factor == newFactor && inputSamplingRate == old(inputSamplingRate)
      ensures Abstract() == if newFactor == old(factor) then old(Abstract()) else Collected([], 0)
    {
      if newFactor != factor {
        factor := newFactor;
        ResetState();
      }
    }

    /** Stores one sample; a full buffer goes to the callback and the state is reset. */
    method Store(x: T) returns (full: bool, block: seq<T>)
      requires Valid()
      modifies this, buffer
      ensures Valid() && factor == old(factor) && inputSamplingRate == old(inputSamplingRate)
      ensures full <==> old(dstI) + 1 == buffer.Length
      ensures full ==> block == old(buffer[..dstI]) + [x] && dstI == srcI == 0
      ensures !full ==> buffer[..dstI] == old(buffer[..dstI]) + [x] && srcI == old(srcI)
    {
      buffer[dstI] := x;
      dstI := dstI + 1;
      full, block := dstI == buffer.Length, [];
      if full {
        block := buffer[..];
        ResetState();
        dstI := 0;
      }
    }

    /** The body of the feed loop: stores one sample and walks on. */
    method TakeSample(x: T) returns (full: bool, block: seq<T>)
      requires Valid()
      modifies this, buffer
      ensures Valid() && factor == old(factor) && inputSamplingRate == old(inputSamplingRate)
      ensures WalkAt(srcI, dstI) == WalkStep(old(WalkAt(srcI, dstI)), buffer.Length, factor)
      ensures full <==> old(dstI) + 1 == buffer.Length
      ensures full ==> block == old(buffer[..dstI]) + [x] && buffer[..dstI] == [] && srcI == factor
      ensures !full ==> buffer[..dstI] == old(buffer[..dstI]) + [x] && srcI == old(srcI) + factor
    {
      full, block := Store(x);
      srcI := srcI + factor;
    }

    /** `blocks` is what the callback is called with. */
    method Feed(src: seq<T>, samplingRate: nat) returns (blocks: seq<seq<T>>)
      requires Valid() && OneBlockAtMost(|src|, buffer.Length, factor)
      modifies this, buffer
      ensures Valid() && factor == old(factor) && inputSamplingRate == samplingRate
      ensures var start := if samplingRate == old(inputSamplingRate) then old(Abstract()) else Collected([], 0);
              (Abstract(), blocks) == AfterFeed(start, src, buffer.Length, factor)
    {
      hide Every, Exit, OneBlockAtMost, Rest, WalkStep, AfterFeed;
      SetInputSamplingRate(samplingRate);
      ghost var start, n, f := Abstract(), buffer.Length, factor;
      ghost var first, rewound := Rest(start.samples, src, start.offset, f), Rest([], src, f, f);
      RewoundRest(src, n, f);
      blocks := [];
      while srcI < |src|
        invariant Valid() && factor == f && inputSamplingRate == samplingRate
        invariant blocks == [] ==> Rest(buffer[..dstI], src, srcI, f) == first
        invariant blocks != [] ==> Rest(buffer[..dstI], src, srcI, f) == rewound
        invariant blocks != [] ==> |first.samples| >= n && blocks == [first.samples[..n]]
        decreases if blocks == [] then 1 else 0, |src| - srcI
      {
        OneMore(buffer[..dstI], src, srcI, f);
        var full, block := TakeSample(src[srcI]);
        if full {
          blocks := blocks + [block];
        }
      }
      FeedResult(start, src, n, f, blocks, buffer[..dstI], srcI);
      srcI := srcI - |src|;
    }
  }

  /** What a walk from position `s` will have collected, and where the next feed is entered, if no
  block is completed on the way. */
  function Rest<T>(collected: seq<T>, src: seq<T>, s: nat, f: nat): Collected<T>
    requires f >= 1
  {
    Collected(collected + Every(src, s, f), Exit(s, |src|, f))
  }

  lemma RewoundRest<T>(src: seq<T>, n: nat, f: nat)
    requires f >= 1 && n >= 1 && OneBlockAtMost(|src|, n, f)
    ensures |Rest([], src, f, f).samples| < n
  {
    hide Every;
    RewoundFits(src, f, n);
  }

  lemma FeedResult<T>(start: Collected<T>, src: seq<T>, n: nat, f: nat, blocks: seq<seq<T>>, collected: seq<T>, s: nat)
    requires f >= 1 && |start.samples| < n && OneBlockAtMost(|src|, n, f)
    requires s >= |src| && |collected| < n
    requires blocks == [] ==> Rest(collected, src, s, f) == Rest(start.samples, src, start.offset, f)
    requires blocks != [] ==>
      && Rest(collected, src, s, f) == Rest([], src, f, f)
      && var all := Rest(start.samples, src, start.offset, f).samples;
         |all| >= n && blocks == [all[..n]]
    ensures AfterFeed(start, src, n, f) == (Collected(collected, s - |src|), blocks)
  {
    assert Rest(collected, src, s, f) == Collected(collected, s - |src|);
    hide Every, Exit, OneBlockAtMost;
    var taken := Every(src, start.offset, f);
    if blocks != [] {
      assert (start.samples + taken)[..n] == start.samples + taken[..n - |start.samples|];
      assert [] + Every(src, f, f) == Every(src, f, f);
    }
  }

  lemma OneMore<T>(before: seq<T>, src: seq<T>, s: nat, f: nat)
    requires f >= 1 && s < |src|
    ensures Rest(before, src, s, f) == Rest(before + [src[s]], src, s + f, f)
    ensures before + [src[s]] <= Rest(before, src, s, f).samples
    ensures Rest(before, src, s, f).samples[..|before| + 1] == before + [src[s]]
  {
    var rest := Every(src, s + f, f);
    assert Every(src, s, f) == [src[s]] + rest;
    hide Every;
    assert before + ([src[s]] + rest) == before + [src[s]] + rest;
  }

  // When the feed loop ends

  /** The two counters of the feed loop. */
  datatype Walk = WalkAt(srcI: nat, dstI: nat)

  /** One pass of the loop, on its counters: a full buffer resets both before the walk goes on. */
  function WalkStep(w: Walk, n: nat, f: nat): Walk {
    if w.dstI + 1 == n then WalkAt(f, 0) else WalkAt(w.srcI + f, w.dstI + 1)
  }

  predicate Ended(w: Walk, count: nat) { w.srcI >= count }

  /** The counters after at most `steps` passes over a feed of `count` samples. */
  function WalkAfter(w: Walk, count: nat, n: nat, f: nat, steps: nat): Walk
    decreases steps
  {
    if steps == 0 || Ended(w, count) then w else WalkAfter(WalkStep(w, n, f), count, n, f, steps - 1)
  }

  predicate EndsWithin(w: Walk, count: nat, n: nat, f: nat, steps: nat) {
    Ended(WalkAfter(w, count, n, f, steps), count)
  }

  /** The walk is never further than the samples in the buffer explain. */
  predicate InReach(w: Walk, n: nat, f: nat) { w.dstI < n && w.srcI <= Total(w.dstI + 1, f) }

  lemma {:induction false} EndlessWalk(w: Walk, count: nat, n: nat, f: nat, steps: nat)
    requires InReach(w, n, f) && !OneBlockAtMost(count, n, f)
    ensures !EndsWithin(w, count, n, f, steps)
    decreases steps
  {
    WithinBlock(w, n, f);
    if steps > 0 {
      StepInReach(w, n, f);
      EndlessWalk(WalkStep(w, n, f), count, n, f, steps - 1);
    }
  }

  lemma WithinBlock(w: Walk, n: nat, f: nat)
    requires InReach(w, n, f)
    ensures w.srcI <= n * f
  {
    Simd.ProductOrder(f, w.dstI + 1, n);
  }

  lemma StepInReach(w: Walk, n: nat, f: nat)
    requires InReach(w, n, f)
    ensures InReach(WalkStep(w, n, f), n, f)
  {
    OneMorePiece(w.dstI + 1, f);
    OneMorePiece(0, f);
    hide Total;
  }

  /** A walk that has come as far as the samples in the buffer ends without filling it. */
  lemma {:induction false} WalkEnds(w: Walk, count: nat, n: nat, f: nat)
    requires w.dstI < n && w.srcI >= Total(w.dstI + 1, f) && OneBlockAtMost(count, n, f)
    ensures EndsWithin(w, count, n, f, n - 1 - w.dstI)
    decreases n - w.dstI
  {
    if w.dstI + 1 < n && !Ended(w, count) {
      OneMorePiece(w.dstI + 1, f);
      WalkEnds(WalkStep(w, n, f), count, n, f);
    }
  }

  /** From any counters: until the buffer is full, then once more through the feed. */
  lemma {:induction false} WalkEndsFromAnywhere(w: Walk, count: nat, n: nat, f: nat) returns (steps: nat)
    requires w.dstI < n && OneBlockAtMost(count, n, f)
    ensures EndsWithin(w, count, n, f, steps)
    decreases n - w.dstI
  {
    if Ended(w, count) {
      steps := 0;
    } else if w.dstI + 1 == n {
      OneMorePiece(0, f);
      WalkEnds(WalkAt(f, 0), count, n, f);
      steps := n;
    } else {
      var rest := WalkEndsFromAnywhere(WalkStep(w, n, f), count, n, f);
      steps := rest + 1;
    }
  }

  /** The loop ends exactly on feeds that, walked from position f, cannot fill a second block; on
  a larger one no number of passes brings the walk to the end of the feed. */
  lemma FeedEndsExactlyWhenOneBlock(w: Walk, count: nat, n: nat, f: nat)
    requires w.dstI < n && w.srcI < f
    ensures (exists steps: nat :: EndsWithin(w, count, n, f, steps)) <==> OneBlockAtMost(count, n, f)
  {
    if OneBlockAtMost(count, n, f) {
      var steps := WalkEndsFromAnywhere(w, count, n, f);
      assert EndsWithin(w, count, n, f, steps);
    } else {
      assert InReach(w, n, f) by { OneMorePiece(w.dstI + 1, f); }
      forall steps: nat ensures !EndsWithin(w, count, n, f, steps) {
        EndlessWalk(w, count, n, f, steps);
      }
    }
  }

  /** Between feeds the walk stands below the factor, as it does after a reset. */
  lemma OffsetStaysBelowFactor<T>(c: Collected<T>, src: seq<T>, n: nat, f: nat)
    requires f >= 1 && |c.samples| < n && OneBlockAtMost(|src|, n, f) && c.offset < f
    ensures AfterFeed(c, src, n, f).0.offset < f
  {
    ExitBelow(c.offset, |src|, f);
    if f < |src| { ExitBelow(f, |src|, f); }
  }

  lemma {:induction false} ExitBelow(s: nat, count: nat, f: nat)
    requires f >= 1 && (s < f || s < count)
    ensures Exit(s, count, f) < f
    decreases count - s
  {
    if s < count && s + f < count {
      ExitBelow(s + f, count, f);
    }
  }

  // Factor 1, constant rate and feed size: the audio output

  lemma {:induction false} EveryFirst<T>(src: seq<T>, s: nat)
    requires s <= |src|
    ensures Every(src, s, 1) == src[s..] && Exit(s, |src|, 1) == 0
    decreases |src| - s
  {
    if s < |src| {
      EveryFirst(src, s + 1);
    }
  }

  /** With factor 1 a feed that completes a block starts the next one at its second sample. */
  lemma FeedWithFactorOne<T>(samples: seq<T>, src: seq<T>, n: nat)
    requires |samples| < n && 1 <= |src| <= n
    ensures OneBlockAtMost(|src|, n, 1)
    ensures AfterFeed(Collected(samples, 0), src, n, 1) ==
      if |samples| + |src| < n then (Collected(samples + src, 0), [])
      else (Collected(src[1..], 0), [samples + src[..n - |samples|]])
  {
    EveryFirst(src, 0);
    EveryFirst(src, 1);
    hide Every, Exit;
    assert src[0..] == src;
  }

  function Joined<T>(feeds: seq<seq<T>>): seq<T> {
    if feeds == [] then [] else Joined(feeds[..|feeds| - 1]) + feeds[|feeds| - 1]
  }

  /** Feeds of m samples each, one after the other. */
  ghost predicate Feeds<T>(feeds: seq<seq<T>>, m: nat) { forall i :: 0 <= i < |feeds| ==> |feeds[i]| == m }

  /** The state and all blocks after the feeds. */
  function Run<T>(feeds: seq<seq<T>>, n: nat, m: nat): (r: (Collected<T>, seq<seq<T>>))
    requires 1 <= m <= n && Feeds(feeds, m)
    ensures |r.0.samples| < n && r.0.offset == 0
  {
    if feeds == [] then (Collected([], 0), [])
    else
      var (c, blocks) := Run(feeds[..|feeds| - 1], n, m);
      var src := feeds[|feeds| - 1];
      FeedWithFactorOne(c.samples, src, n);
      var (c', more) := AfterFeed(c, src, n, 1);
      (c', blocks + more)
  }

  /** The length of `count` pieces of the given size. */
  function Total(count: nat, size: nat): nat { count * size }

  lemma OneMorePiece(count: nat, size: nat)
    ensures Total(count + 1, size) == Total(count, size) + size && Total(0, size) == 0
    ensures count >= 1 ==> Total(count, size) >= size
  {
    if count >= 1 {
      assert (count - 1) * size >= 0;
    }
  }

  /** Where in the stream block number i begins. */
  function BlockStart(i: nat, n: nat, m: nat): nat
    requires 1 <= m <= n
  {
    if i == 0 then 0 else OneMorePiece(i, n); Total(i, n) - m + 1
  }

  /** Every block is n samples of the stream, from its start on. */
  ghost predicate BlocksOf<T>(blocks: seq<seq<T>>, xs: seq<T>, n: nat, m: nat)
    requires 1 <= m <= n
  {
    forall i :: 0 <= i < |blocks| ==> IsBlock(blocks[i], xs, BlockStart(i, n, m), n)
  }

  ghost predicate IsBlock<T>(block: seq<T>, xs: seq<T>, start: nat, n: nat) {
    start + n <= |xs| && block == xs[start..start + n]
  }

  /** After b * q + r feeds of m == n / q samples: b blocks, and the samples from the start of the
  next block on. */
  ghost predicate InStep<T>(c: Collected<T>, blocks: seq<seq<T>>, xs: seq<T>, n: nat, m: nat, b: nat, r: nat)
    requires 1 <= m <= n
  {
    && |blocks| == b && BlocksOf(blocks, xs, n, m)
    && |xs| == Total(b, n) + Total(r, m) && Total(r, m) + m <= n
    && BlockStart(b, n, m) <= |xs| && c.samples == xs[BlockStart(b, n, m)..]
  }

  lemma StartAndEnd(b: nat, n: nat, m: nat)
    requires 1 <= m <= n
    ensures BlockStart(b, n, m) == if b == 0 then 0 else Total(b, n) - m + 1
    ensures BlockStart(b + 1, n, m) == Total(b, n) + n - m + 1
    ensures BlockStart(b, n, m) <= Total(b, n)
  {
    OneMorePiece(b, n);
    hide Total;
  }

  lemma BlocksOfLonger<T>(blocks: seq<seq<T>>, xs: seq<T>, src: seq<T>, n: nat, m: nat)
    requires 1 <= m <= n && BlocksOf(blocks, xs, n, m)
    ensures BlocksOf(blocks, xs + src, n, m)
  {
    hide BlockStart;
  }

  lemma OneMoreBlock<T>(blocks: seq<seq<T>>, block: seq<T>, xs: seq<T>, n: nat, m: nat)
    requires 1 <= m <= n && BlocksOf(blocks, xs, n, m)
    requires IsBlock(block, xs, BlockStart(|blocks|, n, m), n)
    ensures BlocksOf(blocks + [block], xs, n, m)
  {
    hide BlockStart, IsBlock;
  }

  /** One feed, in positions of the stream: `start` is where the unfinished block begins, `whole`
  where the whole blocks end in a stream that the feeds divide evenly. */
  lemma FeedInPositions<T>(c: Collected<T>, xs: seq<T>, src: seq<T>, n: nat, m: nat, start: nat, whole: nat)
    requires 1 <= m <= n && |src| == m && |c.samples| < n && c.offset == 0
    requires start <= whole <= |xs| && c.samples == xs[start..]
    requires start == whole == 0 || start == whole - m + 1
    requires |xs| + m == whole + n || |xs| + m + m <= whole + n
    ensures OneBlockAtMost(|src|, n, 1)
    ensures |xs| + m < whole + n ==> AfterFeed(c, src, n, 1) == (Collected((xs + src)[start..], 0), [])
    ensures |xs| + m == whole + n ==>
      && start + n <= |xs + src| && IsBlock((xs + src)[start..start + n], xs + src, start, n)
      && AfterFeed(c, src, n, 1) == (Collected((xs + src)[whole + n - m + 1..], 0), [(xs + src)[start..start + n]])
  {
    FeedWithFactorOne(c.samples, src, n);
    hide AfterFeed;
    var all := xs + src;
    assert all[start..] == c.samples + src;
    if |xs| + m == whole + n {
      assert all[start..start + n] == c.samples + src[..n - |c.samples|];
      assert all[whole + n - m + 1..] == src[1..];
    }
  }

  lemma FeedWithinBlock<T>(c: Collected<T>, blocks: seq<seq<T>>, xs: seq<T>, src: seq<T>, n: nat, m: nat, b: nat, r: nat)
    requires 1 <= m <= n && |src| == m && |c.samples| < n && c.offset == 0
    requires InStep(c, blocks, xs, n, m, b, r) && Total(r + 1, m) + m <= n
    ensures OneBlockAtMost(|src|, n, 1)
    ensures var c' := Collected((xs + src)[BlockStart(b, n, m)..], 0);
            && AfterFeed(c, src, n, 1) == (c', []) && |c'.samples| < n
            && InStep(c', blocks, xs + src, n, m, b, r + 1)
  {
    OneMorePiece(r, m);
    OneMorePiece(b, n);
    hide Total;
    StartAndEnd(b, n, m);
    hide BlockStart, BlocksOf, IsBlock, AfterFeed, OneBlockAtMost;
    FeedInPositions(c, xs, src, n, m, BlockStart(b, n, m), Total(b, n));
    BlocksOfLonger(blocks, xs, src, n, m);
  }

  lemma FeedEndsBlock<T>(c: Collected<T>, blocks: seq<seq<T>>, xs: seq<T>, src: seq<T>, n: nat, m: nat, b: nat, r: nat)
    requires 1 <= m <= n && |src| == m && |c.samples| < n && c.offset == 0
    requires InStep(c, blocks, xs, n, m, b, r) && Total(r, m) + m == n
    ensures OneBlockAtMost(|src|, n, 1)
    ensures var start, next := BlockStart(b, n, m), BlockStart(b + 1, n, m);
            && start + n <= |xs + src| && next <= |xs + src|
            && var c', block := Collected((xs + src)[next..], 0), (xs + src)[start..start + n];
            AfterFeed(c, src, n, 1) == (c', [block]) && InStep(c', blocks + [block], xs + src, n, m, b + 1, 0)
  {
    OneMorePiece(b, n);
    OneMorePiece(0, m);
    hide Total;
    StartAndEnd(b, n, m);
    hide BlockStart, BlocksOf, IsBlock, AfterFeed, OneBlockAtMost;
    var start := BlockStart(b, n, m);
    FeedInPositions(c, xs, src, n, m, start, Total(b, n));
    BlocksOfLonger(blocks, xs, src, n, m);
    OneMoreBlock(blocks, (xs + src)[start..start + n], xs + src, n, m);
  }

  lemma FeedStaysInStep<T>(c: Collected<T>, blocks: seq<seq<T>>, xs: seq<T>, src: seq<T>, n: nat, m: nat, b: nat, r: nat)
    requires 1 <= m <= n && |src| == m && |c.samples| < n && c.offset == 0
    requires InStep(c, blocks, xs, n, m, b, r)
    requires Total(r, m) + m < n ==> Total(r + 1, m) + m <= n
    ensures OneBlockAtMost(|src|, n, 1)
    ensures var (c', more) := AfterFeed(c, src, n, 1);
            if Total(r, m) + m < n then InStep(c', blocks + more, xs + src, n, m, b, r + 1)
            else InStep(c', blocks + more, xs + src, n, m, b + 1, 0)
  {
    assert Total(r, m) + m <= n;
    hide *;
    if Total(r, m) + m < n {
      FeedWithinBlock(c, blocks, xs, src, n, m, b, r);
      assert blocks + [] == blocks;
    } else {
      FeedEndsBlock(c, blocks, xs, src, n, m, b, r);
    }
  }

  /** So many groups of q feeds, and so many feeds more. */
  function WholeGroups(t: nat, q: nat): nat
    requires q >= 1
  {
    t / q
  }

  function FeedsLeft(t: nat, q: nat): nat
    requires q >= 1
  {
    t % q
  }

  /** The blocks of any number of feeds: block number i is the stream from `BlockStart(i)` on. */
  lemma {:induction false} BlocksOfStream<T>(feeds: seq<seq<T>>, n: nat, m: nat, q: nat)
    requires 1 <= m <= n && q >= 1 && n == Total(q, m)
    requires Feeds(feeds, m)
    ensures InStep(Run(feeds, n, m).0, Run(feeds, n, m).1, Joined(feeds), n, m, WholeGroups(|feeds|, q), FeedsLeft(|feeds|, q))
  {
    hide Total;
    if feeds == [] {
      Decimation.UniqueQuotient(0, q, 0, 0);
      OneMorePiece(0, m);
      OneMorePiece(0, n);
    } else {
      var before, src := feeds[..|feeds| - 1], feeds[|feeds| - 1];
      BlocksOfStream(before, n, m, q);
      CountFeeds(|before|, q);
      var b, r := |before| / q, |before| % q;
      RemainderFits(r, q, m);
      var (c, blocks) := Run(before, n, m);
      var xs := Joined(before);
      FeedStaysInStep(c, blocks, xs, src, n, m, b, r);
      hide InStep, AfterFeed;
    }
  }

  lemma CountFeeds(t: nat, q: nat)
    requires q >= 1
    ensures if t % q + 1 < q then (t + 1) / q == t / q && (t + 1) % q == t % q + 1 else (t + 1) / q == t / q + 1 && (t + 1) % q == 0
  {
    assert t == q * (t / q) + t % q;
    if t % q + 1 < q {
      Decimation.UniqueQuotient(t + 1, q, t / q, t % q + 1);
    } else {
      assert q * (t / q + 1) == q * (t / q) + q;
      Decimation.UniqueQuotient(t + 1, q, t / q + 1, 0);
    }
  }

  lemma RemainderFits(r: nat, q: nat, m: nat)
    requires r < q && m >= 1
    ensures Total(r, m) + m <= Total(q, m)
    ensures r + 1 < q <==> Total(r, m) + m < Total(q, m)
    ensures r + 1 < q ==> Total(r + 1, m) + m <= Total(q, m)
  {
    hide Total;
    MorePieces(r, q, m);
    OneMorePiece(r, m);
    if r + 1 < q {
      MorePieces(r + 1, q, m);
    }
  }

  lemma {:induction false} MorePieces(a: nat, b: nat, size: nat)
    requires a < b
    ensures Total(a, size) + size <= Total(b, size)
  {
    OneMorePiece(b - 1, size);
    hide Total;
    if a < b - 1 {
      MorePieces(a, b - 1, size);
    }
  }

  lemma NextBlock<T>(blocks: seq<seq<T>>, xs: seq<T>, n: nat, m: nat, k: nat)
    requires 1 <= m <= n && BlocksOf(blocks, xs, n, m) && 1 <= k <= |blocks|
    ensures var start := BlockStart(k - 1, n, m);
            if k == 1 then start == 0 && BlockStart(k, n, m) == n - m + 1 <= |xs|
            else BlockStart(k, n, m) == start + n <= |xs| && blocks[k - 1] == xs[start..start + n]
  {
    StartAndEnd(k - 1, n, m);
    StartAndEnd(k, n, m);
    OneMorePiece(k - 1, n);
    OneMorePiece(0, n);
    hide Total, BlockStart;
    assert IsBlock(blocks[k - 1], xs, BlockStart(k - 1, n, m), n);
  }

  lemma JoinedOneMore<T>(blocks: seq<seq<T>>, k: nat)
    requires 2 <= k <= |blocks|
    ensures Joined(blocks[1..k]) == Joined(blocks[1..k - 1]) + blocks[k - 1]
  {
    assert blocks[1..k][..k - 2] == blocks[1..k - 1];
  }

  /** From the second block on, the blocks are consecutive pieces of the stream: no gap, no repeat. */
  lemma {:induction false} ConsecutiveFromSecondBlock<T>(blocks: seq<seq<T>>, xs: seq<T>, n: nat, m: nat, k: nat)
    requires 1 <= m <= n && BlocksOf(blocks, xs, n, m) && 1 <= k <= |blocks|
    ensures n - m + 1 <= BlockStart(k, n, m) <= |xs|
    ensures Joined(blocks[1..k]) == xs[n - m + 1..BlockStart(k, n, m)]
  {
    NextBlock(blocks, xs, n, m, k);
    if k > 1 {
      hide *;
      ConsecutiveFromSecondBlock(blocks, xs, n, m, k - 1);
      JoinedOneMore(blocks, k);
      var mid := BlockStart(k - 1, n, m);
      assert xs[n - m + 1..mid] + xs[mid..mid + n] == xs[n - m + 1..mid + n];
    }
  }

  lemma {:induction false} JoinedFromFirst<T>(blocks: seq<seq<T>>)
    requires blocks != []
    ensures Joined(blocks) == blocks[0] + Joined(blocks[1..])
  {
    var k := |blocks| - 1;
    if k > 0 {
      JoinedFromFirst(blocks[..k]);
      assert blocks[1..][..k - 1] == blocks[..k][1..];
    }
  }

  /** The second block begins with the last m - 1 samples of the first: they come out twice. */
  lemma SecondBlockRepeats<T>(blocks: seq<seq<T>>, xs: seq<T>, n: nat, m: nat)
    requires 1 <= m <= n && BlocksOf(blocks, xs, n, m) && |blocks| >= 2
    ensures |blocks[0]| == |blocks[1]| == n && blocks[0][n - m + 1..] == blocks[1][..m - 1]
  {
    StartAndEnd(0, n, m);
    assert IsBlock(blocks[0], xs, 0, n) && IsBlock(blocks[1], xs, n - m + 1, n);
  }

  ghost predicate Distinct<T>(xs: seq<T>) { forall i, j :: 0 <= i < j < |xs| ==> xs[i] != xs[j] }

  /** The blocks are the stream itself, from its very beginning, exactly when samples are fed one
  by one; shown on any stream whose samples can be told apart. */
  lemma FaithfulExactlyWhenFedSingly<T>(feeds: seq<seq<T>>, n: nat, m: nat, q: nat)
    requires 1 <= m <= n && q >= 1 && n == Total(q, m)
    requires Feeds(feeds, m) && |feeds| / q >= 2 && Distinct(Joined(feeds))
    ensures Joined(Run(feeds, n, m).1) <= Joined(feeds) <==> m == 1
  {
    BlocksOfStream(feeds, n, m, q);
    JoinedBlocks(Run(feeds, n, m).1, Joined(feeds), n, m);
    hide *;
    var blocks, xs := Run(feeds, n, m).1, Joined(feeds);
    RepeatedSample(xs, Joined(blocks), n, m, BlockStart(|blocks|, n, m));
  }

  lemma JoinedBlocks<T>(blocks: seq<seq<T>>, xs: seq<T>, n: nat, m: nat)
    requires 1 <= m <= n && BlocksOf(blocks, xs, n, m) && |blocks| >= 2
    ensures 2 * n - m + 1 <= BlockStart(|blocks|, n, m) <= |xs|
    ensures Joined(blocks) == xs[..n] + xs[n - m + 1..BlockStart(|blocks|, n, m)]
  {
    hide *;
    FirstStarts(|blocks|, n, m);
    FirstBlock(blocks, xs, n, m);
    ConsecutiveFromSecondBlock(blocks, xs, n, m, |blocks|);
    JoinedFromFirst(blocks);
    assert blocks[1..|blocks|] == blocks[1..];
  }

  lemma FirstBlock<T>(blocks: seq<seq<T>>, xs: seq<T>, n: nat, m: nat)
    requires 1 <= m <= n && BlocksOf(blocks, xs, n, m) && |blocks| >= 1
    ensures n <= |xs| && blocks[0] == xs[..n]
  {
    hide Total;
    assert IsBlock(blocks[0], xs, BlockStart(0, n, m), n);
  }

  lemma FirstStarts(k: nat, n: nat, m: nat)
    requires 1 <= m <= n && k >= 2
    ensures BlockStart(0, n, m) == 0 && BlockStart(k, n, m) >= 2 * n - m + 1
  {
    StartAndEnd(k - 1, n, m);
    OneMorePiece(k - 1, n);
    hide Total;
  }

  lemma RepeatedSample<T>(xs: seq<T>, joined: seq<T>, n: nat, m: nat, e: nat)
    requires 1 <= m <= n < e <= |xs| && Distinct(xs)
    requires joined == xs[..n] + xs[n - m + 1..e]
    ensures joined <= xs <==> m == 1
  {
    if m == 1 {
      assert joined == xs[..e];
    } else {
      assert joined[n] == xs[n - m + 1] != xs[n];
    }
  }
}
