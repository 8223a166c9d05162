/** Where the resampler puts its outputs, and which way the timing correction pushes. */
module ClockRecoveryTiming {

  import opened ClockRecovery
  import opened ClockRecoveryTheorems
  import opened Wrappers

  // The sign of the correction

  /** The two outputs before the first tick, older first, and the outputs of the ticks. */
  function Outputs(d: Detector, ticks: seq<Tick>): (xs: seq<real>)
    ensures |xs| == |ticks| + 2
  {
    [d.t1, d.t0] + seq(|ticks|, j requires 0 <= j < |ticks| => ticks[j].output)
  }

  /** A symbol adds w to the next step if (newest - third) * middle is negative, and takes it away otherwise. */
  predicate IsTimedBy(tick: Tick, third: real, middle: real, newest: real, w: real) {
    tick.symbol.Some? ==> tick.adjustment == if Lean(third, middle, newest) < 0.0 then w else -w
  }

  function Lean(third: real, middle: real, newest: real): real { (newest - third) * middle }

  ghost predicate AreTimed(d: Detector, ticks: seq<Tick>, w: real) {
    forall j :: 0 <= j < |ticks| ==>
      IsTimedBy(ticks[j], Outputs(d, ticks)[j], Outputs(d, ticks)[j + 1], Outputs(d, ticks)[j + 2], w)
  }

  lemma OneIsTimed(s: Loop, x: real, w: real)
    ensures var (s1, tick) := OneTick(s, x, w);
            && IsTimedBy(tick, s.detector.t1, s.detector.t0, tick.output, w)
            && s1.detector.t1 == s.detector.t0 && s1.detector.t0 == tick.output
  {
    hide StepTime, Share;
  }

  /** The detector after some ticks, as far as the outputs go. */
  function After(d: Detector, ticks: seq<Tick>): Detector {
    var xs := Outputs(d, ticks);
    d.(t1 := xs[|ticks|], t0 := xs[|ticks| + 1])
  }

  predicate SameOutputs(d: Detector, e: Detector) { d.t0 == e.t0 && d.t1 == e.t1 }

  lemma TimedConcat(d: Detector, a: seq<Tick>, e: Detector, b: seq<Tick>, w: real)
    requires AreTimed(d, a, w) && AreTimed(e, b, w) && SameOutputs(e, After(d, a))
    ensures AreTimed(d, a + b, w) && SameOutputs(After(e, b), After(d, a + b))
  {
    hide IsTimedBy;
    OutputsConcat(d, a, e, b);
    forall j | 0 <= j < |a + b|
      ensures IsTimedBy((a + b)[j], Outputs(d, a + b)[j], Outputs(d, a + b)[j + 1], Outputs(d, a + b)[j + 2], w)
    {
      if j >= |a| { assert (a + b)[j] == b[j - |a|]; }
    }
  }

  lemma OutputsConcat(d: Detector, a: seq<Tick>, e: Detector, b: seq<Tick>)
    requires SameOutputs(e, After(d, a))
    ensures forall j :: 0 <= j < |a| + 2 ==> Outputs(d, a + b)[j] == Outputs(d, a)[j]
    ensures forall j :: |a| <= j < |a + b| + 2 ==> Outputs(d, a + b)[j] == Outputs(e, b)[j - |a|]
  {
  }

  lemma {:induction false} TimedWithinOneInput(s: Loop, x: real, w: real)
    requires s.Ready(w)
    ensures var (s', ticks) := Ticks(s, x, w);
            AreTimed(s.detector, ticks, w) && SameOutputs(s'.detector, After(s.detector, ticks))
    decreases Due(s.phase, s.increment, w)
  {
    if s.phase < 1.0 {
      TickFacts(s, x, w);
      OneIsTimed(s, x, w);
      hide Due, Ticks, OneTick, IsTimedBy;
      var (s1, tick) := OneTick(s, x, w);
      TimedWithinOneInput(s1, x, w);
      assert AreTimed(s.detector, [tick], w) && SameOutputs(s1.detector, After(s.detector, [tick]));
      hide AreTimed, After, SameOutputs;
      TimedConcat(s.detector, [tick], s1.detector, Ticks(s1, x, w).1, w);
      SameTwice(Ticks(s1, x, w).0.detector, After(s1.detector, Ticks(s1, x, w).1), After(s.detector, [tick] + Ticks(s1, x, w).1));
    }
  }

  lemma SameTwice(c: Detector, d: Detector, e: Detector)
    requires SameOutputs(c, d) && SameOutputs(d, e)
    ensures SameOutputs(c, e)
  {
  }

  lemma {:induction false} TimedOverRun(s: Loop, xs: seq<real>, w: real)
    requires s.Ready(w)
    ensures AreTimed(s.detector, Flatten(Run(s, xs, w).1), w)
    decreases |xs|
  {
    if xs != [] {
      TicksReady(s, xs[0], w);
      TimedWithinOneInput(s, xs[0], w);
      hide Due, Ticks, AreTimed, After;
      var (s1, ticks) := Ticks(s, xs[0], w);
      TimedOverRun(s1, xs[1..], w);
      var rest := Run(s1, xs[1..], w).1;
      assert Run(s, xs, w).1 == [ticks] + rest;
      hide Run;
      assert ([ticks] + rest)[1..] == rest;
      TimedConcat(s.detector, ticks, s1.detector, Flatten(rest), w);
    }
  }

  /** In any run, from the third output on, every symbol is corrected by its own output and the two
  before it. */
  lemma SymbolsAreTimed(s: Loop, xs: seq<real>, w: real, j: nat)
    requires s.Ready(w) && 2 <= j < |Flatten(Run(s, xs, w).1)|
    ensures var ticks := Flatten(Run(s, xs, w).1);
            IsTimedBy(ticks[j], ticks[j - 2].output, ticks[j - 1].output, ticks[j].output, w)
  {
    TimedOverRun(s, xs, w);
    var ticks := Flatten(Run(s, xs, w).1);
    hide Run, Flatten, IsTimedBy;
    var xs' := Outputs(s.detector, ticks);
    assert xs'[j] == ticks[j - 2].output && xs'[j + 1] == ticks[j - 1].output && xs'[j + 2] == ticks[j].output;
  }

  /** The signal m * (t - crossing). */
  function Straight(m: real, t: real, crossing: real): real { m * (t - crossing) }

  /** Three outputs of a straight signal, at the times a, b and e: if the middle one lies after the
  crossing the next step is shorter by w of an output period, and if it lies before it is longer. */
  lemma CorrectsTowardsCrossing(s: Loop, x: real, w: real, m: real, a: real, b: real, e: real, crossing: real)
    requires w > 0.0 && m != 0.0 && a < b < e && s.detector.AtSymbol()
    requires s.detector.t1 == Straight(m, a, crossing) && s.detector.t0 == Straight(m, b, crossing)
    requires OneTick(s, x, w).1.output == Straight(m, e, crossing)
    ensures var step := OneTick(s, x, w).0.phase - s.phase;
            && (b > crossing ==> step == s.increment - w * s.increment)
            && (b < crossing ==> step == s.increment + w * s.increment)
  {
    OneIsTimed(s, x, w);
    StraightLean(m, a, b, e, crossing);
    StepOfTick(s, x, w);
    NegatedStep(w, s.increment);
    hide OneTick, Lean, Straight;
  }

  lemma NegatedStep(w: real, increment: real)
    ensures -w * increment == -(w * increment)
  {
  }

  lemma StepOfTick(s: Loop, x: real, w: real)
    ensures var (s1, tick) := OneTick(s, x, w); s1.phase - s.phase == tick.adjustment * s.increment + s.increment
    ensures s.detector.AtSymbol() ==> OneTick(s, x, w).1.symbol.Some?
  {
    hide Share, Adjustment;
  }

  lemma StraightLean(m: real, a: real, b: real, e: real, crossing: real)
    requires m != 0.0 && a < e
    ensures var lean := Lean(Straight(m, a, crossing), Straight(m, b, crossing), Straight(m, e, crossing));
            (b > crossing ==> lean > 0.0) && (b < crossing ==> lean < 0.0)
  {
    var span := Straight(m, e, crossing) - Straight(m, a, crossing);
    assert span == m * (e - a);
    SignOfProduct(m, e - a);
    SignOfProduct(m, b - crossing);
    SignOfProduct(span, Straight(m, b, crossing));
  }

  lemma SignOfProduct(x: real, y: real)
    ensures (x > 0.0 && y > 0.0) || (x < 0.0 && y < 0.0) ==> x * y > 0.0
    ensures (x > 0.0 && y < 0.0) || (x < 0.0 && y > 0.0) ==> x * y < 0.0
  {
    if x > 0.0 && y > 0.0 {
      PositiveProduct(x, y);
    } else if x < 0.0 && y < 0.0 {
      PositiveProduct(-x, -y);
    } else if x > 0.0 && y < 0.0 {
      PositiveProduct(x, -y);
    } else if x < 0.0 && y > 0.0 {
      PositiveProduct(-x, y);
    }
  }

  lemma PositiveProduct(x: real, y: real)
    requires x > 0.0 && y > 0.0
    ensures x * y > 0.0
  {
  }

  // A straight signal is reproduced

  function Slope(m: real, t: real): real { m * t }

  /** The time of tick j: the phase and the steps before it. */
  function TimeOf(ticks: seq<Tick>, j: nat, phase: real, increment: real): real
    requires j <= |ticks|
  {
    phase + Elapsed(ticks[..j], increment)
  }

  predicate IsOnLine(tick: Tick, start: real, m: real, t: real) { tick.output == start + Slope(m, t) }

  ghost predicate OnLine(ticks: seq<Tick>, start: real, m: real, phase: real, increment: real) {
    forall j :: 0 <= j < |ticks| ==> IsOnLine(ticks[j], start, m, TimeOf(ticks, j, phase, increment))
  }

  lemma TimeOfConcat(a: seq<Tick>, b: seq<Tick>, j: nat, phase: real, increment: real)
    requires j <= |a| + |b|
    ensures TimeOf(a + b, j, phase, increment)
         == if j < |a| then TimeOf(a, j, phase, increment) else TimeOf(b, j - |a|, phase + Elapsed(a, increment), increment)
  {
    hide Elapsed;
    if j < |a| {
      assert (a + b)[..j] == a[..j];
    } else {
      assert (a + b)[..j] == a + b[..j - |a|];
      ElapsedConcat(a, b[..j - |a|], increment);
    }
  }

  lemma OnLineConcat(a: seq<Tick>, b: seq<Tick>, start: real, m: real, phase: real, increment: real)
    requires OnLine(a, start, m, phase, increment)
    requires OnLine(b, start, m, phase + Elapsed(a, increment), increment)
    ensures OnLine(a + b, start, m, phase, increment)
  {
    hide Elapsed, TimeOf, IsOnLine;
    forall j | 0 <= j < |a + b| ensures IsOnLine((a + b)[j], start, m, TimeOf(a + b, j, phase, increment)) {
      TimeOfConcat(a, b, j, phase, increment);
      assert (a + b)[j] == if j < |a| then a[j] else b[j - |a|];
    }
  }

  lemma OneOnLine(s: Loop, x: real, w: real)
    ensures var tick := OneTick(s, x, w).1;
            && OnLine([tick], s.last, x - s.last, s.phase, s.increment)
            && Elapsed([tick], s.increment) == StepTime(s.increment, tick.adjustment)
  {
    var tick := OneTick(s, x, w).1;
    assert [tick][..0] == [] && [tick][1..] == [];
    hide StepTime;
  }

  lemma {:induction false} StraightWithinOneInput(s: Loop, x: real, w: real)
    requires s.Ready(w)
    ensures OnLine(Ticks(s, x, w).1, s.last, x - s.last, s.phase, s.increment)
    decreases Due(s.phase, s.increment, w)
  {
    if s.phase < 1.0 {
      TickFacts(s, x, w);
      OneOnLine(s, x, w);
      hide Due, Ticks, OneTick, OnLine, StepTime;
      var (s1, tick) := OneTick(s, x, w);
      StraightWithinOneInput(s1, x, w);
      OnLineConcat([tick], Ticks(s1, x, w).1, s.last, x - s.last, s.phase, s.increment);
    }
  }

  /** The inputs continue the straight line on which the previous input lies. */
  predicate IsStraight(last: real, xs: seq<real>, m: real)
    decreases |xs|
  {
    xs == [] || (xs[0] == last + m && IsStraight(xs[0], xs[1..], m))
  }

  /** A straight signal is reproduced exactly: every output, at any rate and under any corrections, is
  the value of the line at the time of the output. */
  lemma {:induction false} StraightSignalIsReproduced(s: Loop, xs: seq<real>, w: real, m: real)
    requires s.Ready(w) && IsStraight(s.last, xs, m)
    ensures OnLine(Flatten(Run(s, xs, w).1), s.last, m, s.phase, s.increment)
    decreases |xs|
  {
    if xs != [] {
      TicksReady(s, xs[0], w);
      StraightWithinOneInput(s, xs[0], w);
      TimeWithinOneInput(s, xs[0], w);
      hide Due, Ticks, OnLine;
      var (s1, ticks) := Ticks(s, xs[0], w);
      StraightSignalIsReproduced(s1, xs[1..], w, m);
      var rest := Run(s1, xs[1..], w).1;
      assert Run(s, xs, w).1 == [ticks] + rest;
      hide Run;
      assert ([ticks] + rest)[1..] == rest;
      SameLine(Flatten(rest), s.last, m, s1.phase, s.increment);
      OnLineConcat(ticks, Flatten(rest), s.last, m, s.phase, s.increment);
    }
  }

  /** One input later the line is the same. */
  lemma SameLine(ticks: seq<Tick>, start: real, m: real, phase: real, increment: real)
    requires OnLine(ticks, start + m, m, phase, increment)
    ensures OnLine(ticks, start, m, phase + 1.0, increment)
  {
    hide Elapsed;
    hide Slope;
    forall j | 0 <= j < |ticks| ensures IsOnLine(ticks[j], start, m, TimeOf(ticks, j, phase + 1.0, increment)) {
      OneLater(m, TimeOf(ticks, j, phase, increment));
    }
  }

  lemma OneLater(m: real, t: real)
    ensures Slope(m, t + 1.0) == m + Slope(m, t)
  {
  }
}
