/** What the symbol timing loop conserves over whole runs. */
module ClockRecoveryTheorems {

  import opened ClockRecovery
  import opened Wrappers

  /** The ticks of a whole stream of input samples, one list per sample. */
  function Run(s: Loop, xs: seq<real>, w: real): (r: (Loop, seq<seq<Tick>>))
    requires s.Ready(w)
    ensures |r.1| == |xs|
    decreases |xs|
  {
    if xs == [] then (s, [])
    else
      var (s1, ticks) := Ticks(s, xs[0], w);
      TicksReady(s, xs[0], w);
      var (s2, rest) := Run(s1, xs[1..], w);
      (s2, [ticks] + rest)
  }

  lemma {:induction false} TicksReady(s: Loop, x: real, w: real)
    requires s.Ready(w)
    ensures var s' := Ticks(s, x, w).0; s'.increment == s.increment && s'.Ready(w) && s'.last == x
    decreases Due(s.phase, s.increment, w)
  {
    if s.phase < 1.0 {
      TickFacts(s, x, w);
      hide Due, Ticks, OneTick;
      TicksReady(OneTick(s, x, w).0, x, w);
    }
  }

  // Conservation of time

  function Adjustments(ticks: seq<Tick>): real {
    if ticks == [] then 0.0 else ticks[0].adjustment + Adjustments(ticks[1..])
  }

  /** The time that the ticks take, in input periods. */
  function Elapsed(ticks: seq<Tick>, increment: real): real {
    if ticks == [] then 0.0 else StepTime(increment, ticks[0].adjustment) + Elapsed(ticks[1..], increment)
  }

  function Flatten(tss: seq<seq<Tick>>): seq<Tick> {
    if tss == [] then [] else tss[0] + Flatten(tss[1..])
  }

  lemma {:induction false} ElapsedConcat(a: seq<Tick>, b: seq<Tick>, increment: real)
    ensures Elapsed(a + b, increment) == Elapsed(a, increment) + Elapsed(b, increment)
  {
    hide StepTime;
    if a == [] {
      assert a + b == b;
    } else {
      assert (a + b)[1..] == a[1..] + b;
      ElapsedConcat(a[1..], b, increment);
    }
  }

  /** As many output periods as there are ticks, plus all adjustments, which are in output periods. */
  function OutputTime(ticks: seq<Tick>, increment: real): real {
    PeriodTime(increment, |ticks| as real + Adjustments(ticks))
  }

  function PeriodTime(increment: real, periods: real): real { increment * periods }

  lemma {:induction false} ElapsedTotal(ticks: seq<Tick>, increment: real)
    ensures Elapsed(ticks, increment) == OutputTime(ticks, increment)
  {
    if ticks == [] {
      assert increment * 0.0 == 0.0;
    } else {
      ElapsedTotal(ticks[1..], increment);
      OneMoreTick(increment, |ticks[1..]| as real, Adjustments(ticks[1..]), ticks[0].adjustment);
    }
  }

  lemma OneMoreTick(increment: real, n: real, total: real, a: real)
    ensures increment * ((n + 1.0) + (a + total)) == StepTime(increment, a) + increment * (n + total)
  {
  }

  lemma {:induction false} TimeWithinOneInput(s: Loop, x: real, w: real)
    requires s.Ready(w)
    ensures var (s', ticks) := Ticks(s, x, w); s'.phase == s.phase + Elapsed(ticks, s.increment) - 1.0
    decreases Due(s.phase, s.increment, w)
  {
    if s.phase < 1.0 {
      TickFacts(s, x, w);
      hide Due, Ticks, OneTick, StepTime;
      var (s1, tick) := OneTick(s, x, w);
      TimeWithinOneInput(s1, x, w);
      var rest := Ticks(s1, x, w).1;
      assert ([tick] + rest)[1..] == rest;
    }
  }

  lemma {:induction false} TimeOverRun(s: Loop, xs: seq<real>, w: real)
    requires s.Ready(w)
    ensures var (s', tss) := Run(s, xs, w);
            s'.increment == s.increment && s'.Ready(w) &&
            s'.phase == s.phase + Elapsed(Flatten(tss), s.increment) - |xs| as real
    decreases |xs|
  {
    if xs != [] {
      TicksReady(s, xs[0], w);
      TimeWithinOneInput(s, xs[0], w);
      hide Due, Ticks;
      var (s1, ticks) := Ticks(s, xs[0], w);
      TimeOverRun(s1, xs[1..], w);
      var rest := Run(s1, xs[1..], w).1;
      assert Run(s, xs, w) == (Run(s1, xs[1..], w).0, [ticks] + rest);
      hide Run;
      assert ([ticks] + rest)[1..] == rest;
      ElapsedConcat(ticks, Flatten(rest), s.increment);
    }
  }

  /** Every output period, corrections included, is accounted for by input periods and phase. */
  lemma TimeIsConserved(s: Loop, xs: seq<real>, w: real)
    requires s.Ready(w)
    ensures var (s', tss) := Run(s, xs, w);
            s'.phase == s.phase + OutputTime(Flatten(tss), s.increment) - |xs| as real
  {
    TimeOverRun(s, xs, w);
    ElapsedTotal(Flatten(Run(s, xs, w).1), s.increment);
    hide *;
  }

  // Phase and interpolation

  predicate Between(a: real, x: real, b: real) { a <= x <= b || b <= x <= a }

  /** Outputs within one input: the phase only grows, by at most one corrected step at a time. */
  lemma {:induction false} RangeWithinOneInput(s: Loop, x: real, w: real)
    requires s.Ready(w) && 0.0 <= s.phase < 1.0 + LongestStep(s.increment, w)
    ensures Ticks(s, x, w).0.InRange(w)
    ensures forall t :: t in Ticks(s, x, w).1 ==> Between(s.last, t.output, x)
    decreases Due(s.phase, s.increment, w)
  {
    if s.phase < 1.0 {
      TickFacts(s, x, w);
      var (s1, tick) := OneTick(s, x, w);
      OutputBetween(s, x, w);
      hide Between, Due, Ticks, OneTick, StepTime, LongestStep, ShortestStep;
      StepBounds(s.increment, w, tick.adjustment);
      RangeWithinOneInput(s1, x, w);
    }
  }

  lemma OutputBetween(s: Loop, x: real, w: real)
    requires 0.0 <= s.phase < 1.0
    ensures Between(s.last, OneTick(s, x, w).1.output, x)
  {
    hide Share;
    ShareOfDelta(s.phase, x - s.last);
  }

  lemma ShareOfDelta(t: real, d: real)
    requires 0.0 <= t < 1.0
    ensures if d >= 0.0 then 0.0 <= Share(t, d) <= d else d <= Share(t, d) <= 0.0
  {
    if d >= 0.0 {
      NonNegative(t, d);
      NonNegative(1.0 - t, d);
      assert (1.0 - t) * d == d - t * d;
    } else {
      NonNegative(t, -d);
      NonNegative(1.0 - t, -d);
      assert t * -d == -(t * d) && (1.0 - t) * -d == t * d - d;
    }
  }

  lemma NonNegative(x: real, y: real)
    requires x >= 0.0 && y >= 0.0
    ensures x * y >= 0.0
  {
  }

  /** The input before number `i`. */
  function Previous(s: Loop, xs: seq<real>, i: nat): real
    requires i < |xs|
  {
    if i == 0 then s.last else xs[i - 1]
  }

  /** Between inputs the phase stays in range, and every output lies between the two inputs
  around it. */
  lemma {:induction false} OutputsLieBetweenInputs(s: Loop, xs: seq<real>, w: real)
    requires s.Ready(w) && s.InRange(w)
    ensures Run(s, xs, w).0.InRange(w)
    ensures forall i, t :: 0 <= i < |xs| && t in Run(s, xs, w).1[i] ==> Between(Previous(s, xs, i), t.output, xs[i])
    decreases |xs|
  {
    if xs != [] {
      TicksReady(s, xs[0], w);
      RangeWithinOneInput(s, xs[0], w);
      hide Due, Ticks;
      var (s1, ticks) := Ticks(s, xs[0], w);
      OutputsLieBetweenInputs(s1, xs[1..], w);
      var rest := Run(s1, xs[1..], w);
      assert Run(s, xs, w) == (rest.0, [ticks] + rest.1);
      hide Run, Between;
      forall i, t | 0 <= i < |xs| && t in ([ticks] + rest.1)[i] ensures Between(Previous(s, xs, i), t.output, xs[i]) {
        if i > 0 {
          assert Previous(s1, xs[1..], i - 1) == Previous(s, xs, i) && xs[1..][i - 1] == xs[i];
        }
      }
    }
  }

  // Symbols

  /** A symbol is the output itself and may bring an adjustment; other outputs bring none. */
  predicate IsRegular(tick: Tick, symbol: bool, w: real) {
    if symbol then tick.symbol == Some(tick.output) && -Abs(w) <= tick.adjustment <= Abs(w)
    else tick.symbol == None && tick.adjustment == 0.0
  }

  /** Output number j is a symbol exactly when j + p is even, and only symbols bring adjustments. */
  predicate EverySecond(ticks: seq<Tick>, p: nat, w: real) {
    forall j :: 0 <= j < |ticks| ==> IsRegular(ticks[j], (p + j) % 2 == 0, w)
  }

  lemma Parity(a: nat, b: nat)
    ensures (a % 2 + b) % 2 == (a + b) % 2
  {
  }

  lemma EverySecondConcat(a: seq<Tick>, b: seq<Tick>, p: nat, w: real)
    requires EverySecond(a, p, w) && EverySecond(b, (p + |a|) % 2, w)
    ensures EverySecond(a + b, p, w)
  {
    hide IsRegular;
    forall j | 0 <= j < |a + b| ensures IsRegular((a + b)[j], (p + j) % 2 == 0, w) {
      if j >= |a| {
        Parity(p + |a|, j - |a|);
        assert IsRegular(b[j - |a|], ((p + |a|) % 2 + (j - |a|)) % 2 == 0, w);
      }
    }
  }

  lemma OneTickIsRegular(s: Loop, x: real, w: real)
    requires s.detector.symbolPhase < 2
    ensures var (s1, tick) := OneTick(s, x, w);
            EverySecond([tick], s.detector.symbolPhase, w) && s1.detector.symbolPhase == (s.detector.symbolPhase + 1) % 2
  {
    hide StepTime, Share;
  }

  lemma {:induction false} SymbolsWithinOneInput(s: Loop, x: real, w: real)
    requires s.Ready(w) && s.detector.symbolPhase < 2
    ensures var (s', ticks) := Ticks(s, x, w);
            EverySecond(ticks, s.detector.symbolPhase, w) && s'.detector.symbolPhase == (s.detector.symbolPhase + |ticks|) % 2
    decreases Due(s.phase, s.increment, w)
  {
    if s.phase < 1.0 {
      TickFacts(s, x, w);
      OneTickIsRegular(s, x, w);
      hide *;
      var (s1, tick) := OneTick(s, x, w);
      SymbolsWithinOneInput(s1, x, w);
      var rest := Ticks(s1, x, w).1;
      EverySecondConcat([tick], rest, s.detector.symbolPhase, w);
      Parity(s.detector.symbolPhase + 1, |rest|);
    }
  }

  /** The symbols of any run are exactly every second output, across all input samples. */
  lemma {:induction false} SymbolsAreEverySecondOutput(s: Loop, xs: seq<real>, w: real)
    requires s.Ready(w) && s.detector.symbolPhase < 2
    ensures EverySecond(Flatten(Run(s, xs, w).1), s.detector.symbolPhase, w)
    decreases |xs|
  {
    if xs != [] {
      TicksReady(s, xs[0], w);
      SymbolsWithinOneInput(s, xs[0], w);
      hide Due, Ticks, EverySecond;
      var (s1, ticks) := Ticks(s, xs[0], w);
      SymbolsAreEverySecondOutput(s1, xs[1..], w);
      var rest := Run(s1, xs[1..], w).1;
      assert Run(s, xs, w).1 == [ticks] + rest;
      hide Run;
      assert ([ticks] + rest)[1..] == rest;
      EverySecondConcat(ticks, Flatten(rest), s.detector.symbolPhase, w);
    }
  }

  function Weighted(w: real, n: nat): real { Abs(w) * n as real }

  lemma WeightedOneMore(w: real, n: nat)
    ensures Weighted(w, n + 1) == Weighted(w, n) + Abs(w)
  {
  }

  lemma {:induction false} CountSymbols(ticks: seq<Tick>, p: nat, w: real)
    requires p < 2 && EverySecond(ticks, p, w)
    ensures |Symbols(ticks)| == (|ticks| + 1 - p) / 2
    ensures -Weighted(w, |Symbols(ticks)|) <= Adjustments(ticks) <= Weighted(w, |Symbols(ticks)|)
  {
    if ticks == [] {
      assert Weighted(w, 0) == 0.0;
    } else {
      var rest := ticks[1..];
      forall j | 0 <= j < |rest| ensures rest[j] == ticks[j + 1] && ((1 - p) + j) % 2 == (p + (j + 1)) % 2 {
      }
      CountSymbols(rest, 1 - p, w);
      WeightedOneMore(w, |Symbols(rest)|);
      hide Weighted;
      assert ticks[0].symbol.Some? <==> (p + 0) % 2 == 0;
    }
  }

  /** The time of n symbols, at so many output periods per symbol. */
  function SymbolTime(increment: real, perSymbol: real, n: nat): real { increment * perSymbol * n as real }

  /** The number of symbols is bounded from both sides by the number of input samples: a symbol
  takes two output periods, give or take one adjustment. */
  lemma SymbolRate(s: Loop, xs: seq<real>, w: real)
    requires s.Ready(w) && s.InRange(w) && s.detector.symbolPhase == 0
    ensures var n := |Symbols(Flatten(Run(s, xs, w).1))|;
            && |xs| as real - s.phase <= SymbolTime(s.increment, 2.0 + Abs(w), n)
            && SymbolTime(s.increment, 2.0 - Abs(w), n) < |xs| as real - s.phase + SymbolTime(s.increment, 2.0 + Abs(w), 1)
  {
    var ticks := Flatten(Run(s, xs, w).1);
    SymbolsAreEverySecondOutput(s, xs, w);
    CountSymbols(ticks, 0, w);
    TimeIsConserved(s, xs, w);
    OutputsLieBetweenInputs(s, xs, w);
    TimeOverRun(s, xs, w);
    SymbolTimeBounds(s.increment, ticks, w);
    hide Run, Flatten, Symbols, Adjustments, EverySecond, SymbolTime, OutputTime, LongestStep;
  }

  lemma SymbolTimeBounds(increment: real, ticks: seq<Tick>, w: real)
    requires increment > 0.0 && Abs(w) < 1.0 && EverySecond(ticks, 0, w)
    ensures var n := |Symbols(ticks)|;
            && OutputTime(ticks, increment) <= SymbolTime(increment, 2.0 + Abs(w), n)
            && SymbolTime(increment, 2.0 - Abs(w), n) + LongestStep(increment, w)
               <= OutputTime(ticks, increment) + SymbolTime(increment, 2.0 + Abs(w), 1)
  {
    CountSymbols(ticks, 0, w);
    SymbolTimeArithmetic(increment, |ticks|, |Symbols(ticks)|, Adjustments(ticks), w);
    hide PeriodTime, SymbolTime, LongestStep, Weighted, Symbols, Adjustments, EverySecond;
  }

  lemma SymbolTimeArithmetic(increment: real, ticks: nat, n: nat, total: real, w: real)
    requires increment > 0.0 && Abs(w) < 1.0
    requires n == (ticks + 1) / 2
    requires -Weighted(w, n) <= total <= Weighted(w, n)
    ensures PeriodTime(increment, ticks as real + total) <= SymbolTime(increment, 2.0 + Abs(w), n)
    ensures SymbolTime(increment, 2.0 - Abs(w), n) + LongestStep(increment, w)
            <= PeriodTime(increment, ticks as real + total) + SymbolTime(increment, 2.0 + Abs(w), 1)
  {
    var m := Abs(w);
    hide Abs;
    var nn := n as real;
    Scale(increment, ticks as real + total, 2.0 * nn + m * nn);
    Scale(increment, 2.0 * nn - 1.0 - m * nn, ticks as real + total);
    assert increment * (2.0 * nn + m * nn) == increment * (2.0 + m) * nn;
    assert increment * (2.0 * nn - 1.0 - m * nn) == increment * (2.0 - m) * nn - increment;
    assert increment * (2.0 + m) == increment * (1.0 + m) + increment;
  }

  lemma Scale(increment: real, a: real, b: real)
    requires increment > 0.0 && a <= b
    ensures increment * a <= increment * b
  {
    NonNegative(increment, b - a);
    assert increment * (b - a) == increment * b - increment * a;
  }
}
