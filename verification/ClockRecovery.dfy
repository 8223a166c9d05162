/** The symbol timing loop: a linear resampler, a timing error detector and a fixed correction.

Samples are real numbers here.  The resampler produces two outputs per symbol; `phase` is the
time of the next output after the previous input, in input periods.
 */
module ClockRecovery {

  import opened Wrappers

  function Abs(x: real): real { if x < 0.0 then -x else x }

  // Specification of the loop

  /** What one output of the resampler led to. */
  datatype Tick = Tick(output: real, symbol: Option<real>, adjustment: real)

  /** The three latest outputs are t0, t1 and t2, newest first. */
  datatype Detector = Detector(t0: real, t1: real, t2: real, symbolPhase: nat) {
    function Fed(x: real): Detector { Detector(x, t0, t1, (symbolPhase + 1) % 2) }

    /** The detector looks at every second output only. */
    predicate AtSymbol() { symbolPhase == 0 }

    /** How far the middle output is off the middle between two symbols, once `x` has come in. */
    function Lateness(x: real): real { (x - t1) * t0 }
  }

  datatype Loop = Loop(last: real, phase: real, increment: real, detector: Detector) {
    predicate Ready(w: real) { increment > 0.0 && Abs(w) < 1.0 }

    /** The next output is after the previous input, and not more than one output period away. */
    predicate InRange(w: real) { 0.0 <= phase < LongestStep(increment, w) }
  }

  /** The time from one output to the next, after an adjustment. */
  function StepTime(increment: real, adjustment: real): real { adjustment * increment + increment }

  function LongestStep(increment: real, w: real): real { increment * (1.0 + Abs(w)) }

  function ShortestStep(increment: real, w: real): real { increment * (1.0 - Abs(w)) }

  function Adjustment(w: real, lateness: real): (a: real)
    ensures -Abs(w) <= a <= Abs(w)
  {
    if lateness < 0.0 then w else -w
  }

  function Share(fraction: real, delta: real): real { fraction * delta }

  /** One output between the previous input and `sample`. */
  function OneTick(s: Loop, sample: real, w: real): (Loop, Tick) {
    var output := s.last + Share(s.phase, sample - s.last);
    var symbol := s.detector.AtSymbol();
    var adjustment := if symbol then Adjustment(w, s.detector.Lateness(output)) else 0.0;
    (s.(phase := s.phase + StepTime(s.increment, adjustment), detector := s.detector.Fed(output)),
     Tick(output, if symbol then Some(output) else None, adjustment))
  }

  /** A bound on the number of outputs still due before the next input. */
  function Due(phase: real, increment: real, w: real): (n: nat)
    requires increment > 0.0 && Abs(w) < 1.0
  {
    if phase >= 1.0 then 0 else
      StepBounds(increment, w, 0.0);
      FloorOfQuotient(1.0 - phase, ShortestStep(increment, w));
      ((1.0 - phase) / ShortestStep(increment, w)).Floor + 1
  }

  lemma FloorOfQuotient(a: real, b: real)
    requires a >= 0.0 && b > 0.0
    ensures (a / b).Floor >= 0
  {
    assert a / b >= 0.0;
  }

  /** The correction changes the step by less than the whole step. */
  lemma StepBounds(increment: real, w: real, a: real)
    requires increment > 0.0 && Abs(w) < 1.0 && -Abs(w) <= a <= Abs(w)
    ensures 0.0 < ShortestStep(increment, w) <= StepTime(increment, a) <= LongestStep(increment, w)
  {
    assert (a + Abs(w)) * increment >= 0.0;
    assert (Abs(w) - a) * increment >= 0.0;
    assert increment * (1.0 - Abs(w)) > 0.0;
  }

  lemma DueFalls(phase: real, increment: real, w: real, a: real)
    requires phase < 1.0 && increment > 0.0 && Abs(w) < 1.0 && -Abs(w) <= a <= Abs(w)
    ensures Due(phase + StepTime(increment, a), increment, w) < Due(phase, increment, w)
  {
    StepBounds(increment, w, a);
    hide StepTime, ShortestStep, LongestStep;
    if phase + StepTime(increment, a) < 1.0 {
      QuotientFalls(1.0 - phase, StepTime(increment, a), ShortestStep(increment, w));
    }
  }

  lemma QuotientFalls(a: real, step: real, b: real)
    requires b > 0.0 && step >= b && a >= step
    ensures ((a - step) / b).Floor < (a / b).Floor
  {
    var q, q' := a / b, (a - step) / b;
    assert q * b == a && q' * b == a - step;
    assert (q - q' - 1.0) * b >= 0.0;
    SignOfFactor(q - q' - 1.0, b);
  }

  lemma SignOfFactor(x: real, b: real)
    requires b > 0.0
    ensures x < 0.0 ==> x * b < 0.0
  {
  }

  /** All outputs between the previous input and `sample`; then `sample` becomes the previous input. */
  function Ticks(s: Loop, sample: real, w: real): (Loop, seq<Tick>)
    requires s.Ready(w)
    decreases Due(s.phase, s.increment, w)
  {
    if s.phase < 1.0 then
      var (s1, tick) := OneTick(s, sample, w);
      DueFalls(s.phase, s.increment, w, tick.adjustment);
      var (s2, rest) := Ticks(s1, sample, w);
      (s2, [tick] + rest)
    else
      (s.(last := sample, phase := s.phase - 1.0), [])
  }

  // The loop as the source runs it

  class LinearResampler {
    var lastSample: real
    var phase: real
    var phaseIncrement: real

    constructor ()
      ensures lastSample == 0.0 && phase == 0.0 && phaseIncrement == 0.0
    {
      lastSample, phase, phaseIncrement := 0.0, 0.0, 0.0;
    }

    method Configure(inputRate: real, outputRate: real)
      requires outputRate != 0.0
      modifies this
      ensures phaseIncrement == inputRate / outputRate && phase == old(phase) && lastSample == old(lastSample)
    {
      phaseIncrement := inputRate / outputRate;
    }

    method Advance(fraction: real)
      modifies this
      ensures phase == old(phase) + fraction * phaseIncrement
      ensures phaseIncrement == old(phaseIncrement) && lastSample == old(lastSample)
    {
      phase := phase + fraction * phaseIncrement;
    }
  }

  class GardnerTimingErrorDetector {
    var t0: real
    var t1: real
    var t2: real
    var symbolPhase: nat

    constructor ()
      ensures Abstract() == Detector(0.0, 0.0, 0.0, 0)
    {
      t0, t1, t2, symbolPhase := 0.0, 0.0, 0.0, 0;
    }

    ghost function Abstract(): Detector
      reads this
    {
      Detector(t0, t1, t2, symbolPhase)
    }

    /** The symbol and its lateness, if `x` falls on a symbol. */
    method Feed(x: real) returns (symbol: Option<(real, real)>)
      modifies this
      ensures Abstract() == old(Abstract()).Fed(x)
      ensures symbol == if old(Abstract()).AtSymbol() then Some((x, old(Abstract()).Lateness(x))) else None
    {
      t2 := t1;
      t1 := t0;
      t0 := x;
      symbol := None;
      if symbolPhase == 0 {
        var lateness := (t0 - t2) * t1;
        assert lateness == old(Abstract()).Lateness(x);
        symbol := Some((t0, lateness));
      }
      symbolPhase := (symbolPhase + 1) % 2;
    }
  }

  class Recovery {
    const resampler: LinearResampler
    const timingErrorDetector: GardnerTimingErrorDetector
    const weight: real

    constructor (samplingRate: real, symbolRate: real, weight: real)
      requires samplingRate > 0.0 && symbolRate > 0.0 && Abs(weight) < 1.0
      ensures fresh(resampler) && fresh(timingErrorDetector) && this.weight == weight
      ensures Abstract() == Loop(0.0, 0.0, samplingRate / (symbolRate * 2.0), Detector(0.0, 0.0, 0.0, 0))
      ensures Abstract().Ready(weight)
    {
      this.weight := weight;
      resampler := new LinearResampler();
      timingErrorDetector := new GardnerTimingErrorDetector();
      new;
      resampler.Configure(samplingRate, symbolRate * 2.0);
      PositiveQuotient(samplingRate, symbolRate * 2.0);
    }

    ghost function Abstract(): Loop
      reads resampler, timingErrorDetector
    {
      Loop(resampler.lastSample, resampler.phase, resampler.phaseIncrement, timingErrorDetector.Abstract())
    }

    /** What happens to one output of the resampler. */
    method Callback(output: real) returns (symbol: Option<real>, ghost adjustment: real)
      modifies resampler, timingErrorDetector
      ensures timingErrorDetector.Abstract() == old(timingErrorDetector.Abstract()).Fed(output)
      ensures symbol == if old(timingErrorDetector.Abstract()).AtSymbol() then Some(output) else None
      ensures adjustment == if symbol.Some? then Adjustment(weight, old(timingErrorDetector.Abstract()).Lateness(output)) else 0.0
      ensures resampler.phase == old(resampler.phase) + adjustment * resampler.phaseIncrement
      ensures resampler.phaseIncrement == old(resampler.phaseIncrement) && resampler.lastSample == old(resampler.lastSample)
    {
      var at := timingErrorDetector.Feed(output);
      match at {
        case None =>
          symbol, adjustment := None, 0.0;
        case Some((value, lateness)) =>
          symbol, adjustment := Some(value), Adjustment(weight, lateness);
          resampler.Advance(if lateness < 0.0 then weight else -weight);
      }
    }

    /** The body of the resampler's loop. */
    method OneOutput(sample: real, delta: real) returns (symbol: Option<real>, ghost tick: Tick)
      requires delta == sample - Abstract().last
      modifies resampler, timingErrorDetector
      ensures (Abstract(), tick) == OneTick(old(Abstract()), sample, weight)
      ensures symbol == tick.symbol
    {
      ghost var before := Abstract();
      var value := resampler.lastSample + resampler.phase * delta;
      assert value == OneTick(before, sample, weight).1.output;
      ghost var adjustment;
      symbol, adjustment := Callback(value);
      assert adjustment == OneTick(before, sample, weight).1.adjustment;
      resampler.phase := resampler.phase + resampler.phaseIncrement;
      tick := Tick(value, symbol, adjustment);
      assert Abstract().phase == OneTick(before, sample, weight).0.phase;
      assert Abstract().detector == OneTick(before, sample, weight).0.detector;
    }

    /** One input sample; `symbols` is what the symbol handler is called with. */
    method Process(sample: real) returns (symbols: seq<real>, ghost ticks: seq<Tick>)
      requires Abstract().Ready(weight)
      modifies resampler, timingErrorDetector
      ensures (Abstract(), ticks) == Ticks(old(Abstract()), sample, weight)
      ensures symbols == Symbols(ticks)
    {
      hide Due, Symbols, OneTick, Ticks, TicksAfter;
      ghost var start := Abstract();
      var delta := sample - resampler.lastSample;
      symbols, ticks := [], [];
      NoTickYet(start, sample, weight);
      while resampler.phase < 1.0
        invariant Abstract().Ready(weight) && delta == sample - Abstract().last
        invariant symbols == Symbols(ticks)
        invariant Ticks(start, sample, weight) == TicksAfter(ticks, Abstract(), sample, weight)
        decreases Due(resampler.phase, resampler.phaseIncrement, weight)
      {
        NextTick(ticks, Abstract(), sample, weight);
        var symbol, tick := OneOutput(sample, delta);
        SymbolsSnoc(ticks, tick);
        ticks := ticks + [tick];
        if symbol.Some? {
          symbols := symbols + [symbol.value];
        }
      }
      LastTick(ticks, Abstract(), sample, weight);
      resampler.lastSample := sample;
      resampler.phase := resampler.phase - 1.0;
    }
  }

  /** The outputs so far, followed by those still due from the present state. */
  ghost function TicksAfter(ticks: seq<Tick>, s: Loop, sample: real, w: real): (Loop, seq<Tick>)
    requires s.Ready(w)
  {
    (Ticks(s, sample, w).0, ticks + Ticks(s, sample, w).1)
  }

  lemma NoTickYet(s: Loop, sample: real, w: real)
    requires s.Ready(w)
    ensures Symbols([]) == [] && TicksAfter([], s, sample, w) == Ticks(s, sample, w)
  {
    hide Ticks;
    assert [] + Ticks(s, sample, w).1 == Ticks(s, sample, w).1;
  }

  lemma LastTick(ticks: seq<Tick>, s: Loop, sample: real, w: real)
    requires s.Ready(w) && s.phase >= 1.0
    ensures TicksAfter(ticks, s, sample, w) == (s.(last := sample, phase := s.phase - 1.0), ticks)
  {
    assert ticks + [] == ticks;
  }

  lemma NextTick(ticks: seq<Tick>, s: Loop, sample: real, w: real)
    requires s.Ready(w) && s.phase < 1.0
    ensures var (s1, tick) := OneTick(s, sample, w);
            && s1.Ready(w) && s1.last == s.last
            && Due(s1.phase, s1.increment, w) < Due(s.phase, s.increment, w)
            && TicksAfter(ticks, s, sample, w) == TicksAfter(ticks + [tick], s1, sample, w)
  {
    TickFacts(s, sample, w);
    hide OneTick, Ticks, Due, StepTime;
    var (s1, tick) := OneTick(s, sample, w);
    var rest := Ticks(s1, sample, w).1;
    assert ticks + ([tick] + rest) == ticks + [tick] + rest;
  }

  lemma TickFacts(s: Loop, sample: real, w: real)
    requires s.Ready(w) && s.phase < 1.0
    ensures var (s1, tick) := OneTick(s, sample, w);
            && s1.increment == s.increment && s1.Ready(w) && s1.last == s.last
            && s1.phase == s.phase + StepTime(s.increment, tick.adjustment)
            && -Abs(w) <= tick.adjustment <= Abs(w)
            && Due(s1.phase, s1.increment, w) < Due(s.phase, s.increment, w)
            && Ticks(s, sample, w) == (Ticks(s1, sample, w).0, [tick] + Ticks(s1, sample, w).1)
  {
    DueFalls(s.phase, s.increment, w, OneTick(s, sample, w).1.adjustment);
    hide StepTime;
  }

  lemma PositiveQuotient(a: real, b: real)
    requires a > 0.0 && b > 0.0
    ensures a / b > 0.0
  {
  }

  function SymbolOf(tick: Tick): seq<real> { if tick.symbol.Some? then [tick.symbol.value] else [] }

  function Symbols(ticks: seq<Tick>): seq<real> {
    if ticks == [] then [] else SymbolOf(ticks[0]) + Symbols(ticks[1..])
  }

  lemma {:induction false} SymbolsConcat(a: seq<Tick>, b: seq<Tick>)
    ensures Symbols(a + b) == Symbols(a) + Symbols(b)
  {
    hide SymbolOf;
    if a == [] {
      assert a + b == b;
    } else {
      assert (a + b)[1..] == a[1..] + b && (a + b)[0] == a[0];
      assert Symbols(a + b) == SymbolOf(a[0]) + Symbols(a[1..] + b);
      assert Symbols(a) == SymbolOf(a[0]) + Symbols(a[1..]);
      hide Symbols;
      SymbolsConcat(a[1..], b);
    }
  }

  lemma SymbolsSnoc(ticks: seq<Tick>, tick: Tick)
    ensures Symbols(ticks + [tick]) == Symbols(ticks) + SymbolOf(tick)
  {
    SymbolsConcat(ticks, [tick]);
    assert [tick][1..] == [];
  }
}
