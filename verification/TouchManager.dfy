/** The moving average of touch coordinates, and the protocol of touch events. */
module TouchManager {

  import opened TouchCalibration
  import opened Wrappers

  type Sample = x: int | 0 <= x < 0x1_0000

  const N := 3
  const STABLE_BOUND := 8

  // Specification of a filter: the samples fed since the last reset

  /** The newest three samples, oldest first, with zeros before the first one. */
  function Window(fed: seq<Sample>): (w: seq<Sample>)
    ensures |w| == N
  {
    ([0, 0, 0] + fed)[|fed|..]
  }

  function Sum(w: seq<Sample>): nat
    requires |w| == N
  {
    w[0] as int + w[1] + w[2]
  }

  function Mean(fed: seq<Sample>): Sample { Sum(Window(fed)) / N }

  /** Three samples have been fed since the reset, and no two of the newest three are `bound` apart. */
  predicate Stable(fed: seq<Sample>, bound: nat) {
    |fed| >= N && forall x, y :: x in Window(fed) && y in Window(fed) ==> x - y < bound
  }

  lemma WindowShifts(fed: seq<Sample>, value: Sample)
    ensures Window(fed + [value]) == Window(fed)[1..] + [value]
  {
    assert [0, 0, 0] + (fed + [value]) == ([0, 0, 0] + fed) + [value];
  }

  lemma WindowIsTail(fed: seq<Sample>)
    requires |fed| >= N
    ensures Window(fed) == fed[|fed| - N..]
  {
  }

  /** The slots from `n` on, read around the end, are the window. */
  predicate Rotated(slots: seq<Sample>, n: nat, w: seq<Sample>) {
    |slots| == |w| == N && n < N && forall i :: 0 <= i < N ==> slots[if n + i < N then n + i else n + i - N] == w[i]
  }

  lemma RotatedOneMore(slots: seq<Sample>, n: nat, w: seq<Sample>, value: Sample)
    requires Rotated(slots, n, w)
    ensures slots[n] == w[0]
    ensures Rotated(slots[n := value], (n + 1) % N, w[1..] + [value])
  {
    assert slots[if n + 0 < N then n + 0 else n + 0 - N] == w[0];
    assert slots[if n + 1 < N then n + 1 else n + 1 - N] == w[1];
    assert slots[if n + 2 < N then n + 2 else n + 2 - N] == w[2];
  }

  lemma ReplacedInSum(w: seq<Sample>, value: Sample)
    requires |w| == N
    ensures Sum(w[1..] + [value]) == Sum(w) + value - w[0]
  {
  }

  class Filter {
    var history: array<Sample>
    var historyHistory: bv32
    var accumulator: int
    var n: nat
    ghost var fed: seq<Sample>

    /** The slots hold the window, and the running sum is its sum. */
    ghost predicate Valid()
      reads this, history
    {
      && history.Length == N
      && n < N
      && Rotated(history[..], n, Window(fed))
      && accumulator == Sum(Window(fed))
      && Marks(historyHistory, |fed|)
    }

    constructor ()
      ensures Valid() && fresh(history) && fed == []
    {
      history := new Sample[N](i => 0);
      historyHistory, accumulator, n, fed := 0, 0, 0, [];
    }

    method Reset()
      requires Valid()
      modifies this, history
      ensures Valid() && history == old(history) && fed == []
    {
      forall i | 0 <= i < N {
        history[i] := 0;
      }
      historyHistory, accumulator, n, fed := 0, 0, 0, [];
    }

    method Feed(value: Sample)
      requires Valid()
      modifies this, history
      ensures Valid() && history == old(history) && fed == old(fed) + [value]
    {
      WindowShifts(fed, value);
      MarksOneMore(historyHistory, |fed|);
      RotatedOneMore(history[..], n, Window(fed), value);
      ReplacedInSum(Window(fed), value);
      hide Window, Marks, Marked, Rotated, Sum;
      ghost var slots := history[..];
      accumulator := accumulator + value - history[n];
      history[n] := value;
      assert history[..] == slots[n := value];
      n := (n + 1) % N;
      historyHistory := Marked(historyHistory);
      fed := fed + [value];
    }

    method Value() returns (mean: Sample)
      requires Valid()
      ensures mean == Mean(fed)
    {
      mean := accumulator / N;
    }

    method IsStable(bound: nat) returns (stable: bool)
      requires Valid()
      ensures stable == Stable(fed, bound)
    {
      if historyHistory & 7 != 7 {
        return false;
      }
      var min, max := history[0], history[0];
      var i := 1;
      while i < history.Length
        invariant 1 <= i <= N
        invariant min in history[..i] && max in history[..i]
        invariant forall j :: 0 <= j < i ==> min <= history[j] <= max
      {
        if history[i] < min {
          min := history[i];
        }
        if history[i] > max {
          max := history[i];
        }
        i := i + 1;
      }
      SameElements();
      assert min in history[..] && max in history[..];
      stable := max - min < bound;
    }

    lemma SameElements()
      requires Valid()
      ensures forall x :: x in history[..] <==> x in Window(fed)
    {
      var w := Window(fed);
      assert w == [w[0], w[1], w[2]];
      assert history[..] == [history[0], history[1], history[2]];
      var slots := history[..];
      assert slots[if n + 0 < N then n + 0 else n + 0 - N] == w[0];
      assert slots[if n + 1 < N then n + 1 else n + 1 - N] == w[1];
      assert slots[if n + 2 < N then n + 2 else n + 2 - N] == w[2];
    }
  }

  /** One mark per feed since the reset; the lowest three tell whether there were three. */
  predicate Marks(h: bv32, count: nat) {
    if count == 0 then h == 0 else if count == 1 then h == 1 else if count == 2 then h == 3 else h & 7 == 7
  }

  function Marked(h: bv32): bv32 { (h << 1) | 1 }

  lemma MarksOneMore(h: bv32, count: nat)
    requires Marks(h, count)
    ensures Marks(Marked(h), count + 1)
  {
    assert h & 7 == 7 || h == 3 ==> ((h << 1) | 1) & 7 == 7;
  }

  // Touch events

  datatype State = NoTouch | TouchDetected

  /** `pressure` says whether the measured resistance is below the threshold; `x` and `y` are the
  normalised coordinates, scaled to 1024 and converted to a sample. */
  datatype Frame = Frame(touch: bool, pressure: bool, x: Sample, y: Sample) {
    predicate Pressed() { touch && pressure }
  }

  datatype EventType = Start | Move | End

  datatype Event = Event(point: Point, kind: EventType)

  /** The manager's state, with the samples fed to each filter since its last reset. */
  datatype Touch = Touch(state: State, xs: seq<Sample>, ys: seq<Sample>) {
    function Fed(f: Frame): Touch {
      if !f.touch then this.(xs := [], ys := [])
      else if f.pressure then this.(xs := xs + [f.x], ys := ys + [f.y])
      else this
    }

    predicate PointStable() { Stable(xs, STABLE_BOUND) && Stable(ys, STABLE_BOUND) }

    function FilteredPoint(c: Calibration): Point
      requires c.k != 0
    {
      Translate(c, Point(Mean(xs), Mean(ys)))
    }
  }

  const IDLE := Touch(NoTouch, [], [])

  /** One frame: the next state, and the event it fires, if any. */
  function Step(t: Touch, f: Frame, c: Calibration): (Touch, seq<Event>)
    requires c.k != 0
  {
    var fed := t.Fed(f);
    if t.state.NoTouch? then
      if f.Pressed() && fed.PointStable() then
        (fed.(state := TouchDetected), [Event(fed.FilteredPoint(c), Start)])
      else
        (fed, [])
    else
      if f.Pressed() then (fed, [Event(fed.FilteredPoint(c), Move)])
      else (fed.(state := NoTouch), [Event(fed.FilteredPoint(c), End)])
  }

  class Manager {
    const filterX: Filter
    const filterY: Filter
    var state: State

    ghost predicate Valid()
      reads this, filterX, filterY, filterX.history, filterY.history
    {
      filterX != filterY && filterX.history != filterY.history && filterX.Valid() && filterY.Valid()
    }

    ghost function Abstract(): Touch
      reads this, filterX, filterY
    {
      Touch(state, filterX.fed, filterY.fed)
    }

    constructor ()
      ensures Valid() && Abstract() == IDLE
      ensures fresh(filterX) && fresh(filterY) && fresh(filterX.history) && fresh(filterY.history)
    {
      filterX := new Filter();
      filterY := new Filter();
      state := NoTouch;
    }

    method FilteredPoint(c: Calibration) returns (p: Point)
      requires Valid() && c.k != 0
      ensures p == Abstract().FilteredPoint(c)
    {
      var x := filterX.Value();
      var y := filterY.Value();
      p := Translate(c, Point(x, y));
    }

    method PointStable() returns (stable: bool)
      requires Valid()
      ensures stable == Abstract().PointStable()
    {
      stable := filterX.IsStable(STABLE_BOUND);
      if stable {
        stable := filterY.IsStable(STABLE_BOUND);
      }
    }

    method FeedFilters(frame: Frame)
      requires Valid()
      modifies filterX, filterY, filterX.history, filterY.history
      ensures Valid() && filterX.history == old(filterX.history) && filterY.history == old(filterY.history)
      ensures Abstract() == old(Abstract()).Fed(frame)
    {
      if frame.touch {
        if frame.pressure {
          filterX.Feed(frame.x);
          filterY.Feed(frame.y);
        }
      } else {
        filterX.Reset();
        filterY.Reset();
      }
    }

    /** `fired` is what the event callback is called with. */
    method Feed(frame: Frame, c: Calibration) returns (fired: seq<Event>)
      requires Valid() && c.k != 0
      modifies this, filterX, filterY, filterX.history, filterY.history
      ensures Valid() && filterX.history == old(filterX.history) && filterY.history == old(filterY.history)
      ensures (Abstract(), fired) == Step(old(Abstract()), frame, c)
    {
      hide Translate, Stable, Mean, Filter.Valid;
      FeedFilters(frame);
      fired := [];
      match state {
        case NoTouch =>
          if frame.touch && frame.pressure {
            var stable := PointStable();
            if stable {
              state := TouchDetected;
              var point := FilteredPoint(c);
              fired := [Event(point, Start)];
            }
          }
        case TouchDetected =>
          var point := FilteredPoint(c);
          if frame.touch && frame.pressure {
            fired := [Event(point, Move)];
          } else {
            state := NoTouch;
            fired := [Event(point, End)];
          }
      }
    }
  }

  // Whole runs

  function Run(t: Touch, fs: seq<Frame>, c: Calibration): (Touch, seq<Event>)
    requires c.k != 0
    decreases |fs|
  {
    if fs == [] then (t, [])
    else
      var (t1, es1) := Step(t, fs[0], c);
      var (t2, es2) := Run(t1, fs[1..], c);
      (t2, es1 + es2)
  }

  /** A stroke is a Start, any number of Moves and an End; `open` says whether one is under way
  before the events, and the result whether one is after them. */
  function Strokes(open: bool, es: seq<Event>): (after: Option<bool>)
    decreases |es|
  {
    if es == [] then Some(open)
    else match es[0].kind
      case Start => if open then None else Strokes(true, es[1..])
      case Move => if open then Strokes(true, es[1..]) else None
      case End => if open then Strokes(false, es[1..]) else None
  }

  /** The events of any run are whole strokes, and at most one stroke is left open. */
  lemma {:induction false} EventsAreStrokes(t: Touch, fs: seq<Frame>, c: Calibration)
    requires c.k != 0
    ensures Strokes(t.state.TouchDetected?, Run(t, fs, c).1) == Some(Run(t, fs, c).0.state.TouchDetected?)
    decreases |fs|
  {
    hide Touch.FilteredPoint, Touch.PointStable;
    if fs != [] {
      var (t1, es1) := Step(t, fs[0], c);
      var (t2, es2) := Run(t1, fs[1..], c);
      EventsAreStrokes(t1, fs[1..], c);
      if es1 == [] {
        assert es1 + es2 == es2;
      } else {
        assert (es1 + es2)[0] == es1[0] && (es1 + es2)[1..] == es2;
      }
    }
  }

  /** The frames after the last one without a touch. */
  function SinceLift(fs: seq<Frame>): seq<Frame> {
    if fs == [] then [] else if !fs[|fs| - 1].touch then [] else SinceLift(fs[..|fs| - 1]) + [fs[|fs| - 1]]
  }

  function PressedOf(fs: seq<Frame>): seq<Frame> {
    if fs == [] then []
    else PressedOf(fs[..|fs| - 1]) + if fs[|fs| - 1].Pressed() then [fs[|fs| - 1]] else []
  }

  /** The point that the newest three of the pressed frames average to. */
  function AveragePoint(fs: seq<Frame>, c: Calibration): Point
    requires |fs| >= N && c.k != 0
  {
    var l, m, n := fs[|fs| - 3], fs[|fs| - 2], fs[|fs| - 1];
    Translate(c, Point((l.x as int + m.x + n.x) / N, (l.y as int + m.y + n.y) / N))
  }

  function Xs(fs: seq<Frame>): seq<Sample> { seq(|fs|, i requires 0 <= i < |fs| => fs[i].x) }

  function Ys(fs: seq<Frame>): seq<Sample> { seq(|fs|, i requires 0 <= i < |fs| => fs[i].y) }

  lemma {:induction false} RunSnoc(t: Touch, fs: seq<Frame>, f: Frame, c: Calibration)
    requires c.k != 0
    ensures Run(t, fs + [f], c).0 == Step(Run(t, fs, c).0, f, c).0
    ensures Run(t, fs + [f], c).1 == Run(t, fs, c).1 + Step(Run(t, fs, c).0, f, c).1
    decreases |fs|
  {
    hide Step;
    if fs == [] {
      assert [f][1..] == [];
      assert fs + [f] == [f];
    } else {
      var t1 := Step(t, fs[0], c).0;
      assert (fs + [f])[1..] == fs[1..] + [f];
      RunSnoc(t1, fs[1..], f, c);
    }
  }

  lemma HeldAfter(fs: seq<Frame>, f: Frame)
    ensures PressedOf(SinceLift(fs + [f])) ==
      if !f.touch then [] else PressedOf(SinceLift(fs)) + if f.Pressed() then [f] else []
  {
    assert (fs + [f])[..|fs + [f]| - 1] == fs;
    var since := SinceLift(fs);
    assert (since + [f])[..|since + [f]| - 1] == since;
  }

  predicate Holds(t: Touch, held: seq<Frame>) {
    t.xs == Xs(held) && t.ys == Ys(held) && (t.state.TouchDetected? ==> |held| >= N)
  }

  lemma StepHolds(t: Touch, f: Frame, c: Calibration, held: seq<Frame>)
    requires c.k != 0 && Holds(t, held)
    ensures Holds(Step(t, f, c).0, if !f.touch then [] else held + if f.Pressed() then [f] else [])
  {
    hide Translate, Mean;
    assert Xs(held + [f]) == Xs(held) + [f.x] && Ys(held + [f]) == Ys(held) + [f.y];
    assert held + [] == held;
  }

  /** After any run the filters hold exactly the pressed frames since the last lift, and while a
  stroke is open there are at least three of them. */
  lemma {:induction false} FiltersHoldThisTouch(fs: seq<Frame>, c: Calibration)
    requires c.k != 0
    ensures Holds(Run(IDLE, fs, c).0, PressedOf(SinceLift(fs)))
  {
    if fs != [] {
      var before, f := fs[..|fs| - 1], fs[|fs| - 1];
      FiltersHoldThisTouch(before, c);
      assert fs == before + [f];
      RunSnoc(IDLE, before, f, c);
      HeldAfter(before, f);
      StepHolds(Run(IDLE, before, c).0, f, c, PressedOf(SinceLift(before)));
      hide *;
    }
  }

  lemma StepFires(t: Touch, f: Frame, c: Calibration, e: Event)
    requires c.k != 0
    requires Step(t, f, c).1 == [e] && e.kind != End
    ensures f.Pressed() && e.point == Step(t, f, c).0.FilteredPoint(c)
    ensures Step(t, f, c).0.state.TouchDetected?
  {
    hide Translate, Mean, Touch.PointStable;
  }

  /** An event that opens or continues a stroke reports the average of three pressed frames of
  this very touch; nothing of an earlier touch, nor the zeros of a reset, enters it. */
  lemma ReportedPointIsOfThisTouch(fs: seq<Frame>, f: Frame, c: Calibration, e: Event)
    requires c.k != 0
    requires Step(Run(IDLE, fs, c).0, f, c).1 == [e] && e.kind != End
    ensures f.Pressed()
    ensures var held := PressedOf(SinceLift(fs + [f])); |held| >= N && e.point == AveragePoint(held, c)
  {
    hide *;
    FiltersHoldThisTouch(fs + [f], c);
    RunSnoc(IDLE, fs, f, c);
    StepFires(Run(IDLE, fs, c).0, f, c, e);
    HeldPoint(Run(IDLE, fs + [f], c).0, PressedOf(SinceLift(fs + [f])), c);
  }

  lemma HeldPoint(t: Touch, held: seq<Frame>, c: Calibration)
    requires c.k != 0 && Holds(t, held) && t.state.TouchDetected?
    ensures |held| >= N && t.FilteredPoint(c) == AveragePoint(held, c)
  {
    hide Translate, Mean;
    MeanOfNewest(Xs(held));
    MeanOfNewest(Ys(held));
  }

  lemma MeanOfNewest(fed: seq<Sample>)
    requires |fed| >= N
    ensures Mean(fed) == (fed[|fed| - 3] as int + fed[|fed| - 2] + fed[|fed| - 1]) / N
  {
    WindowIsTail(fed);
    hide Window;
  }

  /** There are three samples, and no two of the newest three are eight apart. */
  predicate Near(fed: seq<Sample>) {
    |fed| >= 3 && forall i, j :: |fed| - 3 <= i < |fed| && |fed| - 3 <= j < |fed| ==> fed[i] as int - fed[j] < 8
  }

  /** The newest three frames are close together, in x and in y. */
  predicate Close(fs: seq<Frame>) { Near(Xs(fs)) && Near(Ys(fs)) }

  lemma StableIsNear(fed: seq<Sample>)
    ensures Stable(fed, STABLE_BOUND) <==> Near(fed)
  {
    if |fed| >= 3 {
      WindowIsTail(fed);
      var w := Window(fed);
      assert w == fed[|fed| - 3..];
      forall i | |fed| - 3 <= i < |fed| ensures fed[i] in w {
        assert w[i - (|fed| - 3)] == fed[i];
      }
    }
  }

  /** What one frame fires, after any frames.  Without a stroke: a start exactly when the frame is
  pressed and the newest three pressed frames of this touch are close together.  During a stroke: a
  move when it is pressed, and an end when it is not. */
  lemma WhatFires(fs: seq<Frame>, f: Frame, c: Calibration)
    requires c.k != 0
    ensures var t, fired, held := Run(IDLE, fs, c).0, Step(Run(IDLE, fs, c).0, f, c).1, PressedOf(SinceLift(fs + [f]));
            if t.state.NoTouch? then
              if f.Pressed() && Close(held) then fired == [Event(AveragePoint(held, c), Start)] else fired == []
            else if f.Pressed() then |held| >= 3 && fired == [Event(AveragePoint(held, c), Move)]
            else |fired| == 1 && fired[0].kind == End
  {
    hide *;
    var t, held := Run(IDLE, fs, c).0, PressedOf(SinceLift(fs + [f]));
    FiltersHoldThisTouch(fs, c);
    FiltersHoldThisTouch(fs + [f], c);
    RunSnoc(IDLE, fs, f, c);
    FedHolds(t, f, c, held);
    if t.state.TouchDetected? || Close(held) {
      if f.Pressed() { FedPoint(t.Fed(f), held, c); }
    }
    StepByCases(t, f, c);
  }

  /** The step changes no sample: what has been fed is what is held. */
  lemma FedHolds(t: Touch, f: Frame, c: Calibration, held: seq<Frame>)
    requires c.k != 0 && Holds(Step(t, f, c).0, held)
    ensures t.Fed(f).xs == Xs(held) && t.Fed(f).ys == Ys(held)
    ensures t.Fed(f).PointStable() <==> Close(held)
    ensures Close(held) || (t.state.TouchDetected? && f.Pressed()) ==> |held| >= 3
  {
    StableIsNear(Xs(held));
    StableIsNear(Ys(held));
    NearMeansThree(held);
    StepHoldsFed(t, f, c);
    hide Translate, Mean, Stable, Near, Step;
  }

  lemma NearMeansThree(held: seq<Frame>)
    ensures Near(Xs(held)) ==> |held| >= 3
  {
  }

  lemma StepHoldsFed(t: Touch, f: Frame, c: Calibration)
    requires c.k != 0
    ensures var u := Step(t, f, c).0;
            u.xs == t.Fed(f).xs && u.ys == t.Fed(f).ys && (t.state.TouchDetected? && f.Pressed() ==> u.state.TouchDetected?)
  {
    hide Touch.PointStable, Touch.FilteredPoint;
  }

  lemma FedPoint(t: Touch, held: seq<Frame>, c: Calibration)
    requires c.k != 0 && |held| >= 3 && t.xs == Xs(held) && t.ys == Ys(held)
    ensures t.FilteredPoint(c) == AveragePoint(held, c)
  {
    hide Translate, Mean;
    MeanOfNewest(Xs(held));
    MeanOfNewest(Ys(held));
  }

  lemma StepByCases(t: Touch, f: Frame, c: Calibration)
    requires c.k != 0
    ensures var fired := Step(t, f, c).1;
            if t.state.NoTouch? then
              if f.Pressed() && t.Fed(f).PointStable() then fired == [Event(t.Fed(f).FilteredPoint(c), Start)] else fired == []
            else if f.Pressed() then fired == [Event(t.Fed(f).FilteredPoint(c), Move)]
            else |fired| == 1 && fired[0].kind == End
  {
    hide Touch.PointStable, Touch.FilteredPoint;
  }

  /** A stroke that ends because the touch is gone reports the point of coordinates (0, 0),
  wherever the stroke was: the filters are reset first. */
  lemma LiftReportsTheOrigin(t: Touch, f: Frame, c: Calibration)
    requires c.k != 0 && t.state.TouchDetected? && !f.touch
    ensures Step(t, f, c).1 == [Event(Translate(c, Point(0, 0)), End)]
  {
    assert Window([]) == [0, 0, 0];
  }
}
