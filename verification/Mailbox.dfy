/** The message slot shared by the two cores, as a transition system.

The M0 writes a pointer to a message on its own stack into the slot, raises an event and spins
until the slot is null (`send_message`).  On the M4 the event becomes an interrupt, the interrupt
sets an event flag of the dispatcher thread and clears the latched event, and the dispatcher
loop reads the slot, hands the message over and nulls the slot.  A Shutdown message takes
another path: the loop ends, and the slot is nulled by the last act of the program.

Each action below is one access to shared state by one core; any order of enabled actions is a
run.  Other traffic may raise the event (`SpuriousEvent`) or flag spectrum work (`SpectrumFlag`)
at any time.  A pointer is the index of the message among all messages ever sent.
 */
module Mailbox {

  import opened Wrappers

  datatype Message = Shutdown | Default(payload: int)

  /** Where the M0 is: outside `send_message`, after writing the slot, spinning, or back in
      `shutdown` after its send returned. */
  datatype M0 = Idle | Written | Spinning | Resetting

  /** Where the M4 is; `bb` and `sp` are the event bits taken by the current wait. */
  datatype M4 =
    | Halted
    | Boot
    | Enabling
    | Checking
    | Waiting
    | Dispatching(bb: bool, sp: bool)
    | Reading(sp: bool)
    | Identifying(at: nat, sp: bool)
    | Delivering(at: nat, sp: bool)
    | Acknowledging(sp: bool)
    | DispatchingSpectrum(sp: bool)
    | Disabling
    | Exiting
    | Nulling

  datatype State = State(
    sent: seq<Message>,       // ghost history: every message ever sent
    processed: seq<Message>,  // ghost history: every message the M4 acted on
    slot: Option<nat>,        // shared_memory.baseband_message
    m0: M0,
    imageRunning: bool,
    queued: nat,              // messages in the application queue
    latched: bool,            // M0APPTXEVENT
    irqEnabled: bool,
    registered: bool,         // thread_event_loop is set
    inIsr: bool,              // the interrupt has flagged the event and not yet cleared the latch
    pendingBb: bool,
    pendingSp: bool,
    isRunning: bool,
    m4: M4)

  datatype Action =
    | RunImage
    | Send(message: Message)
    | AssertEvent
    | SpinReturn
    | ResetQueue
    | IsrFlag
    | IsrClear
    | Loop
    | SpuriousEvent
    | SpectrumFlag

  const INITIAL := State([], [], None, Idle, false, 0, false, false, false, false, false, false, false, Halted)

  /** A non-shutdown message may be sent at any time; `shutdown` returns at once when no image
      runs, and `run_image` panics when one does. */
  predicate Enabled(s: State, a: Action) {
    match a
    case RunImage => s.m0 == Idle && !s.imageRunning
    case Send(m) => s.m0 == Idle && (m == Shutdown ==> s.imageRunning)
    case AssertEvent => s.m0 == Written
    case SpinReturn => s.m0 == Spinning && s.slot == None
    case ResetQueue => s.m0 == Resetting
    case IsrFlag => s.latched && s.irqEnabled && !s.inIsr
    case IsrClear => s.inIsr
    case Loop => !s.inIsr && s.m4 != Halted && (s.m4 == Waiting ==> s.pendingBb || s.pendingSp)
    case SpuriousEvent => true
    case SpectrumFlag => s.registered && s.m4 != Halted
  }

  function Next(s: State, a: Action): State
    requires Enabled(s, a)
  {
    match a
    case RunImage =>
      s.(imageRunning := true, m4 := Boot, isRunning := true, registered := false, irqEnabled := false,
         inIsr := false, pendingBb := false, pendingSp := false)
    case Send(m) => s.(sent := s.sent + [m], slot := Some(|s.sent|), m0 := Written)
    case AssertEvent => s.(latched := true, m0 := Spinning)
    case SpinReturn => s.(m0 := if |s.sent| > 0 && s.sent[|s.sent| - 1] == Shutdown then Resetting else Idle)
    case ResetQueue => s.(queued := 0, imageRunning := false, m0 := Idle)
    case IsrFlag => s.(pendingBb := true, inIsr := true)
    case IsrClear => s.(latched := false, inIsr := false)
    case Loop => LoopNext(s)
    case SpuriousEvent => s.(latched := true)
    case SpectrumFlag => s.(pendingSp := true)
  }

  /** One step of the dispatcher thread: `run`, `dispatch`, `handle_baseband_queue`,
      `on_message` and, after the loop, `_default_exit`. */
  function LoopNext(s: State): State {
    match s.m4
    case Halted => s
    case Boot => s.(registered := true, m4 := Enabling)
    case Enabling => s.(irqEnabled := true, m4 := Checking)
    case Checking => s.(m4 := if s.isRunning then Waiting else Disabling)
    case Waiting => s.(m4 := Dispatching(s.pendingBb, s.pendingSp), pendingBb := false, pendingSp := false)
    case Dispatching(bb, sp) => s.(m4 := if bb then Reading(sp) else DispatchingSpectrum(sp))
    case Reading(sp) => s.(m4 := if s.slot.Some? then Identifying(s.slot.value, sp) else DispatchingSpectrum(sp))
    case Identifying(at, sp) =>
      if At(s, at) == Shutdown then
        s.(processed := s.processed + [Shutdown], isRunning := false, m4 := DispatchingSpectrum(sp))
      else
        s.(m4 := Delivering(at, sp))
    case Delivering(at, sp) => s.(processed := s.processed + [At(s, at)], m4 := Acknowledging(sp))
    case Acknowledging(sp) => s.(slot := None, m4 := DispatchingSpectrum(sp))
    case DispatchingSpectrum(_) => s.(m4 := Checking)
    case Disabling => s.(irqEnabled := false, m4 := Exiting)
    case Exiting => s.(queued := s.queued + 1, m4 := Nulling)
    case Nulling => s.(slot := None, m4 := Halted)
  }

  /** What the M4 finds behind a pointer. */
  function At(s: State, at: nat): Message {
    if at < |s.sent| then s.sent[at] else Default(0)
  }

  // Runs

  predicate IsRun(s: State, run: seq<Action>)
    decreases |run|
  {
    run == [] || (Enabled(s, run[0]) && IsRun(Next(s, run[0]), run[1..]))
  }

  function After(s: State, run: seq<Action>): State
    requires IsRun(s, run)
    decreases |run|
  {
    if run == [] then s else After(Next(s, run[0]), run[1..])
  }

  // The invariant

  /** The M0 is inside `send_message`: its newest message is alive on its stack. */
  predicate Sending(s: State) { s.m0 == Written || s.m0 == Spinning }

  function Newest(s: State): int { |s.sent| - 1 }

  predicate NewestIsShutdown(s: State) { |s.sent| > 0 && s.sent[|s.sent| - 1] == Shutdown }

  /** The M4 has read the slot and will still look behind the pointer. */
  predicate Holds(m: M4) { m.Identifying? || m.Delivering? }

  predicate InLoop(m: M4) {
    m.Checking? || m.Waiting? || m.Dispatching? || m.Reading? || Holds(m) || m.Acknowledging? || m.DispatchingSpectrum?
  }

  predicate Leaving(m: M4) { m.Disabling? || m.Exiting? || m.Nulling? }

  /** A message has been acted on but its slot is not yet null. */
  predicate Unacknowledged(s: State) { s.m4.Acknowledging? || (!s.isRunning && s.m4 != Halted) }

  predicate MessagesInv(s: State) {
    && s.processed <= s.sent
    && (s.slot.Some? ==> Sending(s) && s.slot.value == Newest(s))
    && (Sending(s) ==> |s.sent| > 0)
    && (s.slot == None ==> s.processed == s.sent)
    && (s.slot.Some? ==> |s.processed| == if Unacknowledged(s) then |s.sent| else Newest(s))
    && (Unacknowledged(s) ==> s.slot.Some?)
    && (s.m4.Acknowledging? ==> s.isRunning && !NewestIsShutdown(s))
    && (s.m4.Identifying? ==> s.slot == Some(s.m4.at))
    && (s.m4.Delivering? ==> s.slot == Some(s.m4.at) && !NewestIsShutdown(s))
  }

  predicate LifecycleInv(s: State) {
    && (s.m0 == Resetting ==> s.imageRunning && s.m4 == Halted && NewestIsShutdown(s))
    && (!s.imageRunning ==> s.m4 == Halted && !(Sending(s) && NewestIsShutdown(s)))
    && (s.imageRunning && s.m4 == Halted ==>
          s.slot == None && s.m0 != Idle && NewestIsShutdown(s) && !s.isRunning)
    && (s.m4 != Halted && s.isRunning ==> !(s.slot == None && Sending(s) && NewestIsShutdown(s)))
    && (!s.isRunning && s.m4 != Halted ==> NewestIsShutdown(s) && (s.m4.DispatchingSpectrum? || s.m4.Checking? || Leaving(s.m4)))
    && (Leaving(s.m4) ==> !s.isRunning)
    && (s.irqEnabled <==> InLoop(s.m4) || s.m4.Disabling?)
    && (s.irqEnabled ==> s.registered)
    && (s.m4 == Enabling ==> s.registered)
    && (s.inIsr ==> s.irqEnabled && s.pendingBb)
  }

  /** While the M0 spins on an unhandled message, a wake-up for it exists somewhere. */
  predicate WakeUpInv(s: State) {
    s.m0 == Spinning && s.slot.Some? && s.imageRunning && !Unacknowledged(s) ==>
      s.latched || s.pendingBb || (s.m4.Dispatching? && s.m4.bb) || s.m4.Reading? || Holds(s.m4)
  }

  predicate Inv(s: State) { MessagesInv(s) && LifecycleInv(s) && WakeUpInv(s) }

  lemma InitialInv()
    ensures Inv(INITIAL)
  {
  }

  /** The M4 changes nothing on the M0. */
  predicate SameSender(s: State, t: State) { t.m0 == s.m0 && t.imageRunning == s.imageRunning }

  lemma StartingKeepsInv(s: State)
    requires Inv(s) && Enabled(s, Loop)
    requires s.m4.Boot? || s.m4.Enabling?
    ensures Inv(LoopNext(s)) && SameSender(s, LoopNext(s))
  {
  }

  lemma WaitingKeepsInv(s: State)
    requires Inv(s) && Enabled(s, Loop)
    requires s.m4.Waiting? || s.m4.Dispatching?
    ensures Inv(LoopNext(s)) && SameSender(s, LoopNext(s))
  {
  }

  lemma CheckingKeepsInv(s: State)
    requires Inv(s) && Enabled(s, Loop)
    requires s.m4.Checking?
    ensures Inv(LoopNext(s)) && SameSender(s, LoopNext(s))
  {
    assert LoopNext(s) == s.(m4 := if s.isRunning then Waiting else Disabling);
    hide LoopNext, Enabled;
  }

  lemma SpectrumKeepsInv(s: State)
    requires Inv(s) && Enabled(s, Loop)
    requires s.m4.DispatchingSpectrum?
    ensures Inv(LoopNext(s)) && SameSender(s, LoopNext(s))
  {
  }

  lemma ReadingKeepsInv(s: State)
    requires Inv(s) && Enabled(s, Loop)
    requires s.m4.Reading?
    ensures Inv(LoopNext(s)) && SameSender(s, LoopNext(s))
  {
  }

  lemma IdentifyingKeepsInv(s: State)
    requires Inv(s) && Enabled(s, Loop)
    requires s.m4.Identifying?
    ensures Inv(LoopNext(s)) && SameSender(s, LoopNext(s))
  {
    assert At(s, s.m4.at) == s.sent[|s.sent| - 1];
    assert s.processed + [At(s, s.m4.at)] == s.sent;
  }

  lemma DeliveringKeepsInv(s: State)
    requires Inv(s) && Enabled(s, Loop)
    requires s.m4.Delivering?
    ensures Inv(LoopNext(s)) && SameSender(s, LoopNext(s))
  {
    assert At(s, s.m4.at) == s.sent[|s.sent| - 1];
    assert s.processed + [At(s, s.m4.at)] == s.sent;
  }

  lemma AcknowledgingKeepsInv(s: State)
    requires Inv(s) && Enabled(s, Loop)
    requires s.m4.Acknowledging?
    ensures Inv(LoopNext(s)) && SameSender(s, LoopNext(s))
  {
  }

  lemma LeavingKeepsInv(s: State)
    requires Inv(s) && Enabled(s, Loop)
    requires s.m4.Disabling? || s.m4.Exiting?
    ensures Inv(LoopNext(s)) && SameSender(s, LoopNext(s))
  {
  }

  lemma NullingKeepsInv(s: State)
    requires Inv(s) && Enabled(s, Loop)
    requires s.m4.Nulling?
    ensures Inv(LoopNext(s)) && SameSender(s, LoopNext(s))
  {
  }

  lemma LoopKeepsInv(s: State)
    requires Inv(s) && Enabled(s, Loop)
    ensures Inv(LoopNext(s)) && SameSender(s, LoopNext(s))
  {
    hide LoopNext, Inv;
    match s.m4
    case Halted =>
    case Boot => StartingKeepsInv(s);
    case Enabling => StartingKeepsInv(s);
    case Waiting => WaitingKeepsInv(s);
    case Dispatching(_, _) => WaitingKeepsInv(s);
    case Checking => CheckingKeepsInv(s);
    case DispatchingSpectrum(_) => SpectrumKeepsInv(s);
    case Reading(_) => ReadingKeepsInv(s);
    case Identifying(_, _) => IdentifyingKeepsInv(s);
    case Delivering(_, _) => DeliveringKeepsInv(s);
    case Acknowledging(_) => AcknowledgingKeepsInv(s);
    case Nulling => NullingKeepsInv(s);
    case _ => LeavingKeepsInv(s);
  }

  lemma SendKeepsInv(s: State, m: Message)
    requires Inv(s) && Enabled(s, Send(m))
    ensures Inv(Next(s, Send(m)))
  {
    assert s.processed == s.sent == (s.sent + [m])[..|s.sent|];
  }

  lemma SenderKeepsInv(s: State, a: Action)
    requires Inv(s) && Enabled(s, a) && (a.RunImage? || a.AssertEvent? || a.SpinReturn? || a.ResetQueue?)
    ensures Inv(Next(s, a))
  {
  }

  lemma EventKeepsInv(s: State, a: Action)
    requires Inv(s) && Enabled(s, a) && (a.IsrFlag? || a.IsrClear? || a.SpuriousEvent? || a.SpectrumFlag?)
    ensures Inv(Next(s, a))
  {
  }

  lemma StepKeepsInv(s: State, a: Action)
    requires Inv(s) && Enabled(s, a)
    ensures Inv(Next(s, a))
  {
    hide LoopNext, Inv;
    match a
    case Loop => LoopKeepsInv(s);
    case Send(m) => SendKeepsInv(s, m);
    case RunImage => SenderKeepsInv(s, a);
    case AssertEvent => SenderKeepsInv(s, a);
    case SpinReturn => SenderKeepsInv(s, a);
    case ResetQueue => SenderKeepsInv(s, a);
    case _ => EventKeepsInv(s, a);
  }

  lemma {:induction false} RunKeepsInv(s: State, run: seq<Action>)
    requires Inv(s) && IsRun(s, run)
    ensures Inv(After(s, run))
    decreases |run|
  {
    hide Inv, Enabled, Next;
    if run != [] {
      StepKeepsInv(s, run[0]);
      RunKeepsInv(Next(s, run[0]), run[1..]);
    }
  }

  // Safety

  /** In every run the M4 acts on the messages sent, once each and in order: all of them
      whenever the M0 is outside `send_message`, all but at most the newest otherwise. */
  lemma ProcessedExactlyWhatWasSent(run: seq<Action>)
    requires IsRun(INITIAL, run)
    ensures var s := After(INITIAL, run);
            && s.processed <= s.sent && |s.sent| - |s.processed| <= 1
            && (!Sending(s) ==> s.processed == s.sent)
            && (Enabled(s, SpinReturn) ==> s.processed == s.sent)
  {
    InitialInv();
    RunKeepsInv(INITIAL, run);
  }

  /** Whenever the M4 looks behind the pointer, the sender of that message is still inside
      `send_message`, and what the M4 acts on is that message. */
  lemma DereferencesOnlyLiveMessages(run: seq<Action>)
    requires IsRun(INITIAL, run)
    ensures var s := After(INITIAL, run);
            Holds(s.m4) ==> Sending(s) && s.m4.at == Newest(s) && At(s, s.m4.at) == s.sent[|s.sent| - 1]
  {
    InitialInv();
    RunKeepsInv(INITIAL, run);
  }

  /** The interrupt never signals a thread that has not been registered. */
  lemma InterruptFindsThread(run: seq<Action>)
    requires IsRun(INITIAL, run)
    ensures var s := After(INITIAL, run);
            (Enabled(s, IsrFlag) || s.inIsr) ==> s.registered && s.m4 != Halted
  {
    InitialInv();
    RunKeepsInv(INITIAL, run);
  }

  // Progress

  predicate IsM4(a: Action) { a == IsrFlag || a == IsrClear || a == Loop }

  /** The M0 waits for the M4: an image runs and the slot is not null. */
  predicate Blocked(s: State) { s.m0 == Spinning && s.slot.Some? && s.imageRunning }

  /** A blocked M0 never waits for nothing: the M4 can always take a step. */
  lemma BlockedMeansM4CanStep(s: State)
    requires Inv(s) && Blocked(s)
    ensures Enabled(s, Loop) || Enabled(s, IsrFlag) || Enabled(s, IsrClear)
  {
  }

  /** Steps of the dispatcher thread until the slot is null. */
  function Distance(s: State): nat {
    match s.m4
    case Halted => 0
    case Boot => 12
    case Enabling => 11
    case Checking => if s.isRunning then 10 else 4
    case Waiting => 9
    case Dispatching(bb, _) => if bb then 8 else 12
    case Reading(_) => 7
    case Identifying(_, _) => 6
    case Delivering(_, _) => 2
    case Acknowledging(_) => 1
    case DispatchingSpectrum(_) => if s.isRunning then 11 else 5
    case Disabling => 3
    case Exiting => 2
    case Nulling => 1
  }

  /** An upper bound on the M4 steps left; a spurious interrupt costs two, a spectrum wake-up four. */
  function Measure(s: State): nat {
    Distance(s) + (if s.pendingSp then 4 else 0) + (if s.inIsr then 1 else if s.latched then 2 else 0)
  }

  lemma LoopStepCounts(s: State)
    requires Inv(s) && Blocked(s) && Enabled(s, Loop) && Blocked(LoopNext(s))
    ensures Measure(LoopNext(s)) < Measure(s)
  {
    hide LoopNext, Measure, Inv;
    if s.m4.Waiting? || s.m4.Dispatching? || s.m4.Reading? {
      WakingStepCounts(s);
    } else if Holds(s.m4) || s.m4.Acknowledging? {
      HandlingStepCounts(s);
    } else if Leaving(s.m4) {
      LeavingStepCounts(s);
    } else {
      OtherLoopStepCounts(s);
    }
  }

  lemma WakingStepCounts(s: State)
    requires Inv(s) && Blocked(s) && Enabled(s, Loop) && Blocked(LoopNext(s))
    requires s.m4.Waiting? || s.m4.Dispatching? || s.m4.Reading?
    ensures Measure(LoopNext(s)) < Measure(s)
  {
  }

  lemma HandlingStepCounts(s: State)
    requires Inv(s) && Blocked(s) && Enabled(s, Loop) && Blocked(LoopNext(s))
    requires Holds(s.m4) || s.m4.Acknowledging?
    ensures Measure(LoopNext(s)) < Measure(s)
  {
  }

  lemma OtherLoopStepCounts(s: State)
    requires Inv(s) && Blocked(s) && Enabled(s, Loop) && Blocked(LoopNext(s))
    requires s.m4.Boot? || s.m4.Enabling? || s.m4.Checking? || s.m4.DispatchingSpectrum?
    ensures Measure(LoopNext(s)) < Measure(s)
  {
    hide MessagesInv, WakeUpInv, LifecycleInv;
  }

  lemma LeavingStepCounts(s: State)
    requires Enabled(s, Loop) && Blocked(LoopNext(s))
    requires Leaving(s.m4)
    ensures Measure(LoopNext(s)) < Measure(s)
  {
    LeavingStep(s);
    hide LoopNext, Enabled;
  }

  lemma LeavingStep(s: State)
    ensures s.m4 == Disabling ==> LoopNext(s) == s.(irqEnabled := false, m4 := Exiting)
    ensures s.m4 == Exiting ==> LoopNext(s) == s.(queued := s.queued + 1, m4 := Nulling)
    ensures s.m4 == Nulling ==> LoopNext(s) == s.(slot := None, m4 := Halted)
  {
  }

  lemma EveryStepCounts(s: State, a: Action)
    requires Inv(s) && Blocked(s) && Enabled(s, a) && Blocked(Next(s, a))
    ensures if IsM4(a) then Measure(Next(s, a)) < Measure(s) else Measure(Next(s, a)) <= Measure(s) + 4
  {
    hide LoopNext, Distance;
    if a == Loop { LoopStepCounts(s); }
    if a == IsrFlag || a == IsrClear { assert Distance(Next(s, a)) == Distance(s) by { SameDistance(s, Next(s, a)); } }
    if a == SpuriousEvent || a == SpectrumFlag { SameDistance(s, Next(s, a)); }
  }

  lemma SameDistance(s: State, t: State)
    requires s.m4 == t.m4 && s.isRunning == t.isRunning
    ensures Distance(s) == Distance(t)
  {
  }

  predicate BlockedThroughout(s: State, run: seq<Action>)
    requires IsRun(s, run)
    decreases |run|
  {
    Blocked(s) && (run != [] ==> BlockedThroughout(Next(s, run[0]), run[1..]))
  }

  function M4Steps(run: seq<Action>): nat {
    if run == [] then 0 else (if IsM4(run[0]) then 1 else 0) + M4Steps(run[1..])
  }

  lemma {:induction false} MeasureFalls(s: State, run: seq<Action>)
    requires Inv(s) && IsRun(s, run) && BlockedThroughout(s, run)
    ensures M4Steps(run) <= Measure(s) + 4 * (|run| - M4Steps(run))
    decreases |run|
  {
    hide Inv, Enabled, Next, Measure, IsM4, Blocked;
    if run != [] {
      StepKeepsInv(s, run[0]);
      BlockedAtBothEnds(s, run);
      EveryStepCounts(s, run[0]);
      MeasureFalls(Next(s, run[0]), run[1..]);
    }
  }

  lemma BlockedAtBothEnds(s: State, run: seq<Action>)
    requires IsRun(s, run) && run != [] && BlockedThroughout(s, run)
    ensures Blocked(s) && Blocked(Next(s, run[0]))
  {
    assert BlockedThroughout(Next(s, run[0]), run[1..]);
  }

  /** From any reachable state, while the M0 stays blocked the M4 takes at most 18 steps plus
      four for every unrelated event. */
  lemma SendReturnsAfterBoundedM4Steps(prefix: seq<Action>, run: seq<Action>)
    requires IsRun(INITIAL, prefix)
    requires IsRun(After(INITIAL, prefix), run) && BlockedThroughout(After(INITIAL, prefix), run)
    ensures M4Steps(run) <= 18 + 4 * (|run| - M4Steps(run))
  {
    InitialInv();
    hide *;
    RunKeepsInv(INITIAL, prefix);
    MeasureFalls(After(INITIAL, prefix), run);
    MeasureBound(After(INITIAL, prefix));
  }

  lemma MeasureBound(s: State)
    ensures Measure(s) <= 18
  {
  }

  // Shutdown

  /** When the send of Shutdown has returned, the M4 takes no further step, whatever happens,
      until the next image is started; so the queue reset races with nothing. */
  lemma {:induction false} HaltedStaysHalted(s: State, run: seq<Action>)
    requires Inv(s) && s.m4 == Halted && IsRun(s, run) && RunImage !in run
    ensures M4Steps(run) == 0 && After(s, run).m4 == Halted
    decreases |run|
  {
    if run != [] {
      StepKeepsInv(s, run[0]);
      assert !IsM4(run[0]) && Next(s, run[0]).m4 == Halted;
      HaltedStaysHalted(Next(s, run[0]), run[1..]);
    }
  }

  lemma ShutdownReturnsAfterHalt(prefix: seq<Action>, run: seq<Action>)
    requires IsRun(INITIAL, prefix) && After(INITIAL, prefix).m0 == Resetting
    requires IsRun(After(INITIAL, prefix), run) && RunImage !in run
    ensures var s := After(INITIAL, prefix);
            && s.m4 == Halted && !s.isRunning && s.processed == s.sent
            && M4Steps(run) == 0
  {
    InitialInv();
    RunKeepsInv(INITIAL, prefix);
    HaltedStaysHalted(After(INITIAL, prefix), run);
  }

  /** The application queue holds the message that the program leaves on exit, from then until the
  M0 resets the queue, and nothing else. */
  predicate QueueInv(s: State) {
    s.queued == if s.m4.Nulling? || (s.imageRunning && s.m4.Halted?) then 1 else 0
  }

  lemma StepKeepsQueue(s: State, a: Action)
    requires Inv(s) && QueueInv(s) && Enabled(s, a)
    ensures QueueInv(Next(s, a))
  {
    ImageOfM4(s);
    hide Inv, LoopNext;
    if a == Loop { LoopKeepsQueue(s); }
  }

  lemma ImageOfM4(s: State)
    requires Inv(s)
    ensures (!s.imageRunning ==> s.m4 == Halted) && (s.m0 == Resetting ==> s.imageRunning && s.m4 == Halted)
  {
  }

  lemma LoopKeepsQueue(s: State)
    requires QueueInv(s) && s.m4 != Halted && s.imageRunning
    ensures QueueInv(LoopNext(s))
  {
    LeavingStep(s);
    if !Leaving(s.m4) { WorkingStep(s); }
    hide LoopNext, Enabled;
  }

  /** One step of the dispatcher at work: the queue is left alone, and only the wait takes flags. */
  predicate LeavesQueue(s: State, t: State) {
    && t.queued == s.queued && t.m4 != Nulling && t.m4 != Halted
    && PendingFlags(t) == if s.m4 == Waiting then 0 else PendingFlags(s)
  }

  function PendingFlags(s: State): nat { (if s.pendingBb then 1 else 0) + if s.pendingSp then 1 else 0 }

  lemma WorkingStep(s: State)
    requires s.m4 != Halted && !Leaving(s.m4)
    ensures LeavesQueue(s, LoopNext(s))
  {
    hide LoopNext, LeavesQueue;
    if s.m4.Boot? || s.m4.Enabling? || s.m4.Checking? {
      FirstSteps(s);
    } else if s.m4.Waiting? || s.m4.Dispatching? || s.m4.Reading? {
      WakingSteps(s);
    } else if s.m4.Identifying? {
      IdentifyingStep(s);
    } else if s.m4.Delivering? {
      DeliveringStep(s);
    } else {
      LastSteps(s);
    }
  }

  lemma FirstSteps(s: State)
    requires s.m4.Boot? || s.m4.Enabling? || s.m4.Checking?
    ensures LeavesQueue(s, LoopNext(s))
  {
  }

  lemma WakingSteps(s: State)
    requires s.m4.Waiting? || s.m4.Dispatching? || s.m4.Reading?
    ensures LeavesQueue(s, LoopNext(s))
  {
  }

  lemma IdentifyingStep(s: State)
    requires s.m4.Identifying?
    ensures LeavesQueue(s, LoopNext(s))
  {
    var at, sp := s.m4.at, s.m4.sp;
    if At(s, at) == Shutdown {
      assert LoopNext(s) == s.(processed := s.processed + [Shutdown], isRunning := false, m4 := DispatchingSpectrum(sp));
    } else {
      assert LoopNext(s) == s.(m4 := Delivering(at, sp));
    }
    hide LoopNext, At;
  }

  lemma DeliveringStep(s: State)
    requires s.m4.Delivering?
    ensures LeavesQueue(s, LoopNext(s))
  {
    hide At;
  }

  lemma LastSteps(s: State)
    requires s.m4.Acknowledging? || s.m4.DispatchingSpectrum?
    ensures LeavesQueue(s, LoopNext(s))
  {
  }

  lemma {:induction false} RunKeepsQueue(s: State, run: seq<Action>)
    requires Inv(s) && QueueInv(s) && IsRun(s, run)
    ensures QueueInv(After(s, run))
    decreases |run|
  {
    hide Inv, QueueInv, Next, Enabled;
    if run != [] {
      StepKeepsInv(s, run[0]);
      StepKeepsQueue(s, run[0]);
      RunKeepsQueue(Next(s, run[0]), run[1..]);
    }
  }

  /** In every run: the queue never holds more than that one message, and while no image runs, so
  whenever the next one may be started, it is empty. */
  lemma QueueIsEmptyWithoutImage(run: seq<Action>)
    requires IsRun(INITIAL, run)
    ensures var s := After(INITIAL, run);
            && s.queued <= 1 && (!s.imageRunning ==> s.queued == 0) && (s.m0 == Resetting ==> s.queued == 1)
  {
    InitialInv();
    RunKeepsInv(INITIAL, run);
    RunKeepsQueue(INITIAL, run);
    ImageOfM4(After(INITIAL, run));
    hide IsRun, After, Inv;
  }

  // Wake-ups

  /** How often the dispatcher returns from its wait, and how often its events have been flagged. */
  function WakeUps(s: State, run: seq<Action>): nat
    requires IsRun(s, run)
    decreases |run|
  {
    if run == [] then 0 else (if run[0] == Loop && s.m4 == Waiting then 1 else 0) + WakeUps(Next(s, run[0]), run[1..])
  }

  function Flags(run: seq<Action>): nat {
    if run == [] then 0 else (if run[0] == IsrFlag || run[0] == SpectrumFlag then 1 else 0) + Flags(run[1..])
  }

  lemma StepPaysForWakeUp(s: State, a: Action)
    requires Enabled(s, a)
    ensures PendingFlags(Next(s, a)) + (if a == Loop && s.m4 == Waiting then 1 else 0)
         <= PendingFlags(s) + if a == IsrFlag || a == SpectrumFlag then 1 else 0
  {
    hide LoopNext;
    if a == Loop { LoopPending(s); }
  }

  lemma LoopPending(s: State)
    requires s.m4 != Halted
    ensures PendingFlags(LoopNext(s)) == if s.m4 == Waiting then 0 else PendingFlags(s)
  {
    LeavingStep(s);
    hide LoopNext;
    if !Leaving(s.m4) { WorkingStep(s); }
  }

  lemma {:induction false} WakeUpsArePaidFor(s: State, run: seq<Action>)
    requires IsRun(s, run)
    ensures WakeUps(s, run) <= PendingFlags(s) + Flags(run)
    decreases |run|
  {
    hide Enabled, Next, PendingFlags;
    if run != [] {
      StepPaysForWakeUp(s, run[0]);
      WakeUpsArePaidFor(Next(s, run[0]), run[1..]);
    }
  }

  /** In every run each return from the wait takes flags of its own: the dispatcher never spins. */
  lemma WakeUpsAreFlagged(run: seq<Action>)
    requires IsRun(INITIAL, run)
    ensures WakeUps(INITIAL, run) <= Flags(run)
  {
    WakeUpsArePaidFor(INITIAL, run);
    hide IsRun, WakeUps;
  }

  // The condition under which sending makes sense

  /** A message sent while no image runs is never read: its sender spins for ever. */
  lemma {:induction false} SendWithoutImageNeverReturns(s: State, run: seq<Action>)
    requires Inv(s) && Sending(s) && !s.imageRunning && s.slot.Some? && IsRun(s, run)
    ensures var t := After(s, run); Sending(t) && !t.imageRunning && t.slot.Some? && !Enabled(t, SpinReturn)
    decreases |run|
  {
    if run != [] {
      StepKeepsInv(s, run[0]);
      SendWithoutImageNeverReturns(Next(s, run[0]), run[1..]);
    }
  }

  /** From any reachable state in which a message has just been written, the M4 can be scheduled
      so that the send returns if and only if an image is running. */
  lemma SendCanReturnExactlyWhenImageRuns(s: State)
    requires Inv(s) && s.m0 == Spinning && s.slot.Some?
    ensures s.imageRunning <==> exists run :: IsRun(s, run) && Enabled(After(s, run), SpinReturn)
  {
    if s.imageRunning {
      var run := Schedule(s);
      assert IsRun(s, run) && Enabled(After(s, run), SpinReturn);
    } else {
      forall run | IsRun(s, run) ensures !Enabled(After(s, run), SpinReturn) {
        SendWithoutImageNeverReturns(s, run);
      }
    }
  }

  /** A schedule of M4 steps that ends with the slot null. */
  lemma Schedule(s: State) returns (run: seq<Action>)
    requires Inv(s) && s.m0 == Spinning && s.imageRunning
    ensures IsRun(s, run) && Enabled(After(s, run), SpinReturn)
    decreases Measure(s)
  {
    hide Inv, LoopNext, Measure, IsM4;
    if s.slot == None {
      run := [];
    } else {
      BlockedMeansM4CanStep(s);
      var a := if Enabled(s, Loop) then Loop else if Enabled(s, IsrFlag) then IsrFlag else IsrClear;
      StepKeepsInv(s, a);
      M4StepKeepsSpinning(s, a);
      var t := Next(s, a);
      if t.slot == None {
        run := [a];
      } else {
        assert IsM4(a) by { TheseAreM4Steps(); }
        EveryStepCounts(s, a);
        var rest := Schedule(t);
        run := [a] + rest;
      }
      FirstStep(s, run);
    }
  }

  lemma M4StepKeepsSpinning(s: State, a: Action)
    requires Inv(s) && Enabled(s, a) && (a == Loop || a == IsrFlag || a == IsrClear)
    ensures SameSender(s, Next(s, a))
  {
    if a == Loop { LoopKeepsInv(s); }
    hide LoopNext, Inv;
  }

  lemma TheseAreM4Steps()
    ensures IsM4(Loop) && IsM4(IsrFlag) && IsM4(IsrClear)
  {
  }

  lemma FirstStep(s: State, run: seq<Action>)
    requires run != [] && Enabled(s, run[0]) && IsRun(Next(s, run[0]), run[1..])
    ensures IsRun(s, run) && After(s, run) == After(Next(s, run[0]), run[1..])
  {
  }
}
