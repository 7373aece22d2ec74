/**
 The handshake between the thread that queues committed events and the replay
 thread that consumes them (engine/playback_thread.cc, engine/event_queue.cc,
 util/state_variable.cc), as a machine whose steps are the locked sections and
 waits of the two threads. Every interleaving of steps is a run.

 The replayed program is arbitrary: whenever it runs it may ask for the next
 event, take an event it was shown, or, once told to stop, end.
 */
module PlaybackHandshake {
  import opened Wrappers
  import opened Histories

  /** The values of the state variable. */
  datatype Phase = NotStarted | Starting | Running | Paused | Stopping | Stopped

  /** The transition table of the constructor. */
  predicate CanChange(a: Phase, b: Phase) {
    || (a == NotStarted && b == Starting)
    || (a == Starting && b == Running)
    || (a == Running && b == Paused)
    || (a == Paused && b == Running)
    || (a == Paused && b == Stopping)
    || (a == Stopping && b == Stopped)
  }

  /** The queue holds events and end-of-sequence marks (null pointers). */
  datatype Item = Queued(event: Event) | EndOfSequence

  /** Where the controlling thread is. */
  datatype Controller =
    | CNew
    | CStarting
    | CReady
    | CQueueing(event: Event)
    | CFlushing
    | CFlushWait
    | CStopping
    | CStopWait
    | CJoin
    | CDone

  /** Where the replay thread is. */
  datatype Replayer =
    | RInit
    | RProgram              // the program runs, or is about to
    | RReady                // the program runs, and was told that there is an event
    | RFetch
    | RPeek
    | RPause
    | RWait
    | RMove
    | RExit
    | RDone

  /** The last three fields record what was queued, consumed and handed to the program. */
  datatype State = State(
    phase: Phase,
    queue: seq<Item>,
    next: Option<Event>,
    endOfSequence: bool,
    live: bool,
    stopped: bool,
    controller: Controller,
    replayer: Replayer,
    queued: seq<Event>,
    consumed: seq<Event>,
    delivered: seq<Event>)

  const INITIAL := State(NotStarted, [], None, false, false, false, CNew, RInit, [], [], [])

  /** Start, QueueEvent, FlushEvents and Stop. */
  datatype ControllerStep =
    | Start
    | StartRunning
    | BeginQueue(event: Event)
    | PushEvent
    | BeginFlush
    | PushFlushMark
    | EndFlush
    | BeginStop
    | PushStopMark
    | ChangeToStopping
    | Join

  /** ReplayEvents and HasNextEvent. */
  datatype ReplayerStep =
    | Wake
    | AskForEvent
    | TakeEvent
    | Fetch
    | Peek
    | PauseIfRunning
    | Resume
    | MoveToNextSequence
    | EndProgram
    | FinalPause

  datatype Step = ByController(c: ControllerStep) | ByReplayer(r: ReplayerStep)

  function PausedToRunning(p: Phase): Phase {
    if p == Paused then Running else p
  }

  function RunningToPaused(p: Phase): Phase {
    if p == Running then Paused else p
  }

  /** The controller is at the step, and what it waits for holds. */
  predicate ControllerCan(s: State, step: ControllerStep) {
    match step
    case Start => s.controller == CNew
    case StartRunning => s.controller == CStarting
    case BeginQueue(_) => s.controller == CReady
    case PushEvent => s.controller.CQueueing?
    case BeginFlush => s.controller == CReady
    case PushFlushMark => s.controller == CFlushing
    case EndFlush => s.controller == CFlushWait && s.phase == Paused
    case BeginStop => s.controller == CReady
    case PushStopMark => s.controller == CStopping
    case ChangeToStopping => s.controller == CStopWait && s.phase == Paused
    case Join => s.controller == CJoin && s.replayer == RDone
  }

  predicate ReplayerCan(s: State, step: ReplayerStep) {
    match step
    case Wake => s.replayer == RInit && s.phase != NotStarted && s.phase != Starting
    case AskForEvent => s.replayer == RProgram || s.replayer == RReady
    case TakeEvent => s.replayer == RReady
    case Fetch => s.replayer == RFetch && (s.endOfSequence || s.next.Some? || s.queue != [])
    case Peek => s.replayer == RPeek
    case PauseIfRunning => s.replayer == RPause
    case Resume => s.replayer == RWait && (s.phase == Running || s.phase == Stopping)
    case MoveToNextSequence => s.replayer == RMove
    case EndProgram => s.replayer == RProgram && s.stopped
    case FinalPause => s.replayer == RExit
  }

  predicate Enabled(s: State, step: Step) {
    match step
    case ByController(c) => ControllerCan(s, c)
    case ByReplayer(r) => ReplayerCan(s, r)
  }

  /** Discards the event that was fetched. */
  function Consume(s: State): State
    requires s.next.Some?
  {
    s.(next := None, consumed := s.consumed + [s.next.value])
  }

  function ControllerAfter(s: State, step: ControllerStep): State
    requires ControllerCan(s, step)
  {
    match step
    case Start => s.(phase := Starting, controller := CStarting)
    case StartRunning => s.(phase := Running, controller := CReady)
    case BeginQueue(event) => s.(phase := PausedToRunning(s.phase), controller := CQueueing(event))
    case PushEvent =>
      var event := s.controller.event;
      s.(queue := s.queue + [Queued(event)], queued := s.queued + [event], controller := CReady)
    case BeginFlush => s.(phase := PausedToRunning(s.phase), controller := CFlushing)
    case PushFlushMark => s.(queue := s.queue + [EndOfSequence], controller := CFlushWait)
    case EndFlush => s.(controller := CReady)
    case BeginStop => s.(phase := PausedToRunning(s.phase), controller := CStopping)
    case PushStopMark => s.(queue := s.queue + [EndOfSequence], controller := CStopWait)
    case ChangeToStopping => s.(phase := Stopping, controller := CJoin)
    case Join => s.(phase := Stopped, controller := CDone)
  }

  function ReplayerAfter(s: State, step: ReplayerStep): State
    requires ReplayerCan(s, step)
  {
    match step
    case Wake => s.(replayer := RProgram)
    case AskForEvent => s.(replayer := RFetch)
    case TakeEvent =>
      if s.next.None? then s
      else Consume(s).(delivered := s.delivered + [s.next.value], replayer := RProgram)
    case Fetch =>
      if s.next.Some? then s.(replayer := RPeek)
      else if s.endOfSequence then s.(replayer := RPause)
      else
        (match s.queue[0]
         case Queued(event) => s.(queue := s.queue[1..], next := Some(event), replayer := RPeek)
         case EndOfSequence => s.(queue := s.queue[1..], endOfSequence := true, replayer := RPause))
    case Peek =>
      if s.next.None? then s
      else if s.next.value.kind == ObjectCreation then Consume(s).(live := true, replayer := RFetch)
      else if s.live then s.(replayer := RReady)
      else Consume(s).(replayer := RFetch)
    case PauseIfRunning => s.(phase := RunningToPaused(s.phase), replayer := RWait)
    case Resume =>
      if s.phase == Stopping then s.(stopped := true, replayer := RProgram) else s.(replayer := RMove)
    case MoveToNextSequence => s.(endOfSequence := false, replayer := RFetch)
    case EndProgram => s.(replayer := RExit)
    case FinalPause => s.(phase := RunningToPaused(s.phase), replayer := RDone)
  }

  function After(s: State, step: Step): State
    requires Enabled(s, step)
  {
    match step
    case ByController(c) => ControllerAfter(s, c)
    case ByReplayer(r) => ReplayerAfter(s, r)
  }

  /**
   The CHECKs the step passes: the transition is in the table, the queue is where
   the step expects it, and there is an event to look at or to take.
   */
  predicate ChecksHold(s: State, step: Step)
    requires Enabled(s, step)
  {
    && (After(s, step).phase == s.phase || CanChange(s.phase, After(s, step).phase))
    && (step == ByController(Start) ==> s.phase == NotStarted)
    && (step == ByController(ChangeToStopping) ==> s.phase == Paused)
    && (step == ByController(Join) ==> s.phase == Stopping)
    && (step == ByReplayer(MoveToNextSequence) ==> s.next == None && s.endOfSequence)
    && (step == ByReplayer(Peek) || step == ByReplayer(TakeEvent) ==> s.next.Some?)
    && (step == ByReplayer(TakeEvent) ==> s.live && s.next.value.kind != ObjectCreation)
  }

  /** The events in the queue. */
  function EventsOf(queue: seq<Item>): seq<Event> {
    if queue == [] then []
    else if queue[0].Queued? then [queue[0].event] + EventsOf(queue[1..])
    else EventsOf(queue[1..])
  }

  predicate NoMark(queue: seq<Item>) {
    forall i | 0 <= i < |queue| :: queue[i].Queued?
  }

  predicate OnlyLastIsMark(queue: seq<Item>) {
    queue != [] && queue[|queue| - 1] == EndOfSequence && NoMark(queue[..|queue| - 1])
  }

  predicate Waiting(c: Controller) {
    c == CFlushWait || c == CStopWait
  }

  /** Some object-creation event is among the events. */
  predicate HasCreation(events: seq<Event>) {
    exists i | 0 <= i < |events| :: events[i].kind == ObjectCreation
  }

  /** What the program is to see: the events after the first object creation that are not creations themselves. */
  function Deliverable(events: seq<Event>): seq<Event>
    decreases |events|
  {
    if events == [] then []
    else
      var before, e := events[..|events| - 1], events[|events| - 1];
      if e.kind != ObjectCreation && HasCreation(before) then Deliverable(before) + [e] else Deliverable(before)
  }

  function Fetched(s: State): seq<Event> {
    if s.next.Some? then [s.next.value] else []
  }

  predicate Conserved(s: State) {
    && s.queued == s.consumed + Fetched(s) + EventsOf(s.queue)
    && s.delivered == Deliverable(s.consumed)
    && (s.live <==> HasCreation(s.consumed))
    && (s.replayer == RPeek || s.replayer == RReady ==> s.next.Some?)
    && (s.next.Some? && s.replayer != RPeek && s.replayer != RFetch ==> s.live && s.next.value.kind != ObjectCreation)
    && (s.next.Some? && s.replayer == RFetch ==> s.live && s.next.value.kind != ObjectCreation)
  }

  predicate AtEnd(r: Replayer) {
    r == RPause || r == RWait || r == RMove
  }

  predicate Ending(p: Phase) {
    p == Stopping || p == Stopped
  }

  predicate Working(p: Phase) {
    p == Running || p == Paused
  }

  /** The phase the controller's position stands for. */
  predicate ControllerAgrees(s: State) {
    match s.controller
    case CNew => s.phase == NotStarted
    case CStarting => s.phase == Starting
    case CJoin => s.phase == Stopping
    case CDone => s.phase == Stopped && s.replayer == RDone
    case _ => Working(s.phase)
  }

  /** End-of-sequence marks: one at most, last, and only while the controller waits for it to be reached. */
  predicate MarksAgree(s: State) {
    && (NoMark(s.queue) || (Waiting(s.controller) && OnlyLastIsMark(s.queue)))
    && (Waiting(s.controller) && NoMark(s.queue) ==>
          && s.queue == [] && s.endOfSequence
          && ((s.replayer == RPause && s.phase == Running) || (s.replayer == RWait && s.phase == Paused)))
  }

  /** Where the replay thread can be, given the phase and whether its sequence has ended. */
  predicate ReplayerAgrees(s: State) {
    && (s.phase == NotStarted || s.phase == Starting ==> s.replayer == RInit && s.queue == [])
    && (s.replayer == RInit ==> s.next == None && !s.endOfSequence)
    && (s.endOfSequence ==> s.next == None && (AtEnd(s.replayer) || s.stopped))
    && (AtEnd(s.replayer) ==> s.endOfSequence)
    && (s.replayer == RPause && s.phase == Running ==> Waiting(s.controller) && s.queue == [])
    && (s.replayer == RPause ==> s.phase == Running || s.phase == Stopping)
    && (s.replayer == RMove ==> s.phase == Running && !s.stopped)
    && (s.phase == Paused ==> s.replayer == RWait && s.queue == [] && (s.controller == CReady || Waiting(s.controller)))
    && (Ending(s.phase) ==> s.queue == [] && s.endOfSequence)
    && (s.stopped ==> Ending(s.phase) && s.endOfSequence)
    && (s.replayer == RExit || s.replayer == RDone ==> s.stopped)
  }

  predicate Synchronised(s: State) {
    ControllerAgrees(s) && MarksAgree(s) && ReplayerAgrees(s)
  }

  predicate Inv(s: State) {
    Conserved(s) && Synchronised(s)
  }

  lemma {:induction false} EventsOfAppend(queue: seq<Item>, item: Item)
    ensures EventsOf(queue + [item]) == EventsOf(queue) + (if item.Queued? then [item.event] else [])
  {
    if queue != [] {
      assert (queue + [item])[1..] == queue[1..] + [item];
      EventsOfAppend(queue[1..], item);
    }
  }

  lemma ConsumeDelivers(consumed: seq<Event>, e: Event)
    ensures HasCreation(consumed + [e]) <==> HasCreation(consumed) || e.kind == ObjectCreation
    ensures Deliverable(consumed + [e]) ==
            Deliverable(consumed) + (if e.kind != ObjectCreation && HasCreation(consumed) then [e] else [])
  {
    var more := consumed + [e];
    assert more[..|consumed|] == consumed;
    assert more[|consumed|] == e;
    if HasCreation(consumed) {
      var i :| 0 <= i < |consumed| && consumed[i].kind == ObjectCreation;
      assert more[i].kind == ObjectCreation;
    }
  }

  lemma ControllerConserves(s: State, step: ControllerStep)
    requires Conserved(s) && ControllerCan(s, step)
    ensures Conserved(ControllerAfter(s, step))
  {
    match step
    case PushEvent => EventsOfAppend(s.queue, Queued(s.controller.event));
    case PushFlushMark => EventsOfAppend(s.queue, EndOfSequence);
    case PushStopMark => EventsOfAppend(s.queue, EndOfSequence);
    case _ =>
  }

  lemma ReplayerConserves(s: State, step: ReplayerStep)
    requires Inv(s) && ReplayerCan(s, step)
    ensures Conserved(ReplayerAfter(s, step))
  {
    match step
    case TakeEvent => TakeConserves(s);
    case Peek => PeekConserves(s);
    case Fetch => FetchConserves(s);
    case _ => ReplayerMoves(s, step);
  }

  /** The other steps leave the events where they are. */
  lemma ReplayerMoves(s: State, step: ReplayerStep)
    requires Inv(s) && ReplayerCan(s, step) && step != TakeEvent && step != Peek && step != Fetch
    ensures Conserved(ReplayerAfter(s, step))
  {
    var t := ReplayerAfter(s, step);
    assert t.queued == s.queued && t.consumed == s.consumed && t.next == s.next && t.queue == s.queue;
  }

  lemma TakeConserves(s: State)
    requires Conserved(s) && ReplayerCan(s, TakeEvent)
    ensures Conserved(ReplayerAfter(s, TakeEvent))
  {
    ConsumeDelivers(s.consumed, s.next.value);
    assert s.consumed + [s.next.value] + EventsOf(s.queue) == s.consumed + [s.next.value] + [] + EventsOf(s.queue);
  }

  lemma PeekConserves(s: State)
    requires Conserved(s) && ReplayerCan(s, Peek)
    ensures Conserved(ReplayerAfter(s, Peek))
  {
    ConsumeDelivers(s.consumed, s.next.value);
    assert s.consumed + [s.next.value] + EventsOf(s.queue) == s.consumed + [s.next.value] + [] + EventsOf(s.queue);
  }

  lemma FetchConserves(s: State)
    requires Inv(s) && ReplayerCan(s, Fetch)
    ensures Conserved(ReplayerAfter(s, Fetch))
  {
    if s.next.None? && !s.endOfSequence {
      FirstIsFetched(s.consumed, s.queue);
    }
  }

  lemma FirstIsFetched(consumed: seq<Event>, queue: seq<Item>)
    requires queue != []
    ensures consumed + [] + EventsOf(queue) ==
            consumed + (if queue[0].Queued? then [queue[0].event] else []) + EventsOf(queue[1..])
  {
    if queue[0].Queued? {
      var event, others := queue[0].event, EventsOf(queue[1..]);
      assert consumed + [] + ([event] + others) == consumed + [event] + others;
    }
  }

  lemma MarkRemoved(queue: seq<Item>)
    requires queue != []
    ensures NoMark(queue) ==> NoMark(queue[1..])
    ensures OnlyLastIsMark(queue) && queue[0].Queued? ==> OnlyLastIsMark(queue[1..])
    ensures OnlyLastIsMark(queue) && queue[0] == EndOfSequence ==> queue[1..] == []
  {
    if OnlyLastIsMark(queue) && queue[0].Queued? {
      assert queue[1..][..|queue| - 2] == queue[..|queue| - 1][1..];
    }
    if OnlyLastIsMark(queue) && |queue| > 1 {
      assert queue[..|queue| - 1][0] == queue[0];
    }
  }

  lemma MarkAdded(queue: seq<Item>, item: Item)
    requires NoMark(queue)
    ensures item.Queued? ==> NoMark(queue + [item])
    ensures item == EndOfSequence ==> OnlyLastIsMark(queue + [item]) && !NoMark(queue + [item])
  {
    assert (queue + [item])[..|queue|] == queue;
    assert (queue + [item])[|queue|] == item;
  }

  lemma ControllerSynchronises(s: State, step: ControllerStep)
    requires Synchronised(s) && ControllerCan(s, step)
    ensures Synchronised(ControllerAfter(s, step))
  {
    match step
    case PushEvent => PushSynchronises(s);
    case PushFlushMark => PushMarkSynchronises(s, CFlushWait);
    case PushStopMark => PushMarkSynchronises(s, CStopWait);
    case _ => assert ControllerAfter(s, step).queue == s.queue;
  }

  lemma PushSynchronises(s: State)
    requires Synchronised(s) && ControllerCan(s, PushEvent)
    ensures Synchronised(ControllerAfter(s, PushEvent))
  {
    MarkAdded(s.queue, Queued(s.controller.event));
  }

  /** Pushing the mark of a flush or of a stop. */
  lemma PushMarkSynchronises(s: State, c: Controller)
    requires Synchronised(s) && (s.controller == CFlushing || s.controller == CStopping) && Waiting(c)
    ensures Synchronised(s.(queue := s.queue + [EndOfSequence], controller := c))
  {
    var t := s.(queue := s.queue + [EndOfSequence], controller := c);
    MarkAdded(s.queue, EndOfSequence);
    assert s.phase == Running;
    assert MarksAgree(t);
    assert ReplayerAgrees(t);
  }

  lemma ReplayerSynchronises(s: State, step: ReplayerStep)
    requires Synchronised(s) && ReplayerCan(s, step)
    requires step == Peek || step == TakeEvent ==> s.next.Some?
    ensures Synchronised(ReplayerAfter(s, step))
  {
    match step
    case Fetch =>
      if s.queue != [] {
        MarkRemoved(s.queue);
      }
    case _ =>
  }

  // Runs.

  predicate IsRun(s: State, steps: seq<Step>)
    decreases |steps|, 0
  {
    steps == [] || (IsRun(s, steps[..|steps| - 1]) && Enabled(AfterRun(s, steps[..|steps| - 1]), steps[|steps| - 1]))
  }

  function AfterRun(s: State, steps: seq<Step>): State
    requires IsRun(s, steps)
    decreases |steps|, 1
  {
    if steps == [] then s else After(AfterRun(s, steps[..|steps| - 1]), steps[|steps| - 1])
  }

  lemma StepKeepsInv(s: State, step: Step)
    requires Inv(s) && Enabled(s, step)
    ensures Inv(After(s, step))
  {
    match step
    case ByController(c) =>
      ControllerConserves(s, c);
      ControllerSynchronises(s, c);
    case ByReplayer(r) =>
      ReplayerConserves(s, r);
      ReplayerSynchronises(s, r);
  }

  lemma {:induction false} RunKeepsInv(steps: seq<Step>)
    requires IsRun(INITIAL, steps)
    ensures Inv(AfterRun(INITIAL, steps))
    decreases |steps|
  {
    if steps != [] {
      RunKeepsInv(steps[..|steps| - 1]);
      StepKeepsInv(AfterRun(INITIAL, steps[..|steps| - 1]), steps[|steps| - 1]);
    }
  }

  /** Under every interleaving, no step that can be taken fails one of its CHECKs. */
  lemma ChecksNeverFail(steps: seq<Step>, step: Step)
    requires IsRun(INITIAL, steps) && Enabled(AfterRun(INITIAL, steps), step)
    ensures ChecksHold(AfterRun(INITIAL, steps), step)
  {
    RunKeepsInv(steps);
    match step
    case ByController(c) => ControllerChecks(AfterRun(INITIAL, steps), c);
    case ByReplayer(r) => ReplayerChecks(AfterRun(INITIAL, steps), r);
  }

  lemma ControllerChecks(s: State, c: ControllerStep)
    requires Synchronised(s) && ControllerCan(s, c)
    ensures ChecksHold(s, ByController(c))
  {
  }

  lemma ReplayerChecks(s: State, r: ReplayerStep)
    requires Inv(s) && ReplayerCan(s, r)
    ensures ChecksHold(s, ByReplayer(r))
  {
  }

  /** PAUSED means that everything queued so far has been consumed, in order. */
  lemma PausedMeansDrained(steps: seq<Step>)
    requires IsRun(INITIAL, steps) && AfterRun(INITIAL, steps).phase == Paused
    ensures var s := AfterRun(INITIAL, steps);
            && s.queue == [] && s.next == None && s.endOfSequence
            && s.consumed == s.queued
            && s.delivered == Deliverable(s.queued)
  {
    RunKeepsInv(steps);
  }

  /** So when FlushEvents or Stop gets past its wait, the program has been shown exactly what it was to see. */
  lemma FlushIsComplete(steps: seq<Step>, step: Step)
    requires IsRun(INITIAL, steps) && Enabled(AfterRun(INITIAL, steps), step)
    requires step == ByController(EndFlush) || step == ByController(ChangeToStopping) || step == ByController(Join)
    ensures var s := After(AfterRun(INITIAL, steps), step);
            s.consumed == s.queued && s.delivered == Deliverable(s.queued)
  {
    RunKeepsInv(steps);
  }

  lemma {:induction false} DeliverableGrows(consumed: seq<Event>, rest: seq<Event>)
    ensures Deliverable(consumed) <= Deliverable(consumed + rest)
    decreases |rest|
  {
    if rest == [] {
      assert consumed + rest == consumed;
    } else {
      var rest', e := rest[..|rest| - 1], rest[|rest| - 1];
      DeliverableGrows(consumed, rest');
      assert consumed + rest == (consumed + rest') + [e];
      ConsumeDelivers(consumed + rest', e);
    }
  }

  /** At every moment the program has seen a prefix of what it is to see of the events queued so far. */
  lemma DeliveryIsInOrder(steps: seq<Step>)
    requires IsRun(INITIAL, steps)
    ensures var s := AfterRun(INITIAL, steps);
            s.consumed <= s.queued && s.delivered <= Deliverable(s.queued)
  {
    RunKeepsInv(steps);
    var s := AfterRun(INITIAL, steps);
    ConsumedIsPrefix(s.consumed, Fetched(s), EventsOf(s.queue), s.queued);
  }

  lemma ConsumedIsPrefix(consumed: seq<Event>, fetched: seq<Event>, rest: seq<Event>, queued: seq<Event>)
    requires queued == consumed + fetched + rest
    ensures consumed <= queued && Deliverable(consumed) <= Deliverable(queued)
  {
    assert queued == consumed + (fetched + rest);
    DeliverableGrows(consumed, fetched + rest);
  }

  /** While the controller waits, one of the two threads can always take a step: the handshake cannot lock up. */
  lemma NeverStuck(steps: seq<Step>)
    requires IsRun(INITIAL, steps)
    ensures var s := AfterRun(INITIAL, steps);
            s.controller == CDone || exists step :: Enabled(s, step)
  {
    RunKeepsInv(steps);
    var s := AfterRun(INITIAL, steps);
    match s.controller
    case CNew => assert Enabled(s, ByController(Start));
    case CStarting => assert Enabled(s, ByController(StartRunning));
    case CReady => assert Enabled(s, ByController(BeginFlush));
    case CQueueing(_) => assert Enabled(s, ByController(PushEvent));
    case CFlushing => assert Enabled(s, ByController(PushFlushMark));
    case CStopping => assert Enabled(s, ByController(PushStopMark));
    case CDone =>
    case _ => WaitingIsServed(s);
  }

  lemma WaitingIsServed(s: State)
    requires Inv(s) && (Waiting(s.controller) || s.controller == CJoin)
    ensures exists step :: Enabled(s, step)
  {
    match s.replayer
    case RInit => assert Enabled(s, ByReplayer(Wake));
    case RProgram => assert Enabled(s, ByReplayer(AskForEvent));
    case RReady => assert Enabled(s, ByReplayer(TakeEvent));
    case RFetch => assert Enabled(s, ByReplayer(Fetch));
    case RPeek => assert Enabled(s, ByReplayer(Peek));
    case RPause => assert Enabled(s, ByReplayer(PauseIfRunning));
    case RWait =>
      if s.phase == Paused {
        assert Enabled(s, ByController(if s.controller == CFlushWait then EndFlush else ChangeToStopping));
      } else {
        assert Enabled(s, ByReplayer(Resume));
      }
    case RMove => assert Enabled(s, ByReplayer(MoveToNextSequence));
    case RExit => assert Enabled(s, ByReplayer(FinalPause));
    case RDone => assert Enabled(s, ByController(Join));
  }

  // A flush comes to an end.

  /** How far the replay thread is from pausing, at the events that are left. */
  function Distance(s: State): nat {
    match s.replayer
    case RWait => if s.phase == Running then 7 else 0
    case RMove => 6
    case RInit => 5
    case RProgram => 4
    case RFetch => 3
    case RPeek => 2
    case RReady => 1
    case RPause => 1
    case RExit => 0
    case RDone => 0
  }

  function Left(s: State): nat {
    4 * (|s.queue| + |Fetched(s)|) + Distance(s)
  }

  /** The step of a program that takes every event it is shown. */
  predicate Takes(s: State, step: ReplayerStep) {
    ReplayerCan(s, step) && !(s.replayer == RReady && step == AskForEvent)
  }

  /** While the controller waits, every step of such a program brings the replay thread nearer to pausing. */
  lemma FlushGetsNearer(s: State, step: ReplayerStep)
    requires Inv(s) && Waiting(s.controller) && Takes(s, step)
    ensures Left(ReplayerAfter(s, step)) < Left(s)
    ensures Inv(ReplayerAfter(s, step)) && ReplayerAfter(s, step).controller == s.controller
  {
    StepKeepsInv(s, ByReplayer(step));
    assert Lively(s);
    LeftShrinks(s, step);
  }

  /** What the invariant says of the replay thread while the controller waits. */
  predicate Lively(s: State) {
    && Working(s.phase) && !s.stopped && s.replayer != RExit
    && (s.replayer == RPeek || s.replayer == RReady ==> s.next.Some?)
    && (s.replayer == RPause ==> s.phase == Running)
  }

  lemma LeftShrinks(s: State, step: ReplayerStep)
    requires Lively(s) && Takes(s, step)
    ensures Left(ReplayerAfter(s, step)) < Left(s)
  {
  }

  /** Until it pauses it has a step to take. */
  lemma ReplayerCanStep(s: State)
    requires Lively(s) && (s.replayer == RFetch ==> s.endOfSequence || s.next.Some? || s.queue != [])
    requires s.replayer == RInit || s.replayer == RWait || s.replayer == RMove ==> s.phase == Running
    requires s.replayer != RDone
    ensures exists step :: Takes(s, step)
  {
    match s.replayer
    case RInit => assert Takes(s, Wake);
    case RProgram => assert Takes(s, AskForEvent);
    case RReady => assert Takes(s, TakeEvent);
    case RFetch => assert Takes(s, Fetch);
    case RPeek => assert Takes(s, Peek);
    case RPause => assert Takes(s, PauseIfRunning);
    case RWait => assert Takes(s, Resume);
    case RMove => assert Takes(s, MoveToNextSequence);
  }

  /** Then it has none, and the controller, which had none before, has one. */
  lemma EitherCanStep(s: State)
    requires Inv(s) && Waiting(s.controller)
    ensures (exists step :: Takes(s, step)) <==> s.phase != Paused
    ensures (exists c :: ControllerCan(s, c)) <==> s.phase == Paused
  {
    ControllerCanStep(s);
    if s.phase == Paused {
      assert s.replayer == RWait;
    } else {
      assert s.phase == Running && Lively(s);
      ReplayerCanStep(s);
    }
  }

  lemma ControllerCanStep(s: State)
    requires Waiting(s.controller)
    ensures (exists c :: ControllerCan(s, c)) <==> s.phase == Paused
  {
    if s.phase == Paused {
      assert ControllerCan(s, if s.controller == CFlushWait then EndFlush else ChangeToStopping);
    }
  }

  /** The steps of such a program while the controller waits. */
  predicate Replays(s: State, steps: seq<ReplayerStep>)
    decreases |steps|
  {
    steps == [] || (Takes(s, steps[0]) && Replays(ReplayerAfter(s, steps[0]), steps[1..]))
  }

  function AfterReplay(s: State, steps: seq<ReplayerStep>): State
    requires Replays(s, steps)
    decreases |steps|
  {
    if steps == [] then s else AfterReplay(ReplayerAfter(s, steps[0]), steps[1..])
  }

  /**
   A flush or a stop does not wait for ever: the replay thread of a program that
   takes the events it is shown makes no more than a certain number of steps, and
   it can stop making them only when the controller can go on.
   */
  lemma {:induction false} FlushEnds(s: State, steps: seq<ReplayerStep>)
    requires Inv(s) && Waiting(s.controller) && Replays(s, steps)
    ensures |steps| + Left(AfterReplay(s, steps)) <= Left(s)
    ensures var t := AfterReplay(s, steps);
            if t.phase == Paused then exists c :: ControllerCan(t, c) else exists step :: Takes(t, step)
    decreases |steps|
  {
    if steps == [] {
      EitherCanStep(s);
    } else {
      FlushGetsNearer(s, steps[0]);
      FlushEnds(ReplayerAfter(s, steps[0]), steps[1..]);
    }
  }

  // The transition table.

  ghost predicate Changes(start: State, steps: seq<Step>, step: Step, a: Phase, b: Phase) {
    && IsRun(start, steps) && Enabled(AfterRun(start, steps), step)
    && AfterRun(start, steps).phase == a && After(AfterRun(start, steps), step).phase == b
  }

  /** Some run takes the state variable from the one value to the other. */
  ghost predicate Happens(start: State, a: Phase, b: Phase) {
    exists steps, step :: Changes(start, steps, step, a, b)
  }

  /** The table of the constructor has exactly the changes of value that happen. */
  lemma TableIsExact(a: Phase, b: Phase)
    requires a != b
    ensures CanChange(a, b) <==> Happens(INITIAL, a, b)
  {
    if steps, step :| Changes(INITIAL, steps, step, a, b) {
      ChecksNeverFail(steps, step);
    }
    AllHappen(INITIAL);
  }

  lemma AllHappen(start: State)
    requires start == INITIAL
    ensures forall a, b | CanChange(a, b) :: Happens(start, a, b)
  {
    var running := Beginning(start);
    var paused := Pausing(start, running);
    var again := PausingAgain(start, paused);
    GoingDown(start, again);
  }

  lemma ItHappens(start: State, steps: seq<Step>, step: Step)
    requires IsRun(start, steps) && Enabled(AfterRun(start, steps), step)
    ensures Happens(start, AfterRun(start, steps).phase, After(AfterRun(start, steps), step).phase)
  {
    assert Changes(start, steps, step, AfterRun(start, steps).phase, After(AfterRun(start, steps), step).phase);
  }

  lemma Goes(start: State, steps: seq<Step>, step: Step, u: State) returns (more: seq<Step>)
    requires IsRun(start, steps) && Enabled(AfterRun(start, steps), step) && After(AfterRun(start, steps), step) == u
    ensures IsRun(start, more) && AfterRun(start, more) == u
    ensures Happens(start, AfterRun(start, steps).phase, u.phase)
  {
    more := steps + [step];
    assert more[..|steps|] == steps;
    ItHappens(start, steps, step);
  }

  lemma Beginning(start: State) returns (steps: seq<Step>)
    requires start == INITIAL
    ensures IsRun(start, steps)
    ensures AfterRun(start, steps) == INITIAL.(phase := Running, controller := CReady, replayer := RFetch)
    ensures Happens(start, NotStarted, Starting) && Happens(start, Starting, Running)
  {
    var s := INITIAL.(phase := Running, controller := CReady);
    steps := Goes(start, [], ByController(Start), INITIAL.(phase := Starting, controller := CStarting));
    steps := Goes(start, steps, ByController(StartRunning), s);
    steps := Goes(start, steps, ByReplayer(Wake), s.(replayer := RProgram));
    steps := Goes(start, steps, ByReplayer(AskForEvent), s.(replayer := RFetch));
  }

  /** The replay thread has met a mark and paused. */
  const PAUSED := INITIAL.(phase := Paused, endOfSequence := true, replayer := RWait)

  lemma Pausing(start: State, before: seq<Step>) returns (steps: seq<Step>)
    requires IsRun(start, before)
    requires AfterRun(start, before) == INITIAL.(phase := Running, controller := CReady, replayer := RFetch)
    ensures IsRun(start, steps) && AfterRun(start, steps) == PAUSED.(controller := CReady)
    ensures Happens(start, Running, Paused)
  {
    var s := INITIAL.(phase := Running, replayer := RFetch);
    steps := Goes(start, before, ByController(BeginFlush), s.(controller := CFlushing));
    steps := Goes(start, steps, ByController(PushFlushMark), s.(queue := [EndOfSequence], controller := CFlushWait));
    var t := s.(endOfSequence := true, replayer := RPause, controller := CFlushWait);
    steps := Goes(start, steps, ByReplayer(Fetch), t);
    steps := Goes(start, steps, ByReplayer(PauseIfRunning), PAUSED.(controller := CFlushWait));
    steps := Goes(start, steps, ByController(EndFlush), PAUSED.(controller := CReady));
  }

  lemma PausingAgain(start: State, before: seq<Step>) returns (steps: seq<Step>)
    requires IsRun(start, before) && AfterRun(start, before) == PAUSED.(controller := CReady)
    ensures IsRun(start, steps) && AfterRun(start, steps) == PAUSED.(controller := CStopWait)
    ensures Happens(start, Paused, Running)
  {
    var s := INITIAL.(phase := Running, endOfSequence := true, replayer := RWait);
    steps := Goes(start, before, ByController(BeginStop), s.(controller := CStopping));
    var t := s.(queue := [EndOfSequence], controller := CStopWait);
    steps := Goes(start, steps, ByController(PushStopMark), t);
    steps := Goes(start, steps, ByReplayer(Resume), t.(replayer := RMove));
    steps := Goes(start, steps, ByReplayer(MoveToNextSequence), t.(endOfSequence := false, replayer := RFetch));
    steps := Goes(start, steps, ByReplayer(Fetch), t.(queue := [], replayer := RPause));
    steps := Goes(start, steps, ByReplayer(PauseIfRunning), PAUSED.(controller := CStopWait));
  }

  lemma GoingDown(start: State, before: seq<Step>)
    requires IsRun(start, before) && AfterRun(start, before) == PAUSED.(controller := CStopWait)
    ensures Happens(start, Paused, Stopping) && Happens(start, Stopping, Stopped)
  {
    var s := PAUSED.(phase := Stopping, controller := CJoin);
    var steps := Goes(start, before, ByController(ChangeToStopping), s);
    var t := s.(stopped := true);
    steps := Goes(start, steps, ByReplayer(Resume), t.(replayer := RProgram));
    steps := Goes(start, steps, ByReplayer(EndProgram), t.(replayer := RExit));
    steps := Goes(start, steps, ByReplayer(FinalPause), t.(replayer := RDone));
    steps := Goes(start, steps, ByController(Join), t.(replayer := RDone, phase := Stopped, controller := CDone));
  }
}
