/**
 The HELLO/GOODBYE protocol of a connection (engine/peer_connection.cc), at both
 ends of two FIFO channels. At each end one worker thread produces and handles
 messages, while other threads queue messages and ask for a drain. Every locked
 section is a step; in between, the worker remembers where it is.
 */
module PeerProtocol {
  type Body = nat

  datatype Message = Hello | Regular(body: Body) | Goodbye

  datatype SendState = NoMessageSent | HelloSent | GoodbyeSent

  datatype ReceiveState = NoMessageReceived | HelloReceived | GoodbyeReceived

  /** Where the worker thread is. */
  datatype Worker =
    | Idle
    | Checked                     // it saw HELLO_SENT and goes to the output queue
    | FoundNothing                // the output queue was empty
    | MustDrain(close: bool)      // it took GOODBYE and goes to drain the output queue
    | MustClose                   // it goes to close the connection

  /**
   One end of a connection. Besides the fields of the connection there is a
   record of the messages produced, of the bodies that SendMessage accepted, that
   were taken from the output queue, and that the handler passed on, of how many
   of the incoming messages were handled, and of the calls to Close.
   */
  datatype End = End(
    send: SendState,
    receive: ReceiveState,
    drain: bool,
    queue: seq<Body>,
    queueDraining: bool,
    worker: Worker,
    emitted: seq<Message>,
    accepted: seq<Body>,
    sent: seq<Body>,
    handled: nat,
    passedOn: seq<Body>,
    closes: nat)

  const NEW_END := End(NoMessageSent, NoMessageReceived, false, [], false, Idle, [], [], [], 0, [], 0)

  datatype Step =
    | SendMessage(body: Body)
    | RequestDrain                // Drain sets the drain state
    | DrainQueue                  // Drain then drains the output queue
    | NextOutput                  // GetNextOutputMessage, first locked section
    | PopOutput
    | FinishOutput                // its last locked section
    | Receive                     // the next incoming message, up to the end of the locked section
    | DrainAfterGoodbye
    | Close

  predicate Enabled(e: End, incoming: seq<Message>, step: Step) {
    match step
    case SendMessage(_) => true
    case RequestDrain => true
    case DrainQueue => e.drain
    case NextOutput => e.worker == Idle
    case PopOutput => e.worker == Checked
    case FinishOutput => e.worker == FoundNothing
    case Receive => e.worker == Idle && e.handled < |incoming|
    case DrainAfterGoodbye => e.worker.MustDrain?
    case Close => e.worker == MustClose
  }

  function After(e: End, incoming: seq<Message>, step: Step): End
    requires Enabled(e, incoming, step)
  {
    match step
    case SendMessage(body) =>
      if e.queueDraining then e else e.(queue := e.queue + [body], accepted := e.accepted + [body])
    case RequestDrain => e.(drain := true)
    case DrainQueue => e.(queueDraining := true)
    case NextOutput =>
      (match e.send
       case NoMessageSent => e.(send := HelloSent, emitted := e.emitted + [Hello])
       case HelloSent => e.(worker := Checked)
       case GoodbyeSent => e)
    case PopOutput =>
      if e.queue == [] then e.(worker := FoundNothing)
      else e.(worker := Idle, queue := e.queue[1..],
              sent := e.sent + [e.queue[0]], emitted := e.emitted + [Regular(e.queue[0])])
    case FinishOutput =>
      if !e.drain then e.(worker := Idle)
      else e.(send := GoodbyeSent, emitted := e.emitted + [Goodbye],
              worker := if e.receive == GoodbyeReceived then MustClose else Idle)
    case Receive => Handled(e, incoming[e.handled])
    case DrainAfterGoodbye => e.(queueDraining := true, worker := if e.worker.close then MustClose else Idle)
    case Close => e.(closes := e.closes + 1, worker := Idle)
  }

  function Handled(e: End, message: Message): End {
    match message
    case Hello => e.(handled := e.handled + 1, receive := HelloReceived)
    case Regular(body) => e.(handled := e.handled + 1, passedOn := e.passedOn + [body])
    case Goodbye =>
      e.(handled := e.handled + 1, receive := GoodbyeReceived, drain := true,
         worker := MustDrain(e.send == GoodbyeSent))
  }

  /** The checks that the three handlers make of the receive state. */
  predicate CheckHolds(e: End, message: Message) {
    match message
    case Hello => e.receive == NoMessageReceived
    case Regular(_) => e.receive == HelloReceived
    case Goodbye => e.receive == HelloReceived
  }

  // Transcripts: what one end may produce.

  /** A prefix of HELLO, any number of regular messages, GOODBYE. */
  ghost predicate IsTranscript(ms: seq<Message>) {
    forall i | 0 <= i < |ms| ::
      && (ms[i] == Hello <==> i == 0)
      && (ms[i] == Goodbye ==> i == |ms| - 1)
  }

  function Bodies(ms: seq<Message>): seq<Body>
    decreases |ms|
  {
    if ms == [] then []
    else
      var last := ms[|ms| - 1];
      Bodies(ms[..|ms| - 1]) + (if last.Regular? then [last.body] else [])
  }

  predicate Ended(ms: seq<Message>) {
    ms != [] && ms[|ms| - 1] == Goodbye
  }

  lemma BodiesAppend(ms: seq<Message>, m: Message)
    ensures Bodies(ms + [m]) == Bodies(ms) + (if m.Regular? then [m.body] else [])
  {
    assert (ms + [m])[..|ms|] == ms;
  }

  lemma TranscriptGrows(ms: seq<Message>, m: Message)
    requires IsTranscript(ms) && !Ended(ms) && (m == Hello <==> ms == [])
    ensures IsTranscript(ms + [m]) && (Ended(ms + [m]) <==> m == Goodbye)
    ensures Bodies(ms + [m]) == Bodies(ms) + (if m.Regular? then [m.body] else [])
  {
    BodiesAppend(ms, m);
    assert forall i | 0 <= i < |ms| :: (ms + [m])[i] == ms[i];
  }

  // What holds at each end.

  /** The messages produced, and the bodies among them, go with the send state. */
  ghost predicate Produced(emitted: seq<Message>, sent: seq<Body>, send: SendState) {
    && IsTranscript(emitted) && Bodies(emitted) == sent
    && (emitted == [] <==> send == NoMessageSent)
    && (Ended(emitted) <==> send == GoodbyeSent)
  }

  ghost predicate SendMatches(e: End) {
    && Produced(e.emitted, e.sent, e.send)
    && (e.worker == Checked || e.worker == FoundNothing ==> e.send == HelloSent)
  }

  ghost predicate ReceiveMatches(e: End, incoming: seq<Message>) {
    && e.handled <= |incoming| && e.passedOn == Bodies(incoming[..e.handled])
    && (e.handled == 0 <==> e.receive == NoMessageReceived)
    && (Ended(incoming[..e.handled]) <==> e.receive == GoodbyeReceived)
  }

  /** Close has been called, or will be by the worker, once if GOODBYE was both produced and received. */
  ghost predicate CloseMatches(e: End) {
    && (e.worker.MustDrain? ==> e.receive == GoodbyeReceived && e.worker.close == (e.send == GoodbyeSent))
    && e.closes + (if e.worker == MustClose || (e.worker.MustDrain? && e.worker.close) then 1 else 0) ==
       (if e.send == GoodbyeSent && e.receive == GoodbyeReceived then 1 else 0)
  }

  ghost predicate QueueMatches(e: End) {
    && e.accepted == e.sent + e.queue
    && (e.queueDraining || e.receive == GoodbyeReceived || e.send == GoodbyeSent ==> e.drain)
  }

  ghost predicate EndInv(e: End, incoming: seq<Message>) {
    SendMatches(e) && ReceiveMatches(e, incoming) && CloseMatches(e) && QueueMatches(e)
  }

  /** A step produces at most one message. */
  function Produces(e: End, step: Step): seq<Message> {
    if step == NextOutput && e.send == NoMessageSent then [Hello]
    else if step == PopOutput && e.queue != [] then [Regular(e.queue[0])]
    else if step == FinishOutput && e.drain then [Goodbye]
    else []
  }

  lemma StepProduces(e: End, incoming: seq<Message>, step: Step)
    requires Enabled(e, incoming, step)
    ensures After(e, incoming, step).emitted == e.emitted + Produces(e, step)
  {
    assert e.emitted + [] == e.emitted;
  }

  lemma ProducedGrows(emitted: seq<Message>, sent: seq<Body>, send: SendState, m: Message)
    requires Produced(emitted, sent, send) && send != GoodbyeSent && (m == Hello <==> send == NoMessageSent)
    ensures Produced(emitted + [m], sent + (if m.Regular? then [m.body] else []),
                     if m == Goodbye then GoodbyeSent else HelloSent)
  {
    TranscriptGrows(emitted, m);
  }

  /** A step that produces nothing leaves the send side as it is. */
  lemma SilentStep(e: End, incoming: seq<Message>, step: Step)
    requires SendMatches(e) && Enabled(e, incoming, step) && Produces(e, step) == []
    ensures var f := After(e, incoming, step);
            && f.emitted == e.emitted && f.sent == e.sent && f.send == e.send
            && (f.worker == Checked || f.worker == FoundNothing ==> e.send == HelloSent)
  {
  }

  lemma StepKeepsSend(e: End, incoming: seq<Message>, step: Step)
    requires SendMatches(e) && Enabled(e, incoming, step)
    ensures SendMatches(After(e, incoming, step))
  {
    if Produces(e, step) == [] {
      SilentStep(e, incoming, step);
    } else {
      var m := Produces(e, step)[0];
      ProducedGrows(e.emitted, e.sent, e.send, m);
      assert e.sent + [] == e.sent;
    }
  }

  /** Where the next incoming message stands in the transcript decides the receive state. */
  lemma NextMessage(e: End, incoming: seq<Message>)
    requires ReceiveMatches(e, incoming) && IsTranscript(incoming) && e.handled < |incoming|
    ensures CheckHolds(e, incoming[e.handled])
  {
    if e.handled > 0 {
      assert incoming[..e.handled][e.handled - 1] == incoming[e.handled - 1];
    }
  }

  /**
   The checks of the receive state catch exactly the messages that break the
   protocol: after what has been handled, a message passes its check exactly if it
   continues the transcript.
   */
  lemma ChecksCatchExactly(e: End, incoming: seq<Message>, m: Message)
    requires ReceiveMatches(e, incoming) && IsTranscript(incoming[..e.handled])
    ensures CheckHolds(e, m) <==> IsTranscript(incoming[..e.handled] + [m])
  {
    var before := incoming[..e.handled];
    var after := before + [m];
    assert forall i | 0 <= i < |before| :: after[i] == before[i];
    assert after[|before|] == m;
    if CheckHolds(e, m) {
      assert IsTranscript(after);
    } else if e.handled > 0 {
      assert after[e.handled - 1] == before[e.handled - 1];
    }
  }

  lemma HandledMatches(e: End, incoming: seq<Message>)
    requires ReceiveMatches(e, incoming) && IsTranscript(incoming) && e.handled < |incoming|
    ensures ReceiveMatches(Handled(e, incoming[e.handled]), incoming)
  {
    NextMessage(e, incoming);
    TakeOneMore(incoming, e.handled);
  }

  lemma TakeOneMore(ms: seq<Message>, n: nat)
    requires n < |ms|
    ensures Bodies(ms[..n + 1]) == Bodies(ms[..n]) + (if ms[n].Regular? then [ms[n].body] else [])
    ensures Ended(ms[..n + 1]) <==> ms[n] == Goodbye
  {
    BodiesAppend(ms[..n], ms[n]);
    assert ms[..n + 1] == ms[..n] + [ms[n]];
  }

  lemma StepKeepsReceive(e: End, incoming: seq<Message>, step: Step)
    requires ReceiveMatches(e, incoming) && IsTranscript(incoming) && Enabled(e, incoming, step)
    ensures ReceiveMatches(After(e, incoming, step), incoming)
  {
    if step == Receive {
      HandledMatches(e, incoming);
    } else {
      var f := After(e, incoming, step);
      assert f.handled == e.handled && f.passedOn == e.passedOn && f.receive == e.receive;
    }
  }

  lemma StepKeepsRest(e: End, incoming: seq<Message>, step: Step)
    requires EndInv(e, incoming) && IsTranscript(incoming) && Enabled(e, incoming, step)
    ensures CloseMatches(After(e, incoming, step)) && QueueMatches(After(e, incoming, step))
  {
    if step == Receive {
      NextMessage(e, incoming);
    }
    if step == PopOutput && e.queue != [] {
      assert e.sent + e.queue == (e.sent + [e.queue[0]]) + e.queue[1..];
    }
  }

  lemma EndStep(e: End, incoming: seq<Message>, step: Step)
    requires EndInv(e, incoming) && IsTranscript(incoming) && Enabled(e, incoming, step)
    ensures EndInv(After(e, incoming, step), incoming) && e.emitted <= After(e, incoming, step).emitted
  {
    StepKeepsSend(e, incoming, step);
    StepProduces(e, incoming, step);
    StepKeepsReceive(e, incoming, step);
    StepKeepsRest(e, incoming, step);
  }

  // Both ends together.

  datatype Side = Left | Right

  datatype Connection = Connection(left: End, right: End) {
    function At(side: Side): End {
      if side == Left then left else right
    }

    function Incoming(side: Side): seq<Message> {
      if side == Left then right.emitted else left.emitted
    }

    function With(side: Side, e: End): Connection {
      if side == Left then Connection(e, right) else Connection(left, e)
    }
  }

  const NEW_CONNECTION := Connection(NEW_END, NEW_END)

  datatype Move = Move(side: Side, step: Step)

  predicate CanMove(c: Connection, m: Move) {
    Enabled(c.At(m.side), c.Incoming(m.side), m.step)
  }

  function Moved(c: Connection, m: Move): Connection
    requires CanMove(c, m)
  {
    c.With(m.side, After(c.At(m.side), c.Incoming(m.side), m.step))
  }

  predicate IsRun(c: Connection, moves: seq<Move>)
    decreases |moves|, 0
  {
    moves == [] || (IsRun(c, moves[..|moves| - 1]) && CanMove(AfterRun(c, moves[..|moves| - 1]), moves[|moves| - 1]))
  }

  function AfterRun(c: Connection, moves: seq<Move>): Connection
    requires IsRun(c, moves)
    decreases |moves|, 1
  {
    if moves == [] then c else Moved(AfterRun(c, moves[..|moves| - 1]), moves[|moves| - 1])
  }

  ghost predicate Inv(c: Connection) {
    EndInv(c.left, c.right.emitted) && EndInv(c.right, c.left.emitted)
  }

  /** More messages on the way change nothing at the end that has not handled them. */
  lemma MoreIncoming(e: End, incoming: seq<Message>, more: seq<Message>)
    requires EndInv(e, incoming) && incoming <= more
    ensures EndInv(e, more)
  {
    assert more[..e.handled] == incoming[..e.handled];
  }

  lemma MoveKeepsInv(c: Connection, m: Move)
    requires Inv(c) && CanMove(c, m)
    ensures Inv(Moved(c, m))
  {
    if m.side == Left {
      EndStep(c.left, c.right.emitted, m.step);
      MoreIncoming(c.right, c.left.emitted, Moved(c, m).left.emitted);
    } else {
      EndStep(c.right, c.left.emitted, m.step);
      MoreIncoming(c.left, c.right.emitted, Moved(c, m).right.emitted);
    }
  }

  lemma {:induction false} RunKeepsInv(c: Connection, moves: seq<Move>)
    requires Inv(c) && IsRun(c, moves)
    ensures Inv(AfterRun(c, moves))
    decreases |moves|
  {
    if moves != [] {
      RunKeepsInv(c, moves[..|moves| - 1]);
      MoveKeepsInv(AfterRun(c, moves[..|moves| - 1]), moves[|moves| - 1]);
    }
  }

  /** Each end produces a prefix of HELLO, regular messages in the order they were accepted, GOODBYE. */
  lemma ProtocolIsFollowed(moves: seq<Move>, side: Side)
    requires IsRun(NEW_CONNECTION, moves)
    ensures var e := AfterRun(NEW_CONNECTION, moves).At(side);
            IsTranscript(e.emitted) && Bodies(e.emitted) <= e.accepted
  {
    RunKeepsInv(NEW_CONNECTION, moves);
  }

  /** No check of the receive state fails at either end. */
  lemma ChecksNeverFail(moves: seq<Move>, side: Side)
    requires IsRun(NEW_CONNECTION, moves)
    ensures var c := AfterRun(NEW_CONNECTION, moves);
            CanMove(c, Move(side, Receive)) ==> CheckHolds(c.At(side), c.Incoming(side)[c.At(side).handled])
  {
    var c := AfterRun(NEW_CONNECTION, moves);
    RunKeepsInv(NEW_CONNECTION, moves);
    if CanMove(c, Move(side, Receive)) {
      NextMessage(c.At(side), c.Incoming(side));
    }
  }

  lemma {:induction false} BodiesPrefix(ms: seq<Message>, n: nat)
    requires n <= |ms|
    ensures Bodies(ms[..n]) <= Bodies(ms)
    decreases |ms| - n
  {
    if n < |ms| {
      BodiesAppend(ms[..n], ms[n]);
      assert ms[..n + 1] == ms[..n] + [ms[n]];
      BodiesPrefix(ms, n + 1);
    } else {
      assert ms[..n] == ms;
    }
  }

  /**
   What an end passes on is a prefix of what the other end accepted, and all that
   was produced there once all of it is handled here.
   */
  lemma DeliveryIsInOrder(moves: seq<Move>, side: Side)
    requires IsRun(NEW_CONNECTION, moves)
    ensures var c := AfterRun(NEW_CONNECTION, moves);
            var here, there := c.At(side), c.At(if side == Left then Right else Left);
            && here.passedOn <= there.sent <= there.accepted
            && (here.handled == |there.emitted| ==> here.passedOn == there.sent)
  {
    var c := AfterRun(NEW_CONNECTION, moves);
    RunKeepsInv(NEW_CONNECTION, moves);
    BodiesPrefix(c.Incoming(side), c.At(side).handled);
    assert c.Incoming(side)[..|c.Incoming(side)|] == c.Incoming(side);
  }

  /** Close is called at most once, and, once the worker is idle, exactly if GOODBYE went both ways. */
  lemma ClosedExactlyOnce(moves: seq<Move>, side: Side)
    requires IsRun(NEW_CONNECTION, moves)
    ensures var c := AfterRun(NEW_CONNECTION, moves);
            var e := c.At(side);
            && e.closes <= 1 && e.handled <= |c.Incoming(side)|
            && (e.closes == 1 ==> Goodbye in e.emitted && Goodbye in c.Incoming(side)[..e.handled])
            && (e.worker == Idle ==>
                  (e.closes == 1 <==> Goodbye in e.emitted && Goodbye in c.Incoming(side)[..e.handled]))
  {
    var c := AfterRun(NEW_CONNECTION, moves);
    var e := c.At(side);
    RunKeepsInv(NEW_CONNECTION, moves);
    GoodbyeEnds(e.emitted, |e.emitted|);
    assert e.emitted[..|e.emitted|] == e.emitted;
    GoodbyeEnds(c.Incoming(side), e.handled);
  }

  lemma GoodbyeEnds(ms: seq<Message>, n: nat)
    requires IsTranscript(ms) && n <= |ms|
    ensures Goodbye in ms[..n] <==> Ended(ms[..n])
  {
    if Goodbye in ms[..n] {
      var i :| 0 <= i < n && ms[..n][i] == Goodbye;
      assert ms[i] == Goodbye;
    }
  }

  // Draining.

  predicate DrainsQueue(step: Step) {
    step == DrainQueue || step == DrainAfterGoodbye
  }

  lemma StaysDrained(e: End, incoming: seq<Message>, step: Step)
    requires Enabled(e, incoming, step) && (e.queueDraining || DrainsQueue(step))
    ensures After(e, incoming, step).queueDraining && After(e, incoming, step).accepted == e.accepted
  {
  }

  /**
   From the moment the output queue is drained, by Drain or after GOODBYE came in,
   SendMessage accepts nothing any more, whatever happens at either end.
   */
  lemma {:induction false} DrainIsFinal(c: Connection, moves: seq<Move>, k: nat, side: Side)
    requires IsRun(c, moves) && k < |moves| && moves[k].side == side && DrainsQueue(moves[k].step)
    ensures IsRun(c, moves[..k])
    ensures var e := AfterRun(c, moves).At(side);
            e.queueDraining && e.accepted == AfterRun(c, moves[..k]).At(side).accepted
    decreases |moves|
  {
    var shorter, last := moves[..|moves| - 1], moves[|moves| - 1];
    var d := AfterRun(c, shorter);
    if k < |shorter| {
      DrainIsFinal(c, shorter, k, side);
      assert shorter[..k] == moves[..k];
    }
    if last.side == side {
      StaysDrained(d.At(side), d.Incoming(side), last.step);
    }
  }

  /** A step of one end, with the end it leads to. */
  lemma Takes(c: Connection, moves: seq<Move>, side: Side, step: Step, f: End) returns (more: seq<Move>)
    requires IsRun(c, moves)
    requires var d := AfterRun(c, moves);
             Enabled(d.At(side), d.Incoming(side), step) && After(d.At(side), d.Incoming(side), step) == f
    ensures IsRun(c, more) && |more| == |moves| + 1 && AfterRun(c, more).At(side) == f
  {
    OneMore(c, moves, Move(side, step));
    more := moves + [Move(side, step)];
  }

  /** Another message taken from the output queue. */
  lemma SendsOne(c: Connection, moves: seq<Move>, side: Side, e: End) returns (more: seq<Move>)
    requires IsRun(c, moves) && AfterRun(c, moves).At(side) == e
    requires e.worker == Idle && e.send == HelloSent && e.queue != []
    ensures IsRun(c, more) && |more| == |moves| + 2
    ensures AfterRun(c, more).At(side) ==
            e.(queue := e.queue[1..], sent := e.sent + [e.queue[0]], emitted := e.emitted + [Regular(e.queue[0])])
  {
    more := Takes(c, moves, side, NextOutput, e.(worker := Checked));
    more := Takes(c, more, side, PopOutput, e.(queue := e.queue[1..], sent := e.sent + [e.queue[0]],
                                               emitted := e.emitted + [Regular(e.queue[0])]));
  }

  /** And, once it is empty, GOODBYE. */
  lemma SendsGoodbye(c: Connection, moves: seq<Move>, side: Side, e: End) returns (more: seq<Move>)
    requires IsRun(c, moves) && AfterRun(c, moves).At(side) == e
    requires e.worker == Idle && e.send == HelloSent && e.queue == [] && e.drain
    ensures IsRun(c, more) && |more| == |moves| + 3
    ensures var f := AfterRun(c, more).At(side);
            f.send == GoodbyeSent && f.emitted == e.emitted + [Goodbye] && f.sent == e.sent && f.accepted == e.accepted
  {
    more := Takes(c, moves, side, NextOutput, e.(worker := Checked));
    more := Takes(c, more, side, PopOutput, e.(worker := FoundNothing));
    more := Takes(c, more, side, FinishOutput,
                  e.(send := GoodbyeSent, emitted := e.emitted + [Goodbye],
                     worker := if e.receive == GoodbyeReceived then MustClose else Idle));
  }

  /**
   A drain leads to GOODBYE: with two steps for each message that waits and three
   more, the worker of the drained end has sent everything that was accepted, in
   order, and GOODBYE after it. It needs nobody else for that.
   */
  lemma {:induction false} DrainLeadsToGoodbye(c: Connection, moves: seq<Move>, side: Side) returns (more: seq<Move>)
    requires Inv(c) && IsRun(c, moves)
    requires var e := AfterRun(c, moves).At(side); e.worker == Idle && e.send == HelloSent && e.drain
    ensures IsRun(c, more) && |more| == |moves| + 2 * |AfterRun(c, moves).At(side).queue| + 3
    ensures var e, f := AfterRun(c, moves).At(side), AfterRun(c, more).At(side);
            && f.send == GoodbyeSent && f.accepted == e.accepted == f.sent
            && Bodies(f.emitted) == f.accepted && Ended(f.emitted)
    decreases |AfterRun(c, moves).At(side).queue|
  {
    if AfterRun(c, moves).At(side).queue == [] {
      more := SendsGoodbye(c, moves, side, AfterRun(c, moves).At(side));
      RunKeepsInv(c, moves);
      RunKeepsInv(c, more);
    } else {
      var next := SendsOne(c, moves, side, AfterRun(c, moves).At(side));
      more := DrainLeadsToGoodbye(c, next, side);
    }
  }

  // A message that SendMessage accepted can be left behind.

  lemma StepAfterGoodbye(e: End, incoming: seq<Message>, step: Step)
    requires SendMatches(e) && e.send == GoodbyeSent && Enabled(e, incoming, step)
    ensures var f := After(e, incoming, step);
            && f.send == GoodbyeSent && f.sent == e.sent
            && (e.queueDraining ==> f.queueDraining && f.accepted == e.accepted)
  {
  }

  /** With GOODBYE produced, nothing more is taken from the output queue. */
  lemma {:induction false} NothingSentAfterGoodbye(c: Connection, moves: seq<Move>, side: Side)
    requires Inv(c) && IsRun(c, moves) && c.At(side).send == GoodbyeSent
    ensures var e := AfterRun(c, moves).At(side);
            && e.send == GoodbyeSent && e.sent == c.At(side).sent
            && (c.At(side).queueDraining ==> e.queueDraining && e.accepted == c.At(side).accepted)
    decreases |moves|
  {
    if moves != [] {
      var shorter := moves[..|moves| - 1];
      NothingSentAfterGoodbye(c, shorter, side);
      RunKeepsInv(c, shorter);
      var d, m := AfterRun(c, shorter), moves[|moves| - 1];
      if m.side == side {
        StepAfterGoodbye(d.At(side), d.Incoming(side), m.step);
      }
    }
  }

  ghost predicate NothingIsEverLost(c: Connection, side: Side) {
    forall moves | IsRun(c, moves) :: AfterRun(c, moves).At(side).accepted == AfterRun(c, moves).At(side).sent
  }

  /**
   Once GOODBYE is produced, every message that SendMessage has accepted, or will
   accept, is sent exactly if the output queue was empty and refused new ones.
   */
  lemma LostExactlyWhen(c: Connection, side: Side)
    requires Inv(c) && c.At(side).send == GoodbyeSent
    ensures NothingIsEverLost(c, side) <==> c.At(side).queue == [] && c.At(side).queueDraining
  {
    var e := c.At(side);
    if e.queue == [] && e.queueDraining {
      forall moves | IsRun(c, moves)
        ensures AfterRun(c, moves).At(side).accepted == AfterRun(c, moves).At(side).sent
      {
        NothingSentAfterGoodbye(c, moves, side);
      }
    } else if e.queue != [] {
      assert IsRun(c, []) && AfterRun(c, []) == c;
    } else {
      OneMore(c, [], Move(side, SendMessage(0)));
      assert IsRun(c, []) && AfterRun(c, []) == c;
      var moves := [] + [Move(side, SendMessage(0))];
      assert IsRun(c, moves) && AfterRun(c, moves).At(side).accepted != AfterRun(c, moves).At(side).sent;
    }
  }

  lemma OneMore(c: Connection, moves: seq<Move>, m: Move)
    requires IsRun(c, moves) && CanMove(AfterRun(c, moves), m)
    ensures IsRun(c, moves + [m]) && AfterRun(c, moves + [m]) == Moved(AfterRun(c, moves), m)
  {
    assert (moves + [m])[..|moves|] == moves;
  }

  /** It happens when a message and a drain come in after the worker found the output queue empty. */
  lemma AcceptedCanBeLost(body: Body)
    ensures exists moves | IsRun(NEW_CONNECTION, moves) ::
              var e := AfterRun(NEW_CONNECTION, moves).At(Left); e.send == GoodbyeSent && e.queue == [body]
  {
    var c := NEW_CONNECTION;
    var hello, check := Move(Left, NextOutput), Move(Left, NextOutput);
    OneMore(c, [], hello);
    OneMore(c, [hello], check);
    assert [] + [hello] == [hello] && [hello] + [check] == [hello, check];
    Losing(c, [hello, check], body);
  }

  lemma Losing(c: Connection, moves: seq<Move>, body: Body)
    requires IsRun(c, moves)
    requires var e := AfterRun(c, moves).left; e.worker == Checked && e.queue == [] && !e.queueDraining
    ensures exists more | IsRun(c, more) ::
              var e := AfterRun(c, more).left; e.send == GoodbyeSent && e.queue == [body]
  {
    OneMore(c, moves, Move(Left, PopOutput));
    var found := moves + [Move(Left, PopOutput)];
    OneMore(c, found, Move(Left, SendMessage(body)));
    Leaving(c, found + [Move(Left, SendMessage(body))], body);
  }

  lemma Leaving(c: Connection, moves: seq<Move>, body: Body)
    requires IsRun(c, moves)
    requires var e := AfterRun(c, moves).left; e.worker == FoundNothing && e.queue == [body]
    ensures exists more | IsRun(c, more) ::
              var e := AfterRun(c, more).left; e.send == GoodbyeSent && e.queue == [body]
  {
    OneMore(c, moves, Move(Left, RequestDrain));
    var draining := moves + [Move(Left, RequestDrain)];
    OneMore(c, draining, Move(Left, FinishOutput));
    assert IsRun(c, draining + [Move(Left, FinishOutput)]);
  }
}
