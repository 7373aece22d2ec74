/**
 From a sender's sequencer to a receiver's object history. The wire may repeat
 messages, but a receiver that inserts what it is sent reaches the history it
 would reach had each message arrived once, in transaction order.
 */
module EndToEnd {
  import opened TransactionIds
  import opened VersionMaps
  import opened Histories
  import Sequencer

  type ObjectId = nat

  /** The messages that carry a transaction id; only APPLY_TRANSACTION changes a history. */
  datatype Body =
    | ApplyTransaction(objects: map<ObjectId, seq<Event>>)
    | RejectTransaction(rejected: seq<(Peer, Id)>)
    | InvalidateTransactions(start: Id)

  datatype Target = Unicast(peer: Peer) | Broadcast

  datatype Message = Message(target: Target, body: Body)

  type Entry = Sequencer.Entry<Message>

  predicate ReachesPeer(m: Message, receiver: Peer) {
    m.target == Broadcast || m.target == Unicast(receiver)
  }

  /** The receiver's InsertTransaction calls on one object, for the entries of a wire log. */
  function Received(wire: seq<Entry>, sender: Peer, receiver: Peer, o: ObjectId): seq<Operation>
    decreases |wire|
  {
    if wire == [] then []
    else
      var before, e := Received(wire[..|wire| - 1], sender, receiver, o), wire[|wire| - 1];
      if Affects(e, receiver, o) then before + [InsertOf(e, sender, o)] else before
  }

  predicate Affects(e: Entry, receiver: Peer, o: ObjectId) {
    ReachesPeer(e.message, receiver) && e.message.body.ApplyTransaction? && o in e.message.body.objects
  }

  function InsertOf(e: Entry, sender: Peer, o: ObjectId): Operation
    requires e.message.body.ApplyTransaction? && o in e.message.body.objects
  {
    Insert(sender, e.id, e.message.body.objects[o], false)
  }

  /** The history has the transaction of the insert, covers it, and counts its origin as up to date. */
  predicate HasInsert(h: History, op: Operation)
    requires op.Insert?
  {
    op.id in h.committed && Has(h.versionMap, op.origin, op.id) && op.origin in h.upToDate
  }

  lemma InsertStays(h: History, op: Operation, next: Operation)
    requires op.Insert? && (next == op || HasInsert(h, op))
    ensures HasInsert(Applied(h, next), op)
  {
    AppliedVersionMap(h, next, op.origin, op.id);
    if next == op {
      assert op.id in Offers(op) && CoveredBy(Offers(op), op.origin, op.id);
    }
  }

  lemma {:induction false} InsertedOnce(h: History, ops: seq<Operation>, op: Operation)
    requires op in ops && op.Insert?
    ensures HasInsert(AfterRun(h, ops), op)
    decreases |ops|
  {
    var shorter, last := ops[..|ops| - 1], ops[|ops| - 1];
    InRun(ops);
    if last != op {
      InsertedOnce(h, shorter, op);
    }
    InsertStays(AfterRun(h, shorter), op, last);
  }

  /** Inserting a remote transaction again changes nothing. */
  lemma RepeatIsAbsorbed(h: History, ops: seq<Operation>, op: Operation)
    requires op in ops && op.Insert? && !op.local
    ensures Applied(AfterRun(h, ops), op) == AfterRun(h, ops)
  {
    InsertedOnce(h, ops, op);
    var after := AfterRun(h, ops);
    AddedIsUnion(after.versionMap, op.origin, op.id);
    assert after.upToDate + {op.origin} == after.upToDate;
  }

  lemma {:induction false} ReceivedMembers(wire: seq<Entry>, sender: Peer, receiver: Peer, o: ObjectId, e: Entry)
    requires e in wire && Affects(e, receiver, o)
    ensures InsertOf(e, sender, o) in Received(wire, sender, receiver, o)
    decreases |wire|
  {
    if e != wire[|wire| - 1] {
      assert wire == wire[..|wire| - 1] + [wire[|wire| - 1]];
      ReceivedMembers(wire[..|wire| - 1], sender, receiver, o, e);
    }
  }

  /** A receiver of the wire ends where a receiver of the wire without repeats ends. */
  lemma {:induction false} RepeatsAreHarmless(h: History, wire: seq<Entry>, sender: Peer, receiver: Peer, o: ObjectId)
    ensures AfterRun(h, Received(wire, sender, receiver, o)) ==
            AfterRun(h, Received(Sequencer.DropRepeats(wire), sender, receiver, o))
    decreases |wire|
  {
    if wire != [] {
      var shorter, e := wire[..|wire| - 1], wire[|wire| - 1];
      RepeatsAreHarmless(h, shorter, sender, receiver, o);
      var before := Received(shorter, sender, receiver, o);
      if Affects(e, receiver, o) {
        var op := InsertOf(e, sender, o);
        AppendRun(h, before, op);
        if e in shorter {
          ReceivedMembers(shorter, sender, receiver, o, e);
          RepeatIsAbsorbed(h, before, op);
        } else {
          ReceivedAppend(Sequencer.DropRepeats(shorter), e, sender, receiver, o);
          AppendRun(h, Received(Sequencer.DropRepeats(shorter), sender, receiver, o), op);
        }
      } else {
        ReceivedAppend(Sequencer.DropRepeats(shorter), e, sender, receiver, o);
      }
    }
  }

  lemma AppendRun(h: History, ops: seq<Operation>, op: Operation)
    ensures AfterRun(h, ops + [op]) == Applied(AfterRun(h, ops), op)
  {
    assert (ops + [op])[..|ops|] == ops;
  }

  lemma ReceivedAppend(wire: seq<Entry>, e: Entry, sender: Peer, receiver: Peer, o: ObjectId)
    ensures Received(wire + [e], sender, receiver, o) ==
            if Affects(e, receiver, o)
            then Received(wire, sender, receiver, o) + [InsertOf(e, sender, o)]
            else Received(wire, sender, receiver, o)
  {
    assert (wire + [e])[..|wire|] == wire;
  }

  /** Whatever the messages, what is inserted is what the wire carries to this receiver for this object. */
  lemma {:induction false} InsertedExactlyWhen(wire: seq<Entry>, sender: Peer, receiver: Peer, o: ObjectId, id: Id)
    ensures Offered(Received(wire, sender, receiver, o), id) <==>
            exists e | e in wire :: e.id == id && Carries(e.message, receiver, o)
    decreases |wire|
  {
    if wire != [] {
      var shorter, e := wire[..|wire| - 1], wire[|wire| - 1];
      InsertedExactlyWhen(shorter, sender, receiver, o, id);
      assert wire == shorter + [e];
      var before := Received(shorter, sender, receiver, o);
      if Affects(e, receiver, o) {
        var op := InsertOf(e, sender, o);
        assert forall x :: x in before + [op] <==> x in before || x == op;
        assert Offered(before + [op], id) <==> Offered(before, id) || id in Offers(op);
      }
    }
  }

  /** A message with events for the object, sent to this peer or to all. */
  predicate Carries(m: Message, receiver: Peer, o: ObjectId) {
    match m
    case Message(Broadcast, ApplyTransaction(objects)) => o in objects
    case Message(Unicast(p), ApplyTransaction(objects)) => p == receiver && o in objects
    case _ => false
  }

  /** After delivery the receiver's history covers the sender's inserted transactions, and knows the sender. */
  lemma DeliveredIsCommitted(wire: seq<Entry>, sender: Peer, receiver: Peer, o: ObjectId, e: Entry)
    requires e in wire && Carries(e.message, receiver, o)
    ensures var h := AfterRun(EMPTY, Received(wire, sender, receiver, o));
            e.id in h.committed && Has(h.versionMap, sender, e.id) && sender in h.upToDate
  {
    var ops, op := Received(wire, sender, receiver, o), InsertOf(e, sender, o);
    ReceivedMembers(wire, sender, receiver, o, e);
    assert e.id in Offers(op) && Offers(op)[e.id].origin == sender;
    assert Witnesses(op, sender, e.id) && Speaker(op) == sender;
    CommittedMeaning(ops, e.id);
    VersionMapMeaning(ops, sender, e.id);
    PeersMeaning(ops, sender);
  }

  /** Receivers of broadcasts have the same history of every object. */
  lemma {:induction false} BroadcastsAgree(h: History, wire: seq<Entry>, sender: Peer, receiver: Peer, other: Peer,
                                           o: ObjectId)
    requires forall e | e in wire :: e.message.target == Broadcast
    ensures AfterRun(h, Received(wire, sender, receiver, o)) == AfterRun(h, Received(wire, sender, other, o))
    ensures Received(wire, sender, receiver, o) == Received(wire, sender, other, o)
    decreases |wire|
  {
    if wire != [] {
      assert wire[|wire| - 1] in wire && forall e | e in wire[..|wire| - 1] :: e in wire;
      BroadcastsAgree(h, wire[..|wire| - 1], sender, receiver, other, o);
    }
  }

  /**
   End to end: after any good run of the sender's sequencer, a receiver that
   inserts the transactions of the wire in the order they come has the history
   of one that gets each queued message once: the retired transactions' in id
   and queue order, then the head's.
   */
  lemma DeliveryIsAsIfOnce(high: Word, low: Word, last: Word, ops: seq<Sequencer.Operation<Message>>,
                           h: History, sender: Peer, receiver: Peer, o: ObjectId)
    requires Sequencer.GoodRun(Sequencer.Initial(high, low, last), ops)
    ensures var s := Sequencer.AfterRun(Sequencer.Initial(high, low, last), ops);
            && AfterRun(h, Received(s.wire, sender, receiver, o)) ==
               AfterRun(h, Received(Sequencer.AllSent(s.retired) + Sequencer.HeadOf(s.pending), sender, receiver, o))
            && Sequencer.Remembers(s, ops)
            && AfterRun(h, Received(s.wire, sender, receiver, o)).maxRequested == h.maxRequested
  {
    var s := Sequencer.AfterRun(Sequencer.Initial<Message>(high, low, last), ops);
    Sequencer.RunIsConsistent(high, low, last, ops);
    RepeatsAreHarmless(h, s.wire, sender, receiver, o);
    RemoteKeepsRequested(h, s.wire, sender, receiver, o);
  }

  lemma {:induction false} RemoteKeepsRequested(h: History, wire: seq<Entry>, sender: Peer, receiver: Peer, o: ObjectId)
    ensures AfterRun(h, Received(wire, sender, receiver, o)).maxRequested == h.maxRequested
    decreases |wire|
  {
    if wire != [] {
      var shorter, e := wire[..|wire| - 1], wire[|wire| - 1];
      RemoteKeepsRequested(h, shorter, sender, receiver, o);
      if Affects(e, receiver, o) {
        AppendRun(h, Received(shorter, sender, receiver, o), InsertOf(e, sender, o));
      }
    }
  }
}
