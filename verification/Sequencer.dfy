/**
 The outgoing message sequencer (engine/transaction_sequencer.cc). Messages that
 belong to a transaction wait until every earlier transaction is released. A
 flush sends the messages of the first transaction again each time, so a message
 can appear on the wire more than once; the order is what is guaranteed.
 */
module Sequencer {
  import opened Wrappers
  import opened TransactionIds

  /** A reserved transaction and the messages queued for it so far. */
  datatype Pending<M> = Pending(id: Id, messages: seq<M>, done: bool)

  /** One message on the wire: the index-th message of its transaction. */
  datatype Entry<M> = Entry(id: Id, index: nat, message: M)

  /**
   `last` is the generator's last stamp, `pending` the transactions in id order
   and `wire` what was handed to the message sender. `retired` is for the
   specification: the transactions that were flushed and forgotten.
   */
  datatype State<M> = State(
    high: Word, low: Word, last: Word,
    pending: seq<Pending<M>>,
    wire: seq<Entry<M>>,
    retired: seq<Pending<M>>)

  function Initial<M>(high: Word, low: Word, last: Word): State<M> {
    State(high, low, last, [], [], [])
  }

  function Stamp<M>(s: State<M>, time: Word): Id {
    Rank(TransactionId(time, s.high, s.low))
  }

  /** The wire entries for all messages of a transaction. */
  function Sent<M>(p: Pending<M>): seq<Entry<M>> {
    seq(|p.messages|, i requires 0 <= i < |p.messages| => Entry(p.id, i, p.messages[i]))
  }

  /** The messages of the head are sent, and the head is forgotten. */
  function Popped<M>(s: State<M>): State<M>
    requires s.pending != []
  {
    var head := s.pending[0];
    s.(wire := s.wire + Sent(head), pending := s.pending[1..], retired := s.retired + [head])
  }

  /** The loop of FlushMessages_Locked. */
  function Flushed<M>(s: State<M>): State<M>
    decreases |s.pending|
  {
    if s.pending == [] then s
    else if !s.pending[0].done then s.(wire := s.wire + Sent(s.pending[0]))
    else Flushed(Popped(s))
  }

  datatype Operation<M> = Reserve(clock: Word) | Release(id: Id) | Queue(id: Id, message: M)

  predicate IsPending<M>(s: State<M>, id: Id) {
    exists i | 0 <= i < |s.pending| :: s.pending[i].id == id
  }

  function Position<M>(s: State<M>, id: Id): (k: nat)
    ensures k <= |s.pending|
    ensures k < |s.pending| ==> s.pending[k].id == id
    ensures k < |s.pending| <==> IsPending(s, id)
  {
    PositionFrom(s, id, 0)
  }

  function PositionFrom<M>(s: State<M>, id: Id, from: nat): (k: nat)
    requires from <= |s.pending| && forall i | 0 <= i < from :: s.pending[i].id != id
    ensures k <= |s.pending|
    ensures k < |s.pending| ==> s.pending[k].id == id
    ensures forall i | 0 <= i < k :: s.pending[i].id != id
    decreases |s.pending| - from
  {
    if from == |s.pending| || s.pending[from].id == id then from else PositionFrom(s, id, from + 1)
  }

  /** The CHECKs of the three operations hold. */
  predicate Allowed<M>(s: State<M>, op: Operation<M>) {
    match op
    case Reserve(clock) => s.pending == [] || s.pending[|s.pending| - 1].id < Stamp(s, NextTime(s.last, clock))
    case Release(id) => IsPending(s, id) && !s.pending[Position(s, id)].done
    case Queue(id, _) => IsPending(s, id)
  }

  /** What an operation other than a reservation does to its transaction. */
  function Touched<M>(p: Pending<M>, op: Operation<M>): Pending<M> {
    match op
    case Reserve(_) => p
    case Release(_) => p.(done := true)
    case Queue(_, message) => p.(messages := p.messages + [message])
  }

  function WithPending<M>(s: State<M>, k: nat, p: Pending<M>): State<M>
    requires k < |s.pending|
  {
    s.(pending := s.pending[k := p])
  }

  function After<M>(s: State<M>, op: Operation<M>): State<M>
    requires Allowed(s, op)
  {
    match op
    case Reserve(clock) =>
      var time := NextTime(s.last, clock);
      s.(last := time, pending := s.pending + [Pending(Stamp(s, time), [], false)])
    case Release(id) => Flushed(WithPending(s, Position(s, id), Touched(s.pending[Position(s, id)], op)))
    case Queue(id, _) => Flushed(WithPending(s, Position(s, id), Touched(s.pending[Position(s, id)], op)))
  }

  // What a run keeps.

  /** The log with every repeat of an entry dropped. */
  function DropRepeats<T(==)>(log: seq<T>): seq<T>
    decreases |log|
  {
    if log == [] then []
    else
      var shorter, last := log[..|log| - 1], log[|log| - 1];
      if last in shorter then DropRepeats(shorter) else DropRepeats(shorter) + [last]
  }

  /** All messages of these transactions, transaction by transaction in queue order. */
  function AllSent<M>(ps: seq<Pending<M>>): seq<Entry<M>>
    decreases |ps|
  {
    if ps == [] then [] else AllSent(ps[..|ps| - 1]) + Sent(ps[|ps| - 1])
  }

  function HeadOf<M>(ps: seq<Pending<M>>): seq<Entry<M>> {
    if ps == [] then [] else Sent(ps[0])
  }

  predicate AscendTo<M>(all: seq<Pending<M>>, stamp: Id) {
    && (forall i, j | 0 <= i < j < |all| :: all[i].id < all[j].id)
    && (forall i | 0 <= i < |all| :: all[i].id <= stamp)
  }

  /** Ids ascend through the retired and the pending transactions, up to the last stamp. */
  predicate InOrder<M>(s: State<M>) {
    AscendTo(s.retired + s.pending, Stamp(s, s.last))
  }

  predicate WireAscends<M>(wire: seq<Entry<M>>) {
    forall i, j | 0 <= i < j < |wire| :: wire[i].id <= wire[j].id
  }

  predicate WireBelow<M>(wire: seq<Entry<M>>, id: Id) {
    forall i | 0 <= i < |wire| :: wire[i].id <= id
  }

  /**
   Between operations: the wire without repeats is all messages of the retired
   transactions, in order, followed by the head's; ids never decrease on it;
   the head is not released yet.
   */
  predicate Consistent<M(==)>(s: State<M>) {
    && InOrder(s)
    && (s.pending != [] ==> !s.pending[0].done)
    && DropRepeats(s.wire) == AllSent(s.retired) + HeadOf(s.pending)
    && WireAscends(s.wire)
  }

  /** Before a flush: only the first k messages of the head have been sent. */
  predicate ReadyToFlush<M(==)>(s: State<M>, k: nat) {
    && InOrder(s)
    && k <= |HeadOf(s.pending)|
    && DropRepeats(s.wire) == AllSent(s.retired) + HeadOf(s.pending)[..k]
    && WireAscends(s.wire)
  }

  lemma {:induction false} DropRepeatsMembers<T>(log: seq<T>, x: T)
    ensures x in DropRepeats(log) <==> x in log
    decreases |log|
  {
    if log != [] {
      var shorter, last := log[..|log| - 1], log[|log| - 1];
      assert log == shorter + [last];
      DropRepeatsMembers(shorter, x);
      DropRepeatsMembers(shorter, last);
    }
  }

  /** Appending a list of distinct entries whose first k are already there adds the others. */
  lemma {:induction false} DropRepeatsAppend<T>(log: seq<T>, more: seq<T>, k: nat)
    requires k <= |more|
    requires forall i, j | 0 <= i < j < |more| :: more[i] != more[j]
    requires forall i | 0 <= i < k :: more[i] in log
    requires forall i | k <= i < |more| :: more[i] !in log
    ensures DropRepeats(log + more) == DropRepeats(log) + more[k..]
    decreases |more|
  {
    if more == [] {
      assert log + more == log;
    } else {
      var shorter, last := more[..|more| - 1], more[|more| - 1];
      assert (log + more)[..|log + more| - 1] == log + shorter;
      assert (log + more)[|log + more| - 1] == last;
      if k == |more| {
        DropRepeatsAppend(log, shorter, k - 1);
        assert last in log + shorter;
      } else {
        DropRepeatsAppend(log, shorter, k);
        assert last !in log + shorter;
        assert more[k..] == shorter[k..] + [last];
      }
    }
  }

  lemma {:induction false} AllSentMembers<M>(ps: seq<Pending<M>>, e: Entry<M>)
    ensures e in AllSent(ps) <==> exists i | 0 <= i < |ps| :: e in Sent(ps[i])
    decreases |ps|
  {
    if ps != [] {
      AllSentMembers(ps[..|ps| - 1], e);
      assert forall i | 0 <= i < |ps| - 1 :: ps[..|ps| - 1][i] == ps[i];
    }
  }

  /** An entry on the wire is of a retired transaction, or one of the head's that were sent. */
  lemma EntryOnWire<M>(s: State<M>, k: nat, e: Entry<M>)
    requires ReadyToFlush(s, k) && s.pending != [] && e in s.wire
    ensures e.id < s.pending[0].id || e in Sent(s.pending[0])[..k]
  {
    DropRepeatsMembers(s.wire, e);
    if e in AllSent(s.retired) {
      AllSentMembers(s.retired, e);
      var i :| 0 <= i < |s.retired| && e in Sent(s.retired[i]);
      var all := s.retired + s.pending;
      assert all[i] == s.retired[i] && all[|s.retired|] == s.pending[0];
    }
  }

  lemma SentIsOnWire<M>(s: State<M>, k: nat, i: nat)
    requires ReadyToFlush(s, k) && s.pending != [] && i < k
    ensures Sent(s.pending[0])[i] in s.wire
  {
    var sent := Sent(s.pending[0]);
    assert sent[..k][i] == sent[i];
    assert sent[i] in AllSent(s.retired) + sent[..k];
    DropRepeatsMembers(s.wire, sent[i]);
  }

  /** Nothing on the wire belongs to a transaction after the head. */
  lemma WireIsBelowHead<M>(s: State<M>, k: nat)
    requires ReadyToFlush(s, k) && s.pending != []
    ensures WireBelow(s.wire, s.pending[0].id)
    ensures forall i | k <= i < |Sent(s.pending[0])| :: Sent(s.pending[0])[i] !in s.wire
    ensures forall i | 0 <= i < k :: Sent(s.pending[0])[i] in s.wire
  {
    var sent := Sent(s.pending[0]);
    forall i | 0 <= i < |s.wire|
      ensures s.wire[i].id <= s.pending[0].id
    {
      EntryOnWire(s, k, s.wire[i]);
    }
    forall i | k <= i < |sent|
      ensures sent[i] !in s.wire
    {
      assert sent[i] !in sent[..k];
      if sent[i] in s.wire {
        EntryOnWire(s, k, sent[i]);
      }
    }
    forall i | 0 <= i < k
      ensures sent[i] in s.wire
    {
      SentIsOnWire(s, k, i);
    }
  }

  lemma SendingHead<M>(s: State<M>, k: nat)
    requires ReadyToFlush(s, k) && s.pending != []
    ensures DropRepeats(s.wire + Sent(s.pending[0])) == AllSent(s.retired) + Sent(s.pending[0])
    ensures WireAscends(s.wire + Sent(s.pending[0]))
  {
    var sent, earlier := Sent(s.pending[0]), AllSent(s.retired);
    WireIsBelowHead(s, k);
    SentDistinct(s.pending[0]);
    DropRepeatsAppend(s.wire, sent, k);
    SplitRejoin(earlier, sent, k);
    WireAscendsFurther(s.wire, s.pending[0]);
  }

  lemma SentDistinct<M>(p: Pending<M>)
    ensures forall i, j | 0 <= i < j < |Sent(p)| :: Sent(p)[i] != Sent(p)[j]
  {
    assert forall i | 0 <= i < |Sent(p)| :: Sent(p)[i].index == i;
  }

  lemma SplitRejoin<T>(a: seq<T>, b: seq<T>, k: nat)
    requires k <= |b|
    ensures a + b[..k] + b[k..] == a + b
  {
  }

  lemma WireAscendsFurther<M>(wire: seq<Entry<M>>, head: Pending<M>)
    requires WireAscends(wire) && WireBelow(wire, head.id)
    ensures WireAscends(wire + Sent(head))
  {
  }

  /** A flush brings the wire up to date and loses no transaction. */
  lemma {:induction false} FlushRestores<M>(s: State<M>, k: nat)
    requires ReadyToFlush(s, k)
    ensures Consistent(Flushed(s))
    ensures Flushed(s).retired + Flushed(s).pending == s.retired + s.pending
    ensures Flushed(s).(pending := s.pending, wire := s.wire, retired := s.retired) == s
    decreases |s.pending|
  {
    if s.pending != [] {
      SendingHead(s, k);
      if s.pending[0].done {
        PoppedIsReady(s, k);
        FlushRestores(Popped(s), 0);
      }
    }
  }

  lemma PoppedIsReady<M>(s: State<M>, k: nat)
    requires ReadyToFlush(s, k) && s.pending != []
    ensures ReadyToFlush(Popped(s), 0)
    ensures Popped(s).retired + Popped(s).pending == s.retired + s.pending
  {
    SendingHead(s, k);
    HeadRejoins(s.retired, s.pending);
    AllSentAppend(s.retired, s.pending[0]);
    NothingTaken(AllSent(Popped(s).retired), HeadOf(Popped(s).pending));
  }

  lemma HeadRejoins<T>(a: seq<T>, b: seq<T>)
    requires b != []
    ensures (a + [b[0]]) + b[1..] == a + b
  {
  }

  lemma AllSentAppend<M>(ps: seq<Pending<M>>, p: Pending<M>)
    ensures AllSent(ps + [p]) == AllSent(ps) + Sent(p)
  {
    assert (ps + [p])[..|ps|] == ps;
  }

  lemma NothingTaken<T>(a: seq<T>, b: seq<T>)
    ensures a + b[..0] == a
  {
  }

  /** Reserving never fails its CHECK and keeps the order, as long as the stamp does not wrap. */
  lemma ReserveKeeps<M>(s: State<M>, clock: Word)
    requires Consistent(s) && s.last < UINT64_MAX
    ensures Allowed(s, Reserve(clock))
    ensures Consistent(After(s, Reserve(clock)))
    ensures Stamp(s, s.last) < Stamp(s, NextTime(s.last, clock))
  {
    var time := NextTime(s.last, clock);
    NextTimeAdvances(s.last, clock);
    StampOrder(s.last, time, s.high, s.low);
    var all := s.retired + s.pending;
    assert s.pending != [] ==> all[|all| - 1] == s.pending[|s.pending| - 1];
    ReserveInOrder(s, time);
    assert HeadOf(After(s, Reserve(clock)).pending) == HeadOf(s.pending);
  }

  lemma ReserveInOrder<M>(s: State<M>, time: Word)
    requires InOrder(s) && Stamp(s, s.last) < Stamp(s, time)
    ensures InOrder(s.(last := time, pending := s.pending + [Pending(Stamp(s, time), [], false)]))
  {
    var p := Pending(Stamp(s, time), [], false);
    AscendFurther(s.retired + s.pending, Stamp(s, s.last), p);
    assert s.retired + (s.pending + [p]) == s.retired + s.pending + [p];
  }

  lemma AscendFurther<M>(all: seq<Pending<M>>, stamp: Id, p: Pending<M>)
    requires AscendTo(all, stamp) && stamp < p.id
    ensures AscendTo(all + [p], p.id)
  {
  }

  /** Changing one pending transaction but not its id keeps the order. */
  lemma UpdateInOrder<M>(s: State<M>, k: nat, p: Pending<M>)
    requires InOrder(s) && k < |s.pending| && p.id == s.pending[k].id
    ensures InOrder(WithPending(s, k, p))
    ensures s.retired + s.pending[k := p] == (s.retired + s.pending)[|s.retired| + k := p]
  {
    var all, all' := s.retired + s.pending, s.retired + s.pending[k := p];
    assert forall i | 0 <= i < |all| :: all'[i].id == all[i].id;
  }

  lemma TouchedIsReady<M>(s: State<M>, op: Operation<M>)
    requires Consistent(s) && Allowed(s, op) && !op.Reserve?
    ensures var k := Position(s, op.id);
            ReadyToFlush(WithPending(s, k, Touched(s.pending[k], op)), |HeadOf(s.pending)|)
  {
    var k := Position(s, op.id);
    var p := Touched(s.pending[k], op);
    UpdateInOrder(s, k, p);
    assert HeadOf(s.pending[k := p])[..|HeadOf(s.pending)|] == HeadOf(s.pending);
  }

  /** Queueing and releasing keep the invariant, and change only the one transaction. */
  lemma TouchKeeps<M>(s: State<M>, op: Operation<M>)
    requires Consistent(s) && Allowed(s, op) && !op.Reserve?
    ensures Consistent(After(s, op))
    ensures var k, after := Position(s, op.id), After(s, op);
            && after.retired + after.pending == (s.retired + s.pending)[|s.retired| + k := Touched(s.pending[k], op)]
            && Stamp(after, after.last) == Stamp(s, s.last)
  {
    var k := Position(s, op.id);
    var p := Touched(s.pending[k], op);
    TouchedIsReady(s, op);
    UpdateInOrder(s, k, p);
    FlushRestores(WithPending(s, k, p), |HeadOf(s.pending)|);
  }

  // Runs.

  /** A run whose CHECKs hold and that never reserves at the largest stamp. */
  predicate GoodRun<M>(s: State<M>, ops: seq<Operation<M>>)
    decreases |ops|, 0
  {
    ops == [] ||
    var shorter, last := ops[..|ops| - 1], ops[|ops| - 1];
    GoodRun(s, shorter) &&
    var before := AfterRun(s, shorter);
    Allowed(before, last) && (last.Reserve? ==> before.last < UINT64_MAX)
  }

  function AfterRun<M>(s: State<M>, ops: seq<Operation<M>>): State<M>
    requires GoodRun(s, ops)
    decreases |ops|, 1
  {
    if ops == [] then s else After(AfterRun(s, ops[..|ops| - 1]), ops[|ops| - 1])
  }

  /** The messages a run queued for a transaction, in order. */
  function QueuedFor<M>(ops: seq<Operation<M>>, id: Id): seq<M>
    decreases |ops|
  {
    if ops == [] then []
    else
      var before, last := QueuedFor(ops[..|ops| - 1], id), ops[|ops| - 1];
      if last.Queue? && last.id == id then before + [last.message] else before
  }

  predicate ReleasedIn<M(==)>(ops: seq<Operation<M>>, id: Id) {
    Release(id) in ops
  }

  /** The transaction holds exactly what was queued for it, and is done exactly if released. */
  predicate RecalledOne<M(==)>(p: Pending<M>, ops: seq<Operation<M>>) {
    p.messages == QueuedFor(ops, p.id) && (p.done <==> ReleasedIn(ops, p.id))
  }

  ghost predicate Recalled<M>(all: seq<Pending<M>>, stamp: Id, ops: seq<Operation<M>>) {
    && (forall i | 0 <= i < |all| :: RecalledOne(all[i], ops))
    && (forall id | id > stamp :: QueuedFor(ops, id) == [] && !ReleasedIn(ops, id))
  }

  /** Every transaction ever reserved is recalled, and nothing was queued for or released of any other. */
  ghost predicate Remembers<M>(s: State<M>, ops: seq<Operation<M>>) {
    Recalled(s.retired + s.pending, Stamp(s, s.last), ops)
  }

  /**
   In every such run, for any clock readings, ids never decrease on the wire,
   and without repeats the wire is the messages of the retired transactions in
   id and queue order followed by the head's.
   */
  lemma {:induction false} RunIsConsistent<M>(high: Word, low: Word, last: Word, ops: seq<Operation<M>>)
    requires GoodRun(Initial(high, low, last), ops)
    ensures Consistent(AfterRun(Initial(high, low, last), ops))
    ensures Remembers(AfterRun(Initial(high, low, last), ops), ops)
    decreases |ops|
  {
    if ops != [] {
      var shorter, op := ops[..|ops| - 1], ops[|ops| - 1];
      RunIsConsistent(high, low, last, shorter);
      var before := AfterRun(Initial<M>(high, low, last), shorter);
      assert ops == shorter + [op];
      if op.Reserve? {
        ReserveKeeps(before, op.clock);
        var p := Pending(Stamp(before, NextTime(before.last, op.clock)), [], false);
        ReserveRemembers(before, shorter, op.clock, p, After(before, op));
      } else {
        TouchKeeps(before, op);
        TouchRemembers(before, shorter, op, Position(before, op.id), After(before, op));
      }
    }
  }

  lemma OneMoreQueued<M>(ops: seq<Operation<M>>, op: Operation<M>, id: Id)
    ensures QueuedFor(ops + [op], id) == QueuedFor(ops, id) + (if op.Queue? && op.id == id then [op.message] else [])
    ensures ReleasedIn(ops + [op], id) <==> ReleasedIn(ops, id) || op == Release(id)
  {
    assert (ops + [op])[..|ops|] == ops;
  }

  /** The state after a reservation, known only by the transaction it added and the stamp. */
  lemma ReserveRemembers<M>(s: State<M>, ops: seq<Operation<M>>, clock: Word, p: Pending<M>, after: State<M>)
    requires Remembers(s, ops) && Stamp(s, s.last) < p.id == Stamp(after, after.last) && p.messages == [] && !p.done
    requires after.retired == s.retired && after.pending == s.pending + [p]
    ensures Remembers(after, ops + [Reserve(clock)])
  {
    RecallOneMore(s.retired + s.pending, Stamp(s, s.last), ops, clock, p);
    assert s.retired + (s.pending + [p]) == s.retired + s.pending + [p];
  }

  lemma RecallOneMore<M>(all: seq<Pending<M>>, stamp: Id, ops: seq<Operation<M>>, clock: Word, p: Pending<M>)
    requires Recalled(all, stamp, ops) && stamp < p.id && p.messages == [] && !p.done
    ensures Recalled(all + [p], p.id, ops + [Reserve(clock)])
  {
    forall id
      ensures QueuedFor(ops + [Reserve(clock)], id) == QueuedFor(ops, id)
      ensures ReleasedIn(ops + [Reserve(clock)], id) <==> ReleasedIn(ops, id)
    {
      OneMoreQueued(ops, Reserve(clock), id);
    }
  }

  /** The state after an operation on one transaction, known only by what it did to that transaction. */
  lemma TouchRemembers<M>(s: State<M>, ops: seq<Operation<M>>, op: Operation<M>, k: nat, after: State<M>)
    requires InOrder(s) && Remembers(s, ops) && !op.Reserve? && k < |s.pending| && s.pending[k].id == op.id
    requires after.retired + after.pending == (s.retired + s.pending)[|s.retired| + k := Touched(s.pending[k], op)]
    requires Stamp(after, after.last) == Stamp(s, s.last)
    ensures Remembers(after, ops + [op])
  {
    var all, j := s.retired + s.pending, |s.retired| + k;
    assert all[j] == s.pending[k];
    RecallTouched(all, Stamp(s, s.last), ops, op, j);
  }

  lemma RecallTouched<M>(all: seq<Pending<M>>, stamp: Id, ops: seq<Operation<M>>, op: Operation<M>, j: nat)
    requires AscendTo(all, stamp) && Recalled(all, stamp, ops) && !op.Reserve? && j < |all| && all[j].id == op.id
    ensures Recalled(all[j := Touched(all[j], op)], stamp, ops + [op])
  {
    var all' := all[j := Touched(all[j], op)];
    forall i | 0 <= i < |all'|
      ensures RecalledOne(all'[i], ops + [op])
    {
      OneMoreQueued(ops, op, all[i].id);
      assert RecalledOne(all[i], ops);
    }
    forall id | id > stamp
      ensures QueuedFor(ops + [op], id) == [] && !ReleasedIn(ops + [op], id)
    {
      OneMoreQueued(ops, op, id);
    }
  }

  /** Consequence: no message of a transaction behind the head has been sent. */
  lemma NothingBehindTheHead<M>(s: State<M>, e: Entry<M>, i: nat)
    requires Consistent(s) && e in s.wire && 0 < i < |s.pending|
    ensures e.id != s.pending[i].id
  {
    assert HeadOf(s.pending)[..|HeadOf(s.pending)|] == HeadOf(s.pending);
    WireIsBelowHead(s, |HeadOf(s.pending)|);
    var all := s.retired + s.pending;
    assert all[|s.retired|] == s.pending[0] && all[|s.retired| + i] == s.pending[i];
    var j :| 0 <= j < |s.wire| && s.wire[j] == e;
  }

  /** Consequence: every message queued for a retired transaction has been sent. */
  lemma RetiredIsSent<M>(s: State<M>, i: nat, j: nat)
    requires Consistent(s) && i < |s.retired| && j < |s.retired[i].messages|
    ensures Entry(s.retired[i].id, j, s.retired[i].messages[j]) in s.wire
  {
    var e := Entry(s.retired[i].id, j, s.retired[i].messages[j]);
    assert e == Sent(s.retired[i])[j];
    AllSentMembers(s.retired, e);
    DropRepeatsMembers(s.wire, e);
  }

  // Repeats on the wire.

  predicate Distinct<T(==)>(log: seq<T>) {
    forall i, j | 0 <= i < j < |log| :: log[i] != log[j]
  }

  /** The transaction at the head holds no message, so that a flush has nothing to send again. */
  predicate HeadIsEmpty<M>(s: State<M>) {
    s.pending == [] || s.pending[0].messages == []
  }

  lemma DistinctAppend<T>(log: seq<T>, more: seq<T>)
    requires Distinct(more)
    ensures Distinct(log + more) <==> Distinct(log) && forall i | 0 <= i < |more| :: more[i] !in log
  {
    var all := log + more;
    if Distinct(all) {
      assert forall i | 0 <= i < |log| :: all[i] == log[i];
      assert forall i | 0 <= i < |more| :: all[|log| + i] == more[i];
    }
  }

  lemma RepeatsAreFirst<T>(wire: seq<T>, sent: seq<T>, others: seq<T>, k: nat)
    requires Distinct(sent) && Distinct(others) && k <= |sent|
    requires forall i | 0 <= i < |sent| :: sent[i] in wire <==> i < k
    requires forall i | 0 <= i < |others| :: others[i] !in wire + sent
    ensures Distinct(sent + others) && wire + sent + others == wire + (sent + others)
    ensures forall i | 0 <= i < |sent + others| :: (sent + others)[i] in wire <==> i < k
  {
    forall i | 0 <= i < |others|
      ensures others[i] !in wire && others[i] !in sent
    {
      assert others[i] !in wire + sent;
    }
    DistinctAppend(sent, others);
    forall i | |sent| <= i < |sent + others|
      ensures (sent + others)[i] !in wire
    {
      assert (sent + others)[i] == others[i - |sent|];
    }
  }

  /** A flush adds distinct entries, of which exactly the first k were on the wire before. */
  lemma {:induction false} FlushAdds<M>(s: State<M>, k: nat) returns (more: seq<Entry<M>>)
    requires ReadyToFlush(s, k)
    ensures Flushed(s).wire == s.wire + more && Distinct(more) && k <= |more|
    ensures forall i | 0 <= i < |more| :: more[i] in s.wire <==> i < k
    decreases |s.pending|
  {
    if s.pending == [] {
      more := [];
    } else {
      var sent := Sent(s.pending[0]);
      WireIsBelowHead(s, k);
      SentDistinct(s.pending[0]);
      if s.pending[0].done {
        PoppedIsReady(s, k);
        var others := FlushAdds(Popped(s), 0);
        RepeatsAreFirst(s.wire, sent, others, k);
        more := sent + others;
      } else {
        more := sent;
      }
    }
  }

  /**
   What an operation other than a reservation puts on the wire; it repeats an
   entry exactly if the head holds a message.
   */
  lemma OperationAdds<M>(s: State<M>, op: Operation<M>) returns (more: seq<Entry<M>>)
    requires Consistent(s) && Allowed(s, op) && !op.Reserve?
    ensures After(s, op).wire == s.wire + more && Distinct(more)
    ensures (exists i | 0 <= i < |more| :: more[i] in s.wire) <==> !HeadIsEmpty(s)
  {
    var k, sent := Position(s, op.id), HeadOf(s.pending);
    TouchedIsReady(s, op);
    more := FlushAdds(WithPending(s, k, Touched(s.pending[k], op)), |sent|);
    assert HeadIsEmpty(s) <==> |sent| == 0;
    if |sent| > 0 {
      assert more[0] in s.wire;
    }
  }

  /** Every message was queued, and every transaction released, while the head held no message. */
  predicate HeadsWereEmpty<M>(s: State<M>, ops: seq<Operation<M>>)
    requires GoodRun(s, ops)
    decreases |ops|
  {
    ops == [] ||
    var shorter, last := ops[..|ops| - 1], ops[|ops| - 1];
    HeadsWereEmpty(s, shorter) && (last.Reserve? || HeadIsEmpty(AfterRun(s, shorter)))
  }

  /** Nothing is sent twice exactly if the head held no message at any queueing or release. */
  lemma {:induction false} SentOnceExactlyWhen<M>(high: Word, low: Word, last: Word, ops: seq<Operation<M>>)
    requires GoodRun(Initial(high, low, last), ops)
    ensures Distinct(AfterRun(Initial(high, low, last), ops).wire) <==> HeadsWereEmpty(Initial(high, low, last), ops)
    decreases |ops|
  {
    if ops != [] {
      var shorter, op := ops[..|ops| - 1], ops[|ops| - 1];
      SentOnceExactlyWhen(high, low, last, shorter);
      RunIsConsistent(high, low, last, shorter);
      var before := AfterRun(Initial<M>(high, low, last), shorter);
      if !op.Reserve? {
        var more := OperationAdds(before, op);
        DistinctAppend(before.wire, more);
      }
    }
  }

  lemma OneMore<M>(s: State<M>, ops: seq<Operation<M>>, op: Operation<M>)
    requires GoodRun(s, ops) && Allowed(AfterRun(s, ops), op) && (op.Reserve? ==> AfterRun(s, ops).last < UINT64_MAX)
    ensures GoodRun(s, ops + [op]) && AfterRun(s, ops + [op]) == After(AfterRun(s, ops), op)
  {
    var more := ops + [op];
    assert more != [] && more[..|more| - 1] == ops && more[|more| - 1] == op;
  }

  /** With one pending transaction, queueing sends all its messages, the earlier ones again. */
  lemma QueueAlone<M>(s: State<M>, id: Id, messages: seq<M>, message: M)
    requires s.pending == [Pending(id, messages, false)]
    ensures Allowed(s, Queue(id, message))
    ensures var p := Pending(id, messages + [message], false);
            After(s, Queue(id, message)) == s.(pending := [p], wire := s.wire + Sent(p))
  {
    assert s.pending[0].id == id && IsPending(s, id) && Position(s, id) == 0;
    assert s.pending[0 := Pending(id, messages + [message], false)] == [Pending(id, messages + [message], false)];
  }

  /** It does happen: whoever queues two messages for a transaction at the head sends the first one twice. */
  lemma HeadIsSentAgain<M>(high: Word, low: Word, last: Word, clock: Word, a: M, b: M)
    requires last < UINT64_MAX
    ensures var id := Rank(TransactionId(NextTime(last, clock), high, low));
            var ops := [Reserve(clock)] + [Queue(id, a)] + [Queue(id, b)];
            && GoodRun(Initial(high, low, last), ops)
            && AfterRun(Initial(high, low, last), ops).wire == [Entry(id, 0, a), Entry(id, 0, a), Entry(id, 1, b)]
  {
    var start := Initial<M>(high, low, last);
    var id := Rank(TransactionId(NextTime(last, clock), high, low));
    var none: seq<Operation<M>> := [];
    OneMore(start, none, Reserve(clock));
    assert none + [Reserve(clock)] == [Reserve(clock)];
    var s := AfterRun(start, [Reserve(clock)]);
    assert s.pending == [Pending(id, [], false)] && s.wire == [];
    QueueAlone(s, id, [], a);
    OneMore(start, [Reserve(clock)], Queue(id, a));
    assert [] + [a] == [a] && Sent(Pending(id, [a], false)) == [Entry(id, 0, a)];
    var t := AfterRun(start, [Reserve(clock)] + [Queue(id, a)]);
    QueueAlone(t, id, [a], b);
    OneMore(start, [Reserve(clock)] + [Queue(id, a)], Queue(id, b));
    assert [a] + [b] == [a, b] && Sent(Pending(id, [a, b], false)) == [Entry(id, 0, a), Entry(id, 1, b)];
  }

  /** At the largest stamp the next id wraps below every id of the run; with nothing pending no CHECK notices. */
  lemma ReserveCanGoBack<M>(s: State<M>, clock: Word)
    requires s.last == UINT64_MAX && s.pending == []
    ensures Allowed(s, Reserve(clock))
    ensures After(s, Reserve(clock)).pending[0].id < Stamp(s, s.last)
  {
    NextTimeAdvances(s.last, clock);
    StampOrder(NextTime(s.last, clock), s.last, s.high, s.low);
  }

  class TransactionSequencer<M(==)> {
    const high: Word
    const low: Word
    var lastTimeValue: Word
    var transactions: seq<Pending<M>>
    var wire: seq<Entry<M>>
    ghost var retired: seq<Pending<M>>

    ghost function Value(): State<M>
      reads this
    {
      State(high, low, lastTimeValue, transactions, wire, retired)
    }

    constructor (high: Word, low: Word, last: Word)
      ensures Value() == Initial(high, low, last) && Consistent(Value())
    {
      this.high, this.low, lastTimeValue := high, low, last;
      transactions, wire, retired := [], [], [];
    }

    /** None is a failed check, which only a stamp that wraps can bring about. */
    method ReserveTransaction(clock: Word) returns (r: Option<Id>)
      requires Consistent(Value())
      modifies this
      ensures r.Some? <==> Allowed(old(Value()), Reserve(clock))
      ensures r.Some? ==> Value() == After(old(Value()), Reserve(clock))
      ensures r.Some? ==> r.value == transactions[|transactions| - 1].id
      ensures old(lastTimeValue) < UINT64_MAX ==>
                r.Some? && r.value > old(Stamp(Value(), lastTimeValue)) && Consistent(Value())
      ensures old(lastTimeValue) < UINT64_MAX ==>
                && r == Some(Rank(TransactionId(lastTimeValue, high, low)))
                && IsNextStamp(old(lastTimeValue), clock, lastTimeValue)
    {
      ghost var before := Value();
      if before.last < UINT64_MAX {
        ReserveKeeps(before, clock);
        NextTimeIsEarliest(before.last, clock);
      }
      var id := NextId(clock);
      if transactions != [] && transactions[|transactions| - 1].id >= id {
        return None;
      }
      transactions := transactions + [Pending(id, [], false)];
      assert Value() == After(before, Reserve(clock));
      r := Some(id);
    }

    /** The part that the id generator does. */
    method NextId(clock: Word) returns (id: Id)
      modifies this`lastTimeValue
      ensures lastTimeValue == NextTime(old(lastTimeValue), clock) && id == Stamp(Value(), lastTimeValue)
    {
      var time := clock;
      if time <= lastTimeValue {
        time := (lastTimeValue + 1) % TWO_64;
      }
      lastTimeValue := time;
      id := Rank(TransactionId(time, high, low));
    }

    method Find(id: Id) returns (k: nat)
      ensures k == Position(Value(), id)
    {
      k := 0;
      while k < |transactions| && transactions[k].id != id
        invariant k <= |transactions|
        invariant forall i | 0 <= i < k :: transactions[i].id != id
        invariant Position(Value(), id) == PositionFrom(Value(), id, k)
      {
        k := k + 1;
      }
    }

    method ReleaseTransaction(id: Id)
      requires Consistent(Value()) && Allowed(Value(), Release(id))
      modifies this
      ensures Value() == After(old(Value()), Release(id)) && Consistent(Value())
    {
      ghost var before, op := Value(), Release(id);
      TouchKeeps(before, op);
      var k := Find(id);
      transactions := transactions[k := transactions[k].(done := true)];
      assert Value() == WithPending(before, k, Touched(before.pending[k], op));
      FlushMessages();
      assert Value() == After(before, op);
    }

    method QueueOutgoingMessage(id: Id, message: M)
      requires Consistent(Value()) && Allowed(Value(), Queue(id, message))
      modifies this
      ensures Value() == After(old(Value()), Queue(id, message)) && Consistent(Value())
    {
      ghost var before, op := Value(), Queue(id, message);
      TouchKeeps(before, op);
      var k := Find(id);
      transactions := transactions[k := transactions[k].(messages := transactions[k].messages + [message])];
      assert Value() == WithPending(before, k, Touched(before.pending[k], op));
      FlushMessages();
      assert Value() == After(before, op);
    }

    method FlushMessages()
      modifies this
      ensures Value() == Flushed(old(Value()))
    {
      ghost var goal := Flushed(Value());
      while true
        invariant Flushed(Value()) == goal
        decreases |transactions|
      {
        if transactions == [] {
          return;
        }
        var head := transactions[0];
        SendMessages(head);
        if !head.done {
          return;
        }
        transactions, retired := transactions[1..], retired + [head];
      }
    }

    /** The inner loop, which hands the messages to the message sender one by one. */
    method SendMessages(head: Pending<M>)
      modifies this`wire
      ensures wire == old(wire) + Sent(head)
    {
      for i := 0 to |head.messages|
        invariant wire == old(wire) + Sent(head)[..i]
      {
        wire := wire + [Entry(head.id, i, head.messages[i])];
      }
    }
  }
}
