/**
 The history of one shared object (engine/object_content.cc): the committed
 transactions, the version map they are covered by, the peers known to be up to
 date, and the highest id a local transaction has used. Histories grow by
 inserting single transactions and by storing another peer's whole history.
 */
module Histories {
  import opened TransactionIds
  import opened VersionMaps

  datatype EventType =
    | ObjectCreation
    | BeginTransaction
    | EndTransaction
    | MethodCall
    | MethodReturn
    | SubMethodCall
    | SubMethodReturn
    | SelfMethodCall
    | SelfMethodReturn

  /** An event; everything but its type is opaque to the history. */
  datatype Event = Event(kind: EventType, body: nat)

  datatype Transaction = Transaction(events: seq<Event>, origin: Peer)

  type Committed = map<Id, Transaction>

  datatype History = History(
    committed: Committed,
    versionMap: VersionMap,
    upToDate: set<Peer>,
    maxRequested: Id)

  const EMPTY := History(map[], map[], {}, MIN_ID)

  datatype Operation =
    | Insert(origin: Peer, id: Id, events: seq<Event>, local: bool)
    | Store(remote: Peer, transactions: Committed, versions: VersionMap)

  /** Some transaction of the map is from the peer and has an id of at least t. */
  ghost predicate CoveredBy(transactions: Committed, p: Peer, t: Id) {
    exists id | id in transactions :: transactions[id].origin == p && t <= id
  }

  function IdsFrom(transactions: Committed, p: Peer): set<Id> {
    set id | id in transactions && transactions[id].origin == p
  }

  /** Per origin, the largest id among the transactions. */
  function OriginVersions(transactions: Committed): VersionMap {
    map p | p in (set id | id in transactions :: transactions[id].origin) ::
      assert IdsFrom(transactions, p) != {} by {
        var id :| id in transactions && transactions[id].origin == p;
        assert id in IdsFrom(transactions, p);
      }
      Largest(IdsFrom(transactions, p))
  }

  /** Those versions cover exactly the transactions themselves and what came before them. */
  lemma OriginVersionsMeaning(transactions: Committed, p: Peer, t: Id)
    ensures Has(OriginVersions(transactions), p, t) <==> CoveredBy(transactions, p, t)
  {
    if CoveredBy(transactions, p, t) {
      var id :| id in transactions && transactions[id].origin == p && t <= id;
      assert id in IdsFrom(transactions, p);
    }
  }

  /** The version map after every transaction was added under its origin. */
  function AddOrigins(v: VersionMap, transactions: Committed): VersionMap {
    Union(v, OriginVersions(transactions))
  }

  /** Coverage of a base map and of some transactions, without saying how it is stored. */
  ghost predicate Covers(v: VersionMap, base: VersionMap, transactions: Committed) {
    forall p: Peer, t: Id :: Has(v, p, t) <==> Has(base, p, t) || CoveredBy(transactions, p, t)
  }

  lemma CoversInsert(v: VersionMap, base: VersionMap, transactions: Committed, id: Id, tx: Transaction)
    requires Covers(v, base, transactions) && id !in transactions
    ensures Covers(Added(v, tx.origin, id), base, transactions[id := tx])
  {
    AddedIsUnion(v, tx.origin, id);
    CoveredByInsert(transactions, id, tx);
  }

  lemma CoversIsAddOrigins(v: VersionMap, base: VersionMap, transactions: Committed)
    requires Covers(v, base, transactions)
    ensures v == AddOrigins(base, transactions)
  {
    var u := AddOrigins(base, transactions);
    forall p: Peer, t: Id
      ensures Has(u, p, t) <==> Has(v, p, t)
    {
      OriginVersionsMeaning(transactions, p, t);
    }
    LeqIsCoverage(u, v);
    LeqIsCoverage(v, u);
    LeqAntisymmetric(u, v);
  }

  lemma CoveredByInsert(transactions: Committed, id: Id, tx: Transaction)
    requires id !in transactions
    ensures forall p: Peer, t: Id :: CoveredBy(transactions[id := tx], p, t) <==>
                             CoveredBy(transactions, p, t) || (p == tx.origin && t <= id)
  {
    var larger := transactions[id := tx];
    forall p: Peer, t: Id
      ensures CoveredBy(larger, p, t) <==> CoveredBy(transactions, p, t) || (p == tx.origin && t <= id)
    {
      if CoveredBy(transactions, p, t) {
        var x :| x in transactions && transactions[x].origin == p && t <= x;
        assert x in larger && larger[x] == transactions[x];
      }
      if p == tx.origin && t <= id {
        assert id in larger && larger[id] == tx;
      }
      if CoveredBy(larger, p, t) {
        var x :| x in larger && larger[x].origin == p && t <= x;
        assert x != id ==> x in transactions && transactions[x] == larger[x];
      }
    }
  }

  function Largest(ids: set<Id>): (m: Id)
    requires ids != {}
    ensures m in ids && forall x | x in ids :: x <= m
  {
    HasLargest(ids);
    var m :| m in ids && forall x | x in ids :: x <= m;
    m
  }

  lemma HasLargest(ids: set<Id>)
    requires ids != {}
    ensures exists m :: m in ids && forall x | x in ids :: x <= m
    decreases ids
  {
    var m :| m in ids;
    if ids != {m} {
      HasLargest(ids - {m});
      var n :| n in ids - {m} && forall x | x in ids - {m} :: x <= n;
      assert forall x | x in ids :: x == m || x in ids - {m};
      var top := if m < n then n else m;
      assert top in ids && forall x | x in ids :: x <= top;
    }
  }

  function Applied(h: History, op: Operation): History {
    match op
    case Insert(origin, id, events, local) =>
      History(if id in h.committed then h.committed else h.committed[id := Transaction(events, origin)],
              Added(h.versionMap, origin, id),
              h.upToDate + {origin},
              if local && id > h.maxRequested then id else h.maxRequested)
    case Store(remote, transactions, versions) =>
      History(transactions + h.committed,
              Union(AddOrigins(h.versionMap, transactions), versions),
              h.upToDate + {remote},
              h.maxRequested)
  }

  function AfterRun(h: History, ops: seq<Operation>): History
    decreases |ops|
  {
    if ops == [] then h else Applied(AfterRun(h, ops[..|ops| - 1]), ops[|ops| - 1])
  }

  // What one operation says, independently of the history it meets.

  function Offers(op: Operation): Committed {
    match op
    case Insert(origin, id, events, _) => map[id := Transaction(events, origin)]
    case Store(_, transactions, _) => transactions
  }

  ghost predicate Witnesses(op: Operation, p: Peer, t: Id) {
    CoveredBy(Offers(op), p, t) || (op.Store? && Has(op.versions, p, t))
  }

  function Speaker(op: Operation): Peer {
    match op
    case Insert(origin, _, _, _) => origin
    case Store(remote, _, _) => remote
  }

  predicate LocalFrom(op: Operation, t: Id) {
    op.Insert? && op.local && t <= op.id
  }

  // The same, said by some operation of a run.

  ghost predicate Offered(ops: seq<Operation>, id: Id) {
    exists op | op in ops :: id in Offers(op)
  }

  ghost predicate Witnessed(ops: seq<Operation>, p: Peer, t: Id) {
    exists op | op in ops :: Witnesses(op, p, t)
  }

  ghost predicate Spoken(ops: seq<Operation>, p: Peer) {
    exists op | op in ops :: Speaker(op) == p
  }

  ghost predicate LocallyReached(ops: seq<Operation>, t: Id) {
    exists op | op in ops :: LocalFrom(op, t)
  }

  /** Every id means one transaction, whichever operation mentions it. */
  ghost predicate Consistent(ops: seq<Operation>) {
    forall a, b, id | a in ops && b in ops && id in Offers(a) && id in Offers(b) :: Offers(a)[id] == Offers(b)[id]
  }

  lemma InRun(ops: seq<Operation>)
    requires ops != []
    ensures forall op :: op in ops <==> op in ops[..|ops| - 1] || op == ops[|ops| - 1]
  {
    assert ops == ops[..|ops| - 1] + [ops[|ops| - 1]];
  }

  /** The committed ids are the offered ones. */
  lemma {:induction false} CommittedMeaning(ops: seq<Operation>, id: Id)
    ensures id in AfterRun(EMPTY, ops).committed <==> Offered(ops, id)
    decreases |ops|
  {
    if ops != [] {
      var last := ops[|ops| - 1];
      CommittedMeaning(ops[..|ops| - 1], id);
      InRun(ops);
      assert id in AfterRun(EMPTY, ops).committed <==>
               id in AfterRun(EMPTY, ops[..|ops| - 1]).committed || id in Offers(last);
    }
  }

  /** Under consistent ids the committed transaction is the offered one. */
  lemma {:induction false} CommittedTransaction(ops: seq<Operation>, op: Operation, id: Id)
    requires Consistent(ops) && op in ops && id in Offers(op)
    ensures id in AfterRun(EMPTY, ops).committed && AfterRun(EMPTY, ops).committed[id] == Offers(op)[id]
    decreases |ops|
  {
    var shorter := ops[..|ops| - 1];
    InRun(ops);
    CommittedMeaning(ops, id);
    CommittedMeaning(shorter, id);
    if id in AfterRun(EMPTY, shorter).committed {
      var earlier :| earlier in shorter && id in Offers(earlier);
      CommittedTransaction(shorter, earlier, id);
    }
  }

  /** The version map covers exactly what is witnessed. */
  lemma {:induction false} VersionMapMeaning(ops: seq<Operation>, p: Peer, t: Id)
    ensures Has(AfterRun(EMPTY, ops).versionMap, p, t) <==> Witnessed(ops, p, t)
    decreases |ops|
  {
    if ops != [] {
      VersionMapMeaning(ops[..|ops| - 1], p, t);
      InRun(ops);
      AppliedVersionMap(AfterRun(EMPTY, ops[..|ops| - 1]), ops[|ops| - 1], p, t);
    }
  }

  /** One operation extends what the version map covers by what it witnesses. */
  lemma AppliedVersionMap(h: History, op: Operation, p: Peer, t: Id)
    ensures Has(Applied(h, op).versionMap, p, t) <==> Has(h.versionMap, p, t) || Witnesses(op, p, t)
  {
    match op
    case Insert(origin, id, events, _) =>
      AddedIsUnion(h.versionMap, origin, id);
      assert CoveredBy(Offers(op), p, t) <==> id in Offers(op) && origin == p && t <= id;
    case Store(_, transactions, versions) =>
      OriginVersionsMeaning(transactions, p, t);
  }

  lemma {:induction false} PeersMeaning(ops: seq<Operation>, p: Peer)
    ensures p in AfterRun(EMPTY, ops).upToDate <==> Spoken(ops, p)
    decreases |ops|
  {
    if ops != [] {
      PeersMeaning(ops[..|ops| - 1], p);
      InRun(ops);
      assert Spoken(ops, p) <==> Spoken(ops[..|ops| - 1], p) || Speaker(ops[|ops| - 1]) == p;
    }
  }

  lemma {:induction false} MaxRequestedMeaning(ops: seq<Operation>, t: Id)
    ensures t <= AfterRun(EMPTY, ops).maxRequested <==> t == MIN_ID || LocallyReached(ops, t)
    decreases |ops|
  {
    if ops != [] {
      MaxRequestedMeaning(ops[..|ops| - 1], t);
      InRun(ops);
      assert LocallyReached(ops, t) <==> LocallyReached(ops[..|ops| - 1], t) || LocalFrom(ops[|ops| - 1], t);
    }
  }

  /**
   Strong convergence: when ids are consistent, replicas that have applied the
   same set of operations hold the same history, in whatever order and however
   often they applied them.
   */
  lemma Convergence(ops: seq<Operation>, ops': seq<Operation>)
    requires Consistent(ops)
    requires forall op :: op in ops <==> op in ops'
    ensures AfterRun(EMPTY, ops) == AfterRun(EMPTY, ops')
  {
    var h, h' := AfterRun(EMPTY, ops), AfterRun(EMPTY, ops');
    SameCommitted(ops, ops');
    SameVersionMap(ops, ops');
    forall p: Peer
      ensures p in h.upToDate <==> p in h'.upToDate
    {
      PeersMeaning(ops, p);
      PeersMeaning(ops', p);
    }
    MaxRequestedMeaning(ops, h.maxRequested);
    MaxRequestedMeaning(ops', h.maxRequested);
    MaxRequestedMeaning(ops, h'.maxRequested);
    MaxRequestedMeaning(ops', h'.maxRequested);
  }

  lemma SameCommitted(ops: seq<Operation>, ops': seq<Operation>)
    requires Consistent(ops)
    requires forall op :: op in ops <==> op in ops'
    ensures AfterRun(EMPTY, ops).committed == AfterRun(EMPTY, ops').committed
  {
    assert forall op :: op in ops + ops' <==> op in ops;
    SameOffersSameCommitted(ops, ops');
  }

  /**
   The committed transactions depend only on which ids were offered: the peer that
   commits a transaction, a peer that is sent it and a peer that fetches it with
   the rest of the history all end up with the same ones.
   */
  lemma SameOffersSameCommitted(ops: seq<Operation>, ops': seq<Operation>)
    requires Consistent(ops + ops')
    requires forall id :: Offered(ops, id) <==> Offered(ops', id)
    ensures AfterRun(EMPTY, ops).committed == AfterRun(EMPTY, ops').committed
  {
    var c, c' := AfterRun(EMPTY, ops).committed, AfterRun(EMPTY, ops').committed;
    forall id: Id
      ensures id in c <==> id in c'
      ensures id in c && id in c' ==> c[id] == c'[id]
    {
      CommittedMeaning(ops, id);
      CommittedMeaning(ops', id);
      if Offered(ops, id) {
        SameOffer(ops, ops', id);
      }
    }
  }

  lemma SameOffer(ops: seq<Operation>, ops': seq<Operation>, id: Id)
    requires Consistent(ops + ops') && Offered(ops, id) && Offered(ops', id)
    ensures var c, c' := AfterRun(EMPTY, ops).committed, AfterRun(EMPTY, ops').committed;
            id in c && id in c' && c[id] == c'[id]
  {
    var a :| a in ops && id in Offers(a);
    var b :| b in ops' && id in Offers(b);
    assert a in ops + ops' && b in ops + ops';
    assert forall op | op in ops || op in ops' :: op in ops + ops';
    CommittedTransaction(ops, a, id);
    CommittedTransaction(ops', b, id);
  }

  lemma SameVersionMap(ops: seq<Operation>, ops': seq<Operation>)
    requires forall op :: op in ops <==> op in ops'
    ensures AfterRun(EMPTY, ops).versionMap == AfterRun(EMPTY, ops').versionMap
  {
    var v, v' := AfterRun(EMPTY, ops).versionMap, AfterRun(EMPTY, ops').versionMap;
    forall p: Peer, t: Id
      ensures Has(v, p, t) <==> Has(v', p, t)
    {
      VersionMapMeaning(ops, p, t);
      VersionMapMeaning(ops', p, t);
    }
    LeqIsCoverage(v, v');
    LeqIsCoverage(v', v);
    LeqAntisymmetric(v, v');
  }

  // Coverage and availability.

  /** Every committed transaction is covered by the version map. */
  predicate Covered(h: History) {
    forall id | id in h.committed :: Has(h.versionMap, h.committed[id].origin, id)
  }

  /** In every run, whatever the operations say about ids. */
  lemma {:induction false} RunKeepsCoverage(h: History, ops: seq<Operation>)
    requires Covered(h)
    ensures Covered(AfterRun(h, ops))
    ensures Leq(h.versionMap, AfterRun(h, ops).versionMap)
    ensures h.upToDate <= AfterRun(h, ops).upToDate
    ensures forall id | id in h.committed ::
              id in AfterRun(h, ops).committed && AfterRun(h, ops).committed[id] == h.committed[id]
    decreases |ops|
  {
    if ops != [] {
      var op, before := ops[|ops| - 1], AfterRun(h, ops[..|ops| - 1]);
      RunKeepsCoverage(h, ops[..|ops| - 1]);
      AppliedKeepsCoverage(before, op);
    }
  }

  lemma AppliedKeepsCoverage(h: History, op: Operation)
    requires Covered(h)
    ensures Covered(Applied(h, op))
    ensures Leq(h.versionMap, Applied(h, op).versionMap)
    ensures h.upToDate <= Applied(h, op).upToDate
    ensures forall id | id in h.committed ::
              id in Applied(h, op).committed && Applied(h, op).committed[id] == h.committed[id]
  {
    var after := Applied(h, op);
    forall p: Peer, t: Id
      ensures Has(after.versionMap, p, t) <==> Has(h.versionMap, p, t) || Witnesses(op, p, t)
    {
      AppliedVersionMap(h, op, p, t);
    }
    LeqIsCoverage(h.versionMap, after.versionMap);
    forall id | id in after.committed
      ensures Has(after.versionMap, after.committed[id].origin, id)
    {
      if id !in h.committed {
        assert id in Offers(op) && after.committed[id] == Offers(op)[id];
        assert CoveredBy(Offers(op), after.committed[id].origin, id);
      }
    }
  }

  /** The effective version: the version map joined with the store's view of the up-to-date peers. */
  function Restricted(v: VersionMap, peers: set<Peer>): VersionMap {
    map p | p in v && p in peers :: v[p]
  }

  function Effective(h: History, store: VersionMap): VersionMap {
    Union(h.versionMap, Restricted(store, h.upToDate))
  }

  /** The gate at the start of GetWorkingVersion. */
  predicate Available(h: History, store: VersionMap, requested: VersionMap) {
    Leq(requested, Effective(h, store))
  }

  /**
   The effective version has what the object itself has witnessed and, of the
   peers that are up to date and of no others, what the store has seen.
   */
  lemma EffectiveMeaning(h: History, store: VersionMap, p: Peer, t: Id)
    ensures Has(Effective(h, store), p, t) <==> Has(h.versionMap, p, t) || (p in h.upToDate && Has(store, p, t))
  {
  }

  /** What the gate lets through, said of what the object was told. */
  ghost predicate Vouched(ops: seq<Operation>, store: VersionMap, p: Peer, t: Id) {
    Witnessed(ops, p, t) || (Spoken(ops, p) && Has(store, p, t))
  }

  /**
   In every run: a sequence point passes the gate exactly if each of its entries
   was witnessed by an operation, or is known to the store and its peer has spoken
   to the object.
   */
  lemma AvailableExactlyWhen(ops: seq<Operation>, store: VersionMap, requested: VersionMap)
    ensures Available(AfterRun(EMPTY, ops), store, requested) <==>
            forall p | p in requested :: Vouched(ops, store, p, requested[p])
  {
    var h := AfterRun(EMPTY, ops);
    forall p | p in requested
      ensures Has(Effective(h, store), p, requested[p]) <==> Vouched(ops, store, p, requested[p])
    {
      EffectiveMeaning(h, store, p, requested[p]);
      VersionMapMeaning(ops, p, requested[p]);
      PeersMeaning(ops, p);
    }
  }

  /** What a peer that has the object sends to one that asks for it. */
  function Fetched(h: History, store: VersionMap, sender: Peer): Operation {
    Store(sender, h.committed, Effective(h, store))
  }

  /**
   After a fetch the receiver's version map covers what it covered before and the
   sender's effective version, and nothing else; so whatever was available at the
   sender is available at the receiver, whatever the receiver's store knows.
   */
  lemma FetchedIsAvailable(h: History, store: VersionMap, sender: Peer, receiver: History, other: VersionMap,
                           requested: VersionMap)
    requires Covered(h)
    ensures var after := Applied(receiver, Fetched(h, store, sender));
            && after.versionMap == Union(receiver.versionMap, Effective(h, store))
            && (Available(h, store, requested) ==> Available(after, other, requested))
  {
    var op := Fetched(h, store, sender);
    var after, goal := Applied(receiver, op), Union(receiver.versionMap, Effective(h, store));
    forall p: Peer, t: Id
      ensures Has(after.versionMap, p, t) <==> Has(goal, p, t)
    {
      AppliedVersionMap(receiver, op, p, t);
      EffectiveMeaning(h, store, p, t);
      if CoveredBy(h.committed, p, t) {
        var id :| id in h.committed && h.committed[id].origin == p && t <= id;
        assert Has(h.versionMap, p, id);
      }
    }
    LeqIsCoverage(after.versionMap, goal);
    LeqIsCoverage(goal, after.versionMap);
    LeqAntisymmetric(after.versionMap, goal);
    if Available(h, store, requested) {
      UnionIsLeastUpperBound(receiver.versionMap, Effective(h, store), goal);
      UnionIsLeastUpperBound(after.versionMap, Restricted(other, after.upToDate), Effective(after, other));
      LeqTransitive(requested, Effective(h, store), goal);
      LeqTransitive(requested, goal, Effective(after, other));
    }
  }

  /** A sequence point that passes the gate passes it in every later state of the object and of the store. */
  lemma AvailabilityIsLasting(h: History, ops: seq<Operation>, store: VersionMap, later: VersionMap,
                              requested: VersionMap)
    requires Covered(h) && Leq(store, later)
    requires Available(h, store, requested)
    ensures Available(AfterRun(h, ops), later, requested)
  {
    var after := AfterRun(h, ops);
    RunKeepsCoverage(h, ops);
    assert Leq(Restricted(store, h.upToDate), Restricted(later, after.upToDate));
    var goal := Effective(after, later);
    UnionIsLeastUpperBound(after.versionMap, Restricted(later, after.upToDate), goal);
    LeqTransitive(h.versionMap, after.versionMap, goal);
    LeqTransitive(Restricted(store, h.upToDate), Restricted(later, after.upToDate), goal);
    UnionIsLeastUpperBound(h.versionMap, Restricted(store, h.upToDate), goal);
    LeqTransitive(requested, Effective(h, store), goal);
  }
}
