/**
 The object that holds a history and answers requests for versions of it
 (engine/object_content.cc). Each method is tied to the specification in
 Histories and Replay; playback threads are a parameter.
 */
module ObjectContents {
  import opened Wrappers
  import opened TransactionIds
  import opened VersionMaps
  import opened Histories
  import opened Replay
  import SequencePoints

  type SequencePoint = SequencePoints.SequencePoint

  /** Some stored transaction is new and lies within what was already requested. */
  predicate NewAndRequested(transactions: Committed, committed: Committed, requested: Id) {
    exists id | id in transactions :: id !in committed && id <= requested
  }

  /** What the copying loop has established once the given transactions are copied. */
  ghost predicate Merging(committed: Committed, v: VersionMap, replay: bool, done: Committed,
                          before: Committed, covered: VersionMap, requested: Id)
  {
    && committed == done + before
    && Covers(v, covered, done)
    && (forall p | p in v :: ValidId(v[p]))
    && (replay <==> NewAndRequested(done, before, requested))
  }

  lemma MergingOne(committed: Committed, v: VersionMap, replay: bool, done: Committed,
                   before: Committed, covered: VersionMap, requested: Id, id: Id, tx: Transaction)
    requires Merging(committed, v, replay, done, before, covered, requested)
    requires id !in done && ValidId(id)
    ensures Merging(if id in committed then committed else committed[id := tx], Added(v, tx.origin, id),
                    replay || (id !in committed && id <= requested), done[id := tx], before, covered, requested)
  {
    CoversInsert(v, covered, done, id, tx);
    var larger := done[id := tx];
    assert forall x | x in done :: x in larger;
    assert id in larger;
    assert larger + before == if id in committed then committed else committed[id := tx];
  }

  /** The first k transactions in id order. */
  ghost function Copied(transactions: Committed, ids: seq<Id>, k: nat): (done: Committed)
    requires k <= |ids| && forall i | 0 <= i < |ids| :: ids[i] in transactions
    ensures forall i | 0 <= i < k :: ids[i] in done
    ensures forall id | id in done :: id in transactions && done[id] == transactions[id]
    ensures forall i | k <= i < |ids| && Sorted(ids) :: ids[i] !in done
  {
    if k == 0 then map[] else Copied(transactions, ids, k - 1)[ids[k - 1] := transactions[ids[k - 1]]]
  }

  /** The history and the flag after the first k turns of the copying loop. */
  ghost function AfterTurns(before: Committed, covered: VersionMap, requested: Id,
                            transactions: Committed, ids: seq<Id>, k: nat): (Committed, VersionMap, bool)
    requires k <= |ids| && forall i | 0 <= i < |ids| :: ids[i] in transactions
  {
    if k == 0 then (before, covered, false)
    else
      var (c, v, replay) := AfterTurns(before, covered, requested, transactions, ids, k - 1);
      var id, tx := ids[k - 1], transactions[ids[k - 1]];
      (if id in c then c else c[id := tx], Added(v, tx.origin, id), replay || (id !in c && id <= requested))
  }

  lemma {:induction false} TurnsMerge(before: Committed, covered: VersionMap, requested: Id,
                                      transactions: Committed, ids: seq<Id>, k: nat)
    requires k <= |ids| && Sorted(ids) && forall i | 0 <= i < |ids| :: ids[i] in transactions
    requires forall id | id in transactions :: ValidId(id)
    requires forall p | p in covered :: ValidId(covered[p])
    ensures var (c, v, replay) := AfterTurns(before, covered, requested, transactions, ids, k);
            Merging(c, v, replay, Copied(transactions, ids, k), before, covered, requested)
  {
    if k > 0 {
      TurnsMerge(before, covered, requested, transactions, ids, k - 1);
      var (c, v, replay) := AfterTurns(before, covered, requested, transactions, ids, k - 1);
      MergingOne(c, v, replay, Copied(transactions, ids, k - 1), before, covered, requested,
                 ids[k - 1], transactions[ids[k - 1]]);
    }
  }

  lemma CopiedAll(transactions: Committed)
    ensures var ids := Ascending(transactions.Keys);
            && (forall i | 0 <= i < |ids| :: ids[i] in transactions)
            && Copied(transactions, ids, |ids|) == transactions
  {
    var ids := Ascending(transactions.Keys);
    assert forall i | 0 <= i < |ids| :: ids[i] in transactions.Keys;
    var done := Copied(transactions, ids, |ids|);
    forall id | id in transactions
      ensures id in done
    {
      assert id in ids;
    }
  }

  lemma SamePointServes(c: Committed, v: VersionMap)
    ensures CacheServes(c, v, v)
  {
  }

  class ObjectContent<S(!new)> {
    var committedVersions: Committed
    var versionMap: VersionMap
    var upToDatePeers: set<Peer>
    var maxRequestedTransactionId: Id
    var cachedLiveObject: Option<S>
    var cachedSequencePoint: SequencePoint

    function Value(): History
      reads this
    {
      History(committedVersions, versionMap, upToDatePeers, maxRequestedTransactionId)
    }

    ghost predicate Valid()
      reads this
    {
      && Covered(Value())
      && (forall id | id in committedVersions :: ValidId(id))
      && (forall p | p in versionMap :: ValidId(versionMap[p]))
    }

    constructor ()
      ensures Valid() && Value() == EMPTY && cachedLiveObject == None
    {
      committedVersions, versionMap, upToDatePeers := map[], map[], {};
      maxRequestedTransactionId := MIN_ID;
      cachedLiveObject, cachedSequencePoint := None, SequencePoints.EMPTY;
    }

    /** The cached object may be handed out for the requested sequence point. */
    predicate CacheUsable(requested: SequencePoint)
      reads this
    {
      && cachedLiveObject.Some?
      && CacheServes(committedVersions, cachedSequencePoint.versionMap, requested.versionMap)
      && requested.exclusions == cachedSequencePoint.exclusions
      && requested.rejected == cachedSequencePoint.rejected
    }

    /** The cached object is what a replay at the cached version gives. */
    ghost predicate CacheCorrect(step: Step<S>, blank: S)
      reads this
    {
      cachedLiveObject.Some? ==>
        cachedLiveObject.value == Replayed(committedVersions, cachedSequencePoint.versionMap, step, blank).state
    }

    /**
     From then on requests for the same point are served this object. The cache
     is right exactly if the object is what a replay at the point gives.
     */
    method SetCachedLiveObject(live: S, point: SequencePoint, ghost step: Step<S>, ghost blank: S)
      modifies this`cachedLiveObject, this`cachedSequencePoint
      ensures cachedLiveObject == Some(live) && cachedSequencePoint == point && CacheUsable(point)
      ensures CacheCorrect(step, blank) <==> live == Replayed(committedVersions, point.versionMap, step, blank).state
    {
      cachedLiveObject, cachedSequencePoint := Some(live), point;
      SamePointServes(committedVersions, point.versionMap);
    }

    /** One pass over the map in id order. */
    method ApplyTransactionsToWorkingVersion(play: Playback<S>, n: nat, desired: VersionMap, rejects: Rejections,
                                             ids: seq<Id>)
      returns (pass: Pass)
      requires forall i | 0 <= i < |ids| :: ids[i] in committedVersions
      ensures pass == PassFrom(committedVersions, desired, rejects, play, n, ids, 0, [])
      ensures pass.Completed? ==>
                && pass.played == Accepted(committedVersions, desired, rejects, ids, |ids|)
                && forall tx | tx in pass.played :: tx.events != []
      ensures pass.Conflicted? ==>
                ConflictsFirst(committedVersions, desired, rejects, play, n, ids, 0, pass.at)
    {
      PassPlays(committedVersions, desired, rejects, play, n, ids, 0);
      forall tx | tx in Accepted(committedVersions, desired, rejects, ids, |ids|)
        ensures tx.events != []
      {
        AcceptedMeaning(committedVersions, desired, rejects, ids, |ids|, tx);
      }
      var played := [];
      var k := 0;
      ghost var goal := PassFrom(committedVersions, desired, rejects, play, n, ids, 0, played);
      while k < |ids|
        invariant k <= |ids|
        invariant goal == PassFrom(committedVersions, desired, rejects, play, n, ids, k, played)
      {
        var id := ids[k];
        var tx := committedVersions[id];
        if tx.events != [] && Has(desired, tx.origin, id) && !Listed(rejects, id) {
          played := played + [tx];
          if play(n, played).None? {
            return Conflicted((tx.origin, id));
          }
        }
        k := k + 1;
      }
      pass := Completed(played);
    }

    method GetWorkingVersionLocked(play: Playback<S>, blank: S, desired: VersionMap, toReject: Rejections)
      returns (live: S, rejects: Rejections)
      ensures (live, rejects) ==
              Retry(committedVersions, desired, play, blank, Ascending(committedVersions.Keys), 0, toReject)
    {
      var ids := Ascending(committedVersions.Keys);
      assert forall i | 0 <= i < |ids| :: ids[i] in committedVersions.Keys;
      live, rejects := RetryUntilClean(play, blank, desired, toReject, ids);
    }

    method RetryUntilClean(play: Playback<S>, blank: S, desired: VersionMap, toReject: Rejections, ids: seq<Id>)
      returns (live: S, rejects: Rejections)
      requires forall i | 0 <= i < |ids| :: ids[i] in committedVersions
      ensures (live, rejects) == Retry(committedVersions, desired, play, blank, ids, 0, toReject)
    {
      var n := 0;
      rejects := toReject;
      ghost var goal := Retry(committedVersions, desired, play, blank, ids, 0, toReject);
      while true
        invariant goal == Retry(committedVersions, desired, play, blank, ids, n, rejects)
        decreases Unlisted(committedVersions, rejects)
      {
        var pass := ApplyTransactionsToWorkingVersion(play, n, desired, rejects, ids);
        match pass {
          case Completed(played) =>
            live := LiveObject(play, n, played, blank);
            return;
          case Conflicted(at) =>
            ListingShrinks(committedVersions, rejects, at);
            rejects := rejects + [at];
            n := n + 1;
        }
      }
    }

    method ComputeEffectiveVersion(store: VersionMap) returns (effective: VersionMap)
      ensures effective == Effective(Value(), store)
      ensures forall p, t :: Has(effective, p, t) <==> Vouches(store, p, t)
    {
      effective := versionMap;
      var rest := upToDatePeers;
      ghost var added: VersionMap := map[];
      assert effective == Union(versionMap, added);
      while rest != {}
        invariant rest <= upToDatePeers
        invariant added.Keys == store.Keys * (upToDatePeers - rest)
        invariant forall p | p in added :: added[p] == store[p]
        invariant effective == Union(versionMap, added)
        decreases rest
      {
        var p :| p in rest;
        if p in store {
          AddedIsUnion(effective, p, store[p]);
          UnionExtends(versionMap, added, p, store[p]);
          effective := Added(effective, p, store[p]);
          added := added[p := store[p]];
        }
        rest := rest - {p};
      }
      assert added == Restricted(store, upToDatePeers);
    }

    /** The object has the transaction in its version map, or the store knows it of a peer that is up to date. */
    predicate Vouches(store: VersionMap, p: Peer, t: Id)
      reads this
    {
      Has(versionMap, p, t) || (p in upToDatePeers && Has(store, p, t))
    }

    /** What is sent to a peer that asks for the object: a copy of every transaction, and the effective version. */
    method GetTransactions(store: VersionMap) returns (transactions: Committed, effective: VersionMap)
      ensures transactions == committedVersions
      ensures effective == Effective(Value(), store)
      ensures forall p, t :: Has(effective, p, t) <==> Vouches(store, p, t)
    {
      transactions := map[];
      var rest := committedVersions.Keys;
      while rest != {}
        invariant rest <= committedVersions.Keys && transactions == committedVersions - rest
        decreases rest
      {
        var id :| id in rest;
        transactions := transactions[id := committedVersions[id]];
        rest := rest - {id};
      }
      effective := ComputeEffectiveVersion(store);
    }

    method OnlyReads(tx: Transaction) returns (only: bool)
      ensures only <==> ReadOnly(tx)
      ensures !only <==> exists i | 0 <= i < |tx.events| ::
                           tx.events[i].kind != MethodCall && tx.events[i].kind != SubMethodReturn
    {
      for i := 0 to |tx.events|
        invariant forall j | 0 <= j < i :: tx.events[j].kind in {MethodCall, SubMethodReturn}
      {
        if tx.events[i].kind != MethodCall && tx.events[i].kind != SubMethodReturn {
          return false;
        }
      }
      return true;
    }

    method CanUseCachedLiveObject(requested: SequencePoint) returns (usable: bool)
      ensures usable <==> CacheUsable(requested)
      ensures usable ==> && cachedLiveObject.Some? && Leq(cachedSequencePoint.versionMap, requested.versionMap)
                         && requested.exclusions == cachedSequencePoint.exclusions
                         && requested.rejected == cachedSequencePoint.rejected
      ensures Valid() && cachedLiveObject.Some? && Leq(cachedSequencePoint.versionMap, requested.versionMap) &&
              requested.exclusions == cachedSequencePoint.exclusions &&
              requested.rejected == cachedSequencePoint.rejected ==>
                (usable <==> SameReplays(committedVersions, cachedSequencePoint.versionMap, requested.versionMap))
    {
      if Valid() && Leq(cachedSequencePoint.versionMap, requested.versionMap) {
        CacheServesExactlyWhen(committedVersions, cachedSequencePoint.versionMap, requested.versionMap);
      }
      if cachedLiveObject.None? {
        return false;
      }
      var cached := cachedSequencePoint.versionMap;
      if !Leq(cached, requested.versionMap) {
        return false;
      }
      var peers := requested.versionMap.Keys;
      while peers != {}
        invariant peers <= requested.versionMap.Keys
        invariant forall id | id in committedVersions && committedVersions[id].origin !in peers ::
                    NewReadsOnly(id, cached, requested.versionMap)
        decreases peers
      {
        var p :| p in peers;
        var only := PeerOnlyReads(p, cached, requested.versionMap);
        if !only {
          return false;
        }
        peers := peers - {p};
      }
      usable := requested.exclusions == cachedSequencePoint.exclusions &&
                requested.rejected == cachedSequencePoint.rejected;
    }

    /** The inner loop, over the peer's transactions between the cached and the requested version. */
    method PeerOnlyReads(p: Peer, cached: VersionMap, requested: VersionMap) returns (only: bool)
      requires p in requested
      ensures only <==> forall id | id in committedVersions && committedVersions[id].origin == p ::
                          NewReadsOnly(id, cached, requested)
    {
      var ids := Ascending(committedVersions.Keys);
      assert forall id | id in committedVersions :: id in ids;
      var k := 0;
      while k < |ids|
        invariant k <= |ids|
        invariant forall i | 0 <= i < k :: ids[i] in committedVersions &&
                    (committedVersions[ids[i]].origin == p ==> NewReadsOnly(ids[i], cached, requested))
      {
        var id: Id := ids[k];
        assert id in ids;
        var from := if p in cached then cached[p] else MIN_ID;
        if from < id <= requested[p] && committedVersions[id].origin == p {
          only := OnlyReads(committedVersions[id]);
          if !only {
            assert !NewReadsOnly(id, cached, requested);
            return;
          }
        }
        k := k + 1;
      }
      only := true;
    }

    predicate NewReadsOnly(id: Id, cached: VersionMap, requested: VersionMap)
      requires id in committedVersions
      reads this
    {
      var p := committedVersions[id].origin;
      p in requested && (if p in cached then cached[p] else MIN_ID) < id <= requested[p] ==>
        ReadOnly(committedVersions[id])
    }

    /**
     Nothing is returned exactly when the sequence point is not available yet.
     Whichever way an object is found, by the cache or by replay, it is the
     replayed one, provided playback is a fold that ignores read-only
     transactions and the cache was right when it was set.
     */
    method GetWorkingVersion(store: VersionMap, point: SequencePoint, play: Playback<S>, blank: S,
                             toReject: Rejections, ghost step: Step<S>)
      returns (live: Option<S>, rejects: Rejections)
      requires Valid()
      ensures live.Some? <==> Available(Value(), store, point.versionMap)
      ensures live.Some? <==> forall p | p in point.versionMap :: Vouches(store, p, point.versionMap[p])
      ensures live.None? || CacheUsable(point) ==> rejects == toReject
      ensures live.Some? && CacheUsable(point) ==> live == cachedLiveObject
      ensures live.Some? && !CacheUsable(point) ==>
                (live.value, rejects) ==
                Retry(committedVersions, point.versionMap, play, blank, Ascending(committedVersions.Keys), 0, toReject)
      ensures live.Some? && toReject == [] && IsFold(play, step, blank) && IdentityOnReads(step) &&
              CacheCorrect(step, blank) ==>
                live.value == Replayed(committedVersions, point.versionMap, step, blank).state
    {
      rejects := toReject;
      var effective := ComputeEffectiveVersion(store);
      if !Leq(point.versionMap, effective) {
        return None, rejects;
      }
      ghost var ids := Ascending(committedVersions.Keys);
      var usable := CanUseCachedLiveObject(point);
      if usable {
        if IdentityOnReads(step) {
          CacheAgrees(committedVersions, cachedSequencePoint.versionMap, point.versionMap, step, blank, ids);
        }
        return cachedLiveObject, rejects;
      }
      if IsFold(play, step, blank) && toReject == [] {
        RetryIsGreedy(committedVersions, point.versionMap, play, step, blank, [], ids, 0, 0);
        assert ids[..0] == [];
      }
      var found;
      found, rejects := GetWorkingVersionLocked(play, blank, point.versionMap, toReject);
      live := Some(found);
    }

    method InsertTransaction(origin: Peer, id: Id, events: seq<Event>, isLocal: bool, play: Playback<S>, blank: S,
                             toReject: Rejections)
      returns (rejects: Rejections)
      requires Valid() && ValidId(id)
      modifies this`committedVersions, this`versionMap, this`upToDatePeers, this`maxRequestedTransactionId
      ensures Valid()
      ensures Value() == Applied(old(Value()), Insert(origin, id, events, isLocal))
      ensures rejects ==
              if id <= old(maxRequestedTransactionId)
              then Retry(committedVersions, versionMap, play, blank, Ascending(committedVersions.Keys), 0, toReject).1
              else toReject
    {
      rejects := toReject;
      AbsorbTransaction(origin, id, events, isLocal);
      if id <= maxRequestedTransactionId {
        var found;
        found, rejects := GetWorkingVersionLocked(play, blank, versionMap, toReject);
      } else if isLocal {
        maxRequestedTransactionId := id;
      }
    }

    /** The part of InsertTransaction before the replay. */
    method AbsorbTransaction(origin: Peer, id: Id, events: seq<Event>, ghost isLocal: bool)
      requires Valid() && ValidId(id)
      modifies this`committedVersions, this`versionMap, this`upToDatePeers
      ensures Covered(Value()) && (forall t | t in committedVersions :: ValidId(t))
      ensures forall p | p in versionMap :: ValidId(versionMap[p])
      ensures Value() ==
              Applied(old(Value()), Insert(origin, id, events, isLocal)).(maxRequested := maxRequestedTransactionId)
    {
      ghost var before := Value();
      if id !in committedVersions {
        committedVersions := committedVersions[id := Transaction(events, origin)];
      }
      versionMap := Added(versionMap, origin, id);
      upToDatePeers := upToDatePeers + {origin};
      AppliedKeepsCoverage(before, Insert(origin, id, events, isLocal));
    }

    method StoreTransactions(remote: Peer, transactions: Committed, versions: VersionMap, play: Playback<S>, blank: S,
                             toReject: Rejections)
      returns (rejects: Rejections)
      requires Valid()
      requires forall id | id in transactions :: ValidId(id)
      requires forall p | p in versions :: ValidId(versions[p])
      modifies this`committedVersions, this`versionMap, this`upToDatePeers
      ensures Valid()
      ensures Value() == Applied(old(Value()), Store(remote, transactions, versions))
      ensures rejects ==
              if NewAndRequested(transactions, old(committedVersions), maxRequestedTransactionId)
              then Retry(committedVersions, versionMap, play, blank, Ascending(committedVersions.Keys), 0, toReject).1
              else toReject
    {
      rejects := toReject;
      var shouldReplay := AbsorbTransactions(remote, transactions, versions);
      if shouldReplay {
        var found;
        found, rejects := GetWorkingVersionLocked(play, blank, versionMap, toReject);
      }
    }

    /** The part of StoreTransactions before the replay. */
    method AbsorbTransactions(remote: Peer, transactions: Committed, versions: VersionMap) returns (shouldReplay: bool)
      requires Valid()
      requires forall id | id in transactions :: ValidId(id)
      requires forall p | p in versions :: ValidId(versions[p])
      modifies this`committedVersions, this`versionMap, this`upToDatePeers
      ensures Valid()
      ensures Value() == Applied(old(Value()), Store(remote, transactions, versions))
      ensures shouldReplay <==> NewAndRequested(transactions, old(committedVersions), maxRequestedTransactionId)
    {
      shouldReplay := MergeAllTransactions(transactions);
      versionMap := GetVersionMapUnion(versionMap, versions);
      upToDatePeers := upToDatePeers + {remote};
      assert Covered(Value()) by {
        AppliedKeepsCoverage(old(Value()), Store(remote, transactions, versions));
      }
    }

    method MergeAllTransactions(transactions: Committed) returns (shouldReplay: bool)
      requires forall id | id in transactions :: ValidId(id)
      requires forall p | p in versionMap :: ValidId(versionMap[p])
      modifies this`committedVersions, this`versionMap
      ensures committedVersions == transactions + old(committedVersions)
      ensures versionMap == AddOrigins(old(versionMap), transactions)
      ensures forall p | p in versionMap :: ValidId(versionMap[p])
      ensures shouldReplay <==> NewAndRequested(transactions, old(committedVersions), maxRequestedTransactionId)
    {
      CopiedAll(transactions);
      shouldReplay := MergeTransactions(transactions, Ascending(transactions.Keys));
      CoversIsAddOrigins(versionMap, old(versionMap), transactions);
    }

    /** Copies one transaction if it is not there yet; tells whether it is new within what was requested. */
    method MergeTransaction(id: Id, tx: Transaction) returns (isRequested: bool)
      requires ValidId(id)
      modifies this`committedVersions, this`versionMap
      ensures committedVersions ==
              if id in old(committedVersions) then old(committedVersions) else old(committedVersions)[id := tx]
      ensures versionMap == Added(old(versionMap), tx.origin, id)
      ensures isRequested <==> id !in old(committedVersions) && id <= maxRequestedTransactionId
    {
      isRequested := false;
      if id !in committedVersions {
        committedVersions := committedVersions[id := tx];
        isRequested := id <= maxRequestedTransactionId;
      }
      versionMap := Added(versionMap, tx.origin, id);
    }

    /** Copies all transactions, in id order, and covers them. */
    method MergeTransactions(transactions: Committed, ids: seq<Id>) returns (shouldReplay: bool)
      requires Sorted(ids)
      requires forall i | 0 <= i < |ids| :: ids[i] in transactions
      requires Copied(transactions, ids, |ids|) == transactions
      requires forall id | id in transactions :: ValidId(id)
      requires forall p | p in versionMap :: ValidId(versionMap[p])
      modifies this`committedVersions, this`versionMap
      ensures committedVersions == transactions + old(committedVersions)
      ensures Covers(versionMap, old(versionMap), transactions)
      ensures forall p | p in versionMap :: ValidId(versionMap[p])
      ensures shouldReplay <==> NewAndRequested(transactions, old(committedVersions), maxRequestedTransactionId)
    {
      shouldReplay := false;
      ghost var before, covered := committedVersions, versionMap;
      for k := 0 to |ids|
        invariant (committedVersions, versionMap, shouldReplay) ==
                  AfterTurns(before, covered, maxRequestedTransactionId, transactions, ids, k)
      {
        var isRequested := MergeTransaction(ids[k], transactions[ids[k]]);
        shouldReplay := shouldReplay || isRequested;
      }
      TurnsMerge(before, covered, maxRequestedTransactionId, transactions, ids, |ids|);
    }
  }

  /** Playback that counts the transactions that do more than read. */
  function CountingPlayback(n: nat, txs: seq<Transaction>): Option<nat> {
    Fold(CountWrites, 0, txs)
  }

  /** A remote transaction that writes arrives; the cache stays as it is. */
  method WriteArrives(content: ObjectContent<nat>, p: Peer, id: Id, write: Event)
    requires content.Valid() && ValidId(id) && id !in content.committedVersions
    modifies content
    ensures content.Valid()
    ensures content.committedVersions == old(content.committedVersions)[id := Transaction([write], p)]
    ensures content.versionMap == Added(old(content.versionMap), p, id)
    ensures content.cachedLiveObject == old(content.cachedLiveObject)
    ensures content.cachedSequencePoint == old(content.cachedSequencePoint)
  {
    var rejects := content.InsertTransaction(p, id, [write], false, CountingPlayback, 0, []);
  }

  /** A request for a point that the history covers, when the cache is right. */
  method Ask(content: ObjectContent<nat>, point: SequencePoint) returns (live: nat)
    requires content.Valid() && Leq(point.versionMap, content.versionMap)
    ensures content.CacheUsable(point) ==> Some(live) == content.cachedLiveObject
    ensures content.CacheCorrect(CountWrites, 0) ==>
              live == Replayed(content.committedVersions, point.versionMap, CountWrites, 0).state
  {
    AlwaysAvailable(content.Value(), map[], point.versionMap);
    CountingIgnoresReads();
    var found, rejects := content.GetWorkingVersion(map[], point, CountingPlayback, 0, [], CountWrites);
    live := found.value;
  }

  lemma CountingIgnoresReads()
    ensures IsFold(CountingPlayback, CountWrites, 0) && IdentityOnReads(CountWrites)
  {
  }

  predicate Writes(e: Event) {
    e.kind != MethodCall && e.kind != SubMethodReturn
  }

  lemma WriteIsNotARead(p: Peer, write: Event)
    requires Writes(write)
    ensures !ReadOnly(Transaction([write], p))
  {
    assert [write][0] == write;
  }

  /**
   A transaction that arrives late leaves the cache in place, and the next request
   for the cached point is served the old object, which a replay would not give.
   */
  method LateWriteArrives(content: ObjectContent<nat>, point: SequencePoint, p: Peer, id: Id, write: Event)
    returns (live: nat)
    requires content.Valid() && content.cachedLiveObject.Some? && content.cachedSequencePoint == point
    requires content.CacheCorrect(CountWrites, 0) && Leq(point.versionMap, content.versionMap)
    requires ValidId(id) && id !in content.committedVersions && Has(point.versionMap, p, id) && Writes(write)
    modifies content
    ensures content.Valid() && content.CacheUsable(point) && Some(live) == old(content.cachedLiveObject)
    ensures live + 1 == Replayed(content.committedVersions, point.versionMap, CountWrites, 0).state
  {
    ghost var c, v := content.committedVersions, content.versionMap;
    WriteIsNotARead(p, write);
    CacheMissesWrites(c, point.versionMap, id, Transaction([write], p));
    WriteArrives(content, p, id, write);
    SamePointServes(content.committedVersions, point.versionMap);
    AddedIsUnion(v, p, id);
    LeqIsCoverage(v, content.versionMap);
    LeqTransitive(point.versionMap, v, content.versionMap);
    live := Ask(content, point);
  }

  lemma FirstVersion(p: Peer, id: Id)
    ensures Added(map[], p, id) == map[p := id] && Leq(map[p := id], map[p := id])
  {
  }

  /** An object that has received one transaction. */
  method WrittenObject(p: Peer, id: Id, write: Event) returns (content: ObjectContent<nat>)
    requires ValidId(id)
    ensures fresh(content) && content.Valid() && content.cachedLiveObject == None
    ensures content.committedVersions == map[id := Transaction([write], p)] && content.versionMap == map[p := id]
  {
    content := new ObjectContent<nat>();
    FirstVersion(p, id);
    WriteArrives(content, p, id, write);
  }

  /** An object that has received one transaction, and caches the version after it. */
  method CachingObject(p: Peer, id: Id, write: Event) returns (content: ObjectContent<nat>, point: SequencePoint)
    requires ValidId(id)
    ensures fresh(content) && content.Valid() && content.committedVersions == map[id := Transaction([write], p)]
    ensures content.cachedLiveObject.Some? && content.cachedSequencePoint == point
    ensures content.CacheCorrect(CountWrites, 0)
    ensures point.versionMap == map[p := id] == content.versionMap
  {
    content := WrittenObject(p, id, write);
    point := SequencePoints.SequencePoint(map[p := id], map[], map[]);
    FirstVersion(p, id);
    var live := Ask(content, point);
    content.SetCachedLiveObject(live, point, CountWrites, 0);
  }

  /** It can happen to an object that has received two transactions, the later one first. */
  method StaleObjectIsServed(p: Peer, early: Id, late: Id, write: Event)
    returns (content: ObjectContent<nat>, point: SequencePoint, live: nat)
    requires ValidId(early) && ValidId(late) && early < late && Writes(write)
    ensures content.Valid() && content.CacheUsable(point)
    ensures live + 1 == Replayed(content.committedVersions, point.versionMap, CountWrites, 0).state
  {
    content, point := CachingObject(p, late, write);
    live := LateWriteArrives(content, point, p, early, write);
  }

  lemma AlwaysAvailable(h: History, store: VersionMap, requested: VersionMap)
    requires Leq(requested, h.versionMap)
    ensures Available(h, store, requested)
  {
    UnionIsLeastUpperBound(h.versionMap, Restricted(store, h.upToDate), requested);
    LeqTransitive(requested, h.versionMap, Effective(h, store));
  }
}
