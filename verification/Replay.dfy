/**
 Replaying an object's history (engine/object_content.cc): a pass plays the
 covered transactions in id order and stops at the first conflict; the loop
 around it adds the conflicting transaction to the rejections and tries again.
 Playback is abstract. `Retry` follows the loop for any playback whatever;
 when playback is a deterministic fold of a step function, the loop computes
 the greedy selection, and the cached object can stand in for a replay.
 */
module Replay {
  import opened Wrappers
  import opened TransactionIds
  import opened VersionMaps
  import opened Histories

  type Rejections = seq<(Peer, Id)>

  /** What a playback thread shows in its n-th use after the given transactions: the object, or a conflict. */
  type Playback<!S> = (nat, seq<Transaction>) -> Option<S>

  type Step<!S> = (S, Transaction) -> Option<S>

  predicate Listed(r: Rejections, id: Id) {
    exists i | 0 <= i < |r| :: r[i].1 == id
  }

  /** The transaction takes part in a replay at this version. */
  predicate Relevant(c: Committed, v: VersionMap, id: Id) {
    id in c && c[id].events != [] && Has(v, c[id].origin, id)
  }

  predicate Sorted(ids: seq<Id>) {
    forall i, j | 0 <= i < j < |ids| :: ids[i] < ids[j]
  }

  /** The keys of an ordered map, in order. */
  function Ascending(ids: set<Id>): (s: seq<Id>)
    ensures Sorted(s)
    ensures forall x :: x in s <==> x in ids
    decreases ids
  {
    if ids == {} then []
    else
      var top := Largest(ids);
      Ascending(ids - {top}) + [top]
  }

  datatype Pass = Completed(played: seq<Transaction>) | Conflicted(at: (Peer, Id))

  /** One pass over the ids from position k on, having played the given transactions. */
  function PassFrom<S>(c: Committed, v: VersionMap, rejects: Rejections, play: Playback<S>, n: nat,
                       ids: seq<Id>, k: nat, played: seq<Transaction>): (r: Pass)
    requires k <= |ids|
    ensures r.Conflicted? ==> Relevant(c, v, r.at.1) && r.at.0 == c[r.at.1].origin && !Listed(rejects, r.at.1)
    decreases |ids| - k
  {
    if k == |ids| then Completed(played)
    else if !Relevant(c, v, ids[k]) || Listed(rejects, ids[k]) then
      PassFrom(c, v, rejects, play, n, ids, k + 1, played)
    else if play(n, played + [c[ids[k]]]).None? then
      Conflicted((c[ids[k]].origin, ids[k]))
    else
      PassFrom(c, v, rejects, play, n, ids, k + 1, played + [c[ids[k]]])
  }

  function Unlisted(c: Committed, rejects: Rejections): set<Id> {
    set id | id in c && !Listed(rejects, id)
  }

  function LiveObject<S>(play: Playback<S>, n: nat, played: seq<Transaction>, blank: S): S {
    if played == [] || play(n, played).None? then blank else play(n, played).value
  }

  /** The retry loop; every failing pass lists one more committed id, so it ends for any playback. */
  function Retry<S>(c: Committed, v: VersionMap, play: Playback<S>, blank: S, ids: seq<Id>, n: nat, rejects: Rejections)
    : (S, Rejections)
    decreases Unlisted(c, rejects)
  {
    match PassFrom(c, v, rejects, play, n, ids, 0, [])
    case Completed(played) => (LiveObject(play, n, played, blank), rejects)
    case Conflicted(at) =>
      ListingShrinks(c, rejects, at);
      Retry(c, v, play, blank, ids, n + 1, rejects + [at])
  }

  lemma ListedAppend(rejects: Rejections, at: (Peer, Id), id: Id)
    ensures Listed(rejects + [at], id) <==> Listed(rejects, id) || id == at.1
  {
    var longer := rejects + [at];
    assert longer[|rejects|] == at;
    if Listed(rejects, id) {
      var i :| 0 <= i < |rejects| && rejects[i].1 == id;
      assert longer[i] == rejects[i];
    }
  }

  lemma ListingShrinks(c: Committed, rejects: Rejections, at: (Peer, Id))
    requires at.1 in c && !Listed(rejects, at.1)
    ensures Unlisted(c, rejects + [at]) == Unlisted(c, rejects) - {at.1}
    ensures Unlisted(c, rejects + [at]) < Unlisted(c, rejects)
    ensures |Unlisted(c, rejects + [at])| == |Unlisted(c, rejects)| - 1
  {
    forall id
      ensures id in Unlisted(c, rejects + [at]) <==> id in Unlisted(c, rejects) - {at.1}
    {
      ListedAppend(rejects, at, id);
    }
    assert at.1 in Unlisted(c, rejects);
  }

  /** The entry is a relevant transaction under its origin, not listed before. */
  predicate ProperEntry(c: Committed, v: VersionMap, r: Rejections, i: nat)
    requires i < |r|
  {
    Relevant(c, v, r[i].1) && r[i].0 == c[r[i].1].origin && !Listed(r[..i], r[i].1)
  }

  /**
   For any playback: each failing pass adds one covered, non-empty committed
   transaction that was not listed, with its origin.
   */
  lemma {:induction false} RetryAddsProperEntries<S>(c: Committed, v: VersionMap, play: Playback<S>, blank: S,
                                                     ids: seq<Id>, n: nat, rejects: Rejections)
    ensures var r := Retry(c, v, play, blank, ids, n, rejects).1;
            && rejects <= r
            && forall i | |rejects| <= i < |r| :: ProperEntry(c, v, r, i)
    decreases Unlisted(c, rejects)
  {
    match PassFrom(c, v, rejects, play, n, ids, 0, [])
    case Completed(_) =>
    case Conflicted(at) =>
      ListingShrinks(c, rejects, at);
      RetryAddsProperEntries(c, v, play, blank, ids, n + 1, rejects + [at]);
      var r := Retry(c, v, play, blank, ids, n, rejects).1;
      assert rejects + [at] <= r;
      assert r[..|rejects|] == rejects && r[|rejects|] == at;
      assert ProperEntry(c, v, r, |rejects|);
  }

  /** The last pass, one more than the entries added, plays everything not listed without a conflict. */
  lemma {:induction false} RetryEndsWithACleanPass<S>(c: Committed, v: VersionMap, play: Playback<S>, blank: S,
                                                      ids: seq<Id>, n: nat, rejects: Rejections)
    ensures var r := Retry(c, v, play, blank, ids, n, rejects);
            && |rejects| <= |r.1| <= |rejects| + |Unlisted(c, rejects)|
            && var last := n + (|r.1| - |rejects|);
               var pass := PassFrom(c, v, r.1, play, last, ids, 0, []);
               pass.Completed? && r.0 == LiveObject(play, last, pass.played, blank)
    decreases Unlisted(c, rejects)
  {
    match PassFrom(c, v, rejects, play, n, ids, 0, [])
    case Completed(_) =>
    case Conflicted(at) =>
      ListingShrinks(c, rejects, at);
      RetryEndsWithACleanPass(c, v, play, blank, ids, n + 1, rejects + [at]);
  }

  // Playback as a fold.

  function Fold<S>(step: Step<S>, blank: S, txs: seq<Transaction>): Option<S>
    decreases |txs|
  {
    if txs == [] then Some(blank)
    else
      match Fold(step, blank, txs[..|txs| - 1])
      case None => None
      case Some(s) => step(s, txs[|txs| - 1])
  }

  /** Playback depends only on the transactions, folding the step over them. */
  ghost predicate IsFold<S>(play: Playback<S>, step: Step<S>, blank: S) {
    forall n, txs :: play(n, txs) == Fold(step, blank, txs)
  }

  lemma FoldAppend<S>(step: Step<S>, blank: S, txs: seq<Transaction>, tx: Transaction)
    ensures Fold(step, blank, txs + [tx]) ==
            match Fold(step, blank, txs) { case None => None case Some(s) => step(s, tx) }
  {
    assert (txs + [tx])[..|txs|] == txs;
  }

  datatype Outcome<S> = Outcome(state: S, rejects: Rejections)

  /** The greedy selection: take each relevant transaction that still applies, reject the others. */
  function Greedy<S>(c: Committed, v: VersionMap, step: Step<S>, blank: S, skip: Rejections, ids: seq<Id>): Outcome<S>
    decreases |ids|
  {
    if ids == [] then Outcome(blank, skip)
    else
      var before := Greedy(c, v, step, blank, skip, ids[..|ids| - 1]);
      Selected(c, v, step, skip, before, ids[|ids| - 1])
  }

  function Selected<S>(c: Committed, v: VersionMap, step: Step<S>, skip: Rejections, before: Outcome<S>, id: Id)
    : Outcome<S>
  {
    if !Relevant(c, v, id) || Listed(skip, id) then before
    else
      match step(before.state, c[id])
      case None => before.(rejects := before.rejects + [(c[id].origin, id)])
      case Some(s) => before.(state := s)
  }

  /** The greedy outcome at position k rejects the transaction there. */
  predicate RejectedAt<S>(c: Committed, v: VersionMap, step: Step<S>, blank: S, skip: Rejections, ids: seq<Id>, k: nat)
    requires k < |ids|
  {
    && Relevant(c, v, ids[k]) && !Listed(skip, ids[k])
    && step(Greedy(c, v, step, blank, skip, ids[..k]).state, c[ids[k]]).None?
  }

  lemma GreedyNext<S>(c: Committed, v: VersionMap, step: Step<S>, blank: S, skip: Rejections, ids: seq<Id>, k: nat)
    requires k < |ids|
    ensures Greedy(c, v, step, blank, skip, ids[..k + 1]) ==
            Selected(c, v, step, skip, Greedy(c, v, step, blank, skip, ids[..k]), ids[k])
  {
    assert ids[..k + 1][..k] == ids[..k];
  }

  /** The first m positions list an id exactly when it was to be skipped or was rejected among them. */
  lemma {:induction false} ListedMeaning<S>(c: Committed, v: VersionMap, step: Step<S>, blank: S, skip: Rejections,
                                            ids: seq<Id>, k: nat, m: nat)
    requires Sorted(ids) && k < |ids| && m <= |ids|
    ensures Listed(Greedy(c, v, step, blank, skip, ids[..m]).rejects, ids[k]) <==>
              Listed(skip, ids[k]) || (k < m && RejectedAt(c, v, step, blank, skip, ids, k))
    decreases m
  {
    if m > 0 {
      ListedMeaning(c, v, step, blank, skip, ids, k, m - 1);
      GreedyNext(c, v, step, blank, skip, ids, m - 1);
      var before := Greedy(c, v, step, blank, skip, ids[..m - 1]);
      assert k != m - 1 ==> ids[k] != ids[m - 1];
      if Relevant(c, v, ids[m - 1]) {
        ListedAppend(before.rejects, (c[ids[m - 1]].origin, ids[m - 1]), ids[k]);
      }
    }
  }

  /** Position k is among the first m, or no rejection has come between. */
  predicate Along<S>(c: Committed, v: VersionMap, step: Step<S>, blank: S, skip: Rejections,
                     ids: seq<Id>, m: nat, k: nat)
    requires m <= |ids| && k <= |ids|
  {
    k <= m || Greedy(c, v, step, blank, skip, ids[..k]).rejects == Greedy(c, v, step, blank, skip, ids[..m]).rejects
  }

  /** After some position beyond m the greedy rejections are these. */
  ghost predicate RejectsLater<S>(c: Committed, v: VersionMap, step: Step<S>, blank: S, skip: Rejections,
                                  ids: seq<Id>, m: nat, rejects: Rejections)
  {
    exists m' | m < m' <= |ids| :: Greedy(c, v, step, blank, skip, ids[..m']).rejects == rejects
  }

  /** A pass completes as the greedy selection does, or conflicts at its next rejection after position m. */
  ghost predicate Agrees<S>(pass: Pass, c: Committed, v: VersionMap, step: Step<S>, blank: S, skip: Rejections,
                            ids: seq<Id>, m: nat)
    requires m <= |ids|
  {
    var rejects := Greedy(c, v, step, blank, skip, ids[..m]).rejects;
    match pass
    case Completed(q) =>
      && Greedy(c, v, step, blank, skip, ids).rejects == rejects
      && Fold(step, blank, q) == Some(Greedy(c, v, step, blank, skip, ids).state)
    case Conflicted(at) => RejectsLater(c, v, step, blank, skip, ids, m, rejects + [at])
  }

  /**
   A pass with the rejections of the first m positions reproduces the greedy
   states; it completes, or it conflicts at the next greedy rejection.
   */
  lemma {:induction false} PassFollowsGreedy<S>(c: Committed, v: VersionMap, play: Playback<S>, step: Step<S>, blank: S,
                                                skip: Rejections, n: nat, ids: seq<Id>, m: nat, k: nat,
                                                played: seq<Transaction>)
    requires IsFold(play, step, blank) && Sorted(ids) && m <= |ids| && k <= |ids|
    requires Along(c, v, step, blank, skip, ids, m, k)
    requires Fold(step, blank, played) == Some(Greedy(c, v, step, blank, skip, ids[..k]).state)
    ensures Agrees(PassFrom(c, v, Greedy(c, v, step, blank, skip, ids[..m]).rejects, play, n, ids, k, played),
                   c, v, step, blank, skip, ids, m)
    decreases |ids| - k
  {
    var rejects := Greedy(c, v, step, blank, skip, ids[..m]).rejects;
    var pass := PassFrom(c, v, rejects, play, n, ids, k, played);
    if k == |ids| {
      CompletedAgrees(c, v, step, blank, skip, ids, m, played);
    } else if !Relevant(c, v, ids[k]) || Listed(rejects, ids[k]) {
      SkipFollows(c, v, step, blank, skip, ids, m, k);
      assert pass == PassFrom(c, v, rejects, play, n, ids, k + 1, played);
      PassFollowsGreedy(c, v, play, step, blank, skip, n, ids, m, k + 1, played);
    } else {
      var longer := played + [c[ids[k]]];
      PlayFollows(c, v, step, blank, skip, ids, m, k);
      FoldAppend(step, blank, played, c[ids[k]]);
      if play(n, longer).Some? {
        assert pass == PassFrom(c, v, rejects, play, n, ids, k + 1, longer);
        PassFollowsGreedy(c, v, play, step, blank, skip, n, ids, m, k + 1, longer);
      } else {
        ConflictAgrees(c, v, step, blank, skip, ids, m, k + 1, (c[ids[k]].origin, ids[k]));
      }
    }
  }

  lemma CompletedAgrees<S>(c: Committed, v: VersionMap, step: Step<S>, blank: S, skip: Rejections,
                           ids: seq<Id>, m: nat, played: seq<Transaction>)
    requires m <= |ids| && Along(c, v, step, blank, skip, ids, m, |ids|)
    requires Fold(step, blank, played) == Some(Greedy(c, v, step, blank, skip, ids[..|ids|]).state)
    ensures Agrees(Completed(played), c, v, step, blank, skip, ids, m)
  {
    assert ids[..|ids|] == ids;
  }

  lemma ConflictAgrees<S>(c: Committed, v: VersionMap, step: Step<S>, blank: S, skip: Rejections,
                          ids: seq<Id>, m: nat, k: nat, at: (Peer, Id))
    requires m < k <= |ids|
    requires Greedy(c, v, step, blank, skip, ids[..k]).rejects ==
             Greedy(c, v, step, blank, skip, ids[..m]).rejects + [at]
    ensures Agrees(Conflicted(at), c, v, step, blank, skip, ids, m)
  {
  }

  /** What the pass passes over, the greedy selection passes over or has rejected before. */
  lemma SkipFollows<S>(c: Committed, v: VersionMap, step: Step<S>, blank: S, skip: Rejections, ids: seq<Id>, m: nat,
                       k: nat)
    requires Sorted(ids) && m <= |ids| && k < |ids|
    requires Along(c, v, step, blank, skip, ids, m, k)
    requires !Relevant(c, v, ids[k]) || Listed(Greedy(c, v, step, blank, skip, ids[..m]).rejects, ids[k])
    ensures Along(c, v, step, blank, skip, ids, m, k + 1)
    ensures Greedy(c, v, step, blank, skip, ids[..k + 1]).state == Greedy(c, v, step, blank, skip, ids[..k]).state
  {
    ListedMeaning(c, v, step, blank, skip, ids, k, m);
    GreedyNext(c, v, step, blank, skip, ids, k);
  }

  /** What the pass plays, the greedy selection tries; a conflict is its next rejection. */
  lemma PlayFollows<S>(c: Committed, v: VersionMap, step: Step<S>, blank: S, skip: Rejections, ids: seq<Id>, m: nat,
                       k: nat)
    requires Sorted(ids) && m <= |ids| && k < |ids|
    requires Along(c, v, step, blank, skip, ids, m, k)
    requires Relevant(c, v, ids[k]) && !Listed(Greedy(c, v, step, blank, skip, ids[..m]).rejects, ids[k])
    ensures var g := Greedy(c, v, step, blank, skip, ids[..k + 1]);
            var rejects := Greedy(c, v, step, blank, skip, ids[..m]).rejects;
            match step(Greedy(c, v, step, blank, skip, ids[..k]).state, c[ids[k]])
            case Some(state) => g.state == state && Along(c, v, step, blank, skip, ids, m, k + 1)
            case None => m < k + 1 && g.rejects == rejects + [(c[ids[k]].origin, ids[k])]
  {
    ListedMeaning(c, v, step, blank, skip, ids, k, m);
    GreedyNext(c, v, step, blank, skip, ids, k);
  }

  /** Under a fold the retry loop ends with the greedy state and exactly the greedy rejections. */
  lemma {:induction false} RetryIsGreedy<S>(c: Committed, v: VersionMap, play: Playback<S>, step: Step<S>, blank: S,
                                            skip: Rejections, ids: seq<Id>, n: nat, m: nat)
    requires IsFold(play, step, blank) && Sorted(ids) && m <= |ids|
    ensures var r := Retry(c, v, play, blank, ids, n, Greedy(c, v, step, blank, skip, ids[..m]).rejects);
            Outcome(r.0, r.1) == Greedy(c, v, step, blank, skip, ids)
    decreases |ids| - m
  {
    var rejects := Greedy(c, v, step, blank, skip, ids[..m]).rejects;
    PassFollowsGreedy(c, v, play, step, blank, skip, n, ids, m, 0, []);
    match PassFrom(c, v, rejects, play, n, ids, 0, [])
    case Completed(played) =>
    case Conflicted(at) =>
      var m' :| m < m' <= |ids| && Greedy(c, v, step, blank, skip, ids[..m']).rejects == rejects + [at];
      RetryIsGreedy(c, v, play, step, blank, skip, ids, n + 1, m');
  }

  // The greedy outcome without reference to how it is computed.

  /** The relevant transactions among the first k ids that are not listed, in order. */
  function Accepted(c: Committed, v: VersionMap, r: Rejections, ids: seq<Id>, k: nat): seq<Transaction>
    requires k <= |ids|
    decreases k
  {
    if k == 0 then []
    else if Relevant(c, v, ids[k - 1]) && !Listed(r, ids[k - 1]) then Accepted(c, v, r, ids, k - 1) + [c[ids[k - 1]]]
    else Accepted(c, v, r, ids, k - 1)
  }

  /**
   A pass that completes has played, in order, the accepted transactions: those
   with events that are covered and not listed. One that does not has stopped at
   the first of them that conflicts after the ones before it.
   */
  lemma {:induction false} PassPlays<S>(c: Committed, v: VersionMap, rejects: Rejections, play: Playback<S>, n: nat,
                                        ids: seq<Id>, k: nat)
    requires k <= |ids|
    ensures var pass := PassFrom(c, v, rejects, play, n, ids, k, Accepted(c, v, rejects, ids, k));
            && (pass.Completed? ==> pass.played == Accepted(c, v, rejects, ids, |ids|))
            && (pass.Conflicted? ==> ConflictsFirst(c, v, rejects, play, n, ids, k, pass.at))
    decreases |ids| - k
  {
    if k < |ids| {
      var plays := Relevant(c, v, ids[k]) && !Listed(rejects, ids[k]);
      if plays && play(n, Accepted(c, v, rejects, ids, k + 1)).None? {
        assert ConflictsFirst(c, v, rejects, play, n, ids, k, (c[ids[k]].origin, ids[k]));
      } else {
        PassPlays(c, v, rejects, play, n, ids, k + 1);
      }
    }
  }

  /** The first position from k on whose transaction takes part and conflicts. */
  ghost predicate ConflictsFirst<S>(c: Committed, v: VersionMap, rejects: Rejections, play: Playback<S>, n: nat,
                                    ids: seq<Id>, k: nat, at: (Peer, Id)) {
    exists i: nat | k <= i < |ids| ::
      && ConflictsAt(c, v, rejects, play, n, ids, i) && at == (c[ids[i]].origin, ids[i])
      && forall j: nat | k <= j < i :: !ConflictsAt(c, v, rejects, play, n, ids, j)
  }

  predicate ConflictsAt<S>(c: Committed, v: VersionMap, rejects: Rejections, play: Playback<S>, n: nat, ids: seq<Id>,
                           i: nat)
    requires i < |ids|
  {
    && ids[i] in c && c[ids[i]].events != [] && Has(v, c[ids[i]].origin, ids[i]) && !Listed(rejects, ids[i])
    && play(n, Accepted(c, v, rejects, ids, i) + [c[ids[i]]]).None?
  }

  /** The accepted transactions are those with events that are covered and not listed. */
  lemma {:induction false} AcceptedMeaning(c: Committed, v: VersionMap, r: Rejections, ids: seq<Id>, k: nat,
                                           tx: Transaction)
    requires k <= |ids|
    ensures tx in Accepted(c, v, r, ids, k) <==>
            exists i | 0 <= i < k ::
              ids[i] in c && c[ids[i]] == tx && tx.events != [] && Has(v, tx.origin, ids[i]) && !Listed(r, ids[i])
    decreases k
  {
    if k > 0 {
      AcceptedMeaning(c, v, r, ids, k - 1, tx);
    }
  }

  /** A list is right when it names a transaction exactly if that one conflicts after the accepted ones below it. */
  ghost predicate RightRejections(c: Committed, v: VersionMap, conflicts: seq<Transaction> -> bool, ids: seq<Id>,
                                  r: Rejections)
  {
    forall k | 0 <= k < |ids| ::
      Listed(r, ids[k]) <==> Relevant(c, v, ids[k]) && conflicts(Accepted(c, v, r, ids, k) + [c[ids[k]]])
  }

  lemma {:induction false} AcceptedFolds<S>(c: Committed, v: VersionMap, step: Step<S>, blank: S, ids: seq<Id>, k: nat)
    requires Sorted(ids) && k <= |ids|
    ensures Fold(step, blank, Accepted(c, v, Greedy(c, v, step, blank, [], ids).rejects, ids, k)) ==
            Some(Greedy(c, v, step, blank, [], ids[..k]).state)
  {
    if k > 0 {
      AcceptedFolds(c, v, step, blank, ids, k - 1);
      GreedyNext(c, v, step, blank, [], ids, k - 1);
      assert ids[..|ids|] == ids;
      ListedMeaning(c, v, step, blank, [], ids, k - 1, |ids|);
      if Relevant(c, v, ids[k - 1]) {
        FoldAppend(step, blank, Accepted(c, v, Greedy(c, v, step, blank, [], ids).rejects, ids, k - 1), c[ids[k - 1]]);
      }
    }
  }

  /** The greedy rejections are right, and they come in ascending order. */
  lemma GreedyIsRight<S>(c: Committed, v: VersionMap, step: Step<S>, blank: S, ids: seq<Id>)
    requires Sorted(ids)
    ensures RightRejections(c, v, txs => Fold(step, blank, txs).None?, ids, Greedy(c, v, step, blank, [], ids).rejects)
    ensures var r := Greedy(c, v, step, blank, [], ids).rejects;
            EntriesAscend(r)
  {
    var r := Greedy(c, v, step, blank, [], ids).rejects;
    assert ids[..|ids|] == ids;
    forall k | 0 <= k < |ids|
      ensures Listed(r, ids[k]) <==>
                Relevant(c, v, ids[k]) && Fold(step, blank, Accepted(c, v, r, ids, k) + [c[ids[k]]]).None?
    {
      ListedMeaning(c, v, step, blank, [], ids, k, |ids|);
      AcceptedFolds(c, v, step, blank, ids, k);
      if Relevant(c, v, ids[k]) {
        FoldAppend(step, blank, Accepted(c, v, r, ids, k), c[ids[k]]);
      }
    }
    GreedyAscends(c, v, step, blank, ids, if ids == [] then 0 else ids[|ids| - 1] + 1);
  }

  predicate EntriesAscend(r: Rejections) {
    forall i, j | 0 <= i < j < |r| :: r[i].1 < r[j].1
  }

  predicate EntriesBelow(r: Rejections, bound: Id) {
    forall i | 0 <= i < |r| :: r[i].1 < bound
  }

  lemma {:induction false} GreedyAscends<S>(c: Committed, v: VersionMap, step: Step<S>, blank: S, ids: seq<Id>,
                                            bound: Id)
    requires Sorted(ids) && forall i | 0 <= i < |ids| :: ids[i] < bound
    ensures EntriesAscend(Greedy(c, v, step, blank, [], ids).rejects)
    ensures EntriesBelow(Greedy(c, v, step, blank, [], ids).rejects, bound)
    decreases |ids|
  {
    if ids != [] {
      var shorter, id := ids[..|ids| - 1], ids[|ids| - 1];
      GreedyAscends(c, v, step, blank, shorter, id);
      var before := Greedy(c, v, step, blank, [], shorter).rejects;
      assert EntriesAscend(before) && EntriesBelow(before, id);
    }
  }

  /** There is only one right set of rejections: the result of the loop is forced. */
  lemma {:induction false} RightRejectionsAgree(c: Committed, v: VersionMap, conflicts: seq<Transaction> -> bool,
                                                ids: seq<Id>, r: Rejections, q: Rejections, k: nat)
    requires RightRejections(c, v, conflicts, ids, r) && RightRejections(c, v, conflicts, ids, q)
    requires k <= |ids|
    ensures Accepted(c, v, r, ids, k) == Accepted(c, v, q, ids, k)
    ensures k < |ids| ==> (Listed(r, ids[k]) <==> Listed(q, ids[k]))
    decreases k
  {
    if k > 0 {
      RightRejectionsAgree(c, v, conflicts, ids, r, q, k - 1);
    }
  }

  // The cache.

  predicate ReadOnly(tx: Transaction) {
    forall i | 0 <= i < |tx.events| :: tx.events[i].kind in {MethodCall, SubMethodReturn}
  }

  ghost predicate IdentityOnReads<S(!new)>(step: Step<S>) {
    forall s, tx | ReadOnly(tx) :: step(s, tx) == Some(s)
  }

  /** The part of CanUseCachedLiveObject_Locked that looks at the history. */
  predicate CacheServes(c: Committed, cached: VersionMap, requested: VersionMap) {
    && Leq(cached, requested)
    && forall id | id in c && c[id].origin in requested ::
         (if c[id].origin in cached then cached[c[id].origin] else MIN_ID) < id <= requested[c[id].origin]
         ==> ReadOnly(c[id])
  }

  /** When the cache serves, a replay at the requested version gives what a replay at the cached one gave. */
  lemma {:induction false} CacheAgrees<S(!new)>(c: Committed, cached: VersionMap, requested: VersionMap,
                                                step: Step<S>, blank: S, ids: seq<Id>)
    requires CacheServes(c, cached, requested) && IdentityOnReads(step)
    requires forall id | id in c :: id > MIN_ID
    ensures Greedy(c, requested, step, blank, [], ids) == Greedy(c, cached, step, blank, [], ids)
    decreases |ids|
  {
    if ids != [] {
      var id := ids[|ids| - 1];
      CacheAgrees(c, cached, requested, step, blank, ids[..|ids| - 1]);
      if Relevant(c, requested, id) && !Relevant(c, cached, id) {
        assert ReadOnly(c[id]);
      }
    }
  }

  /** Greedy looks only at the transactions it is given ids of. */
  lemma {:induction false} GreedyIsLocal<S>(c: Committed, d: Committed, v: VersionMap, step: Step<S>, blank: S,
                                            ids: seq<Id>)
    requires forall id | id in ids :: (id in c <==> id in d) && (id in c ==> c[id] == d[id])
    ensures Greedy(c, v, step, blank, [], ids) == Greedy(d, v, step, blank, [], ids)
    decreases |ids|
  {
    if ids != [] {
      assert ids[|ids| - 1] in ids;
      assert forall id | id in ids[..|ids| - 1] :: id in ids;
      GreedyIsLocal(c, d, v, step, blank, ids[..|ids| - 1]);
    }
  }

  lemma GreedyAppend<S>(c: Committed, v: VersionMap, step: Step<S>, blank: S, ids: seq<Id>, id: Id)
    ensures Greedy(c, v, step, blank, [], ids + [id]) ==
            Selected(c, v, step, [], Greedy(c, v, step, blank, [], ids), id)
  {
    assert (ids + [id])[..|ids|] == ids;
  }

  /** A late insert leaves the replay alone if the new transaction is not covered or only reads. */
  lemma {:induction false} LateInsertIsHarmless<S(!new)>(c: Committed, v: VersionMap, step: Step<S>, blank: S,
                                                         lo: seq<Id>, id: Id, tx: Transaction, hi: seq<Id>)
    requires id !in lo + hi && IdentityOnReads(step)
    requires !Has(v, tx.origin, id) || ReadOnly(tx)
    ensures Greedy(c[id := tx], v, step, blank, [], lo + [id] + hi) == Greedy(c, v, step, blank, [], lo + hi)
    decreases |hi|
  {
    var d := c[id := tx];
    if hi == [] {
      assert lo + [id] + hi == lo + [id] && lo + hi == lo;
      GreedyAppend(d, v, step, blank, lo, id);
      GreedyIsLocal(c, d, v, step, blank, lo);
    } else {
      var hi', last := hi[..|hi| - 1], hi[|hi| - 1];
      assert lo + [id] + hi == lo + [id] + hi' + [last] && lo + hi == lo + hi' + [last];
      assert last in lo + hi;
      LateInsertIsHarmless(c, v, step, blank, lo, id, tx, hi');
      GreedyAppend(d, v, step, blank, lo + [id] + hi', last);
      GreedyAppend(c, v, step, blank, lo + hi', last);
    }
  }

  /** A step function that counts the transactions that do more than read. */
  function CountWrites(n: nat, tx: Transaction): Option<nat> {
    if ReadOnly(tx) then Some(n) else Some(n + 1)
  }

  /** And otherwise some playback tells the difference: the cache, which is not invalidated, is then stale. */
  lemma {:induction false} LateInsertIsSeen(c: Committed, v: VersionMap, lo: seq<Id>, id: Id, tx: Transaction,
                                            hi: seq<Id>)
    requires id !in lo + hi && Has(v, tx.origin, id) && !ReadOnly(tx)
    ensures IdentityOnReads(CountWrites)
    ensures Greedy(c[id := tx], v, CountWrites, 0, [], lo + [id] + hi).state ==
            Greedy(c, v, CountWrites, 0, [], lo + hi).state + 1
    decreases |hi|
  {
    var d := c[id := tx];
    if hi == [] {
      assert lo + [id] + hi == lo + [id] && lo + hi == lo;
      GreedyAppend(d, v, CountWrites, 0, lo, id);
      GreedyIsLocal(c, d, v, CountWrites, 0, lo);
    } else {
      var hi', last := hi[..|hi| - 1], hi[|hi| - 1];
      assert lo + [id] + hi == lo + [id] + hi' + [last] && lo + hi == lo + hi' + [last];
      assert last in lo + hi;
      LateInsertIsSeen(c, v, lo, id, tx, hi');
      GreedyAppend(d, v, CountWrites, 0, lo + [id] + hi', last);
      GreedyAppend(c, v, CountWrites, 0, lo + hi', last);
    }
  }

  function Replayed<S>(c: Committed, v: VersionMap, step: Step<S>, blank: S): Outcome<S> {
    Greedy(c, v, step, blank, [], Ascending(c.Keys))
  }

  lemma PrefixMembers(s: seq<Id>)
    requires Sorted(s) && s != []
    ensures forall x :: x in s[..|s| - 1] <==> x in s && x < s[|s| - 1]
    ensures forall x | x in s :: x <= s[|s| - 1]
  {
    assert s == s[..|s| - 1] + [s[|s| - 1]];
  }

  /** Sorted lists with the same members are the same list. */
  lemma {:induction false} SortedUnique(s: seq<Id>, r: seq<Id>)
    requires Sorted(s) && Sorted(r) && forall x :: x in s <==> x in r
    ensures s == r
    decreases |s|
  {
    assert s != [] ==> s[0] in r;
    assert r != [] ==> r[0] in s;
    if s != [] && r != [] {
      SameLast(s, r, s[..|s| - 1], r[..|r| - 1]);
      SortedUnique(s[..|s| - 1], r[..|r| - 1]);
      assert s == s[..|s| - 1] + [s[|s| - 1]] && r == r[..|r| - 1] + [r[|r| - 1]];
    }
  }

  lemma SameLast(s: seq<Id>, r: seq<Id>, s': seq<Id>, r': seq<Id>)
    requires Sorted(s) && Sorted(r) && s != [] && r != [] && forall x :: x in s <==> x in r
    requires s' == s[..|s| - 1] && r' == r[..|r| - 1]
    ensures s[|s| - 1] == r[|r| - 1] && Sorted(s') && Sorted(r')
    ensures forall x :: x in s' <==> x in r'
  {
    PrefixMembers(s);
    PrefixMembers(r);
    assert s[|s| - 1] in s && r[|r| - 1] in r;
    forall x: Id
      ensures x in s' <==> x in r'
    {
      assert x in s <==> x in r;
    }
  }

  lemma SortedInsert(lo: seq<Id>, id: Id, hi: seq<Id>)
    requires Sorted(lo + hi)
    requires (forall i | 0 <= i < |lo| :: lo[i] < id) && (forall i | 0 <= i < |hi| :: id < hi[i])
    ensures Sorted(lo + [id] + hi)
  {
    var r, s := lo + [id] + hi, lo + hi;
    forall i, j | 0 <= i < j < |r|
      ensures r[i] < r[j]
    {
      assert i < |lo| ==> r[i] == s[i] == lo[i];
      assert j > |lo| ==> r[j] == s[j - 1] == hi[j - |lo| - 1];
      assert i > |lo| ==> r[i] == s[i - 1];
      assert j < |lo| ==> r[j] == s[j];
    }
  }

  lemma SplitAround(s: seq<Id>, id: Id) returns (lo: seq<Id>, hi: seq<Id>)
    requires Sorted(s) && id !in s
    ensures s == lo + hi && Sorted(lo + [id] + hi)
    ensures forall x :: x in lo + [id] + hi <==> x in s || x == id
  {
    var k := 0;
    while k < |s| && s[k] < id
      invariant k <= |s| && forall i | 0 <= i < k :: s[i] < id
    {
      k := k + 1;
    }
    lo, hi := s[..k], s[k..];
    assert s == lo + hi;
    assert k < |s| ==> s[k] in s;
    SortedInsert(lo, id, hi);
  }

  /** Where a new id falls among the ids of a history. */
  lemma AscendingInsert(ids: set<Id>, id: Id) returns (lo: seq<Id>, hi: seq<Id>)
    requires id !in ids
    ensures Ascending(ids) == lo + hi && Ascending(ids + {id}) == lo + [id] + hi && id !in lo + hi
  {
    lo, hi := SplitAround(Ascending(ids), id);
    SortedUnique(lo + [id] + hi, Ascending(ids + {id}));
  }

  lemma CacheSurvivesReads<S(!new)>(c: Committed, v: VersionMap, step: Step<S>, blank: S, id: Id, tx: Transaction)
    requires id !in c && IdentityOnReads(step)
    requires !Has(v, tx.origin, id) || ReadOnly(tx)
    ensures Replayed(c[id := tx], v, step, blank) == Replayed(c, v, step, blank)
  {
    var lo, hi := AscendingInsert(c.Keys, id);
    assert c[id := tx].Keys == c.Keys + {id};
    LateInsertIsHarmless(c, v, step, blank, lo, id, tx, hi);
  }

  lemma CacheMissesWrites(c: Committed, v: VersionMap, id: Id, tx: Transaction)
    requires id !in c && Has(v, tx.origin, id) && !ReadOnly(tx)
    ensures IdentityOnReads(CountWrites)
    ensures Replayed(c[id := tx], v, CountWrites, 0).state == Replayed(c, v, CountWrites, 0).state + 1
  {
    var lo, hi := AscendingInsert(c.Keys, id);
    assert c[id := tx].Keys == c.Keys + {id};
    LateInsertIsSeen(c, v, lo, id, tx, hi);
  }

  /** A late insert changes no replay at the cached version, whatever the playback. */
  ghost predicate CacheSurvives(c: Committed, v: VersionMap, id: Id, tx: Transaction) {
    forall step: Step<nat>, blank | IdentityOnReads(step) ::
      Replayed(c[id := tx], v, step, blank).state == Replayed(c, v, step, blank).state
  }

  /**
   The cached object survives a late insert under every playback exactly when
   the inserted transaction is outside the cached version or only reads.
   */
  lemma CacheSurvivesExactlyWhen(c: Committed, v: VersionMap, id: Id, tx: Transaction)
    requires id !in c
    ensures CacheSurvives(c, v, id, tx) <==> !Has(v, tx.origin, id) || ReadOnly(tx)
  {
    if !Has(v, tx.origin, id) || ReadOnly(tx) {
      forall step: Step<nat>, blank: nat | IdentityOnReads(step)
        ensures Replayed(c[id := tx], v, step, blank).state == Replayed(c, v, step, blank).state
      {
        CacheSurvivesReads(c, v, step, blank, id, tx);
      }
    } else {
      CacheMissesWrites(c, v, id, tx);
      var step: Step<nat> := CountWrites;
      assert IdentityOnReads(step);
      assert Replayed(c[id := tx], v, step, 0).state != Replayed(c, v, step, 0).state;
    }
  }

  /** A replay at the requested version gives the object of the cached one, whatever the playback. */
  ghost predicate SameReplays(c: Committed, cached: VersionMap, requested: VersionMap) {
    forall step: Step<nat>, blank | IdentityOnReads(step) ::
      Replayed(c, requested, step, blank).state == Replayed(c, cached, step, blank).state
  }

  /** Covered by the requested version only, and does more than read. */
  predicate NewWrite(c: Committed, cached: VersionMap, requested: VersionMap, id: Id) {
    Relevant(c, requested, id) && !Relevant(c, cached, id) && !ReadOnly(c[id])
  }

  lemma {:induction false} MoreWrites(c: Committed, cached: VersionMap, requested: VersionMap, ids: seq<Id>)
    requires Leq(cached, requested)
    ensures var n := Greedy(c, cached, CountWrites, 0, [], ids).state;
            var m := Greedy(c, requested, CountWrites, 0, [], ids).state;
            n <= m && ((exists id :: id in ids && NewWrite(c, cached, requested, id)) ==> n < m)
    decreases |ids|
  {
    if ids != [] {
      var shorter, last := ids[..|ids| - 1], ids[|ids| - 1];
      MoreWrites(c, cached, requested, shorter);
      assert ids == shorter + [last];
      assert Relevant(c, cached, last) ==> Relevant(c, requested, last);
    }
  }

  lemma RefusedForAWrite(c: Committed, cached: VersionMap, requested: VersionMap)
    requires Leq(cached, requested) && !CacheServes(c, cached, requested)
    ensures Replayed(c, cached, CountWrites, 0).state < Replayed(c, requested, CountWrites, 0).state
  {
    var id := FirstRefused(c, cached, requested);
    assert id in Ascending(c.Keys);
    MoreWrites(c, cached, requested, Ascending(c.Keys));
  }

  lemma FirstRefused(c: Committed, cached: VersionMap, requested: VersionMap) returns (id: Id)
    requires Leq(cached, requested) && !CacheServes(c, cached, requested)
    ensures id in c && NewWrite(c, cached, requested, id)
  {
    id :| id in c && Has(requested, c[id].origin, id) && !ReadOnly(c[id]) &&
          (if c[id].origin in cached then cached[c[id].origin] else MIN_ID) < id;
    assert c[id].events == [] ==> ReadOnly(c[id]);
  }

  /**
   The cache is accepted for a later version exactly if no playback that ignores
   reads could tell the two versions apart: it is never wrong, and it is not given
   up for transactions that only read.
   */
  lemma CacheServesExactlyWhen(c: Committed, cached: VersionMap, requested: VersionMap)
    requires (forall id | id in c :: id > MIN_ID) && Leq(cached, requested)
    ensures CacheServes(c, cached, requested) <==> SameReplays(c, cached, requested)
  {
    var ids := Ascending(c.Keys);
    if CacheServes(c, cached, requested) {
      forall step: Step<nat>, blank: nat | IdentityOnReads(step)
        ensures Replayed(c, requested, step, blank).state == Replayed(c, cached, step, blank).state
      {
        CacheAgrees(c, cached, requested, step, blank, ids);
      }
    } else {
      RefusedForAWrite(c, cached, requested);
      var step: Step<nat> := CountWrites;
      assert IdentityOnReads(step);
      assert Replayed(c, requested, step, 0).state != Replayed(c, cached, step, 0).state;
    }
  }

  /**
   Replicas that have been offered the same transactions, by whatever operations,
   local or remote, in whatever order and however often, replay to the same object
   and reject the same transactions, each with its own playback, as long as both
   play back by the same step.
   */
  lemma ReplicasReplayAlike<S>(ops: seq<Operation>, ops': seq<Operation>, v: VersionMap, step: Step<S>, blank: S,
                               play: Playback<S>, n: nat, play': Playback<S>, n': nat)
    requires Consistent(ops + ops') && forall id :: Offered(ops, id) <==> Offered(ops', id)
    requires IsFold(play, step, blank) && IsFold(play', step, blank)
    ensures var c, c' := AfterRun(EMPTY, ops).committed, AfterRun(EMPTY, ops').committed;
            Retry(c, v, play, blank, Ascending(c.Keys), n, []) == Retry(c', v, play', blank, Ascending(c'.Keys), n', [])
  {
    SameOffersSameCommitted(ops, ops');
    var c := AfterRun(EMPTY, ops).committed;
    LoopIsGreedy(c, v, play, step, blank, Ascending(c.Keys), n);
    LoopIsGreedy(c, v, play', step, blank, Ascending(c.Keys), n');
  }

  lemma LoopIsGreedy<S>(c: Committed, v: VersionMap, play: Playback<S>, step: Step<S>, blank: S, ids: seq<Id>, n: nat)
    requires IsFold(play, step, blank) && Sorted(ids)
    ensures var r := Retry(c, v, play, blank, ids, n, []); Outcome(r.0, r.1) == Greedy(c, v, step, blank, [], ids)
  {
    assert Greedy(c, v, step, blank, [], ids[..0]).rejects == [];
    RetryIsGreedy(c, v, play, step, blank, [], ids, n, 0);
  }
}
