/**
 Sequence points (engine/sequence_point_impl.cc, engine/peer_exclusion_map.cc):
 which transactions of which peer are visible, given a version map, the ranges
 each peer has invalidated, and the transactions at which peers were rejected.
 */
module SequencePoints {
  import opened TransactionIds
  import opened VersionMaps
  import opened IntervalSets

  datatype SequencePoint = SequencePoint(
    versionMap: VersionMap,
    exclusions: map<Peer, Intervals>,
    rejected: map<Peer, set<Id>>)

  const EMPTY := SequencePoint(map[], map[], map[])

  predicate Valid(sp: SequencePoint) {
    && (forall p | p in sp.exclusions :: WellFormed(sp.exclusions[p]))
    && (forall p | p in sp.rejected :: sp.rejected[p] != {})
  }

  function ExcludedBy(sp: SequencePoint, p: Peer): Intervals {
    if p in sp.exclusions then sp.exclusions[p] else []
  }

  function RejectedOf(sp: SequencePoint, p: Peer): set<Id> {
    if p in sp.rejected then sp.rejected[p] else {}
  }

  /** Known, not excluded, and below every id at which the peer was rejected. */
  predicate Visible(sp: SequencePoint, p: Peer, t: Id) {
    && Has(sp.versionMap, p, t)
    && !Holds(ExcludedBy(sp, p), t)
    && forall r | r in RejectedOf(sp, p) :: t < r
  }

  function WithTransaction(sp: SequencePoint, p: Peer, t: Id): SequencePoint {
    sp.(versionMap := Added(sp.versionMap, p, t))
  }

  function WithRejectedPeer(sp: SequencePoint, p: Peer, t: Id): SequencePoint {
    sp.(rejected := sp.rejected[p := RejectedOf(sp, p) + {t}])
  }

  function OutsideRange(ids: set<Id>, start: Id, end: Id): (r: set<Id>)
    ensures forall x :: x in r <==> x in ids && !(start <= x < end)
  {
    set x | x in ids && !(start <= x < end)
  }

  function WithInvalidatedRange(sp: SequencePoint, p: Peer, start: Id, end: Id): SequencePoint
    requires Valid(sp)
  {
    var ids := OutsideRange(RejectedOf(sp, p), start, end);
    sp.(exclusions := sp.exclusions[p := AddedInterval(ExcludedBy(sp, p), start, end)],
        rejected := if p !in sp.rejected then sp.rejected
                    else if ids == {} then sp.rejected - {p}
                    else sp.rejected[p := ids])
  }

  /** Adding a peer's transaction shows it and the ones before it, unless they are excluded or rejected. */
  lemma AdditionShows(sp: SequencePoint, p: Peer, t: Id, q: Peer, x: Id)
    ensures Visible(WithTransaction(sp, p, t), q, x) <==>
            || Visible(sp, q, x)
            || (q == p && x <= t && !Holds(ExcludedBy(sp, p), x) && forall r | r in RejectedOf(sp, p) :: x < r)
  {
    AddedIsUnion(sp.versionMap, p, t);
    var after := WithTransaction(sp, p, t);
    assert ExcludedBy(after, q) == ExcludedBy(sp, q) && RejectedOf(after, q) == RejectedOf(sp, q);
    assert Has(after.versionMap, q, x) <==> Has(sp.versionMap, q, x) || (q == p && x <= t);
  }

  /** Rejecting a peer's transaction hides it and everything after it, and shows nothing. */
  lemma RejectionHides(sp: SequencePoint, p: Peer, r: Id, q: Peer, t: Id)
    ensures Visible(WithRejectedPeer(sp, p, r), q, t) <==> Visible(sp, q, t) && !(q == p && r <= t)
  {
    var after := WithRejectedPeer(sp, p, r);
    assert q != p ==> RejectedOf(after, q) == RejectedOf(sp, q);
    if q == p {
      assert r in RejectedOf(after, p);
      assert forall x | x in RejectedOf(sp, p) :: x in RejectedOf(after, p);
    }
  }

  /** Exactly what is visible after an invalidation: Reach says how far the range is really excluded. */
  lemma InvalidationMeaning(sp: SequencePoint, p: Peer, start: Id, end: Id, q: Peer, t: Id)
    requires Valid(sp) && start <= end
    ensures var reach := Reach(ExcludedBy(sp, p), start, end);
            Visible(WithInvalidatedRange(sp, p, start, end), q, t) <==>
              if q != p then Visible(sp, q, t)
              else && Has(sp.versionMap, p, t)
                   && !Holds(ExcludedBy(sp, p), t)
                   && !(start <= t < reach)
                   && forall r | r in RejectedOf(sp, p) && !(start <= r < end) :: t < r
  {
    var after := WithInvalidatedRange(sp, p, start, end);
    AddedIntervalMeaning(ExcludedBy(sp, p), start, end, t);
    assert ExcludedBy(after, p) == AddedInterval(ExcludedBy(sp, p), start, end);
    assert RejectedOf(after, p) == OutsideRange(RejectedOf(sp, p), start, end);
    if q != p {
      assert ExcludedBy(after, q) == ExcludedBy(sp, q) && RejectedOf(after, q) == RejectedOf(sp, q);
    }
  }

  /**
   When the start neither lies in nor touches an excluded interval of the peer,
   the whole range is hidden, other peers keep what they had, and whatever
   becomes visible lies at or above the end.
   */
  lemma InvalidationIsSound(sp: SequencePoint, p: Peer, start: Id, end: Id, q: Peer, t: Id)
    requires Valid(sp) && start < end
    requires forall i | 0 <= i < |ExcludedBy(sp, p)| ::
               !(ExcludedBy(sp, p)[i].start <= start <= ExcludedBy(sp, p)[i].end)
    ensures q == p && start <= t < end ==> !Visible(WithInvalidatedRange(sp, p, start, end), q, t)
    ensures q != p ==> (Visible(WithInvalidatedRange(sp, p, start, end), q, t) <==> Visible(sp, q, t))
    ensures Visible(WithInvalidatedRange(sp, p, start, end), q, t) && !Visible(sp, q, t) ==> q == p && end <= t
  {
    OpensFreshMeaning(ExcludedBy(sp, p), start);
    InvalidationMeaning(sp, p, start, end, q, t);
  }

  /**
   Every transaction in the range is excluded exactly when the start opens a
   fresh interval or an excluded interval already covers or touches the end.
   */
  lemma RangeExcludedExactlyWhen(sp: SequencePoint, p: Peer, start: Id, end: Id)
    requires Valid(sp) && start < end
    ensures var before := ExcludedBy(sp, p);
            (forall t | start <= t < end :: Holds(ExcludedBy(WithInvalidatedRange(sp, p, start, end), p), t)) <==>
              || OpensFresh(before, start)
              || exists i | 0 <= i < |before| :: before[i].start <= end <= before[i].end
  {
    AddIsCompleteExactlyWhen(ExcludedBy(sp, p), start, end);
    assert ExcludedBy(WithInvalidatedRange(sp, p, start, end), p) == AddedInterval(ExcludedBy(sp, p), start, end);
  }

  datatype Operation =
    | AddTransaction(peer: Peer, id: Id)
    | Invalidate(peer: Peer, start: Id, end: Id)
    | Reject(peer: Peer, id: Id)

  function After(sp: SequencePoint, op: Operation): (r: SequencePoint)
    requires Valid(sp)
    ensures Valid(r)
  {
    match op
    case AddTransaction(p, t) => WithTransaction(sp, p, t)
    case Invalidate(p, s, e) => WithInvalidatedRange(sp, p, s, e)
    case Reject(p, t) => WithRejectedPeer(sp, p, t)
  }

  /** The point after a run of operations; each keeps the point valid, so every operation is defined. */
  function AfterRun(sp: SequencePoint, ops: seq<Operation>): (r: SequencePoint)
    requires Valid(sp)
    ensures Valid(r)
    decreases |ops|
  {
    if ops == [] then sp else After(AfterRun(sp, ops[..|ops| - 1]), ops[|ops| - 1])
  }

  /** Once rejected, a transaction stays hidden until an invalidation of its peer covers the rejection. */
  lemma {:induction false} RejectionIsLasting(sp: SequencePoint, ops: seq<Operation>, p: Peer, r: Id, t: Id)
    requires Valid(sp) && r in RejectedOf(sp, p) && r <= t
    requires forall i | 0 <= i < |ops| :: ops[i].Invalidate? && ops[i].peer == p ==> !(ops[i].start <= r < ops[i].end)
    ensures r in RejectedOf(AfterRun(sp, ops), p) && !Visible(AfterRun(sp, ops), p, t)
    decreases |ops|
  {
    if ops != [] {
      RejectionIsLasting(sp, ops[..|ops| - 1], p, r, t);
      RejectionStays(AfterRun(sp, ops[..|ops| - 1]), ops[|ops| - 1], p, r);
    }
  }

  lemma RejectionStays(sp: SequencePoint, op: Operation, p: Peer, r: Id)
    requires Valid(sp) && r in RejectedOf(sp, p)
    requires op.Invalidate? && op.peer == p ==> !(op.start <= r < op.end)
    ensures r in RejectedOf(After(sp, op), p)
  {
  }

  /**
   An invalidation shows a hidden transaction inside its own range exactly if the
   transaction is known and not excluded, the range is not really excluded so
   far, and the range takes away every rejection that hid the transaction.
   */
  lemma RevealsExactlyWhen(sp: SequencePoint, p: Peer, start: Id, end: Id, t: Id)
    requires Valid(sp) && start <= t < end
    ensures !Visible(sp, p, t) && Visible(WithInvalidatedRange(sp, p, start, end), p, t) <==>
            && Has(sp.versionMap, p, t) && !Holds(ExcludedBy(sp, p), t)
            && Reach(ExcludedBy(sp, p), start, end) <= t
            && (exists r | r in RejectedOf(sp, p) :: r <= t)
            && (forall r | r in RejectedOf(sp, p) && r <= t :: start <= r)
  {
    InvalidationMeaning(sp, p, start, end, p, t);
  }

  /**
   So an invalidation can even show a transaction that was hidden: when
   [a, c) is already excluded and t was rejected, then invalidating [b, d) around
   the rejection forgets it without excluding t.
   */
  lemma InvalidationCanReveal(p: Peer, a: Id, b: Id, c: Id, t: Id, d: Id)
    requires ValidId(a) && ValidId(d) && a <= b <= c <= t < d && a < c
    ensures var sp := AfterRun(EMPTY, [AddTransaction(p, t)] + [Invalidate(p, a, c)] + [Reject(p, t)]);
            && b <= t < d && !Visible(sp, p, t)
            && Visible(WithInvalidatedRange(sp, p, b, d), p, t)
  {
    HiddenPoint(p, t, a, c);
    Revealed(p, a, b, c, t, d, AfterRun(EMPTY, [AddTransaction(p, t)] + [Invalidate(p, a, c)] + [Reject(p, t)]));
  }

  lemma Revealed(p: Peer, a: Id, b: Id, c: Id, t: Id, d: Id, sp: SequencePoint)
    requires a <= b <= c <= t < d && a < c && Valid(sp)
    requires sp == SequencePoint(map[p := t], map[p := [Interval(a, c)]], map[p := {t}])
    ensures !Visible(sp, p, t) && Visible(WithInvalidatedRange(sp, p, b, d), p, t)
  {
    assert ExcludedBy(sp, p) == [Interval(a, c)] && RejectedOf(sp, p) == {t};
    TouchingReach(a, b, c, d);
    RevealsExactlyWhen(sp, p, b, d, t);
  }

  lemma TouchingReach(a: Id, b: Id, c: Id, d: Id)
    requires a <= b <= c < d && a < c
    ensures Reach([Interval(a, c)], b, d) <= c
  {
    assert UpperBound([Interval(a, c)], b) == 1 == UpperBound([Interval(a, c)], d);
  }

  lemma HiddenPoint(p: Peer, t: Id, a: Id, c: Id)
    requires a < c
    ensures AfterRun(EMPTY, [AddTransaction(p, t)] + [Invalidate(p, a, c)] + [Reject(p, t)]) ==
            SequencePoint(map[p := t], map[p := [Interval(a, c)]], map[p := {t}])
  {
    KnowingFirst(p, t);
    ExcludingFirst(p, t, a, c);
    RejectingFirst(p, t, SequencePoint(map[p := t], map[p := [Interval(a, c)]], map[]));
    OneMore(EMPTY, [AddTransaction(p, t)], Invalidate(p, a, c));
    OneMore(EMPTY, [AddTransaction(p, t)] + [Invalidate(p, a, c)], Reject(p, t));
  }

  lemma KnowingFirst(p: Peer, t: Id)
    ensures AfterRun(EMPTY, [AddTransaction(p, t)]) == SequencePoint(map[p := t], map[], map[])
  {
    OneMore(EMPTY, [], AddTransaction(p, t));
    assert [] + [AddTransaction(p, t)] == [AddTransaction(p, t)];
  }

  lemma RejectingFirst(p: Peer, t: Id, sp: SequencePoint)
    requires Valid(sp) && sp.rejected == map[]
    ensures After(sp, Reject(p, t)) == sp.(rejected := map[p := {t}])
  {
    assert RejectedOf(sp, p) + {t} == {t};
  }

  lemma OneMore(sp: SequencePoint, ops: seq<Operation>, op: Operation)
    requires Valid(sp)
    ensures AfterRun(sp, ops + [op]) == After(AfterRun(sp, ops), op)
  {
    assert (ops + [op])[..|ops|] == ops;
  }

  lemma ExcludingFirst(p: Peer, t: Id, a: Id, c: Id)
    requires a < c
    ensures WithInvalidatedRange(SequencePoint(map[p := t], map[], map[]), p, a, c) ==
            SequencePoint(map[p := t], map[p := [Interval(a, c)]], map[])
  {
    assert UpperBound([], a) == 0 == UpperBound([], c);
    assert AddedInterval([], a, c) == [Interval(a, c)];
  }

  method Smallest(ids: set<Id>) returns (least: Id)
    requires ids != {}
    ensures least in ids && forall r | r in ids :: least <= r
  {
    var rest := ids;
    least :| least in rest;
    rest := rest - {least};
    while rest != {}
      invariant rest <= ids && least in ids
      invariant forall r | r in ids && r !in rest :: least <= r
      decreases rest
    {
      var r :| r in rest;
      if r < least {
        least := r;
      }
      rest := rest - {r};
    }
  }

  class SequencePointImpl {
    var versionMap: VersionMap
    var exclusions: map<Peer, Intervals>
    var rejectedPeers: map<Peer, set<Id>>

    function Value(): SequencePoint
      reads this
    {
      SequencePoint(versionMap, exclusions, rejectedPeers)
    }

    constructor ()
      ensures Value() == EMPTY && Valid(Value())
    {
      versionMap, exclusions, rejectedPeers := map[], map[], map[];
    }

    method HasPeerTransactionId(p: Peer, t: Id) returns (has: bool)
      requires Valid(Value())
      ensures has <==> Visible(Value(), p, t)
    {
      if p !in versionMap || t > versionMap[p] {
        return false;
      }
      if p in exclusions {
        var excluded := new IntervalSet();
        excluded.intervals := exclusions[p];
        var isExcluded := excluded.Contains(t);
        if isExcluded {
          return false;
        }
      }
      if p !in rejectedPeers {
        return true;
      }
      assert RejectedOf(Value(), p) == rejectedPeers[p] != {};
      var least := Smallest(rejectedPeers[p]);
      has := t < least;
    }

    method AddPeerTransactionId(p: Peer, t: Id)
      requires Valid(Value()) && ValidId(t)
      modifies this
      ensures Value() == WithTransaction(old(Value()), p, t) && Valid(Value())
    {
      if p !in versionMap || t > versionMap[p] {
        versionMap := versionMap[p := t];
      }
    }

    method AddInvalidatedRange(p: Peer, start: Id, end: Id)
      requires Valid(Value()) && start <= end
      modifies this
      ensures Value() == WithInvalidatedRange(old(Value()), p, start, end) && Valid(Value())
    {
      var excluded := new IntervalSet();
      if p in exclusions {
        excluded.intervals := exclusions[p];
      }
      excluded.AddInterval(start, end);
      exclusions := exclusions[p := excluded.intervals];
      assert exclusions == WithInvalidatedRange(old(Value()), p, start, end).exclusions;
      if p in rejectedPeers {
        var ids := OutsideRange(rejectedPeers[p], start, end);
        if ids == {} {
          rejectedPeers := rejectedPeers - {p};
        } else {
          rejectedPeers := rejectedPeers[p := ids];
        }
      }
    }

    method AddRejectedPeer(p: Peer, t: Id)
      requires Valid(Value())
      modifies this
      ensures Value() == WithRejectedPeer(old(Value()), p, t) && Valid(Value())
    {
      var ids := if p in rejectedPeers then rejectedPeers[p] else {};
      rejectedPeers := rejectedPeers[p := ids + {t}];
    }
  }
}
