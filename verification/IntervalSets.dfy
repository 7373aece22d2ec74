/**
 Sets of ids kept as disjoint half-open intervals (engine/interval_set.h). The
 ordered map from start to end is a sequence of intervals in ascending order.

 AddInterval does not always add the whole interval: when the start lies inside
 an existing interval or touches its end, the result grows only to the end of
 the last interval that starts at or before the requested end. The lemmas state
 exactly what is added and exactly when that is everything.
 */
module IntervalSets {
  import opened TransactionIds

  datatype Interval = Interval(start: Id, end: Id)

  type Intervals = seq<Interval>

  /** Non-empty intervals in ascending order with a gap between neighbours. */
  predicate WellFormed(s: Intervals)
    ensures WellFormed(s) ==> Ascending(s)
  {
    && (forall i | 0 <= i < |s| :: s[i].start < s[i].end)
    && (forall i, j | 0 <= i < j < |s| :: s[i].end < s[j].start)
  }

  /** Map order alone; in the middle of AddInterval the intervals may overlap. */
  predicate Ascending(s: Intervals) {
    forall i, j | 0 <= i < j < |s| :: s[i].start < s[j].start
  }

  /** The meaning of an interval list: the ids it holds. */
  predicate Holds(s: Intervals, t: Id) {
    exists i | 0 <= i < |s| :: s[i].start <= t < s[i].end
  }

  predicate HoldsIn(s: Intervals, lo: nat, hi: nat, t: Id)
    requires lo <= hi <= |s|
  {
    exists i | lo <= i < hi :: s[i].start <= t < s[i].end
  }

  /** The position upper_bound(t) finds: everything before starts at or below t. */
  function UpperBound(s: Intervals, t: Id): (k: nat)
    requires Ascending(s)
    ensures k <= |s|
    ensures forall i | 0 <= i < k :: s[i].start <= t
    ensures forall i | k <= i < |s| :: t < s[i].start
  {
    UpperBoundFrom(s, t, 0)
  }

  function UpperBoundFrom(s: Intervals, t: Id, from: nat): (k: nat)
    requires Ascending(s) && from <= |s|
    requires forall i | 0 <= i < from :: s[i].start <= t
    ensures from <= k <= |s|
    ensures forall i | 0 <= i < k :: s[i].start <= t
    ensures forall i | k <= i < |s| :: t < s[i].start
    decreases |s| - from
  {
    if from == |s| || t < s[from].start then from else UpperBoundFrom(s, t, from + 1)
  }

  lemma UpperBoundUnique(s: Intervals, t: Id, k: nat)
    requires Ascending(s) && k <= |s|
    requires k > 0 ==> s[k - 1].start <= t
    requires k < |s| ==> t < s[k].start
    ensures k == UpperBound(s, t)
  {
  }

  /** The test AddInterval makes: the start opens an interval of its own. */
  predicate OpensFresh(s: Intervals, start: Id)
    requires WellFormed(s)
  {
    var i := UpperBound(s, start);
    i == 0 || s[i - 1].end < start
  }

  /** In terms of the set: the start neither lies in an existing interval nor touches its end. */
  lemma OpensFreshMeaning(s: Intervals, start: Id)
    requires WellFormed(s)
    ensures OpensFresh(s, start) <==> forall i | 0 <= i < |s| :: !(s[i].start <= start <= s[i].end)
  {
  }

  /** Up to where the ids of [start, end) are really added. */
  function Reach(s: Intervals, start: Id, end: Id): Id
    requires WellFormed(s)
  {
    if OpensFresh(s, start) then end
    else
      var k := UpperBound(s, end);
      if k > 0 && s[k - 1].end < end then s[k - 1].end else end
  }

  /** How many leading intervals AddInterval leaves alone. */
  function Kept(s: Intervals, start: Id): (k: nat)
    requires WellFormed(s)
    ensures k <= |s|
    ensures forall i | 0 <= i < k :: s[i].end < start
    ensures OpensFresh(s, start) ==> k == UpperBound(s, start)
    ensures !OpensFresh(s, start) ==> k == UpperBound(s, start) - 1 && s[k].start <= start <= s[k].end
  {
    if OpensFresh(s, start) then UpperBound(s, start) else UpperBound(s, start) - 1
  }

  /** The one interval that replaces the intervals from Kept up to the upper bound of the end. */
  function Merged(s: Intervals, start: Id, end: Id): Interval
    requires WellFormed(s)
  {
    var k := Kept(s, start);
    var j := UpperBound(s, end);
    var first := if OpensFresh(s, start) then Interval(start, end) else s[k];
    var oldEnd := if k < j then s[j - 1].end else first.end;
    Interval(first.start, if first.end < oldEnd then oldEnd else first.end)
  }

  /** The interval list after AddInterval. */
  function AddedInterval(s: Intervals, start: Id, end: Id): (r: Intervals)
    requires WellFormed(s)
    ensures WellFormed(r)
  {
    if start >= end then s
    else
      MergedSeparates(s, start, end);
      SpliceWellFormed(s, Kept(s, start), Merged(s, start, end), UpperBound(s, end));
      Splice(s, Kept(s, start), Merged(s, start, end), UpperBound(s, end))
  }

  function Splice(s: Intervals, k: nat, m: Interval, j: nat): Intervals
    requires k <= j <= |s|
  {
    s[..k] + [m] + s[j..]
  }

  lemma MergedSeparates(s: Intervals, start: Id, end: Id)
    requires WellFormed(s) && start < end
    ensures Kept(s, start) <= UpperBound(s, end)
    ensures var m := Merged(s, start, end);
            && m.start < m.end
            && (forall i | 0 <= i < Kept(s, start) :: s[i].end < m.start)
            && (forall i | UpperBound(s, end) <= i < |s| :: m.end < s[i].start)
  {
    var k := Kept(s, start);
    var j := UpperBound(s, end);
    assert k > 0 ==> s[k - 1].start <= start;
    if !OpensFresh(s, start) {
      assert k < j;
    }
  }

  lemma SpliceWellFormed(s: Intervals, k: nat, m: Interval, j: nat)
    requires WellFormed(s) && k <= j <= |s|
    requires m.start < m.end
    requires forall i | 0 <= i < k :: s[i].end < m.start
    requires forall i | j <= i < |s| :: m.end < s[i].start
    ensures WellFormed(Splice(s, k, m, j))
  {
    var r := Splice(s, k, m, j);
    forall a, b | 0 <= a < b < |r|
      ensures r[a].end < r[b].start
    {
      assert a < k ==> r[a] == s[a];
      assert b < k ==> r[b] == s[b];
      assert a > k ==> r[a] == s[a - k - 1 + j];
      assert b > k ==> r[b] == s[b - k - 1 + j];
    }
  }

  lemma SpliceHolds(s: Intervals, k: nat, m: Interval, j: nat, t: Id)
    requires k <= j <= |s|
    ensures Holds(Splice(s, k, m, j), t) <==> HoldsIn(s, 0, k, t) || m.start <= t < m.end || HoldsIn(s, j, |s|, t)
  {
    var r := Splice(s, k, m, j);
    assert forall i | 0 <= i < k :: r[i] == s[i];
    assert r[k] == m;
    assert forall i | j <= i < |s| :: s[i] == r[i - j + k + 1];
    assert forall i | k < i < |r| :: r[i] == s[i - k - 1 + j];
  }

  /** An id is held exactly when the last interval starting at or below it holds it. */
  lemma HoldsAtUpperBound(s: Intervals, t: Id)
    requires WellFormed(s)
    ensures var k := UpperBound(s, t);
            Holds(s, t) <==> k > 0 && t < s[k - 1].end
  {
  }

  /** The merged interval holds what the intervals it replaces held, and what is added. */
  lemma MergedMeaning(s: Intervals, start: Id, end: Id, t: Id)
    requires WellFormed(s) && start < end
    requires Kept(s, start) <= UpperBound(s, end)
    ensures var m := Merged(s, start, end);
            m.start <= t < m.end <==>
              HoldsIn(s, Kept(s, start), UpperBound(s, end), t) || start <= t < Reach(s, start, end)
  {
    var k := Kept(s, start);
    var j := UpperBound(s, end);
    if k < j {
      var last := s[j - 1];
      assert forall i | k <= i < j - 1 :: s[i].end < last.start;
      assert forall i | k <= i < j :: s[k].start <= s[i].start;
    }
  }

  /** Exact meaning of AddInterval: the old ids and the requested ones below Reach. */
  lemma AddedIntervalMeaning(s: Intervals, start: Id, end: Id, t: Id)
    requires WellFormed(s)
    ensures Holds(AddedInterval(s, start, end), t) <==> Holds(s, t) || start <= t < Reach(s, start, end)
    ensures Reach(s, start, end) <= end
  {
    if start < end {
      var k := Kept(s, start);
      var j := UpperBound(s, end);
      MergedSeparates(s, start, end);
      SpliceHolds(s, k, Merged(s, start, end), j, t);
      MergedMeaning(s, start, end, t);
    }
  }

  /** Everything requested is added exactly when the start opens fresh, or a later interval reaches the end. */
  lemma AddIsCompleteExactlyWhen(s: Intervals, start: Id, end: Id)
    requires WellFormed(s) && start < end
    ensures (forall t | start <= t < end :: Holds(AddedInterval(s, start, end), t)) <==> Reach(s, start, end) == end
    ensures Reach(s, start, end) == end <==>
              OpensFresh(s, start) || exists i | 0 <= i < |s| :: s[i].start <= end <= s[i].end
  {
    var k := UpperBound(s, end);
    forall t | start <= t < end && Reach(s, start, end) == end
      ensures Holds(AddedInterval(s, start, end), t)
    {
      AddedIntervalMeaning(s, start, end, t);
    }
    AddedIntervalMeaning(s, start, end, end - 1);
    HoldsAtUpperBound(s, end - 1);
    if Reach(s, start, end) != end {
      assert k > 0 && s[k - 1].end < end;
      assert forall i | 0 <= i < k :: s[i].end <= s[k - 1].end;
    }
  }

  /** From {[2, 5)}, adding [4, 9) leaves {[2, 5)}. */
  lemma AddCanLoseTheTail()
    ensures AddedInterval([Interval(2, 5)], 4, 9) == [Interval(2, 5)]
    ensures !Holds(AddedInterval([Interval(2, 5)], 4, 9), 8)
  {
    var s := [Interval(2, 5)];
    assert s[..0] == [];
  }

  /** Comparing the lists compares the sets. */
  lemma {:induction false} EqualListsEqualSets(s: Intervals, r: Intervals)
    requires WellFormed(s) && WellFormed(r)
    ensures s == r <==> forall t: Id :: Holds(s, t) <==> Holds(r, t)
    decreases |s|
  {
    if forall t: Id :: Holds(s, t) <==> Holds(r, t) {
      if s == [] || r == [] {
        NonEmptyHolds(s);
        NonEmptyHolds(r);
      } else {
        SameFirst(s, r);
        assert s == [s[0]] + s[1..] && r == [r[0]] + r[1..];
        SameTail(s, r);
        EqualListsEqualSets(s[1..], r[1..]);
      }
    }
  }

  lemma NonEmptyHolds(s: Intervals)
    requires WellFormed(s)
    ensures s != [] ==> Holds(s, s[0].start)
    ensures s == [] ==> forall t: Id :: !Holds(s, t)
  {
  }

  lemma HoldsInTail(s: Intervals, t: Id)
    requires WellFormed(s) && s != []
    ensures WellFormed(s[1..])
    ensures Holds(s[1..], t) <==> Holds(s, t) && s[0].end <= t
  {
    if Holds(s[1..], t) {
      var i :| 0 <= i < |s| - 1 && s[1..][i].start <= t < s[1..][i].end;
      assert s[1..][i] == s[i + 1];
    }
    if Holds(s, t) && s[0].end <= t {
      var i :| 0 <= i < |s| && s[i].start <= t < s[i].end;
      assert s[1..][i - 1] == s[i];
    }
  }

  lemma SameTail(s: Intervals, r: Intervals)
    requires WellFormed(s) && WellFormed(r) && s != [] && r != [] && s[0] == r[0]
    requires forall t: Id :: Holds(s, t) <==> Holds(r, t)
    ensures WellFormed(s[1..]) && WellFormed(r[1..])
    ensures forall t: Id :: Holds(s[1..], t) <==> Holds(r[1..], t)
  {
    HoldsInTail(s, 0);
    HoldsInTail(r, 0);
    forall t: Id
      ensures Holds(s[1..], t) <==> Holds(r[1..], t)
    {
      HoldsInTail(s, t);
      HoldsInTail(r, t);
    }
  }

  lemma SameFirst(s: Intervals, r: Intervals)
    requires WellFormed(s) && WellFormed(r) && s != [] && r != []
    requires forall t: Id :: Holds(s, t) <==> Holds(r, t)
    ensures s[0] == r[0]
  {
    assert Holds(s, s[0].start) && Holds(r, r[0].start);
    assert s[0].start == r[0].start;
    assert !Holds(s, s[0].end) && !Holds(r, r[0].end);
    assert Holds(r, r[0].end - 1) && Holds(s, s[0].end - 1);
    var e, f := s[0].end, r[0].end;
    assert r[0].start <= e < f ==> Holds(r, e);
    assert s[0].start <= f < e ==> Holds(s, f);
  }

  function Inserted(s: Intervals, at: nat, m: Interval): (r: Intervals)
    requires at <= |s|
    ensures |r| == |s| + 1 && r[at] == m
    ensures forall i | 0 <= i < at :: r[i] == s[i]
    ensures forall i | at < i < |r| :: r[i] == s[i - 1]
  {
    s[..at] + [m] + s[at..]
  }

  lemma InsertedAscends(s: Intervals, start: Id, end: Id)
    requires WellFormed(s) && OpensFresh(s, start) && start < end
    ensures Ascending(Inserted(s, UpperBound(s, start), Interval(start, end)))
  {
    var at := UpperBound(s, start);
    var r := Inserted(s, at, Interval(start, end));
    assert at > 0 ==> s[at - 1].start < s[at - 1].end < start;
    assert forall i | 0 <= i < at :: s[i].start < start;
    forall i, j | 0 <= i < j < |r|
      ensures r[i].start < r[j].start
    {
      if i < at && j > at {
        assert s[i].start < start < s[j - 1].start;
      }
    }
  }

  /** Inserting a fresh interval shifts the upper bound of its end by one. */
  lemma InsertedUpperBound(s: Intervals, start: Id, end: Id)
    requires WellFormed(s) && OpensFresh(s, start) && start < end
    ensures var at, j := UpperBound(s, start), UpperBound(s, end);
            var r := Inserted(s, at, Interval(start, end));
            && Ascending(r)
            && at <= j && UpperBound(r, end) == j + 1
            && r[j].end == (if at < j then s[j - 1].end else end)
  {
    var at, j := UpperBound(s, start), UpperBound(s, end);
    var r := Inserted(s, at, Interval(start, end));
    InsertedAscends(s, start, end);
    MergedSeparates(s, start, end);
    assert j + 1 < |r| ==> r[j + 1] == s[j];
    UpperBoundUnique(r, end, j + 1);
  }

  lemma InsertedMerge(s: Intervals, start: Id, end: Id)
    requires WellFormed(s) && OpensFresh(s, start) && start < end
    ensures var at, u := UpperBound(s, start), UpperBound(s, end);
            var r := Inserted(s, at, Interval(start, end));
            && Ascending(r) && at <= u && UpperBound(r, end) == u + 1
            && r[..at] == s[..at] && r[u + 1..] == s[u..]
            && Merged(s, start, end) == (if end < r[u].end then Interval(start, r[u].end) else r[at])
  {
    InsertedUpperBound(s, start, end);
    InsertedSlices(s, UpperBound(s, start), Interval(start, end), UpperBound(s, end));
  }

  /** Growing the interval at the insertion point and erasing up to the upper bound gives the merged list. */
  lemma FinishedMerge(s: Intervals, r: Intervals, at: nat, j: nat, start: Id, end: Id)
    requires WellFormed(s) && start < end && at == Kept(s, start) <= UpperBound(s, end)
    requires r == if OpensFresh(s, start) then Inserted(s, at, Interval(start, end)) else s
    requires Ascending(r) && j == UpperBound(r, end)
    ensures at < j
    ensures var oldEnd := r[j - 1].end;
            var grown := if r[at].end < oldEnd then r[at := Interval(r[at].start, oldEnd)] else r;
            grown[..at + 1] + grown[j..] == AddedInterval(s, start, end)
  {
    if OpensFresh(s, start) {
      FreshMerge(s, r, at, j, start, end);
    } else {
      ExistingMerge(s, at, j, start, end);
    }
    GrowAndErase(s, r, at, j, UpperBound(s, end), Merged(s, start, end));
  }

  /** What is kept, what follows, and the merged interval, after an insertion. */
  lemma FreshMerge(s: Intervals, r: Intervals, at: nat, j: nat, start: Id, end: Id)
    requires WellFormed(s) && OpensFresh(s, start) && start < end && at == UpperBound(s, start) <= UpperBound(s, end)
    requires r == Inserted(s, at, Interval(start, end)) && Ascending(r) && j == UpperBound(r, end)
    ensures at < j <= |r| && r[..at] == s[..at] && r[j..] == s[UpperBound(s, end)..]
    ensures Merged(s, start, end) ==
            if r[at].end < r[j - 1].end then Interval(r[at].start, r[j - 1].end) else r[at]
  {
    InsertedMerge(s, start, end);
    assert r[at] == Interval(start, end);
  }

  /** The same when the start lies in an interval or touches its end. */
  lemma ExistingMerge(s: Intervals, at: nat, j: nat, start: Id, end: Id)
    requires WellFormed(s) && !OpensFresh(s, start) && start < end
    requires at == Kept(s, start) <= UpperBound(s, end) && j == UpperBound(s, end)
    ensures at < j <= |s|
    ensures Merged(s, start, end) ==
            if s[at].end < s[j - 1].end then Interval(s[at].start, s[j - 1].end) else s[at]
  {
    assert s[at].start <= start < end;
  }

  lemma InsertedSlices(s: Intervals, at: nat, m: Interval, j: nat)
    requires at <= j <= |s|
    ensures Inserted(s, at, m)[..at] == s[..at] && Inserted(s, at, m)[j + 1..] == s[j..]
  {
  }

  lemma GrowAndErase(s: Intervals, r: Intervals, at: nat, j: nat, u: nat, m: Interval)
    requires at <= u <= |s| && at < j <= |r|
    requires r[..at] == s[..at] && r[j..] == s[u..]
    ensures r[at := m][..at + 1] + r[at := m][j..] == Splice(s, at, m, u)
    ensures m == r[at] ==> r == r[at := m]
  {
    var g := r[at := m];
    assert g[j..] == r[j..];
    assert g[..at] == r[..at];
    assert g[..at + 1] == g[..at] + [m];
  }

  class IntervalSet {
    var intervals: Intervals

    ghost predicate Valid()
      reads this
    {
      WellFormed(intervals)
    }

    constructor ()
      ensures Valid() && intervals == []
    {
      intervals := [];
    }

    method FindUpperBound(t: Id) returns (k: nat)
      requires Ascending(intervals)
      ensures k == UpperBound(intervals, t)
    {
      k := 0;
      while k < |intervals| && intervals[k].start <= t
        invariant k <= |intervals|
        invariant forall i | 0 <= i < k :: intervals[i].start <= t
      {
        k := k + 1;
      }
      UpperBoundUnique(intervals, t, k);
    }

    method AddInterval(start: Id, end: Id)
      requires Valid()
      modifies this
      ensures Valid()
      ensures intervals == AddedInterval(old(intervals), start, end)
    {
      if start >= end {
        return;
      }
      ghost var before := intervals;
      MergedSeparates(intervals, start, end);
      var at := FindUpperBound(start);
      if at == 0 || intervals[at - 1].end < start {
        intervals := Inserted(intervals, at, Interval(start, end));
        InsertedUpperBound(before, start, end);
      } else {
        at := at - 1;
      }
      var j := FindUpperBound(end);
      FinishedMerge(before, intervals, at, j, start, end);
      var oldEnd := intervals[j - 1].end;
      if intervals[at].end < oldEnd {
        intervals := intervals[at := Interval(intervals[at].start, oldEnd)];
      }
      intervals := intervals[..at + 1] + intervals[j..];
    }

    method Contains(t: Id) returns (contains: bool)
      requires Valid()
      ensures contains <==> Holds(intervals, t)
    {
      HoldsAtUpperBound(intervals, t);
      var k := FindUpperBound(t);
      if k == 0 {
        return false;
      }
      contains := t < intervals[k - 1].end;
    }
  }
}
