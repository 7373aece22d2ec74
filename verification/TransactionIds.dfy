/**
 Transaction ids: three 64-bit words compared from the most significant one
 down (engine/transaction_id_util.cc), and the generator that stamps them with
 a strictly advancing clock (engine/transaction_id_generator.cc).

 The rest of the project works with the rank of an id, the 192-bit number its
 words spell. `RankPreservesOrder` shows that nothing is lost by that: ranks are
 equal or ordered exactly as the ids are.
 */
module TransactionIds {

  const UINT64_MAX: nat := 0xFFFF_FFFF_FFFF_FFFF
  const TWO_64: nat := 0x1_0000_0000_0000_0000
  const TWO_128: nat := 0x1_0000_0000_0000_0000_0000_0000_0000_0000

  type Word = n: nat | n < 0x1_0000_0000_0000_0000

  datatype TransactionId = TransactionId(a: Word, b: Word, c: Word)

  const MIN_TRANSACTION_ID := TransactionId(0, 0, 0)
  const MAX_TRANSACTION_ID := TransactionId(UINT64_MAX, UINT64_MAX, UINT64_MAX)

  function Compare(t1: TransactionId, t2: TransactionId): int {
    if t1.a != t2.a then (if t1.a < t2.a then -1 else 1)
    else if t1.b != t2.b then (if t1.b < t2.b then -1 else 1)
    else if t1.c != t2.c then (if t1.c < t2.c then -1 else 1)
    else 0
  }

  predicate IsValidTransactionId(t: TransactionId) {
    0 < t.a < UINT64_MAX
  }

  /** The rank of a transaction id; every other module uses ranks for ids. */
  type Id = nat

  const MIN_ID: Id := 0

  function Rank(t: TransactionId): Id {
    t.a * TWO_128 + t.b * TWO_64 + t.c
  }

  predicate ValidId(id: Id) {
    TWO_128 <= id < UINT64_MAX * TWO_128
  }

  /** Comparing words top down is comparing ranks. */
  lemma RankPreservesOrder(t1: TransactionId, t2: TransactionId)
    ensures Compare(t1, t2) < 0 <==> Rank(t1) < Rank(t2)
    ensures Compare(t1, t2) > 0 <==> Rank(t1) > Rank(t2)
    ensures Compare(t1, t2) == 0 <==> t1 == t2
    ensures Rank(t1) == Rank(t2) <==> t1 == t2
  {
    if Compare(t1, t2) < 0 {
      assert Rank(t1) < Rank(t2);
    } else if Compare(t1, t2) > 0 {
      assert Rank(t1) > Rank(t2);
    }
  }

  /** The two distinguished ids are the ends of the order, and validity is a range of ranks. */
  lemma RankRange(t: TransactionId)
    ensures Rank(MIN_TRANSACTION_ID) == MIN_ID <= Rank(t) <= Rank(MAX_TRANSACTION_ID)
    ensures IsValidTransactionId(t) <==> ValidId(Rank(t))
    ensures IsValidTransactionId(t) ==> Rank(t) > MIN_ID
  {
    if t.a >= UINT64_MAX {
      assert !ValidId(Rank(t));
    }
  }

  /** The clock value the generator uses, in unsigned 64-bit arithmetic. */
  function NextTime(last: Word, clock: Word): Word {
    if clock <= last then (last + 1) % TWO_64 else clock
  }

  /**
   For every clock reading, even one that runs backwards, the next stamp is
   above the last one, exactly as long as the last one was not the largest
   word, where the increment wraps to zero.
   */
  lemma NextTimeAdvances(last: Word, clock: Word)
    ensures NextTime(last, clock) > last <==> last < UINT64_MAX
    ensures last == UINT64_MAX ==> NextTime(last, clock) == 0
  {
    if last < UINT64_MAX {
      assert (last + 1) % TWO_64 == last + 1;
    }
  }

  /** A stamp that is later than the last one and not earlier than the clock. */
  predicate Timely(last: Word, clock: Word, stamp: Word) {
    last < stamp && clock <= stamp
  }

  /** The earliest timely stamp. */
  ghost predicate IsNextStamp(last: Word, clock: Word, stamp: Word) {
    Timely(last, clock, stamp) && forall w | Timely(last, clock, w) :: stamp <= w
  }

  /** Below the largest word, the next stamp is the earliest timely one, and the clock's whenever that will do. */
  lemma NextTimeIsEarliest(last: Word, clock: Word)
    requires last < UINT64_MAX
    ensures forall stamp :: IsNextStamp(last, clock, stamp) <==> stamp == NextTime(last, clock)
    ensures last < clock ==> NextTime(last, clock) == clock
  {
    NextTimeAdvances(last, clock);
    assert IsNextStamp(last, clock, NextTime(last, clock));
  }

  /** The stamps that a generator gives at the clock readings it meets. */
  function Stamps(last: Word, clocks: seq<Word>): (stamps: seq<Word>)
    ensures |stamps| == |clocks|
    decreases |clocks|
  {
    if clocks == [] then []
    else
      var stamp := NextTime(last, clocks[0]);
      [stamp] + Stamps(stamp, clocks[1..])
  }

  /** Every stamp is later than the one before it, and not earlier than its clock reading. */
  predicate AllTimely(last: Word, clocks: seq<Word>, stamps: seq<Word>)
    requires |stamps| == |clocks|
    decreases |clocks|
  {
    clocks == [] || (Timely(last, clocks[0], stamps[0]) && AllTimely(stamps[0], clocks[1..], stamps[1..]))
  }

  /**
   Over every run of a generator: if the readings can be given timely stamps at
   all, even from a later start, the generator does so, and gives each reading the
   earliest stamp that any such sequence has at that place.
   */
  lemma {:induction false} StampsAreEarliest(last: Word, clocks: seq<Word>, start: Word, others: seq<Word>)
    requires |others| == |clocks| && last <= start && AllTimely(start, clocks, others)
    ensures AllTimely(last, clocks, Stamps(last, clocks))
    ensures forall i | 0 <= i < |clocks| :: Stamps(last, clocks)[i] <= others[i]
    decreases |clocks|
  {
    if clocks != [] {
      var stamp := NextTime(last, clocks[0]);
      NextTimeIsEarliest(last, clocks[0]);
      assert IsNextStamp(last, clocks[0], stamp) && Timely(last, clocks[0], others[0]);
      StampsAreEarliest(stamp, clocks[1..], others[0], others[1..]);
      assert Stamps(last, clocks) == [stamp] + Stamps(stamp, clocks[1..]) && others == [others[0]] + others[1..];
    }
  }

  /** Across peers: an id stamped where the clock has passed the stamp of another id comes after it. */
  lemma LaterByTheClock(t: TransactionId, last: Word, clock: Word, high: Word, low: Word)
    requires last < UINT64_MAX && t.a < clock
    ensures Rank(t) < Rank(TransactionId(NextTime(last, clock), high, low))
  {
    NextTimeIsEarliest(last, clock);
    RankPreservesOrder(t, TransactionId(NextTime(last, clock), high, low));
  }

  /** Ids of one generator are ordered as their stamps are. */
  lemma StampOrder(s: Word, t: Word, high: Word, low: Word)
    ensures Rank(TransactionId(s, high, low)) < Rank(TransactionId(t, high, low)) <==> s < t
  {
    RankPreservesOrder(TransactionId(s, high, low), TransactionId(t, high, low));
  }

  class TransactionIdGenerator {
    var lastTimeValue: Word
    const uuidHigh: Word
    const uuidLow: Word

    constructor (high: Word, low: Word)
      ensures lastTimeValue == 0 && uuidHigh == high && uuidLow == low
    {
      lastTimeValue, uuidHigh, uuidLow := 0, high, low;
    }

    /** The id of the last stamp; it is below every id not yet generated unless the clock wraps. */
    function LastId(): Id
      reads this
    {
      Rank(TransactionId(lastTimeValue, uuidHigh, uuidLow))
    }

    method Generate(clock: Word) returns (id: TransactionId)
      modifies this
      ensures id == TransactionId(NextTime(old(lastTimeValue), clock), uuidHigh, uuidLow)
      ensures Rank(id) == LastId()
      ensures old(lastTimeValue) < UINT64_MAX ==> IsNextStamp(old(lastTimeValue), clock, id.a)
      ensures Rank(id) > old(LastId()) <==> old(lastTimeValue) < UINT64_MAX
      ensures IsValidTransactionId(id) <==> old(lastTimeValue) < UINT64_MAX && lastTimeValue < UINT64_MAX
    {
      NextTimeAdvances(lastTimeValue, clock);
      if lastTimeValue < UINT64_MAX {
        NextTimeIsEarliest(lastTimeValue, clock);
      }
      StampOrder(lastTimeValue, NextTime(lastTimeValue, clock), uuidHigh, uuidLow);
      var timeValue := clock;
      if timeValue <= lastTimeValue {
        timeValue := (lastTimeValue + 1) % TWO_64;
      }
      lastTimeValue := timeValue;
      id := TransactionId(timeValue, uuidHigh, uuidLow);
    }
  }
}
