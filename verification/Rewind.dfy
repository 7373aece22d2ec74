/**
 Rewinding nested method calls (engine/recording_thread.cc and the execution
 phase of engine/transaction_store.cc). Each call on the recording thread's stack
 remembers the pending transaction's base id from when it began. A rejection of
 one of the thread's own transactions is seen at the next phase check; calls that
 began at or after the rejected transaction return false, the next one resumes.
 */
module Rewind {
  import opened TransactionIds

  const MAX_ID: Id := Rank(MAX_TRANSACTION_ID)

  datatype ExecutionPhase = Normal | Rewinding | Resuming

  /** What GetExecutionPhase answers; it clears the rejected id when it says to resume. */
  function PhaseOf(rejected: Id, base: Id): ExecutionPhase {
    if rejected == MIN_ID then Normal
    else if base >= rejected then Rewinding
    else Resuming
  }

  function RejectedAfter(rejected: Id, base: Id): Id {
    if PhaseOf(rejected, base) == Resuming then MIN_ID else rejected
  }

  /** How a call on the stack ended, with its base id. */
  datatype Outcome = Returned(base: Id) | Rewound(base: Id) | Resumed(base: Id)

  /**
   The stack of base ids from the outermost call to the innermost, the base of
   the pending transaction, the ids this thread has committed, the rejected id
   (MIN for none), and whether the thread has passed a phase check and may
   commit or begin a call. The outcomes record what became of the calls.
   */
  datatype State = State(
    frames: seq<Id>,
    pending: Id,
    committed: set<Id>,
    rejected: Id,
    open: bool,
    outcomes: seq<Outcome>)

  /** The outermost call of the first program run has begun. */
  const INITIAL := State([MIN_ID], MIN_ID, {}, MIN_ID, false, [])

  datatype Step =
    | Check                 // CallMethod, BeginTransaction or EndTransaction asks whether to go on
    | Commit(id: Id)        // the pending transaction is committed, under a new id, and replaced
    | BeginCall             // CallMethodHelper notes the base id and invokes the method
    | Finish                // the events are recorded; the method body goes on
    | Return                // the innermost method body returns to CallMethodHelper
    | Reject(id: Id)        // another thread rejects one of this thread's transactions

  /** Ids come from the generator in increasing order. Any own transaction can be rejected at any time. */
  predicate Enabled(s: State, step: Step) {
    match step
    case Check => !s.open && s.frames != []
    case Commit(id) => s.open && ValidId(id) && forall t | t in s.committed :: t < id
    case BeginCall => s.open && s.frames != []
    case Finish => s.open
    case Return => !s.open && s.frames != []
    case Reject(id) => id in s.committed
  }

  function After(s: State, step: Step): State
    requires Enabled(s, step)
  {
    match step
    case Check => s.(open := PhaseOf(s.rejected, s.pending) == Normal, rejected := RejectedAfter(s.rejected, s.pending))
    case Commit(id) => s.(pending := id, committed := s.committed + {id})
    case BeginCall => s.(frames := s.frames + [s.pending], open := false)
    case Finish => s.(open := false)
    case Return =>
      var outer, base := s.frames[..|s.frames| - 1], s.frames[|s.frames| - 1];
      (match PhaseOf(s.rejected, base)
       case Normal => s.(frames := outer, open := true, outcomes := s.outcomes + [Returned(base)])
       case Rewinding => s.(frames := outer, outcomes := s.outcomes + [Rewound(base)])
       case Resuming => s.(pending := base, rejected := MIN_ID, outcomes := s.outcomes + [Resumed(base)]))
    case Reject(id) => s.(rejected := id)
  }

  predicate Ascending(frames: seq<Id>) {
    forall i, j | 0 <= i <= j < |frames| :: frames[i] <= frames[j]
  }

  predicate NothingResumed(s: State) {
    forall i | 0 <= i < |s.outcomes| :: !s.outcomes[i].Resumed?
  }

  /**
   Bases do not decrease towards the top, do not exceed the pending base, and
   start at MIN. The pending base is the last commit until a call resumes.
   */
  ghost predicate Inv(s: State) {
    && Ascending(s.frames)
    && (s.frames != [] ==> s.frames[0] == MIN_ID && s.frames[|s.frames| - 1] <= s.pending)
    && (forall t | t in s.committed :: MIN_ID < t)
    && (s.pending == MIN_ID || s.pending in s.committed)
    && (s.rejected == MIN_ID || s.rejected in s.committed)
    && (forall i | 0 <= i < |s.frames| :: s.frames[i] == MIN_ID || s.frames[i] in s.committed)
    && (NothingResumed(s) ==> forall t | t in s.committed :: t <= s.pending)
  }

  lemma StepKeepsInv(s: State, step: Step)
    requires Inv(s) && Enabled(s, step)
    ensures Inv(After(s, step))
  {
    var t := After(s, step);
    match step
    case BeginCall =>
      assert forall i | 0 <= i < |s.frames| :: t.frames[i] <= s.frames[|s.frames| - 1];
    case Return =>
      if NothingResumed(t) {
        assert forall i | 0 <= i < |s.outcomes| :: t.outcomes[i] == s.outcomes[i];
        assert t.outcomes[|s.outcomes|] in t.outcomes;
      }
    case _ =>
  }

  predicate IsRun(s: State, steps: seq<Step>)
    decreases |steps|, 0
  {
    steps == [] || (IsRun(s, steps[..|steps| - 1]) && Enabled(AfterRun(s, steps[..|steps| - 1]), steps[|steps| - 1]))
  }

  function AfterRun(s: State, steps: seq<Step>): State
    requires IsRun(s, steps)
    decreases |steps|, 1
  {
    if steps == [] then s else After(AfterRun(s, steps[..|steps| - 1]), steps[|steps| - 1])
  }

  /** In every run of the program. */
  lemma {:induction false} RunKeepsInv(s: State, steps: seq<Step>)
    requires Inv(s) && IsRun(s, steps)
    ensures Inv(AfterRun(s, steps))
    decreases |steps|
  {
    if steps != [] {
      RunKeepsInv(s, steps[..|steps| - 1]);
      StepKeepsInv(AfterRun(s, steps[..|steps| - 1]), steps[|steps| - 1]);
    }
  }

  /** The calls that began before the transaction r. */
  function Below(frames: seq<Id>, r: Id): (kept: seq<Id>)
    ensures |kept| <= |frames|
    decreases |frames|
  {
    if frames == [] || frames[|frames| - 1] < r then frames else Below(frames[..|frames| - 1], r)
  }

  lemma {:induction false} BelowMeaning(frames: seq<Id>, r: Id, i: nat)
    requires Ascending(frames) && i < |frames|
    ensures Below(frames, r) <= frames
    ensures frames[i] < r <==> i < |Below(frames, r)|
    decreases |frames|
  {
    if frames[|frames| - 1] >= r && |frames| > 1 {
      var shorter := frames[..|frames| - 1];
      BelowMeaning(shorter, r, if i < |shorter| then i else 0);
    }
  }

  lemma {:induction false} BelowExtended(frames: seq<Id>, more: seq<Id>, r: Id)
    requires Ascending(frames) && frames != [] && forall i | 0 <= i < |more| :: more[i] >= r
    ensures Below(frames + more, r) == Below(frames, r)
    decreases |more|
  {
    if more == [] {
      assert frames + more == frames;
    } else {
      var shorter := more[..|more| - 1];
      assert (frames + more)[..|frames + more| - 1] == frames + shorter;
      BelowExtended(frames, shorter, r);
    }
  }

  /** The outcomes when the calls of a stack are rewound, from the innermost down to the n-th. */
  function RewoundDown(stack: seq<Id>, n: nat): seq<Outcome>
    requires n <= |stack|
  {
    seq(|stack| - n, i requires 0 <= i < |stack| - n => Rewound(stack[|stack| - 1 - i]))
  }

  /** The bases of the calls that begin in a run. */
  function Begun(s: State, steps: seq<Step>): seq<Id>
    requires IsRun(s, steps)
    decreases |steps|
  {
    if steps == [] then []
    else
      var shorter := steps[..|steps| - 1];
      Begun(s, shorter) + (if steps[|steps| - 1] == BeginCall then [AfterRun(s, shorter).pending] else [])
  }

  /**
   The rejection of r is pending. The stack is a part of the given one, from the
   bottom; the calls above that part are at or above r, and each has been rewound.
   */
  ghost predicate Unwinding(s: State, r: Id, stack: seq<Id>, before: seq<Outcome>) {
    && Inv(s) && s.rejected == r != MIN_ID
    && s.frames != [] && s.frames <= stack && Ascending(stack) && stack[|stack| - 1] <= s.pending
    && (|s.frames| < |stack| ==> stack[|s.frames|] >= r)
    && s.outcomes == before + RewoundDown(stack, |s.frames|)
    && (s.open ==> s.frames == stack)
  }

  /** What a step that is not a rejection does to a pending rejection. */
  ghost predicate Unwound(s: State, r: Id, stack: seq<Id>, before: seq<Outcome>, step: Step)
    requires Unwinding(s, r, stack, before) && Enabled(s, step)
  {
    var t := After(s, step);
    if step == Return && s.frames[|s.frames| - 1] < r then
      && s.frames == t.frames && t.rejected == MIN_ID
      && t.pending == t.frames[|t.frames| - 1]
      && t.outcomes == s.outcomes + [Resumed(t.pending)]
    else if step == Check && s.pending < r then
      s.frames == t.frames == stack && t.rejected == MIN_ID && t.outcomes == s.outcomes == before
    else
      Unwinding(t, r, if step == BeginCall then stack + [s.pending] else stack, before)
  }

  /**
   The next step goes on unwinding, or resumes the innermost call, which is then
   below r, or is a phase check that forgets a rejection above the pending base.
   */
  lemma UnwindingStep(s: State, r: Id, stack: seq<Id>, before: seq<Outcome>, step: Step)
    requires Unwinding(s, r, stack, before) && Enabled(s, step) && (step.Reject? ==> step.id == r)
    ensures Unwound(s, r, stack, before, step)
  {
    StepKeepsInv(s, step);
    match step
    case Check =>
      if s.pending < r {
        NothingRewound(s, r, stack, before);
      }
    case BeginCall => CallBegins(s, r, stack, before);
    case Return =>
      if s.frames[|s.frames| - 1] >= r {
        CallIsRewound(s, r, stack, before);
      }
    case _ =>
  }

  lemma NothingRewound(s: State, r: Id, stack: seq<Id>, before: seq<Outcome>)
    requires Unwinding(s, r, stack, before) && s.pending < r
    ensures s.frames == stack && s.outcomes == before
  {
    assert |s.frames| == |stack|;
    assert RewoundDown(stack, |stack|) == [];
  }

  lemma CallBegins(s: State, r: Id, stack: seq<Id>, before: seq<Outcome>)
    requires Unwinding(s, r, stack, before) && Enabled(s, BeginCall)
    ensures Unwinding(After(s, BeginCall), r, stack + [s.pending], before)
  {
    StepKeepsInv(s, BeginCall);
    var more := stack + [s.pending];
    assert After(s, BeginCall).frames == more;
    assert RewoundDown(stack, |stack|) == [] == RewoundDown(more, |more|);
    assert forall i | 0 <= i < |stack| :: more[i] <= stack[|stack| - 1];
  }

  lemma CallIsRewound(s: State, r: Id, stack: seq<Id>, before: seq<Outcome>)
    requires Unwinding(s, r, stack, before) && Enabled(s, Return) && s.frames[|s.frames| - 1] >= r
    ensures Unwinding(After(s, Return), r, stack, before)
  {
    StepKeepsInv(s, Return);
    var n := |s.frames|;
    assert stack[n - 1] == s.frames[n - 1];
    assert RewoundDown(stack, n - 1) == RewoundDown(stack, n) + [Rewound(stack[n - 1])];
    assert s.frames[0] < r;
  }

  /** The rejection stayed pending throughout. */
  predicate StillRewinding(s: State, steps: seq<Step>, r: Id)
    requires IsRun(s, steps)
    decreases |steps|
  {
    AfterRun(s, steps).rejected == r && (steps != [] ==> StillRewinding(s, steps[..|steps| - 1], r))
  }

  /** A rejection while a call is under way, over a pending one or not, and a run that leaves it pending. */
  ghost predicate StaysPending(s: State, r: Id, steps: seq<Step>) {
    && Inv(s) && s.frames != [] && Enabled(s, Reject(r))
    && IsRun(After(s, Reject(r)), steps) && StillRewinding(After(s, Reject(r)), steps, r)
  }

  lemma {:induction false} UnwindingRun(s: State, r: Id, steps: seq<Step>)
    requires StaysPending(s, r, steps)
    ensures var start := After(s, Reject(r));
            Unwinding(AfterRun(start, steps), r, s.frames + Begun(start, steps), s.outcomes)
    decreases |steps|
  {
    var start := After(s, Reject(r));
    if steps == [] {
      UnwindingStarts(s, r);
    } else {
      var shorter, step := steps[..|steps| - 1], steps[|steps| - 1];
      UnwindingRun(s, r, shorter);
      UnwindingGoesOn(AfterRun(start, shorter), r, s.frames + Begun(start, shorter), s.outcomes, step);
      OneMoreBegun(s.frames, start, steps);
    }
  }

  lemma UnwindingStarts(s: State, r: Id)
    requires Inv(s) && s.frames != [] && Enabled(s, Reject(r))
    ensures Unwinding(After(s, Reject(r)), r, s.frames + [], s.outcomes)
  {
    StepKeepsInv(s, Reject(r));
    assert s.frames + [] == s.frames;
    assert RewoundDown(s.frames, |s.frames|) == [];
  }

  lemma OneMoreBegun(frames: seq<Id>, s: State, steps: seq<Step>)
    requires IsRun(s, steps) && steps != []
    ensures var shorter := steps[..|steps| - 1];
            frames + Begun(s, steps) ==
            if steps[|steps| - 1] == BeginCall then frames + Begun(s, shorter) + [AfterRun(s, shorter).pending]
            else frames + Begun(s, shorter)
  {
    var begun := Begun(s, steps[..|steps| - 1]);
    if steps[|steps| - 1] == BeginCall {
      var base := AfterRun(s, steps[..|steps| - 1]).pending;
      assert frames + (begun + [base]) == frames + begun + [base];
    } else {
      assert begun + [] == begun;
    }
  }

  lemma UnwindingGoesOn(s: State, r: Id, stack: seq<Id>, before: seq<Outcome>, step: Step)
    requires Unwinding(s, r, stack, before) && Enabled(s, step) && After(s, step).rejected == r
    ensures Unwinding(After(s, step), r, if step == BeginCall then stack + [s.pending] else stack, before)
  {
    UnwindingStep(s, r, stack, before, step);
  }

  predicate AllFrom(ids: seq<Id>, base: Id) {
    forall i | 0 <= i < |ids| :: ids[i] >= base
  }

  /** The pending base only grows while a rejection is pending, so calls that begin meanwhile are not below it. */
  lemma {:induction false} BegunAbove(s: State, r: Id, steps: seq<Step>)
    requires StaysPending(s, r, steps)
    ensures s.pending <= AfterRun(After(s, Reject(r)), steps).pending
    ensures AllFrom(Begun(After(s, Reject(r)), steps), s.pending)
    decreases |steps|
  {
    var start := After(s, Reject(r));
    if steps != [] {
      var shorter := steps[..|steps| - 1];
      BegunAbove(s, r, shorter);
      UnwindingRun(s, r, shorter);
      PendingGrows(AfterRun(start, shorter), steps[|steps| - 1]);
      OneMoreFrom(start, steps, s.pending);
    }
  }

  lemma OneMoreFrom(s: State, steps: seq<Step>, base: Id)
    requires IsRun(s, steps) && steps != []
    requires AllFrom(Begun(s, steps[..|steps| - 1]), base) && base <= AfterRun(s, steps[..|steps| - 1]).pending
    ensures AllFrom(Begun(s, steps), base)
  {
  }

  lemma PendingGrows(s: State, step: Step)
    requires Inv(s) && Enabled(s, step) && s.rejected != MIN_ID && After(s, step).rejected != MIN_ID
    ensures s.pending <= After(s, step).pending
  {
  }

  /** The step, not itself a rejection, after which the rejection of r is no longer pending. */
  ghost predicate Clears(s: State, r: Id, steps: seq<Step>, step: Step) {
    && StaysPending(s, r, steps) && Enabled(AfterRun(After(s, Reject(r)), steps), step) && !step.Reject?
    && After(AfterRun(After(s, Reject(r)), steps), step).rejected != r
  }

  /** The state after that. */
  ghost function Cleared(s: State, r: Id, steps: seq<Step>, step: Step): State
    requires Clears(s, r, steps, step)
  {
    After(AfterRun(After(s, Reject(r)), steps), step)
  }

  /**
   A rejection of r, for every run after it. With the calls that begin meanwhile
   the stack has a certain height; as long as the rejection is pending, exactly
   the calls above what is left of the stack have ended, each by returning false,
   from the innermost outwards, and none of them is below r.
   */
  lemma OnlyCallsAboveRewind(s: State, r: Id, steps: seq<Step>)
    requires StaysPending(s, r, steps)
    ensures var t := AfterRun(After(s, Reject(r)), steps);
            var stack := s.frames + Begun(After(s, Reject(r)), steps);
            && t.frames <= stack && Below(stack, r) <= t.frames
            && t.outcomes == s.outcomes + RewoundDown(stack, |t.frames|)
            && (r <= s.pending ==> Below(stack, r) == Below(s.frames, r))
  {
    UnwindingRun(s, r, steps);
    var t := AfterRun(After(s, Reject(r)), steps);
    var begun := Begun(After(s, Reject(r)), steps);
    PartBelow(s.frames + begun, |t.frames|, r);
    if r <= s.pending {
      BegunAbove(s, r, steps);
      BelowExtended(s.frames, begun, r);
    }
  }

  lemma PartBelow(stack: seq<Id>, n: nat, r: Id)
    requires Ascending(stack) && 0 < n <= |stack| && (n < |stack| ==> stack[n] >= r)
    ensures Below(stack, r) <= stack[..n]
    ensures stack[n - 1] < r ==> Below(stack, r) == stack[..n]
  {
    BelowMeaning(stack, r, n - 1);
    if n < |stack| {
      BelowMeaning(stack, r, n);
    }
  }

  /**
   There are two ways in which it is cleared. Either the innermost call below r
   gets control back: then every call at or above r has been rewound, that call
   resumes, and its base is the new pending base. Or a phase check forgets it,
   with no call rewound or resumed; but never if r was not above the pending base.
   */
  lemma RejectionUnwindsExactly(s: State, r: Id, steps: seq<Step>, step: Step)
    requires Clears(s, r, steps, step)
    ensures var stack, u := s.frames + Begun(After(s, Reject(r)), steps), Cleared(s, r, steps, step);
            && u.rejected == MIN_ID && (step == Return || step == Check)
            && (step == Return ==>
                  && u.frames == Below(stack, r) != []
                  && u.pending == u.frames[|u.frames| - 1] < r
                  && u.outcomes == s.outcomes + RewoundDown(stack, |u.frames|) + [Resumed(u.pending)])
            && (step == Check ==> s.pending <= u.pending < r && u.frames == stack && u.outcomes == s.outcomes)
            && (r <= s.pending ==> step == Return && u.frames == Below(s.frames, r))
  {
    var start := After(s, Reject(r));
    var t, stack := AfterRun(start, steps), s.frames + Begun(start, steps);
    UnwindingRun(s, r, steps);
    UnwindingStep(t, r, stack, s.outcomes, step);
    OnlyCallsAboveRewind(s, r, steps);
    BegunAbove(s, r, steps);
    PartBelow(stack, |t.frames|, r);
  }

  /** Until a call resumes, every rejection of an own transaction is at or below the pending base. */
  lemma FirstRejectionsRewind(steps: seq<Step>, r: Id)
    requires IsRun(INITIAL, steps) && NothingResumed(AfterRun(INITIAL, steps))
    requires Enabled(AfterRun(INITIAL, steps), Reject(r))
    ensures r <= AfterRun(INITIAL, steps).pending
  {
    RunKeepsInv(INITIAL, steps);
  }

  /** It cannot stay pending for ever: the thread can always return, and each return leaves fewer calls to unwind. */
  lemma UnwindingProgresses(s: State, r: Id, stack: seq<Id>, before: seq<Outcome>)
    requires Unwinding(s, r, stack, before) && !s.open
    ensures Enabled(s, Return)
    ensures After(s, Return).rejected == MIN_ID || |After(s, Return).frames| == |s.frames| - 1
    ensures After(s, Return).rejected == MIN_ID <==> |s.frames| == |Below(stack, r)|
  {
    PartBelow(stack, |s.frames|, r);
    BelowMeaning(stack, r, |s.frames| - 1);
  }

  lemma OneMore(s: State, steps: seq<Step>, step: Step)
    requires IsRun(s, steps) && Enabled(AfterRun(s, steps), step)
    ensures IsRun(s, steps + [step]) && AfterRun(s, steps + [step]) == After(AfterRun(s, steps), step)
  {
    assert (steps + [step])[..|steps|] == steps;
  }

  lemma StillPending(s: State, r: Id, steps: seq<Step>, step: Step)
    requires StaysPending(s, r, steps) && Enabled(AfterRun(After(s, Reject(r)), steps), step)
    requires After(AfterRun(After(s, Reject(r)), steps), step).rejected == r
    ensures StaysPending(s, r, steps + [step])
    ensures AfterRun(After(s, Reject(r)), steps + [step]) == After(AfterRun(After(s, Reject(r)), steps), step)
  {
    OneMore(After(s, Reject(r)), steps, step);
    assert (steps + [step])[..|steps|] == steps;
  }

  /** The thread finishes what it had begun to record. */
  lemma Closing(s: State, r: Id) returns (steps: seq<Step>)
    requires Inv(s) && s.frames != [] && Enabled(s, Reject(r))
    ensures StaysPending(s, r, steps)
    ensures AfterRun(After(s, Reject(r)), steps) == After(s, Reject(r)).(open := false)
  {
    steps := [];
    assert StaysPending(s, r, steps);
    if s.open {
      StillPending(s, r, steps, Finish);
      steps := steps + [Finish];
    }
  }

  /** A run that returns until the rejection is cleared. */
  lemma Returning(s: State, r: Id) returns (steps: seq<Step>)
    requires Inv(s) && s.frames != [] && Enabled(s, Reject(r))
    ensures Clears(s, r, steps, Return)
  {
    steps := Closing(s, r);
    var t := AfterRun(After(s, Reject(r)), steps);
    UnwindingRun(s, r, steps);
    while t.frames[|t.frames| - 1] >= r
      invariant StaysPending(s, r, steps) && t == AfterRun(After(s, Reject(r)), steps)
      invariant !t.open && t.frames != [] && Inv(t) && t.rejected == r != MIN_ID
      decreases |t.frames|
    {
      StillPending(s, r, steps, Return);
      steps := steps + [Return];
      t := After(t, Return);
      UnwindingRun(s, r, steps);
    }
  }

  // A rejection above the pending base.

  /** Whenever the rejection is cleared, every call at or above it is gone and the innermost call below it resumes. */
  ghost predicate AlwaysResumes(s: State, r: Id) {
    forall steps, step | Clears(s, r, steps, step) ::
      && step == Return && Cleared(s, r, steps, step).frames == Below(s.frames, r) != []
      && Cleared(s, r, steps, step).pending == Below(s.frames, r)[|Below(s.frames, r)| - 1]
  }

  /** Some run forgets the rejection at a phase check. */
  ghost predicate CanBeSwallowed(s: State, r: Id) {
    exists steps :: Clears(s, r, steps, Check)
  }

  /**
   A rejection does its work in every run exactly if it is not above the pending
   base; otherwise there is a run that forgets it with no call rewound or resumed.
   */
  lemma SwallowedExactlyWhen(s: State, r: Id)
    requires Inv(s) && s.frames != [] && Enabled(s, Reject(r))
    ensures AlwaysResumes(s, r) <==> r <= s.pending
    ensures CanBeSwallowed(s, r) <==> s.pending < r
  {
    forall steps, step | Clears(s, r, steps, step)
      ensures r <= s.pending ==> step == Return && Cleared(s, r, steps, step).frames == Below(s.frames, r) != []
      ensures r <= s.pending ==>
                Cleared(s, r, steps, step).pending == Below(s.frames, r)[|Below(s.frames, r)| - 1]
    {
      RejectionUnwindsExactly(s, r, steps, step);
    }
    if s.pending < r {
      var steps := Closing(s, r);
      assert Clears(s, r, steps, Check);
    }
  }

  /** It happens after a resume: the pending base has dropped, and a later commit of the old run is rejected. */
  lemma RejectionCanBeSwallowed(a: Id, b: Id)
    requires ValidId(a) && ValidId(b) && a < b
    ensures exists steps | IsRun(INITIAL, steps) && IsRun(INITIAL, steps + [Reject(b)] + [Check]) ::
              var s, t := AfterRun(INITIAL, steps), AfterRun(INITIAL, steps + [Reject(b)] + [Check]);
              s.rejected == MIN_ID && t.rejected == MIN_ID && t.frames == s.frames && t.outcomes == s.outcomes
  {
    var steps := [];
    OneMore(INITIAL, steps, Check);
    steps := steps + [Check];
    OneMore(INITIAL, steps, Commit(a));
    steps := steps + [Commit(a)];
    OneMore(INITIAL, steps, Commit(b));
    steps := steps + [Commit(b)];
    OneMore(INITIAL, steps, Finish);
    steps := steps + [Finish];
    Forgetting(a, b, steps);
  }

  lemma Forgetting(a: Id, b: Id, before: seq<Step>)
    requires MIN_ID < a < b && IsRun(INITIAL, before)
    requires AfterRun(INITIAL, before) == State([MIN_ID], b, {a, b}, MIN_ID, false, [])
    ensures exists steps | IsRun(INITIAL, steps) && IsRun(INITIAL, steps + [Reject(b)] + [Check]) ::
              var s, t := AfterRun(INITIAL, steps), AfterRun(INITIAL, steps + [Reject(b)] + [Check]);
              s.rejected == MIN_ID && t.rejected == MIN_ID && t.frames == s.frames && t.outcomes == s.outcomes
  {
    OneMore(INITIAL, before, Reject(a));
    OneMore(INITIAL, before + [Reject(a)], Return);
    var steps := before + [Reject(a)] + [Return];
    assert AfterRun(INITIAL, steps).pending == MIN_ID;
    OneMore(INITIAL, steps, Reject(b));
    OneMore(INITIAL, steps + [Reject(b)], Check);
    assert IsRun(INITIAL, steps + [Reject(b)] + [Check]);
  }

  // A rejection over a pending one.

  /** Whenever the rejection of r is cleared, a call resumes and all that is left is below the bound. */
  ghost predicate AlwaysUnwindsBelow(s: State, r: Id, bound: Id) {
    forall steps, step | Clears(s, r, steps, step) ::
      && step == Return && Cleared(s, r, steps, step).pending < bound
      && forall i | 0 <= i < |Cleared(s, r, steps, step).frames| :: Cleared(s, r, steps, step).frames[i] < bound
  }

  /**
   A second rejection takes the place of a pending one. All the work of the first
   is still done, in every run, exactly if the second is not above the pending
   base and no call has a base from the first up to below the second.
   */
  lemma OverwritingIsSafeExactlyWhen(s: State, first: Id, second: Id)
    requires Inv(s) && s.frames != [] && s.rejected == first != MIN_ID && Enabled(s, Reject(second))
    ensures AlwaysUnwindsBelow(s, second, first) <==>
            second <= s.pending && forall i | 0 <= i < |s.frames| :: !(first <= s.frames[i] < second)
  {
    SwallowedExactlyWhen(s, second);
    if s.pending < second {
      var steps :| Clears(s, second, steps, Check);
    } else {
      BelowIsBelow(s.frames, second);
      if i :| 0 <= i < |s.frames| && first <= s.frames[i] < second {
        var steps := Returning(s, second);
        assert Cleared(s, second, steps, Return).frames == Below(s.frames, second);
        assert Below(s.frames, second)[i] == s.frames[i];
      } else {
        forall steps, step | Clears(s, second, steps, step)
          ensures step == Return && Cleared(s, second, steps, step).pending < first
          ensures forall i | 0 <= i < |Cleared(s, second, steps, step).frames| ::
                    Cleared(s, second, steps, step).frames[i] < first
        {
          assert Cleared(s, second, steps, step).frames == Below(s.frames, second);
        }
      }
    }
  }

  lemma BelowIsBelow(frames: seq<Id>, r: Id)
    requires Ascending(frames) && frames != []
    ensures Below(frames, r) <= frames
    ensures forall i | 0 <= i < |frames| :: frames[i] < r <==> i < |Below(frames, r)|
  {
    forall i | 0 <= i < |frames|
      ensures frames[i] < r <==> i < |Below(frames, r)|
    {
      BelowMeaning(frames, r, i);
    }
    BelowMeaning(frames, r, 0);
  }

  /** A run in which a rejection of c over one of b is forgotten, and the first with it, though no base lies between. */
  lemma BothCanBeForgotten(b: Id, c: Id)
    requires ValidId(b) && ValidId(c) && b < c
    ensures exists steps | && IsRun(INITIAL, steps)
                           && IsRun(INITIAL, steps + [Reject(b)] + [Reject(c)] + [Check] + [Check]) ::
              var s := AfterRun(INITIAL, steps);
              var t := AfterRun(INITIAL, steps + [Reject(b)] + [Reject(c)] + [Check] + [Check]);
              && s.frames == [MIN_ID] == t.frames && s.rejected == MIN_ID == t.rejected && t.open
              && s.pending == b == t.pending && t.outcomes == s.outcomes
  {
    var steps := [];
    OneMore(INITIAL, steps, Check);
    steps := steps + [Check];
    OneMore(INITIAL, steps, Commit(b));
    steps := steps + [Commit(b)];
    OneMore(INITIAL, steps, BeginCall);
    steps := steps + [BeginCall];
    OneMore(INITIAL, steps, Check);
    steps := steps + [Check];
    OneMore(INITIAL, steps, Commit(c));
    steps := steps + [Commit(c)];
    OneMore(INITIAL, steps, Finish);
    steps := steps + [Finish];
    assert AfterRun(INITIAL, steps) == State([MIN_ID, b], c, {b, c}, MIN_ID, false, []);
    DroppingTheBase(b, c, steps);
  }

  /** The call with base b resumes and returns, which leaves b as the pending base. */
  lemma DroppingTheBase(b: Id, c: Id, before: seq<Step>)
    requires MIN_ID < b < c && IsRun(INITIAL, before)
    requires AfterRun(INITIAL, before) == State([MIN_ID, b], c, {b, c}, MIN_ID, false, [])
    ensures exists steps | && IsRun(INITIAL, steps)
                           && IsRun(INITIAL, steps + [Reject(b)] + [Reject(c)] + [Check] + [Check]) ::
              var s := AfterRun(INITIAL, steps);
              var t := AfterRun(INITIAL, steps + [Reject(b)] + [Reject(c)] + [Check] + [Check]);
              && s.frames == [MIN_ID] == t.frames && s.rejected == MIN_ID == t.rejected && t.open
              && s.pending == b == t.pending && t.outcomes == s.outcomes
  {
    OneMore(INITIAL, before, Reject(c));
    OneMore(INITIAL, before + [Reject(c)], Return);
    OneMore(INITIAL, before + [Reject(c)] + [Return], Return);
    OneMore(INITIAL, before + [Reject(c)] + [Return] + [Return], Finish);
    var steps := before + [Reject(c)] + [Return] + [Return] + [Finish];
    assert [MIN_ID, b][..1] == [MIN_ID];
    assert AfterRun(INITIAL, steps) == State([MIN_ID], b, {b, c}, MIN_ID, false, [Resumed(b), Returned(b)]);
    ForgettingBoth(b, c, steps);
  }

  lemma ForgettingBoth(b: Id, c: Id, steps: seq<Step>)
    requires MIN_ID < b < c && IsRun(INITIAL, steps)
    requires AfterRun(INITIAL, steps) == State([MIN_ID], b, {b, c}, MIN_ID, false, [Resumed(b), Returned(b)])
    ensures IsRun(INITIAL, steps + [Reject(b)] + [Reject(c)] + [Check] + [Check])
    ensures AfterRun(INITIAL, steps + [Reject(b)] + [Reject(c)] + [Check] + [Check]) ==
            AfterRun(INITIAL, steps).(open := true)
  {
    OneMore(INITIAL, steps, Reject(b));
    OneMore(INITIAL, steps + [Reject(b)], Reject(c));
    OneMore(INITIAL, steps + [Reject(b)] + [Reject(c)], Check);
    OneMore(INITIAL, steps + [Reject(b)] + [Reject(c)] + [Check], Check);
  }

  /** A run in which a rejection of c over one of a leaves the call with base b, after a, in place. */
  lemma OverwritingCanSkip(a: Id, b: Id, c: Id)
    requires ValidId(a) && ValidId(b) && ValidId(c) && a < b < c
    ensures exists steps | && IsRun(INITIAL, steps)
                           && IsRun(INITIAL, steps + [Reject(a)] + [Reject(c)] + [Return] + [Return]) ::
              var s := AfterRun(INITIAL, steps);
              var t := AfterRun(INITIAL, steps + [Reject(a)] + [Reject(c)] + [Return] + [Return]);
              && s.frames == [MIN_ID, b, c] && s.rejected == MIN_ID
              && t.frames == [MIN_ID, b] && t.rejected == MIN_ID && t.outcomes == [Rewound(c), Resumed(b)]
  {
    var steps := [];
    OneMore(INITIAL, steps, Check);
    steps := steps + [Check];
    OneMore(INITIAL, steps, Commit(a));
    steps := steps + [Commit(a)];
    OneMore(INITIAL, steps, Commit(b));
    steps := steps + [Commit(b)];
    OneMore(INITIAL, steps, BeginCall);
    steps := steps + [BeginCall];
    assert AfterRun(INITIAL, steps) == State([MIN_ID, b], b, {a, b}, MIN_ID, false, []);
    Deeper(a, b, c, steps);
  }

  lemma Deeper(a: Id, b: Id, c: Id, before: seq<Step>)
    requires ValidId(a) && ValidId(b) && ValidId(c) && a < b < c && IsRun(INITIAL, before)
    requires AfterRun(INITIAL, before) == State([MIN_ID, b], b, {a, b}, MIN_ID, false, [])
    ensures exists steps | && IsRun(INITIAL, steps)
                           && IsRun(INITIAL, steps + [Reject(a)] + [Reject(c)] + [Return] + [Return]) ::
              var s := AfterRun(INITIAL, steps);
              var t := AfterRun(INITIAL, steps + [Reject(a)] + [Reject(c)] + [Return] + [Return]);
              && s.frames == [MIN_ID, b, c] && s.rejected == MIN_ID
              && t.frames == [MIN_ID, b] && t.rejected == MIN_ID && t.outcomes == [Rewound(c), Resumed(b)]
  {
    OneMore(INITIAL, before, Check);
    OneMore(INITIAL, before + [Check], Commit(c));
    OneMore(INITIAL, before + [Check] + [Commit(c)], BeginCall);
    var steps := before + [Check] + [Commit(c)] + [BeginCall];
    assert AfterRun(INITIAL, steps) == State([MIN_ID, b, c], c, {a, b, c}, MIN_ID, false, []);
    Overwriting(a, b, c, steps);
  }

  lemma Overwriting(a: Id, b: Id, c: Id, steps: seq<Step>)
    requires MIN_ID < a < b < c && IsRun(INITIAL, steps)
    requires AfterRun(INITIAL, steps) == State([MIN_ID, b, c], c, {a, b, c}, MIN_ID, false, [])
    ensures IsRun(INITIAL, steps + [Reject(a)] + [Reject(c)] + [Return] + [Return])
    ensures var t := AfterRun(INITIAL, steps + [Reject(a)] + [Reject(c)] + [Return] + [Return]);
            t.frames == [MIN_ID, b] && t.rejected == MIN_ID && t.outcomes == [Rewound(c), Resumed(b)]
  {
    OneMore(INITIAL, steps, Reject(a));
    OneMore(INITIAL, steps + [Reject(a)], Reject(c));
    OneMore(INITIAL, steps + [Reject(a)] + [Reject(c)], Return);
    assert [MIN_ID, b, c][..2] == [MIN_ID, b];
    OneMore(INITIAL, steps + [Reject(a)] + [Reject(c)] + [Return], Return);
  }

  class TransactionStore {
    var rejectedTransactionId: Id

    constructor ()
      ensures rejectedTransactionId == MIN_ID
    {
      rejectedTransactionId := MIN_ID;
    }

    method GetExecutionPhase(base: Id) returns (phase: ExecutionPhase)
      modifies this
      ensures phase == PhaseOf(old(rejectedTransactionId), base)
      ensures rejectedTransactionId == RejectedAfter(old(rejectedTransactionId), base)
    {
      if rejectedTransactionId == MIN_ID {
        return Normal;
      }
      if base >= rejectedTransactionId {
        return Rewinding;
      }
      rejectedTransactionId := MIN_ID;
      return Resuming;
    }

    /**
     The part of RejectTransactions that concerns the local peer: the rewind
     goes to the smallest of its rejected transactions, and replaces whatever
     rewind was pending.
     */
    method RejectTransactions(rejections: seq<(nat, Id)>, localPeer: nat)
      modifies this
      ensures if exists i | 0 <= i < |rejections| :: rejections[i].0 == localPeer && rejections[i].1 < MAX_ID then
                && (exists i | 0 <= i < |rejections| :: rejections[i] == (localPeer, rejectedTransactionId))
                && (forall i | 0 <= i < |rejections| && rejections[i].0 == localPeer ::
                      rejectedTransactionId <= rejections[i].1)
              else rejectedTransactionId == old(rejectedTransactionId)
    {
      var start := MAX_ID;
      for i := 0 to |rejections|
        invariant start <= MAX_ID
        invariant start < MAX_ID ==> exists j | 0 <= j < i :: rejections[j] == (localPeer, start)
        invariant forall j | 0 <= j < i :: rejections[j].0 == localPeer ==> start <= rejections[j].1
      {
        if rejections[i].0 == localPeer && rejections[i].1 < start {
          start := rejections[i].1;
        }
      }
      if start < MAX_ID {
        rejectedTransactionId := start;
      }
    }
  }
}
