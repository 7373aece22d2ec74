/**
 The queue with a quota per service (util/quota_queue.h over
 util/producer_consumer_queue.h). Push, Pop and Drain each take two locks one
 after the other, and other threads may run between the two. Every locked
 section is a step, and a wait is a step that is only enabled when the wait is
 over.
 */
module QuotaQueues {
  type Service = nat
  type Thread = nat

  datatype Item<T> = Item(value: T, service: Service)

  /** What a thread between its two locked sections is doing. */
  datatype Doing<T> =
    | Pushing(item: Item<T>, wait: bool)
    | Popping(service: Service)
    | Draining

  /**
   quotas and counts are the two fields of each service, maxSize and queue those
   of the inner queue. What was ever put in the inner queue or taken from it, and
   the services of the pushes it refused, are kept as a record.
   */
  datatype State<T> = State(
    quotas: map<Service, int>,
    counts: map<Service, int>,
    draining: bool,
    maxSize: int,
    queue: seq<Item<T>>,
    innerDraining: bool,
    doing: map<Thread, Doing<T>>,
    pushed: seq<Item<T>>,
    popped: seq<Item<T>>,
    refused: multiset<Service>)

  function Initial<T>(maxSize: int): State<T> {
    State(map[], map[], false, maxSize, [], false, map[], [], [], multiset{})
  }

  datatype Step<T> =
    | AddService(service: Service, quota: int)
    | BeginPush(thread: Thread, item: Item<T>, wait: bool)
    | FinishPush(thread: Thread)
    | BeginPop(thread: Thread, wait: bool)
    | FinishPop(thread: Thread)
    | BeginDrain(thread: Thread)
    | FinishDrain(thread: Thread)

  predicate ServiceFull<T>(s: State<T>, service: Service)
    requires service in s.quotas && service in s.counts
  {
    s.quotas[service] > 0 && s.counts[service] >= s.quotas[service]
  }

  predicate InnerFull<T>(s: State<T>) {
    s.maxSize > 0 && |s.queue| >= s.maxSize
  }

  /** Callers add a service once, and use only services they have added. */
  predicate Enabled<T>(s: State<T>, step: Step<T>) {
    match step
    case AddService(v, quota) => v !in s.quotas && (quota == -1 || quota > 0)
    case BeginPush(t, item, wait) =>
      && t !in s.doing && item.service in s.quotas && item.service in s.counts
      && (wait ==> s.draining || !ServiceFull(s, item.service))
    case FinishPush(t) =>
      t in s.doing && s.doing[t].Pushing? && (s.doing[t].wait ==> s.innerDraining || !InnerFull(s))
    case BeginPop(t, wait) => t !in s.doing && (wait ==> s.innerDraining || s.queue != [])
    case FinishPop(t) => t in s.doing && s.doing[t].Popping? && s.doing[t].service in s.counts
    case BeginDrain(t) => t !in s.doing
    case FinishDrain(t) => t in s.doing && s.doing[t].Draining?
  }

  function After<T>(s: State<T>, step: Step<T>): State<T>
    requires Enabled(s, step)
  {
    match step
    case AddService(v, quota) => s.(quotas := s.quotas[v := quota], counts := s.counts[v := 0])
    case BeginPush(t, item, wait) =>
      if s.draining then s
      else s.(counts := s.counts[item.service := s.counts[item.service] + 1],
              doing := s.doing[t := Pushing(item, wait)])
    case FinishPush(t) =>
      var item := s.doing[t].item;
      if s.innerDraining then s.(doing := s.doing - {t}, refused := s.refused + multiset{item.service})
      else s.(doing := s.doing - {t}, queue := s.queue + [item], pushed := s.pushed + [item])
    case BeginPop(t, wait) =>
      if s.queue == [] then s
      else s.(queue := s.queue[1..], popped := s.popped + [s.queue[0]],
              doing := s.doing[t := Popping(s.queue[0].service)])
    case FinishPop(t) =>
      var v := s.doing[t].service;
      s.(counts := s.counts[v := s.counts[v] - 1], doing := s.doing - {t})
    case BeginDrain(t) => s.(draining := true, doing := s.doing[t := Draining])
    case FinishDrain(t) => s.(innerDraining := true, doing := s.doing - {t})
  }

  /** The check that Pop makes once it has counted its item out. */
  predicate CheckHolds<T>(s: State<T>, step: Step<T>) {
    step.FinishPop? && Enabled(s, step) ==> After(s, step).counts[s.doing[step.thread].service] >= 0
  }

  predicate IsRun<T>(s: State<T>, steps: seq<Step<T>>)
    decreases |steps|, 0
  {
    steps == [] || (IsRun(s, steps[..|steps| - 1]) && Enabled(AfterRun(s, steps[..|steps| - 1]), steps[|steps| - 1]))
  }

  function AfterRun<T>(s: State<T>, steps: seq<Step<T>>): State<T>
    requires IsRun(s, steps)
    decreases |steps|, 1
  {
    if steps == [] then s else After(AfterRun(s, steps[..|steps| - 1]), steps[|steps| - 1])
  }

  // Where the counted items of a service are.

  function Queued<T>(queue: seq<Item<T>>, service: Service): nat
    decreases |queue|
  {
    if queue == [] then 0
    else (if queue[0].service == service then 1 else 0) + Queued(queue[1..], service)
  }

  ghost function Pushers<T>(doing: map<Thread, Doing<T>>, service: Service): set<Thread> {
    set t | t in doing && doing[t].Pushing? && doing[t].item.service == service
  }

  ghost function Poppers<T>(doing: map<Thread, Doing<T>>, service: Service): set<Thread> {
    set t | t in doing && doing[t].Popping? && doing[t].service == service
  }

  /** A service's count: what is queued, being pushed, being popped, or was refused after it was counted. */
  ghost predicate Conserved<T>(s: State<T>, service: Service)
    requires service in s.counts
  {
    s.counts[service] ==
    Queued(s.queue, service) + |Pushers(s.doing, service)| + |Poppers(s.doing, service)| + s.refused[service]
  }

  ghost predicate KnownServices<T>(s: State<T>) {
    && s.quotas.Keys == s.counts.Keys
    && (forall i | 0 <= i < |s.queue| :: s.queue[i].service in s.counts)
    && (forall t | t in s.doing :: KnownTo(s.doing[t], s.counts.Keys))
    && (forall v | v in s.refused :: v in s.counts)
  }

  predicate KnownTo<T>(d: Doing<T>, services: set<Service>) {
    (d.Pushing? ==> d.item.service in services) && (d.Popping? ==> d.service in services)
  }

  ghost predicate Ordered<T>(s: State<T>) {
    && s.pushed == s.popped + s.queue
    && (s.innerDraining ==> s.draining)
    && (forall t | t in s.doing && s.doing[t].Draining? :: s.draining)
    && (s.refused != multiset{} ==> s.innerDraining)
  }

  ghost predicate Inv<T>(s: State<T>) {
    KnownServices(s) && Ordered(s) && forall v | v in s.counts :: Conserved(s, v)
  }

  lemma {:induction false} QueuedAppend<T>(queue: seq<Item<T>>, item: Item<T>, service: Service)
    ensures Queued(queue + [item], service) == Queued(queue, service) + (if item.service == service then 1 else 0)
    decreases |queue|
  {
    if queue == [] {
      assert queue + [item] == [item];
    } else {
      QueuedAppend(queue[1..], item, service);
      assert (queue + [item])[1..] == queue[1..] + [item];
    }
  }

  lemma {:induction false} QueuedUnknown<T>(queue: seq<Item<T>>, service: Service)
    requires forall i | 0 <= i < |queue| :: queue[i].service != service
    ensures Queued(queue, service) == 0
    decreases |queue|
  {
    if queue != [] {
      QueuedUnknown(queue[1..], service);
    }
  }

  lemma PushersMore<T>(doing: map<Thread, Doing<T>>, t: Thread, d: Doing<T>, v: Service)
    requires t !in doing
    ensures |Pushers(doing[t := d], v)| == |Pushers(doing, v)| + (if d.Pushing? && d.item.service == v then 1 else 0)
  {
    if d.Pushing? && d.item.service == v {
      assert Pushers(doing[t := d], v) == Pushers(doing, v) + {t};
    } else {
      assert Pushers(doing[t := d], v) == Pushers(doing, v);
    }
  }

  lemma PoppersMore<T>(doing: map<Thread, Doing<T>>, t: Thread, d: Doing<T>, v: Service)
    requires t !in doing
    ensures |Poppers(doing[t := d], v)| == |Poppers(doing, v)| + (if d.Popping? && d.service == v then 1 else 0)
  {
    if d.Popping? && d.service == v {
      assert Poppers(doing[t := d], v) == Poppers(doing, v) + {t};
    } else {
      assert Poppers(doing[t := d], v) == Poppers(doing, v);
    }
  }

  /** A thread that comes to do something is counted there, and nowhere else. */
  lemma DoingMore<T>(doing: map<Thread, Doing<T>>, t: Thread, d: Doing<T>, v: Service)
    requires t !in doing
    ensures |Pushers(doing[t := d], v)| == |Pushers(doing, v)| + (if d.Pushing? && d.item.service == v then 1 else 0)
    ensures |Poppers(doing[t := d], v)| == |Poppers(doing, v)| + (if d.Popping? && d.service == v then 1 else 0)
  {
    PushersMore(doing, t, d, v);
    PoppersMore(doing, t, d, v);
  }

  lemma DoingLess<T>(doing: map<Thread, Doing<T>>, t: Thread, v: Service)
    requires t in doing
    ensures |Pushers(doing - {t}, v)| + (if doing[t].Pushing? && doing[t].item.service == v then 1 else 0) ==
            |Pushers(doing, v)|
    ensures |Poppers(doing - {t}, v)| + (if doing[t].Popping? && doing[t].service == v then 1 else 0) ==
            |Poppers(doing, v)|
  {
    var rest := doing - {t};
    DoingMore(rest, t, doing[t], v);
    assert rest[t := doing[t]] == doing;
  }

  lemma StepKeepsConserved<T>(s: State<T>, step: Step<T>, v: Service)
    requires Inv(s) && Enabled(s, step) && v in After(s, step).counts
    ensures Conserved(After(s, step), v)
  {
    match step
    case AddService(w, _) =>
      if v == w {
        QueuedUnknown(s.queue, v);
        assert Pushers(s.doing, v) == {} && Poppers(s.doing, v) == {};
      } else {
        assert Conserved(s, v);
      }
    case BeginPush(t, item, wait) =>
      assert Conserved(s, v);
      DoingMore(s.doing, t, Pushing(item, wait), v);
    case FinishPush(t) =>
      assert Conserved(s, v);
      DoingLess(s.doing, t, v);
      QueuedAppend(s.queue, s.doing[t].item, v);
    case BeginPop(t, _) =>
      assert Conserved(s, v);
      if s.queue != [] {
        DoingMore(s.doing, t, Popping(s.queue[0].service), v);
      }
    case FinishPop(t) =>
      assert Conserved(s, v);
      DoingLess(s.doing, t, v);
    case BeginDrain(t) =>
      assert Conserved(s, v);
      DoingMore(s.doing, t, Draining, v);
    case FinishDrain(t) =>
      assert Conserved(s, v);
      DoingLess(s.doing, t, v);
  }

  lemma StepKeepsKnownServices<T>(s: State<T>, step: Step<T>)
    requires KnownServices(s) && Enabled(s, step)
    ensures KnownServices(After(s, step))
  {
    var after := After(s, step);
    assert s.counts.Keys <= after.counts.Keys;
    match step
    case FinishPush(t) =>
      assert KnownTo(s.doing[t], s.counts.Keys);
    case BeginPop(t, _) =>
      assert s.queue != [] ==> s.queue[0].service in s.counts;
    case _ =>
  }

  lemma StepKeepsOrdered<T>(s: State<T>, step: Step<T>)
    requires Ordered(s) && Enabled(s, step)
    ensures Ordered(After(s, step))
  {
    match step
    case FinishPush(t) =>
      assert (s.popped + s.queue) + [s.doing[t].item] == s.popped + (s.queue + [s.doing[t].item]);
    case BeginPop(t, _) =>
      if s.queue != [] {
        assert s.popped + s.queue == (s.popped + [s.queue[0]]) + s.queue[1..];
      }
    case _ =>
  }

  lemma StepKeepsInv<T>(s: State<T>, step: Step<T>)
    requires Inv(s) && Enabled(s, step)
    ensures Inv(After(s, step))
  {
    StepKeepsKnownServices(s, step);
    StepKeepsOrdered(s, step);
    forall v | v in After(s, step).counts
      ensures Conserved(After(s, step), v)
    {
      StepKeepsConserved(s, step, v);
    }
  }

  /** In every interleaving of every threads' calls. */
  lemma {:induction false} RunKeepsInv<T>(maxSize: int, steps: seq<Step<T>>)
    requires IsRun(Initial(maxSize), steps)
    ensures Inv(AfterRun(Initial(maxSize), steps))
    decreases |steps|
  {
    if steps != [] {
      RunKeepsInv(maxSize, steps[..|steps| - 1]);
      StepKeepsInv(AfterRun(Initial(maxSize), steps[..|steps| - 1]), steps[|steps| - 1]);
    }
  }

  /** The check in Pop holds after every run, whichever thread makes it. */
  lemma CheckNeverFails<T>(maxSize: int, steps: seq<Step<T>>, step: Step<T>)
    requires IsRun(Initial(maxSize), steps)
    ensures CheckHolds(AfterRun(Initial(maxSize), steps), step)
  {
    var s := AfterRun(Initial(maxSize), steps);
    RunKeepsInv(maxSize, steps);
    if step.FinishPop? && Enabled(s, step) {
      var v := s.doing[step.thread].service;
      assert Conserved(s, v) && step.thread in Poppers(s.doing, v);
    }
  }

  /** Items leave in the order they came, and none is lost or made up. */
  lemma ItemsAreConserved<T>(maxSize: int, steps: seq<Step<T>>)
    requires IsRun(Initial(maxSize), steps)
    ensures var s := AfterRun(Initial<T>(maxSize), steps); s.pushed == s.popped + s.queue
  {
    RunKeepsInv(maxSize, steps);
  }

  // The quota.

  ghost predicate PushesWait<T>(steps: seq<Step<T>>, service: Service) {
    forall i | 0 <= i < |steps| && steps[i].BeginPush? && steps[i].item.service == service :: steps[i].wait
  }

  predicate WithinQuota<T>(s: State<T>, service: Service) {
    service in s.quotas && service in s.counts && s.quotas[service] > 0 ==> s.counts[service] <= s.quotas[service]
  }

  /** The one way past the quota: a push that does not wait, at the quota, before a drain. */
  lemma QuotaExceededExactlyWhen<T>(s: State<T>, step: Step<T>, service: Service)
    requires Inv(s) && Enabled(s, step) && WithinQuota(s, service)
    ensures !WithinQuota(After(s, step), service) <==>
            && step.BeginPush? && step.item.service == service && !step.wait
            && !s.draining && s.quotas[service] > 0 && s.counts[service] == s.quotas[service]
  {
  }

  /** A service that everyone waits for stays within its quota in every run. */
  lemma {:induction false} WaitingKeepsQuota<T>(maxSize: int, steps: seq<Step<T>>, service: Service)
    requires IsRun(Initial(maxSize), steps) && PushesWait(steps, service)
    ensures WithinQuota(AfterRun(Initial(maxSize), steps), service)
    decreases |steps|
  {
    if steps != [] {
      var shorter := steps[..|steps| - 1];
      WaitingKeepsQuota(maxSize, shorter, service);
      RunKeepsInv(maxSize, shorter);
      QuotaExceededExactlyWhen(AfterRun(Initial(maxSize), shorter), steps[|steps| - 1], service);
    }
  }

  /**
   Two pushes that do not wait put two items in a service with room for one.
   PeerConnection::SendMessage pushes this way to a service with a quota of one.
   */
  lemma QuotaCanBeExceeded<T>(item: T)
    ensures exists steps: seq<Step<T>> | IsRun(Initial(-1), steps) :: !WithinQuota(AfterRun(Initial(-1), steps), 0)
  {
    var start, push := Initial<T>(-1), BeginPush(0, Item(item, 0), false);
    var steps: seq<Step<T>> := [];
    OneMore(start, steps, AddService(0, 1));
    OneMore(start, steps + [AddService(0, 1)], push);
    OneMore(start, steps + [AddService(0, 1)] + [push], FinishPush(0));
    OneMore(start, steps + [AddService(0, 1)] + [push] + [FinishPush(0)], push);
  }

  lemma OneMore<T>(s: State<T>, steps: seq<Step<T>>, step: Step<T>)
    requires IsRun(s, steps) && Enabled(AfterRun(s, steps), step)
    ensures IsRun(s, steps + [step]) && AfterRun(s, steps + [step]) == After(AfterRun(s, steps), step)
  {
    assert (steps + [step])[..|steps|] == steps;
  }

  predicate WithinSize<T>(s: State<T>) {
    s.maxSize > 0 ==> |s.queue| <= s.maxSize
  }

  /** The one way past the size of the inner queue: a push that does not wait, at that size, before a drain. */
  lemma SizeExceededExactlyWhen<T>(s: State<T>, step: Step<T>)
    requires Enabled(s, step) && WithinSize(s)
    ensures After(s, step).maxSize == s.maxSize
    ensures !WithinSize(After(s, step)) <==>
            && step.FinishPush? && !s.doing[step.thread].wait && !s.innerDraining
            && s.maxSize > 0 && |s.queue| == s.maxSize
  {
  }

  /** A waiting Pop comes back with the oldest item; with nothing only once the queue is drained and empty. */
  lemma PopWaitsForAnItem<T>(s: State<T>, t: Thread)
    requires Enabled(s, BeginPop(t, true))
    ensures var after := After(s, BeginPop(t, true));
            if s.queue == [] then s.innerDraining && after == s
            else after.popped == s.popped + [s.queue[0]] && [s.queue[0]] + after.queue == s.queue
  {
  }

  /** A push that has to wait is waiting for something: an item still queued, or a call under way. */
  lemma FullServiceHasWork<T>(maxSize: int, steps: seq<Step<T>>, service: Service)
    requires IsRun(Initial(maxSize), steps)
    ensures var s := AfterRun(Initial<T>(maxSize), steps);
            service in s.quotas && service in s.counts && ServiceFull(s, service) && !s.draining ==>
              (exists i | 0 <= i < |s.queue| :: s.queue[i].service == service)
              || Pushers(s.doing, service) != {} || Poppers(s.doing, service) != {}
  {
    var s := AfterRun(Initial<T>(maxSize), steps);
    RunKeepsInv(maxSize, steps);
    if service in s.counts && Pushers(s.doing, service) == {} && Poppers(s.doing, service) == {}
        && !(exists i | 0 <= i < |s.queue| :: s.queue[i].service == service) {
      QueuedUnknown(s.queue, service);
      assert Conserved(s, service);
    }
  }

  /** Once every call has ended and the queue is empty, only the pushes a drain cut off are still counted. */
  lemma QuietCounts<T>(maxSize: int, steps: seq<Step<T>>, service: Service)
    requires IsRun(Initial(maxSize), steps)
    ensures var s := AfterRun(Initial<T>(maxSize), steps);
            s.doing == map[] && s.queue == [] && service in s.counts ==>
              && s.counts[service] == s.refused[service]
              && (!s.innerDraining ==> s.counts[service] == 0)
  {
    var s := AfterRun(Initial<T>(maxSize), steps);
    RunKeepsInv(maxSize, steps);
    if s.doing == map[] && service in s.counts {
      assert Conserved(s, service) && Pushers(s.doing, service) == {} && Poppers(s.doing, service) == {};
    }
  }

  // Draining.

  /** Nobody waits: each wait there may be is over. */
  ghost predicate NobodyWaits<T(!new)>(s: State<T>) {
    && (forall t | t in s.doing && s.doing[t].Pushing? :: Enabled(s, FinishPush(t)))
    && (forall t | t !in s.doing :: Enabled(s, BeginPop(t, true)))
    && forall t, item: Item<T> | t !in s.doing && item.service in s.counts :: Enabled(s, BeginPush(t, item, true))
  }

  /** Nothing gets in: a push that begins changes nothing, and one under way is refused. */
  ghost predicate RefusesAll<T(!new)>(s: State<T>) {
    && (forall t, item, wait | Enabled(s, BeginPush(t, item, wait)) :: After(s, BeginPush(t, item, wait)) == s)
    && forall t | Enabled(s, FinishPush(t)) ::
         var after := After(s, FinishPush(t)); after.queue == s.queue && after.pushed == s.pushed
  }

  lemma DrainedRefuses<T(!new)>(s: State<T>)
    requires KnownServices(s) && Ordered(s) && s.innerDraining
    ensures NobodyWaits(s) && RefusesAll(s)
  {
  }

  lemma StaysDrained<T>(s: State<T>, step: Step<T>)
    requires Enabled(s, step) && (s.innerDraining || step.FinishDrain?)
    ensures After(s, step).innerDraining && After(s, step).pushed == s.pushed
  {
  }

  lemma {:induction false} NothingPushed<T>(s: State<T>, steps: seq<Step<T>>, k: nat)
    requires IsRun(s, steps) && k < |steps| && steps[k].FinishDrain?
    ensures IsRun(s, steps[..k])
    ensures AfterRun(s, steps).innerDraining && AfterRun(s, steps).pushed == AfterRun(s, steps[..k]).pushed
    decreases |steps|
  {
    var shorter := steps[..|steps| - 1];
    if k < |shorter| {
      NothingPushed(s, shorter, k);
      assert shorter[..k] == steps[..k];
    }
    StaysDrained(AfterRun(s, shorter), steps[|steps| - 1]);
  }

  /**
   In every run, from the end of a Drain on: no item gets into the queue any more,
   what was in it is still handed out in order, every push fails, and no thread is
   kept waiting.
   */
  lemma DrainIsFinal<T(!new)>(maxSize: int, steps: seq<Step<T>>, k: nat)
    requires IsRun(Initial(maxSize), steps) && k < |steps| && steps[k].FinishDrain?
    ensures IsRun(Initial(maxSize), steps[..k])
    ensures var before, s := AfterRun(Initial<T>(maxSize), steps[..k]), AfterRun(Initial<T>(maxSize), steps);
            && s.innerDraining && NobodyWaits(s) && RefusesAll(s)
            && s.pushed == before.pushed && s.popped + s.queue == before.popped + before.queue
  {
    NothingPushed(Initial(maxSize), steps, k);
    ItemsAreConserved(maxSize, steps[..k]);
    ItemsAreConserved(maxSize, steps);
    RunKeepsInv(maxSize, steps);
    DrainedRefuses(AfterRun(Initial<T>(maxSize), steps));
  }
}
