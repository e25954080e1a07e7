/**
  The inductive invariant of the pipeline, in five parts: slots, the worker, instances, requests
  and counters. Each part is shown to survive every step.
 */
module PipelineInvariant {
  import opened Wrappers
  import C = Capacity
  import B = Balancing
  import opened Scheduling
  import opened Pipeline

  // ---------------------------------------------------------------- counting tasks

  /** Steps a dispatch task still has to take. */
  function Remaining(phase: Phase): nat {
    match phase
    case Spawned => 5
    case Sending(_) => 4
    case Finished(_, _) => 3
    case InstanceFreed(_) => 2
    case SlotFreed(_) => 1
  }

  datatype Kind =
    | AtLeast(steps: nat)
    | OnInstance
    | On(url: B.Url)
    | HoldsResponse

  /** Tasks that have not passed `controller.release` yet. */
  const HOLDS_SLOT: Kind := AtLeast(2)

  predicate Has(kind: Kind, phase: Phase) {
    match kind
    case AtLeast(n) => Remaining(phase) >= n
    case OnInstance => phase.Sending? || phase.Finished?
    case On(url) => (phase.Sending? || phase.Finished?) && phase.url == url
    case HoldsResponse => !phase.Spawned? && !phase.Sending? && phase.outcome.Responded?
  }

  function Members(kind: Kind, tasks: map<nat, Task>): set<nat> {
    set id | id in tasks && Has(kind, tasks[id].phase)
  }

  function Count(kind: Kind, tasks: map<nat, Task>): nat { |Members(kind, tasks)| }

  function One(b: bool): nat { if b then 1 else 0 }

  lemma SizeBut(ids: set<nat>, id: nat)
    ensures |ids| == |ids - {id}| + One(id in ids)
  {
  }

  lemma MembersBut(kind: Kind, tasks: map<nat, Task>, id: nat, t: Task)
    ensures Members(kind, tasks[id := t]) - {id} == Members(kind, tasks) - {id}
  {
  }

  lemma PutCounts(kind: Kind, tasks: map<nat, Task>, id: nat, t: Task)
    ensures Count(kind, tasks[id := t])
            == Count(kind, tasks) - One(id in tasks && Has(kind, tasks[id].phase)) + One(Has(kind, t.phase))
  {
    MembersBut(kind, tasks, id, t);
    SizeBut(Members(kind, tasks[id := t]), id);
    SizeBut(Members(kind, tasks), id);
  }

  lemma DropCounts(kind: Kind, tasks: map<nat, Task>, id: nat)
    ensures Count(kind, tasks - {id})
            == Count(kind, tasks) - One(id in tasks && Has(kind, tasks[id].phase))
  {
    assert Members(kind, tasks - {id}) == Members(kind, tasks) - {id};
    SizeBut(Members(kind, tasks), id);
  }

  lemma SubCount(a: Kind, b: Kind, tasks: map<nat, Task>, id: nat)
    requires forall i :: i in tasks && Has(a, tasks[i].phase) ==> Has(b, tasks[i].phase)
    requires id in tasks && Has(b, tasks[id].phase) && !Has(a, tasks[id].phase)
    ensures Count(a, tasks) < Count(b, tasks)
  {
    assert Members(a, tasks) <= Members(b, tasks) - {id};
    SubsetSize(Members(a, tasks), Members(b, tasks) - {id});
  }

  lemma {:induction false} SubsetSize(a: set<nat>, b: set<nat>)
    requires a <= b
    ensures |a| <= |b|
  {
    assert b == a + (b - a);
  }

  // ---------------------------------------------------------------- counting futures

  function Ids(futures: map<nat, Future>, f: Future): set<nat> {
    set id | id in futures && futures[id] == f
  }

  lemma IdsBut(futures: map<nat, Future>, id: nat, f: Future, counted: Future)
    ensures Ids(futures[id := f], counted) - {id} == Ids(futures, counted) - {id}
  {
  }

  lemma FutureCounts(futures: map<nat, Future>, id: nat, f: Future, counted: Future)
    ensures |Ids(futures[id := f], counted)|
            == |Ids(futures, counted)| - One(id in futures && futures[id] == counted) + One(f == counted)
  {
    IdsBut(futures, id, f, counted);
    SizeBut(Ids(futures[id := f], counted), id);
    SizeBut(Ids(futures, counted), id);
  }

  // ---------------------------------------------------------------- the invariant

  /** Every slot in use belongs to one dispatch task or to the worker. */
  ghost predicate SlotsInv(s: System) {
    && C.Inv(s.ctl)
    && s.ctl.inFlight == Count(HOLDS_SLOT, s.tasks) + One(s.worker.Holding? || s.worker.Discarding?)
  }

  /** The worker is the only one who ever waits for a slot. */
  ghost predicate WorkerInv(s: System) {
    if s.worker.Asleep? then |s.ctl.waiters| == 1 && s.ctl.waiters[0].tid == WORKER else s.ctl.waiters == []
  }

  ghost predicate LoadsMatch(lb: B.Balancer, tasks: map<nat, Task>)
    requires B.WellFormed(lb)
  {
    forall u :: u in lb.order ==> lb.inFlight[u] == Count(On(u), tasks)
  }

  /** Each instance's load is the number of tasks between `select` and `release` on it. */
  ghost predicate InstancesInv(s: System) {
    && B.WellFormed(s.lb)
    && LoadsMatch(s.lb, s.tasks)
    && B.TotalLoad(s.lb.order, s.lb.inFlight) == Count(OnInstance, s.tasks)
    && (forall id :: id in s.tasks && Has(OnInstance, s.tasks[id].phase) ==> s.tasks[id].phase.url in s.lb.order)
    && s.stats.doubleReleases == 0
  }

  function QueuedIds(queue: set<Entry>): set<nat> { set e | e in queue :: e.id }

  /** Every request is queued or dispatched at most once, never with a future already done, and a
      waiting handler's request is always queued or dispatched. */
  ghost predicate RequestsInv(s: System) {
    && |s.queue| <= s.queueMaxSize && DistinctKeys(s.queue)
    && (forall a, b :: a in s.queue && b in s.queue && a.id == b.id ==> a == b)
    && (forall e :: e in s.queue ==> e.id in s.futures && s.futures[e.id] != Done && e.id !in s.tasks)
    && (forall id :: id in s.tasks ==>
          s.tasks[id].entry.id == id && id in s.futures && s.futures[id] != Done)
    && NobodyForgotten(s)
  }

  ghost predicate StatsInv(s: System) {
    var t := s.stats;
    && t.requests == t.admitted + t.waitExceeded + t.queueFull + t.queueTimeout + t.clientGone
                     + |Ids(s.futures, Pending)|
    && t.inflightGauge == |Ids(s.futures, Pending)|
    && t.admitted == |Ids(s.futures, Done)|
    && t.queueTimeout + t.clientGone == |Ids(s.futures, Cancelled)|
    && t.received == t.handed + t.closed + Count(HoldsResponse, s.tasks)
    && t.doubleResolves == 0
  }

  ghost predicate Inv(s: System) {
    SlotsInv(s) && WorkerInv(s) && InstancesInv(s) && RequestsInv(s) && StatsInv(s)
  }

  // ---------------------------------------------------------------- kinds of step

  /** Steps of the worker's `acquire` and `release`, the adjust loop and the health check. */
  predicate Quiet(step: Step) {
    step.Acquire? || step.Rerun? || step.Discard? || step.Adjust? || step.Broadcast?
    || step.Recover? || step.Sweep?
  }

  predicate MovesTask(step: Step) {
    step.Select? || step.Send? || step.FreeInstance? || step.FreeSlot?
  }

  /** What quiet steps leave alone. */
  lemma QuietFrame(s: System, step: Step, s': System)
    requires Quiet(step) && Transition(s, step, s')
    ensures s'.queue == s.queue && s'.tasks == s.tasks && s'.futures == s.futures
    ensures s'.stats == s.stats && s'.queueMaxSize == s.queueMaxSize
  {
  }

  /** What a dispatch task's step leaves alone. */
  lemma TaskFrame(s: System, step: Step, s': System)
    requires MovesTask(step) && Transition(s, step, s')
    ensures s'.queue == s.queue && s'.futures == s.futures && s'.queueMaxSize == s.queueMaxSize
    ensures step.id in s.tasks && step.id in s'.tasks
    ensures s'.tasks == s.tasks[step.id := s'.tasks[step.id]]
    ensures s'.tasks[step.id].entry == s.tasks[step.id].entry
    ensures s'.stats == s.stats.(received := s'.stats.received, doubleReleases := s'.stats.doubleReleases)
    ensures s'.stats.received + One(Has(HoldsResponse, s.tasks[step.id].phase))
            == s.stats.received + One(Has(HoldsResponse, s'.tasks[step.id].phase))
  {
  }

  // ---------------------------------------------------------------- slots and worker

  /** A task step between `select` and `controller.release` keeps the slot it holds. */
  lemma PutKeepsSlots(s: System, s': System, id: nat, t: Task)
    requires SlotsInv(s) && WorkerInv(s)
    requires s'.ctl == s.ctl && s'.worker == s.worker && s'.tasks == s.tasks[id := t]
    requires id in s.tasks && Has(HOLDS_SLOT, s.tasks[id].phase) && Has(HOLDS_SLOT, t.phase)
    ensures SlotsInv(s') && WorkerInv(s')
  {
    PutCounts(HOLDS_SLOT, s.tasks, id, t);
  }

  lemma PopSlots(s: System)
    requires SlotsInv(s) && WorkerInv(s) && RequestsInv(s) && s.worker.Holding? && s.queue != {}
    ensures SlotsInv(PopNext(s)) && WorkerInv(PopNext(s))
  {
    var e := Best(s.queue);
    PutCounts(HOLDS_SLOT, s.tasks, e.id, Task(e, Spawned));
  }

  lemma ControllerSlots(s: System, step: Step)
    requires SlotsInv(s) && WorkerInv(s)
    requires B.WellFormed(s.lb) && DistinctKeys(s.queue) && Enabled(s, step)
    requires step.Acquire? || step.Rerun? || step.Discard? || step.Adjust? || step.Broadcast?
    ensures SlotsInv(Next(s, step)) && WorkerInv(Next(s, step))
  {
    match step
    case Acquire => C.StepKeepsInv(s.ctl, C.EnterOp(WORKER));
    case Rerun =>
      C.StepKeepsInv(s.ctl, C.RerunOp(0));
      assert C.Without(s.ctl.waiters, 0) == [];
    case Discard => LeaveKeeps(s.ctl, 0.0, 0, false);
    case Adjust(now, clock, err) => C.StepKeepsInv(s.ctl, C.AdjustOp(now, clock, err));
    case Broadcast =>
      C.StepKeepsInv(s.ctl, C.BroadcastOp);
      C.NotifyCounts(s.ctl.waiters, |s.ctl.waiters|);
  }

  lemma SlotsStep(s: System, step: Step, s': System)
    requires SlotsInv(s) && WorkerInv(s) && RequestsInv(s) && Transition(s, step, s')
    ensures SlotsInv(s') && WorkerInv(s')
  {
    match step
    case Arrive(_) | Expire(_) | ClientGone(_) | Recover(_) | Sweep(_) => SameSlots(s, s');
    case Acquire | Rerun | Discard | Adjust(_, _, _) | Broadcast => ControllerSlots(s, step);
    case Pop => PopSlots(s);
    case Select(id, _, _) => PutKeepsSlots(s, s', id, s'.tasks[id]);
    case Send(id, _) => PutKeepsSlots(s, s', id, s'.tasks[id]);
    case FreeInstance(id, _) => PutKeepsSlots(s, s', id, s'.tasks[id]);
    case FreeSlot(id, latencyMs) => FreeSlotSlots(s, id, latencyMs);
    case Resolve(id) => ResolveSlots(s, id);
  }

  lemma SameSlots(s: System, s': System)
    requires SlotsInv(s) && WorkerInv(s)
    requires s'.ctl == s.ctl && s'.worker == s.worker && s'.tasks == s.tasks
    ensures SlotsInv(s') && WorkerInv(s')
  {
  }

  lemma ResolveSlots(s: System, id: nat)
    requires SlotsInv(s) && WorkerInv(s) && id in s.tasks && s.tasks[id].phase.SlotFreed?
    ensures SlotsInv(ResolveNext(s, id)) && WorkerInv(ResolveNext(s, id))
  {
    DropCounts(HOLDS_SLOT, s.tasks, id);
  }

  lemma LeaveKeeps(c: C.Controller, latencyMs: real, status: int, timedOut: bool)
    requires C.Inv(c) && c.inFlight > 0
    ensures var c' := C.Leave(c, latencyMs, status, timedOut);
            && C.Inv(c') && c'.inFlight == c.inFlight - 1 && c'.limit == c.limit
            && c'.raisePending == c.raisePending
            && |c'.waiters| == |c.waiters|
            && (|c.waiters| == 1 ==> c'.waiters[0].tid == c.waiters[0].tid && c'.waiters[0].notified)
  {
    C.StepKeepsInv(c, C.LeaveOp(latencyMs, status, timedOut));
    C.NotifyCounts(c.waiters, 1);
  }

  lemma FreeSlotSlots(s: System, id: nat, latencyMs: real)
    requires SlotsInv(s) && WorkerInv(s) && id in s.tasks && s.tasks[id].phase.InstanceFreed?
    ensures SlotsInv(FreeSlotNext(s, id, latencyMs)) && WorkerInv(FreeSlotNext(s, id, latencyMs))
  {
    var Task(e, InstanceFreed(outcome)) := s.tasks[id];
    assert id in Members(HOLDS_SLOT, s.tasks);
    LeaveKeeps(s.ctl, latencyMs, StatusOf(outcome), outcome.TimedOut?);
    PutCounts(HOLDS_SLOT, s.tasks, id, Task(e, SlotFreed(outcome)));
  }

  // ---------------------------------------------------------------- instances

  lemma SameInstances(s: System, s': System)
    requires InstancesInv(s)
    requires s'.lb == s.lb && s'.tasks == s.tasks && s'.stats.doubleReleases == s.stats.doubleReleases
    ensures InstancesInv(s')
  {
  }

  lemma SameLoads(s: System, s': System)
    requires InstancesInv(s) && B.WellFormed(s'.lb)
    requires s'.lb.order == s.lb.order && s'.lb.inFlight == s.lb.inFlight
    requires s'.tasks == s.tasks && s'.stats == s.stats
    ensures InstancesInv(s')
  {
  }

  /** A task step that moves on or off no instance leaves the instances' part alone. */
  lemma PutKeepsInstances(s: System, s': System, id: nat, t: Task)
    requires InstancesInv(s)
    requires s'.lb == s.lb && s'.stats.doubleReleases == 0 && s'.tasks == s.tasks[id := t]
    requires !Has(OnInstance, t.phase) && (id in s.tasks ==> !Has(OnInstance, s.tasks[id].phase))
    ensures InstancesInv(s')
  {
    PutCounts(OnInstance, s.tasks, id, t);
    forall u | u in s.lb.order ensures Count(On(u), s'.tasks) == Count(On(u), s.tasks) {
      PutCounts(On(u), s.tasks, id, t);
    }
  }

  lemma SelectInstances(s: System, id: nat, now: real, stamp: real)
    requires InstancesInv(s) && id in s.tasks && s.tasks[id].phase.Spawned?
    ensures InstancesInv(SelectNext(s, id, now, stamp))
  {
    var e := s.tasks[id].entry;
    var hint := Some(s.ctl.limit);
    var url := B.Choice(s.lb, e.ip, hint, now);
    var s' := SelectNext(s, id, now, stamp);
    B.SelectKeepsWellFormed(s.lb, e.ip, hint, now, stamp);
    OccupyInstance(s.lb, s'.lb, s.tasks, id, Task(e, Sending(url)));
  }

  lemma OccupyInstance(lb: B.Balancer, lb': B.Balancer, tasks: map<nat, Task>, id: nat, t: Task)
    requires B.WellFormed(lb) && B.WellFormed(lb') && LoadsMatch(lb, tasks)
    requires t.phase.Sending? && t.phase.url in lb.order
    requires id in tasks && tasks[id].phase.Spawned?
    requires lb'.order == lb.order && lb'.inFlight == lb.inFlight[t.phase.url := lb.inFlight[t.phase.url] + 1]
    ensures LoadsMatch(lb', tasks[id := t])
    ensures B.TotalLoad(lb'.order, lb'.inFlight) == B.TotalLoad(lb.order, lb.inFlight) + 1
    ensures Count(OnInstance, tasks[id := t]) == Count(OnInstance, tasks) + 1
  {
    PutCounts(OnInstance, tasks, id, t);
    B.TotalLoadUpdate(lb.order, lb.inFlight, t.phase.url, lb.inFlight[t.phase.url] + 1);
    forall u | u in lb.order ensures lb'.inFlight[u] == Count(On(u), tasks[id := t]) {
      PutCounts(On(u), tasks, id, t);
    }
  }

  lemma SendInstances(s: System, id: nat, outcome: Outcome)
    requires InstancesInv(s) && id in s.tasks && s.tasks[id].phase.Sending?
    ensures InstancesInv(SendNext(s, id, outcome))
  {
    var s' := SendNext(s, id, outcome);
    PutCounts(OnInstance, s.tasks, id, s'.tasks[id]);
    forall u | u in s.lb.order ensures Count(On(u), s'.tasks) == Count(On(u), s.tasks) {
      PutCounts(On(u), s.tasks, id, s'.tasks[id]);
    }
  }

  lemma FreeInstanceInstances(s: System, id: nat, clock: real)
    requires InstancesInv(s) && id in s.tasks && s.tasks[id].phase.Finished?
    ensures InstancesInv(FreeInstanceNext(s, id, clock))
  {
    var Task(e, Finished(url, outcome)) := s.tasks[id];
    var s' := FreeInstanceNext(s, id, clock);
    assert Has(OnInstance, s.tasks[id].phase);
    assert id in Members(On(url), s.tasks);
    B.ReleaseKeepsWellFormed(s.lb, url, outcome.ConnectFailed?, clock);
    VacateInstance(s.lb, s'.lb, s.tasks, id, Task(e, InstanceFreed(outcome)));
  }

  lemma VacateInstance(lb: B.Balancer, lb': B.Balancer, tasks: map<nat, Task>, id: nat, t: Task)
    requires B.WellFormed(lb) && B.WellFormed(lb') && LoadsMatch(lb, tasks)
    requires id in tasks && tasks[id].phase.Finished? && t.phase.InstanceFreed?
    requires var url := tasks[id].phase.url;
             && url in lb.order && lb.inFlight[url] > 0
             && lb'.order == lb.order && lb'.inFlight == lb.inFlight[url := lb.inFlight[url] - 1]
    ensures LoadsMatch(lb', tasks[id := t])
    ensures B.TotalLoad(lb'.order, lb'.inFlight) == B.TotalLoad(lb.order, lb.inFlight) - 1
    ensures Count(OnInstance, tasks[id := t]) == Count(OnInstance, tasks) - 1
  {
    var url := tasks[id].phase.url;
    PutCounts(OnInstance, tasks, id, t);
    B.TotalLoadUpdate(lb.order, lb.inFlight, url, lb.inFlight[url] - 1);
    forall u | u in lb.order ensures lb'.inFlight[u] == Count(On(u), tasks[id := t]) {
      PutCounts(On(u), tasks, id, t);
    }
  }

  lemma ResolveInstances(s: System, id: nat)
    requires InstancesInv(s) && id in s.tasks && s.tasks[id].phase.SlotFreed?
    ensures InstancesInv(ResolveNext(s, id))
  {
    DropCounts(OnInstance, s.tasks, id);
    DropKeepsLoads(s.lb, s.tasks, id);
  }

  lemma DropKeepsLoads(lb: B.Balancer, tasks: map<nat, Task>, id: nat)
    requires B.WellFormed(lb) && LoadsMatch(lb, tasks)
    requires id in tasks && tasks[id].phase.SlotFreed?
    ensures LoadsMatch(lb, tasks - {id})
  {
    forall u | u in lb.order ensures lb.inFlight[u] == Count(On(u), tasks - {id}) {
      DropCounts(On(u), tasks, id);
    }
  }

  lemma HealthInstances(s: System, step: Step, s': System)
    requires InstancesInv(s) && (step.Recover? || step.Sweep?) && Transition(s, step, s')
    ensures InstancesInv(s')
  {
    if step.Recover? { B.RecoverKeepsWellFormed(s.lb, step.url); }
    SameLoads(s, s');
  }

  lemma QuietInstances(s: System, step: Step, s': System)
    requires InstancesInv(s) && Quiet(step) && Transition(s, step, s')
    ensures InstancesInv(s')
  {
    if step.Recover? || step.Sweep? {
      HealthInstances(s, step, s');
    } else {
      assert s'.lb == s.lb;
      QuietFrame(s, step, s');
      SameInstances(s, s');
    }
  }

  lemma TaskInstances(s: System, step: Step)
    requires InstancesInv(s) && MovesTask(step) && DistinctKeys(s.queue) && Enabled(s, step)
    ensures InstancesInv(Next(s, step))
  {
    match step
    case Select(id, now, stamp) => SelectInstances(s, id, now, stamp);
    case Send(id, outcome) => SendInstances(s, id, outcome);
    case FreeInstance(id, clock) => FreeInstanceInstances(s, id, clock);
    case FreeSlot(id, latencyMs) =>
      var s' := FreeSlotNext(s, id, latencyMs);
      PutKeepsInstances(s, s', id, s'.tasks[id]);
  }

  lemma PopInstances(s: System)
    requires InstancesInv(s) && RequestsInv(s) && s.queue != {}
    ensures InstancesInv(PopNext(s))
  {
    var e := Best(s.queue);
    if s.futures[e.id] == Cancelled { SameInstances(s, PopNext(s)); }
    else { PutKeepsInstances(s, PopNext(s), e.id, Task(e, Spawned)); }
  }

  lemma InstancesStep(s: System, step: Step, s': System)
    requires InstancesInv(s) && RequestsInv(s) && Transition(s, step, s')
    ensures InstancesInv(s')
  {
    if Quiet(step) {
      QuietInstances(s, step, s');
    } else if MovesTask(step) {
      TaskInstances(s, step);
    } else if step.Pop? {
      PopInstances(s);
    } else if step.Resolve? {
      ResolveInstances(s, step.id);
    } else {
      SameInstances(s, s');
    }
  }

  // ---------------------------------------------------------------- requests

  lemma AddKeepsQueue(queue: set<Entry>, e: Entry)
    requires DistinctKeys(queue) && forall o :: o in queue ==> !SameKey(o, e)
    ensures DistinctKeys(queue + {e}) && |queue + {e}| <= |queue| + 1
  {
    forall a, b | a in queue + {e} && b in queue + {e} && SameKey(a, b)
      ensures a == b
    {
      if a == e && b != e { assert SameKey(b, e); }
    }
  }

  /** A waiting handler's request is queued or dispatched. */
  ghost predicate NobodyForgotten(s: System) {
    forall id :: id in s.futures && s.futures[id] == Pending ==> id in s.tasks || id in QueuedIds(s.queue)
  }

  /** A request just queued, with its future. */
  lemma QueuedForgetsNobody(s: System, e: Entry, s': System)
    requires NobodyForgotten(s)
    requires s'.queue == s.queue + {e} && s'.tasks == s.tasks && s'.futures == s.futures[e.id := Pending]
    ensures NobodyForgotten(s')
  {
    assert QueuedIds(s.queue + {e}) == QueuedIds(s.queue) + {e.id};
  }

  lemma QueuedRequests(s: System, e: Entry, s': System)
    requires RequestsInv(s) && Enabled(s, Arrive(e)) && |s.queue| < s.queueMaxSize
    requires s'.queueMaxSize == s.queueMaxSize && s'.queue == s.queue + {e}
    requires s'.tasks == s.tasks && s'.futures == s.futures[e.id := Pending]
    ensures RequestsInv(s')
  {
    QueuedForgetsNobody(s, e, s');
    AddKeepsQueue(s.queue, e);
    assert forall o :: o in s.queue ==> o.id in s.futures;
  }

  lemma ArriveRequests(s: System, e: Entry)
    requires RequestsInv(s) && Enabled(s, Arrive(e)) && Projected(s).None?
    ensures RequestsInv(ArriveNext(s, e))
  {
    QueuedRequests(s, e, ArriveNext(s, e));
  }

  lemma PopRequests(s: System)
    requires RequestsInv(s) && s.queue != {}
    ensures RequestsInv(PopNext(s))
  {
    var e := Best(s.queue);
    assert QueuedIds(s.queue - {e}) == QueuedIds(s.queue) - {e.id};
  }

  lemma ResolveRequests(s: System, id: nat)
    requires RequestsInv(s) && id in s.tasks && s.tasks[id].phase.SlotFreed?
    ensures RequestsInv(ResolveNext(s, id))
  {
    assert id !in QueuedIds(s.queue);
  }

  lemma CancelRequests(s: System, s': System, id: nat)
    requires RequestsInv(s) && id in s.futures && s'.futures == s.futures[id := Cancelled]
    requires s'.queueMaxSize == s.queueMaxSize && s'.queue == s.queue && s'.tasks == s.tasks
    ensures RequestsInv(s')
  {
  }

  /** Steps that only move a task along, or touch no request at all. */
  lemma SameRequests(s: System, s': System)
    requires RequestsInv(s)
    requires s'.queueMaxSize == s.queueMaxSize && s'.queue == s.queue && s'.futures == s.futures
    requires s'.tasks.Keys == s.tasks.Keys
    requires forall id :: id in s.tasks ==> s'.tasks[id].entry == s.tasks[id].entry
    ensures RequestsInv(s')
  {
  }

  lemma RequestsStep(s: System, step: Step, s': System)
    requires RequestsInv(s) && Transition(s, step, s')
    ensures RequestsInv(s')
  {
    if Quiet(step) {
      QuietFrame(s, step, s');
      SameRequests(s, s');
    } else if MovesTask(step) {
      TaskFrame(s, step, s');
      SameRequests(s, s');
    } else {
      BusyRequests(s, step);
    }
  }

  lemma BusyRequests(s: System, step: Step)
    requires RequestsInv(s) && B.WellFormed(s.lb) && Enabled(s, step)
    requires !Quiet(step) && !MovesTask(step)
    ensures RequestsInv(Next(s, step))
  {
    match step
    case Arrive(e) =>
      if Projected(s).None? { ArriveRequests(s, e); } else { SameRequests(s, Next(s, step)); }
    case Expire(id) => CancelRequests(s, Next(s, step), id);
    case ClientGone(id) => CancelRequests(s, Next(s, step), id);
    case Pop => PopRequests(s);
    case Resolve(id) => ResolveRequests(s, id);
  }

  // ---------------------------------------------------------------- counters

  lemma FutureStats(futures: map<nat, Future>, id: nat, f: Future)
    ensures forall g: Future :: |Ids(futures[id := f], g)|
              == |Ids(futures, g)| - One(id in futures && futures[id] == g) + One(f == g)
  {
    forall g: Future
      ensures |Ids(futures[id := f], g)|
              == |Ids(futures, g)| - One(id in futures && futures[id] == g) + One(f == g)
    {
      FutureCounts(futures, id, f, g);
    }
  }

  lemma HandlerStats(s: System, step: Step)
    requires StatsInv(s) && B.WellFormed(s.lb) && DistinctKeys(s.queue) && Enabled(s, step)
    requires step.Arrive? || step.Expire? || step.ClientGone?
    ensures StatsInv(Next(s, step))
  {
    match step
    case Arrive(e) => FutureStats(s.futures, e.id, Pending);
    case Expire(id) => FutureStats(s.futures, id, Cancelled);
    case ClientGone(id) => FutureStats(s.futures, id, Cancelled);
  }

  lemma ResolveStats(s: System, id: nat)
    requires StatsInv(s) && id in s.tasks && s.tasks[id].phase.SlotFreed?
    requires id in s.futures && s.futures[id] != Done
    ensures StatsInv(ResolveNext(s, id))
  {
    DropCounts(HoldsResponse, s.tasks, id);
    FutureStats(s.futures, id, Done);
  }

  /** A task step that neither opens nor gives away a response leaves the counters alone. */
  lemma PutStats(s: System, s': System, id: nat, t: Task)
    requires StatsInv(s) && s'.futures == s.futures && s'.tasks == s.tasks[id := t]
    requires var open := id in s.tasks && Has(HoldsResponse, s.tasks[id].phase);
             var stats := s.stats.(received := s'.stats.received, doubleReleases := s'.stats.doubleReleases);
             && s'.stats == stats
             && s'.stats.received + One(open) == s.stats.received + One(Has(HoldsResponse, t.phase))
    ensures StatsInv(s')
  {
    PutCounts(HoldsResponse, s.tasks, id, t);
  }

  lemma SameStats(s: System, s': System)
    requires StatsInv(s) && s'.stats == s.stats && s'.futures == s.futures && s'.tasks == s.tasks
    ensures StatsInv(s')
  {
  }

  lemma PopStats(s: System)
    requires StatsInv(s) && RequestsInv(s) && s.queue != {}
    ensures StatsInv(PopNext(s))
  {
    var e := Best(s.queue);
    if s.futures[e.id] != Cancelled { PutStats(s, PopNext(s), e.id, Task(e, Spawned)); }
  }

  lemma StatsStep(s: System, step: Step, s': System)
    requires StatsInv(s) && RequestsInv(s) && Transition(s, step, s')
    ensures StatsInv(s')
  {
    if Quiet(step) {
      QuietFrame(s, step, s');
      SameStats(s, s');
    } else if MovesTask(step) {
      TaskFrame(s, step, s');
      PutStats(s, s', step.id, s'.tasks[step.id]);
    } else if step.Pop? {
      PopStats(s);
    } else if step.Resolve? {
      ResolveStats(s, step.id);
    } else {
      HandlerStats(s, step);
    }
  }

  // ---------------------------------------------------------------- every run

  lemma InitialInv(s: System)
    requires Initial(s)
    ensures Inv(s)
  {
    forall u | u in s.lb.order ensures s.lb.inFlight[u] == Count(On(u), s.tasks) { }
    NoLoad(s.lb.order, s.lb.inFlight);
  }

  lemma {:induction false} NoLoad(urls: seq<B.Url>, load: map<B.Url, nat>)
    requires forall u :: u in urls ==> u in load && load[u] == 0
    ensures B.TotalLoad(urls, load) == 0
  {
    if urls != [] { NoLoad(urls[..|urls| - 1], load); }
  }

  lemma StepKeepsInv(s: System, step: Step, s': System)
    requires Inv(s) && Transition(s, step, s')
    ensures Inv(s')
  {
    SlotsStep(s, step, s');
    InstancesStep(s, step, s');
    RequestsStep(s, step, s');
    StatsStep(s, step, s');
  }

  /** Every reachable state of the pipeline satisfies the invariant. */
  lemma {:induction false} RunKeepsInv(states: seq<System>, steps: seq<Step>, i: nat)
    requires Run(states, steps) && i < |states|
    ensures Inv(states[i])
  {
    if i == 0 {
      InitialInv(states[0]);
    } else {
      RunKeepsInv(states, steps, i - 1);
      assert Transition(states[i - 1], steps[i - 1], states[i - 1 + 1]);
      StepKeepsInv(states[i - 1], steps[i - 1], states[i]);
    }
  }
}
