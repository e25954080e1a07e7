/**
  Progress of the pipeline: every accepted arrival and every raise of the limit pays for boundedly many
  steps, some step can always be taken while work is left, and where no step can be taken everything has
  been served.
 */
module PipelineLiveness {
  import opened Wrappers
  import C = Capacity
  import B = Balancing
  import opened Scheduling
  import opened Pipeline
  import opened PipelineInvariant

  // ---------------------------------------------------------------- a measure of the work left

  /** Steps the dispatch tasks still have to take, counted stage by stage. */
  function TaskSteps(tasks: map<nat, Task>): nat {
    Count(AtLeast(1), tasks) + Count(AtLeast(2), tasks) + Count(AtLeast(3), tasks)
    + Count(AtLeast(4), tasks) + Count(AtLeast(5), tasks)
  }

  function WorkerSteps(s: System): nat {
    match s.worker
    case Holding => 0
    case Wanting => 2
    case Discarding => 3
    case Asleep => if s.ctl.waiters != [] && s.ctl.waiters[0].notified then 1 else 0
  }

  function WorkLeft(s: System): nat {
    13 * |s.queue| + 2 * TaskSteps(s.tasks) + WorkerSteps(s) + 2 * One(s.ctl.raisePending)
    + |Ids(s.futures, Pending)|
  }

  /** Steps of the worker, the dispatch tasks and a pending `notify_all`. */
  predicate Progress(step: Step) {
    step.Acquire? || step.Rerun? || step.Pop? || step.Discard? || step.Select? || step.Send?
    || step.FreeInstance? || step.FreeSlot? || step.Resolve? || step.Broadcast?
  }

  /** Progress, or a handler giving up. */
  predicate Shrinks(step: Step) { Progress(step) || step.Expire? || step.ClientGone? }

  lemma PutSteps(tasks: map<nat, Task>, id: nat, t: Task)
    ensures TaskSteps(tasks[id := t])
            == TaskSteps(tasks) - (if id in tasks then Remaining(tasks[id].phase) else 0) + Remaining(t.phase)
  {
    PutCounts(AtLeast(1), tasks, id, t);
    PutCounts(AtLeast(2), tasks, id, t);
    PutCounts(AtLeast(3), tasks, id, t);
    PutCounts(AtLeast(4), tasks, id, t);
    PutCounts(AtLeast(5), tasks, id, t);
  }

  lemma DropSteps(tasks: map<nat, Task>, id: nat)
    requires id in tasks
    ensures TaskSteps(tasks - {id}) == TaskSteps(tasks) - Remaining(tasks[id].phase)
  {
    DropCounts(AtLeast(1), tasks, id);
    DropCounts(AtLeast(2), tasks, id);
    DropCounts(AtLeast(3), tasks, id);
    DropCounts(AtLeast(4), tasks, id);
    DropCounts(AtLeast(5), tasks, id);
  }

  lemma TaskStepShrinks(s: System, step: Step, s': System)
    requires Inv(s) && MovesTask(step) && Transition(s, step, s')
    ensures WorkLeft(s') < WorkLeft(s)
  {
    TaskFrame(s, step, s');
    TaskAdvances(s, step, s');
    TaskWorker(s, step, s');
    PutSteps(s.tasks, step.id, s'.tasks[step.id]);
  }

  /** A dispatch task's step brings it one step further; only `FreeSlot` gives the slot back. */
  lemma TaskAdvances(s: System, step: Step, s': System)
    requires MovesTask(step) && Transition(s, step, s')
    ensures step.id in s.tasks && step.id in s'.tasks && s'.worker == s.worker
    ensures Remaining(s'.tasks[step.id].phase) == Remaining(s.tasks[step.id].phase) - 1 >= 1
    ensures step.FreeSlot? <==> Remaining(s.tasks[step.id].phase) == 2
  {
  }

  /** It wakes the worker at most once. */
  lemma TaskWorker(s: System, step: Step, s': System)
    requires Inv(s) && MovesTask(step) && Transition(s, step, s')
    ensures WorkerSteps(s') <= WorkerSteps(s) + 1 && s'.ctl.raisePending == s.ctl.raisePending
  {
    if step.FreeSlot? {
      FreeSlotWorker(s, step.id, step.latencyMs);
    } else {
      assert s'.ctl == s.ctl && s'.worker == s.worker;
    }
  }

  lemma FreeSlotWorker(s: System, id: nat, latencyMs: real)
    requires Inv(s) && id in s.tasks && s.tasks[id].phase.InstanceFreed?
    ensures var s' := FreeSlotNext(s, id, latencyMs);
            WorkerSteps(s') <= WorkerSteps(s) + 1 && s'.ctl.raisePending == s.ctl.raisePending
  {
    var Task(e, InstanceFreed(outcome)) := s.tasks[id];
    assert id in Members(HOLDS_SLOT, s.tasks);
    LeaveKeeps(s.ctl, latencyMs, StatusOf(outcome), outcome.TimedOut?);
  }

  lemma PopShrinks(s: System, step: Step, s': System)
    requires Inv(s) && step.Pop? && Transition(s, step, s')
    ensures WorkLeft(s') < WorkLeft(s)
  {
    TakeShrinks(s, Best(s.queue), s');
  }

  /** An entry taken is worth more than the dispatch it starts, or the release of the worker's slot. */
  lemma TakeShrinks(s: System, e: Entry, s': System)
    requires s.worker.Holding? && e in s.queue && e.id !in s.tasks
    requires s'.queue == s.queue - {e} && s'.ctl == s.ctl && s'.futures == s.futures
    requires (s'.worker.Wanting? && s'.tasks == s.tasks[e.id := Task(e, Spawned)])
             || (s'.worker.Discarding? && s'.tasks == s.tasks)
    ensures WorkLeft(s') < WorkLeft(s)
  {
    PutSteps(s.tasks, e.id, Task(e, Spawned));
    RemoveOne(s.queue, e);
  }

  lemma RemoveOne<T>(s: set<T>, x: T)
    requires x in s
    ensures |s - {x}| == |s| - 1
  {
  }

  lemma AddOne<T>(s: set<T>, x: T)
    ensures |s + {x}| <= |s| + 1
  {
  }

  lemma ResolveShrinks(s: System, step: Step, s': System)
    requires Inv(s) && step.Resolve? && Transition(s, step, s')
    ensures WorkLeft(s') < WorkLeft(s)
  {
    assert s'.futures == s.futures || s'.futures == s.futures[step.id := Done];
    DropShrinks(s, step.id, s');
  }

  /** A dispatch that ends takes its last step with it. */
  lemma DropShrinks(s: System, id: nat, s': System)
    requires id in s.tasks && s.tasks[id].phase.SlotFreed?
    requires s'.queue == s.queue && s'.worker == s.worker && s'.ctl == s.ctl && s'.tasks == s.tasks - {id}
    requires s'.futures == s.futures || s'.futures == s.futures[id := Done]
    ensures WorkLeft(s') < WorkLeft(s)
  {
    DropSteps(s.tasks, id);
    FutureCounts(s.futures, id, Done, Pending);
  }

  lemma WorkerShrinks(s: System, step: Step, s': System)
    requires Inv(s) && Transition(s, step, s')
    requires step.Acquire? || step.Rerun? || step.Discard? || step.Broadcast?
    ensures WorkLeft(s') < WorkLeft(s)
  {
    QuietFrame(s, step, s');
    WorkerAdvances(s, step, s');
  }

  lemma WorkerAdvances(s: System, step: Step, s': System)
    requires Inv(s) && Transition(s, step, s')
    requires step.Acquire? || step.Rerun? || step.Discard? || step.Broadcast?
    ensures WorkerSteps(s') + 2 * One(s'.ctl.raisePending) < WorkerSteps(s) + 2 * One(s.ctl.raisePending)
  {
    match step
    case Acquire => AcquireAdvances(s);
    case Rerun => RerunAdvances(s);
    case Discard => DiscardAdvances(s);
    case Broadcast => BroadcastAdvances(s, s');
  }

  lemma AcquireAdvances(s: System)
    requires WorkerInv(s) && s.worker.Wanting?
    ensures WorkerSteps(AcquireNext(s)) <= 1 && AcquireNext(s).ctl.raisePending == s.ctl.raisePending
  {
  }

  lemma RerunAdvances(s: System)
    requires WorkerInv(s) && s.worker.Asleep? && s.ctl.waiters[0].notified
    ensures WorkerSteps(RerunNext(s)) == 0 && RerunNext(s).ctl.raisePending == s.ctl.raisePending
  {
    assert C.Without(s.ctl.waiters, 0) == [];
  }

  lemma BroadcastAdvances(s: System, s': System)
    requires s.ctl.raisePending && s' == s.(ctl := C.Broadcast(s.ctl))
    ensures WorkerSteps(s') <= WorkerSteps(s) + 1 && !s'.ctl.raisePending
  {
  }

  lemma DiscardAdvances(s: System)
    requires Inv(s) && s.worker.Discarding?
    ensures DiscardNext(s).worker.Wanting? && DiscardNext(s).ctl.raisePending == s.ctl.raisePending
  {
    LeaveKeeps(s.ctl, 0.0, 0, false);
  }

  lemma GivingUpShrinks(s: System, step: Step, s': System)
    requires Transition(s, step, s') && (step.Expire? || step.ClientGone?)
    ensures WorkLeft(s') < WorkLeft(s)
  {
    FutureCounts(s.futures, step.id, Cancelled, Pending);
  }

  lemma HealthKeepsWork(s: System, step: Step, s': System)
    requires Transition(s, step, s') && (step.Recover? || step.Sweep?)
    ensures WorkLeft(s') == WorkLeft(s)
  {
    QuietFrame(s, step, s');
    assert s'.ctl == s.ctl && s'.worker == s.worker;
  }

  /** Every step of the worker, of a dispatch task and of a handler giving up strictly shrinks the
      work left; the health check leaves it alone. Only arrivals and raises of the limit can add to it. */
  lemma WorkShrinks(s: System, step: Step, s': System)
    requires Inv(s) && Transition(s, step, s')
    ensures Shrinks(step) ==> WorkLeft(s') < WorkLeft(s)
    ensures step.Recover? || step.Sweep? ==> WorkLeft(s') == WorkLeft(s)
  {
    if MovesTask(step) {
      TaskStepShrinks(s, step, s');
    } else if step.Pop? {
      PopShrinks(s, step, s');
    } else if step.Resolve? {
      ResolveShrinks(s, step, s');
    } else if step.Acquire? || step.Rerun? || step.Discard? || step.Broadcast? {
      WorkerShrinks(s, step, s');
    } else if step.Expire? || step.ClientGone? {
      GivingUpShrinks(s, step, s');
    } else if step.Recover? || step.Sweep? {
      HealthKeepsWork(s, step, s');
    }
  }

  lemma ArriveWork(s: System, step: Step, s': System)
    requires step.Arrive? && Transition(s, step, s')
    ensures WorkLeft(s') <= WorkLeft(s) + 14 * One(Queues(s, step))
  {
    if Queues(s, step) {
      QueuedWork(s, step.entry, s');
    } else {
      assert s' == s.(stats := s'.stats);
    }
  }

  /** An entry queued is worth 13 steps, its handler's wait one. */
  lemma QueuedWork(s: System, e: Entry, s': System)
    requires s' == s.(queue := s.queue + {e}, futures := s.futures[e.id := Pending], stats := s'.stats)
    ensures WorkLeft(s') <= WorkLeft(s) + 14
  {
    FutureCounts(s.futures, e.id, Pending, Pending);
    AddOne(s.queue, e);
  }

  lemma AdjustWork(s: System, step: Step, s': System)
    requires step.Adjust? && Transition(s, step, s')
    ensures WorkLeft(s') <= WorkLeft(s) + 2 * One(Raises(s, s'))
  {
    QuietFrame(s, step, s');
  }

  // ---------------------------------------------------------------- raises of the limit

  function Span(c: C.Controller): int {
    if c.policy.AdaptiveLimit? then c.policy.hi - c.policy.lo else 0
  }

  /** How far the limit can still grow before another release changes the windows. */
  function RoomToGrow(c: C.Controller): int {
    if c.policy.AdaptiveLimit? && C.BranchOf(c).Grow? then c.policy.hi - c.limit else 0
  }

  /** Releases that requests already accepted will still make. */
  function ReleasesLeft(s: System): nat {
    |s.queue| + Count(HOLDS_SLOT, s.tasks) + One(s.worker.Discarding?)
  }

  /** Raises that requests already accepted leave room for: between two releases the windows are
      fixed, so the limit only moves one way. */
  function RaisesLeft(s: System): int { Span(s.ctl) * ReleasesLeft(s) + RoomToGrow(s.ctl) }

  predicate Raises(s: System, s': System) { s'.ctl.limit > s.ctl.limit }

  /** An arrival that is not rejected. */
  predicate Queues(s: System, step: Step) { step.Arrive? && Projected(s).None? }

  lemma RoomWithinSpan(c: C.Controller)
    requires C.PolicyOk(c)
    ensures 0 <= RoomToGrow(c) <= Span(c)
  {
  }

  lemma SameRoom(c: C.Controller, c': C.Controller)
    requires c'.policy == c.policy && c'.limit == c.limit
    requires c'.latency == c.latency && c'.timeouts == c.timeouts && c'.errors == c.errors
    ensures RoomToGrow(c') == RoomToGrow(c)
  {
  }

  lemma AdjustRoom(c: C.Controller, op: C.Op)
    requires C.PolicyOk(c) && op.AdjustOp? && C.Enabled(c, op)
    ensures var c' := C.Apply(c, op);
            && c'.policy == c.policy
            && One(c'.limit > c.limit) + RoomToGrow(c') <= RoomToGrow(c)
  {
    C.AdjustBounds(c, op.clock, op.err);
    RoomWithinSpan(c);
    if op.now >= c.cooldownUntil {
      assert C.BranchOf(C.Adjust(c, op.clock, op.err)) == C.BranchOf(c);
    }
  }

  predicate Releases(step: Step) { step.FreeSlot? || step.Discard? }

  lemma TaskReleases(s: System, step: Step, s': System)
    requires Inv(s) && MovesTask(step) && Transition(s, step, s')
    ensures ReleasesLeft(s') == ReleasesLeft(s) - One(step.FreeSlot?)
  {
    TaskFrame(s, step, s');
    TaskAdvances(s, step, s');
    PutHolds(s.tasks, step.id, s'.tasks[step.id]);
  }

  lemma PutHolds(tasks: map<nat, Task>, id: nat, t: Task)
    requires id in tasks
    ensures Count(HOLDS_SLOT, tasks[id := t])
            == Count(HOLDS_SLOT, tasks) - One(Remaining(tasks[id].phase) >= 2) + One(Remaining(t.phase) >= 2)
  {
    PutCounts(HOLDS_SLOT, tasks, id, t);
  }

  lemma PopReleases(s: System)
    requires Inv(s) && s.worker.Holding? && s.queue != {}
    ensures ReleasesLeft(PopNext(s)) == ReleasesLeft(s)
  {
    var e := Best(s.queue);
    PutCounts(HOLDS_SLOT, s.tasks, e.id, Task(e, Spawned));
    RemoveOne(s.queue, e);
  }

  lemma ResolveReleases(s: System, id: nat)
    requires id in s.tasks && s.tasks[id].phase.SlotFreed?
    ensures ReleasesLeft(ResolveNext(s, id)) == ReleasesLeft(s)
  {
    DropCounts(HOLDS_SLOT, s.tasks, id);
    assert !Has(HOLDS_SLOT, s.tasks[id].phase);
  }

  lemma QuietReleases(s: System, step: Step, s': System)
    requires Quiet(step) && Transition(s, step, s')
    ensures ReleasesLeft(s') == ReleasesLeft(s) - One(step.Discard?)
  {
    QuietFrame(s, step, s');
  }

  lemma ArriveReleases(s: System, e: Entry)
    ensures ReleasesLeft(ArriveNext(s, e)) <= ReleasesLeft(s) + One(Queues(s, Arrive(e)))
  {
    AddOne(s.queue, e);
  }

  lemma ReleasesStep(s: System, step: Step, s': System)
    requires Inv(s) && Transition(s, step, s')
    ensures ReleasesLeft(s') <= ReleasesLeft(s) + One(Queues(s, step)) - One(Releases(step))
  {
    if Quiet(step) {
      QuietReleases(s, step, s');
    } else if MovesTask(step) {
      TaskReleases(s, step, s');
    } else if step.Pop? {
      PopReleases(s);
    } else if step.Resolve? {
      ResolveReleases(s, step.id);
    } else if step.Arrive? {
      ArriveReleases(s, step.entry);
    }
  }

  /** Only a release changes the windows, and only the adjust loop the limit. */
  lemma ControllerStep(s: System, step: Step, s': System)
    requires Transition(s, step, s')
    ensures s'.ctl.policy == s.ctl.policy
    ensures !step.Adjust? ==> s'.ctl.limit == s.ctl.limit
    ensures !Releases(step) ==>
      s'.ctl.latency == s.ctl.latency && s'.ctl.timeouts == s.ctl.timeouts && s'.ctl.errors == s.ctl.errors
  {
  }

  lemma RoomStep(s: System, step: Step, s': System)
    requires C.PolicyOk(s.ctl) && C.PolicyOk(s'.ctl) && Transition(s, step, s')
    ensures Span(s'.ctl) == Span(s.ctl)
    ensures One(Raises(s, s')) + RoomToGrow(s'.ctl) <= RoomToGrow(s.ctl) + if Releases(step) then Span(s.ctl) else 0
  {
    ControllerStep(s, step, s');
    RoomWithinSpan(s.ctl);
    RoomWithinSpan(s'.ctl);
    if step.Adjust? {
      AdjustRoom(s.ctl, C.AdjustOp(step.now, step.clock, step.err));
    } else if !Releases(step) {
      SameRoom(s.ctl, s'.ctl);
    }
  }

  lemma SpanTimes(span: int, releases: int, queued: nat, released: nat, releases': int)
    requires 0 <= span && releases' <= releases + queued - released
    ensures span * releases' <= span * releases + span * queued - span * released
  {
    MulMonotone(span, releases', releases + queued - released);
    assert span * (releases + queued - released) == span * releases + span * queued - span * released;
  }

  lemma MulMonotone(n: int, x: int, y: int)
    requires 0 <= n && x <= y
    ensures n * x <= n * y
  {
  }

  lemma RaisesStep(s: System, step: Step, s': System)
    requires Inv(s) && Inv(s') && Transition(s, step, s')
    ensures RaisePaid(s, step, s')
  {
    RoomStep(s, step, s');
    ReleasesStep(s, step, s');
    RoomWithinSpan(s.ctl);
    SpanTimes(Span(s.ctl), ReleasesLeft(s), One(Queues(s, step)), One(Releases(step)), ReleasesLeft(s'));
  }

  // ---------------------------------------------------------------- every run is paid for

  /** Steps of worker, dispatches and handlers giving up; accepted arrivals; raises of the limit. */
  datatype Tally = Tally(shrinking: nat, queued: nat, raised: nat)

  function Tallied(states: seq<System>, steps: seq<Step>, from: nat, upto: nat): Tally
    requires from <= upto <= |steps| < |states|
  {
    if from == upto then Tally(0, 0, 0)
    else
      var t := Tallied(states, steps, from, upto - 1);
      var s, step := states[upto - 1], steps[upto - 1];
      Tally(t.shrinking + One(Shrinks(step)), t.queued + One(Queues(s, step)), t.raised + One(Raises(s, states[upto])))
  }

  /** A step takes the work left from `before` to `after` at most. */
  ghost predicate Pays(s: System, step: Step, s': System, before: int, after: int) {
    One(Shrinks(step)) + after <= before + 14 * One(Queues(s, step)) + 2 * One(Raises(s, s'))
  }

  ghost predicate RaisePaid(s: System, step: Step, s': System) {
    && Span(s'.ctl) == Span(s.ctl)
    && One(Raises(s, s')) + RaisesLeft(s') <= RaisesLeft(s) + Span(s.ctl) * One(Queues(s, step))
  }

  lemma WorkStep(s: System, step: Step, s': System)
    requires Inv(s) && Transition(s, step, s')
    ensures Pays(s, step, s', WorkLeft(s), WorkLeft(s'))
  {
    if step.Arrive? {
      ArriveWork(s, step, s');
    } else if step.Adjust? {
      AdjustWork(s, step, s');
    } else {
      WorkShrinks(s, step, s');
    }
  }

  lemma WorkIsPaid(states: seq<System>, steps: seq<Step>, work: seq<int>, i: nat)
    requires Run(states, steps) && i < |steps| && |work| == |states|
    requires work[i] == WorkLeft(states[i]) && work[i + 1] == WorkLeft(states[i + 1])
    ensures Pays(states[i], steps[i], states[i + 1], work[i], work[i + 1])
  {
    RunKeepsInv(states, steps, i);
    assert Transition(states[i], steps[i], states[i + 1]);
    WorkStep(states[i], steps[i], states[i + 1]);
  }

  lemma RaiseIsPaid(states: seq<System>, steps: seq<Step>, i: nat)
    requires Run(states, steps) && i < |steps|
    ensures RaisePaid(states[i], steps[i], states[i + 1])
  {
    RunKeepsInv(states, steps, i);
    RunKeepsInv(states, steps, i + 1);
    assert Transition(states[i], steps[i], states[i + 1]);
    RaisesStep(states[i], steps[i], states[i + 1]);
  }

  lemma {:induction false} WorkIsPaidFor(states: seq<System>, steps: seq<Step>, work: seq<int>, from: nat, upto: nat)
    requires |states| == |work| == |steps| + 1 && from <= upto <= |steps|
    requires forall k {:trigger steps[k]} :: from <= k < upto ==>
      Pays(states[k], steps[k], states[k + 1], work[k], work[k + 1])
    ensures var t := Tallied(states, steps, from, upto);
            t.shrinking + work[upto] <= work[from] + 14 * t.queued + 2 * t.raised
  {
    if from < upto {
      WorkIsPaidFor(states, steps, work, from, upto - 1);
      assert Pays(states[upto - 1], steps[upto - 1], states[upto - 1 + 1], work[upto - 1], work[upto - 1 + 1]);
    }
  }

  lemma OneMore(span: int, n: nat, more: nat)
    ensures span * (n + more) == span * n + span * more
  {
  }

  lemma {:induction false} RaisesArePaidFor(states: seq<System>, steps: seq<Step>, from: nat, upto: nat)
    requires |states| == |steps| + 1 && from <= upto <= |steps|
    requires forall k {:trigger steps[k]} :: from <= k < upto ==> RaisePaid(states[k], steps[k], states[k + 1])
    ensures var t := Tallied(states, steps, from, upto);
            && Span(states[upto].ctl) == Span(states[from].ctl)
            && t.raised + RaisesLeft(states[upto]) <= RaisesLeft(states[from]) + Span(states[from].ctl) * t.queued
  {
    if from < upto {
      RaisesArePaidFor(states, steps, from, upto - 1);
      assert RaisePaid(states[upto - 1], steps[upto - 1], states[upto - 1 + 1]);
      OneMore(Span(states[from].ctl), Tallied(states, steps, from, upto - 1).queued,
              One(Queues(states[upto - 1], steps[upto - 1])));
    }
  }

  lemma WorkIsBounded(states: seq<System>, steps: seq<Step>, from: nat, upto: nat)
    requires Run(states, steps) && from <= upto < |states|
    ensures var t := Tallied(states, steps, from, upto);
            t.shrinking + WorkLeft(states[upto]) <= WorkLeft(states[from]) + 14 * t.queued + 2 * t.raised
  {
    var work := seq(|states|, i requires 0 <= i < |states| => WorkLeft(states[i]));
    forall k {:trigger steps[k]} | from <= k < upto
      ensures Pays(states[k], steps[k], states[k + 1], work[k], work[k + 1])
    {
      WorkIsPaid(states, steps, work, k);
    }
    WorkIsPaidFor(states, steps, work, from, upto);
  }

  lemma RaisesAreBounded(states: seq<System>, steps: seq<Step>, from: nat, upto: nat)
    requires Run(states, steps) && from <= upto < |states|
    ensures var t := Tallied(states, steps, from, upto);
            t.raised + RaisesLeft(states[upto]) <= RaisesLeft(states[from]) + Span(states[from].ctl) * t.queued
    ensures 0 <= RaisesLeft(states[upto])
  {
    forall k {:trigger steps[k]} | from <= k < upto
      ensures RaisePaid(states[k], steps[k], states[k + 1])
    {
      RaiseIsPaid(states, steps, k);
    }
    RaisesArePaidFor(states, steps, from, upto);
    RunKeepsInv(states, steps, upto);
    RoomWithinSpan(states[upto].ctl);
    MulMonotone(Span(states[upto].ctl), 0, ReleasesLeft(states[upto]));
  }

  /** Termination, on every run and with the adjust loop always turning: each accepted arrival pays for
      14 steps and each raise of the limit for 2, and the raises too are bounded by the state and the
      arrivals since. So once arrivals stop, the worker, the dispatches and the handlers giving up take
      at most `WorkLeft + 2 * RaisesLeft` more steps, however everything is interleaved. */
  lemma BoundedWork(states: seq<System>, steps: seq<Step>, from: nat, upto: nat)
    requires Run(states, steps) && from <= upto < |states|
    ensures var t := Tallied(states, steps, from, upto);
            && t.shrinking + WorkLeft(states[upto]) <= WorkLeft(states[from]) + 14 * t.queued + 2 * t.raised
            && t.raised + RaisesLeft(states[upto]) <= RaisesLeft(states[from]) + Span(states[from].ctl) * t.queued
            && 0 <= RaisesLeft(states[upto])
            && (t.queued == 0 ==> t.shrinking <= WorkLeft(states[from]) + 2 * RaisesLeft(states[from]))
  {
    WorkIsBounded(states, steps, from, upto);
    RaisesAreBounded(states, steps, from, upto);
  }

  // ---------------------------------------------------------------- no deadlock

  ghost predicate Settled(s: System) {
    forall step :: Progress(step) ==> !Enabled(s, step)
  }

  /** The step a dispatch task can take next. */
  function NextOf(id: nat, task: Task): Step {
    match task.phase
    case Spawned => Select(id, 0.0, 0.0)
    case Sending(_) => Send(id, OtherHttpError)
    case Finished(_, _) => FreeInstance(id, 0.0)
    case InstanceFreed(_) => FreeSlot(id, 0.0)
    case SlotFreed(_) => Resolve(id)
  }

  /** A step some part of the pipeline can take, as long as there is one. */
  ghost function Ready(s: System): Option<Step>
    requires Inv(s)
  {
    if s.tasks.Keys != {} then
      var id :| id in s.tasks.Keys;
      Some(NextOf(id, s.tasks[id]))
    else
      match s.worker
      case Wanting => Some(Acquire)
      case Discarding => Some(Discard)
      case Holding => if s.queue != {} then Some(Pop) else if s.ctl.raisePending then Some(Broadcast) else None
      case Asleep => if s.ctl.raisePending then Some(Broadcast) else Some(Rerun)
  }

  lemma NextOfIsEnabled(s: System, id: nat)
    requires id in s.tasks
    ensures Progress(NextOf(id, s.tasks[id])) && Enabled(s, NextOf(id, s.tasks[id]))
  {
  }

  lemma SleeperIsNotified(s: System)
    requires SlotsInv(s) && WorkerInv(s) && s.tasks.Keys == {} && s.worker.Asleep? && !s.ctl.raisePending
    ensures s.ctl.waiters != [] && s.ctl.waiters[0].notified
  {
    assert Members(HOLDS_SLOT, s.tasks) == {};
    assert s.ctl.inFlight == 0 && C.NoLostWakeup(s.ctl);
    assert C.NotifiedCount(s.ctl.waiters[1..]) == 0;
  }

  lemma ReadyIsEnabled(s: System)
    requires Inv(s)
    ensures Ready(s).Some? ==> Progress(Ready(s).value) && Enabled(s, Ready(s).value)
    ensures Ready(s).None? ==> s.tasks == map[] && s.worker.Holding? && s.queue == {} && !s.ctl.raisePending
  {
    if s.tasks.Keys == {} {
      if s.worker.Asleep? && !s.ctl.raisePending { SleeperIsNotified(s); }
    } else {
      forall id | id in s.tasks.Keys
        ensures Progress(NextOf(id, s.tasks[id])) && Enabled(s, NextOf(id, s.tasks[id]))
      {
        NextOfIsEnabled(s, id);
      }
    }
  }

  /** Everything has been served: the queue is empty, no task is left, no handler waits, no
      instance carries load, every response was handed over or closed, and the one slot in use is
      the idle worker's. */
  ghost predicate Served(s: System) {
    && s.queue == {} && s.tasks == map[] && s.worker.Holding?
    && s.ctl.inFlight == 1
    && (forall id :: id in s.futures ==> s.futures[id] != Pending)
    && B.WellFormed(s.lb) && (forall u :: u in s.lb.order ==> s.lb.inFlight[u] == 0)
    && s.stats.received == s.stats.handed + s.stats.closed
    && s.stats.requests == s.stats.admitted + s.stats.waitExceeded + s.stats.queueFull
                           + s.stats.queueTimeout + s.stats.clientGone
  }

  lemma NothingLeft(s: System)
    requires Inv(s) && s.tasks == map[] && s.worker.Holding? && s.queue == {}
    ensures Served(s)
  {
    assert Members(HOLDS_SLOT, s.tasks) == {};
    assert Members(HoldsResponse, s.tasks) == {};
    assert QueuedIds(s.queue) == {};
    assert Ids(s.futures, Pending) == {};
    forall u | u in s.lb.order ensures s.lb.inFlight[u] == 0 {
      assert Members(On(u), s.tasks) == {};
    }
  }

  /** Deadlock freedom: a reachable state in which nothing can move has served everybody. */
  lemma SettledMeansServed(states: seq<System>, steps: seq<Step>, i: nat)
    requires Run(states, steps) && i < |states| && Settled(states[i])
    ensures Served(states[i])
  {
    RunKeepsInv(states, steps, i);
    ReadyIsEnabled(states[i]);
    assert Ready(states[i]).None?;
    NothingLeft(states[i]);
  }

  /** A run of the pipeline's own steps, from a state on. */
  ghost predicate OwnRun(states: seq<System>, steps: seq<Step>) {
    && |states| == |steps| + 1
    && (steps == [] ||
        (Progress(steps[0]) && Transition(states[0], steps[0], states[1]) && OwnRun(states[1..], steps[1..])))
  }

  lemma Prepend(s: System, step: Step, states: seq<System>, steps: seq<Step>)
    requires OwnRun(states, steps) && Progress(step) && Transition(s, step, states[0])
    ensures OwnRun([s] + states, [step] + steps)
  {
    assert ([s] + states)[1..] == states && ([step] + steps)[1..] == steps;
  }

  /** From every reachable state the pipeline can run, on its own steps alone, until everybody is
      served, within the work left. */
  lemma {:induction false} CanAlwaysFinish(s: System) returns (states: seq<System>, steps: seq<Step>)
    requires Inv(s)
    ensures OwnRun(states, steps) && states[0] == s
    ensures |steps| <= WorkLeft(s)
    ensures Served(states[|steps|])
    decreases WorkLeft(s)
  {
    ReadyIsEnabled(s);
    if Ready(s).None? {
      NothingLeft(s);
      states, steps := [s], [];
    } else {
      var step := Ready(s).value;
      var s' := TakeStep(s, step);
      var rest, more := CanAlwaysFinish(s');
      Prepend(s, step, rest, more);
      states, steps := [s] + rest, [step] + more;
    }
  }

  lemma TakeStep(s: System, step: Step) returns (s': System)
    requires Inv(s) && Progress(step) && Enabled(s, step)
    ensures Transition(s, step, s') && Inv(s') && WorkLeft(s') < WorkLeft(s)
  {
    s' := Next(s, step);
    StepKeepsInv(s, step, s');
    WorkShrinks(s, step, s');
  }

  // ---------------------------------------------------------------- a timeout after dispatch

  /** The first request of all is queued and the worker takes a slot for it. */
  lemma FirstQueued(s: System, e: Entry) returns (s1: System, s2: System)
    requires Initial(s)
    ensures Transition(s, Arrive(e), s1) && Transition(s1, Acquire, s2)
    ensures s2.worker.Holding? && s2.queue == {e} && s2.futures == map[e.id := Pending] && s2.tasks == map[]
    ensures s2.lb == s.lb && s2.stats.queueTimeout == 0 && s2.stats.admitted == 0
  {
    s1 := Next(s, Arrive(e));
    s2 := Next(s1, Acquire);
  }

  /** It is popped and sent to an instance. */
  lemma FirstSent(s: System, e: Entry) returns (s1: System, s2: System)
    requires s.worker.Holding? && s.queue == {e} && s.futures == map[e.id := Pending] && s.tasks == map[]
    requires B.WellFormed(s.lb)
    ensures Transition(s, Pop, s1) && Transition(s1, Select(e.id, 0.0, 0.0), s2)
    ensures e.id in s2.tasks && s2.tasks[e.id].phase.Sending?
    ensures s2.futures == s.futures && s2.stats == s.stats && B.WellFormed(s2.lb) && DistinctKeys(s2.queue)
  {
    s1 := Next(s, Pop);
    assert s1.tasks == map[e.id := Task(e, Spawned)];
    s2 := Next(s1, Select(e.id, 0.0, 0.0));
    B.SelectKeepsWellFormed(s1.lb, e.ip, Some(s1.ctl.limit), 0.0, 0.0);
  }

  lemma AppendStep(states: seq<System>, steps: seq<Step>, step: Step, s': System)
    requires Run(states, steps) && Transition(states[|steps|], step, s')
    ensures Run(states + [s'], steps + [step])
  {
    forall i {:trigger (steps + [step])[i]} | 0 <= i < |steps + [step]|
      ensures Transition((states + [s'])[i], (steps + [step])[i], (states + [s'])[i + 1])
    {
      if i < |steps| { assert Transition(states[i], steps[i], states[i + 1]); }
    }
  }

  lemma RunToQueued(s: System, e: Entry) returns (states: seq<System>, steps: seq<Step>)
    requires Initial(s)
    ensures Run(states, steps) && states[0] == s && |steps| == 2
    ensures var q := states[2];
            && q.worker.Holding? && q.queue == {e} && q.futures == map[e.id := Pending] && q.tasks == map[]
            && B.WellFormed(q.lb) && q.stats.queueTimeout == 0 && q.stats.admitted == 0
  {
    var s1, s2 := FirstQueued(s, e);
    AppendStep([s], [], Arrive(e), s1);
    AppendStep([s] + [s1], [] + [Arrive(e)], Acquire, s2);
    states, steps := [s] + [s1] + [s2], [] + [Arrive(e)] + [Acquire];
  }

  lemma RunToSent(s: System, e: Entry) returns (states: seq<System>, steps: seq<Step>)
    requires Initial(s)
    ensures Run(states, steps) && states[0] == s && |steps| == 4
    ensures var q := states[4];
            && e.id in q.tasks && q.tasks[e.id].phase.Sending? && q.futures == map[e.id := Pending]
            && B.WellFormed(q.lb) && DistinctKeys(q.queue) && q.stats.queueTimeout == 0 && q.stats.admitted == 0
  {
    var before, taken := RunToQueued(s, e);
    var s3, s4 := FirstSent(before[2], e);
    AppendStep(before, taken, Pop, s3);
    AppendStep(before + [s3], taken + [Pop], Select(e.id, 0.0, 0.0), s4);
    states, steps := before + [s3] + [s4], taken + [Pop] + [Select(e.id, 0.0, 0.0)];
  }

  /** The handler's wait also covers the backend: from any start, the very first request can be
      dispatched to an instance and still be rejected with `queue_timeout`. */
  lemma TimeoutAfterDispatch(s: System, e: Entry) returns (states: seq<System>, steps: seq<Step>)
    requires Initial(s)
    ensures Run(states, steps) && states[0] == s
    ensures |steps| == 5 && steps[4] == Expire(e.id)
    ensures e.id in states[4].tasks && states[4].tasks[e.id].phase.Sending?
    ensures states[5].stats.queueTimeout == 1 && states[5].stats.admitted == 0
  {
    var before, taken := RunToSent(s, e);
    var s5 := ExpireNext(before[4], e.id);
    AppendStep(before, taken, Expire(e.id), s5);
    states, steps := before + [s5], taken + [Expire(e.id)];
  }
}
