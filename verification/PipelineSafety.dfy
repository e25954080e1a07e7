/**
  Safety of the pipeline over whole runs: conservation, fair share across components, priority
  order, exactly-once outcomes, and what a queue timeout does and does not mean.
 */
module PipelineSafety {
  import opened Wrappers
  import C = Capacity
  import B = Balancing
  import opened Scheduling
  import opened Pipeline
  import opened PipelineInvariant

  // ---------------------------------------------------------------- conservation

  lemma LimitStep(s: System, step: Step, s': System)
    requires Transition(s, step, s')
    ensures s'.ctl.policy == s.ctl.policy && (s.ctl.policy.FixedLimit? ==> s'.ctl.limit == s.ctl.limit)
  {
  }

  lemma {:induction false} LimitFixed(states: seq<System>, steps: seq<Step>, i: nat)
    requires Run(states, steps) && i < |states|
    ensures states[i].ctl.policy == states[0].ctl.policy
    ensures states[0].ctl.policy.FixedLimit? ==> states[i].ctl.limit == states[0].ctl.limit
  {
    if i > 0 {
      LimitFixed(states, steps, i - 1);
      assert Transition(states[i - 1], steps[i - 1], states[i - 1 + 1]);
      LimitStep(states[i - 1], steps[i - 1], states[i]);
    }
  }

  /** In every reachable state the slots in use are the dispatches that have not released theirs,
      plus the one an idle or discarding worker holds; each instance's load is the dispatches
      between `select` and `release` on it; and no instance was ever released twice. */
  lemma SlotsAndInstancesConserved(states: seq<System>, steps: seq<Step>, i: nat)
    requires Run(states, steps) && i < |states|
    ensures var s := states[i];
            && s.ctl.inFlight == Count(HOLDS_SLOT, s.tasks) + One(s.worker.Holding? || s.worker.Discarding?)
            && 0 <= s.ctl.inFlight <= states[0].ctl.Ceiling()
            && B.WellFormed(s.lb) && LoadsMatch(s.lb, s.tasks)
            && s.stats.doubleReleases == 0
  {
    RunKeepsInv(states, steps, i);
    LimitFixed(states, steps, i);
  }

  /** The worker is never left asleep beside a free slot: while it sleeps unnotified, either every
      slot of the limit is taken or a raised limit's `notify_all` is still to come. */
  lemma WorkerNeverStranded(states: seq<System>, steps: seq<Step>, i: nat)
    requires Run(states, steps) && i < |states| && states[i].worker.Asleep?
    ensures var c := states[i].ctl;
            && |c.waiters| == 1
            && (c.waiters[0].notified || c.raisePending || c.inFlight >= c.limit)
  {
    RunKeepsInv(states, steps, i);
    assert C.NotifiedCount(states[i].ctl.waiters[1..]) == 0;
  }

  /** `set_result` is never called on a done future; every upstream response received was handed to
      a live future or closed, or is still with its dispatch; and every request counted is accounted
      for: admitted, rejected for one of the three reasons, abandoned by its client, or waiting. */
  lemma OutcomesExactlyOnce(states: seq<System>, steps: seq<Step>, i: nat)
    requires Run(states, steps) && i < |states|
    ensures var t := states[i].stats;
            && t.doubleResolves == 0
            && t.received == t.handed + t.closed + Count(HoldsResponse, states[i].tasks)
            && t.requests == t.admitted + (t.waitExceeded + t.queueFull + t.queueTimeout) + t.clientGone
                             + |Ids(states[i].futures, Pending)|
            && t.inflightGauge == |Ids(states[i].futures, Pending)|
  {
    RunKeepsInv(states, steps, i);
  }

  // ---------------------------------------------------------------- fair share

  /** At every `select` the dispatch doing it holds a slot but no instance, so fewer requests are on
      instances than slots are in use. */
  lemma LoadBelowSlots(s: System, id: nat)
    requires Inv(s) && id in s.tasks && s.tasks[id].phase.Spawned?
    ensures B.TotalLoad(s.lb.order, s.lb.inFlight) < s.ctl.inFlight
  {
    SubCount(OnInstance, HOLDS_SLOT, s.tasks, id);
  }

  /** Whenever the slots in use are within the limit, which a fixed controller guarantees always,
      `select` takes an instance below its fair share of the limit, pinned or not: the case of a pin
      kept because everybody is saturated is unreachable. */
  lemma SelectBelowFairShare(states: seq<System>, steps: seq<Step>, i: nat)
    requires Run(states, steps) && i < |steps| && steps[i].Select?
    requires states[i].ctl.policy.FixedLimit? || states[i].ctl.inFlight <= states[i].ctl.limit
    ensures B.WellFormed(states[i].lb) && steps[i].id in states[i].tasks
    ensures var s := states[i];
            var url := B.Choice(s.lb, s.tasks[steps[i].id].entry.ip, Some(s.ctl.limit), steps[i].now);
            && url in B.ActivePool(s.lb)
            && |B.ActivePool(s.lb)| * s.lb.inFlight[url] < s.ctl.limit
  {
    var s := states[i];
    assert Transition(states[i], steps[i], states[i + 1]);
    RunKeepsInv(states, steps, i);
    LoadBelowSlots(s, steps[i].id);
    B.ChoiceBelowShare(s.lb, s.tasks[steps[i].id].entry.ip, s.ctl.limit, steps[i].now);
  }

  /** Only `select` adds load, and only to the instance it chooses. */
  lemma SelectLoad(s: System, step: Step, s': System, u: B.Url)
    requires step.Select? && Transition(s, step, s') && u in s.lb.order
    ensures s'.lb.order == s.lb.order && u in s'.lb.inFlight
    ensures s'.lb.inFlight[u] == s.lb.inFlight[u]
              + One(u == B.Choice(s.lb, s.tasks[step.id].entry.ip, Some(s.ctl.limit), step.now))
  {
    assert u in s.lb.inFlight;
  }

  lemma ReleaseLoad(lb: B.Balancer, url: B.Url, connectFailed: bool, clock: real, u: B.Url)
    requires B.WellFormed(lb) && u in lb.order
    ensures var lb' := B.Release(lb, url, connectFailed, clock);
            lb'.order == lb.order && u in lb.inFlight && u in lb'.inFlight && lb'.inFlight[u] <= lb.inFlight[u]
  {
  }

  lemma OtherLoad(s: System, step: Step, s': System, u: B.Url)
    requires !step.Select? && Transition(s, step, s') && u in s.lb.order
    ensures s'.lb.order == s.lb.order && u in s'.lb.inFlight && s'.lb.inFlight[u] <= s.lb.inFlight[u]
  {
    if step.FreeInstance? {
      var Task(e, Finished(url, outcome)) := s.tasks[step.id];
      ReleaseLoad(s.lb, url, outcome.ConnectFailed?, step.clock, u);
    }
  }

  ghost function PoolSize(s: System): nat {
    if B.WellFormed(s.lb) then |B.ActivePool(s.lb)| else 0
  }

  lemma {:induction false} LoadWithinShare(
    states: seq<System>, steps: seq<Step>, i: nat, smallest: nat, u: B.Url)
    requires Run(states, steps) && i < |states| && states[0].ctl.policy.FixedLimit?
    requires 0 < smallest
    requires forall k :: 0 <= k < i && steps[k].Select? ==> smallest <= PoolSize(states[k])
    requires u in states[0].lb.order
    ensures states[i].lb.order == states[0].lb.order && u in states[i].lb.inFlight
    ensures states[i].lb.inFlight[u] <= B.CeilDiv(states[0].ctl.limit, smallest)
    decreases i
  {
    if i == 0 {
      RunKeepsInv(states, steps, 0);
      B.CeilDivAntitone(states[0].ctl.limit, smallest, smallest);
      IdleLoads(states[0], u);
    } else {
      LoadWithinShare(states, steps, i - 1, smallest, u);
      LimitFixed(states, steps, i - 1);
      ShareStep(states, steps, i - 1, smallest, u);
    }
  }

  /** Under a fixed limit, while every pool `select` has seen had at least `smallest` candidates, no
      instance ever carries more than its share of the limit among that many: at most `ceil(limit /
      smallest)`, which is to say that one request fewer is below the share. */
  lemma InstanceNeverAboveShare(states: seq<System>, steps: seq<Step>, i: nat, smallest: nat, u: B.Url)
    requires Run(states, steps) && i < |states| && states[0].ctl.policy.FixedLimit?
    requires 0 < smallest
    requires forall k :: 0 <= k < i && steps[k].Select? ==> smallest <= PoolSize(states[k])
    requires u in states[0].lb.order
    ensures states[i].lb.order == states[0].lb.order && u in states[i].lb.inFlight
    ensures states[i].lb.inFlight[u] <= B.CeilDiv(states[0].ctl.limit, smallest)
    ensures smallest * states[i].lb.inFlight[u] < states[0].ctl.limit + smallest
  {
    LoadWithinShare(states, steps, i, smallest, u);
    B.ShareBoundaries(states[i].lb.inFlight[u], states[0].ctl.limit, smallest);
  }

  lemma IdleLoads(s: System, u: B.Url)
    requires Initial(s) && u in s.lb.order
    ensures u in s.lb.inFlight && s.lb.inFlight[u] == 0
  {
  }

  lemma ShareStep(states: seq<System>, steps: seq<Step>, i: nat, smallest: nat, u: B.Url)
    requires Run(states, steps) && i < |steps| && states[i].ctl.policy.FixedLimit?
    requires 0 < smallest && (steps[i].Select? ==> smallest <= PoolSize(states[i]))
    requires u in states[i].lb.order && u in states[i].lb.inFlight
    requires states[i].lb.inFlight[u] <= B.CeilDiv(states[i].ctl.limit, smallest)
    ensures states[i + 1].lb.order == states[i].lb.order && u in states[i + 1].lb.inFlight
    ensures states[i + 1].lb.inFlight[u] <= B.CeilDiv(states[i].ctl.limit, smallest)
  {
    var s := states[i];
    assert Transition(s, steps[i], states[i + 1]);
    if !steps[i].Select? {
      OtherLoad(s, steps[i], states[i + 1], u);
    } else {
      SelectLoad(s, steps[i], states[i + 1], u);
      SelectBelowFairShare(states, steps, i);
      RunKeepsInv(states, steps, i);
      B.ShareBoundaries(s.lb.inFlight[u], s.ctl.limit, |B.ActivePool(s.lb)|);
      B.CeilDivAntitone(s.ctl.limit, |B.ActivePool(s.lb)|, smallest);
    }
  }

  // ---------------------------------------------------------------- priority

  lemma QueueStep(s: System, step: Step, s': System)
    requires Transition(s, step, s') && !step.Arrive?
    ensures step.Pop? ==> s.queue != {} && s'.queue == s.queue - {Best(s.queue)}
    ensures !step.Pop? ==> s'.queue == s.queue
  {
  }

  lemma QueueGrowth(s: System, step: Step, s': System)
    requires Transition(s, step, s')
    ensures forall e :: e in s'.queue && e !in s.queue ==> step == Arrive(e) && e.id !in s.futures
    ensures forall id :: id in s.futures ==> id in s'.futures
  {
    if Quiet(step) {
      QuietFrame(s, step, s');
    } else if MovesTask(step) {
      TaskFrame(s, step, s');
    }
  }

  /** Settled requests (no longer queued) never come back to the queue. */
  lemma LeftQueueStep(s: System, step: Step, s': System, id: nat)
    requires Transition(s, step, s') && id in s.futures && id !in QueuedIds(s.queue)
    ensures id in s'.futures && id !in QueuedIds(s'.queue)
  {
    QueueGrowth(s, step, s');
  }

  lemma {:induction false} LeftQueueForever(states: seq<System>, steps: seq<Step>, k: nat, i: nat, id: nat)
    requires Run(states, steps) && k <= i < |states|
    requires id in states[k].futures && id !in QueuedIds(states[k].queue)
    ensures id in states[i].futures && id !in QueuedIds(states[i].queue)
  {
    if k < i {
      LeftQueueForever(states, steps, k, i - 1, id);
      assert Transition(states[i - 1], steps[i - 1], states[i - 1 + 1]);
      LeftQueueStep(states[i - 1], steps[i - 1], states[i], id);
    }
  }

  lemma PopLeaves(s: System, step: Step, s': System)
    requires Inv(s) && step.Pop? && Transition(s, step, s')
    ensures s.queue != {}
    ensures Best(s.queue).id in s'.futures && Best(s.queue).id !in QueuedIds(s'.queue)
  {
    QueueStep(s, step, s');
    assert s'.futures == s.futures;
  }

  lemma PoppedOnce(states: seq<System>, steps: seq<Step>, i: nat, j: nat)
    requires Run(states, steps) && i < j < |steps| && steps[i].Pop? && steps[j].Pop?
    ensures DistinctKeys(states[i].queue) && states[i].queue != {}
    ensures DistinctKeys(states[j].queue) && states[j].queue != {}
    ensures Best(states[i].queue).id != Best(states[j].queue).id
  {
    RunKeepsInv(states, steps, i);
    assert Transition(states[i], steps[i], states[i + 1]);
    assert Transition(states[j], steps[j], states[j + 1]);
    PopLeaves(states[i], steps[i], states[i + 1]);
    LeftQueueForever(states, steps, i + 1, j, Best(states[i].queue).id);
    assert Best(states[j].queue).id in QueuedIds(states[j].queue);
  }

  /** No request is popped twice, and there is no priority inversion: when `a` is popped before `b`
      although `b` was queued already, `a` has the higher score, or arrived earlier with the same one. The
      queue never exceeds its bound. */
  lemma NoPriorityInversion(states: seq<System>, steps: seq<Step>, i: nat, j: nat)
    requires Run(states, steps) && i < j < |steps| && steps[i].Pop? && steps[j].Pop?
    ensures forall k :: 0 <= k < |states| ==> |states[k].queue| <= states[k].queueMaxSize
    ensures DistinctKeys(states[i].queue) && states[i].queue != {}
    ensures DistinctKeys(states[j].queue) && states[j].queue != {}
    ensures var a, b := Best(states[i].queue), Best(states[j].queue);
            && a.id != b.id
            && (b in states[i].queue ==> a.score >= b.score && (a.score == b.score ==> a.arrival < b.arrival))
  {
    forall k | 0 <= k < |states| ensures |states[k].queue| <= states[k].queueMaxSize {
      RunKeepsInv(states, steps, k);
    }
    PoppedOnce(states, steps, i, j);
  }

  /** Whoever is answered has left the queue. */
  lemma AnsweredNotQueued(states: seq<System>, steps: seq<Step>, i: nat, e: Entry)
    requires Run(states, steps) && i < |states| && e.id in states[i].futures && states[i].futures[e.id] == Done
    ensures e !in states[i].queue
  {
    RunKeepsInv(states, steps, i);
  }

  // ---------------------------------------------------------------- how long a request is overtaken

  /** The queued entries with a higher score than `e`, or with the same score and an earlier arrival. */
  ghost function Ahead(queue: set<Entry>, e: Entry): set<Entry> {
    set o | o in queue && (o.score > e.score || (o.score == e.score && o.arrival < e.arrival))
  }

  /** Pops, and accepted arrivals with a higher score or as high a one and an earlier arrival, from one state
      of a run to another. */
  ghost function Pops(steps: seq<Step>, from: nat, upto: nat): nat
    requires from <= upto <= |steps|
  {
    if from == upto then 0 else Pops(steps, from, upto - 1) + One(steps[upto - 1].Pop?)
  }

  ghost predicate Overtakes(s: System, step: Step, e: Entry) {
    && step.Arrive? && Projected(s).None?
    && (step.entry.score > e.score || (step.entry.score == e.score && step.entry.arrival < e.arrival))
  }

  ghost function Overtaking(states: seq<System>, steps: seq<Step>, from: nat, upto: nat, e: Entry): nat
    requires from <= upto <= |steps| < |states|
  {
    if from == upto then 0
    else Overtaking(states, steps, from, upto - 1, e) + One(Overtakes(states[upto - 1], steps[upto - 1], e))
  }

  lemma AheadLess(queue: set<Entry>, e: Entry, best: Entry)
    requires best in queue && Before(best, e)
    ensures |Ahead(queue - {best}, e)| == |Ahead(queue, e)| - 1
  {
    assert Ahead(queue - {best}, e) == Ahead(queue, e) - {best};
  }

  lemma AheadMore(queue: set<Entry>, e: Entry, arrived: Entry)
    requires arrived !in queue
    ensures |Ahead(queue + {arrived}, e)| == |Ahead(queue, e)| + One(Before(arrived, e))
  {
    if Before(arrived, e) {
      assert Ahead(queue + {arrived}, e) == Ahead(queue, e) + {arrived};
    } else {
      assert Ahead(queue + {arrived}, e) == Ahead(queue, e);
    }
  }

  lemma OvertakenStep(s: System, step: Step, s': System, e: Entry)
    requires Inv(s) && Transition(s, step, s') && e in s.queue && e in s'.queue
    ensures One(step.Pop?) + |Ahead(s'.queue, e)| == |Ahead(s.queue, e)| + One(Overtakes(s, step, e))
  {
    if step.Arrive? {
      if Projected(s).None? { AheadMore(s.queue, e, step.entry); }
    } else {
      QueueStep(s, step, s');
      if step.Pop? { AheadLess(s.queue, e, Best(s.queue)); }
    }
  }

  lemma EntryGoneStep(s: System, step: Step, s': System, e: Entry)
    requires Transition(s, step, s') && e.id in s.futures
    ensures e.id in s'.futures && (e !in s.queue ==> e !in s'.queue)
  {
    QueueGrowth(s, step, s');
  }

  lemma {:induction false} EntryGone(states: seq<System>, steps: seq<Step>, k: nat, j: nat, e: Entry)
    requires Run(states, steps) && k <= j < |states| && e.id in states[k].futures
    ensures e.id in states[j].futures && (e !in states[k].queue ==> e !in states[j].queue)
  {
    if k < j {
      EntryGone(states, steps, k, j - 1, e);
      assert Transition(states[j - 1], steps[j - 1], states[j - 1 + 1]);
      EntryGoneStep(states[j - 1], steps[j - 1], states[j], e);
    }
  }

  /** An entry queued at two moments was queued all the time between. */
  lemma StillQueued(states: seq<System>, steps: seq<Step>, i: nat, k: nat, j: nat, e: Entry)
    requires Run(states, steps) && i <= k <= j < |states| && e in states[i].queue && e in states[j].queue
    ensures e in states[k].queue
  {
    QueuedHasFuture(states, steps, i, e);
    EntryGone(states, steps, i, k, e);
    EntryGone(states, steps, k, j, e);
  }

  lemma QueuedHasFuture(states: seq<System>, steps: seq<Step>, i: nat, e: Entry)
    requires Run(states, steps) && i < |states| && e in states[i].queue
    ensures e.id in states[i].futures
  {
    RunKeepsInv(states, steps, i);
  }

  /** A step pops one of those ahead, or lets one in. */
  ghost predicate Moves(s: System, step: Step, e: Entry, before: int, after: int) {
    One(step.Pop?) + after == before + One(Overtakes(s, step, e))
  }

  lemma {:induction false} MovesAddUp(
    states: seq<System>, steps: seq<Step>, ahead: seq<int>, i: nat, j: nat, e: Entry)
    requires |states| == |ahead| == |steps| + 1 && i <= j <= |steps|
    requires forall k {:trigger steps[k]} :: i <= k < j ==> Moves(states[k], steps[k], e, ahead[k], ahead[k + 1])
    ensures Pops(steps, i, j) + ahead[j] == ahead[i] + Overtaking(states, steps, i, j, e)
  {
    if i < j {
      MovesAddUp(states, steps, ahead, i, j - 1, e);
      assert Moves(states[j - 1], steps[j - 1], e, ahead[j - 1], ahead[j - 1 + 1]);
    }
  }

  lemma QueuedMoves(states: seq<System>, steps: seq<Step>, ahead: seq<int>, k: nat, e: Entry)
    requires Run(states, steps) && k < |steps| && |ahead| == |states|
    requires e in states[k].queue && e in states[k + 1].queue
    requires ahead[k] == |Ahead(states[k].queue, e)| && ahead[k + 1] == |Ahead(states[k + 1].queue, e)|
    ensures Moves(states[k], steps[k], e, ahead[k], ahead[k + 1])
  {
    RunKeepsInv(states, steps, k);
    assert Transition(states[k], steps[k], states[k + 1]);
    OvertakenStep(states[k], steps[k], states[k + 1], e);
  }

  /** A request waits for exactly the better ones: while it stays queued, every pop takes an entry that was
      ahead of it or that arrived, was accepted and came before it since. */
  lemma OvertakenByBetterOnly(states: seq<System>, steps: seq<Step>, i: nat, j: nat, e: Entry)
    requires Run(states, steps) && i <= j < |states| && e in states[i].queue && e in states[j].queue
    ensures Pops(steps, i, j) + |Ahead(states[j].queue, e)|
            == |Ahead(states[i].queue, e)| + Overtaking(states, steps, i, j, e)
  {
    var ahead := seq(|states|, k requires 0 <= k < |states| => |Ahead(states[k].queue, e)|);
    forall k {:trigger steps[k]} | i <= k < j ensures Moves(states[k], steps[k], e, ahead[k], ahead[k + 1]) {
      StillQueued(states, steps, i, k, j, e);
      StillQueued(states, steps, i, k + 1, j, e);
      QueuedMoves(states, steps, ahead, k, e);
    }
    MovesAddUp(states, steps, ahead, i, j, e);
  }

  /** The entries a run pops, in order. */
  ghost function Popped(states: seq<System>, steps: seq<Step>, i: nat): seq<Entry>
    requires |states| == |steps| + 1 && i <= |steps|
    requires forall k :: 0 <= k < i ==> Transition(states[k], steps[k], states[k + 1])
  {
    if i == 0 then []
    else
      assert Transition(states[i - 1], steps[i - 1], states[i - 1 + 1]);
      Popped(states, steps, i - 1) + if steps[i - 1].Pop? then [Best(states[i - 1].queue)] else []
  }

  ghost predicate InOrder(entries: seq<Entry>) {
    forall i, j :: 0 <= i < j < |entries| ==>
      && entries[i].score >= entries[j].score
      && (entries[i].score == entries[j].score ==> entries[i].arrival < entries[j].arrival)
  }

  /** `popped` is sorted, is exactly what `queue` lost, and comes before all that is left. */
  ghost predicate Drained(queue: set<Entry>, left: set<Entry>, popped: seq<Entry>) {
    && InOrder(popped)
    && left <= queue
    && (forall e :: e in popped <==> e in queue && e !in left)
    && (forall e, o :: e in popped && o in left ==>
          e.score >= o.score && (e.score == o.score ==> e.arrival < o.arrival))
  }

  lemma PopDrains(queue: set<Entry>, left: set<Entry>, popped: seq<Entry>)
    requires Drained(queue, left, popped) && left != {} && DistinctKeys(left)
    ensures Drained(queue, left - {Best(left)}, popped + [Best(left)])
  {
    var e := Best(left);
    assert forall k :: 0 <= k < |popped| ==> popped[k] in popped;
  }

  /** While nobody arrives, the worker drains the queue in strict priority order and takes nothing
      else: what it pops is sorted, and together with what is left it is what was queued. */
  lemma {:induction false} DrainsInOrder(states: seq<System>, steps: seq<Step>, i: nat)
    requires |states| == |steps| + 1 && i <= |steps|
    requires forall k :: 0 <= k < i ==> Transition(states[k], steps[k], states[k + 1]) && !steps[k].Arrive?
    ensures Drained(states[0].queue, states[i].queue, Popped(states, steps, i))
  {
    if i > 0 {
      DrainsInOrder(states, steps, i - 1);
      assert Transition(states[i - 1], steps[i - 1], states[i - 1 + 1]);
      QueueStep(states[i - 1], steps[i - 1], states[i]);
      var before := Popped(states, steps, i - 1);
      if steps[i - 1].Pop? {
        PopDrains(states[0].queue, states[i - 1].queue, before);
        assert Popped(states, steps, i) == before + [Best(states[i - 1].queue)];
      } else {
        assert Popped(states, steps, i) == before;
      }
    }
  }

  // ---------------------------------------------------------------- what a queue timeout means

  /** A cancelled request without a dispatch never gets one. */
  lemma CancelledStep(s: System, step: Step, s': System, id: nat)
    requires Transition(s, step, s')
    requires id in s.futures && s.futures[id] == Cancelled && id !in s.tasks
    ensures id in s'.futures && s'.futures[id] == Cancelled && id !in s'.tasks
  {
    if Quiet(step) {
      QuietFrame(s, step, s');
    } else if MovesTask(step) {
      TaskFrame(s, step, s');
    }
  }

  lemma {:induction false} NeverDispatchedBefore(states: seq<System>, steps: seq<Step>, i: nat, k: nat, id: nat)
    requires Run(states, steps) && k <= i < |states| && id in QueuedIds(states[i].queue)
    ensures id !in states[k].tasks
    decreases i - k
  {
    RunKeepsInv(states, steps, k);
    if id in states[k].tasks { LeftQueueForever(states, steps, k, i, id); }
  }

  lemma {:induction false} NeverDispatchedAfter(states: seq<System>, steps: seq<Step>, i: nat, k: nat, id: nat)
    requires Run(states, steps) && i <= k < |states|
    requires id in states[i].futures && states[i].futures[id] == Cancelled && id !in states[i].tasks
    ensures id in states[k].futures && states[k].futures[id] == Cancelled && id !in states[k].tasks
  {
    if i < k {
      NeverDispatchedAfter(states, steps, i, k - 1, id);
      assert Transition(states[k - 1], steps[k - 1], states[k - 1 + 1]);
      CancelledStep(states[k - 1], steps[k - 1], states[k], id);
    }
  }

  /** A request rejected with `queue_timeout` is never dispatched, before or after, if and only if
      it was still in the queue when its wait expired. */
  lemma TimeoutMeansUndispatchedIff(states: seq<System>, steps: seq<Step>, i: nat, id: nat)
    requires Run(states, steps) && i < |steps| && steps[i] == Expire(id)
    ensures (forall k :: 0 <= k < |states| ==> id !in states[k].tasks) <==> id in QueuedIds(states[i].queue)
  {
    RunKeepsInv(states, steps, i);
    assert Transition(states[i], steps[i], states[i + 1]);
    if id in QueuedIds(states[i].queue) {
      forall k | 0 <= k < |states| ensures id !in states[k].tasks {
        if k <= i {
          NeverDispatchedBefore(states, steps, i, k, id);
        } else {
          NeverDispatchedAfter(states, steps, i + 1, k, id);
        }
      }
    }
  }
}
