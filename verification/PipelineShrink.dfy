/**
  An adaptive limit that shrinks below the slots in use: a run in which `select` then takes an instance at
  its fair share, which a fixed limit rules out.
 */
module PipelineShrink {
  import opened Wrappers
  import opened Windows
  import C = Capacity
  import A = AdaptiveRuns
  import B = Balancing
  import opened Scheduling
  import opened Pipeline
  import L = PipelineLiveness

  function Request(id: nat): Entry { Entry(id, 0, 0.0, None) }

  // ---------------------------------------------------------------- one more dispatch

  /** Nobody is queued, and the worker is about to take one of the free slots. */
  ghost predicate Ready(s: System) {
    && 0 < s.queueMaxSize && s.queueTimeout > 0.0 && s.queue == {} && s.worker.Wanting?
    && s.ctl.inFlight < s.ctl.limit && s.ctl.waiters == [] && B.WellFormed(s.lb)
  }

  ghost function Spawn(s: System, id: nat): System {
    s.(ctl := s.ctl.(inFlight := s.ctl.inFlight + 1), tasks := s.tasks[id := Task(Request(id), Spawned)],
       futures := s.futures[id := Pending],
       stats := s.stats.(requests := s.stats.requests + 1, inflightGauge := s.stats.inflightGauge + 1))
  }

  lemma ArrivesQueued(s: System, id: nat)
    requires Ready(s) && id !in s.futures
    ensures Transition(s, Arrive(Request(id)), s.(queue := {Request(id)}, futures := s.futures[id := Pending],
                                                  stats := Spawn(s, id).stats))
  {
    WaitRejectionIff(0, s.queueMaxSize, s.ctl.limit, Mean(s.ctl.latency), s.queueTimeout);
    assert Projected(s).None?;
    assert {} + {Request(id)} == {Request(id)};
  }

  lemma PopsOnly(s: System, e: Entry)
    requires s.worker.Holding? && s.queue == {e} && B.WellFormed(s.lb)
    requires e.id in s.futures && s.futures[e.id].Pending?
    ensures Transition(s, Pop, s.(queue := {}, worker := Wanting, tasks := s.tasks[e.id := Task(e, Spawned)]))
  {
    assert DistinctKeys(s.queue) && Best(s.queue) == e;
    assert s.queue - {e} == {};
  }

  /** A request arrives and is handed to a dispatch task. */
  lemma SpawnOne(states: seq<System>, steps: seq<Step>, id: nat) returns (states': seq<System>, steps': seq<Step>)
    requires Run(states, steps) && Ready(states[|steps|]) && id !in states[|steps|].futures
    ensures Run(states', steps') && states'[0] == states[0]
    ensures states'[|steps'|] == Spawn(states[|steps|], id)
  {
    var s, e := states[|steps|], Request(id);
    var s1 := s.(queue := {e}, futures := s.futures[id := Pending], stats := Spawn(s, id).stats);
    var s2 := AcquireNext(s1);
    ArrivesQueued(s, id);
    L.AppendStep(states, steps, Arrive(e), s1);
    L.AppendStep(states + [s1], steps + [Arrive(e)], Acquire, s2);
    PopsOnly(s2, e);
    L.AppendStep(states + [s1] + [s2], steps + [Arrive(e)] + [Acquire], Pop, Spawn(s, id));
    states', steps' := states + [s1] + [s2] + [Spawn(s, id)], steps + [Arrive(e)] + [Acquire] + [Pop];
  }

  // ---------------------------------------------------------------- one slow request, start to end

  /** Everybody is served; so far there were `n` slow successes and nothing else. */
  ghost predicate Rested(start: System, s: System, n: nat, slow: real) {
    && s.queueMaxSize == start.queueMaxSize && s.queueTimeout == start.queueTimeout && s.lb == start.lb
    && s.queue == {} && s.worker.Wanting? && s.tasks == map[] && (forall id :: id in s.futures ==> id < n)
    && SlowSoFar(start.ctl, s.ctl, n, slow) && s.ctl.inFlight == 0
  }

  ghost predicate SlowSoFar(start: C.Controller, c: C.Controller, n: nat, slow: real) {
    && c.policy == start.policy && c.limit == start.limit && c.waiters == [] && !c.raisePending
    && c.cooldownUntil == 0.0
    && |c.latency| == n && (forall i :: 0 <= i < n ==> c.latency[i] == slow)
    && true !in c.timeouts && true !in c.errors
  }

  lemma LeaveIsSlow(start: C.Controller, c: C.Controller, n: nat, slow: real)
    requires SlowSoFar(start, c, n, slow) && n < WINDOW_SIZE
    ensures SlowSoFar(start, C.Leave(c, slow, 200, false), n + 1, slow)
  {
  }

  /** An instance selected for an unpinned request and released again. */
  lemma LoadReturns(lb: B.Balancer, limit: int)
    requires B.WellFormed(lb)
    ensures B.WellFormed(B.Select(lb, None, Some(limit), 0.0, 0.0))
    ensures var url := B.Choice(lb, None, Some(limit), 0.0);
            var selected := B.Select(lb, None, Some(limit), 0.0, 0.0);
            B.Release(selected, url, false, 0.0) == lb && selected.inFlight[url] > 0
  {
    B.ReleaseUndoesSelect(lb, None, Some(limit), 0.0, 0.0, false, 0.0);
  }

  /** Its dispatch task gets a response. */
  lemma Respond(states: seq<System>, steps: seq<Step>, id: nat) returns (states': seq<System>, steps': seq<Step>)
    requires Run(states, steps) && B.WellFormed(states[|steps|].lb) && states[|steps|].queue == {}
    requires states[|steps|].tasks == map[id := Task(Request(id), Spawned)]
    ensures Run(states', steps') && states'[0] == states[0]
    ensures var s, s' := states[|steps|], states'[|steps'|];
            var url := B.Choice(s.lb, None, Some(s.ctl.limit), 0.0);
            s' == s.(lb := B.Select(s.lb, None, Some(s.ctl.limit), 0.0, 0.0), stats := s'.stats,
                     tasks := map[id := Task(Request(id), Finished(url, Responded(200)))])
  {
    var s := states[|steps|];
    LoadReturns(s.lb, s.ctl.limit);
    var s1 := SelectNext(s, id, 0.0, 0.0);
    var s2 := SendNext(s1, id, Responded(200));
    L.AppendStep(states, steps, Select(id, 0.0, 0.0), s1);
    L.AppendStep(states + [s1], steps + [Select(id, 0.0, 0.0)], Send(id, Responded(200)), s2);
    states' := states + [s1] + [s2];
    steps' := steps + [Select(id, 0.0, 0.0)] + [Send(id, Responded(200))];
  }

  /** It releases the instance and the slot and answers the handler. */
  lemma Conclude(states: seq<System>, steps: seq<Step>, id: nat, url: B.Url, slow: real)
    returns (states': seq<System>, steps': seq<Step>)
    requires Run(states, steps)
    requires var s := states[|steps|];
             && s.tasks == map[id := Task(Request(id), Finished(url, Responded(200)))]
             && id in s.futures && s.futures[id].Pending? && s.queue == {}
             && B.WellFormed(s.lb) && B.WellFormed(B.Release(s.lb, url, false, 0.0))
    ensures Run(states', steps') && states'[0] == states[0]
    ensures var s, s' := states[|steps|], states'[|steps'|];
            s' == s.(ctl := C.Leave(s.ctl, slow, 200, false), lb := B.Release(s.lb, url, false, 0.0),
                     tasks := map[], futures := s.futures[id := Done], stats := s'.stats)
  {
    var s1 := FreeInstanceNext(states[|steps|], id, 0.0);
    var s2 := FreeSlotNext(s1, id, slow);
    var s3 := ResolveNext(s2, id);
    L.AppendStep(states, steps, FreeInstance(id, 0.0), s1);
    L.AppendStep(states + [s1], steps + [FreeInstance(id, 0.0)], FreeSlot(id, slow), s2);
    L.AppendStep(states + [s1] + [s2], steps + [FreeInstance(id, 0.0)] + [FreeSlot(id, slow)], Resolve(id), s3);
    states' := states + [s1] + [s2] + [s3];
    steps' := steps + [FreeInstance(id, 0.0)] + [FreeSlot(id, slow)] + [Resolve(id)];
  }

  /** One request from its arrival to its answer. */
  lemma SlowRequest(states: seq<System>, steps: seq<Step>, id: nat, slow: real)
    returns (states': seq<System>, steps': seq<Step>)
    requires Run(states, steps) && Ready(states[|steps|]) && id !in states[|steps|].futures
    requires states[|steps|].tasks == map[]
    ensures Run(states', steps') && states'[0] == states[0]
    ensures var s, s' := states[|steps|], states'[|steps'|];
            && s'.ctl == C.Leave(s.ctl.(inFlight := s.ctl.inFlight + 1), slow, 200, false)
            && s' == s.(ctl := s'.ctl, futures := s.futures[id := Done], stats := s'.stats)
  {
    var s := states[|steps|];
    var url := B.Choice(s.lb, None, Some(s.ctl.limit), 0.0);
    states', steps' := SpawnOne(states, steps, id);
    LoadReturns(s.lb, s.ctl.limit);
    states', steps' := Respond(states', steps', id);
    assert states'[|steps'|].lb == B.Select(s.lb, None, Some(s.ctl.limit), 0.0, 0.0);
    states', steps' := Conclude(states', steps', id, url, slow);
    assert s.futures[id := Pending][id := Done] == s.futures[id := Done];
  }

  lemma StillRested(start: System, s: System, s': System, n: nat, slow: real)
    requires Rested(start, s, n, slow) && n < WINDOW_SIZE
    requires s'.ctl == C.Leave(s.ctl.(inFlight := s.ctl.inFlight + 1), slow, 200, false)
    requires s' == s.(ctl := s'.ctl, futures := s.futures[n := Done], stats := s'.stats)
    ensures Rested(start, s', n + 1, slow)
  {
    LeaveIsSlow(start.ctl, s.ctl.(inFlight := s.ctl.inFlight + 1), n, slow);
  }

  lemma {:induction false} SlowRequests(start: System, n: nat, slow: real)
    returns (states: seq<System>, steps: seq<Step>)
    requires Initial(start) && n <= WINDOW_SIZE
    ensures Run(states, steps) && states[0] == start && Rested(start, states[|steps|], n, slow)
  {
    if n == 0 {
      states, steps := [start], [];
    } else {
      states, steps := SlowRequests(start, n - 1, slow);
      var s := states[|steps|];
      states, steps := SlowRequest(states, steps, n - 1, slow);
      StillRested(start, s, states[|steps|], n - 1, slow);
    }
  }

  // ---------------------------------------------------------------- the shrink

  lemma {:induction false} AllSlow(samples: seq<real>, threshold: real)
    requires forall i :: 0 <= i < |samples| ==> samples[i] > threshold
    ensures CountAbove(samples, threshold) == |samples|
  {
    if samples != [] { AllSlow(samples[1..], threshold); }
  }

  lemma SlowShrinks(start: C.Controller, c: C.Controller, slow: real)
    requires SlowSoFar(start, c, MIN_SAMPLES, slow) && c.policy.AdaptiveLimit? && c.policy.lo == 1 && c.limit == 2
    requires 0.0 < c.policy.targetP95 && 2.0 * c.policy.targetP95 < slow
    requires c.policy.timeoutThreshold >= 0.0 && c.policy.errorThreshold >= 0.0
    ensures C.Adjust(c, 0.0, 0) == c.(limit := 1, cooldownUntil := 30.0)
  {
    A.NoneTrue(c.timeouts, c.policy.timeoutThreshold);
    A.NoneTrue(c.errors, c.policy.errorThreshold);
    AllSlow(c.latency, 2.0 * c.policy.targetP95);
    A.BranchByCounting(c);
  }

  /** Two dispatches hold the two slots when the limit shrinks to one. */
  lemma ShrunkUnderway(start: System, slow: real) returns (states: seq<System>, steps: seq<Step>)
    requires Initial(start) && start.ctl.policy.AdaptiveLimit? && start.ctl.policy.lo == 1 && start.ctl.limit == 2
    requires 0.0 < start.ctl.policy.targetP95 && 2.0 * start.ctl.policy.targetP95 < slow
    requires start.ctl.policy.timeoutThreshold >= 0.0 && start.ctl.policy.errorThreshold >= 0.0
    ensures Run(states, steps) && states[0] == start
    ensures var s := states[|steps|];
            && s.lb == start.lb && s.queue == {} && s.ctl.limit == 1 && s.ctl.inFlight == 2
            && 10 in s.tasks && s.tasks[10] == Task(Request(10), Spawned)
            && 11 in s.tasks && s.tasks[11] == Task(Request(11), Spawned)
  {
    states, steps := SlowRequests(start, MIN_SAMPLES, slow);
    var s := states[|steps|];
    states, steps := SpawnOne(states, steps, 10);
    states, steps := SpawnOne(states, steps, 11);
    var two := states[|steps|];
    SlowShrinks(start.ctl, two.ctl, slow);
    var shrunk := two.(ctl := C.Adjust(two.ctl, 0.0, 0));
    L.AppendStep(states, steps, Adjust(0.0, 0.0, 0), shrunk);
    states, steps := states + [shrunk], steps + [Adjust(0.0, 0.0, 0)];
  }

  /** The hypothesis of an adaptive limit in `SelectBelowFairShare` is needed: on any fresh backend of one
      instance and two slots that may shrink to one, ten slow requests and a turn of the adjust loop let a
      later `select` take the instance at its fair share, with more slots in use than the limit. */
  lemma ShrinkBreaksShare(start: System) returns (states: seq<System>, steps: seq<Step>)
    requires Initial(start) && start.ctl.policy.AdaptiveLimit? && start.ctl.policy.lo == 1 && start.ctl.limit == 2
    requires 0.0 < start.ctl.policy.targetP95 && |start.lb.order| == 1
    requires start.ctl.policy.timeoutThreshold >= 0.0 && start.ctl.policy.errorThreshold >= 0.0
    ensures Run(states, steps) && states[0] == start && steps != [] && steps[|steps| - 1] == Select(11, 0.0, 0.0)
    ensures var s := states[|steps| - 1];
            && s.ctl.inFlight > s.ctl.limit && B.WellFormed(s.lb)
            && var url := B.Choice(s.lb, None, Some(s.ctl.limit), 0.0);
               |B.ActivePool(s.lb)| * s.lb.inFlight[url] >= s.ctl.limit
  {
    states, steps := ShrunkUnderway(start, 2.0 * start.ctl.policy.targetP95 + 1.0);
    var s := states[|steps|];
    LoadReturns(s.lb, s.ctl.limit);
    var s1 := SelectNext(s, 10, 0.0, 0.0);
    L.AppendStep(states, steps, Select(10, 0.0, 0.0), s1);
    states, steps := states + [s1], steps + [Select(10, 0.0, 0.0)];
    OneInstanceAtShare(s.lb, s1.lb);
    var s2 := SelectNext(s1, 11, 0.0, 0.0);
    L.AppendStep(states, steps, Select(11, 0.0, 0.0), s2);
    states, steps := states + [s2], steps + [Select(11, 0.0, 0.0)];
  }

  lemma OneInstanceAtShare(lb: B.Balancer, lb': B.Balancer)
    requires B.WellFormed(lb) && |lb.order| == 1 && lb' == B.Select(lb, None, Some(1), 0.0, 0.0)
    ensures B.WellFormed(lb')
    ensures |B.ActivePool(lb')| == 1 <= |B.ActivePool(lb')| * lb'.inFlight[B.Choice(lb', None, Some(1), 0.0)]
  {
    LoadReturns(lb, 1);
    B.PoolDistinct(lb');
    assert B.Choice(lb, None, Some(1), 0.0) == lb.order[0] == B.Choice(lb', None, Some(1), 0.0);
  }
}
