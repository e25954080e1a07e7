/**
  One backend's admission pipeline as a protocol: request handlers, the single scheduler worker,
  the detached dispatch tasks, the capacity controller and the load balancer.

  The program is one event loop, so what runs between two `await`s is one step. Clock readings,
  latencies, backend outcomes, client disconnects and the expiry of a handler's wait are chosen by
  the environment. Waking a handler is one step with resolving its future.
 */
module Pipeline {
  import opened Wrappers
  import C = Capacity
  import B = Balancing
  import W = Windows
  import opened Scheduling

  /** How sending a request upstream ends. */
  datatype Outcome = Responded(status: int) | ConnectFailed | TimedOut | OtherHttpError

  /** Where a dispatch task stands in `dispatch_queued`. */
  datatype Phase =
    | Spawned
    | Sending(url: B.Url)
    | Finished(url: B.Url, outcome: Outcome)
    | InstanceFreed(outcome: Outcome)
    | SlotFreed(outcome: Outcome)

  datatype Task = Task(entry: Entry, phase: Phase)

  /** A future whose handler waits, whose handler gave up, or that carries a response. */
  datatype Future = Pending | Cancelled | Done

  /** The worker is about to acquire, blocked in `acquire`, holding a slot in `queue.get()`, or
      about to release the slot it took for a cancelled request. */
  datatype Worker = Wanting | Asleep | Holding | Discarding

  datatype Stats = Stats(
    requests: nat,
    waitExceeded: nat,
    queueFull: nat,
    queueTimeout: nat,
    admitted: nat,
    clientGone: nat,
    /** The gauge raised by a handler before it waits and lowered when it stops. */
    inflightGauge: int,
    /** Upstream responses received, handed to a live future, and closed unread. */
    received: nat,
    handed: nat,
    closed: nat,
    /** `set_result` on a future already done; instance releases beyond zero. */
    doubleResolves: nat,
    doubleReleases: nat)

  const NO_STATS := Stats(0, 0, 0, 0, 0, 0, 0, 0, 0, 0, 0, 0)

  datatype System = System(
    queueMaxSize: nat,
    queueTimeout: real,
    ctl: C.Controller,
    lb: B.Balancer,
    queue: set<Entry>,
    worker: Worker,
    tasks: map<nat, Task>,
    futures: map<nat, Future>,
    stats: Stats)

  datatype Step =
    | Arrive(entry: Entry)
    | Expire(id: nat)
    | ClientGone(id: nat)
    | Acquire
    | Rerun
    | Pop
    | Discard
    | Select(id: nat, now: real, stamp: real)
    | Send(id: nat, outcome: Outcome)
    | FreeInstance(id: nat, clock: real)
    | FreeSlot(id: nat, latencyMs: real)
    | Resolve(id: nat)
    | Adjust(now: real, clock: real, err: nat)
    | Broadcast
    | Recover(url: B.Url)
    | Sweep(now: real)

  const WORKER: nat := 0

  ghost predicate Enabled(s: System, step: Step) {
    match step
    case Arrive(e) => e.id !in s.futures && forall o :: o in s.queue ==> !SameKey(o, e)
    case Expire(id) => id in s.futures && s.futures[id].Pending?
    case ClientGone(id) => id in s.futures && s.futures[id].Pending?
    case Acquire => s.worker.Wanting?
    case Rerun => s.worker.Asleep? && s.ctl.waiters != [] && s.ctl.waiters[0].notified
    case Pop => s.worker.Holding? && s.queue != {}
    case Discard => s.worker.Discarding?
    case Select(id, now, stamp) => id in s.tasks && s.tasks[id].phase.Spawned? && now <= stamp
    case Send(id, _) => id in s.tasks && s.tasks[id].phase.Sending?
    case FreeInstance(id, _) => id in s.tasks && s.tasks[id].phase.Finished?
    case FreeSlot(id, _) => id in s.tasks && s.tasks[id].phase.InstanceFreed?
    case Resolve(id) => id in s.tasks && s.tasks[id].phase.SlotFreed?
    case Adjust(now, clock, err) => C.Enabled(s.ctl, C.AdjustOp(now, clock, err))
    case Broadcast => C.Enabled(s.ctl, C.BroadcastOp)
    case Recover(url) => true
    case Sweep(now) => true
  }

  // ---------------------------------------------------------------- handler

  function Projected(s: System): Option<Rejection> {
    Verdict(|s.queue|, s.queueMaxSize, s.ctl.limit, W.Mean(s.ctl.latency), s.queueTimeout)
  }

  /** A handler counts its request, asks to enqueue it, and then waits on the future. */
  function ArriveNext(s: System, e: Entry): System {
    var counted := s.stats.(requests := s.stats.requests + 1);
    match Projected(s)
    case Some(WaitExceeded) => s.(stats := counted.(waitExceeded := counted.waitExceeded + 1))
    case Some(QueueFull) => s.(stats := counted.(queueFull := counted.queueFull + 1))
    case None =>
      s.(queue := s.queue + {e}, futures := s.futures[e.id := Pending],
         stats := counted.(inflightGauge := counted.inflightGauge + 1))
  }

  function ExpireNext(s: System, id: nat): System {
    s.(futures := s.futures[id := Cancelled],
       stats := s.stats.(queueTimeout := s.stats.queueTimeout + 1,
                         inflightGauge := s.stats.inflightGauge - 1))
  }

  function ClientGoneNext(s: System, id: nat): System {
    s.(futures := s.futures[id := Cancelled],
       stats := s.stats.(clientGone := s.stats.clientGone + 1,
                         inflightGauge := s.stats.inflightGauge - 1))
  }

  // ---------------------------------------------------------------- worker

  function AcquireNext(s: System): System {
    s.(ctl := C.Enter(s.ctl, WORKER), worker := if s.ctl.HasRoom() then Holding else Asleep)
  }

  function RerunNext(s: System): System
    requires s.ctl.waiters != []
  {
    s.(ctl := C.Rerun(s.ctl, 0), worker := if s.ctl.HasRoom() then Holding else Asleep)
  }

  /** The worker takes the best entry; one whose future was cancelled is not dispatched. */
  ghost function PopNext(s: System): System
    requires s.queue != {} && DistinctKeys(s.queue)
  {
    var e := Best(s.queue);
    if e.id in s.futures && s.futures[e.id].Cancelled? then
      s.(queue := s.queue - {e}, worker := Discarding)
    else
      s.(queue := s.queue - {e}, worker := Wanting, tasks := s.tasks[e.id := Task(e, Spawned)])
  }

  function DiscardNext(s: System): System {
    s.(ctl := C.Leave(s.ctl, 0.0, 0, false), worker := Wanting)
  }

  // ---------------------------------------------------------------- dispatch

  ghost function SelectNext(s: System, id: nat, now: real, stamp: real): System
    requires id in s.tasks && B.WellFormed(s.lb)
  {
    var e := s.tasks[id].entry;
    var url := B.Choice(s.lb, e.ip, Some(s.ctl.limit), now);
    s.(lb := B.Select(s.lb, e.ip, Some(s.ctl.limit), now, stamp),
       tasks := s.tasks[id := Task(e, Sending(url))])
  }

  function SendNext(s: System, id: nat, outcome: Outcome): System
    requires id in s.tasks && s.tasks[id].phase.Sending?
  {
    s.(tasks := s.tasks[id := Task(s.tasks[id].entry, Finished(s.tasks[id].phase.url, outcome))],
       stats := if outcome.Responded? then s.stats.(received := s.stats.received + 1) else s.stats)
  }

  ghost function FreeInstanceNext(s: System, id: nat, clock: real): System
    requires id in s.tasks && s.tasks[id].phase.Finished? && B.WellFormed(s.lb)
  {
    var Task(e, Finished(url, outcome)) := s.tasks[id];
    var counted := url in s.lb.inFlight && s.lb.inFlight[url] > 0;
    s.(lb := B.Release(s.lb, url, outcome.ConnectFailed?, clock),
       tasks := s.tasks[id := Task(e, InstanceFreed(outcome))],
       stats := if counted then s.stats else s.stats.(doubleReleases := s.stats.doubleReleases + 1))
  }

  function StatusOf(outcome: Outcome): int {
    if outcome.Responded? then outcome.status else 0
  }

  function FreeSlotNext(s: System, id: nat, latencyMs: real): System
    requires id in s.tasks && s.tasks[id].phase.InstanceFreed?
  {
    var Task(e, InstanceFreed(outcome)) := s.tasks[id];
    s.(ctl := C.Leave(s.ctl, latencyMs, StatusOf(outcome), outcome.TimedOut?),
       tasks := s.tasks[id := Task(e, SlotFreed(outcome))])
  }

  /** A cancelled future gets nothing and an open response is closed; any other future gets its
      response, and its handler returns it. */
  function ResolveNext(s: System, id: nat): System
    requires id in s.tasks && s.tasks[id].phase.SlotFreed?
  {
    var open := s.tasks[id].phase.outcome.Responded?;
    var future := if id in s.futures then s.futures[id] else Pending;
    var stats := s.stats;
    match future
    case Cancelled =>
      s.(tasks := s.tasks - {id}, stats := if open then stats.(closed := stats.closed + 1) else stats)
    case Done =>
      s.(tasks := s.tasks - {id}, stats := stats.(doubleResolves := stats.doubleResolves + 1))
    case Pending =>
      s.(tasks := s.tasks - {id}, futures := s.futures[id := Done],
         stats := stats.(admitted := stats.admitted + 1, inflightGauge := stats.inflightGauge - 1,
                         handed := stats.handed + if open then 1 else 0))
  }

  ghost function Next(s: System, step: Step): System
    requires B.WellFormed(s.lb) && DistinctKeys(s.queue) && Enabled(s, step)
  {
    match step
    case Arrive(e) => ArriveNext(s, e)
    case Expire(id) => ExpireNext(s, id)
    case ClientGone(id) => ClientGoneNext(s, id)
    case Acquire => AcquireNext(s)
    case Rerun => RerunNext(s)
    case Pop => PopNext(s)
    case Discard => DiscardNext(s)
    case Select(id, now, stamp) => SelectNext(s, id, now, stamp)
    case Send(id, outcome) => SendNext(s, id, outcome)
    case FreeInstance(id, clock) => FreeInstanceNext(s, id, clock)
    case FreeSlot(id, latencyMs) => FreeSlotNext(s, id, latencyMs)
    case Resolve(id) => ResolveNext(s, id)
    case Adjust(now, clock, err) => s.(ctl := C.Apply(s.ctl, C.AdjustOp(now, clock, err)))
    case Broadcast => s.(ctl := C.Broadcast(s.ctl))
    case Recover(url) => s.(lb := B.Recover(s.lb, url))
    case Sweep(now) => s.(lb := B.Sweep(s.lb, now))
  }

  // ---------------------------------------------------------------- runs

  ghost predicate Initial(s: System) {
    && 0 < s.queueMaxSize && s.queueTimeout > 0.0
    && C.Initial(s.ctl)
    && B.WellFormed(s.lb) && (forall u :: u in s.lb.order ==> s.lb.inFlight[u] == 0 && s.lb.healthy[u])
    && s.lb.sticky == map[] && s.queue == {} && s.worker == Wanting && s.tasks == map[] && s.futures == map[]
    && s.stats == NO_STATS
  }

  ghost predicate Transition(s: System, step: Step, s': System) {
    && B.WellFormed(s.lb) && DistinctKeys(s.queue)
    && Enabled(s, step) && s' == Next(s, step)
  }

  ghost predicate Run(states: seq<System>, steps: seq<Step>) {
    && |states| == |steps| + 1 && Initial(states[0])
    && forall i {:trigger steps[i]} :: 0 <= i < |steps| ==> Transition(states[i], steps[i], states[i + 1])
  }
}
