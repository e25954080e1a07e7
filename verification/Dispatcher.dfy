/**
  `BackendDispatcher.dispatch_queued` and `proxy_handler` as the sequences of effects they are, with
  nothing else running in between; `Pipeline` takes the same effects one step at a time.
 */
module Dispatcher {
  import opened Wrappers
  import W = Windows
  import C = Capacity
  import B = Balancing
  import opened Scheduling
  import opened Controllers
  import opened LoadBalancer
  import opened Pipeline

  /** The future a handler waits on; a response is known by its status. */
  class ResponseFuture {
    var state: Future
    var status: int

    constructor ()
      ensures state == Pending
    {
      state, status := Pending, 0;
    }

    method Cancel()
      modifies this`state
      ensures state == if old(state) == Pending then Cancelled else old(state)
    {
      if state == Pending {
        state := Cancelled;
      }
    }

    /** Setting the result of a done future is an error. */
    method SetResult(status: int)
      requires state == Pending
      modifies this
      ensures state == Done && this.status == status
    {
      state, this.status := Done, status;
    }
  }

  class BackendDispatcher {
    const loadBalancer: LeastLoadedLoadBalancer

    constructor (loadBalancer: LeastLoadedLoadBalancer)
      ensures this.loadBalancer == loadBalancer
    {
      this.loadBalancer := loadBalancer;
    }

    /** The two releases, instance first, that every outcome starts with. */
    method GiveBack(url: B.Url, controller: AnyController, connectFailed: bool, clock: real,
                    latencyMs: real, status: int, timedOut: bool)
      requires loadBalancer.Valid() && controller.Valid() && controller.Value().inFlight > 0
      modifies loadBalancer`inFlight, loadBalancer`healthy, loadBalancer`markedDownSince
      modifies controller.Repr()
      ensures loadBalancer.Valid() && controller.Valid()
      ensures var released := B.Release(old(loadBalancer.Value()), url, connectFailed, clock);
              loadBalancer.inFlight == released.inFlight && loadBalancer.healthy == released.healthy
      ensures controller.Value() == C.Leave(old(controller.Value()), latencyMs, status, timedOut)
    {
      ghost var before := controller.Value();
      assert loadBalancer !in controller.Repr();
      var _ := loadBalancer.ReleaseInstance(url, connectFailed, clock);
      assert controller.Value() == before && controller.Valid();
      ghost var freed := loadBalancer.Value();
      controller.Release(latencyMs, status, timedOut);
      assert loadBalancer.Value() == freed;
    }

    /** Selects an instance, with the limit of the moment as the hint. */
    method ChooseInstance(ip: Option<string>, controller: AnyController, now: real, stamp: real) returns (url: B.Url)
      requires loadBalancer.Valid() && controller.Valid()
      modifies loadBalancer`inFlight, loadBalancer`sticky
      ensures loadBalancer.Valid() && controller.Valid() && controller.Value() == old(controller.Value())
      ensures url == B.Choice(old(loadBalancer.Value()), ip, Some(old(controller.Value()).limit), now)
      ensures loadBalancer.Value()
              == B.Select(old(loadBalancer.Value()), ip, Some(old(controller.Value()).limit), now, stamp)
    {
      assert loadBalancer !in controller.Repr();
      var limit := controller.CurrentLimit();
      url := loadBalancer.SelectInstance(ip, Some(limit), now, stamp);
    }

    /** Sends one request whose slot the worker acquired. `gaveUp` tells whether the handler gave up
        while the request was being sent. Whatever the outcome, the instance's load is what it was,
        the slot is released once, and the future is resolved once unless it was cancelled, in which
        case an open response is closed. */
    method DispatchQueued(ip: Option<string>, future: ResponseFuture, controller: AnyController,
                          outcome: Outcome, gaveUp: bool, now: real, stamp: real, latencyMs: real)
      returns (closed: bool)
      requires loadBalancer.Valid() && controller.Valid() && controller.Value().inFlight > 0
      requires future.state != Done
      modifies loadBalancer, future, controller.Repr()
      ensures loadBalancer.Valid() && controller.Valid()
      ensures loadBalancer.inFlight == old(loadBalancer.inFlight)
      ensures var chosen := B.Choice(old(loadBalancer.Value()), ip, Some(old(controller.Value()).limit), now);
              loadBalancer.healthy == if outcome.ConnectFailed? then old(loadBalancer.healthy)[chosen := false]
                                      else old(loadBalancer.healthy)
      ensures controller.Value() ==
                C.Leave(old(controller.Value()), latencyMs, if outcome.Responded? then outcome.status else 0,
                        outcome.TimedOut?)
      ensures future.state == if old(future.state) == Cancelled || gaveUp then Cancelled else Done
      ensures closed == (future.state == Cancelled && outcome.Responded?)
      ensures future.state == Done ==>
        future.status == if outcome.Responded? then outcome.status else if outcome.TimedOut? then 503 else 502
    {
      assert future !in controller.Repr();
      B.ReleaseUndoesSelect(loadBalancer.Value(), ip, Some(controller.Value().limit), now, stamp,
                            outcome.ConnectFailed?, stamp);
      var url := ChooseInstance(ip, controller, now, stamp);
      ghost var before := controller.Value();
      if gaveUp {
        future.Cancel();
      }
      assert controller.Value() == before && controller.Valid();
      closed := Conclude(url, future, controller, outcome, stamp, latencyMs);
    }

    /** What each outcome of sending entails: the releases first, then the reply, or the close of a response
        nobody waits for. */
    method Conclude(url: B.Url, future: ResponseFuture, controller: AnyController,
                    outcome: Outcome, clock: real, latencyMs: real)
      returns (closed: bool)
      requires loadBalancer.Valid() && controller.Valid() && controller.Value().inFlight > 0
      requires future.state != Done
      modifies loadBalancer`inFlight, loadBalancer`healthy, loadBalancer`markedDownSince
      modifies future, controller.Repr()
      ensures loadBalancer.Valid() && controller.Valid()
      ensures var released := B.Release(old(loadBalancer.Value()), url, outcome.ConnectFailed?, clock);
              loadBalancer.inFlight == released.inFlight && loadBalancer.healthy == released.healthy
      ensures controller.Value() ==
                C.Leave(old(controller.Value()), latencyMs, if outcome.Responded? then outcome.status else 0,
                        outcome.TimedOut?)
      ensures future.state == if old(future.state) == Cancelled then Cancelled else Done
      ensures closed == (future.state == Cancelled && outcome.Responded?)
      ensures future.state == Done ==>
        future.status == if outcome.Responded? then outcome.status else if outcome.TimedOut? then 503 else 502
    {
      assert future !in controller.Repr();
      var connectFailed, status, timedOut, reply;
      match outcome {
        case ConnectFailed => connectFailed, status, timedOut, reply := true, 0, false, 502;
        case TimedOut => connectFailed, status, timedOut, reply := false, 0, true, 503;
        case OtherHttpError => connectFailed, status, timedOut, reply := false, 0, false, 502;
        case Responded(code) => connectFailed, status, timedOut, reply := false, code, false, code;
      }
      GiveBack(url, controller, connectFailed, clock, latencyMs, status, timedOut);
      var delivered := Deliver(future, reply);
      closed := outcome.Responded? && !delivered;
    }

    /** Resolves the future unless its handler gave up. */
    method Deliver(future: ResponseFuture, status: int) returns (delivered: bool)
      requires future.state != Done
      modifies future
      ensures delivered == (old(future.state) == Pending)
      ensures future.state == if delivered then Done else Cancelled
      ensures delivered ==> future.status == status
    {
      delivered := future.state != Cancelled;
      if delivered {
        future.SetResult(status);
      }
    }
  }

  // ---------------------------------------------------------------- the request handler

  datatype Counters = Counters(
    requests: nat, admitted: nat, waitExceeded: nat, queueFull: nat, queueTimeout: nat, inflight: int)

  const NO_COUNTS := Counters(0, 0, 0, 0, 0, 0)

  class ProxyMetrics {
    var requests: nat
    var admitted: nat
    var waitExceeded: nat
    var queueFull: nat
    var queueTimeout: nat
    var inflight: int

    ghost function Value(): Counters
      reads this
    {
      Counters(requests, admitted, waitExceeded, queueFull, queueTimeout, inflight)
    }

    constructor ()
      ensures Value() == NO_COUNTS
    {
      requests, admitted, waitExceeded, queueFull, queueTimeout, inflight := 0, 0, 0, 0, 0, 0;
    }

    /** What other coroutines count while this one waits. */
    method Suspend(others: Counters)
      modifies this
      ensures requests == old(requests) + others.requests && admitted == old(admitted) + others.admitted
      ensures waitExceeded == old(waitExceeded) + others.waitExceeded
      ensures queueFull == old(queueFull) + others.queueFull
      ensures queueTimeout == old(queueTimeout) + others.queueTimeout
      ensures inflight == old(inflight) + others.inflight
    {
      requests, admitted := requests + others.requests, admitted + others.admitted;
      waitExceeded, queueFull := waitExceeded + others.waitExceeded, queueFull + others.queueFull;
      queueTimeout, inflight := queueTimeout + others.queueTimeout, inflight + others.inflight;
    }
  }

  /** How a handler's wait ends: with the response, by its timeout, or by its client leaving. */
  datatype WaitEnd = Answered(status: int) | WaitTimedOut | HandlerCancelled

  /** Counts the request and asks to enqueue it, against the limit and mean latency of the moment. */
  method CountAndEnqueue(scheduler: PriorityScheduler, controller: AnyController, metrics: ProxyMetrics, entry: Entry)
    returns (rejection: Option<Rejection>)
    requires scheduler.Valid()
    requires forall o :: o in scheduler.queue ==> !SameKey(o, entry)
    modifies scheduler, metrics`requests
    ensures scheduler.Valid() && metrics.requests == old(metrics.requests) + 1
    ensures rejection == Verdict(|old(scheduler.queue)|, scheduler.queueMaxSize, old(controller.Value()).limit,
                                 W.Mean(old(controller.Value()).latency), scheduler.queueTimeoutSeconds)
    ensures scheduler.queue == if rejection.None? then old(scheduler.queue) + {entry} else old(scheduler.queue)
  {
    assert metrics !in controller.Repr();
    metrics.requests := metrics.requests + 1;
    var limit := controller.CurrentLimit();
    var meanMs := controller.MeanLatencyMs();
    rejection := scheduler.Enqueue(entry, limit, meanMs);
  }

  /** Up to the wait: counts the request, and either rejects it or queues it and raises the gauge. */
  method StartRequest(scheduler: PriorityScheduler, controller: AnyController, metrics: ProxyMetrics, entry: Entry)
    returns (rejection: Option<Rejection>)
    requires scheduler.Valid()
    requires forall o :: o in scheduler.queue ==> !SameKey(o, entry)
    modifies scheduler, metrics
    ensures scheduler.Valid()
    ensures rejection == Verdict(|old(scheduler.queue)|, scheduler.queueMaxSize, old(controller.Value()).limit,
                                 W.Mean(old(controller.Value()).latency), scheduler.queueTimeoutSeconds)
    ensures scheduler.queue == if rejection.None? then old(scheduler.queue) + {entry} else old(scheduler.queue)
    ensures metrics.requests == old(metrics.requests) + 1
    ensures metrics.waitExceeded == old(metrics.waitExceeded) + if rejection == Some(WaitExceeded) then 1 else 0
    ensures metrics.queueFull == old(metrics.queueFull) + if rejection == Some(QueueFull) then 1 else 0
    ensures metrics.inflight == old(metrics.inflight) + if rejection.None? then 1 else 0
    ensures metrics.admitted == old(metrics.admitted) && metrics.queueTimeout == old(metrics.queueTimeout)
  {
    rejection := CountAndEnqueue(scheduler, controller, metrics, entry);
    match rejection
    case Some(WaitExceeded) => metrics.waitExceeded := metrics.waitExceeded + 1;
    case Some(QueueFull) => metrics.queueFull := metrics.queueFull + 1;
    case None => metrics.inflight := metrics.inflight + 1;
  }

  /** After the wait: counts how it ended and lowers the gauge. */
  method FinishRequest(metrics: ProxyMetrics, waitEnd: WaitEnd) returns (status: Option<int>)
    modifies metrics`admitted, metrics`queueTimeout, metrics`inflight
    ensures metrics.admitted == old(metrics.admitted) + if waitEnd.Answered? then 1 else 0
    ensures metrics.queueTimeout == old(metrics.queueTimeout) + if waitEnd.WaitTimedOut? then 1 else 0
    ensures metrics.inflight == old(metrics.inflight) - 1
    ensures status == if waitEnd.Answered? then Some(waitEnd.status)
                      else if waitEnd.WaitTimedOut? then Some(503) else None
  {
    match waitEnd {
      case WaitTimedOut =>
        metrics.queueTimeout := metrics.queueTimeout + 1;
        status := Some(503);
      case Answered(s) =>
        metrics.admitted := metrics.admitted + 1;
        status := Some(s);
      case HandlerCancelled =>
        status := None;
    }
    metrics.inflight := metrics.inflight - 1;
  }

  /** What other coroutines leave behind while a handler waits: the queue, and what they counted. */
  datatype Meanwhile = Meanwhile(queue: set<Entry>, counted: Counters)

  /** Handles one classified and scored request to its end, whatever other coroutines do while it waits;
      a cancelled handler returns nothing. */
  method ProxyHandler(scheduler: PriorityScheduler, controller: AnyController, metrics: ProxyMetrics, entry: Entry,
                      waitEnd: WaitEnd, meanwhile: Meanwhile)
    returns (status: Option<int>)
    requires scheduler.Valid()
    requires forall o :: o in scheduler.queue ==> !SameKey(o, entry)
    requires |meanwhile.queue| <= scheduler.queueMaxSize && DistinctKeys(meanwhile.queue)
    modifies scheduler, metrics
    ensures scheduler.Valid()
    ensures var verdict := Verdict(|old(scheduler.queue)|, scheduler.queueMaxSize, old(controller.Value()).limit,
                                   W.Mean(old(controller.Value()).latency), scheduler.queueTimeoutSeconds);
            var others := if verdict.None? then meanwhile.counted else NO_COUNTS;
            && scheduler.queue == (if verdict.None? then meanwhile.queue else old(scheduler.queue))
            && status == (if verdict.Some? then Some(429)
                          else if waitEnd.Answered? then Some(waitEnd.status)
                          else if waitEnd.WaitTimedOut? then Some(503) else None)
            && metrics.requests == old(metrics.requests) + others.requests + 1
            && metrics.waitExceeded == old(metrics.waitExceeded) + others.waitExceeded
                                       + (if verdict == Some(WaitExceeded) then 1 else 0)
            && metrics.queueFull == old(metrics.queueFull) + others.queueFull
                                    + (if verdict == Some(QueueFull) then 1 else 0)
            && metrics.queueTimeout == old(metrics.queueTimeout) + others.queueTimeout
                                       + (if verdict.None? && waitEnd.WaitTimedOut? then 1 else 0)
            && metrics.admitted == old(metrics.admitted) + others.admitted
                                   + (if verdict.None? && waitEnd.Answered? then 1 else 0)
            && metrics.inflight == old(metrics.inflight) + others.inflight
  {
    var rejection := StartRequest(scheduler, controller, metrics, entry);
    if rejection.Some? {
      return Some(429);
    }
    scheduler.queue := meanwhile.queue;
    metrics.Suspend(meanwhile.counted);
    status := FinishRequest(metrics, waitEnd);
  }
}
