/**
  What the pipeline's state says about its past: every counter counts its own events, the
  controller's windows hold the outcomes of the last releases, and an instance is down exactly
  since its last connection failure.
 */
module PipelineHistory {
  import opened Wrappers
  import opened Windows
  import C = Capacity
  import B = Balancing
  import opened Scheduling
  import opened Pipeline
  import opened PipelineInvariant

  // ---------------------------------------------------------------- counters count events

  datatype Event =
    | Requested | RejectedForWait | RejectedFull | TimedOutWaiting | ClientLeft
    | Admitted | ResponseOpened | ResponseHanded | ResponseClosed

  function CounterOf(t: Stats, e: Event): nat {
    match e
    case Requested => t.requests
    case RejectedForWait => t.waitExceeded
    case RejectedFull => t.queueFull
    case TimedOutWaiting => t.queueTimeout
    case ClientLeft => t.clientGone
    case Admitted => t.admitted
    case ResponseOpened => t.received
    case ResponseHanded => t.handed
    case ResponseClosed => t.closed
  }

  /** Does a step, taken in a state, amount to an event? */
  ghost predicate Happens(s: System, step: Step, e: Event) {
    match e
    case Requested => step.Arrive?
    case RejectedForWait =>
      step.Arrive? && EstimateWaitSeconds(|s.queue|, s.ctl.limit, Mean(s.ctl.latency)) > s.queueTimeout
    case RejectedFull =>
      && step.Arrive? && |s.queue| >= s.queueMaxSize
      && EstimateWaitSeconds(|s.queue|, s.ctl.limit, Mean(s.ctl.latency)) <= s.queueTimeout
    case TimedOutWaiting => step.Expire?
    case ClientLeft => step.ClientGone?
    case Admitted => step.Resolve? && step.id in s.futures && s.futures[step.id].Pending?
    case ResponseOpened => step.Send? && step.outcome.Responded?
    case ResponseHanded => Resolves(s, step, Pending)
    case ResponseClosed => Resolves(s, step, Cancelled)
  }

  /** A dispatch ends holding a response while its future is in the given state. */
  ghost predicate Resolves(s: System, step: Step, future: Future) {
    && step.Resolve? && step.id in s.futures && s.futures[step.id] == future
    && step.id in s.tasks && Has(HoldsResponse, s.tasks[step.id].phase)
  }

  ghost function Occurrences(states: seq<System>, steps: seq<Step>, i: nat, e: Event): nat
    requires i <= |steps| < |states|
  {
    if i == 0 then 0
    else Occurrences(states, steps, i - 1, e) + One(Happens(states[i - 1], steps[i - 1], e))
  }

  lemma ArriveCounts(s: System, e: Entry, event: Event)
    ensures CounterOf(ArriveNext(s, e).stats, event)
            == CounterOf(s.stats, event) + One(Happens(s, Arrive(e), event))
  {
  }

  lemma ResolveCounts(s: System, id: nat, event: Event)
    requires id in s.tasks && s.tasks[id].phase.SlotFreed? && id in s.futures
    ensures CounterOf(ResolveNext(s, id).stats, event)
            == CounterOf(s.stats, event) + One(Happens(s, Resolve(id), event))
  {
  }

  lemma EventCounts(s: System, step: Step, s': System, event: Event)
    requires RequestsInv(s) && Transition(s, step, s')
    ensures CounterOf(s'.stats, event) == CounterOf(s.stats, event) + One(Happens(s, step, event))
  {
    if step.Arrive? {
      ArriveCounts(s, step.entry, event);
    } else if step.Resolve? {
      ResolveCounts(s, step.id, event);
    } else if Quiet(step) {
      QuietFrame(s, step, s');
    } else if step.Pop? {
      assert s'.stats == s.stats;
    } else if MovesTask(step) {
      TaskFrame(s, step, s');
    }
  }

  /** After every run each counter is the number of its own events: swapping two of them, or missing
      one, would show. */
  lemma CountersCountEvents(states: seq<System>, steps: seq<Step>, i: nat, event: Event)
    requires Run(states, steps) && i <= |steps|
    ensures CounterOf(states[i].stats, event) == Occurrences(states, steps, i, event)
  {
    StartsAtZero(states[0], event);
    for k := 0 to i
      invariant CounterOf(states[k].stats, event) == Occurrences(states, steps, k, event)
    {
      OneEvent(states, steps, k, event);
    }
  }

  lemma StartsAtZero(s: System, event: Event)
    requires Initial(s)
    ensures CounterOf(s.stats, event) == 0
  {
  }

  lemma OneEvent(states: seq<System>, steps: seq<Step>, i: nat, event: Event)
    requires Run(states, steps) && i < |steps|
    ensures CounterOf(states[i + 1].stats, event)
            == CounterOf(states[i].stats, event) + One(Happens(states[i], steps[i], event))
  {
    RunKeepsInv(states, steps, i);
    assert Transition(states[i], steps[i], states[i + 1]);
    EventCounts(states[i], steps[i], states[i + 1], event);
  }

  // ---------------------------------------------------------------- windows hold outcomes

  /** The outcome of the dispatch whose slot a step gives back. */
  ghost function OutcomeAt(s: System, step: Step): Option<Outcome> {
    if step.FreeSlot? && step.id in s.tasks && s.tasks[step.id].phase.InstanceFreed?
    then Some(s.tasks[step.id].phase.outcome) else None
  }

  /** The latency sample a step contributes: a response below 500, and also a failure to connect or
      to send; a discarded entry contributes a sample of zero; a timeout or a 5xx none. */
  ghost function SampleAt(s: System, step: Step): seq<real> {
    if step.Discard? then [0.0]
    else
      match OutcomeAt(s, step)
      case None => []
      case Some(Responded(status)) => if status < 500 then [step.latencyMs] else []
      case Some(TimedOut) => []
      case Some(ConnectFailed) => [step.latencyMs]
      case Some(OtherHttpError) => [step.latencyMs]
  }

  ghost function TimeoutAt(s: System, step: Step): seq<bool> {
    if step.Discard? then [false]
    else match OutcomeAt(s, step)
      case None => []
      case Some(outcome) => [outcome == TimedOut]
  }

  ghost function ErrorAt(s: System, step: Step): seq<bool> {
    if step.Discard? then [false]
    else match OutcomeAt(s, step)
      case None => []
      case Some(outcome) => [outcome.Responded? && outcome.status >= 500]
  }

  ghost function Samples(states: seq<System>, steps: seq<Step>, i: nat): seq<real>
    requires i <= |steps| < |states|
  {
    if i == 0 then [] else Samples(states, steps, i - 1) + SampleAt(states[i - 1], steps[i - 1])
  }

  ghost function Timeouts(states: seq<System>, steps: seq<Step>, i: nat): seq<bool>
    requires i <= |steps| < |states|
  {
    if i == 0 then [] else Timeouts(states, steps, i - 1) + TimeoutAt(states[i - 1], steps[i - 1])
  }

  ghost function Errors(states: seq<System>, steps: seq<Step>, i: nat): seq<bool>
    requires i <= |steps| < |states|
  {
    if i == 0 then [] else Errors(states, steps, i - 1) + ErrorAt(states[i - 1], steps[i - 1])
  }

  /** A window after zero or one more outcomes. */
  ghost predicate Extends<T>(window: seq<T>, more: seq<T>, window': seq<T>) {
    (more == [] && window' == window)
    || (|more| == 1 && window' == Push(window, more[0], WINDOW_SIZE))
  }

  lemma WindowStep(s: System, step: Step, s': System)
    requires Transition(s, step, s')
    ensures s'.ctl.policy == s.ctl.policy
    ensures Extends(s.ctl.latency, SampleAt(s, step), s'.ctl.latency)
    ensures s.ctl.policy.AdaptiveLimit? ==>
      && Extends(s.ctl.timeouts, TimeoutAt(s, step), s'.ctl.timeouts)
      && Extends(s.ctl.errors, ErrorAt(s, step), s'.ctl.errors)
  {
  }

  lemma ExtendsLastN<T>(history: seq<T>, more: seq<T>, window: seq<T>, window': seq<T>)
    requires window == LastN(history, WINDOW_SIZE) && Extends(window, more, window')
    ensures window' == LastN(history + more, WINDOW_SIZE)
  {
    if more == [] {
      assert history + more == history;
    } else {
      PushKeepsLastN(history, more[0], WINDOW_SIZE);
      assert more == [more[0]];
    }
  }

  ghost predicate HoldLastOutcomes(c: C.Controller, samples: seq<real>, timeouts: seq<bool>, errors: seq<bool>) {
    && c.latency == LastN(samples, WINDOW_SIZE)
    && (c.policy.AdaptiveLimit? ==>
          c.timeouts == LastN(timeouts, WINDOW_SIZE) && c.errors == LastN(errors, WINDOW_SIZE))
  }

  lemma OutcomesStep(s: System, step: Step, s': System, samples: seq<real>, timeouts: seq<bool>, errors: seq<bool>)
    requires Transition(s, step, s') && HoldLastOutcomes(s.ctl, samples, timeouts, errors)
    ensures s'.ctl.policy == s.ctl.policy
    ensures HoldLastOutcomes(s'.ctl, samples + SampleAt(s, step), timeouts + TimeoutAt(s, step),
                             errors + ErrorAt(s, step))
  {
    WindowStep(s, step, s');
    ExtendsLastN(samples, SampleAt(s, step), s.ctl.latency, s'.ctl.latency);
    if s.ctl.policy.AdaptiveLimit? {
      ExtendsLastN(timeouts, TimeoutAt(s, step), s.ctl.timeouts, s'.ctl.timeouts);
      ExtendsLastN(errors, ErrorAt(s, step), s.ctl.errors, s'.ctl.errors);
    }
  }

  lemma NoOutcomesYet(s: System)
    requires Initial(s)
    ensures HoldLastOutcomes(s.ctl, [], [], [])
  {
  }

  /** In every reachable state the controller's latency window is exactly the last 100 samples the
      run's releases contributed, and an adaptive controller's failure windows exactly the last 100
      outcomes. */
  lemma {:induction false} WindowsHoldLastOutcomes(states: seq<System>, steps: seq<Step>, i: nat)
    requires Run(states, steps) && i <= |steps|
    ensures states[i].ctl.policy == states[0].ctl.policy
    ensures HoldLastOutcomes(states[i].ctl, Samples(states, steps, i), Timeouts(states, steps, i),
                             Errors(states, steps, i))
  {
    if i == 0 {
      NoOutcomesYet(states[0]);
    } else {
      WindowsHoldLastOutcomes(states, steps, i - 1);
      assert Transition(states[i - 1], steps[i - 1], states[i - 1 + 1]);
      OutcomesStep(states[i - 1], steps[i - 1], states[i], Samples(states, steps, i - 1),
                   Timeouts(states, steps, i - 1), Errors(states, steps, i - 1));
    }
  }

  // ---------------------------------------------------------------- health

  /** The step gives up an instance after failing to connect to it. */
  ghost predicate ConnectFailure(s: System, step: Step, u: B.Url) {
    && step.FreeInstance? && step.id in s.tasks && s.tasks[step.id].phase.Finished?
    && s.tasks[step.id].phase.url == u && s.tasks[step.id].phase.outcome == ConnectFailed
  }

  ghost predicate IsDown(s: System, u: B.Url) { u in s.lb.healthy && !s.lb.healthy[u] }

  lemma HealthStep(s: System, step: Step, s': System, u: B.Url)
    requires Transition(s, step, s') && u in s.lb.order
    ensures s'.lb.order == s.lb.order
    ensures IsDown(s', u) <==> ConnectFailure(s, step, u) || (IsDown(s, u) && step != Recover(u))
  {
    if step.FreeInstance? {
      var Task(e, Finished(url, outcome)) := s.tasks[step.id];
      ReleaseHealth(s.lb, url, outcome.ConnectFailed?, step.clock, u);
    } else if step.Recover? {
      RecoverHealth(s.lb, step.url, u);
    } else {
      assert s'.lb.order == s.lb.order && s'.lb.healthy == s.lb.healthy;
    }
  }

  lemma ReleaseHealth(lb: B.Balancer, url: B.Url, connectFailed: bool, clock: real, u: B.Url)
    requires B.WellFormed(lb) && u in lb.order
    ensures var lb' := B.Release(lb, url, connectFailed, clock);
            && lb'.order == lb.order && u in lb'.healthy && u in lb.healthy
            && lb'.healthy[u] == (lb.healthy[u] && !(connectFailed && url == u))
  {
  }

  lemma RecoverHealth(lb: B.Balancer, url: B.Url, u: B.Url)
    requires B.WellFormed(lb) && u in lb.order
    ensures var lb' := B.Recover(lb, url);
            && lb'.order == lb.order && u in lb'.healthy && u in lb.healthy
            && lb'.healthy[u] == (lb.healthy[u] || url == u)
  {
  }

  /** Since some connection failure before `i` no probe of the instance has succeeded. */
  ghost predicate FailedSince(states: seq<System>, steps: seq<Step>, i: nat, u: B.Url)
    requires i <= |steps| < |states|
  {
    exists k :: 0 <= k < i && ConnectFailure(states[k], steps[k], u)
                && forall j :: k < j < i ==> steps[j] != Recover(u)
  }

  lemma FailedSinceStep(states: seq<System>, steps: seq<Step>, i: nat, u: B.Url)
    requires 0 < i <= |steps| < |states|
    ensures FailedSince(states, steps, i, u)
            <==> ConnectFailure(states[i - 1], steps[i - 1], u)
                 || (FailedSince(states, steps, i - 1, u) && steps[i - 1] != Recover(u))
  {
    if FailedSince(states, steps, i - 1, u) && steps[i - 1] != Recover(u) {
      var k :| 0 <= k < i - 1 && ConnectFailure(states[k], steps[k], u)
               && forall j :: k < j < i - 1 ==> steps[j] != Recover(u);
      assert forall j :: k < j < i ==> steps[j] != Recover(u);
    }
    if FailedSince(states, steps, i, u) {
      var k :| 0 <= k < i && ConnectFailure(states[k], steps[k], u)
               && forall j :: k < j < i ==> steps[j] != Recover(u);
      if k < i - 1 {
        assert forall j :: k < j < i - 1 ==> steps[j] != Recover(u);
      }
    }
  }

  /** An instance is out of rotation if and only if a dispatch failed to connect to it and no probe
      has succeeded since. */
  lemma {:induction false} DownIffFailedSince(states: seq<System>, steps: seq<Step>, i: nat, u: B.Url)
    requires Run(states, steps) && i <= |steps| && u in states[0].lb.order
    ensures states[i].lb.order == states[0].lb.order
    ensures IsDown(states[i], u) <==> FailedSince(states, steps, i, u)
  {
    if i > 0 {
      DownIffFailedSince(states, steps, i - 1, u);
      assert Transition(states[i - 1], steps[i - 1], states[i - 1 + 1]);
      HealthStep(states[i - 1], steps[i - 1], states[i], u);
      FailedSinceStep(states, steps, i, u);
    }
  }
}
