/**
  `FixedController` and `AdaptiveController`, updated in place.

  `acquire` suspends its coroutine, so it is two methods here: `Acquire` is its first atomic
  section, `Resume` the section a notified waiter runs. Each method is proved equal to the
  function of the same section in `Capacity`, whose runs carry the guarantees.
 */
module Controllers {
  import opened Wrappers
  import opened Windows
  import opened Capacity

  /** The part of `asyncio.Condition` the controllers use: the deque of waiters. */
  class ConditionVariable {
    var waiters: seq<Waiter>

    constructor ()
      ensures waiters == []
    {
      waiters := [];
    }

    method Sleep(tid: nat)
      modifies this
      ensures waiters == old(waiters) + [Waiter(tid, false)]
    {
      waiters := waiters + [Waiter(tid, false)];
    }

    method Wake(i: nat) returns (tid: nat)
      requires i < |waiters|
      modifies this
      ensures waiters == Without(old(waiters), i) && tid == old(waiters)[i].tid
    {
      tid := waiters[i].tid;
      waiters := waiters[..i] + waiters[i + 1..];
    }

    method NotifyUpTo(n: nat)
      modifies this
      ensures waiters == Notify(old(waiters), n)
    {
      ghost var before := waiters;
      var i, woken := 0, 0;
      while i < |waiters| && woken < n
        invariant 0 <= i <= |waiters| == |before|
        invariant woken <= n
        invariant waiters[i..] == before[i..]
        invariant Notify(before, n) == waiters[..i] + Notify(before[i..], n - woken)
      {
        NotifyStep(before, waiters[..i], i, n - woken, n);
        ghost var done := waiters[..i];
        if !waiters[i].notified {
          waiters := waiters[i := waiters[i].(notified := true)];
          woken := woken + 1;
        }
        assert waiters[..i + 1] == done + [before[i].(notified := true)];
        i := i + 1;
      }
      assert waiters == waiters[..i] + waiters[i..];
    }
  }

  /** `notify` deals with one more waiter. */
  lemma NotifyStep(before: seq<Waiter>, done: seq<Waiter>, i: nat, left: nat, n: nat)
    requires i < |before| && 0 < left && Notify(before, n) == done + Notify(before[i..], left)
    ensures Notify(before, n) == done + [before[i].(notified := true)]
                                 + Notify(before[i + 1..], if before[i].notified then left else left - 1)
  {
    NotifyHead(before[i..], left);
    assert before[i..][1..] == before[i + 1..];
  }

  class FixedController {
    const limit: int
    var inFlight: int
    const condition: ConditionVariable
    const latency: LatencyWindow

    ghost function Value(): Controller
      reads this, condition, latency
    {
      Controller(FixedLimit, limit, inFlight, condition.waiters, false, latency.samples, [], [], 0.0)
    }

    ghost predicate Valid()
      reads this, condition, latency
    {
      latency.Valid() && Inv(Value())
    }

    constructor (limit: int)
      requires 0 < limit
      ensures Valid() && fresh(condition) && fresh(latency)
      ensures Initial(Value()) && Value().limit == limit && latency.history == []
    {
      this.limit := limit;
      inFlight := 0;
      condition := new ConditionVariable();
      latency := new LatencyWindow();
    }

    method Acquire(tid: nat) returns (admitted: bool)
      requires Valid()
      modifies this, condition
      ensures Valid() && Value() == Enter(old(Value()), tid)
      ensures admitted == (old(inFlight) < limit)
      ensures inFlight == old(inFlight) + if admitted then 1 else 0
    {
      EnterKeepsInv(Value(), tid);
      admitted := inFlight + 1 <= limit;
      if admitted {
        inFlight := inFlight + 1;
      } else {
        condition.Sleep(tid);
      }
    }

    method Resume(i: nat) returns (admitted: bool)
      requires Valid() && i < |condition.waiters| && condition.waiters[i].notified
      modifies this, condition
      ensures Valid() && Value() == Rerun(old(Value()), i)
      ensures admitted == (old(inFlight) < limit)
    {
      RerunKeepsInv(Value(), i);
      var tid := condition.Wake(i);
      admitted := inFlight + 1 <= limit;
      if admitted {
        inFlight := inFlight + 1;
      } else {
        condition.Sleep(tid);
      }
    }

    /** The sample enters the latency window unless the release reports a timeout or a 5xx status;
        a status of 0 (connection failure, cancelled pop) therefore counts as a good sample. */
    method Release(latencyMs: real, status: int, timedOut: bool)
      requires Valid() && inFlight > 0
      modifies this, condition, latency
      ensures Valid() && Value() == Leave(old(Value()), latencyMs, status, timedOut)
      ensures latency.history == old(latency.history) +
                if !timedOut && status < 500 then [latencyMs] else []
    {
      StepKeepsInv(Value(), LeaveOp(latencyMs, status, timedOut));
      inFlight := inFlight - 1;
      if !timedOut && status < 500 {
        latency.Record(latencyMs);
      }
      condition.NotifyUpTo(1);
    }

    method CurrentLimit() returns (r: int)
      ensures r == limit
    {
      r := limit;
    }

    method MeanLatencyMs() returns (mean: Option<real>)
      ensures mean == Mean(latency.samples)
    {
      mean := latency.ReadMean();
    }
  }

  class AdaptiveController {
    const policy: Policy
    var limit: int
    var inFlight: int
    var raisePending: bool
    var cooldownUntil: real
    const condition: ConditionVariable
    const latency: LatencyWindow
    const timeouts: RateWindow
    const errors: RateWindow

    ghost function Value(): Controller
      reads this, condition, latency, timeouts, errors
    {
      Controller(policy, limit, inFlight, condition.waiters, raisePending,
                 latency.samples, timeouts.outcomes, errors.outcomes, cooldownUntil)
    }

    ghost predicate Valid()
      reads this, condition, latency, timeouts, errors
    {
      && policy.AdaptiveLimit? && timeouts != errors
      && latency.Valid() && timeouts.Valid() && errors.Valid()
      && Inv(Value())
    }

    /** `lo <= initial <= hi` is what the configuration means but never checks. */
    constructor (policy: Policy, initial: int)
      requires policy.AdaptiveLimit? && 0 < policy.lo <= initial <= policy.hi
      ensures Valid() && Initial(Value()) && limit == initial && this.policy == policy
      ensures fresh(condition) && fresh(latency) && fresh(timeouts) && fresh(errors)
    {
      this.policy := policy;
      limit, inFlight, raisePending, cooldownUntil := initial, 0, false, 0.0;
      condition := new ConditionVariable();
      latency := new LatencyWindow();
      timeouts := new RateWindow();
      errors := new RateWindow();
    }

    method Acquire(tid: nat) returns (admitted: bool)
      requires Valid()
      modifies this`inFlight, condition
      ensures Valid() && Value() == Enter(old(Value()), tid)
      ensures admitted == (old(inFlight) < limit)
    {
      EnterKeepsInv(Value(), tid);
      admitted := inFlight + 1 <= limit;
      if admitted {
        inFlight := inFlight + 1;
      } else {
        condition.Sleep(tid);
      }
    }

    method Resume(i: nat) returns (admitted: bool)
      requires Valid() && i < |condition.waiters| && condition.waiters[i].notified
      modifies this`inFlight, condition
      ensures Valid() && Value() == Rerun(old(Value()), i)
      ensures admitted == (old(inFlight) < limit)
    {
      RerunKeepsInv(Value(), i);
      var tid := condition.Wake(i);
      admitted := inFlight + 1 <= limit;
      if admitted {
        inFlight := inFlight + 1;
      } else {
        condition.Sleep(tid);
      }
    }

    method Release(latencyMs: real, status: int, timedOut: bool)
      requires Valid() && inFlight > 0
      modifies this`inFlight, condition, latency, timeouts, errors
      ensures Valid() && Value() == Leave(old(Value()), latencyMs, status, timedOut)
      ensures latency.history == old(latency.history) +
                if !timedOut && status < 500 then [latencyMs] else []
      ensures timeouts.history == old(timeouts.history) + [timedOut]
      ensures errors.history == old(errors.history) + [status >= 500 && !timedOut]
    {
      StepKeepsInv(Value(), LeaveOp(latencyMs, status, timedOut));
      inFlight := inFlight - 1;
      timeouts.Record(timedOut);
      errors.Record(status >= 500 && !timedOut);
      if !timedOut && status < 500 {
        latency.Record(latencyMs);
      }
      condition.NotifyUpTo(1);
    }

    /** `_adjust`, up to where a raise must still wake the waiters. */
    method AdjustLimit(clock: real, err: nat)
      requires Valid() && !raisePending
      modifies this`limit, this`cooldownUntil, this`raisePending
      ensures Value() == Adjust(old(Value()), clock, err)
    {
      ghost var branch := BranchOf(Value());
      var p95 := latency.ReadP95();
      if p95.None? {
        return;
      }
      var before := limit;
      var timeoutRate := timeouts.ReadRate();
      var errorRate := errors.ReadRate();
      if timeoutRate > policy.timeoutThreshold {
        assert branch.TimeoutShrink?;
        limit := Max(policy.lo, limit * 60 / 100 - err);
        cooldownUntil := clock + 60.0;
      } else if errorRate > policy.errorThreshold {
        assert branch.ErrorShrink?;
        limit := Max(policy.lo, limit * 75 / 100 - err);
        cooldownUntil := clock + 30.0;
      } else if p95.value > 2.0 * policy.targetP95 {
        assert branch.HardShrink?;
        limit := Max(policy.lo, limit * 70 / 100 - err);
        cooldownUntil := clock + 30.0;
      } else if p95.value > policy.targetP95 {
        assert branch.SoftShrink?;
        limit := Max(policy.lo, limit * 85 / 100 - err);
      } else if p95.value < 0.5 * policy.targetP95 {
        assert branch.Grow?;
        limit := Min(policy.hi, limit * 105 / 100);
      }
      raisePending := limit > before;
    }

    /** One turn of `adjust_loop`. */
    method AdjustTurn(now: real, clock: real, err: nat)
      requires Valid() && !raisePending && now <= clock && err <= 1
      modifies this`limit, this`cooldownUntil, this`raisePending
      ensures Valid() && Value() == Apply(old(Value()), AdjustOp(now, clock, err))
      ensures if now < old(cooldownUntil) then Value() == old(Value())
              else AdjustedByOutcomes(old(Value()), Value(), clock, err)
    {
      StepKeepsInv(Value(), AdjustOp(now, clock, err));
      AdjustByOutcomes(Value(), clock, err);
      if now >= cooldownUntil {
        AdjustLimit(clock, err);
      }
    }

    method NotifyAllWaiters()
      requires Valid() && raisePending
      modifies this`raisePending, condition
      ensures Valid() && Value() == Broadcast(old(Value()))
    {
      StepKeepsInv(Value(), BroadcastOp);
      condition.NotifyUpTo(|condition.waiters|);
      raisePending := false;
    }

    method MeanLatencyMs() returns (mean: Option<real>)
      ensures mean == Mean(latency.samples)
    {
      mean := latency.ReadMean();
    }
  }

  /** Either controller, as the scheduler and the dispatcher use it. */
  datatype AnyController = Fixed(fixed: FixedController) | Adaptive(adaptive: AdaptiveController) {

    ghost function Repr(): set<object> {
      match this
      case Fixed(c) => {c, c.condition, c.latency}
      case Adaptive(c) => {c, c.condition, c.latency, c.timeouts, c.errors}
    }

    ghost function Value(): Controller
      reads Repr()
    {
      match this
      case Fixed(c) => c.Value()
      case Adaptive(c) => c.Value()
    }

    ghost predicate Valid()
      reads Repr()
    {
      match this
      case Fixed(c) => c.Valid()
      case Adaptive(c) => c.Valid()
    }

    method Release(latencyMs: real, status: int, timedOut: bool)
      requires Valid() && Value().inFlight > 0
      modifies Repr()
      ensures Valid() && Value() == Leave(old(Value()), latencyMs, status, timedOut)
    {
      match this
      case Fixed(c) => c.Release(latencyMs, status, timedOut);
      case Adaptive(c) => c.Release(latencyMs, status, timedOut);
    }

    method CurrentLimit() returns (limit: int)
      ensures limit == Value().limit
    {
      match this
      case Fixed(c) => limit := c.CurrentLimit();
      case Adaptive(c) => limit := c.limit;
    }

    method MeanLatencyMs() returns (mean: Option<real>)
      ensures mean == Mean(Value().latency)
    {
      match this
      case Fixed(c) => mean := c.MeanLatencyMs();
      case Adaptive(c) => mean := c.MeanLatencyMs();
    }
  }
}
