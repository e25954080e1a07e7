/**
  Concurrency controllers as values: one function per atomic section of `FixedController` and
  `AdaptiveController`, and the runs those sections make.

  A coroutine blocked in `acquire` is a waiter on the controller's condition variable. It is
  either asleep or notified; a notified waiter still has to run again and re-check the limit.
  Requests cost one slot each.
 */
module Capacity {
  import opened Windows

  datatype Policy =
    | FixedLimit
    | AdaptiveLimit(lo: int, hi: int, targetP95: real, timeoutThreshold: real, errorThreshold: real)

  datatype Waiter = Waiter(tid: nat, notified: bool)

  datatype Controller = Controller(
    policy: Policy,
    limit: int,
    inFlight: int,
    waiters: seq<Waiter>,
    /** The limit was raised and the `notify_all` that must follow has not run yet. */
    raisePending: bool,
    latency: seq<real>,
    timeouts: seq<bool>,
    errors: seq<bool>,
    cooldownUntil: real)
  {
    predicate HasRoom() { inFlight + 1 <= limit }

    /** The most slots that can ever be taken. */
    function Ceiling(): int { if policy.FixedLimit? then limit else policy.hi }
  }

  // ---------------------------------------------------------------- condition variable

  /** `Condition.notify(n)`: the first `n` waiters not yet notified. */
  function Notify(waiters: seq<Waiter>, n: nat): seq<Waiter> {
    if waiters == [] || n == 0 then waiters
    else if waiters[0].notified then [waiters[0]] + Notify(waiters[1..], n)
    else [waiters[0].(notified := true)] + Notify(waiters[1..], n - 1)
  }

  lemma NotifyHead(waiters: seq<Waiter>, n: nat)
    requires waiters != [] && n > 0
    ensures Notify(waiters, n) == [waiters[0].(notified := true)]
                                  + Notify(waiters[1..], if waiters[0].notified then n else n - 1)
  {
  }

  function NotifyAll(waiters: seq<Waiter>): seq<Waiter> { Notify(waiters, |waiters|) }

  function Without(waiters: seq<Waiter>, i: nat): seq<Waiter>
    requires i < |waiters|
  {
    waiters[..i] + waiters[i + 1..]
  }

  // ---------------------------------------------------------------- atomic sections

  /** `acquire`, from its first instruction: take a slot or go to sleep. */
  function Enter(c: Controller, tid: nat): Controller {
    if c.HasRoom() then c.(inFlight := c.inFlight + 1)
    else c.(waiters := c.waiters + [Waiter(tid, false)])
  }

  /** A notified waiter runs again: it leaves the deque and re-checks the limit. */
  function Rerun(c: Controller, i: nat): Controller
    requires i < |c.waiters|
  {
    Enter(c.(waiters := Without(c.waiters, i)), c.waiters[i].tid)
  }

  function Leave(c: Controller, latencyMs: real, status: int, timedOut: bool): Controller {
    var latency := if !timedOut && status < 500 then Push(c.latency, latencyMs, WINDOW_SIZE) else c.latency;
    var released := c.(inFlight := c.inFlight - 1, latency := latency, waiters := Notify(c.waiters, 1));
    if c.policy.FixedLimit? then released
    else released.(timeouts := Push(c.timeouts, timedOut, WINDOW_SIZE),
                   errors := Push(c.errors, status >= 500 && !timedOut, WINDOW_SIZE))
  }

  function Broadcast(c: Controller): Controller {
    c.(waiters := NotifyAll(c.waiters), raisePending := false)
  }

  datatype Branch = Unsampled | TimeoutShrink | ErrorShrink | HardShrink | SoftShrink | Grow | Hold

  /** Which branch of `_adjust` the windows select. */
  function BranchOf(c: Controller): Branch
    requires c.policy.AdaptiveLimit?
  {
    var p95 := P95(c.latency);
    var p := c.policy;
    if p95.None? then Unsampled
    else if Rate(c.timeouts) > p.timeoutThreshold then TimeoutShrink
    else if Rate(c.errors) > p.errorThreshold then ErrorShrink
    else if p95.value > 2.0 * p.targetP95 then HardShrink
    else if p95.value > p.targetP95 then SoftShrink
    else if p95.value < 0.5 * p.targetP95 then Grow
    else Hold
  }

  function CooldownSeconds(branch: Branch): real {
    match branch
    case TimeoutShrink => 60.0
    case ErrorShrink => 30.0
    case HardShrink => 30.0
    case _ => 0.0
  }

  function Max(a: int, b: int): (m: int)
    ensures a <= m && b <= m && (m == a || m == b)
  {
    if a < b then b else a
  }

  function Min(a: int, b: int): (m: int)
    ensures m <= a && m <= b && (m == a || m == b)
  {
    if a < b then a else b
  }

  /** The limit a branch sets. `err` is what the double-precision product may lose below the exact
      floor when shrinking (`int(90 * 0.70)` is 62). */
  function NewLimit(branch: Branch, limit: int, lo: int, hi: int, err: nat): int {
    match branch
    case TimeoutShrink => Max(lo, limit * 60 / 100 - err)
    case ErrorShrink => Max(lo, limit * 75 / 100 - err)
    case HardShrink => Max(lo, limit * 70 / 100 - err)
    case SoftShrink => Max(lo, limit * 85 / 100 - err)
    case Grow => Min(hi, limit * 105 / 100)
    case _ => limit
  }

  function Adjust(c: Controller, clock: real, err: nat): Controller
    requires c.policy.AdaptiveLimit?
  {
    var branch := BranchOf(c);
    var limit := NewLimit(branch, c.limit, c.policy.lo, c.policy.hi, err);
    var cooldown := CooldownSeconds(branch);
    c.(limit := limit,
       cooldownUntil := if cooldown > 0.0 then clock + cooldown else c.cooldownUntil,
       raisePending := limit > c.limit)
  }

  /** What one adjustment does, told by the outcomes in the windows: nothing below ten samples; else too many
      timeouts, too many errors, one sample in twenty above twice the target or above the target each cut the
      limit, the first three with a cooldown; and it grows when more than nineteen samples in twenty are below
      half the target. */
  ghost predicate AdjustedByOutcomes(c: Controller, r: Controller, clock: real, err: nat) {
    match c.policy
    case FixedLimit => false
    case AdaptiveLimit(lo, hi, target, timeoutThreshold, errorThreshold) =>
      var n := |c.latency|;
      && r == c.(limit := r.limit, cooldownUntil := r.cooldownUntil, raisePending := r.limit > c.limit)
      && if n < 10 then
           r.limit == c.limit && r.cooldownUntil == c.cooldownUntil
         else if TooMany(c.timeouts, timeoutThreshold) then
           r.limit == Max(lo, (0.60 * c.limit as real).Floor - err) && r.cooldownUntil == clock + 60.0
         else if TooMany(c.errors, errorThreshold) then
           r.limit == Max(lo, (0.75 * c.limit as real).Floor - err) && r.cooldownUntil == clock + 30.0
         else if 20 * CountAbove(c.latency, 2.0 * target) >= n then
           r.limit == Max(lo, (0.70 * c.limit as real).Floor - err) && r.cooldownUntil == clock + 30.0
         else if 20 * CountAbove(c.latency, target) >= n then
           r.limit == Max(lo, (0.85 * c.limit as real).Floor - err) && r.cooldownUntil == c.cooldownUntil
         else if 20 * CountBelow(c.latency, 0.5 * target) > 19 * n then
           r.limit == Min(hi, (1.05 * c.limit as real).Floor) && r.cooldownUntil == c.cooldownUntil
         else
           r.limit == c.limit && r.cooldownUntil == c.cooldownUntil
  }

  lemma SharesInPercent(limit: int)
    ensures (0.60 * limit as real).Floor == limit * 60 / 100
    ensures (0.75 * limit as real).Floor == limit * 75 / 100
    ensures (0.70 * limit as real).Floor == limit * 70 / 100
    ensures (0.85 * limit as real).Floor == limit * 85 / 100
    ensures (1.05 * limit as real).Floor == limit * 105 / 100
  {
  }

  /** The branches, by counting outcomes in any order. */
  lemma BranchByOutcomes(c: Controller)
    requires c.policy.AdaptiveLimit?
    ensures var n, p, branch := |c.latency|, c.policy, BranchOf(c);
            if n < 10 then branch.Unsampled?
            else if TooMany(c.timeouts, p.timeoutThreshold) then branch.TimeoutShrink?
            else if TooMany(c.errors, p.errorThreshold) then branch.ErrorShrink?
            else if 20 * CountAbove(c.latency, 2.0 * p.targetP95) >= n then branch.HardShrink?
            else if 20 * CountAbove(c.latency, p.targetP95) >= n then branch.SoftShrink?
            else if 20 * CountBelow(c.latency, 0.5 * p.targetP95) > 19 * n then branch.Grow?
            else branch.Hold?
  {
    RateExceedsIff(c.timeouts, c.policy.timeoutThreshold);
    RateExceedsIff(c.errors, c.policy.errorThreshold);
    if |c.latency| >= 10 {
      P95ByCounting(c.latency, 2.0 * c.policy.targetP95);
      P95ByCounting(c.latency, c.policy.targetP95);
      P95ByCountingBelow(c.latency, 0.5 * c.policy.targetP95);
    }
  }

  lemma AdjustByOutcomes(c: Controller, clock: real, err: nat)
    requires c.policy.AdaptiveLimit?
    ensures AdjustedByOutcomes(c, Adjust(c, clock, err), clock, err)
  {
    SharesInPercent(c.limit);
    BranchByOutcomes(c);
  }

  // ---------------------------------------------------------------- runs

  datatype Op =
    | EnterOp(tid: nat)
    | RerunOp(index: nat)
    | LeaveOp(latencyMs: real, status: int, timedOut: bool)
    /** One turn of `adjust_loop`: the cooldown is checked at `now`, a new one starts at `clock`. */
    | AdjustOp(now: real, clock: real, err: nat)
    | BroadcastOp

  predicate Enabled(c: Controller, op: Op) {
    match op
    case EnterOp(_) => true
    case RerunOp(i) => i < |c.waiters| && c.waiters[i].notified
    case LeaveOp(_, _, _) => c.inFlight > 0
    case AdjustOp(now, clock, err) =>
      c.policy.AdaptiveLimit? && !c.raisePending && now <= clock && err <= 1
    case BroadcastOp => c.raisePending
  }

  function Apply(c: Controller, op: Op): Controller
    requires Enabled(c, op)
  {
    match op
    case EnterOp(tid) => Enter(c, tid)
    case RerunOp(i) => Rerun(c, i)
    case LeaveOp(latencyMs, status, timedOut) => Leave(c, latencyMs, status, timedOut)
    case AdjustOp(now, clock, err) => if now < c.cooldownUntil then c else Adjust(c, clock, err)
    case BroadcastOp => Broadcast(c)
  }

  ghost predicate Run(states: seq<Controller>, ops: seq<Op>) {
    && |states| == |ops| + 1
    && forall i :: 0 <= i < |ops| ==> Enabled(states[i], ops[i]) && states[i + 1] == Apply(states[i], ops[i])
  }

  // ---------------------------------------------------------------- invariant

  function NotifiedCount(waiters: seq<Waiter>): (n: nat)
    ensures n <= |waiters|
  {
    if waiters == [] then 0 else NotifiedCount(waiters[1..]) + if waiters[0].notified then 1 else 0
  }

  predicate PolicyOk(c: Controller) {
    match c.policy
    case FixedLimit => 0 < c.limit && !c.raisePending
    case AdaptiveLimit(lo, hi, _, _, _) => 0 < lo <= c.limit <= hi
  }

  /** A free slot always has a notified waiter on its way to it, as long as anybody sleeps. */
  predicate NoLostWakeup(c: Controller) {
    c.raisePending || NotifiedCount(c.waiters) == |c.waiters|
    || c.limit - c.inFlight <= NotifiedCount(c.waiters)
  }

  predicate Inv(c: Controller) {
    PolicyOk(c) && 0 <= c.inFlight <= c.Ceiling() && NoLostWakeup(c)
  }

  predicate Initial(c: Controller) {
    PolicyOk(c) && c.inFlight == 0 && c.waiters == [] && !c.raisePending
    && c.latency == [] && c.timeouts == [] && c.errors == [] && c.cooldownUntil == 0.0
  }

  lemma {:induction false} NotifiedAppend(a: seq<Waiter>, b: seq<Waiter>)
    ensures NotifiedCount(a + b) == NotifiedCount(a) + NotifiedCount(b)
  {
    if a == [] {
      assert a + b == b;
    } else {
      assert (a + b)[1..] == a[1..] + b;
      NotifiedAppend(a[1..], b);
    }
  }

  lemma {:induction false} NotifiedWithout(waiters: seq<Waiter>, i: nat)
    requires i < |waiters|
    ensures NotifiedCount(Without(waiters, i))
            == NotifiedCount(waiters) - if waiters[i].notified then 1 else 0
  {
    assert waiters == waiters[..i] + ([waiters[i]] + waiters[i + 1..]);
    NotifiedAppend(waiters[..i], [waiters[i]] + waiters[i + 1..]);
    NotifiedAppend([waiters[i]], waiters[i + 1..]);
    NotifiedAppend(waiters[..i], waiters[i + 1..]);
  }

  /** `notify(n)` wakes `n` sleepers, or all of them when fewer sleep. */
  lemma {:induction false} NotifyCounts(waiters: seq<Waiter>, n: nat)
    ensures |Notify(waiters, n)| == |waiters|
    ensures NotifiedCount(Notify(waiters, n)) == Min(|waiters|, NotifiedCount(waiters) + n)
    ensures forall i :: 0 <= i < |waiters| ==> Notify(waiters, n)[i].tid == waiters[i].tid
    ensures forall i :: 0 <= i < |waiters| && waiters[i].notified ==> Notify(waiters, n)[i].notified
  {
    if waiters != [] && n != 0 {
      var rest := if waiters[0].notified then Notify(waiters[1..], n) else Notify(waiters[1..], n - 1);
      NotifyCounts(waiters[1..], if waiters[0].notified then n else n - 1);
      assert Notify(waiters, n)[1..] == rest;
    }
  }

  lemma EnterKeepsInv(c: Controller, tid: nat)
    requires Inv(c)
    ensures Inv(Enter(c, tid))
  {
    NotifiedAppend(c.waiters, [Waiter(tid, false)]);
  }

  lemma RerunKeepsInv(c: Controller, i: nat)
    requires Inv(c) && i < |c.waiters| && c.waiters[i].notified
    ensures Inv(Rerun(c, i))
  {
    NotifiedWithout(c.waiters, i);
    NotifiedAppend(Without(c.waiters, i), [Waiter(c.waiters[i].tid, false)]);
  }

  lemma AdjustBounds(c: Controller, clock: real, err: nat)
    requires PolicyOk(c) && c.policy.AdaptiveLimit? && err <= 1
    ensures PolicyOk(Adjust(c, clock, err))
    ensures !BranchOf(c).Grow? ==> Adjust(c, clock, err).limit <= c.limit
  {
  }

  lemma StepKeepsInv(c: Controller, op: Op)
    requires Inv(c) && Enabled(c, op)
    ensures Inv(Apply(c, op))
  {
    match op
    case EnterOp(tid) => EnterKeepsInv(c, tid);
    case RerunOp(i) => RerunKeepsInv(c, i);
    case LeaveOp(_, _, _) => NotifyCounts(c.waiters, 1);
    case AdjustOp(now, clock, err) => AdjustBounds(c, clock, err);
    case BroadcastOp => NotifyCounts(c.waiters, |c.waiters|);
  }

  /** Every reachable state of a controller satisfies the invariant: the limit stays in its
      configured range, slots never exceed the ceiling, and no wake-up is lost. */
  lemma {:induction false} RunKeepsInv(states: seq<Controller>, ops: seq<Op>)
    requires Run(states, ops) && Initial(states[0])
    ensures forall i :: 0 <= i < |states| ==> Inv(states[i])
  {
    var n := 0;
    while n < |ops|
      invariant n <= |ops|
      invariant forall i :: 0 <= i <= n ==> Inv(states[i])
    {
      StepKeepsInv(states[n], ops[n]);
      n := n + 1;
    }
  }

  // ---------------------------------------------------------------- notify(1) is enough

  /** Notified waiters stand at the front of the deque, because asyncio wakes them in order. */
  ghost predicate NotifiedFirst(waiters: seq<Waiter>) {
    forall i, j :: 0 <= i < j < |waiters| && waiters[j].notified ==> waiters[i].notified
  }

  /** Lets every notified waiter run, in deque order, until none is left; returns whom it admits. */
  function Settle(c: Controller): (r: (Controller, seq<nat>))
    decreases NotifiedCount(c.waiters)
  {
    if c.waiters == [] || !c.waiters[0].notified then (c, [])
    else
      var c' := Rerun(c, 0);
      NotifiedWithout(c.waiters, 0);
      NotifiedAppend(Without(c.waiters, 0), [Waiter(c.waiters[0].tid, false)]);
      var (final, admitted) := Settle(c');
      (final, (if c.HasRoom() then [c.waiters[0].tid] else []) + admitted)
  }

  function Tids(waiters: seq<Waiter>): (tids: seq<nat>)
    ensures |tids| == |waiters|
  {
    seq(|waiters|, i requires 0 <= i < |waiters| => waiters[i].tid)
  }

  /** One turn of `Settle`: the front waiter leaves the line, with a slot or back to the end. */
  lemma {:induction false} FrontRerun(c: Controller)
    requires c.waiters != [] && c.waiters[0].notified
    ensures var tail := if c.HasRoom() then [] else [Waiter(c.waiters[0].tid, false)];
            Rerun(c, 0) == c.(waiters := c.waiters[1..] + tail,
                              inFlight := c.inFlight + if c.HasRoom() then 1 else 0)
    ensures NotifiedCount(Rerun(c, 0).waiters) == NotifiedCount(c.waiters) - 1
    ensures NotifiedFirst(c.waiters) ==> NotifiedFirst(Rerun(c, 0).waiters)
  {
    var tail := if c.HasRoom() then [] else [Waiter(c.waiters[0].tid, false)];
    assert Without(c.waiters, 0) == c.waiters[1..];
    assert c.waiters[1..] + [] == c.waiters[1..];
    NotifiedAppend(c.waiters[1..], tail);
    FirstKept(c.waiters, tail);
  }

  lemma FirstKept(waiters: seq<Waiter>, tail: seq<Waiter>)
    requires waiters != [] && forall i :: 0 <= i < |tail| ==> !tail[i].notified
    ensures NotifiedFirst(waiters) ==> NotifiedFirst(waiters[1..] + tail)
  {
  }

  lemma TidsAfterFront(waiters: seq<Waiter>, tail: seq<Waiter>, k: nat)
    requires 0 < k <= |waiters|
    ensures Tids(waiters)[..k] == [waiters[0].tid] + Tids(waiters[1..] + tail)[..k - 1]
  {
  }

  /** Settling admits the first waiters in line, as many as there is room and notification for. */
  lemma {:induction false} SettleAdmits(c: Controller)
    requires NotifiedFirst(c.waiters)
    ensures var k := Min(Max(c.limit - c.inFlight, 0), NotifiedCount(c.waiters));
            && Settle(c).1 == Tids(c.waiters)[..k]
            && Settle(c).0.inFlight == c.inFlight + k
    decreases NotifiedCount(c.waiters)
  {
    if c.waiters != [] && c.waiters[0].notified {
      FrontRerun(c);
      SettleAdmits(Rerun(c, 0));
      SettlePrefix(c);
    } else {
      NoneNotified(c.waiters);
    }
  }

  lemma {:induction false} SettlePrefix(c: Controller)
    requires c.waiters != [] && c.waiters[0].notified && NotifiedFirst(c.waiters)
    requires var c' := Rerun(c, 0);
             var k := Min(Max(c'.limit - c'.inFlight, 0), NotifiedCount(c'.waiters));
             && Settle(c').1 == Tids(c'.waiters)[..k]
             && Settle(c').0.inFlight == c'.inFlight + k
    ensures var k := Min(Max(c.limit - c.inFlight, 0), NotifiedCount(c.waiters));
            && Settle(c).1 == Tids(c.waiters)[..k]
            && Settle(c).0.inFlight == c.inFlight + k
  {
    FrontRerun(c);
    if c.HasRoom() {
      TidsAfterFront(c.waiters, [], Min(Max(c.limit - c.inFlight, 0), NotifiedCount(c.waiters)));
    }
  }

  lemma {:induction false} NoneNotified(waiters: seq<Waiter>)
    requires forall i :: 0 <= i < |waiters| ==> !waiters[i].notified
    ensures NotifiedCount(waiters) == 0
  {
    if waiters != [] { NoneNotified(waiters[1..]); }
  }

  lemma {:induction false} AllNotified(waiters: seq<Waiter>)
    requires NotifiedCount(waiters) == |waiters|
    ensures forall i :: 0 <= i < |waiters| ==> waiters[i].notified
  {
    if waiters != [] { AllNotified(waiters[1..]); }
  }

  /** Waking `cost` waiters per release admits exactly the waiters, in exactly the order, that
      waking all of them would. */
  lemma NotifyOneAdmitsWhatNotifyAllWould(c: Controller)
    requires Inv(c) && !c.raisePending && NotifiedFirst(c.waiters)
    ensures Settle(c).1 == Settle(Broadcast(c)).1
    ensures Settle(c).0.inFlight == Settle(Broadcast(c)).0.inFlight
  {
    var all := Broadcast(c);
    NotifyCounts(c.waiters, |c.waiters|);
    AllNotified(all.waiters);
    SettleAdmits(c);
    SettleAdmits(all);
    assert Tids(all.waiters) == Tids(c.waiters);
  }

  lemma {:induction false} NotifyKeepsFirst(waiters: seq<Waiter>, n: nat)
    requires NotifiedFirst(waiters)
    ensures NotifiedFirst(Notify(waiters, n))
  {
    if waiters != [] && n != 0 {
      var m := if waiters[0].notified then n else n - 1;
      NotifyKeepsFirst(waiters[1..], m);
      assert Notify(waiters, n) == [waiters[0].(notified := true)] + Notify(waiters[1..], m);
    }
  }

  /** With waiters woken in deque order, every reachable state keeps the notified ones in front,
      so the comparison of `notify` and `notify_all` applies at every point of every run. */
  lemma {:induction false} RunNotifiesInOrder(states: seq<Controller>, ops: seq<Op>)
    requires Run(states, ops) && Initial(states[0])
    requires forall i :: 0 <= i < |ops| && ops[i].RerunOp? ==> ops[i].index == 0
    ensures forall i :: 0 <= i < |states| ==> NotifiedFirst(states[i].waiters)
    ensures forall i :: 0 <= i < |states| && !states[i].raisePending ==>
      Settle(states[i]).1 == Settle(Broadcast(states[i])).1
  {
    RunKeepsInv(states, ops);
    var n := 0;
    while n < |ops|
      invariant n <= |ops|
      invariant forall i :: 0 <= i <= n ==> NotifiedFirst(states[i].waiters)
    {
      var c := states[n];
      NotifyKeepsFirst(c.waiters, 1);
      NotifyKeepsFirst(c.waiters, |c.waiters|);
      n := n + 1;
    }
    forall i | 0 <= i < |states| && !states[i].raisePending
      ensures Settle(states[i]).1 == Settle(Broadcast(states[i])).1
    {
      NotifyOneAdmitsWhatNotifyAllWould(states[i]);
    }
  }
}
