/**
  What the adaptive controller guarantees over whole runs: admission against the moving limit,
  the cooldown after a shrink, and when a limit recovers.
 */
module AdaptiveRuns {
  import opened Windows
  import opened Capacity

  // ---------------------------------------------------------------- admission

  /** Over every run, a slot is only ever taken below the limit of that moment, one at a time; the
      slots in use never exceed the configured ceiling and never grow while at or above the limit. */
  lemma AdmissionOnlyBelowLimit(states: seq<Controller>, ops: seq<Op>, i: nat)
    requires Run(states, ops) && Initial(states[0]) && i < |ops|
    ensures states[i + 1].policy == states[0].policy
    ensures 0 <= states[i + 1].inFlight <= states[0].Ceiling()
    ensures states[0].policy.AdaptiveLimit? ==>
      states[0].policy.lo <= states[i + 1].limit <= states[0].policy.hi
    ensures states[i + 1].inFlight > states[i].inFlight ==>
      states[i].inFlight < states[i].limit && states[i + 1].inFlight == states[i].inFlight + 1
  {
    RunKeepsInv(states, ops);
    PolicyFixed(states, ops, i + 1);
  }

  lemma {:induction false} PolicyFixed(states: seq<Controller>, ops: seq<Op>, i: nat)
    requires Run(states, ops) && i < |states|
    ensures states[i].policy == states[0].policy
    ensures states[0].policy.FixedLimit? ==> states[i].limit == states[0].limit
  {
    if i > 0 {
      PolicyFixed(states, ops, i - 1);
      assert states[i - 1 + 1] == Apply(states[i - 1], ops[i - 1]);
    }
  }

  // ---------------------------------------------------------------- cooldown

  /** Step `i` adjusts the limit and finds too many timeouts or errors, or one sample in twenty above twice
      the target. */
  ghost predicate StartsCooldown(c: Controller, op: Op) {
    && op.AdjustOp? && Enabled(c, op) && op.now >= c.cooldownUntil && |c.latency| >= 10
    && (|| TooMany(c.timeouts, c.policy.timeoutThreshold) || TooMany(c.errors, c.policy.errorThreshold)
        || 20 * CountAbove(c.latency, 2.0 * c.policy.targetP95) >= |c.latency|)
  }

  lemma CooldownStarts(c: Controller, op: Op, seconds: real)
    requires PolicyOk(c) && StartsCooldown(c, op)
    requires seconds == if TooMany(c.timeouts, c.policy.timeoutThreshold) then 60.0 else 30.0
    ensures Apply(c, op).limit <= c.limit && Apply(c, op).cooldownUntil == op.clock + seconds
  {
    BranchByOutcomes(c);
    AdjustBounds(c, op.clock, op.err);
  }

  /** After such a shrink no turn of the loop changes the limit: for 60 seconds after too many timeouts, for
      30 after too many errors or slow responses. */
  lemma {:induction false} CooldownFreezesLimit(
    states: seq<Controller>, ops: seq<Op>, i: nat, j: nat, seconds: real)
    requires Run(states, ops) && i < j < |states|
    requires PolicyOk(states[i]) && StartsCooldown(states[i], ops[i])
    requires seconds == if TooMany(states[i].timeouts, states[i].policy.timeoutThreshold) then 60.0 else 30.0
    requires forall k :: i < k < j && ops[k].AdjustOp? ==> ops[k].now < ops[i].clock + seconds
    ensures states[j].limit == states[i + 1].limit <= states[i].limit
    ensures states[j].cooldownUntil == ops[i].clock + seconds
  {
    assert states[i + 1] == Apply(states[i], ops[i]);
    if j == i + 1 {
      CooldownStarts(states[i], ops[i], seconds);
    } else {
      CooldownFreezesLimit(states, ops, i, j - 1, seconds);
      assert states[j - 1 + 1] == Apply(states[j - 1], ops[j - 1]);
    }
  }

  // ---------------------------------------------------------------- recovery

  /** Enough samples, failures within their thresholds, and more than nineteen samples in twenty below half of
      a target above zero, as the configuration demands it. */
  ghost predicate Healthy(c: Controller) {
    && c.policy.AdaptiveLimit? && c.policy.targetP95 > 0.0 && |c.latency| >= 10
    && !TooMany(c.timeouts, c.policy.timeoutThreshold) && !TooMany(c.errors, c.policy.errorThreshold)
    && 20 * CountBelow(c.latency, 0.5 * c.policy.targetP95) > 19 * |c.latency|
  }

  function Grown(limit: int, hi: int, times: nat): int {
    if times == 0 then limit else Min(hi, Grown(limit, hi, times - 1) * 105 / 100)
  }

  /** From 20 up, each growth step adds at least one slot until the maximum. */
  lemma {:induction false} GrowthReachesMax(limit: int, hi: int, times: nat)
    requires 20 <= limit <= hi
    ensures Min(hi, limit + times) <= Grown(limit, hi, times) <= hi
  {
    if times > 0 { GrowthReachesMax(limit, hi, times - 1); }
  }

  /** Below 20, five per cent more rounds back down to the same limit. */
  lemma {:induction false} GrowthStallsBelowTwenty(limit: int, hi: int, times: nat)
    requires 0 < limit < 20 && limit <= hi
    ensures Grown(limit, hi, times) == limit
  {
    if times > 0 { GrowthStallsBelowTwenty(limit, hi, times - 1); }
  }

  /** Turns of the adjust loop among the first `n` operations. */
  function AdjustTurns(ops: seq<Op>, n: nat): nat
    requires n <= |ops|
  {
    if n == 0 then 0 else AdjustTurns(ops, n - 1) + if ops[n - 1].AdjustOp? then 1 else 0
  }

  /** Every turn of the adjust loop finds healthy windows and no cooldown. */
  ghost predicate HealthyTurns(states: seq<Controller>, ops: seq<Op>)
    requires Run(states, ops)
  {
    forall i :: 0 <= i < |ops| && ops[i].AdjustOp? ==>
      Healthy(states[i]) && ops[i].now >= states[i].cooldownUntil
  }

  lemma HealthyStep(c: Controller, op: Op)
    requires Enabled(c, op) && c.policy.AdaptiveLimit?
    requires op.AdjustOp? ==> Healthy(c) && op.now >= c.cooldownUntil
    ensures Apply(c, op).policy == c.policy
    ensures Apply(c, op).limit == if op.AdjustOp? then Min(c.policy.hi, c.limit * 105 / 100) else c.limit
  {
    if op.AdjustOp? { BranchByCounting(c); }
  }

  lemma {:induction false} HealthyRunGrows(states: seq<Controller>, ops: seq<Op>, n: nat)
    requires Run(states, ops) && states[0].policy.AdaptiveLimit? && HealthyTurns(states, ops)
    requires n <= |ops|
    ensures states[n].policy == states[0].policy
    ensures states[n].limit == Grown(states[0].limit, states[0].policy.hi, AdjustTurns(ops, n))
  {
    if n > 0 {
      HealthyRunGrows(states, ops, n - 1);
      HealthyStep(states[n - 1], ops[n - 1]);
      assert states[n - 1 + 1] == Apply(states[n - 1], ops[n - 1]);
    }
  }

  /** Recovery and its exact boundary: after enough healthy turns the limit is the maximum if and
      only if it started at 20 or more, or at the maximum already. */
  lemma RecoveryBoundary(states: seq<Controller>, ops: seq<Op>)
    requires Run(states, ops) && HealthyTurns(states, ops)
    requires states[0].policy.AdaptiveLimit? && PolicyOk(states[0])
    requires AdjustTurns(ops, |ops|) >= states[0].policy.hi - states[0].limit
    ensures states[|ops|].limit == states[0].policy.hi
            <==> states[0].limit >= 20 || states[0].limit == states[0].policy.hi
  {
    var limit, hi := states[0].limit, states[0].policy.hi;
    HealthyRunGrows(states, ops, |ops|);
    if limit >= 20 {
      GrowthReachesMax(limit, hi, AdjustTurns(ops, |ops|));
    } else {
      GrowthStallsBelowTwenty(limit, hi, AdjustTurns(ops, |ops|));
    }
  }

  lemma NoGrowthBelowTwenty(c: Controller, op: Op)
    requires Enabled(c, op) && PolicyOk(c) && c.policy.AdaptiveLimit? && c.limit < 20
    ensures Apply(c, op).limit <= c.limit
  {
    if op.AdjustOp? { AdjustBounds(c, op.clock, op.err); }
  }

  /** Once below 20 the limit never grows again, whatever the traffic does. */
  lemma BelowTwentyIsForever(states: seq<Controller>, ops: seq<Op>, i: nat, j: nat)
    requires Run(states, ops) && Initial(states[0]) && i <= j < |states|
    requires states[0].policy.AdaptiveLimit? && states[i].limit < 20
    ensures states[j].limit <= states[i].limit
  {
    RunKeepsInv(states, ops);
    for k := i to j
      invariant states[k].limit <= states[i].limit
    {
      PolicyFixed(states, ops, k);
      NoGrowthBelowTwenty(states[k], ops[k]);
      assert states[k + 1] == Apply(states[k], ops[k]);
    }
  }

  // ---------------------------------------------------------------- branches without sorting

  /** No sample lies below one threshold and above a higher one, and fewer lie above the higher one. */
  lemma {:induction false} NotBoth(samples: seq<real>, lower: real, higher: real)
    requires lower <= higher
    ensures CountBelow(samples, lower) + CountAbove(samples, higher) <= |samples|
    ensures CountAbove(samples, higher) <= CountAbove(samples, lower)
  {
    if samples != [] { NotBoth(samples[1..], lower, higher); }
  }

  /** The branches of `_adjust` one by one, by counting in any order. From ten samples on, too many timeouts
      cut the limit, else too many errors do; else it is cut hard when one sample in twenty exceeds twice the
      target, softly when one in twenty exceeds the target, and grows exactly when more than nineteen in
      twenty are below half of it. */
  lemma BranchByCounting(c: Controller)
    requires c.policy.AdaptiveLimit? && c.policy.targetP95 > 0.0
    ensures var n, p := |c.latency|, c.policy;
            var late, bad := TooMany(c.timeouts, p.timeoutThreshold), TooMany(c.errors, p.errorThreshold);
            && (BranchOf(c).Unsampled? <==> n < 10)
            && (BranchOf(c).TimeoutShrink? <==> n >= 10 && late)
            && (BranchOf(c).ErrorShrink? <==> n >= 10 && !late && bad)
            && (BranchOf(c).HardShrink? <==>
                  n >= 10 && !late && !bad && 20 * CountAbove(c.latency, 2.0 * p.targetP95) >= n)
            && (BranchOf(c).SoftShrink? <==>
                  n >= 10 && !late && !bad
                  && 20 * CountAbove(c.latency, 2.0 * p.targetP95) < n <= 20 * CountAbove(c.latency, p.targetP95))
            && (BranchOf(c).Grow? <==>
                  n >= 10 && !late && !bad && 20 * CountBelow(c.latency, 0.5 * p.targetP95) > 19 * n)
  {
    BranchByOutcomes(c);
    NotBoth(c.latency, 0.5 * c.policy.targetP95, c.policy.targetP95);
    NotBoth(c.latency, c.policy.targetP95, 2.0 * c.policy.targetP95);
  }

  // ---------------------------------------------------------------- a stalled recovery

  /** Only fast, successful releases so far, and nobody waits. */
  ghost predicate Warm(start: Controller, c: Controller, n: nat) {
    && c.policy == start.policy && c.limit == start.limit
    && c.inFlight == 0 && c.waiters == [] && !c.raisePending && c.cooldownUntil == 0.0
    && |c.latency| == n && (forall i :: 0 <= i < n ==> c.latency[i] == 0.0)
    && true !in c.timeouts && true !in c.errors
  }

  lemma AppendOp(states: seq<Controller>, ops: seq<Op>, op: Op)
    requires Run(states, ops) && Enabled(states[|ops|], op)
    ensures Run(states + [Apply(states[|ops|], op)], ops + [op])
  {
  }

  lemma StaysFalse(outcomes: seq<bool>)
    requires true !in outcomes
    ensures true !in Push(outcomes, false, WINDOW_SIZE)
  {
  }

  lemma FastRelease(start: Controller, c: Controller, n: nat)
    requires Warm(start, c, n) && n < WINDOW_SIZE && 1 <= c.limit
    ensures Enter(c, 0).inFlight == 1
    ensures Warm(start, Leave(Enter(c, 0), 0.0, 200, false), n + 1)
  {
    StaysFalse(c.timeouts);
    StaysFalse(c.errors);
    assert Push(c.latency, 0.0, WINDOW_SIZE) == c.latency + [0.0];
  }

  lemma {:induction false} WarmUp(start: Controller, n: nat) returns (states: seq<Controller>, ops: seq<Op>)
    requires Initial(start) && n <= WINDOW_SIZE
    ensures Run(states, ops) && states[0] == start
    ensures forall i :: 0 <= i < |ops| ==> !ops[i].AdjustOp?
    ensures forall i :: 0 <= i < |states| ==> states[i].limit == start.limit
    ensures Warm(start, states[|ops|], n)
  {
    if n == 0 {
      states, ops := [start], [];
    } else {
      states, ops := WarmUp(start, n - 1);
      var c := states[|ops|];
      FastRelease(start, c, n - 1);
      AppendOp(states, ops, EnterOp(0));
      states, ops := states + [Enter(c, 0)], ops + [EnterOp(0)];
      AppendOp(states, ops, LeaveOp(0.0, 200, false));
      states, ops := states + [Leave(Enter(c, 0), 0.0, 200, false)], ops + [LeaveOp(0.0, 200, false)];
    }
  }

  lemma {:induction false} NoneCounted(outcomes: seq<bool>)
    requires true !in outcomes
    ensures CountTrue(outcomes) == 0
  {
    if outcomes != [] { NoneCounted(outcomes[..|outcomes| - 1]); }
  }

  lemma NoneTrue(outcomes: seq<bool>, share: real)
    requires true !in outcomes && share >= 0.0
    ensures !TooMany(outcomes, share)
  {
    NoneCounted(outcomes);
    ProductNonNegative(share, |outcomes| as real);
  }

  lemma ProductNonNegative(x: real, y: real)
    requires x >= 0.0 && y >= 0.0
    ensures x * y >= 0.0
  {
  }

  lemma {:induction false} AllBelow(samples: seq<real>, threshold: real)
    requires forall i :: 0 <= i < |samples| ==> samples[i] < threshold
    ensures CountBelow(samples, threshold) == |samples|
  {
    if samples != [] { AllBelow(samples[1..], threshold); }
  }

  lemma WarmIsHealthy(start: Controller, c: Controller, n: nat)
    requires Warm(start, c, n) && n >= MIN_SAMPLES && c.policy.AdaptiveLimit?
    requires c.policy.targetP95 > 0.0 && c.policy.timeoutThreshold >= 0.0 && c.policy.errorThreshold >= 0.0
    ensures Healthy(c)
  {
    NoneTrue(c.timeouts, c.policy.timeoutThreshold);
    NoneTrue(c.errors, c.policy.errorThreshold);
    AllBelow(c.latency, 0.5 * c.policy.targetP95);
  }

  lemma {:induction false} TurnsAppend(ops: seq<Op>, more: seq<Op>, n: nat)
    requires n <= |ops|
    ensures AdjustTurns(ops + more, n) == AdjustTurns(ops, n)
  {
    if n > 0 { TurnsAppend(ops, more, n - 1); }
  }

  lemma {:induction false} NoTurns(ops: seq<Op>, n: nat)
    requires n <= |ops| && forall i :: 0 <= i < |ops| ==> !ops[i].AdjustOp?
    ensures AdjustTurns(ops, n) == 0
  {
    if n > 0 { NoTurns(ops, n - 1); }
  }

  /** A turn that grows a limit below 20 by five per cent changes nothing. */
  lemma StalledTurn(start: Controller, c: Controller)
    requires Warm(start, c, MIN_SAMPLES) && Healthy(c) && PolicyOk(c) && c.limit < 20
    ensures Apply(c, AdjustOp(0.0, 0.0, 0)) == c
  {
    BranchByCounting(c);
  }

  /** A run of healthy turns that all left the limit where it was. */
  ghost predicate StalledRun(start: Controller, states: seq<Controller>, ops: seq<Op>) {
    && Run(states, ops) && states[0] == start && HealthyTurns(states, ops)
    && (forall i :: 0 <= i < |states| ==> states[i].limit == start.limit)
    && Warm(start, states[|ops|], MIN_SAMPLES)
  }

  lemma OneMoreTurn(start: Controller, before: seq<Controller>, opsBefore: seq<Op>)
    returns (states: seq<Controller>, ops: seq<Op>)
    requires StalledRun(start, before, opsBefore) && PolicyOk(start) && start.policy.AdaptiveLimit?
    requires start.limit < 20 && start.policy.targetP95 > 0.0
    requires start.policy.timeoutThreshold >= 0.0 && start.policy.errorThreshold >= 0.0
    ensures StalledRun(start, states, ops)
    ensures AdjustTurns(ops, |ops|) == AdjustTurns(opsBefore, |opsBefore|) + 1
  {
    var c, op := before[|opsBefore|], AdjustOp(0.0, 0.0, 0);
    WarmIsHealthy(start, c, MIN_SAMPLES);
    StalledTurn(start, c);
    AppendOp(before, opsBefore, op);
    TurnsAppend(opsBefore, [op], |opsBefore|);
    states, ops := before + [c], opsBefore + [op];
  }

  /** The boundary is met in practice: from any fresh adaptive controller whose limit is below 20 and
      below its maximum, ten fast requests and then any number of healthy turns leave the limit where
      it was. */
  lemma {:induction false} RecoveryStalls(start: Controller, turns: nat)
    returns (states: seq<Controller>, ops: seq<Op>)
    requires Initial(start) && start.policy.AdaptiveLimit? && start.limit < 20 && start.limit < start.policy.hi
    requires start.policy.targetP95 > 0.0
    requires start.policy.timeoutThreshold >= 0.0 && start.policy.errorThreshold >= 0.0
    ensures Run(states, ops) && states[0] == start
    ensures HealthyTurns(states, ops) && AdjustTurns(ops, |ops|) == turns
    ensures forall i :: 0 <= i < |states| ==> states[i].limit == start.limit
    ensures Warm(start, states[|ops|], MIN_SAMPLES)
  {
    if turns == 0 {
      states, ops := WarmUp(start, MIN_SAMPLES);
      NoTurns(ops, |ops|);
    } else {
      states, ops := RecoveryStalls(start, turns - 1);
      states, ops := OneMoreTurn(start, states, ops);
    }
  }
}
