/**
  Whole runs of the load balancer: sweeping expired pins changes no selection, and without pins
  least-loaded selection is round robin.
 */
module BalancerRuns {
  import opened Sequences
  import opened Wrappers
  import opened Balancing

  datatype Op =
    | SelectOp(ip: Option<Ip>, hint: Option<int>, now: real, stamp: real)
    | ReleaseOp(url: Url, connectFailed: bool, clock: real)
    | RecoverOp(url: Url)
    | SweepOp(now: real)

  ghost function Apply(b: Balancer, op: Op): (r: Balancer)
    requires WellFormed(b)
    ensures WellFormed(r)
  {
    match op
    case SelectOp(ip, hint, now, stamp) =>
      SelectKeepsWellFormed(b, ip, hint, now, stamp);
      Select(b, ip, hint, now, stamp)
    case ReleaseOp(url, connectFailed, clock) =>
      ReleaseKeepsWellFormed(b, url, connectFailed, clock);
      Release(b, url, connectFailed, clock)
    case RecoverOp(url) =>
      RecoverKeepsWellFormed(b, url);
      Recover(b, url)
    case SweepOp(now) => Sweep(b, now)
  }

  /** The instances a run selects, in order. */
  ghost function Selections(b: Balancer, ops: seq<Op>): seq<Url>
    requires WellFormed(b)
    decreases |ops|
  {
    if ops == [] then []
    else
      (if ops[0].SelectOp? then [Choice(b, ops[0].ip, ops[0].hint, ops[0].now)] else [])
      + Selections(Apply(b, ops[0]), ops[1..])
  }

  ghost function Final(b: Balancer, ops: seq<Op>): (r: Balancer)
    requires WellFormed(b)
    ensures WellFormed(r)
    decreases |ops|
  {
    if ops == [] then b else Final(Apply(b, ops[0]), ops[1..])
  }

  // ---------------------------------------------------------------- sweeping is invisible

  function After(op: Op, t: real): real {
    match op
    case SelectOp(_, _, _, stamp) => stamp
    case SweepOp(now) => now
    case _ => t
  }

  /** The clock readings of a run never go back. */
  predicate ClockOrdered(ops: seq<Op>, t: real) {
    ops == [] ||
    (&& (ops[0].SelectOp? ==> t <= ops[0].now <= ops[0].stamp)
     && (ops[0].SweepOp? ==> t <= ops[0].now)
     && ClockOrdered(ops[1..], After(ops[0], t)))
  }

  function WithoutSweeps(ops: seq<Op>): seq<Op> {
    if ops == [] then []
    else if ops[0].SweepOp? then WithoutSweeps(ops[1..])
    else [ops[0]] + WithoutSweeps(ops[1..])
  }

  /** Same state but for pins that have expired at `t`. */
  ghost predicate SameLive(a: Balancer, b: Balancer, t: real) {
    && a == b.(sticky := a.sticky)
    && LiveOnly(a.sticky, t, a.ttl) == LiveOnly(b.sticky, t, b.ttl)
  }

  lemma SameLiveLookup(a: Balancer, b: Balancer, t: real, ip: Ip, now: real)
    requires SameLive(a, b, t) && t <= now
    ensures ip in a.sticky && Live(a.sticky[ip], now, a.ttl) <==> ip in b.sticky && Live(b.sticky[ip], now, b.ttl)
    ensures ip in a.sticky && Live(a.sticky[ip], now, a.ttl) ==> a.sticky[ip] == b.sticky[ip]
  {
    assert ip in LiveOnly(a.sticky, t, a.ttl) <==> ip in LiveOnly(b.sticky, t, b.ttl);
    if ip in LiveOnly(a.sticky, t, a.ttl) {
      assert LiveOnly(a.sticky, t, a.ttl)[ip] == LiveOnly(b.sticky, t, b.ttl)[ip];
    }
  }

  lemma SameLiveLater(a: Balancer, b: Balancer, t: real, later: real)
    requires SameLive(a, b, t) && t <= later
    ensures SameLive(a, b, later)
  {
    forall ip: Ip
      ensures ip in LiveOnly(a.sticky, later, a.ttl) <==> ip in LiveOnly(b.sticky, later, b.ttl)
      ensures ip in LiveOnly(a.sticky, later, a.ttl) ==> a.sticky[ip] == b.sticky[ip]
    {
      SameLiveLookup(a, b, t, ip, later);
    }
  }

  lemma ChoiceRespectsLive(a: Balancer, b: Balancer, t: real, ip: Option<Ip>, hint: Option<int>, now: real)
    requires WellFormed(a) && WellFormed(b) && SameLive(a, b, t) && t <= now
    ensures Choice(a, ip, hint, now) == Choice(b, ip, hint, now)
  {
    if ip.Some? { SameLiveLookup(a, b, t, ip.value, now); }
    assert LivePin(a, ip, now) == LivePin(b, ip, now);
  }

  lemma SelectRespectsLive(a: Balancer, b: Balancer, t: real,
                           ip: Option<Ip>, hint: Option<int>, now: real, stamp: real)
    requires WellFormed(a) && WellFormed(b) && SameLive(a, b, t) && t <= now <= stamp
    ensures SameLive(Select(a, ip, hint, now, stamp), Select(b, ip, hint, now, stamp), stamp)
  {
    ChoiceRespectsLive(a, b, t, ip, hint, now);
    SameLiveLater(a, b, t, stamp);
    assert Select(a, ip, hint, now, stamp).inFlight == Select(b, ip, hint, now, stamp).inFlight;
    if StickyKey(a, ip).Some? {
      RepinnedLive(a.sticky, b.sticky, ip.value, Pin(Choice(a, ip, hint, now), stamp), stamp, a.ttl);
    }
  }

  lemma RepinnedLive(s: map<Ip, Pin>, s': map<Ip, Pin>, ip: Ip, pin: Pin, now: real, ttl: real)
    requires LiveOnly(s, now, ttl) == LiveOnly(s', now, ttl)
    ensures LiveOnly(s[ip := pin], now, ttl) == LiveOnly(s'[ip := pin], now, ttl)
  {
    var r, r' := LiveOnly(s[ip := pin], now, ttl), LiveOnly(s'[ip := pin], now, ttl);
    forall k: Ip
      ensures k in r <==> k in r'
      ensures k in r ==> r[k] == r'[k]
    {
      assert k in LiveOnly(s, now, ttl) <==> k in LiveOnly(s', now, ttl);
      if k in LiveOnly(s, now, ttl) { assert LiveOnly(s, now, ttl)[k] == LiveOnly(s', now, ttl)[k]; }
    }
  }

  lemma SweepRespectsLive(a: Balancer, b: Balancer, t: real, now: real)
    requires WellFormed(a) && SameLive(a, b, t) && t <= now
    ensures SameLive(Sweep(a, now), b, now)
  {
    SameLiveLater(a, b, t, now);
    assert LiveOnly(LiveOnly(a.sticky, now, a.ttl), now, a.ttl) == LiveOnly(a.sticky, now, a.ttl);
  }

  lemma ReleaseRespectsLive(a: Balancer, b: Balancer, t: real, url: Url, connectFailed: bool, clock: real)
    requires WellFormed(a) && WellFormed(b) && SameLive(a, b, t)
    ensures SameLive(Release(a, url, connectFailed, clock), Release(b, url, connectFailed, clock), t)
  {
  }

  lemma RecoverRespectsLive(a: Balancer, b: Balancer, t: real, url: Url)
    requires WellFormed(a) && WellFormed(b) && SameLive(a, b, t)
    ensures SameLive(Recover(a, url), Recover(b, url), t)
  {
  }

  lemma StepRespectsLive(a: Balancer, b: Balancer, op: Op, t: real)
    requires WellFormed(a) && WellFormed(b) && SameLive(a, b, t) && ClockOrdered([op], t)
    ensures SameLive(Apply(a, op), if op.SweepOp? then b else Apply(b, op), After(op, t))
    ensures op.SelectOp? ==> Choice(a, op.ip, op.hint, op.now) == Choice(b, op.ip, op.hint, op.now)
  {
    match op
    case SelectOp(ip, hint, now, stamp) =>
      ChoiceRespectsLive(a, b, t, ip, hint, now);
      SelectRespectsLive(a, b, t, ip, hint, now, stamp);
    case SweepOp(now) => SweepRespectsLive(a, b, t, now);
    case ReleaseOp(url, connectFailed, clock) => ReleaseRespectsLive(a, b, t, url, connectFailed, clock);
    case RecoverOp(url) => RecoverRespectsLive(a, b, t, url);
  }

  lemma {:induction false} SweepsAreInvisible(a: Balancer, b: Balancer, ops: seq<Op>, t: real)
    requires WellFormed(a) && WellFormed(b) && SameLive(a, b, t) && ClockOrdered(ops, t)
    ensures Selections(a, ops) == Selections(b, WithoutSweeps(ops))
    ensures Final(a, ops).inFlight == Final(b, WithoutSweeps(ops)).inFlight
    ensures Final(a, ops).healthy == Final(b, WithoutSweeps(ops)).healthy
    decreases |ops|
  {
    if ops != [] {
      var op := ops[0];
      assert ClockOrdered([op], t);
      StepRespectsLive(a, b, op, t);
      SweepsAreInvisible(Apply(a, op), if op.SweepOp? then b else Apply(b, op), ops[1..], After(op, t));
      var kept := WithoutSweeps(ops);
      assert !op.SweepOp? ==> kept[0] == op && kept[1..] == WithoutSweeps(ops[1..]);
    }
  }

  /** Two runs that differ only in when, and how often, they sweep select the same instances. */
  lemma RunsDifferingInSweepsAgree(b: Balancer, ops: seq<Op>, ops': seq<Op>, t: real)
    requires WellFormed(b) && ClockOrdered(ops, t) && ClockOrdered(ops', t)
    requires WithoutSweeps(ops) == WithoutSweeps(ops')
    ensures Selections(b, ops) == Selections(b, ops')
    ensures Final(b, ops).inFlight == Final(b, ops').inFlight
  {
    SweepsAreInvisible(b, b, ops, t);
    SweepsAreInvisible(b, b, ops', t);
  }

  // ---------------------------------------------------------------- a client returns

  /** Anything but a request of the client itself; the clock has not passed `later`. */
  ghost predicate Elsewhere(op: Op, ip: Ip, later: real) {
    match op
    case SelectOp(other, _, _, _) => other != Some(ip)
    case SweepOp(now) => now <= later
    case _ => true
  }

  /** The client's pin is the given one, or it was swept after it had expired. */
  ghost predicate PinnedOrExpired(b: Balancer, ip: Ip, pin: Pin, later: real) {
    && (ip in b.sticky ==> b.sticky[ip] == pin)
    && (later - pin.lastUsed <= b.ttl ==> ip in b.sticky)
  }

  lemma PinStep(b: Balancer, op: Op, ip: Ip, pin: Pin, later: real)
    requires WellFormed(b) && PinnedOrExpired(b, ip, pin, later) && Elsewhere(op, ip, later)
    ensures var r := Apply(b, op);
            PinnedOrExpired(r, ip, pin, later) && r.ttl == b.ttl && r.stickyOn == b.stickyOn
  {
  }

  lemma {:induction false} PinKept(b: Balancer, ops: seq<Op>, ip: Ip, pin: Pin, later: real)
    requires WellFormed(b) && PinnedOrExpired(b, ip, pin, later)
    requires forall i :: 0 <= i < |ops| ==> Elsewhere(ops[i], ip, later)
    ensures var r := Final(b, ops);
            PinnedOrExpired(r, ip, pin, later) && r.ttl == b.ttl && r.stickyOn == b.stickyOn
    decreases |ops|
  {
    if ops != [] {
      PinStep(b, ops[0], ip, pin, later);
      PinKept(Apply(b, ops[0]), ops[1..], ip, pin, later);
    }
  }

  /** Whether a client comes back to its instance, whatever other clients, releases, probes and sweeps come in
      between. Within the time to live of its pin its next `select` returns the same instance if and only if
      that is still a candidate and either below its fair share or as loaded as everybody else. After it the
      client is nobody's: it gets the first of the least loaded candidates. */
  lemma ClientReturns(b: Balancer, ip: Ip, hint: int, now: real, stamp: real,
                      between: seq<Op>, hint': int, later: real)
    requires WellFormed(b) && b.stickyOn
    requires forall i :: 0 <= i < |between| ==> Elsewhere(between[i], ip, later)
    ensures var url := Choice(b, Some(ip), Some(hint), now);
            var e := Final(Apply(b, SelectOp(Some(ip), Some(hint), now, stamp)), between);
            var pool := ActivePool(e);
            if later - stamp <= b.ttl then
              Choice(e, Some(ip), Some(hint'), later) == url <==>
                && url in pool
                && (|| |pool| * e.inFlight[url] < hint'
                    || forall u :: u in pool && u != url ==> |pool| * e.inFlight[u] >= hint')
            else LeastLoadedFirst(e, Choice(e, Some(ip), Some(hint'), later))
  {
    var url := Choice(b, Some(ip), Some(hint), now);
    var b' := Apply(b, SelectOp(Some(ip), Some(hint), now, stamp));
    assert b'.sticky[ip] == Pin(url, stamp);
    PinKept(b', between, ip, Pin(url, stamp), later);
    var e := Final(b', between);
    if later - stamp > b.ttl {
      PinOrLeastLoaded(e, Some(ip), Some(hint'), later);
    } else if url in ActivePool(e) {
      PinHonoured(e, ip, hint', later);
    }
  }

  // ---------------------------------------------------------------- round robin

  /** One selection with stickiness off, whoever asks and whatever the clock says. */
  ghost predicate Unpinned(b: Balancer, op: Op, r: Balancer) {
    WellFormed(b) && !b.stickyOn && op.SelectOp? && r == Apply(b, op)
  }

  /** Selections in a row with stickiness off. */
  ghost predicate SelectingRun(states: seq<Balancer>, ops: seq<Op>) {
    && |states| == |ops| + 1
    && WellFormed(states[0])
    && forall i {:trigger ops[i]} :: 0 <= i < |ops| ==> Unpinned(states[i], ops[i], states[i + 1])
  }

  ghost predicate Covers(load: map<Url, nat>, pool: seq<Url>) {
    forall u :: u in pool ==> u in load
  }

  /** The candidates' loads after one least-loaded pick. */
  ghost function Picked(pool: seq<Url>, load: map<Url, nat>): (r: map<Url, nat>)
    requires pool != [] && Covers(load, pool)
    ensures r.Keys == load.Keys
  {
    var url := pool[LeastIndex(pool, load)];
    load[url := load[url] + 1]
  }

  /** The candidates' loads after `n` least-loaded picks. */
  ghost function LoadsAfter(pool: seq<Url>, load: map<Url, nat>, n: nat): (r: map<Url, nat>)
    requires pool != [] && Covers(load, pool)
    ensures r.Keys == load.Keys
  {
    if n == 0 then load else Picked(pool, LoadsAfter(pool, load, n - 1))
  }

  lemma UnpinnedSelect(b: Balancer, op: Op, r: Balancer)
    requires Unpinned(b, op, r)
    ensures WellFormed(r) && ActivePool(r) == ActivePool(b)
    ensures r.inFlight == Picked(ActivePool(b), b.inFlight)
    ensures Choice(b, op.ip, op.hint, op.now) == ActivePool(b)[LeastIndex(ActivePool(b), b.inFlight)]
  {
    SelectKeepsWellFormed(b, op.ip, op.hint, op.now, op.stamp);
  }

  /** What selecting depends on: the candidates and their loads. */
  datatype View = View(pool: seq<Url>, load: map<Url, nat>)

  ghost predicate PicksLeast(v: View, v': View) {
    v.pool != [] && Covers(v.load, v.pool) && v' == View(v.pool, Picked(v.pool, v.load))
  }

  lemma {:induction false} PicksCompose(views: seq<View>, n: nat)
    requires n < |views| && views[0].pool != [] && Covers(views[0].load, views[0].pool)
    requires forall i {:trigger views[i]} :: 0 < i < |views| ==> PicksLeast(views[i - 1], views[i])
    ensures views[n] == View(views[0].pool, LoadsAfter(views[0].pool, views[0].load, n))
  {
    if n > 0 {
      PicksCompose(views, n - 1);
      assert PicksLeast(views[n - 1], views[n]);
    }
  }

  ghost function ViewOf(b: Balancer): (v: View)
    ensures WellFormed(b) <==> v.pool != []
    ensures v.pool != [] ==> Covers(v.load, v.pool) && v == View(ActivePool(b), b.inFlight)
  {
    if WellFormed(b) then View(ActivePool(b), b.inFlight) else View([], map[])
  }

  lemma StepPicks(states: seq<Balancer>, ops: seq<Op>, views: seq<View>, i: nat)
    requires SelectingRun(states, ops) && i < |ops| && |views| == |states|
    requires views[i] == ViewOf(states[i]) && views[i + 1] == ViewOf(states[i + 1])
    ensures PicksLeast(views[i], views[i + 1])
  {
    UnpinnedSelect(states[i], ops[i], states[i + 1]);
  }

  lemma RunLoads(states: seq<Balancer>, ops: seq<Op>, n: nat)
    requires SelectingRun(states, ops) && n <= |ops|
    ensures var v := ViewOf(states[0]);
            v.pool != [] && ViewOf(states[n]) == View(v.pool, LoadsAfter(v.pool, v.load, n))
  {
    var views := seq(|states|, i requires 0 <= i < |states| => ViewOf(states[i]));
    forall i {:trigger views[i]} | 0 < i < |views| ensures PicksLeast(views[i - 1], views[i]) {
      StepPicks(states, ops, views, i - 1);
    }
    PicksCompose(views, n);
  }

  /** The first `r` candidates carry one request more than `level`, the others `level`. */
  ghost predicate AtTurn(pool: seq<Url>, load: map<Url, nat>, level: nat, r: nat)
    requires Covers(load, pool)
  {
    forall i :: 0 <= i < |pool| ==> load[pool[i]] == level + if i < r then 1 else 0
  }

  lemma LeastAtTurn(pool: seq<Url>, load: map<Url, nat>, level: nat, r: nat)
    requires Covers(load, pool) && r < |pool| && AtTurn(pool, load, level, r)
    ensures LeastIndex(pool, load) == r
  {
    var k := LeastIndex(pool, load);
    assert FirstLeast(pool, load, k);
    assert load[pool[r]] == level && load[pool[k]] <= load[pool[r]];
  }

  lemma PickAtTurn(pool: seq<Url>, load: map<Url, nat>, level: nat, r: nat)
    requires Covers(load, pool) && Distinct(pool) && r < |pool| && AtTurn(pool, load, level, r)
    ensures var load' := load[pool[r] := load[pool[r]] + 1];
            if r + 1 < |pool| then AtTurn(pool, load', level, r + 1) else AtTurn(pool, load', level + 1, 0)
  {
    var load' := load[pool[r] := load[pool[r]] + 1];
    forall i | 0 <= i < |pool|
      ensures load'[pool[i]] == level + if i <= r then 1 else 0
    {
      if i < r { DistinctAt(pool, i, r); } else if r < i { DistinctAt(pool, r, i); }
    }
  }

  /** Full turns and picks of the current turn after `n` picks. */
  function Turn(n: nat, size: nat): (t: (nat, nat))
    requires 0 < size
    ensures t.1 < size
  {
    if n == 0 then (0, 0)
    else
      var (full, r) := Turn(n - 1, size);
      if r + 1 < size then (full, r + 1) else (full + 1, 0)
  }

  lemma {:induction false} TurnIsRemainder(n: nat, size: nat)
    requires 0 < size
    ensures n == size * Turn(n, size).0 + Turn(n, size).1
    ensures Turn(n, size).1 == n % size
  {
    if n > 0 {
      TurnIsRemainder(n - 1, size);
      OneTurnMore(size, Turn(n - 1, size).0);
    }
    RemainderUnique(n, size, Turn(n, size).0, Turn(n, size).1);
  }

  lemma OneTurnMore(size: nat, full: nat)
    ensures size * (full + 1) == size * full + size
  {
  }

  lemma RemainderUnique(n: nat, size: nat, q: nat, r: nat)
    requires 0 < size && r < size && n == size * q + r
    ensures n % size == r
  {
    MulBound(n / size - q, size);
    assert size * (n / size - q) == r - n % size;
  }

  lemma MulBound(d: int, size: nat)
    ensures d >= 1 ==> size * d >= size
    ensures d <= -1 ==> size * d <= -(size as int)
  {
  }

  lemma {:induction false} LoadsAreRoundRobin(pool: seq<Url>, load: map<Url, nat>, base: nat, n: nat)
    requires pool != [] && Distinct(pool) && Covers(load, pool) && AtTurn(pool, load, base, 0)
    ensures AtTurn(pool, LoadsAfter(pool, load, n), base + Turn(n, |pool|).0, Turn(n, |pool|).1)
  {
    if n > 0 {
      LoadsAreRoundRobin(pool, load, base, n - 1);
      var (full, r) := Turn(n - 1, |pool|);
      OneMorePick(pool, load, n, base + full, r);
    }
  }

  lemma OneMorePick(pool: seq<Url>, load: map<Url, nat>, n: nat, level: nat, r: nat)
    requires n > 0 && r < |pool| && Distinct(pool) && Covers(load, pool)
    requires AtTurn(pool, LoadsAfter(pool, load, n - 1), level, r)
    ensures var load' := LoadsAfter(pool, load, n);
            if r + 1 < |pool| then AtTurn(pool, load', level, r + 1) else AtTurn(pool, load', level + 1, 0)
  {
    LeastAtTurn(pool, LoadsAfter(pool, load, n - 1), level, r);
    PickAtTurn(pool, LoadsAfter(pool, load, n - 1), level, r);
  }

  /** With stickiness off, from equal loads, with fixed health and no releases, the `n`-th selection
      (from 0) is the candidate `n mod size` in configured order. */
  lemma LeastLoadedIsRoundRobin(states: seq<Balancer>, ops: seq<Op>, base: nat, n: nat)
    requires SelectingRun(states, ops) && n < |ops|
    requires forall u :: u in ActivePool(states[0]) ==> states[0].inFlight[u] == base
    ensures var pool := ActivePool(states[0]);
            && WellFormed(states[n]) && ops[n].SelectOp?
            && Choice(states[n], ops[n].ip, ops[n].hint, ops[n].now) == pool[n % |pool|]
  {
    var pool := ActivePool(states[0]);
    PoolDistinct(states[0]);
    RunLoads(states, ops, n);
    LoadsAreRoundRobin(pool, states[0].inFlight, base, n);
    LeastAtTurn(pool, states[n].inFlight, base + Turn(n, |pool|).0, Turn(n, |pool|).1);
    TurnIsRemainder(n, |pool|);
    UnpinnedSelect(states[n], ops[n], states[n + 1]);
  }

  ghost predicate SpreadAtMost(pool: seq<Url>, load: map<Url, nat>, d: nat)
    requires Covers(load, pool)
  {
    forall u, v :: u in pool && v in pool ==> load[u] <= load[v] + d
  }

  lemma SpreadAfterPick(pool: seq<Url>, load: map<Url, nat>, d: nat)
    requires pool != [] && Covers(load, pool) && 1 <= d && SpreadAtMost(pool, load, d)
    ensures SpreadAtMost(pool, Picked(pool, load), d)
  {
    forall u, v | u in pool && v in pool
      ensures Picked(pool, load)[u] <= Picked(pool, load)[v] + d
    {
      LeastOfAll(pool, load, v);
    }
  }

  lemma {:induction false} SpreadAfterPicks(pool: seq<Url>, load: map<Url, nat>, d: nat, n: nat)
    requires pool != [] && Covers(load, pool)
    requires 1 <= d && SpreadAtMost(pool, load, d)
    ensures SpreadAtMost(pool, LoadsAfter(pool, load, n), d)
  {
    if n > 0 {
      SpreadAfterPicks(pool, load, d, n - 1);
      SpreadAfterPick(pool, LoadsAfter(pool, load, n - 1), d);
    }
  }

  /** From any loads, selecting never widens the spread between candidates beyond what it was, or
      beyond one. */
  lemma SpreadNeverWidens(states: seq<Balancer>, ops: seq<Op>, d: nat, n: nat)
    requires SelectingRun(states, ops) && n <= |ops|
    requires 1 <= d && SpreadAtMost(ActivePool(states[0]), states[0].inFlight, d)
    ensures WellFormed(states[n]) && ActivePool(states[n]) == ActivePool(states[0])
    ensures SpreadAtMost(ActivePool(states[n]), states[n].inFlight, d)
  {
    RunLoads(states, ops, n);
    SpreadAfterPicks(ActivePool(states[0]), states[0].inFlight, d, n);
  }
}
