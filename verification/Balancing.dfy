/**
  `LeastLoadedLoadBalancer` as a value: the active pool, the sticky pin, and the instance that
  `select` picks. Dictionaries keep their insertion order in `order`, which decides ties.
 */
module Balancing {
  import opened Sequences
  import opened Wrappers

  type Url = string
  type Ip = string

  datatype Pin = Pin(url: Url, lastUsed: real)

  datatype Balancer = Balancer(
    order: seq<Url>,
    backups: set<Url>,
    inFlight: map<Url, nat>,
    healthy: map<Url, bool>,
    downSince: map<Url, real>,
    sticky: map<Ip, Pin>,
    stickyOn: bool,
    ttl: real)

  function Urls(urls: seq<Url>): set<Url> { set u | u in urls }

  function Down(healthy: map<Url, bool>): set<Url> { set u | u in healthy && !healthy[u] }

  ghost predicate WellFormed(b: Balancer) {
    && b.order != [] && Distinct(b.order)
    && b.inFlight.Keys == b.healthy.Keys == Urls(b.order)
    && b.downSince.Keys == Down(b.healthy)
  }

  // ---------------------------------------------------------------- candidate pool

  /** The instances of one tier among the first `n` that are healthy, in configured order. */
  function TierOf(urls: seq<Url>, n: nat, backups: set<Url>, healthy: map<Url, bool>, backup: bool): (pool: seq<Url>)
    requires n <= |urls| && forall i :: 0 <= i < n ==> urls[i] in healthy
    ensures forall u :: u in pool <==> u in urls[..n] && (u in backups) == backup && healthy[u]
  {
    if n == 0 then []
    else
      assert urls[..n] == urls[..n - 1] + [urls[n - 1]];
      TierOf(urls, n - 1, backups, healthy, backup)
      + if (urls[n - 1] in backups) == backup && healthy[urls[n - 1]] then [urls[n - 1]] else []
  }

  function Tier(urls: seq<Url>, backups: set<Url>, healthy: map<Url, bool>, backup: bool): (pool: seq<Url>)
    requires forall u :: u in urls ==> u in healthy
    ensures forall u :: u in pool <==> u in urls && (u in backups) == backup && healthy[u]
  {
    assert urls[..|urls|] == urls;
    TierOf(urls, |urls|, backups, healthy, backup)
  }

  function Pool(urls: seq<Url>, backups: set<Url>, healthy: map<Url, bool>): (pool: seq<Url>)
    requires urls != [] && forall u :: u in urls ==> u in healthy
    ensures pool != [] && forall u :: u in pool ==> u in urls
  {
    var primary := Tier(urls, backups, healthy, false);
    var backup := Tier(urls, backups, healthy, true);
    if primary != [] then primary else if backup != [] then backup else urls
  }

  function ActivePool(b: Balancer): (pool: seq<Url>)
    requires WellFormed(b)
    ensures pool != [] && forall u :: u in pool ==> u in b.order
  {
    Pool(b.order, b.backups, b.healthy)
  }

  /** Who may be chosen: healthy primaries; with none left, healthy backups; with none left
      either, everybody. */
  lemma PoolMembers(b: Balancer, u: Url)
    requires WellFormed(b) && u in b.order
    ensures var alive := (v: Url) => v in b.order && b.healthy[v];
            u in ActivePool(b) <==>
              if exists v :: alive(v) && v !in b.backups then b.healthy[u] && u !in b.backups
              else if exists v :: alive(v) && v in b.backups then b.healthy[u] && u in b.backups
              else true
  {
    var alive := (v: Url) => v in b.order && b.healthy[v];
    var primary := Tier(b.order, b.backups, b.healthy, false);
    var backup := Tier(b.order, b.backups, b.healthy, true);
    if primary != [] { assert primary[0] in primary; assert alive(primary[0]); }
    if backup != [] { assert backup[0] in backup; assert alive(backup[0]); }
    if exists v :: alive(v) && v !in b.backups {
      var v :| alive(v) && v !in b.backups;
      assert v in primary;
    }
    if exists v :: alive(v) && v in b.backups {
      var v :| alive(v) && v in b.backups;
      assert v in backup;
    }
  }

  lemma {:induction false} TierDistinct(
    urls: seq<Url>, n: nat, backups: set<Url>, healthy: map<Url, bool>, backup: bool)
    requires n <= |urls| && forall i :: 0 <= i < n ==> urls[i] in healthy
    requires Distinct(urls[..n])
    ensures Distinct(TierOf(urls, n, backups, healthy, backup))
    ensures |TierOf(urls, n, backups, healthy, backup)| <= n
  {
    if n > 0 {
      assert urls[..n][..n - 1] == urls[..n - 1];
      TierDistinct(urls, n - 1, backups, healthy, backup);
      var pool := TierOf(urls, n - 1, backups, healthy, backup);
      assert (pool + [urls[n - 1]])[..|pool|] == pool;
      assert pool + [] == pool;
    }
  }

  lemma PoolDistinct(b: Balancer)
    requires WellFormed(b)
    ensures Distinct(ActivePool(b)) && 0 < |ActivePool(b)| <= |b.order|
  {
    assert b.order[..|b.order|] == b.order;
    TierDistinct(b.order, |b.order|, b.backups, b.healthy, false);
    TierDistinct(b.order, |b.order|, b.backups, b.healthy, true);
  }

  // ---------------------------------------------------------------- configured order

  ghost predicate Earlier(urls: seq<Url>, u: Url, v: Url) {
    exists i, j :: 0 <= i < j < |urls| && urls[i] == u && urls[j] == v
  }

  lemma EarlierInLonger(urls: seq<Url>, n: nat, u: Url, v: Url)
    requires n <= |urls| && Earlier(urls[..n], u, v)
    ensures Earlier(urls, u, v)
  {
    var i, j :| 0 <= i < j < n && urls[..n][i] == u && urls[..n][j] == v;
    assert urls[i] == u && urls[j] == v;
  }

  lemma EarlierThanLast(urls: seq<Url>, n: nat, u: Url)
    requires n < |urls| && u in urls[..n]
    ensures Earlier(urls, u, urls[n])
  {
    var i :| 0 <= i < n && urls[..n][i] == u;
    assert urls[i] == u;
  }

  lemma {:induction false} TierInOrder(urls: seq<Url>, n: nat, backups: set<Url>, healthy: map<Url, bool>,
                                       backup: bool, i: nat, j: nat)
    requires n <= |urls| && forall k :: 0 <= k < n ==> urls[k] in healthy
    requires i < j < |TierOf(urls, n, backups, healthy, backup)|
    ensures var pool := TierOf(urls, n, backups, healthy, backup); Earlier(urls, pool[i], pool[j])
    decreases n
  {
    var pool := TierOf(urls, n, backups, healthy, backup);
    var front := TierOf(urls, n - 1, backups, healthy, backup);
    assert pool[i] == front[i];
    if j < |front| {
      assert pool[j] == front[j];
      TierInOrder(urls, n - 1, backups, healthy, backup, i, j);
    } else {
      assert front[i] in front;
      EarlierThanLast(urls, n - 1, front[i]);
    }
  }

  /** The pool keeps the configured order. */
  lemma PoolInOrder(b: Balancer, i: nat, j: nat)
    requires WellFormed(b) && i < j < |ActivePool(b)|
    ensures Earlier(b.order, ActivePool(b)[i], ActivePool(b)[j])
  {
    var primary := Tier(b.order, b.backups, b.healthy, false);
    var backup := Tier(b.order, b.backups, b.healthy, true);
    if primary != [] {
      TierInOrder(b.order, |b.order|, b.backups, b.healthy, false, i, j);
    } else if backup != [] {
      TierInOrder(b.order, |b.order|, b.backups, b.healthy, true, i, j);
    }
  }

  // ---------------------------------------------------------------- least loaded

  /** `min(pool, key=load)`: the first of the least loaded. */
  predicate FirstLeast(pool: seq<Url>, load: map<Url, nat>, k: nat)
    requires forall u :: u in pool ==> u in load
  {
    && k < |pool|
    && (forall j :: 0 <= j < |pool| ==> load[pool[k]] <= load[pool[j]])
    && (forall j :: 0 <= j < k ==> load[pool[k]] < load[pool[j]])
  }

  lemma {:induction false} LeastExists(pool: seq<Url>, load: map<Url, nat>, n: nat) returns (k: nat)
    requires 0 < n <= |pool| && forall u :: u in pool ==> u in load
    ensures FirstLeast(pool[..n], load, k)
  {
    if n == 1 {
      k := 0;
    } else {
      k := LeastExists(pool, load, n - 1);
      if load[pool[n - 1]] < load[pool[k]] { k := n - 1; }
    }
  }

  ghost function LeastIndex(pool: seq<Url>, load: map<Url, nat>): (k: nat)
    requires pool != [] && forall u :: u in pool ==> u in load
    ensures FirstLeast(pool, load, k)
  {
    assert exists k :: FirstLeast(pool, load, k) by {
      var k := LeastExists(pool, load, |pool|);
      assert pool[..|pool|] == pool;
    }
    var k :| FirstLeast(pool, load, k);
    k
  }

  // ---------------------------------------------------------------- sticky pins

  /** `math.ceil(a / n)`. */
  function CeilDiv(a: int, n: nat): int
    requires 0 < n
  {
    -((-a) / n)
  }

  lemma CeilDivBounds(a: int, n: nat)
    requires 0 < n
    ensures a <= n * CeilDiv(a, n) < a + n
  {
    assert -a == n * ((-a) / n) + (-a) % n;
  }

  /** A load is below the share of `a` among `n`, or at most the share, without dividing. */
  lemma ShareBoundaries(load: int, a: int, n: nat)
    requires 0 < n
    ensures load < CeilDiv(a, n) <==> n * load < a
    ensures load <= CeilDiv(a, n) <==> n * load < a + n
  {
    var q := CeilDiv(a, n);
    CeilDivBounds(a, n);
    MulMonotone(n, load + 1, q);
    MulMonotone(n, q, load);
    MulMonotone(n, load, q);
    MulMonotone(n, q + 1, load);
    assert n * (load + 1) == n * load + n && n * (q + 1) == n * q + n;
  }

  /** Sharing among more leaves each with no more. */
  lemma CeilDivAntitone(a: nat, n: nat, m: nat)
    requires 0 < m <= n
    ensures 0 <= CeilDiv(a, n) <= CeilDiv(a, m)
  {
    CeilDivBounds(a, n);
    CeilDivBounds(a, m);
    MulOrder(CeilDiv(a, m), m, n);
    LeastMultiple(CeilDiv(a, n), CeilDiv(a, m), n);
  }

  lemma MulOrder(q: int, m: nat, n: nat)
    requires m <= n
    ensures 0 <= q ==> m * q <= n * q
    ensures m * q >= 0 && m > 0 ==> q >= 0
  {
  }

  lemma LeastMultiple(p: int, q: int, n: nat)
    requires 0 < n && n * p < n * q + n
    ensures p <= q
  {
    MulMonotone(n, q + 1, p);
    assert n * (q + 1) == n * q + n;
  }

  lemma MulMonotone(n: nat, x: int, y: int)
    ensures x <= y ==> n * x <= n * y
  {
  }

  function FairShare(hint: int, pool: seq<Url>): int
    requires pool != []
  {
    CeilDiv(hint, |pool|)
  }

  /** The pin has its fair share or more while another candidate has less. */
  predicate EvictPin(url: Url, pool: seq<Url>, load: map<Url, nat>, hint: Option<int>)
    requires url in pool && forall u :: u in pool ==> u in load
  {
    && hint.Some?
    && load[url] >= FairShare(hint.value, pool)
    && exists u :: u in pool && u != url && load[u] < FairShare(hint.value, pool)
  }

  predicate Live(pin: Pin, now: real, ttl: real) { now - pin.lastUsed <= ttl }

  function StickyKey(b: Balancer, ip: Option<Ip>): Option<Ip> {
    if b.stickyOn then ip else None
  }

  /** The instance a client is pinned to, unless the pin has expired. */
  function LivePin(b: Balancer, ip: Option<Ip>, now: real): Option<Url> {
    var key := StickyKey(b, ip);
    if key.Some? && key.value in b.sticky && Live(b.sticky[key.value], now, b.ttl)
    then Some(b.sticky[key.value].url) else None
  }

  ghost function Pick(pool: seq<Url>, load: map<Url, nat>, pin: Option<Url>, hint: Option<int>): (url: Url)
    requires pool != [] && forall u :: u in pool ==> u in load
    ensures url in pool
  {
    if pin.Some? && pin.value in pool && !EvictPin(pin.value, pool, load, hint) then pin.value
    else pool[LeastIndex(pool, load)]
  }

  // ---------------------------------------------------------------- operations

  ghost function Choice(b: Balancer, ip: Option<Ip>, hint: Option<int>, now: real): (url: Url)
    requires WellFormed(b)
    ensures url in ActivePool(b)
  {
    Pick(ActivePool(b), b.inFlight, LivePin(b, ip, now), hint)
  }

  /** `select`: the expiry of the pin is checked at `now`, its new stamp is read later. */
  ghost function Select(b: Balancer, ip: Option<Ip>, hint: Option<int>, now: real, stamp: real): (r: Balancer)
    requires WellFormed(b)
  {
    var url := Choice(b, ip, hint, now);
    var key := StickyKey(b, ip);
    b.(inFlight := b.inFlight[url := b.inFlight[url] + 1],
       sticky := if key.Some? then b.sticky[key.value := Pin(url, stamp)] else b.sticky)
  }

  function Uncount(b: Balancer, url: Url): Balancer {
    if url in b.inFlight && b.inFlight[url] > 0 then b.(inFlight := b.inFlight[url := b.inFlight[url] - 1]) else b
  }

  function MarkDown(b: Balancer, url: Url, clock: real): Balancer {
    if url in b.healthy && b.healthy[url]
    then b.(healthy := b.healthy[url := false], downSince := b.downSince[url := clock])
    else b
  }

  function Release(b: Balancer, url: Url, connectFailed: bool, clock: real): (r: Balancer)
    requires WellFormed(b)
    ensures r == b.(inFlight := r.inFlight, healthy := r.healthy, downSince := r.downSince)
  {
    if connectFailed then MarkDown(Uncount(b, url), url, clock) else Uncount(b, url)
  }

  /** A successful probe of a down instance. */
  function Recover(b: Balancer, url: Url): (r: Balancer)
    requires WellFormed(b)
  {
    if url in b.healthy && !b.healthy[url]
    then b.(healthy := b.healthy[url := true], downSince := b.downSince - {url})
    else b
  }

  function LiveOnly(sticky: map<Ip, Pin>, now: real, ttl: real): map<Ip, Pin> {
    map ip | ip in sticky && Live(sticky[ip], now, ttl) :: sticky[ip]
  }

  function Sweep(b: Balancer, now: real): (r: Balancer)
    requires WellFormed(b)
  {
    b.(sticky := LiveOnly(b.sticky, now, b.ttl))
  }

  lemma SelectKeepsWellFormed(b: Balancer, ip: Option<Ip>, hint: Option<int>, now: real, stamp: real)
    requires WellFormed(b)
    ensures WellFormed(Select(b, ip, hint, now, stamp))
  {
  }

  lemma UncountKeepsWellFormed(b: Balancer, url: Url)
    requires WellFormed(b)
    ensures WellFormed(Uncount(b, url))
  {
  }

  lemma MarkDownKeepsWellFormed(b: Balancer, url: Url, clock: real)
    requires WellFormed(b)
    ensures WellFormed(MarkDown(b, url, clock))
  {
  }

  lemma ReleaseKeepsWellFormed(b: Balancer, url: Url, connectFailed: bool, clock: real)
    requires WellFormed(b)
    ensures WellFormed(Release(b, url, connectFailed, clock))
  {
    UncountKeepsWellFormed(b, url);
    if connectFailed { MarkDownKeepsWellFormed(Uncount(b, url), url, clock); }
  }

  lemma RecoverKeepsWellFormed(b: Balancer, url: Url)
    requires WellFormed(b)
    ensures WellFormed(Recover(b, url))
  {
  }

  /** Releasing what `select` took leaves every load as it was; a connection failure costs the chosen
      instance its health and nobody else's. */
  lemma ReleaseUndoesSelect(b: Balancer, ip: Option<Ip>, hint: Option<int>, now: real, stamp: real,
                            connectFailed: bool, clock: real)
    requires WellFormed(b)
    ensures var url := Choice(b, ip, hint, now);
            var selected := Select(b, ip, hint, now, stamp);
            && WellFormed(selected)
            && Release(selected, url, connectFailed, clock).inFlight == b.inFlight
            && Release(selected, url, connectFailed, clock).healthy
               == if connectFailed then b.healthy[url := false] else b.healthy
  {
    SelectKeepsWellFormed(b, ip, hint, now, stamp);
    ReleaseFields(Select(b, ip, hint, now, stamp), Choice(b, ip, hint, now), connectFailed, clock);
    PutBack(b.inFlight, Choice(b, ip, hint, now), b.inFlight[Choice(b, ip, hint, now)] + 1);
  }

  lemma PutBack<K, V>(m: map<K, V>, k: K, v: V)
    requires k in m
    ensures m[k := v][k := m[k]] == m
  {
  }

  lemma ReleaseFields(b: Balancer, url: Url, connectFailed: bool, clock: real)
    requires WellFormed(b) && url in b.inFlight && b.inFlight[url] > 0
    ensures Release(b, url, connectFailed, clock).inFlight == b.inFlight[url := b.inFlight[url] - 1]
    ensures Release(b, url, connectFailed, clock).healthy
            == if connectFailed then b.healthy[url := false] else b.healthy
  {
    if connectFailed && !b.healthy[url] { PutBack(b.healthy, url, false); }
  }

  /** A backup serves nobody while a primary is healthy, not even a client pinned to it: the
      client moves to the primaries at the first request after one of them recovers. */
  lemma PrimariesFirst(b: Balancer, ip: Option<Ip>, hint: Option<int>, now: real, u: Url)
    requires WellFormed(b) && u in b.order && u !in b.backups && b.healthy[u]
    ensures var url := Choice(b, ip, hint, now); b.healthy[url] && url !in b.backups
  {
    var url := Choice(b, ip, hint, now);
    var alive := (v: Url) => v in b.order && b.healthy[v];
    assert alive(u) && u !in b.backups;
    PoolMembers(b, url);
  }

  // ---------------------------------------------------------------- fair share

  function TotalLoad(urls: seq<Url>, load: map<Url, nat>): (n: nat)
    requires forall u :: u in urls ==> u in load
  {
    if urls == [] then 0
    else TotalLoad(urls[..|urls| - 1], load) + load[urls[|urls| - 1]]
  }

  /** Changing one instance's load changes the total by as much. */
  lemma {:induction false} TotalLoadUpdate(urls: seq<Url>, load: map<Url, nat>, url: Url, n: nat)
    requires Distinct(urls) && forall u :: u in urls ==> u in load
    requires url in load
    ensures TotalLoad(urls, load[url := n])
            == TotalLoad(urls, load) + if url in urls then n - load[url] else 0
  {
    if urls != [] {
      var front, last := urls[..|urls| - 1], urls[|urls| - 1];
      TotalLoadUpdate(front, load, url, n);
      assert last !in front;
      assert urls == front + [last];
    }
  }

  lemma {:induction false} TierLoad(
    urls: seq<Url>, n: nat, backups: set<Url>, healthy: map<Url, bool>, backup: bool, load: map<Url, nat>)
    requires n <= |urls| && forall i :: 0 <= i < n ==> urls[i] in healthy && urls[i] in load
    ensures TotalLoad(TierOf(urls, n, backups, healthy, backup), load) <= TotalLoad(urls[..n], load)
  {
    if n > 0 {
      assert urls[..n][..n - 1] == urls[..n - 1];
      TierLoad(urls, n - 1, backups, healthy, backup, load);
      var pool := TierOf(urls, n - 1, backups, healthy, backup);
      assert (pool + [urls[n - 1]])[..|pool|] == pool;
      assert pool + [] == pool;
    }
  }

  /** Pigeonhole: with less total load than the hint, some candidate is below its fair share. */
  lemma {:induction false} LoadAtLeast(pool: seq<Url>, load: map<Url, nat>, share: int)
    requires forall u :: u in pool ==> u in load && load[u] >= share
    ensures TotalLoad(pool, load) >= |pool| * share
  {
    if pool != [] {
      LoadAtLeast(pool[..|pool| - 1], load, share);
      assert |pool| * share == (|pool| - 1) * share + share;
    }
  }

  lemma SomeoneBelowShare(b: Balancer, hint: int)
    requires WellFormed(b) && TotalLoad(b.order, b.inFlight) < hint
    ensures exists u :: u in ActivePool(b) && b.inFlight[u] < FairShare(hint, ActivePool(b))
  {
    var pool := ActivePool(b);
    var share := FairShare(hint, pool);
    assert b.order[..|b.order|] == b.order;
    TierLoad(b.order, |b.order|, b.backups, b.healthy, false, b.inFlight);
    TierLoad(b.order, |b.order|, b.backups, b.healthy, true, b.inFlight);
    if forall u :: u in pool ==> b.inFlight[u] >= share {
      LoadAtLeast(pool, b.inFlight, share);
      CeilDivBounds(hint, |pool|);
    }
  }

  lemma LeastOfAll(pool: seq<Url>, load: map<Url, nat>, u: Url)
    requires pool != [] && (forall v :: v in pool ==> v in load) && u in pool
    ensures load[pool[LeastIndex(pool, load)]] <= load[u]
  {
    var j :| 0 <= j < |pool| && pool[j] == u;
    assert FirstLeast(pool, load, LeastIndex(pool, load));
  }

  /** `select` takes an instance below its fair share of the hint, pinned or not, exactly when the pool has
      one; otherwise it keeps the pin, or takes a least loaded instance, at or above the share. */
  lemma ChoiceBelowShareIff(b: Balancer, ip: Option<Ip>, hint: int, now: real)
    requires WellFormed(b)
    ensures var pool := ActivePool(b);
            |pool| * b.inFlight[Choice(b, ip, Some(hint), now)] < hint
            <==> exists u :: u in pool && |pool| * b.inFlight[u] < hint
  {
    var pool, url := ActivePool(b), Choice(b, ip, Some(hint), now);
    ShareBoundaries(b.inFlight[url], hint, |pool|);
    if u :| u in pool && |pool| * b.inFlight[u] < hint {
      ShareBoundaries(b.inFlight[u], hint, |pool|);
      LeastOfAll(pool, b.inFlight, u);
    }
  }

  /** While the total load is below the hint, `select` never takes an instance at or above its fair
      share, pinned or not; so a pin is never kept because everybody is saturated. */
  lemma ChoiceBelowShare(b: Balancer, ip: Option<Ip>, hint: int, now: real)
    requires WellFormed(b) && TotalLoad(b.order, b.inFlight) < hint
    ensures |ActivePool(b)| * b.inFlight[Choice(b, ip, Some(hint), now)] < hint
  {
    SomeoneBelowShare(b, hint);
    var u :| u in ActivePool(b) && b.inFlight[u] < FairShare(hint, ActivePool(b));
    ShareBoundaries(b.inFlight[u], hint, |ActivePool(b)|);
    ChoiceBelowShareIff(b, ip, hint, now);
  }

  /** The client's pin has not expired, its instance is a candidate, and with a hint that instance is below
      its fair share or nobody else is. */
  ghost predicate KeepsPin(b: Balancer, ip: Option<Ip>, hint: Option<int>, now: real)
    requires WellFormed(b)
  {
    && b.stickyOn && ip.Some? && ip.value in b.sticky
    && now - b.sticky[ip.value].lastUsed <= b.ttl
    && var url, pool := b.sticky[ip.value].url, ActivePool(b);
       && url in pool
       && (hint.Some? ==>
             || |pool| * b.inFlight[url] < hint.value
             || forall u :: u in pool && u != url ==> |pool| * b.inFlight[u] >= hint.value)
  }

  /** No candidate carries less, and none that carries as much is configured earlier. */
  ghost predicate LeastLoadedFirst(b: Balancer, url: Url)
    requires WellFormed(b)
  {
    && url in ActivePool(b)
    && forall u :: u in ActivePool(b) && u != url ==>
         b.inFlight[url] < b.inFlight[u] || (b.inFlight[url] == b.inFlight[u] && Earlier(b.order, url, u))
  }

  lemma EvictPinIff(pool: seq<Url>, load: map<Url, nat>, url: Url, hint: int)
    requires url in pool && forall u :: u in pool ==> u in load
    ensures EvictPin(url, pool, load, Some(hint))
            <==> |pool| * load[url] >= hint && exists u :: u in pool && u != url && |pool| * load[u] < hint
  {
    forall u | u in pool
      ensures load[u] < FairShare(hint, pool) <==> |pool| * load[u] < hint
    {
      ShareBoundaries(load[u], hint, |pool|);
    }
  }

  /** Whom `select` takes: the pinned instance where there is a pin to keep; otherwise, be the pin missing,
      expired, outside the pool or evicted, the first of the least loaded candidates. */
  lemma PinOrLeastLoaded(b: Balancer, ip: Option<Ip>, hint: Option<int>, now: real)
    requires WellFormed(b)
    ensures var url := Choice(b, ip, hint, now);
            if KeepsPin(b, ip, hint, now) then url == b.sticky[ip.value].url else LeastLoadedFirst(b, url)
  {
    var pool := ActivePool(b);
    if hint.Some? && ip.Some? && ip.value in b.sticky && b.sticky[ip.value].url in pool {
      EvictPinIff(pool, b.inFlight, b.sticky[ip.value].url, hint.value);
    }
    if !KeepsPin(b, ip, hint, now) { LeastIsFirst(b); }
  }

  lemma LeastIsFirst(b: Balancer)
    requires WellFormed(b)
    ensures LeastLoadedFirst(b, ActivePool(b)[LeastIndex(ActivePool(b), b.inFlight)])
  {
    var pool := ActivePool(b);
    var k := LeastIndex(pool, b.inFlight);
    forall u | u in pool && u != pool[k]
      ensures b.inFlight[pool[k]] < b.inFlight[u]
              || (b.inFlight[pool[k]] == b.inFlight[u] && Earlier(b.order, pool[k], u))
    {
      var j :| 0 <= j < |pool| && pool[j] == u;
      if k < j { PoolInOrder(b, k, j); }
    }
  }

  /** Exactly when a pin in the pool that has not expired is honoured: its instance is below its fair share
      of the hint, or everyone else is at or above it. */
  lemma PinHonoured(b: Balancer, ip: Ip, hint: int, now: real)
    requires WellFormed(b) && b.stickyOn && ip in b.sticky
    requires now - b.sticky[ip].lastUsed <= b.ttl && b.sticky[ip].url in ActivePool(b)
    ensures var url, pool := b.sticky[ip].url, ActivePool(b);
            Choice(b, Some(ip), Some(hint), now) == url <==>
              || |pool| * b.inFlight[url] < hint
              || forall u :: u in pool && u != url ==> |pool| * b.inFlight[u] >= hint
  {
    var url, pool := b.sticky[ip].url, ActivePool(b);
    EvictPinIff(pool, b.inFlight, url, hint);
    if EvictPin(url, pool, b.inFlight, Some(hint)) {
      var u :| u in pool && u != url && b.inFlight[u] < FairShare(hint, pool);
      LeastOfAll(pool, b.inFlight, u);
    }
  }
}
