/**
  `LeastLoadedLoadBalancer`, whose dictionaries are updated in place under one lock. Every method
  is one section that holds the lock; it is proved equal to the function of `Balancing` that
  carries the guarantees.
 */
module LoadBalancer {
  import opened Sequences
  import opened Wrappers
  import opened Balancing

  class LeastLoadedLoadBalancer {
    /** Every URL, primaries first, in the order the dictionaries were filled. */
    const order: seq<Url>
    const backups: set<Url>
    const stickyEnabled: bool
    const stickyTtlSeconds: real
    var inFlight: map<Url, nat>
    var healthy: map<Url, bool>
    var markedDownSince: map<Url, real>
    var sticky: map<Ip, Pin>

    ghost function Value(): Balancer
      reads this
    {
      Balancer(order, backups, inFlight, healthy, markedDownSince, sticky, stickyEnabled, stickyTtlSeconds)
    }

    ghost predicate Valid()
      reads this
    {
      WellFormed(Value())
    }

    constructor (urls: seq<Url>, backupUrls: seq<Url>, stickyEnabled: bool, stickyTtlSeconds: real)
      requires urls != [] && Distinct(urls + backupUrls)
      ensures Valid() && order == urls + backupUrls && backups == Urls(backupUrls)
      ensures this.stickyEnabled == stickyEnabled && this.stickyTtlSeconds == stickyTtlSeconds
      ensures sticky == map[]
      ensures forall u :: u in order ==> inFlight[u] == 0 && healthy[u]
    {
      order := urls + backupUrls;
      backups := set u | u in backupUrls;
      this.stickyEnabled := stickyEnabled;
      this.stickyTtlSeconds := stickyTtlSeconds;
      inFlight := map u | u in urls + backupUrls :: 0;
      healthy := map u | u in urls + backupUrls :: true;
      markedDownSince, sticky := map[], map[];
    }

    /** Candidates of one tier: `{url: n for url, n in in_flight.items() if …}`. */
    method HealthyTier(backup: bool) returns (pool: seq<Url>)
      requires Valid()
      ensures pool == Tier(order, backups, healthy, backup)
    {
      pool := [];
      for i := 0 to |order|
        invariant pool == TierOf(order, i, backups, healthy, backup)
      {
        var url := order[i];
        if (url in backups) == backup && healthy[url] {
          pool := pool + [url];
        }
      }
    }

    method ReadActivePool() returns (pool: seq<Url>)
      requires Valid()
      ensures pool == ActivePool(Value())
    {
      pool := HealthyTier(false);
      if pool == [] {
        pool := HealthyTier(true);
        if pool == [] {
          pool := order;
        }
      }
    }

    /** `min(candidates, key=candidates.get)`. */
    method LeastLoaded(pool: seq<Url>) returns (url: Url)
      requires pool != [] && Covers(pool)
      ensures url == pool[LeastIndex(pool, inFlight)]
    {
      var best := 0;
      for i := 1 to |pool|
        invariant best < i
        invariant forall j :: 0 <= j < i ==> inFlight[pool[best]] <= inFlight[pool[j]]
        invariant forall j :: 0 <= j < best ==> inFlight[pool[best]] < inFlight[pool[j]]
      {
        if inFlight[pool[i]] < inFlight[pool[best]] {
          best := i;
        }
      }
      url := pool[best];
      LeastUnique(pool, inFlight, best, LeastIndex(pool, inFlight));
    }

    ghost predicate Covers(pool: seq<Url>)
      reads this
    {
      forall u :: u in pool ==> u in inFlight
    }

    method ShouldEvictPin(pinned: Url, pool: seq<Url>, capacityHint: Option<int>) returns (evict: bool)
      requires pinned in pool && Covers(pool)
      ensures evict == EvictPin(pinned, pool, inFlight, capacityHint)
    {
      if capacityHint.None? {
        return false;
      }
      var fairShare := CeilDiv(capacityHint.value, |pool|);
      if inFlight[pinned] < fairShare {
        return false;
      }
      for i := 0 to |pool|
        invariant forall j :: 0 <= j < i ==> pool[j] == pinned || inFlight[pool[j]] >= fairShare
      {
        if pool[i] != pinned && inFlight[pool[i]] < fairShare {
          return true;
        }
      }
      evict := false;
    }

    method PinnedInstance(key: Ip, pool: seq<Url>, capacityHint: Option<int>, now: real)
      returns (pinned: Option<Url>)
      requires Covers(pool) && stickyEnabled
      ensures var pin := LivePin(Value(), Some(key), now);
              pinned == if pin.Some? && pin.value in pool && !EvictPin(pin.value, pool, inFlight, capacityHint)
                        then pin else None
    {
      if key !in sticky {
        return None;
      }
      var entry := sticky[key];
      if now - entry.lastUsed > stickyTtlSeconds {
        return None;
      }
      if entry.url !in pool {
        return None;
      }
      var evict := ShouldEvictPin(entry.url, pool, capacityHint);
      pinned := if evict then None else Some(entry.url);
    }

    /** Counts a request on an instance and renews the client's pin to it. */
    method Take(url: Url, stickyKey: Option<Ip>, stamp: real)
      requires url in inFlight
      modifies this`inFlight, this`sticky
      ensures inFlight == old(inFlight)[url := old(inFlight)[url] + 1]
      ensures sticky == if stickyKey.Some? then old(sticky)[stickyKey.value := Pin(url, stamp)] else old(sticky)
    {
      inFlight := inFlight[url := inFlight[url] + 1];
      if stickyKey.Some? {
        sticky := sticky[stickyKey.value := Pin(url, stamp)];
      }
    }

    /** The pinned instance where there is one to keep, else the least loaded candidate. */
    method Choose(stickyKey: Option<Ip>, capacityHint: Option<int>, now: real) returns (url: Url)
      requires Valid() && (stickyKey.Some? ==> stickyEnabled)
      ensures url == Pick(ActivePool(Value()), inFlight, LivePin(Value(), stickyKey, now), capacityHint)
    {
      var pool := ReadActivePool();
      if stickyKey.Some? {
        var pinned := PinnedInstance(stickyKey.value, pool, capacityHint, now);
        if pinned.Some? {
          return pinned.value;
        }
      }
      url := LeastLoaded(pool);
    }

    /** Selects an instance and counts the request on it. The clock is read twice: `now` against
        the pin's expiry, `stamp` for the pin's renewal. */
    method SelectInstance(sourceIp: Option<Ip>, capacityHint: Option<int>, now: real, stamp: real)
      returns (url: Url)
      requires Valid()
      modifies this`inFlight, this`sticky
      ensures Valid()
      ensures url == Choice(old(Value()), sourceIp, capacityHint, now)
      ensures Value() == Select(old(Value()), sourceIp, capacityHint, now, stamp)
      ensures if KeepsPin(old(Value()), sourceIp, capacityHint, now) then url == old(sticky)[sourceIp.value].url
              else LeastLoadedFirst(old(Value()), url)
      ensures inFlight == old(inFlight)[url := old(inFlight)[url] + 1]
      ensures sticky == if stickyEnabled && sourceIp.Some? then old(sticky)[sourceIp.value := Pin(url, stamp)]
                        else old(sticky)
    {
      var stickyKey := if stickyEnabled then sourceIp else None;
      ghost var b := Value();
      PinOrLeastLoaded(b, sourceIp, capacityHint, now);
      url := Choose(stickyKey, capacityHint, now);
      assert url == Choice(b, sourceIp, capacityHint, now);
      Take(url, stickyKey, stamp);
      SelectIs(b, sourceIp, capacityHint, now, stamp, Value());
    }

    /** Uncounts a request and marks the instance down after a connection failure. Returns whether
        the release was one too many. */
    method ReleaseInstance(url: Url, connectFailed: bool, clock: real) returns (doubleRelease: bool)
      requires Valid()
      modifies this`inFlight, this`healthy, this`markedDownSince
      ensures Valid()
      ensures Value() == Release(old(Value()), url, connectFailed, clock)
      ensures markedDownSince == if connectFailed && url in old(healthy) && old(healthy)[url]
                                 then old(markedDownSince)[url := clock] else old(markedDownSince)
      ensures doubleRelease <==> !(url in old(inFlight) && old(inFlight)[url] > 0)
    {
      ghost var b := Value();
      ReleaseKeepsWellFormed(b, url, connectFailed, clock);
      var current := if url in inFlight then inFlight[url] else 0;
      doubleRelease := current <= 0;
      if !doubleRelease {
        inFlight := inFlight[url := current - 1];
      }
      assert Value() == Uncount(b, url);
      if connectFailed && url in healthy && healthy[url] {
        healthy := healthy[url := false];
        markedDownSince := markedDownSince[url := clock];
      }
      assert Value() == Release(b, url, connectFailed, clock);
    }

    /** The instances one turn of the health check probes. */
    method DownInstances() returns (down: seq<Url>)
      requires Valid()
      ensures forall u :: u in down <==> u in order && !healthy[u]
    {
      down := [];
      for i := 0 to |order|
        invariant forall u :: u in down <==> u in order[..i] && !healthy[u]
      {
        if !healthy[order[i]] {
          down := down + [order[i]];
        }
      }
      assert order[..|order|] == order;
    }

    /** Brings an instance back after a successful probe, unless it came back meanwhile. */
    method MarkRecovered(url: Url)
      requires Valid()
      modifies this`healthy, this`markedDownSince
      ensures Valid() && Value() == Recover(old(Value()), url)
      ensures url in old(healthy) ==> healthy == old(healthy)[url := true]
      ensures url in old(healthy) ==> markedDownSince == old(markedDownSince) - {url}
    {
      RecoverKeepsWellFormed(Value(), url);
      if url in healthy && !healthy[url] {
        healthy := healthy[url := true];
        markedDownSince := markedDownSince - {url};
      }
    }

    /** Deletes every expired pin. */
    method SweepExpiredStickyEntries(now: real)
      requires Valid()
      modifies this`sticky
      ensures Valid() && Value() == Sweep(old(Value()), now)
      ensures forall ip :: ip in sticky <==> ip in old(sticky) && now - old(sticky)[ip].lastUsed <= stickyTtlSeconds
      ensures forall ip :: ip in sticky ==> sticky[ip] == old(sticky)[ip]
    {
      var expired := {};
      var unseen := sticky.Keys;
      while unseen != {}
        invariant unseen <= sticky.Keys
        invariant forall ip :: ip in expired <==> ip in sticky.Keys - unseen && !Live(sticky[ip], now, stickyTtlSeconds)
        decreases unseen
      {
        var ip :| ip in unseen;
        if now - sticky[ip].lastUsed > stickyTtlSeconds {
          expired := expired + {ip};
        }
        unseen := unseen - {ip};
      }
      sticky := sticky - expired;
    }
  }

  lemma SelectIs(b: Balancer, ip: Option<Ip>, hint: Option<int>, now: real, stamp: real, r: Balancer)
    requires WellFormed(b)
    requires var url := Choice(b, ip, hint, now);
             var key := StickyKey(b, ip);
             r == b.(inFlight := b.inFlight[url := b.inFlight[url] + 1],
                     sticky := if key.Some? then b.sticky[key.value := Pin(url, stamp)] else b.sticky)
    ensures r == Select(b, ip, hint, now, stamp) && WellFormed(r)
  {
    SelectKeepsWellFormed(b, ip, hint, now, stamp);
  }

  lemma LeastUnique(pool: seq<Url>, load: map<Url, nat>, i: nat, j: nat)
    requires forall u :: u in pool ==> u in load
    requires FirstLeast(pool, load, i) && FirstLeast(pool, load, j)
    ensures i == j
  {
    assert load[pool[i]] == load[pool[j]];
  }
}
