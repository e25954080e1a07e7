/**
  `GeoIPLookup.lookup`: a bounded cache in front of two read-only databases.
 */
module GeoIP {
  import opened Wrappers

  type Ip = string

  datatype Location = Location(country: Option<string>, asn: Option<string>)

  datatype Cached = Cached(location: Location, storedAt: real)

  const CACHE_TTL_SECONDS := 300.0

  /** The databases as loaded at startup; a missing one answers nothing. */
  datatype Databases = Databases(city: Option<Ip -> Option<string>>, asn: Option<Ip -> Option<string>>)

  /** What the readers say, without any cache. */
  function Uncached(db: Databases, ip: Ip): Location {
    Location(if db.city.Some? then db.city.value(ip) else None,
             if db.asn.Some? then db.asn.value(ip) else None)
  }

  predicate Oldest(cache: map<Ip, Cached>, ip: Ip) {
    ip in cache && forall other :: other in cache ==> cache[ip].storedAt <= cache[other].storedAt
  }

  /** An answer stored anew; a full cache first loses an oldest entry. */
  ghost predicate Stored(before: map<Ip, Cached>, after: map<Ip, Cached>, maxSize: nat, ip: Ip, entry: Cached) {
    if |before| < maxSize then after == before[ip := entry]
    else exists oldest :: Oldest(before, oldest) && after == (before - {oldest})[ip := entry]
  }

  class GeoIPLookup {
    const databases: Databases
    const maxSize: nat
    var cache: map<Ip, Cached>

    ghost predicate Valid()
      reads this
    {
      && 0 < maxSize && |cache| <= maxSize
      && forall ip :: ip in cache ==> cache[ip].location == Uncached(databases, ip)
    }

    constructor (databases: Databases, maxSize: nat)
      requires 0 < maxSize
      ensures Valid() && cache == map[] && this.databases == databases && this.maxSize == maxSize
    {
      this.databases, this.maxSize, cache := databases, maxSize, map[];
    }

    method FindOldest() returns (ip: Ip)
      requires cache != map[]
      ensures Oldest(cache, ip)
    {
      ip :| ip in cache;
      var unseen := cache.Keys - {ip};
      while unseen != {}
        invariant unseen <= cache.Keys && ip in cache
        invariant forall other :: other in cache && other !in unseen ==> cache[ip].storedAt <= cache[other].storedAt
        decreases unseen
      {
        var other :| other in unseen;
        unseen := unseen - {other};
        if cache[other].storedAt < cache[ip].storedAt {
          ip := other;
        }
      }
    }

    /** Over every sequence of lookups and clock readings the answer is the databases' own and the
        cache keeps its bound. A fresh entry answers without touching the cache; otherwise the answer
        is stored anew, and a full cache loses one entry, an oldest one, even when the address itself
        was cached already. */
    method Lookup(ip: Ip, now: real) returns (location: Location)
      requires Valid()
      modifies this`cache
      ensures Valid()
      ensures location.country == if databases.city.Some? then databases.city.value(ip) else None
      ensures location.asn == if databases.asn.Some? then databases.asn.value(ip) else None
      ensures var loaded := databases.city.Some? || databases.asn.Some?;
              var recent := ip in old(cache) && now - old(cache)[ip].storedAt < 300.0;
              if loaded && !recent then Stored(old(cache), cache, maxSize, ip, Cached(location, now))
              else cache == old(cache)
      ensures forall gone, other :: gone in old(cache) && gone !in cache && other in old(cache) ==>
        old(cache)[gone].storedAt <= old(cache)[other].storedAt
    {
      if databases.city.None? && databases.asn.None? {
        return Location(None, None);
      }
      if ip in cache && now - cache[ip].storedAt < CACHE_TTL_SECONDS {
        return cache[ip].location;
      }
      var country: Option<string> := None;
      if databases.city.Some? {
        country := databases.city.value(ip);
      }
      var asn: Option<string> := None;
      if databases.asn.Some? {
        asn := databases.asn.value(ip);
      }
      location := Location(country, asn);
      Store(ip, location, now);
    }

    method Store(ip: Ip, location: Location, now: real)
      requires Valid() && location == Uncached(databases, ip)
      modifies this`cache
      ensures Valid() && Stored(old(cache), cache, maxSize, ip, Cached(location, now))
    {
      if |cache| >= maxSize {
        var oldest := FindOldest();
        ghost var before := cache;
        assert (cache - {oldest}).Keys == cache.Keys - {oldest};
        cache := cache - {oldest};
        assert cache == before - {oldest};
      }
      assert cache[ip := Cached(location, now)].Keys == cache.Keys + {ip};
      cache := cache[ip := Cached(location, now)];
    }
  }
}
