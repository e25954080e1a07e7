/**
  `RedisPenaltyStore.increment_and_get`: one counter with a time-to-live per key, compared with
  the true log of hits it stands for.
 */
module PenaltyStore {
  import opened Wrappers
  import opened Windows

  type Key = string

  /** A counter with the instant it expires, if `EXPIRE` was ever applied to it. */
  datatype Cell = Cell(count: nat, expiresAt: Option<real>)

  type Cells = map<Key, Cell>

  /** The server: its keys, and how many more commands get through before the connection fails. */
  datatype Redis = Redis(cells: Cells, commandsLeft: nat)

  datatype StoreError = Unavailable

  predicate Alive(cells: Cells, key: Key, now: real) {
    key in cells && (cells[key].expiresAt.None? || now < cells[key].expiresAt.value)
  }

  function Incr(cells: Cells, key: Key, now: real): Cells {
    cells[key := if Alive(cells, key, now) then cells[key].(count := cells[key].count + 1) else Cell(1, None)]
  }

  function Expire(cells: Cells, key: Key, ttl: int, now: real): Cells {
    if Alive(cells, key, now) then cells[key := cells[key].(expiresAt := Some(now + ttl as real))] else cells
  }

  /** A hit whose commands all get through. */
  function Hit(cells: Cells, key: Key, ttl: int, now: real): (r: (nat, Cells))
    ensures key in r.1 && r.0 == r.1[key].count
  {
    var counted := Incr(cells, key, now);
    var count := counted[key].count;
    (count, if count == 1 then Expire(counted, key, ttl, now) else counted)
  }

  /** `increment_and_get`, which may fail before or between its two commands. */
  function IncrementAndGet(redis: Redis, key: Key, ttl: int, now: real): (Result<nat, StoreError>, Redis) {
    if redis.commandsLeft == 0 then (Err(Unavailable), redis)
    else
      var counted := Incr(redis.cells, key, now);
      var count := counted[key].count;
      if count != 1 then (Ok(count), Redis(counted, redis.commandsLeft - 1))
      else if redis.commandsLeft == 1 then (Err(Unavailable), Redis(counted, 0))
      else (Ok(count), Redis(Expire(counted, key, ttl, now), redis.commandsLeft - 2))
  }

  /** Where it succeeds, it is a hit. */
  lemma SuccessIsHit(redis: Redis, key: Key, ttl: int, now: real)
    ensures var (result, after) := IncrementAndGet(redis, key, ttl, now);
            result.Ok? ==> (result.value, after.cells) == Hit(redis.cells, key, ttl, now)
  {
  }

  class RedisConnection {
    var cells: Cells
    var commandsLeft: nat

    ghost function Value(): Redis
      reads this
    {
      Redis(cells, commandsLeft)
    }

    constructor (commandsLeft: nat)
      ensures Value() == Redis(map[], commandsLeft)
    {
      cells, this.commandsLeft := map[], commandsLeft;
    }

    method IncrCommand(key: Key, now: real) returns (r: Result<nat, StoreError>)
      modifies this
      ensures old(commandsLeft) == 0 ==> r == Err(Unavailable) && Value() == old(Value())
      ensures old(commandsLeft) > 0 ==>
        Value() == Redis(Incr(old(cells), key, now), old(commandsLeft) - 1) && r == Ok(cells[key].count)
    {
      if commandsLeft == 0 {
        return Err(Unavailable);
      }
      commandsLeft := commandsLeft - 1;
      if key in cells && (cells[key].expiresAt.None? || now < cells[key].expiresAt.value) {
        cells := cells[key := Cell(cells[key].count + 1, cells[key].expiresAt)];
      } else {
        cells := cells[key := Cell(1, None)];
      }
      r := Ok(cells[key].count);
    }

    method ExpireCommand(key: Key, ttl: int, now: real) returns (r: Result<(), StoreError>)
      modifies this
      ensures old(commandsLeft) == 0 ==> r == Err(Unavailable) && Value() == old(Value())
      ensures old(commandsLeft) > 0 ==>
        r == Ok(()) && Value() == Redis(Expire(old(cells), key, ttl, now), old(commandsLeft) - 1)
    {
      if commandsLeft == 0 {
        return Err(Unavailable);
      }
      commandsLeft := commandsLeft - 1;
      if key in cells && (cells[key].expiresAt.None? || now < cells[key].expiresAt.value) {
        cells := cells[key := Cell(cells[key].count, Some(now + ttl as real))];
      }
      r := Ok(());
    }
  }

  class RedisPenaltyStore {
    const redis: RedisConnection

    constructor (redis: RedisConnection)
      ensures this.redis == redis
    {
      this.redis := redis;
    }

    method IncrementAndGetKey(key: Key, ttl: int, now: real) returns (r: Result<nat, StoreError>)
      modifies redis
      ensures (r, redis.Value()) == IncrementAndGet(old(redis.Value()), key, ttl, now)
    {
      var count := redis.IncrCommand(key, now);
      if count.Err? {
        return Err(Unavailable);
      }
      if count.value == 1 {
        var expired := redis.ExpireCommand(key, ttl, now);
        if expired.Err? {
          return Err(Unavailable);
        }
      }
      r := count;
    }
  }

  // ---------------------------------------------------------------- one key against its hit log

  /** The counter after a log of hits: its value, when its window began, and the final value of the
      window before (0 when there was none). */
  datatype Counter = Counter(count: nat, start: real, previous: nat)

  function CounterAfter(hits: seq<real>, ttl: int): Counter
    requires hits != []
  {
    var t := hits[|hits| - 1];
    if |hits| == 1 then Counter(1, t, 0)
    else
      var c := CounterAfter(hits[..|hits| - 1], ttl);
      if t < c.start + ttl as real then c.(count := c.count + 1) else Counter(1, t, c.count)
  }

  lemma {:induction false} CounterShape(hits: seq<real>, ttl: int)
    requires hits != [] && Ascending(hits) && ttl > 0
    ensures var c, n := CounterAfter(hits, ttl), |hits|;
            && 0 < c.count && c.count + c.previous <= n
            && hits[n - c.count] == c.start && hits[n - 1] < c.start + ttl as real
            && (c.previous == 0 ==> c.count == n)
            && (c.previous > 0 ==> hits[n - c.count - c.previous] + ttl as real <= c.start)
  {
    if |hits| > 1 {
      CounterShape(hits[..|hits| - 1], ttl);
    }
  }

  /** A count is at most the number of hits in the last `ttl` seconds, misses less than the final count of
      the window before, and misses none exactly when every earlier hit is older. */
  ghost predicate FitsLog(count: nat, hits: seq<real>, ttl: int, now: real)
    requires hits != []
  {
    var previous := CounterAfter(hits, ttl).previous;
    var recent := CountAbove(hits, now - ttl as real);
    && count <= |hits|
    && count <= recent <= count + (if previous == 0 then 0 else previous - 1)
    && (count == recent <==> forall k :: 0 <= k < |hits| - count ==> hits[k] <= now - ttl as real)
  }

  /** At every hit the counter fits the true log of hits. */
  lemma CounterAgainstLog(hits: seq<real>, ttl: int)
    requires hits != [] && Ascending(hits) && ttl > 0
    ensures FitsLog(CounterAfter(hits, ttl).count, hits, ttl, hits[|hits| - 1])
  {
    var c, n := CounterAfter(hits, ttl), |hits|;
    var since := hits[n - 1] - ttl as real;
    CounterShape(hits, ttl);
    AscendingRank(hits, n - c.count, since);
    if c.previous > 0 {
      assert hits[n - c.count] <= hits[n - 1];
      AscendingRank(hits, n - c.count - c.previous, since);
      AscendingRank(hits, n - c.count - 1, since);
    }
  }

  // ---------------------------------------------------------------- the store against its log

  datatype LogEntry = LogEntry(key: Key, at: real)

  /** The hits one key received. */
  function OwnHits(log: seq<LogEntry>, key: Key): seq<real> {
    if log == [] then []
    else
      var last := log[|log| - 1];
      OwnHits(log[..|log| - 1], key) + if last.key == key then [last.at] else []
  }

  /** The store after a log of hits; a key fixes its time-to-live. */
  function CellsAfter(log: seq<LogEntry>, ttlOf: Key -> int): Cells {
    if log == [] then map[]
    else
      var last := log[|log| - 1];
      Hit(CellsAfter(log[..|log| - 1], ttlOf), last.key, ttlOf(last.key), last.at).1
  }

  predicate Chronological(log: seq<LogEntry>) {
    forall i, j :: 0 <= i < j < |log| ==> log[i].at <= log[j].at
  }

  lemma {:induction false} OwnHitsAscend(log: seq<LogEntry>, key: Key)
    requires Chronological(log)
    ensures Ascending(OwnHits(log, key))
    ensures forall t :: t in OwnHits(log, key) ==> exists i :: 0 <= i < |log| && log[i].at == t
  {
    if log != [] {
      var front := log[..|log| - 1];
      OwnHitsAscend(front, key);
      var own := OwnHits(front, key);
      forall t | t in own ensures t <= log[|log| - 1].at && exists i :: 0 <= i < |log| && log[i].at == t {
        var i :| 0 <= i < |front| && front[i].at == t;
        assert log[i].at == t;
      }
      forall i | 0 <= i < |own| ensures own[i] <= log[|log| - 1].at {
        assert own[i] in own;
      }
    }
  }

  lemma OwnHitsAscending(log: seq<LogEntry>, key: Key)
    requires Chronological(log)
    ensures Ascending(OwnHits(log, key))
  {
    OwnHitsAscend(log, key);
  }

  lemma {:induction false} CellsMatchCounters(log: seq<LogEntry>, ttlOf: Key -> int, key: Key)
    requires ttlOf(key) > 0
    ensures var cells, own := CellsAfter(log, ttlOf), OwnHits(log, key);
            && (key in cells <==> own != [])
            && (own != [] ==>
                  var c := CounterAfter(own, ttlOf(key));
                  c.count > 0 && cells[key] == Cell(c.count, Some(c.start + ttlOf(key) as real)))
  {
    if log != [] {
      CellsMatchCounters(log[..|log| - 1], ttlOf, key);
      var own, last := OwnHits(log[..|log| - 1], key), log[|log| - 1];
      assert (own + [last.at])[..|own|] == own;
      assert own + [] == own;
    }
  }

  /** What the store returns to the last hit of a log. */
  function LastCount(log: seq<LogEntry>, ttlOf: Key -> int): nat
    requires log != []
  {
    var last := log[|log| - 1];
    Hit(CellsAfter(log[..|log| - 1], ttlOf), last.key, ttlOf(last.key), last.at).0
  }

  lemma LastCountIsOwn(log: seq<LogEntry>, ttlOf: Key -> int)
    requires log != [] && ttlOf(log[|log| - 1].key) > 0
    ensures var last := log[|log| - 1];
            var own := OwnHits(log, last.key);
            && own != [] && own[|own| - 1] == last.at
            && LastCount(log, ttlOf) == CounterAfter(own, ttlOf(last.key)).count
  {
    var last := log[|log| - 1];
    CellsMatchCounters(log, ttlOf, last.key);
    assert LastCount(log, ttlOf) == CellsAfter(log, ttlOf)[last.key].count;
  }

  /** Each counter counts its own key's hits and nobody else's: after any log of hits on any keys,
      the count returned to the last hit fits the log of that key's own hits. */
  lemma StoreAgainstLog(log: seq<LogEntry>, ttlOf: Key -> int)
    requires log != [] && Chronological(log)
    requires ttlOf(log[|log| - 1].key) > 0
    ensures var last := log[|log| - 1];
            && OwnHits(log, last.key) != []
            && FitsLog(LastCount(log, ttlOf), OwnHits(log, last.key), ttlOf(last.key), last.at)
  {
    var last := log[|log| - 1];
    LastCountIsOwn(log, ttlOf);
    OwnHitsAscending(log, last.key);
    CounterAgainstLog(OwnHits(log, last.key), ttlOf(last.key));
  }

  lemma FitsBelow(count: nat, hits: seq<real>, ttl: int, now: real)
    requires hits != [] && FitsLog(count, hits, ttl, now)
    ensures count <= CountAbove(hits, now - ttl as real)
  {
  }

  // ---------------------------------------------------------------- a lost EXPIRE

  /** A hit on a connection that fails after some commands; the next hit finds a new connection. */
  datatype Attempt = Attempt(key: Key, at: real, commands: nat)

  /** The store after a log of attempts, whose connections may each fail early. */
  function CellsAfterAttempts(log: seq<Attempt>, ttlOf: Key -> int): Cells {
    if log == [] then map[]
    else
      var last := log[|log| - 1];
      var before := CellsAfterAttempts(log[..|log| - 1], ttlOf);
      IncrementAndGet(Redis(before, last.commands), last.key, ttlOf(last.key), last.at).1.cells
  }

  predicate GotExpire(a: Attempt) { a.commands >= 2 }

  /** A counter begun by `a` still counts at `now`. */
  predicate Counts(a: Attempt, ttl: int, now: real) { GotExpire(a) ==> now < a.at + ttl as real }

  /** The attempt that began a key's counter: the last to get through while none was counting. */
  function BeganBy(log: seq<Attempt>, key: Key, ttl: int): (i: Option<nat>)
    ensures i.Some? ==> i.value < |log| && log[i.value].key == key && log[i.value].commands > 0
  {
    if log == [] then None
    else
      var n := |log| - 1;
      var before := BeganBy(log[..n], key, ttl);
      if log[n].key != key || log[n].commands == 0 then before
      else if before.Some? && Counts(log[before.value], ttl, log[n].at) then before
      else Some(n)
  }

  /** Attempts on a key, from `from` on, whose `INCR` got through. */
  function Through(log: seq<Attempt>, key: Key, from: nat): nat
    requires from <= |log|
    decreases |log|
  {
    if |log| == from then 0
    else
      var last := log[|log| - 1];
      Through(log[..|log| - 1], key, from) + if last.key == key && last.commands > 0 then 1 else 0
  }

  ghost predicate MatchesLog(cells: Cells, log: seq<Attempt>, key: Key, ttl: int) {
    var i := BeganBy(log, key, ttl);
    && (key in cells <==> i.Some?)
    && (i.Some? ==>
          && cells[key].count == Through(log, key, i.value) > 0
          && cells[key].expiresAt == if GotExpire(log[i.value]) then Some(log[i.value].at + ttl as real) else None)
  }

  lemma OtherKey(redis: Redis, key: Key, ttl: int, now: real, other: Key)
    requires other != key
    ensures var cells := IncrementAndGet(redis, key, ttl, now).1.cells;
            (other in cells <==> other in redis.cells) && (other in cells ==> cells[other] == redis.cells[other])
  {
  }

  /** Whatever fails, a key's counter counts exactly the attempts that got through since the one that
      began it, and expires when that one says. */
  lemma {:induction false} AttemptsMatchLog(log: seq<Attempt>, ttlOf: Key -> int, key: Key)
    ensures MatchesLog(CellsAfterAttempts(log, ttlOf), log, key, ttlOf(key))
  {
    if log != [] {
      var n := |log| - 1;
      AttemptsMatchLog(log[..n], ttlOf, key);
      var redis := Redis(CellsAfterAttempts(log[..n], ttlOf), log[n].commands);
      if log[n].key != key {
        OtherKey(redis, log[n].key, ttlOf(log[n].key), log[n].at, key);
      }
    }
  }

  /** There is a time at which the key counts no more. */
  ghost predicate Ends(cells: Cells, key: Key) { exists now :: !Alive(cells, key, now) }

  lemma EndsIff(cells: Cells, key: Key)
    requires key in cells
    ensures Ends(cells, key) <==> cells[key].expiresAt.Some?
  {
    if cells[key].expiresAt.Some? {
      assert !Alive(cells, key, cells[key].expiresAt.value);
    }
  }

  /** A counter's window ever ends if and only if the attempt that began it got its `EXPIRE` through;
      one that did not counts on for ever, whatever is attempted later. */
  lemma WindowEndsIff(log: seq<Attempt>, ttlOf: Key -> int, key: Key, more: seq<Attempt>)
    requires BeganBy(log, key, ttlOf(key)).Some?
    ensures var i := BeganBy(log, key, ttlOf(key)).value;
            var cells := CellsAfterAttempts(log, ttlOf);
            var later := CellsAfterAttempts(log + more, ttlOf);
            && (Ends(cells, key) <==> GotExpire(log[i]))
            && (!GotExpire(log[i]) ==>
                  key in later && later[key] == Cell(Through(log + more, key, i), None))
  {
    var i := BeganBy(log, key, ttlOf(key)).value;
    AttemptsMatchLog(log, ttlOf, key);
    AttemptsMatchLog(log + more, ttlOf, key);
    EndsIff(CellsAfterAttempts(log, ttlOf), key);
    if !GotExpire(log[i]) {
      CountsOn(log, key, ttlOf(key), more);
      assert (log + more)[i] == log[i];
      assert CellsAfterAttempts(log + more, ttlOf)[key].expiresAt == None;
    }
  }

  lemma {:induction false} CountsOn(log: seq<Attempt>, key: Key, ttl: int, more: seq<Attempt>)
    requires BeganBy(log, key, ttl).Some? && !GotExpire(log[BeganBy(log, key, ttl).value])
    ensures BeganBy(log + more, key, ttl) == BeganBy(log, key, ttl)
  {
    if more == [] {
      assert log + more == log;
    } else {
      var n := |log + more| - 1;
      assert (log + more)[..n] == log + more[..|more| - 1];
      CountsOn(log, key, ttl, more[..|more| - 1]);
    }
  }

  predicate InOrder(log: seq<Attempt>) {
    forall i, j :: 0 <= i < j < |log| ==> log[i].at <= log[j].at
  }

  /** A hit on a key after an instant. */
  predicate HitAfter(a: Attempt, key: Key, since: real) { a.key == key && a.commands > 0 && a.at > since }

  /** Attempts on a key after an instant whose `INCR` got through. */
  function ThroughAfter(log: seq<Attempt>, key: Key, since: real): nat {
    if log == [] then 0
    else
      ThroughAfter(log[..|log| - 1], key, since) + if HitAfter(log[|log| - 1], key, since) then 1 else 0
  }

  lemma {:induction false} NoneAfterIff(log: seq<Attempt>, key: Key, since: real)
    ensures ThroughAfter(log, key, since) == 0 <==> forall j :: 0 <= j < |log| ==> !HitAfter(log[j], key, since)
  {
    if log != [] { NoneAfterIff(log[..|log| - 1], key, since); }
  }

  /** The hits since a counter began against the hits after an instant. */
  lemma {:induction false} SinceAgainstAfter(log: seq<Attempt>, key: Key, i: nat, since: real)
    requires InOrder(log) && i < |log| && log[i].key == key && log[i].commands > 0
    ensures log[i].at > since ==>
      ThroughAfter(log, key, since) == Through(log, key, i) + ThroughAfter(log[..i], key, since)
    ensures log[i].at <= since ==> Through(log, key, i) > ThroughAfter(log, key, since)
  {
    var n := |log| - 1;
    if i == n {
      NoneAfterIff(log[..n], key, since);
    } else {
      SinceAgainstAfter(log[..n], key, i, since);
      assert log[..n][..i] == log[..i];
    }
  }

  lemma LastIsCounted(log: seq<Attempt>, key: Key, ttl: int)
    requires log != [] && log[|log| - 1].key == key && log[|log| - 1].commands > 0 && ttl > 0
    ensures BeganBy(log, key, ttl).Some?
    ensures Counts(log[BeganBy(log, key, ttl).value], ttl, log[|log| - 1].at)
  {
  }

  /** Some hit on the key before the `i`-th attempt is after an instant. */
  ghost predicate EarlierHit(log: seq<Attempt>, i: nat, key: Key, since: real)
    requires i <= |log|
  {
    exists j :: 0 <= j < i && HitAfter(log[j], key, since)
  }

  /** The attempt that began the key's counter lost its `EXPIRE` and has left the sliding window. */
  ghost predicate Stale(log: seq<Attempt>, key: Key, ttl: int, now: real) {
    var i := BeganBy(log, key, ttl);
    i.Some? && !GotExpire(log[i.value]) && log[i.value].at <= now - ttl as real
  }

  /** A key's count against its hits in the last `ttl` seconds. It is too high if and only if the counter is
      stale; it is exact if and only if the attempt that began it is recent and no hit before that is; and
      it is too low if and only if a hit before that is recent, too. */
  ghost predicate AgainstRolling(cells: Cells, log: seq<Attempt>, key: Key, ttl: int, now: real) {
    var i := BeganBy(log, key, ttl);
    && i.Some? && key in cells
    && var count, since := cells[key].count, now - ttl as real;
       var recent := ThroughAfter(log, key, since);
       && (count > recent <==> Stale(log, key, ttl, now))
       && (count == recent <==> log[i.value].at > since && !EarlierHit(log, i.value, key, since))
       && (count < recent <==> log[i.value].at > since && EarlierHit(log, i.value, key, since))
  }

  lemma TooHighIffStale(cells: Cells, log: seq<Attempt>, key: Key, ttl: int, now: real, since: real)
    requires AgainstRolling(cells, log, key, ttl, now) && since == now - ttl as real
    ensures key in cells && (cells[key].count > ThroughAfter(log, key, since) <==> Stale(log, key, ttl, now))
  {
  }

  lemma CountAgainstWindow(cells: Cells, log: seq<Attempt>, key: Key, ttl: int)
    requires log != [] && InOrder(log) && log[|log| - 1].key == key && log[|log| - 1].commands > 0 && ttl > 0
    requires MatchesLog(cells, log, key, ttl)
    ensures AgainstRolling(cells, log, key, ttl, log[|log| - 1].at)
  {
    var i, since := BeganBy(log, key, ttl).value, log[|log| - 1].at - ttl as real;
    LastIsCounted(log, key, ttl);
    SinceAgainstAfter(log, key, i, since);
    NoneAfterIff(log[..i], key, since);
    assert EarlierHit(log, i, key, since) <==> ThroughAfter(log[..i], key, since) != 0 by {
      assert forall j :: 0 <= j < i ==> log[..i][j] == log[j];
    }
  }

  /** After every hit that gets through, whatever failed before: when the count is the rolling count, and
      when it is off in which direction. */
  lemma RollingCountIff(log: seq<Attempt>, ttlOf: Key -> int, key: Key)
    requires log != [] && InOrder(log) && log[|log| - 1].key == key && log[|log| - 1].commands > 0
    requires ttlOf(key) > 0
    ensures AgainstRolling(CellsAfterAttempts(log, ttlOf), log, key, ttlOf(key), log[|log| - 1].at)
  {
    AttemptsMatchLog(log, ttlOf, key);
    CountAgainstWindow(CellsAfterAttempts(log, ttlOf), log, key, ttlOf(key));
  }

  /** The smallest miss: of three hits half a window apart the third counts one, though two are recent. */
  lemma ThirdHitMissesSecond(key: Key, ttl: int, start: real)
    requires ttl > 0
    ensures var hits := [start, start + ttl as real / 2.0, start + ttl as real];
            CounterAfter(hits, ttl).count == 1 && CountAbove(hits, hits[2] - ttl as real) == 2
  {
    var mid, end := start + ttl as real / 2.0, start + ttl as real;
    var hits := [start, mid, end];
    assert hits[..2] == [start, mid] && [start, mid][..1] == [start];
    assert CounterAfter([start], ttl) == Counter(1, start, 0);
    assert CounterAfter([start, mid], ttl) == Counter(2, start, 0);
    assert hits[1..] == [mid, end] && [mid, end][1..] == [end] && [end][1..] == [];
    assert CountAbove([end], start) == 1 && CountAbove([mid, end], start) == 2;
  }
}
