/**
  The scoring engine against the log of scored requests: what the counters of a whole history of
  requests stand for, and how far a charged penalty can be from a true sliding window's.
 */
module RequestLog {
  import opened Wrappers
  import opened Windows
  import opened KeyFormat
  import opened Config
  import opened PenaltyStore
  import opened Scoring

  /** A request, when it was scored, and how many commands its connection to the store could send. */
  datatype Scored = Scored(request: Request, at: real, commands: nat)

  type Configs = map<string, ScoringConfig>

  /** Every request's backend is configured, with valid windows of distinct lengths. */
  ghost predicate Configured(log: seq<Scored>, configs: Configs) {
    && (forall b :: b in configs ==>
          Validated(configs[b]) && forall d: Dimension :: DistinctLengths(configs[b].penalties[d]))
    && forall i :: 0 <= i < |log| ==> log[i].request.backend in configs
  }

  predicate TimeOrdered(log: seq<Scored>) {
    forall i, j :: 0 <= i < j < |log| ==> log[i].at <= log[j].at
  }

  /** The store after all requests of a log were scored. */
  ghost function StoreAfter(log: seq<Scored>, configs: Configs): Cells
    requires Configured(log, configs)
    decreases |log|, 1
  {
    if log == [] then map[] else ScoreLast(log, configs).1.cells
  }

  /** What scoring the last request of a log reads. */
  ghost function ScoreLast(log: seq<Scored>, configs: Configs)
    : (Result<Counts, StoreError>, Redis)
    requires Configured(log, configs) && log != []
    decreases |log|, 0
  {
    var last := log[|log| - 1];
    ChargeAll(Redis(StoreAfter(log[..|log| - 1], configs), last.commands), last.request,
              configs[last.request.backend], |DIMENSIONS|, last.at)
  }

  /** Every command of every request got through. */
  ghost predicate AllThrough(log: seq<Scored>, configs: Configs)
    requires Configured(log, configs)
  {
    log == [] || (ScoreLast(log, configs).0.Ok? && AllThrough(log[..|log| - 1], configs))
  }

  /** When a backend's requests with a given value of a dimension were scored. */
  function RequestTimes(log: seq<Scored>, d: Dimension, value: string, backend: string): seq<real> {
    if log == [] then []
    else
      var last := log[|log| - 1];
      RequestTimes(log[..|log| - 1], d, value, backend)
      + if last.request.backend == backend && ValueOf(last.request, d) == Some(value) then [last.at] else []
  }

  // ---------------------------------------------------------------- when every command gets through

  ghost predicate AtMostWindows(config: ScoringConfig, m: nat)
    requires Complete(config.penalties)
  {
    forall d: Dimension :: |config.penalties[d]| <= m
  }

  lemma ReadsGetThrough(redis: Redis, d: Dimension, value: string, backend: string,
                        windows: seq<PenaltyWindow>, now: real)
    requires ValidWindows(windows) && redis.commandsLeft >= 2 * |windows|
    ensures var (counts, after) := ReadCounts(redis, d, value, backend, windows, |windows|, now);
            counts.Ok? && after.commandsLeft >= redis.commandsLeft - 2 * |windows|
  {
    LiveCountsAfter(redis, d, value, backend, windows, |windows|, PenaltyWindow(1, 0, 0, 0, 0), now);
  }

  /** Commands that suffice for `n` dimensions of at most `m` windows. */
  function Sufficient(m: nat, n: nat): nat { if n == 0 then 0 else Sufficient(m, n - 1) + 2 * m }

  lemma {:induction false} ChargesGetThrough(redis: Redis, request: Request, config: ScoringConfig,
                                             m: nat, n: nat, now: real)
    requires Validated(config) && AtMostWindows(config, m) && n <= |DIMENSIONS|
    requires redis.commandsLeft >= Sufficient(m, n)
    ensures var (counts, after) := ChargeAll(redis, request, config, n, now);
            counts.Ok? && after.commandsLeft >= redis.commandsLeft - Sufficient(m, n)
    decreases n
  {
    if n > 0 {
      ChargesGetThrough(redis, request, config, m, n - 1, now);
      var d := DIMENSIONS[n - 1];
      if ValueOf(request, d).Some? {
        ReadsGetThrough(ChargeAll(redis, request, config, n - 1, now).1, d, ValueOf(request, d).value,
                        request.backend, config.penalties[d], now);
      }
    }
  }

  lemma SixDimensions(m: nat)
    ensures Sufficient(m, |DIMENSIONS|) == 12 * m
  {
    assert Sufficient(m, 1) == 2 * m && Sufficient(m, 2) == 4 * m && Sufficient(m, 3) == 6 * m;
    assert Sufficient(m, 4) == 8 * m && Sufficient(m, 5) == 10 * m;
  }

  /** Twelve commands for each window a dimension may have are always enough, whatever the store holds. */
  lemma {:induction false} EnoughCommands(log: seq<Scored>, configs: Configs, m: nat)
    requires Configured(log, configs) && forall b :: b in configs ==> AtMostWindows(configs[b], m)
    requires forall i :: 0 <= i < |log| ==> log[i].commands >= 12 * m
    ensures AllThrough(log, configs)
    decreases |log|
  {
    if log != [] {
      var front, last := log[..|log| - 1], log[|log| - 1];
      EnoughCommands(front, configs, m);
      SixDimensions(m);
      ChargesGetThrough(Redis(StoreAfter(front, configs), last.commands), last.request,
                        configs[last.request.backend], m, |DIMENSIONS|, last.at);
    }
  }

  // ---------------------------------------------------------------- requests as hits

  /** The length of the window whose counter a key names. */
  ghost function LengthOf(key: Key): int {
    if c: Counted :| KeyFormat.Key(c) == key then c.window else 1
  }

  lemma LengthOfCounter(d: Dimension, value: string, backend: string, w: PenaltyWindow)
    requires w.windowSeconds > 0
    ensures LengthOf(CounterKey(d, value, backend, w)) == w.windowSeconds
  {
    var c := Counted(d, value, backend, w.windowSeconds);
    assert KeyFormat.Key(c) == CounterKey(d, value, backend, w);
    var c' :| KeyFormat.Key(c') == KeyFormat.Key(c) && LengthOf(CounterKey(d, value, backend, w)) == c'.window;
    KeyParts(c, c');
  }

  function WindowHits(d: Dimension, value: string, backend: string, windows: seq<PenaltyWindow>, n: nat, at: real)
    : seq<LogEntry>
    requires ValidWindows(windows) && n <= |windows|
  {
    if n == 0 then []
    else
      WindowHits(d, value, backend, windows, n - 1, at)
      + [LogEntry(CounterKey(d, value, backend, windows[n - 1]), at)]
  }

  function DimensionHits(request: Request, config: ScoringConfig, d: Dimension, at: real): seq<LogEntry>
    requires Validated(config)
  {
    match ValueOf(request, d)
    case None => []
    case Some(value) =>
      WindowHits(d, value, request.backend, config.penalties[d], |config.penalties[d]|, at)
  }

  function RequestHits(request: Request, config: ScoringConfig, n: nat, at: real): seq<LogEntry>
    requires Validated(config) && n <= |DIMENSIONS|
  {
    if n == 0 then []
    else RequestHits(request, config, n - 1, at) + DimensionHits(request, config, DIMENSIONS[n - 1], at)
  }

  /** All the hits of a log of requests, in order. */
  ghost function Hits(log: seq<Scored>, configs: Configs): seq<LogEntry>
    requires Configured(log, configs)
  {
    if log == [] then []
    else
      var last := log[|log| - 1];
      Hits(log[..|log| - 1], configs)
      + RequestHits(last.request, configs[last.request.backend], |DIMENSIONS|, last.at)
  }

  // ---------------------------------------------------------------- the engine makes those hits

  lemma OneMoreHit(hits: seq<LogEntry>, redis: Redis, key: Key, ttl: int, now: real)
    requires redis.cells == CellsAfter(hits, LengthOf) && LengthOf(key) == ttl
    requires IncrementAndGet(redis, key, ttl, now).0.Ok?
    ensures var (count, after) := IncrementAndGet(redis, key, ttl, now);
            var more := hits + [LogEntry(key, now)];
            after.cells == CellsAfter(more, LengthOf) && count.value == LastCount(more, LengthOf)
  {
    SuccessIsHit(redis, key, ttl, now);
    assert (hits + [LogEntry(key, now)])[..|hits|] == hits;
  }

  lemma WindowHitsSnoc(hits: seq<LogEntry>, d: Dimension, value: string, backend: string,
                       windows: seq<PenaltyWindow>, n: nat, at: real)
    requires ValidWindows(windows) && n < |windows|
    ensures hits + WindowHits(d, value, backend, windows, n + 1, at)
            == hits + WindowHits(d, value, backend, windows, n, at)
               + [LogEntry(CounterKey(d, value, backend, windows[n]), at)]
  {
  }

  /** One window's read is one more hit. */
  lemma ReadIsHit(redis: Redis, hits: seq<LogEntry>, d: Dimension, value: string, backend: string,
                  windows: seq<PenaltyWindow>, n: nat, now: real)
    requires ValidWindows(windows) && n < |windows|
    requires redis.cells == CellsAfter(hits + WindowHits(d, value, backend, windows, n, now), LengthOf)
    requires IncrementAndGet(redis, CounterKey(d, value, backend, windows[n]), windows[n].windowSeconds, now).0.Ok?
    ensures var (count, after) :=
              IncrementAndGet(redis, CounterKey(d, value, backend, windows[n]), windows[n].windowSeconds, now);
            var more := hits + WindowHits(d, value, backend, windows, n + 1, now);
            after.cells == CellsAfter(more, LengthOf) && count.value == LastCount(more, LengthOf)
  {
    LengthOfCounter(d, value, backend, windows[n]);
    WindowHitsSnoc(hits, d, value, backend, windows, n, now);
    OneMoreHit(hits + WindowHits(d, value, backend, windows, n, now), redis,
               CounterKey(d, value, backend, windows[n]), windows[n].windowSeconds, now);
  }

  /** Where reading `n` windows succeeds, the store is as their hits leave it. */
  ghost predicate ReadAsHits(redis: Redis, hits: seq<LogEntry>, d: Dimension, value: string, backend: string,
                             windows: seq<PenaltyWindow>, n: nat, now: real)
    requires ValidWindows(windows) && n <= |windows|
  {
    match ReadCounts(redis, d, value, backend, windows, n, now).0
    case Err(_) => true
    case Ok(_) =>
      ReadCounts(redis, d, value, backend, windows, n, now).1.cells
      == CellsAfter(hits + WindowHits(d, value, backend, windows, n, now), LengthOf)
  }

  lemma NextReadIsHit(redis: Redis, hits: seq<LogEntry>, d: Dimension, value: string,
                      backend: string, windows: seq<PenaltyWindow>, n: nat, now: real)
    requires ValidWindows(windows) && n < |windows|
    requires ReadAsHits(redis, hits, d, value, backend, windows, n, now)
    ensures ReadAsHits(redis, hits, d, value, backend, windows, n + 1, now)
  {
    if ReadCounts(redis, d, value, backend, windows, n + 1, now).0.Ok? {
      ReadIsHit(ReadCounts(redis, d, value, backend, windows, n, now).1, hits, d, value, backend, windows, n, now);
    }
  }

  lemma ReadsAreHits(redis: Redis, hits: seq<LogEntry>, d: Dimension, value: string,
                     backend: string, windows: seq<PenaltyWindow>, n: nat, now: real)
    requires ValidWindows(windows) && n <= |windows| && redis.cells == CellsAfter(hits, LengthOf)
    ensures ReadAsHits(redis, hits, d, value, backend, windows, n, now)
  {
    assert hits + [] == hits;
    for k := 0 to n
      invariant ReadAsHits(redis, hits, d, value, backend, windows, k, now)
    {
      NextReadIsHit(redis, hits, d, value, backend, windows, k, now);
    }
  }

  lemma {:induction false} StaysRead(redis: Redis, d: Dimension, value: string, backend: string,
                                     windows: seq<PenaltyWindow>, n: nat, i: nat, now: real)
    requires ValidWindows(windows) && i < n <= |windows|
    requires ReadCounts(redis, d, value, backend, windows, n, now).0.Ok?
    ensures ReadCounts(redis, d, value, backend, windows, i + 1, now).0.Ok?
    ensures ReadCounts(redis, d, value, backend, windows, n, now).0.value[i]
            == ReadCounts(redis, d, value, backend, windows, i + 1, now).0.value[i]
    decreases n
  {
    if i + 1 < n { StaysRead(redis, d, value, backend, windows, n - 1, i, now); }
  }

  /** The count read from one window is what the store returns to its hit. */
  lemma CountIsLast(redis: Redis, hits: seq<LogEntry>, d: Dimension, value: string,
                    backend: string, windows: seq<PenaltyWindow>, n: nat, i: nat, now: real)
    requires ValidWindows(windows) && i < n <= |windows| && redis.cells == CellsAfter(hits, LengthOf)
    requires ReadCounts(redis, d, value, backend, windows, n, now).0.Ok?
    ensures ReadCounts(redis, d, value, backend, windows, n, now).0.value[i]
            == LastCount(hits + WindowHits(d, value, backend, windows, i + 1, now), LengthOf)
  {
    StaysRead(redis, d, value, backend, windows, n, i, now);
    ReadsAreHits(redis, hits, d, value, backend, windows, i, now);
    ReadIsHit(ReadCounts(redis, d, value, backend, windows, i, now).1, hits, d, value, backend, windows, i, now);
  }

  lemma ChargeIsHits(redis: Redis, hits: seq<LogEntry>, request: Request,
                     config: ScoringConfig, d: Dimension, now: real)
    requires Validated(config) && redis.cells == CellsAfter(hits, LengthOf)
    requires ChargeDimension(redis, request, config, d, now).0.Ok?
    ensures ChargeDimension(redis, request, config, d, now).1.cells
            == CellsAfter(hits + DimensionHits(request, config, d, now), LengthOf)
  {
    match ValueOf(request, d)
    case None => assert hits + [] == hits;
    case Some(value) =>
      ReadsAreHits(redis, hits, d, value, request.backend, config.penalties[d], |config.penalties[d]|, now);
  }

  lemma RequestHitsSnoc(hits: seq<LogEntry>, request: Request, config: ScoringConfig,
                        n: nat, at: real)
    requires Validated(config) && n < |DIMENSIONS|
    ensures hits + RequestHits(request, config, n + 1, at)
            == hits + RequestHits(request, config, n, at) + DimensionHits(request, config, DIMENSIONS[n], at)
  {
    var before, more := RequestHits(request, config, n, at), DimensionHits(request, config, DIMENSIONS[n], at);
    assert hits + (before + more) == hits + before + more;
  }

  lemma ChargeAllStep(redis: Redis, request: Request, config: ScoringConfig, n: nat, now: real)
    requires Validated(config) && n < |DIMENSIONS| && ChargeAll(redis, request, config, n + 1, now).0.Ok?
    ensures ChargeAll(redis, request, config, n, now).0.Ok?
    ensures var (before, store) := ChargeAll(redis, request, config, n, now);
            var (counts, after) := ChargeDimension(store, request, config, DIMENSIONS[n], now);
            && counts.Ok?
            && ChargeAll(redis, request, config, n + 1, now)
               == (Ok(before.value[DIMENSIONS[n] := counts.value]), after)
  {
  }

  /** Where charging `n` dimensions succeeds, the store is as the hits of `n` dimensions leave it. */
  ghost predicate ChargedAsHits(redis: Redis, hits: seq<LogEntry>, request: Request, config: ScoringConfig,
                                n: nat, now: real)
    requires Validated(config) && n <= |DIMENSIONS|
  {
    var (counts, after) := ChargeAll(redis, request, config, n, now);
    counts.Ok? ==> after.cells == CellsAfter(hits + RequestHits(request, config, n, now), LengthOf)
  }

  lemma NextChargeIsHits(redis: Redis, hits: seq<LogEntry>, request: Request,
                         config: ScoringConfig, n: nat, now: real)
    requires Validated(config) && 0 < n <= |DIMENSIONS| && ChargedAsHits(redis, hits, request, config, n - 1, now)
    ensures ChargedAsHits(redis, hits, request, config, n, now)
  {
    if ChargeAll(redis, request, config, n, now).0.Ok? {
      ChargeAllStep(redis, request, config, n - 1, now);
      RequestHitsSnoc(hits, request, config, n - 1, now);
      ChargeIsHits(ChargeAll(redis, request, config, n - 1, now).1,
                   hits + RequestHits(request, config, n - 1, now), request, config, DIMENSIONS[n - 1], now);
    }
  }

  lemma NothingChargedYet(redis: Redis, hits: seq<LogEntry>, request: Request,
                          config: ScoringConfig, n: nat, now: real)
    requires Validated(config) && n == 0 && redis.cells == CellsAfter(hits, LengthOf)
    ensures ChargedAsHits(redis, hits, request, config, n, now)
  {
    assert RequestHits(request, config, n, now) == [];
    assert hits + [] == hits;
  }

  lemma {:induction false} ChargesAreHits(redis: Redis, hits: seq<LogEntry>, request: Request,
                                          config: ScoringConfig, n: nat, now: real)
    requires Validated(config) && n <= |DIMENSIONS| && redis.cells == CellsAfter(hits, LengthOf)
    ensures ChargedAsHits(redis, hits, request, config, n, now)
    decreases n
  {
    if n == 0 {
      NothingChargedYet(redis, hits, request, config, n, now);
    } else {
      ChargesAreHits(redis, hits, request, config, n - 1, now);
      NextChargeIsHits(redis, hits, request, config, n, now);
    }
  }

  /** Scoring a log of requests leaves the store as its hits do. */
  lemma {:induction false} StoreIsHits(log: seq<Scored>, configs: Configs)
    requires Configured(log, configs) && AllThrough(log, configs)
    ensures StoreAfter(log, configs) == CellsAfter(Hits(log, configs), LengthOf)
    decreases |log|
  {
    if log != [] {
      var front, last := log[..|log| - 1], log[|log| - 1];
      StoreIsHits(front, configs);
      ChargesAreHits(Redis(StoreAfter(front, configs), last.commands), Hits(front, configs), last.request,
                     configs[last.request.backend], |DIMENSIONS|, last.at);
    }
  }

  // ---------------------------------------------------------------- whose hits a counter counts

  ghost predicate AllAt(hits: seq<LogEntry>, at: real) { forall i :: 0 <= i < |hits| ==> hits[i].at == at }

  lemma {:induction false} WindowHitsAt(d: Dimension, value: string, backend: string,
                                        windows: seq<PenaltyWindow>, n: nat, at: real)
    requires ValidWindows(windows) && n <= |windows|
    ensures AllAt(WindowHits(d, value, backend, windows, n, at), at)
    decreases n
  {
    if n > 0 { WindowHitsAt(d, value, backend, windows, n - 1, at); }
  }

  lemma {:induction false} RequestHitsAt(request: Request, config: ScoringConfig, n: nat, at: real)
    requires Validated(config) && n <= |DIMENSIONS|
    ensures AllAt(RequestHits(request, config, n, at), at)
    decreases n
  {
    if n > 0 {
      RequestHitsAt(request, config, n - 1, at);
      var d := DIMENSIONS[n - 1];
      if ValueOf(request, d).Some? {
        WindowHitsAt(d, ValueOf(request, d).value, request.backend, config.penalties[d], |config.penalties[d]|, at);
      }
    }
  }

  lemma {:induction false} OwnHitsAppend(a: seq<LogEntry>, b: seq<LogEntry>, key: Key)
    ensures OwnHits(a + b, key) == OwnHits(a, key) + OwnHits(b, key)
  {
    if b == [] {
      assert a + b == a;
    } else {
      assert (a + b)[..|a + b| - 1] == a + b[..|b| - 1];
      OwnHitsAppend(a, b[..|b| - 1], key);
    }
  }

  /** The dimension, value and backend of a request agree with what a counter counts. */
  predicate Concerns(c: Counted, d: Dimension, value: string, backend: string) {
    c.dimension == d && c.value == value && c.backend == backend
  }

  /** Hits made at one instant leave nothing but their number to tell apart. */
  lemma {:induction false} OwnHitsAt(hits: seq<LogEntry>, key: Key, at: real)
    requires AllAt(hits, at)
    ensures forall i :: 0 <= i < |OwnHits(hits, key)| ==> OwnHits(hits, key)[i] == at
    decreases |hits|
  {
    if hits != [] { OwnHitsAt(hits[..|hits| - 1], key, at); }
  }

  lemma AtMostOnce(times: seq<real>, once: bool, at: real)
    requires |times| == (if once then 1 else 0) && forall i :: 0 <= i < |times| ==> times[i] == at
    ensures times == if once then [at] else []
  {
  }

  /** The counters a value of a dimension reads include the one with this key, in windows of this length,
      or do not include it at all. */
  ghost predicate ReadBy(key: Key, counted: bool, seconds: int, d: Dimension, value: string, backend: string) {
    forall w: PenaltyWindow :: w.windowSeconds > 0 ==>
      (CounterKey(d, value, backend, w) == key <==> counted && w.windowSeconds == seconds)
  }

  lemma WhoReads(c: Counted, d: Dimension, value: string, backend: string)
    requires CollisionFree({c.backend, backend})
    ensures ReadBy(KeyFormat.Key(c), Concerns(c, d, value, backend), c.window, d, value, backend)
  {
    forall w: PenaltyWindow | w.windowSeconds > 0
      ensures CounterKey(d, value, backend, w) == KeyFormat.Key(c)
              <==> Concerns(c, d, value, backend) && w.windowSeconds == c.window
    {
      var c' := Counted(d, value, backend, w.windowSeconds);
      assert KeyFormat.Key(c') == CounterKey(d, value, backend, w);
    }
  }

  lemma OneOwnHit(key: Key, key': Key, at: real)
    ensures |OwnHits([LogEntry(key', at)], key)| == if key' == key then 1 else 0
  {
    assert [LogEntry(key', at)][..0] == [];
  }

  lemma {:induction false} WindowOwnHits(key: Key, counted: bool, seconds: int, d: Dimension, value: string,
                                         backend: string, windows: seq<PenaltyWindow>, n: nat, at: real)
    requires ValidWindows(windows) && n <= |windows| && ReadBy(key, counted, seconds, d, value, backend)
    ensures |OwnHits(WindowHits(d, value, backend, windows, n, at), key)|
            == if counted then WindowsOfLength(windows, n, seconds) else 0
    decreases n
  {
    if n > 0 {
      WindowOwnHits(key, counted, seconds, d, value, backend, windows, n - 1, at);
      var last := CounterKey(d, value, backend, windows[n - 1]);
      OwnHitsAppend(WindowHits(d, value, backend, windows, n - 1, at), [LogEntry(last, at)], key);
      OneOwnHit(key, last, at);
    }
  }

  predicate IsFor(request: Request, c: Counted) {
    request.backend == c.backend && ValueOf(request, c.dimension) == Some(c.value)
  }

  /** A counter is a request's if it is of its backend and of the field its dimension stands for. */
  lemma IsForFields(request: Request, c: Counted)
    ensures IsFor(request, c) <==>
              && request.backend == c.backend
              && match c.dimension
                 case Ip => request.sourceIp == Some(c.value)
                 case Net24 => request.subnet24 == Some(c.value)
                 case Net6 => request.subnet6 == Some(c.value)
                 case Asn => request.asn == Some(c.value)
                 case Country => request.country == Some(c.value)
                 case User => request.userId == Some(c.value)
  {
  }

  /** The windows that hit a counter. */
  function Hitting(config: ScoringConfig, c: Counted): nat
    requires c.dimension in config.penalties
  {
    WindowsOfLength(config.penalties[c.dimension], |config.penalties[c.dimension]|, c.window)
  }

  lemma DimensionOwnHits(c: Counted, request: Request, config: ScoringConfig, d: Dimension, at: real)
    requires Validated(config) && CollisionFree({c.backend, request.backend})
    ensures |OwnHits(DimensionHits(request, config, d, at), KeyFormat.Key(c))|
            == if c.dimension == d && IsFor(request, c) then Hitting(config, c) else 0
  {
    match ValueOf(request, d)
    case None =>
    case Some(value) =>
      WhoReads(c, d, value, request.backend);
      WindowOwnHits(KeyFormat.Key(c), Concerns(c, d, value, request.backend), c.window, d, value, request.backend,
                    config.penalties[d], |config.penalties[d]|, at);
  }

  /** The hits of the first `n` dimensions on a counter: one for each window of its length, if it is theirs. */
  ghost predicate OwnHitsCounted(c: Counted, request: Request, config: ScoringConfig, n: nat, at: real)
    requires Validated(config) && n <= |DIMENSIONS|
  {
    |OwnHits(RequestHits(request, config, n, at), KeyFormat.Key(c))|
    == if c.dimension in DIMENSIONS[..n] && IsFor(request, c) then Hitting(config, c) else 0
  }

  lemma ListedSnoc(d: Dimension, n: nat)
    requires n < |DIMENSIONS|
    ensures d in DIMENSIONS[..n + 1] <==> d in DIMENSIONS[..n] || d == DIMENSIONS[n]
    ensures !(d in DIMENSIONS[..n] && d == DIMENSIONS[n])
  {
    NewDimension(n);
    assert DIMENSIONS[..n + 1] == DIMENSIONS[..n] + [DIMENSIONS[n]];
  }

  lemma OwnHitsStep(c: Counted, request: Request, config: ScoringConfig, n: nat, at: real)
    requires Validated(config) && CollisionFree({c.backend, request.backend}) && n < |DIMENSIONS|
    requires OwnHitsCounted(c, request, config, n, at)
    ensures OwnHitsCounted(c, request, config, n + 1, at)
  {
    OwnHitsAppend(RequestHits(request, config, n, at), DimensionHits(request, config, DIMENSIONS[n], at),
                  KeyFormat.Key(c));
    DimensionOwnHits(c, request, config, DIMENSIONS[n], at);
    ListedSnoc(c.dimension, n);
  }

  lemma RequestOwnHits(c: Counted, request: Request, config: ScoringConfig, n: nat, at: real)
    requires Validated(config) && CollisionFree({c.backend, request.backend}) && n <= |DIMENSIONS|
    ensures OwnHitsCounted(c, request, config, n, at)
  {
    for k := 0 to n
      invariant OwnHitsCounted(c, request, config, k, at)
    {
      OwnHitsStep(c, request, config, k, at);
    }
  }

  /** With distinct lengths, each window is the only one of its length. */
  lemma {:induction false} OnlyOfItsLength(windows: seq<PenaltyWindow>, n: nat, i: nat)
    requires DistinctLengths(windows) && i < n <= |windows|
    ensures WindowsOfLength(windows, n, windows[i].windowSeconds) == 1
    decreases n
  {
    if n == i + 1 {
      NoneOfLength(windows, i, windows[i].windowSeconds);
    } else {
      OnlyOfItsLength(windows, n - 1, i);
    }
  }

  lemma CollisionFreePair(backends: set<string>, b: string, b': string)
    requires CollisionFree(backends) && b in backends && b' in backends
    ensures CollisionFree({b, b'})
  {
  }

  /** Each counter's hits are the requests of its backend with its value, once each. */
  lemma {:induction false} HitsAreRequests(c: Counted, log: seq<Scored>, configs: Configs)
    requires Configured(log, configs) && CollisionFree(configs.Keys)
    requires c.backend in configs && Hitting(configs[c.backend], c) == 1
    ensures OwnHits(Hits(log, configs), KeyFormat.Key(c)) == RequestTimes(log, c.dimension, c.value, c.backend)
    decreases |log|
  {
    if log != [] {
      var front, last := log[..|log| - 1], log[|log| - 1];
      HitsAreRequests(c, front, configs);
      LastOwnHits(c, last, configs);
      OwnHitsAppend(Hits(front, configs),
                    RequestHits(last.request, configs[last.request.backend], |DIMENSIONS|, last.at),
                    KeyFormat.Key(c));
    }
  }

  lemma LastOwnHits(c: Counted, last: Scored, configs: Configs)
    requires CollisionFree(configs.Keys) && c.backend in configs && last.request.backend in configs
    requires Validated(configs[c.backend]) && Validated(configs[last.request.backend])
    requires Hitting(configs[c.backend], c) == 1
    ensures OwnHits(RequestHits(last.request, configs[last.request.backend], |DIMENSIONS|, last.at), KeyFormat.Key(c))
            == if IsFor(last.request, c) then [last.at] else []
  {
    CollisionFreePair(configs.Keys, c.backend, last.request.backend);
    RequestOwnHits(c, last.request, configs[last.request.backend], |DIMENSIONS|, last.at);
    EveryDimensionListed(c.dimension);
    assert DIMENSIONS[..|DIMENSIONS|] == DIMENSIONS;
    var hits := RequestHits(last.request, configs[last.request.backend], |DIMENSIONS|, last.at);
    RequestHitsAt(last.request, configs[last.request.backend], |DIMENSIONS|, last.at);
    OwnHitsAt(hits, KeyFormat.Key(c), last.at);
    AtMostOnce(OwnHits(hits, KeyFormat.Key(c)), IsFor(last.request, c), last.at);
  }

  // ---------------------------------------------------------------- the hits are in order

  ghost predicate Until(hits: seq<LogEntry>, at: real) {
    Chronological(hits) && forall i :: 0 <= i < |hits| ==> hits[i].at <= at
  }

  lemma UntilAppend(a: seq<LogEntry>, b: seq<LogEntry>, at: real)
    requires Until(a, at) && AllAt(b, at)
    ensures Until(a + b, at)
  {
  }

  lemma UntilLater(hits: seq<LogEntry>, at: real, later: real)
    requires Until(hits, at) && at <= later
    ensures Until(hits, later)
  {
  }

  lemma {:induction false} HitsInOrder(log: seq<Scored>, configs: Configs, now: real)
    requires Configured(log, configs) && TimeOrdered(log) && (log != [] ==> log[|log| - 1].at <= now)
    ensures Until(Hits(log, configs), now)
    decreases |log|
  {
    if log != [] {
      var front, last := log[..|log| - 1], log[|log| - 1];
      HitsInOrder(front, configs, last.at);
      var more := RequestHits(last.request, configs[last.request.backend], |DIMENSIONS|, last.at);
      RequestHitsAt(last.request, configs[last.request.backend], |DIMENSIONS|, last.at);
      UntilAppend(Hits(front, configs), more, last.at);
      UntilLater(Hits(front, configs) + more, last.at, now);
    }
  }

  // ---------------------------------------------------------------- counters against requests

  /** Where charging `n` dimensions succeeds, an earlier one has been charged what the counts say. */
  ghost predicate ChargedBefore(redis: Redis, request: Request, config: ScoringConfig, n: nat, k: nat, now: real)
    requires Validated(config) && k < n <= |DIMENSIONS|
  {
    match ChargeAll(redis, request, config, n, now).0
    case Err(_) => true
    case Ok(counts) =>
      && ChargeAll(redis, request, config, k, now).0.Ok? && DIMENSIONS[k] in counts
      && ChargeDimension(ChargeAll(redis, request, config, k, now).1, request, config, DIMENSIONS[k], now).0
         == Ok(counts[DIMENSIONS[k]])
  }

  lemma StaysCharged(redis: Redis, request: Request, config: ScoringConfig,
                     n: nat, k: nat, now: real)
    requires Validated(config) && k < n < |DIMENSIONS| && ChargedBefore(redis, request, config, n, k, now)
    ensures ChargedBefore(redis, request, config, n + 1, k, now)
  {
    if ChargeAll(redis, request, config, n + 1, now).0.Ok? {
      ChargeAllStep(redis, request, config, n, now);
      NewDimension(n);
      assert DIMENSIONS[..n][k] == DIMENSIONS[k];
    }
  }

  lemma JustCharged(redis: Redis, request: Request, config: ScoringConfig, k: nat, now: real)
    requires Validated(config) && k < |DIMENSIONS|
    ensures ChargedBefore(redis, request, config, k + 1, k, now)
  {
    if ChargeAll(redis, request, config, k + 1, now).0.Ok? { ChargeAllStep(redis, request, config, k, now); }
  }

  lemma EarlierCharge(redis: Redis, request: Request, config: ScoringConfig,
                      n: nat, k: nat, now: real)
    requires Validated(config) && k < n <= |DIMENSIONS|
    ensures ChargedBefore(redis, request, config, n, k, now)
  {
    JustCharged(redis, request, config, k, now);
    for m := k + 1 to n
      invariant ChargedBefore(redis, request, config, m, k, now)
    {
      StaysCharged(redis, request, config, m, k, now);
    }
  }

  /** The hits up to the one on window `i` of dimension `k` of the last request. */
  ghost function HitsUpTo(log: seq<Scored>, configs: Configs, k: nat, value: string, i: nat): seq<LogEntry>
    requires Configured(log, configs) && log != [] && k < |DIMENSIONS|
    requires i < |configs[log[|log| - 1].request.backend].penalties[DIMENSIONS[k]]|
  {
    var last := log[|log| - 1];
    var config := configs[last.request.backend];
    Hits(log[..|log| - 1], configs) + RequestHits(last.request, config, k, last.at)
    + WindowHits(DIMENSIONS[k], value, last.request.backend, config.penalties[DIMENSIONS[k]], i + 1, last.at)
  }

  lemma CountIsLastHit(log: seq<Scored>, configs: Configs, k: nat, value: string, i: nat)
    requires Configured(log, configs) && AllThrough(log, configs) && log != [] && k < |DIMENSIONS|
    requires i < |configs[log[|log| - 1].request.backend].penalties[DIMENSIONS[k]]|
    requires ValueOf(log[|log| - 1].request, DIMENSIONS[k]) == Some(value)
    ensures var counts, d := ScoreLast(log, configs).0, DIMENSIONS[k];
            && counts.Ok? && d in counts.value
            && |counts.value[d]| == |configs[log[|log| - 1].request.backend].penalties[d]|
            && counts.value[d][i] == LastCount(HitsUpTo(log, configs, k, value, i), LengthOf)
  {
    var front, last := log[..|log| - 1], log[|log| - 1];
    var config, d := configs[last.request.backend], DIMENSIONS[k];
    var redis := Redis(StoreAfter(front, configs), last.commands);
    var hits := Hits(front, configs);
    StoreIsHits(front, configs);
    EarlierCharge(redis, last.request, config, |DIMENSIONS|, k, last.at);
    ChargesAreHits(redis, hits, last.request, config, k, last.at);
    CountIsLast(ChargeAll(redis, last.request, config, k, last.at).1,
                hits + RequestHits(last.request, config, k, last.at), d, value, last.request.backend,
                config.penalties[d], |config.penalties[d]|, i, last.at);
  }

  lemma HitsUpToInOrder(log: seq<Scored>, configs: Configs, k: nat, value: string, i: nat)
    requires Configured(log, configs) && TimeOrdered(log) && log != [] && k < |DIMENSIONS|
    requires i < |configs[log[|log| - 1].request.backend].penalties[DIMENSIONS[k]]|
    ensures Chronological(HitsUpTo(log, configs, k, value, i))
  {
    var front, last := log[..|log| - 1], log[|log| - 1];
    var config, d := configs[last.request.backend], DIMENSIONS[k];
    HitsInOrder(front, configs, last.at);
    RequestHitsAt(last.request, config, k, last.at);
    WindowHitsAt(d, value, last.request.backend, config.penalties[d], i + 1, last.at);
    UntilAppend(Hits(front, configs), RequestHits(last.request, config, k, last.at), last.at);
    UntilAppend(Hits(front, configs) + RequestHits(last.request, config, k, last.at),
                WindowHits(d, value, last.request.backend, config.penalties[d], i + 1, last.at), last.at);
  }

  lemma NoneBefore(c: Counted, request: Request, config: ScoringConfig, k: nat, at: real)
    requires Validated(config) && CollisionFree({c.backend, request.backend})
    requires k < |DIMENSIONS| && c.dimension == DIMENSIONS[k]
    ensures OwnHits(RequestHits(request, config, k, at), KeyFormat.Key(c)) == []
  {
    RequestOwnHits(c, request, config, k, at);
    NewDimension(k);
  }

  lemma OneInWindows(c: Counted, windows: seq<PenaltyWindow>, i: nat, at: real)
    requires ValidWindows(windows) && DistinctLengths(windows) && CollisionFree({c.backend, c.backend})
    requires i < |windows| && c.window == windows[i].windowSeconds
    ensures OwnHits(WindowHits(c.dimension, c.value, c.backend, windows, i + 1, at), KeyFormat.Key(c)) == [at]
  {
    var own := WindowHits(c.dimension, c.value, c.backend, windows, i + 1, at);
    WhoReads(c, c.dimension, c.value, c.backend);
    WindowOwnHits(KeyFormat.Key(c), true, c.window, c.dimension, c.value, c.backend, windows, i + 1, at);
    WindowHitsAt(c.dimension, c.value, c.backend, windows, i + 1, at);
    OnlyOfItsLength(windows, i + 1, i);
    OwnHitsAt(own, KeyFormat.Key(c), at);
    AtMostOnce(OwnHits(own, KeyFormat.Key(c)), true, at);
  }

  lemma OwnAfter(
                 hits: seq<LogEntry>, before: seq<LogEntry>, own: seq<LogEntry>, key: Key, times: seq<real>, at: real)
    requires OwnHits(hits, key) == times && OwnHits(before, key) == [] && OwnHits(own, key) == [at]
    ensures OwnHits(hits + before + own, key) == times + [at]
  {
    OwnHitsAppend(hits, before, key);
    OwnHitsAppend(hits + before, own, key);
  }

  lemma HitsUpToOwn(log: seq<Scored>, configs: Configs, k: nat, value: string, i: nat)
    requires Configured(log, configs) && CollisionFree(configs.Keys) && log != [] && k < |DIMENSIONS|
    requires i < |configs[log[|log| - 1].request.backend].penalties[DIMENSIONS[k]]|
    requires ValueOf(log[|log| - 1].request, DIMENSIONS[k]) == Some(value)
    ensures var last, d := log[|log| - 1], DIMENSIONS[k];
            var w := configs[last.request.backend].penalties[d][i];
            OwnHits(HitsUpTo(log, configs, k, value, i), CounterKey(d, value, last.request.backend, w))
            == RequestTimes(log, d, value, last.request.backend)
  {
    var front, last := log[..|log| - 1], log[|log| - 1];
    var backend := last.request.backend;
    var config, d := configs[backend], DIMENSIONS[k];
    var c := Counted(d, value, backend, config.penalties[d][i].windowSeconds);
    CollisionFreePair(configs.Keys, backend, backend);
    OnlyOfItsLength(config.penalties[d], |config.penalties[d]|, i);
    HitsAreRequests(c, front, configs);
    NoneBefore(c, last.request, config, k, last.at);
    OneInWindows(c, config.penalties[d], i, last.at);
    OwnAfter(Hits(front, configs), RequestHits(last.request, config, k, last.at),
             WindowHits(d, value, backend, config.penalties[d], i + 1, last.at), KeyFormat.Key(c),
             RequestTimes(front, d, value, backend), last.at);
  }

  lemma HitsUpToEnd(log: seq<Scored>, configs: Configs, k: nat, value: string, i: nat)
    requires Configured(log, configs) && log != [] && k < |DIMENSIONS|
    requires i < |configs[log[|log| - 1].request.backend].penalties[DIMENSIONS[k]]|
    ensures var last, d := log[|log| - 1], DIMENSIONS[k];
            var w := configs[last.request.backend].penalties[d][i];
            var hits := HitsUpTo(log, configs, k, value, i);
            && hits != []
            && hits[|hits| - 1] == LogEntry(CounterKey(d, value, last.request.backend, w), last.at)
  {
  }

  /** Every count a request reads stands for its own kind of request alone: it is at most the number of
      requests of its backend with the same value scored in the last `windowSeconds`, and misses less
      than the window before it counted. */
  lemma CountsFitRequests(log: seq<Scored>, configs: Configs, k: nat, value: string, i: nat)
    requires Configured(log, configs) && AllThrough(log, configs) && TimeOrdered(log) && CollisionFree(configs.Keys)
    requires log != [] && k < |DIMENSIONS|
    requires i < |configs[log[|log| - 1].request.backend].penalties[DIMENSIONS[k]]|
    requires ValueOf(log[|log| - 1].request, DIMENSIONS[k]) == Some(value)
    ensures var last, d := log[|log| - 1], DIMENSIONS[k];
            var w := configs[last.request.backend].penalties[d][i];
            var times := RequestTimes(log, d, value, last.request.backend);
            var counts := ScoreLast(log, configs).0;
            && counts.Ok? && d in counts.value && times != []
            && |counts.value[d]| == |configs[last.request.backend].penalties[d]|
            && FitsLog(counts.value[d][i], times, w.windowSeconds, last.at)
  {
    var last, d := log[|log| - 1], DIMENSIONS[k];
    var w := configs[last.request.backend].penalties[d][i];
    CountIsLastHit(log, configs, k, value, i);
    HitsUpToInOrder(log, configs, k, value, i);
    HitsUpToEnd(log, configs, k, value, i);
    HitsUpToOwn(log, configs, k, value, i);
    LengthOfCounter(d, value, last.request.backend, w);
    StoreAgainstLog(HitsUpTo(log, configs, k, value, i), LengthOf);
  }

  // ---------------------------------------------------------------- a true sliding window

  /** What a true sliding window would count. */
  function InWindow(times: seq<real>, w: PenaltyWindow, now: real): nat {
    CountAbove(times, now - w.windowSeconds as real)
  }

  function RecentCounts(times: seq<real>, windows: seq<PenaltyWindow>, n: nat, now: real): (r: seq<nat>)
    requires n <= |windows|
    ensures |r| == n
    ensures forall i :: 0 <= i < n ==> r[i] == InWindow(times, windows[i], now)
  {
    if n == 0 then []
    else RecentCounts(times, windows, n - 1, now) + [InWindow(times, windows[n - 1], now)]
  }

  /** The requests like the last one in each of its windows. */
  ghost function SlidingCounts(log: seq<Scored>, configs: Configs, d: Dimension): (r: seq<nat>)
    requires Configured(log, configs) && log != []
    ensures |r| <= |configs[log[|log| - 1].request.backend].penalties[d]|
  {
    var last := log[|log| - 1];
    var windows := configs[last.request.backend].penalties[d];
    match ValueOf(last.request, d)
    case None => []
    case Some(value) => RecentCounts(RequestTimes(log, d, value, last.request.backend), windows, |windows|, last.at)
  }

  lemma CountAtMostRecent(log: seq<Scored>, configs: Configs, k: nat, value: string, i: nat)
    requires Configured(log, configs) && AllThrough(log, configs) && TimeOrdered(log) && CollisionFree(configs.Keys)
    requires log != [] && k < |DIMENSIONS|
    requires i < |configs[log[|log| - 1].request.backend].penalties[DIMENSIONS[k]]|
    requires ValueOf(log[|log| - 1].request, DIMENSIONS[k]) == Some(value)
    ensures var last, d := log[|log| - 1], DIMENSIONS[k];
            var windows := configs[last.request.backend].penalties[d];
            var counts := ScoreLast(log, configs).0;
            && counts.Ok? && d in counts.value && |counts.value[d]| == |windows|
            && counts.value[d][i] <= InWindow(RequestTimes(log, d, value, last.request.backend), windows[i], last.at)
  {
    var last, d := log[|log| - 1], DIMENSIONS[k];
    CountsFitRequests(log, configs, k, value, i);
    FitsBelow(ScoreLast(log, configs).0.value[d][i], RequestTimes(log, d, value, last.request.backend),
              configs[last.request.backend].penalties[d][i].windowSeconds, last.at);
  }

  lemma CountAtMostSliding(log: seq<Scored>, configs: Configs, k: nat, value: string, i: nat,
                           counts: seq<nat>)
    requires Configured(log, configs) && AllThrough(log, configs) && TimeOrdered(log) && CollisionFree(configs.Keys)
    requires log != [] && k < |DIMENSIONS|
    requires i < |configs[log[|log| - 1].request.backend].penalties[DIMENSIONS[k]]|
    requires ValueOf(log[|log| - 1].request, DIMENSIONS[k]) == Some(value)
    requires ScoreLast(log, configs).0.Ok? && DIMENSIONS[k] in ScoreLast(log, configs).0.value
    requires counts == ScoreLast(log, configs).0.value[DIMENSIONS[k]]
    ensures i < |counts| == |SlidingCounts(log, configs, DIMENSIONS[k])|
    ensures counts[i] <= SlidingCounts(log, configs, DIMENSIONS[k])[i]
  {
    CountAtMostRecent(log, configs, k, value, i);
  }

  lemma NothingCharged(log: seq<Scored>, configs: Configs, k: nat)
    requires Configured(log, configs) && AllThrough(log, configs) && log != [] && k < |DIMENSIONS|
    ensures var counts, d := ScoreLast(log, configs).0, DIMENSIONS[k];
            && counts.Ok? && d in counts.value
            && (ValueOf(log[|log| - 1].request, d).None? ==> counts.value[d] == [])
  {
    var last := log[|log| - 1];
    EarlierCharge(Redis(StoreAfter(log[..|log| - 1], configs), last.commands), last.request,
                  configs[last.request.backend], |DIMENSIONS|, k, last.at);
  }

  lemma AtMostSliding(log: seq<Scored>, configs: Configs, k: nat)
    requires Configured(log, configs) && AllThrough(log, configs) && TimeOrdered(log) && CollisionFree(configs.Keys)
    requires log != [] && k < |DIMENSIONS|
    ensures var counts, d := ScoreLast(log, configs).0, DIMENSIONS[k];
            counts.Ok? && d in counts.value && AtMost(counts.value[d], SlidingCounts(log, configs, d))
  {
    NothingCharged(log, configs, k);
    var value := ValueOf(log[|log| - 1].request, DIMENSIONS[k]);
    var counts, sliding := ScoreLast(log, configs).0.value[DIMENSIONS[k]], SlidingCounts(log, configs, DIMENSIONS[k]);
    if value.Some? {
      CountAtMostSliding(log, configs, k, value.value, 0, counts);
      forall i | 0 <= i < |sliding| ensures counts[i] <= sliding[i] {
        CountAtMostSliding(log, configs, k, value.value, i, counts);
      }
    }
  }

  /** No request is ever charged more, in any dimension, or scored lower than it would be with true
      sliding windows over the requests scored so far. */
  lemma ScoredAtLeastSliding(log: seq<Scored>, configs: Configs, base: int, exempt: bool)
    requires Configured(log, configs) && AllThrough(log, configs) && TimeOrdered(log) && CollisionFree(configs.Keys)
    requires log != []
    ensures var config := configs[log[|log| - 1].request.backend];
            var counts := ScoreLast(log, configs).0;
            var sliding := map d: Dimension | d in DIMENSIONS :: SlidingCounts(log, configs, d);
            && counts.Ok? && CountsFit(counts.value, config.penalties) && CountsFit(sliding, config.penalties)
            && (forall d: Dimension ::
                  PenaltySum(config.penalties[d], counts.value[d]) <= PenaltySum(config.penalties[d], sliding[d]))
            && ScoreOf(config, base, exempt, counts.value) >= ScoreOf(config, base, exempt, sliding)
  {
    var config := configs[log[|log| - 1].request.backend];
    var counts := ScoreLast(log, configs).0.value;
    var sliding := map d: Dimension | d in DIMENSIONS :: SlidingCounts(log, configs, d);
    forall d: Dimension
      ensures d in counts && d in sliding && AtMost(counts[d], sliding[d])
      ensures PenaltySum(config.penalties[d], counts[d]) <= PenaltySum(config.penalties[d], sliding[d])
    {
      EveryDimensionListed(d);
      var k :| 0 <= k < |DIMENSIONS| && DIMENSIONS[k] == d;
      AtMostSliding(log, configs, k);
      PenaltySumMonotone(config.penalties[d], counts[d], sliding[d]);
    }
    ScoreOrder(config, base, counts, sliding);
  }
}
