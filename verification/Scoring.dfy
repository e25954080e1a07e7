/**
  The scoring engine: penalties charged from the store's counters, the score they make, and how the
  score orders requests.
 */
module Scoring {
  import opened Wrappers
  import opened KeyFormat
  import opened Config
  import PenaltyStore

  // ---------------------------------------------------------------- penalties

  function StepPenalty(count: int, w: PenaltyWindow): int {
    if count >= w.hardThreshold then w.hardPenalty
    else if count >= w.softThreshold then w.softPenalty
    else 0
  }

  lemma StepPenaltyMonotone(low: int, high: int, w: PenaltyWindow)
    requires ValidWindow(w) && low <= high
    ensures 0 <= StepPenalty(low, w) <= StepPenalty(high, w) <= w.hardPenalty
  {
  }

  /** The counter of one window of one dimension of a request. */
  function CounterKey(d: Dimension, value: string, backend: string, w: PenaltyWindow): string
    requires w.windowSeconds > 0
  {
    Key(Counted(d, value, backend, w.windowSeconds))
  }

  type Charge = (Result<seq<nat>, PenaltyStore.StoreError>, PenaltyStore.Redis)

  /** The counts the first `n` windows of a dimension read, one hit each, or the store's failure. */
  function ReadCounts(redis: PenaltyStore.Redis, d: Dimension, value: string, backend: string,
                      windows: seq<PenaltyWindow>, n: nat, now: real): (r: Charge)
    requires n <= |windows| && forall i :: 0 <= i < |windows| ==> windows[i].windowSeconds > 0
    ensures r.0.Ok? ==> |r.0.value| == n
  {
    if n == 0 then (Ok([]), redis)
    else
      var (before, store) := ReadCounts(redis, d, value, backend, windows, n - 1, now);
      if before.Err? then (before, store)
      else
        var w := windows[n - 1];
        var (count, after) :=
          PenaltyStore.IncrementAndGet(store, CounterKey(d, value, backend, w), w.windowSeconds, now);
        (if count.Ok? then Ok(before.value + [count.value]) else Err(count.error), after)
  }

  /** A dimension's penalty for given counts. */
  function PenaltySum(windows: seq<PenaltyWindow>, counts: seq<nat>): int
    requires |counts| <= |windows|
  {
    if counts == [] then 0
    else
      var n := |counts| - 1;
      PenaltySum(windows, counts[..n]) + StepPenalty(counts[n], windows[n])
  }

  lemma PenaltySumSnoc(windows: seq<PenaltyWindow>, counts: seq<nat>, count: nat)
    requires |counts| < |windows|
    ensures PenaltySum(windows, counts + [count])
            == PenaltySum(windows, counts) + StepPenalty(count, windows[|counts|])
  {
    assert (counts + [count])[..|counts|] == counts;
  }

  ghost predicate AtMost(low: seq<nat>, high: seq<nat>) {
    |low| == |high| && forall i :: 0 <= i < |low| ==> low[i] <= high[i]
  }

  lemma {:induction false} PenaltySumMonotone(windows: seq<PenaltyWindow>, low: seq<nat>, high: seq<nat>)
    requires |low| <= |windows| && AtMost(low, high) && ValidWindows(windows)
    ensures 0 <= PenaltySum(windows, low) <= PenaltySum(windows, high)
  {
    if low != [] {
      var n := |low| - 1;
      PenaltySumMonotone(windows, low[..n], high[..n]);
      StepPenaltyMonotone(low[n], high[n], windows[n]);
    }
  }

  /** What makes up a dimension's penalty: one count counts through its own window's step only, and
      counts below every soft threshold cost nothing. */
  lemma {:induction false} PenaltySumUpdate(windows: seq<PenaltyWindow>, counts: seq<nat>, i: nat, count: nat)
    requires i < |counts| <= |windows|
    ensures PenaltySum(windows, counts[i := count])
            == PenaltySum(windows, counts) - StepPenalty(counts[i], windows[i]) + StepPenalty(count, windows[i])
  {
    var n := |counts| - 1;
    if i < n {
      PenaltySumUpdate(windows, counts[..n], i, count);
      assert counts[i := count][..n] == counts[..n][i := count];
    } else {
      assert counts[i := count][..n] == counts[..n];
    }
  }

  lemma {:induction false} BelowThresholdsIsFree(windows: seq<PenaltyWindow>, counts: seq<nat>)
    requires |counts| <= |windows| && ValidWindows(windows)
    requires forall i :: 0 <= i < |counts| ==> counts[i] < windows[i].softThreshold
    ensures PenaltySum(windows, counts) == 0
  {
    if counts != [] { BelowThresholdsIsFree(windows, counts[..|counts| - 1]); }
  }

  /** What a count costs as it crosses its window's thresholds: reaching the soft one adds the soft penalty,
      reaching the hard one replaces it by the hard penalty, and moving between them adds nothing. */
  lemma CrossingThresholds(windows: seq<PenaltyWindow>, counts: seq<nat>, i: nat, count: nat)
    requires i < |counts| <= |windows| && ValidWindows(windows)
    ensures var w, added := windows[i], PenaltySum(windows, counts[i := count]) - PenaltySum(windows, counts);
            && (counts[i] < w.softThreshold <= count < w.hardThreshold ==> added == w.softPenalty)
            && (w.softThreshold <= counts[i] < w.hardThreshold <= count ==> added == w.hardPenalty - w.softPenalty)
            && (counts[i] < w.softThreshold && w.hardThreshold <= count ==> added == w.hardPenalty)
            && (counts[i] < w.softThreshold && count < w.softThreshold ==> added == 0)
            && (w.softThreshold <= counts[i] < w.hardThreshold && w.softThreshold <= count < w.hardThreshold ==>
                  added == 0)
            && (w.hardThreshold <= counts[i] && w.hardThreshold <= count ==> added == 0)
  {
    PenaltySumUpdate(windows, counts, i, count);
    assert ValidWindow(windows[i]);
  }

  // ---------------------------------------------------------------- the score

  datatype Request = Request(
    backend: string,
    userClass: string,
    sourceIp: Option<string>,
    subnet24: Option<string>,
    subnet6: Option<string>,
    asn: Option<string>,
    country: Option<string>,
    userId: Option<string>)

  function ValueOf(request: Request, d: Dimension): Option<string> {
    match d
    case Ip => request.sourceIp
    case Net24 => request.subnet24
    case Net6 => request.subnet6
    case Asn => request.asn
    case Country => request.country
    case User => request.userId
  }

  function Clamp(value: int, lo: int, hi: int): int {
    var capped := if hi < value then hi else value;
    if lo < capped then capped else lo
  }

  predicate Exempt(request: Request, config: ScoringConfig) {
    request.country.Some? && request.country.value in config.exemptCountries
  }

  /** The penalty of each dimension. */
  datatype Breakdown = Breakdown(ip: int, net24: int, net6: int, asn: int, country: int, user: int)

  const NO_PENALTIES := Breakdown(0, 0, 0, 0, 0, 0)

  function TotalPenalty(p: Breakdown, exempt: bool): int {
    p.ip + p.user + if exempt then 0 else p.net24 + p.net6 + p.asn + p.country
  }

  function Part(p: Breakdown, d: Dimension): int {
    match d
    case Ip => p.ip
    case Net24 => p.net24
    case Net6 => p.net6
    case Asn => p.asn
    case Country => p.country
    case User => p.user
  }

  /** Each dimension's penalty is charged in full, except that an exempt request pays for its address
      and its user only. */
  lemma PenaltyByDimension(p: Breakdown, q: Breakdown, d: Dimension, exempt: bool)
    requires forall e: Dimension :: e != d ==> Part(p, e) == Part(q, e)
    ensures TotalPenalty(NO_PENALTIES, exempt) == 0
    ensures TotalPenalty(q, exempt) - TotalPenalty(p, exempt)
            == if exempt && d != Ip && d != User then 0 else Part(q, d) - Part(p, d)
  {
    assert Ip != d ==> Part(p, Ip) == Part(q, Ip);
    assert Net24 != d ==> Part(p, Net24) == Part(q, Net24);
    assert Net6 != d ==> Part(p, Net6) == Part(q, Net6);
    assert Asn != d ==> Part(p, Asn) == Part(q, Asn);
    assert Country != d ==> Part(p, Country) == Part(q, Country);
    assert User != d ==> Part(p, User) == Part(q, User);
  }

  function FinalScore(config: ScoringConfig, base: int, exempt: bool, p: Breakdown): int {
    Clamp(base - TotalPenalty(p, exempt), config.minScore, config.maxScore)
  }

  function FailOpenScore(config: ScoringConfig, base: int): int {
    Clamp(base, config.minScore, config.maxScore)
  }

  /** Counts read per dimension; a dimension the request has no value for reads none. */
  type Counts = map<Dimension, seq<nat>>

  ghost predicate CountsFit(counts: Counts, penalties: Penalties) {
    Complete(penalties) && forall d: Dimension :: d in counts && |counts[d]| <= |penalties[d]|
  }

  function Penalise(penalties: Penalties, counts: Counts): Breakdown
    requires CountsFit(counts, penalties)
  {
    Breakdown(PenaltySum(penalties[Ip], counts[Ip]), PenaltySum(penalties[Net24], counts[Net24]),
              PenaltySum(penalties[Net6], counts[Net6]), PenaltySum(penalties[Asn], counts[Asn]),
              PenaltySum(penalties[Country], counts[Country]), PenaltySum(penalties[User], counts[User]))
  }

  /** The breakdown shows each dimension's own penalty. */
  lemma PartIsSum(penalties: Penalties, counts: Counts, d: Dimension)
    requires CountsFit(counts, penalties)
    ensures Part(Penalise(penalties, counts), d) == PenaltySum(penalties[d], counts[d])
  {
  }

  function ScoreOf(config: ScoringConfig, base: int, exempt: bool, counts: Counts): int
    requires CountsFit(counts, config.penalties)
  {
    FinalScore(config, base, exempt, Penalise(config.penalties, counts))
  }

  /** The score is the base score less the penalties, raised to the floor or cut to the ceiling where it lies
      outside; where floor and ceiling are swapped it is the floor. Failing open scores as no penalties do. */
  lemma ScoreClamped(config: ScoringConfig, base: int, exempt: bool, p: Breakdown)
    ensures FailOpenScore(config, base) == FinalScore(config, base, exempt, NO_PENALTIES)
    ensures var raw, score := base - TotalPenalty(p, exempt), FinalScore(config, base, exempt, p);
            && (config.minScore <= raw <= config.maxScore ==> score == raw)
            && (raw < config.minScore || config.maxScore < config.minScore ==> score == config.minScore)
            && (config.minScore <= config.maxScore < raw ==> score == config.maxScore)
  {
  }

  lemma OtherPart(penalties: Penalties, counts: Counts, after: Counts, d: Dimension)
    requires CountsFit(counts, penalties) && CountsFit(after, penalties) && counts[d] == after[d]
    ensures Part(Penalise(penalties, counts), d) == Part(Penalise(penalties, after), d)
  {
    PartIsSum(penalties, counts, d);
    PartIsSum(penalties, after, d);
  }

  /** What other counts of one dimension cost a request: the difference of that dimension's penalty, and nothing
      where its country is exempt and the dimension neither its address nor its user. */
  lemma DimensionCosts(penalties: Penalties, counts: Counts, after: Counts, d: Dimension, exempt: bool)
    requires CountsFit(counts, penalties) && CountsFit(after, penalties)
    requires forall e: Dimension :: e != d ==> counts[e] == after[e]
    ensures TotalPenalty(Penalise(penalties, after), exempt) - TotalPenalty(Penalise(penalties, counts), exempt)
            == if exempt && d != Ip && d != User then 0
               else PenaltySum(penalties[d], after[d]) - PenaltySum(penalties[d], counts[d])
  {
    forall e: Dimension | e != d ensures Part(Penalise(penalties, counts), e) == Part(Penalise(penalties, after), e) {
      OtherPart(penalties, counts, after, e);
    }
    PartIsSum(penalties, counts, d);
    PartIsSum(penalties, after, d);
    PenaltyByDimension(Penalise(penalties, counts), Penalise(penalties, after), d, exempt);
  }

  // ---------------------------------------------------------------- order theory

  ghost predicate FewerHits(low: Counts, high: Counts) {
    forall d: Dimension :: d in low && d in high && AtMost(low[d], high[d])
  }

  lemma BreakdownMonotone(config: ScoringConfig, low: Counts, high: Counts)
    requires Validated(config) && CountsFit(low, config.penalties) && CountsFit(high, config.penalties)
    requires FewerHits(low, high)
    ensures var p, q := Penalise(config.penalties, low), Penalise(config.penalties, high);
            && 0 <= p.ip <= q.ip && 0 <= p.net24 <= q.net24 && 0 <= p.net6 <= q.net6
            && 0 <= p.asn <= q.asn && 0 <= p.country <= q.country && 0 <= p.user <= q.user
  {
    PenaltySumMonotone(config.penalties[Ip], low[Ip], high[Ip]);
    PenaltySumMonotone(config.penalties[Net24], low[Net24], high[Net24]);
    PenaltySumMonotone(config.penalties[Net6], low[Net6], high[Net6]);
    PenaltySumMonotone(config.penalties[Asn], low[Asn], high[Asn]);
    PenaltySumMonotone(config.penalties[Country], low[Country], high[Country]);
    PenaltySumMonotone(config.penalties[User], low[User], high[User]);
  }

  /** The score never rises with any counter, an exempt request never scores below a non-exempt one
      with the same counts, neither falls below the floor, and the fail-open score is never below a
      computed one. */
  lemma ScoreOrder(config: ScoringConfig, base: int, low: Counts, high: Counts)
    requires Validated(config) && CountsFit(low, config.penalties) && CountsFit(high, config.penalties)
    requires FewerHits(low, high)
    ensures forall exempt :: ScoreOf(config, base, exempt, high) <= ScoreOf(config, base, exempt, low)
    ensures config.minScore <= ScoreOf(config, base, false, high) <= ScoreOf(config, base, true, high)
    ensures forall exempt :: ScoreOf(config, base, exempt, low) <= FailOpenScore(config, base)
  {
    BreakdownMonotone(config, low, high);
  }

  // ---------------------------------------------------------------- one hit per window

  /** What a key's counter stands at. */
  function LiveCount(cells: PenaltyStore.Cells, key: string, now: real): nat {
    if PenaltyStore.Alive(cells, key, now) then cells[key].count else 0
  }

  /** Windows of a given length among the first `n`. */
  function WindowsOfLength(windows: seq<PenaltyWindow>, n: nat, seconds: int): nat
    requires n <= |windows|
  {
    if n == 0 then 0
    else WindowsOfLength(windows, n - 1, seconds) + if windows[n - 1].windowSeconds == seconds then 1 else 0
  }

  ghost predicate DistinctLengths(windows: seq<PenaltyWindow>) {
    forall i, j :: 0 <= i < j < |windows| ==> windows[i].windowSeconds != windows[j].windowSeconds
  }

  lemma SameCounter(d: Dimension, value: string, backend: string, w: PenaltyWindow, w': PenaltyWindow)
    requires w.windowSeconds > 0 && w'.windowSeconds > 0
    ensures CounterKey(d, value, backend, w) == CounterKey(d, value, backend, w')
            <==> w.windowSeconds == w'.windowSeconds
  {
    var c, c' := Counted(d, value, backend, w.windowSeconds), Counted(d, value, backend, w'.windowSeconds);
    if Key(c) == Key(c') { KeyParts(c, c'); }
  }

  lemma HitCounts(redis: PenaltyStore.Redis, key: string, ttl: int, now: real)
    requires redis.commandsLeft >= 2 && ttl > 0
    ensures var (count, after) := PenaltyStore.IncrementAndGet(redis, key, ttl, now);
            && count == Ok(LiveCount(redis.cells, key, now) + 1)
            && after.commandsLeft >= redis.commandsLeft - 2
            && forall k :: LiveCount(after.cells, k, now)
                           == LiveCount(redis.cells, k, now) + if k == key then 1 else 0
  {
  }

  /** Every window of the same length so far has hit a counter once. */
  lemma {:induction false} LiveCountsAfter(redis: PenaltyStore.Redis, d: Dimension, value: string, backend: string,
                                           windows: seq<PenaltyWindow>, n: nat, w: PenaltyWindow, now: real)
    requires ValidWindows(windows) && n <= |windows| && redis.commandsLeft >= 2 * n && w.windowSeconds > 0
    ensures var (counts, after) := ReadCounts(redis, d, value, backend, windows, n, now);
            && counts.Ok? && after.commandsLeft >= redis.commandsLeft - 2 * n
            && LiveCount(after.cells, CounterKey(d, value, backend, w), now)
               == LiveCount(redis.cells, CounterKey(d, value, backend, w), now)
                  + WindowsOfLength(windows, n, w.windowSeconds)
  {
    if n > 0 {
      LiveCountsAfter(redis, d, value, backend, windows, n - 1, w, now);
      var last := windows[n - 1];
      HitCounts(ReadCounts(redis, d, value, backend, windows, n - 1, now).1,
                CounterKey(d, value, backend, last), last.windowSeconds, now);
      SameCounter(d, value, backend, w, last);
    }
  }

  /** What a request reads from a window: its counter's old count, plus one for every window of the same
      length so far. */
  lemma {:induction false} ReadCountsExact(redis: PenaltyStore.Redis, d: Dimension, value: string, backend: string,
                                           windows: seq<PenaltyWindow>, n: nat, i: nat, now: real)
    requires ValidWindows(windows) && i < n <= |windows| && redis.commandsLeft >= 2 * n
    ensures var counts := ReadCounts(redis, d, value, backend, windows, n, now).0;
            && counts.Ok?
            && counts.value[i] == LiveCount(redis.cells, CounterKey(d, value, backend, windows[i]), now)
                                  + WindowsOfLength(windows, i + 1, windows[i].windowSeconds)
  {
    LiveCountsAfter(redis, d, value, backend, windows, n - 1, windows[n - 1], now);
    HitCounts(ReadCounts(redis, d, value, backend, windows, n - 1, now).1,
              CounterKey(d, value, backend, windows[n - 1]), windows[n - 1].windowSeconds, now);
    if i < n - 1 {
      ReadCountsExact(redis, d, value, backend, windows, n - 1, i, now);
    }
  }

  lemma {:induction false} NoneOfLength(windows: seq<PenaltyWindow>, n: nat, seconds: int)
    requires n <= |windows|
    ensures WindowsOfLength(windows, n, seconds) == 0
            <==> forall j :: 0 <= j < n ==> windows[j].windowSeconds != seconds
  {
    if n > 0 { NoneOfLength(windows, n - 1, seconds); }
  }

  /** A request counts once in every window of a dimension if and only if no two windows have the same
      length: windows of equal length share a counter. */
  lemma OncePerWindowIff(redis: PenaltyStore.Redis, d: Dimension, value: string, backend: string,
                         windows: seq<PenaltyWindow>, now: real)
    requires ValidWindows(windows) && redis.commandsLeft >= 2 * |windows|
    ensures var counts := ReadCounts(redis, d, value, backend, windows, |windows|, now).0;
            && counts.Ok?
            && ((forall i :: 0 <= i < |windows| ==>
                   counts.value[i] == LiveCount(redis.cells, CounterKey(d, value, backend, windows[i]), now) + 1)
                <==> DistinctLengths(windows))
  {
    if windows != [] { ReadCountsExact(redis, d, value, backend, windows, |windows|, 0, now); }
    forall i | 0 <= i < |windows|
      ensures ReadCounts(redis, d, value, backend, windows, |windows|, now).0.value[i]
              == LiveCount(redis.cells, CounterKey(d, value, backend, windows[i]), now) + 1
              <==> forall j :: 0 <= j < i ==> windows[j].windowSeconds != windows[i].windowSeconds
    {
      ReadCountsExact(redis, d, value, backend, windows, |windows|, i, now);
      NoneOfLength(windows, i, windows[i].windowSeconds);
    }
  }

  /** The smallest failure: of two windows of equal length the second always reads one more. */
  lemma EqualWindowsCountTwice(redis: PenaltyStore.Redis, d: Dimension, value: string, backend: string,
                               w: PenaltyWindow, w': PenaltyWindow, now: real)
    requires ValidWindow(w) && ValidWindow(w') && w.windowSeconds == w'.windowSeconds
    requires redis.commandsLeft >= 4
    ensures var counts := ReadCounts(redis, d, value, backend, [w, w'], 2, now).0;
            counts.Ok? && counts.value[1] == counts.value[0] + 1
  {
    ReadCountsExact(redis, d, value, backend, [w, w'], 2, 0, now);
    ReadCountsExact(redis, d, value, backend, [w, w'], 2, 1, now);
  }

  // ---------------------------------------------------------------- the engine

  datatype ScoreError = UnknownBackend | UnknownUserClass

  datatype ScoreBreakdown = ScoreBreakdown(base: int, penalties: Breakdown, isExempt: bool, final: int)

  /** The part of a request's context that scoring writes. */
  class RequestContext {
    const request: Request
    var scoreBreakdown: Option<ScoreBreakdown>

    constructor (request: Request)
      ensures this.request == request && scoreBreakdown == None
    {
      this.request, scoreBreakdown := request, None;
    }
  }

  /** What one dimension charges a request. */
  function ChargeDimension(redis: PenaltyStore.Redis, request: Request, config: ScoringConfig,
                           d: Dimension, now: real): (r: Charge)
    requires Validated(config)
    ensures r.0.Ok? ==> |r.0.value| <= |config.penalties[d]|
  {
    var value := ValueOf(request, d);
    if value.None? then (Ok([]), redis)
    else ReadCounts(redis, d, value.value, request.backend, config.penalties[d], |config.penalties[d]|, now)
  }

  /** Charges the first `n` dimensions in order, stopping at the store's first failure. */
  function ChargeAll(redis: PenaltyStore.Redis, request: Request, config: ScoringConfig, n: nat, now: real)
    : (r: (Result<Counts, PenaltyStore.StoreError>, PenaltyStore.Redis))
    requires Validated(config) && n <= |DIMENSIONS|
  {
    if n == 0 then (Ok(map[]), redis)
    else
      var (before, store) := ChargeAll(redis, request, config, n - 1, now);
      if before.Err? then (before, store)
      else
        var (counts, after) := ChargeDimension(store, request, config, DIMENSIONS[n - 1], now);
        (if counts.Ok? then Ok(before.value[DIMENSIONS[n - 1] := counts.value]) else Err(counts.error), after)
  }

  /** The counts are those of the dimensions charged so far, one at most for each window. */
  lemma {:induction false} CountsSoFar(redis: PenaltyStore.Redis, request: Request, config: ScoringConfig,
                                       n: nat, now: real)
    requires Validated(config) && n <= |DIMENSIONS| && ChargeAll(redis, request, config, n, now).0.Ok?
    ensures var counts := ChargeAll(redis, request, config, n, now).0.value;
            && (forall d :: d in counts <==> d in DIMENSIONS[..n])
            && (forall d :: d in counts ==> |counts[d]| <= |config.penalties[d]|)
    decreases n
  {
    if n > 0 {
      CountsSoFar(redis, request, config, n - 1, now);
      assert DIMENSIONS[..n] == DIMENSIONS[..n - 1] + [DIMENSIONS[n - 1]];
    }
  }

  /** The order in which a request's dimensions are charged. */
  function Place(d: Dimension): nat {
    match d
    case Ip => 0
    case Net24 => 1
    case Net6 => 2
    case Asn => 3
    case Country => 4
    case User => 5
  }

  lemma PlaceIsIndex(d: Dimension, n: nat)
    requires n <= |DIMENSIONS|
    ensures Place(d) < |DIMENSIONS| && DIMENSIONS[Place(d)] == d
    ensures d in DIMENSIONS[..n] <==> Place(d) < n
  {
    if Place(d) < n { assert DIMENSIONS[..n][Place(d)] == d; }
  }

  lemma EarlierPlacesCharged(redis: PenaltyStore.Redis, request: Request, config: ScoringConfig, n: nat, now: real)
    requires Validated(config) && n < |DIMENSIONS| && ChargeAll(redis, request, config, n, now).0.Ok?
    ensures Place(DIMENSIONS[n]) == n
    ensures forall d :: d in ChargeAll(redis, request, config, n, now).0.value <==> Place(d) < n
  {
    CountsSoFar(redis, request, config, n, now);
    PlaceIsIndex(DIMENSIONS[n], n + 1);
    NewDimension(n);
    PlaceIsIndex(DIMENSIONS[n], n);
    forall d: Dimension ensures d in DIMENSIONS[..n] <==> Place(d) < n {
      PlaceIsIndex(d, n);
    }
  }

  /** Where the store fails, it fails at the first dimension, from the address to the user, that it fails at:
      those before it are charged, those after it are not, and the failed one leaves what it hit. */
  lemma {:induction false} FailsInOrder(redis: PenaltyStore.Redis, request: Request, config: ScoringConfig,
                                        n: nat, now: real) returns (failed: Dimension)
    requires Validated(config) && n <= |DIMENSIONS| && ChargeAll(redis, request, config, n, now).0.Err?
    ensures Place(failed) < n
    ensures var (before, store) := ChargeAll(redis, request, config, Place(failed), now);
            var (counts, after) := ChargeDimension(store, request, config, failed, now);
            && before.Ok? && (forall d :: d in before.value <==> Place(d) < Place(failed))
            && counts.Err? && ChargeAll(redis, request, config, n, now) == (Err(counts.error), after)
    decreases n
  {
    if ChargeAll(redis, request, config, n - 1, now).0.Err? {
      failed := FailsInOrder(redis, request, config, n - 1, now);
    } else {
      failed := DIMENSIONS[n - 1];
      EarlierPlacesCharged(redis, request, config, n - 1, now);
    }
  }

  lemma {:induction false} ChargesIgnoreExemption(
    redis: PenaltyStore.Redis, request: Request, config: ScoringConfig, other: ScoringConfig, n: nat, now: real)
    requires Validated(config) && Validated(other) && config.penalties == other.penalties
    requires n <= |DIMENSIONS|
    ensures ChargeAll(redis, request, config, n, now) == ChargeAll(redis, request, other, n, now)
  {
    if n > 0 { ChargesIgnoreExemption(redis, request, config, other, n - 1, now); }
  }

  /** Charging depends on a configuration's windows alone. */
  lemma StoreIgnoresExemption(redis: PenaltyStore.Redis, request: Request, config: ScoringConfig, now: real)
    requires Validated(config)
    ensures forall other: ScoringConfig :: Validated(other) && other.penalties == config.penalties ==>
      ChargeAll(redis, request, other, |DIMENSIONS|, now) == ChargeAll(redis, request, config, |DIMENSIONS|, now)
  {
    forall other: ScoringConfig | Validated(other) && other.penalties == config.penalties
      ensures ChargeAll(redis, request, other, |DIMENSIONS|, now)
              == ChargeAll(redis, request, config, |DIMENSIONS|, now)
    {
      ChargesIgnoreExemption(redis, request, config, other, |DIMENSIONS|, now);
    }
  }

  ghost predicate Charges(config: ScoringConfig, counts: Counts, d: Dimension, penalty: int) {
    && d in counts && d in config.penalties && |counts[d]| <= |config.penalties[d]|
    && penalty == PenaltySum(config.penalties[d], counts[d])
  }

  /** The penalties of the first `n` dimensions. */
  ghost predicate Charged(config: ScoringConfig, counts: Counts, penalties: map<Dimension, int>, n: nat)
    requires n <= |DIMENSIONS|
  {
    forall k :: 0 <= k < n ==>
      DIMENSIONS[k] in penalties && Charges(config, counts, DIMENSIONS[k], penalties[DIMENSIONS[k]])
  }

  lemma ChargedOneMore(config: ScoringConfig, before: Counts, after: Counts, penalties: map<Dimension, int>,
                       n: nat, penalty: int)
    requires n < |DIMENSIONS| && Charged(config, before, penalties, n) && Extends(before, after)
    requires Charges(config, after, DIMENSIONS[n], penalty)
    ensures Charged(config, after, penalties[DIMENSIONS[n] := penalty], n + 1)
  {
    NewDimension(n);
    forall k | 0 <= k < n
      ensures DIMENSIONS[k] != DIMENSIONS[n] && Charges(config, after, DIMENSIONS[k], penalties[DIMENSIONS[k]])
    {
      assert DIMENSIONS[..n][k] == DIMENSIONS[k];
    }
  }

  lemma AllCharged(config: ScoringConfig, counts: Counts, penalties: map<Dimension, int>)
    requires Complete(config.penalties) && Charged(config, counts, penalties, |DIMENSIONS|)
    ensures CountsFit(counts, config.penalties) && forall d: Dimension :: d in penalties
    ensures Penalise(config.penalties, counts)
            == Breakdown(penalties[Ip], penalties[Net24], penalties[Net6],
                         penalties[Asn], penalties[Country], penalties[User])
  {
    forall d: Dimension
      ensures d in penalties && Charges(config, counts, d, penalties[d])
      ensures d in counts && |counts[d]| <= |config.penalties[d]|
    {
      EveryDimensionListed(d);
    }
    assert Charges(config, counts, Ip, penalties[Ip]) && Charges(config, counts, Net24, penalties[Net24]);
    assert Charges(config, counts, Net6, penalties[Net6]) && Charges(config, counts, Asn, penalties[Asn]);
    assert Charges(config, counts, Country, penalties[Country]) && Charges(config, counts, User, penalties[User]);
  }

  lemma ChargedNext(start: PenaltyStore.Redis, request: Request, config: ScoringConfig, n: nat, now: real,
                    counts: Counts, before: PenaltyStore.Redis, read: seq<nat>, after: PenaltyStore.Redis)
    requires Validated(config) && n < |DIMENSIONS|
    requires ChargeAll(start, request, config, n, now) == (Ok(counts), before)
    requires ChargeDimension(before, request, config, DIMENSIONS[n], now) == (Ok(read), after)
    ensures ChargeAll(start, request, config, n + 1, now) == (Ok(counts[DIMENSIONS[n] := read]), after)
    ensures Extends(counts, counts[DIMENSIONS[n] := read])
  {
    CountsSoFar(start, request, config, n, now);
    NewDimension(n);
  }

  lemma NewDimension(n: nat)
    requires n < |DIMENSIONS|
    ensures DIMENSIONS[n] !in DIMENSIONS[..n]
  {
  }

  ghost predicate Extends(before: Counts, after: Counts) {
    forall d :: d in before ==> d in after && after[d] == before[d]
  }

  class ScoreEngine {
    const store: PenaltyStore.RedisPenaltyStore
    const configs: map<string, ScoringConfig>

    ghost predicate Valid() {
      forall b :: b in configs ==> Validated(configs[b])
    }

    constructor (store: PenaltyStore.RedisPenaltyStore, configs: map<string, ScoringConfig>)
      requires forall b :: b in configs ==> Validated(configs[b])
      ensures Valid() && this.store == store && this.configs == configs
    {
      this.store, this.configs := store, configs;
    }

    /** A hit on the counter of window `i`. */
    method HitWindow(d: Dimension, value: string, backend: string, windows: seq<PenaltyWindow>, i: nat, now: real,
                     ghost start: PenaltyStore.Redis, ghost counts: seq<nat>)
      returns (count: Result<nat, PenaltyStore.StoreError>)
      requires ValidWindows(windows) && i < |windows|
      requires ReadCounts(start, d, value, backend, windows, i, now) == (Ok(counts), store.redis.Value())
      modifies store.redis
      ensures ReadCounts(start, d, value, backend, windows, i + 1, now)
              == (if count.Ok? then Ok(counts + [count.value]) else Err(count.error), store.redis.Value())
    {
      var w := windows[i];
      var key := CounterKey(d, value, backend, w);
      count := store.IncrementAndGetKey(key, w.windowSeconds, now);
    }

    /** One dimension: a hit on every window's counter, summing their penalties. */
    method DimensionPenalty(d: Dimension, value: Option<string>, backend: string,
                            windows: seq<PenaltyWindow>, now: real, ghost start: PenaltyStore.Redis)
      returns (r: Result<int, PenaltyStore.StoreError>, ghost counts: seq<nat>)
      requires ValidWindows(windows) && start == store.redis.Value()
      modifies store.redis
      ensures value.None? ==> r == Ok(0) && counts == [] && store.redis.Value() == start
      ensures value.Some? ==>
        var (read, after) := ReadCounts(start, d, value.value, backend, windows, |windows|, now);
        && store.redis.Value() == after
        && (r.Err? ==> read == Err(r.error))
        && (r.Ok? ==> read == Ok(counts) && r.value == PenaltySum(windows, counts))
    {
      counts := [];
      if value.None? {
        return Ok(0), [];
      }
      var total := 0;
      for i := 0 to |windows|
        invariant ReadCounts(start, d, value.value, backend, windows, i, now) == (Ok(counts), store.redis.Value())
        invariant |counts| == i && total == PenaltySum(windows, counts)
      {
        var count := HitWindow(d, value.value, backend, windows, i, now, start, counts);
        if count.Err? {
          FailureSticks(start, d, value.value, backend, windows, i + 1, now);
          return Err(count.error), counts;
        }
        PenaltySumSnoc(windows, counts, count.value);
        counts := counts + [count.value];
        total := total + StepPenalty(count.value, windows[i]);
      }
      r := Ok(total);
    }

    /** Charges dimension `n` of a request after the ones before it. */
    method ChargeNext(request: Request, config: ScoringConfig, n: nat, now: real,
                      ghost start: PenaltyStore.Redis, ghost counts: Counts)
      returns (r: Result<int, PenaltyStore.StoreError>, ghost after: Counts)
      requires Validated(config) && n < |DIMENSIONS|
      requires ChargeAll(start, request, config, n, now) == (Ok(counts), store.redis.Value())
      modifies store.redis
      ensures r.Err? ==> ChargeAll(start, request, config, |DIMENSIONS|, now) == (Err(r.error), store.redis.Value())
      ensures r.Ok? ==>
        var d := DIMENSIONS[n];
        && ChargeAll(start, request, config, n + 1, now) == (Ok(after), store.redis.Value())
        && Charges(config, after, d, r.value)
        && Extends(counts, after)
    {
      var d := DIMENSIONS[n];
      ghost var reached := store.redis.Value();
      ghost var read;
      r, read := DimensionPenalty(d, ValueOf(request, d), request.backend, config.penalties[d], now, reached);
      after := counts;
      if r.Err? {
        ChargeFailureSticks(start, request, config, n + 1, now);
      } else {
        ChargedNext(start, request, config, n, now, counts, reached, read, store.redis.Value());
        after := counts[d := read];
      }
    }

    /** Charges all six dimensions, whether or not their penalties will apply. */
    method ChargeRequest(request: Request, config: ScoringConfig, now: real)
      returns (r: Result<Breakdown, PenaltyStore.StoreError>, ghost counts: Counts)
      requires Validated(config)
      modifies store.redis
      ensures r.Err? ==>
        ChargeAll(old(store.redis.Value()), request, config, |DIMENSIONS|, now) == (Err(r.error), store.redis.Value())
      ensures r.Ok? ==>
        && ChargeAll(old(store.redis.Value()), request, config, |DIMENSIONS|, now) == (Ok(counts), store.redis.Value())
        && CountsFit(counts, config.penalties) && r.value == Penalise(config.penalties, counts)
    {
      ghost var start := store.redis.Value();
      var penalties: map<Dimension, int> := map[];
      counts := map[];
      for n := 0 to |DIMENSIONS|
        invariant ChargeAll(start, request, config, n, now) == (Ok(counts), store.redis.Value())
        invariant Charged(config, counts, penalties, n)
      {
        ghost var before := counts;
        var penalty;
        penalty, counts := ChargeNext(request, config, n, now, start, before);
        if penalty.Err? {
          return Err(penalty.error), counts;
        }
        ChargedOneMore(config, before, counts, penalties, n, penalty.value);
        penalties := penalties[DIMENSIONS[n] := penalty.value];
      }
      AllCharged(config, counts, penalties);
      r := Ok(Breakdown(penalties[Ip], penalties[Net24], penalties[Net6],
                        penalties[Asn], penalties[Country], penalties[User]));
    }

    /** Subtracts the penalties that apply from the base score, clamps, and stores the breakdown. */
    method ApplyPenalties(ctx: RequestContext, config: ScoringConfig, p: Breakdown) returns (final: int)
      requires ctx.request.userClass in config.baseScores
      modifies ctx`scoreBreakdown
      ensures var base, exempt := config.baseScores[ctx.request.userClass], Exempt(ctx.request, config);
              && final == FinalScore(config, base, exempt, p)
              && ctx.scoreBreakdown == Some(ScoreBreakdown(base, p, exempt, final))
    {
      var base := config.baseScores[ctx.request.userClass];
      var exempt := Exempt(ctx.request, config);
      var penalty := p.ip + p.user;
      if !exempt {
        penalty := penalty + p.net24 + p.net6 + p.asn + p.country;
      }
      final := Clamp(base - penalty, config.minScore, config.maxScore);
      ctx.scoreBreakdown := Some(ScoreBreakdown(base, p, exempt, final));
    }

    /** `calculate_score`, for a user class that has a base score. Success stores the breakdown. What
        the store holds afterwards would be the same under any other exemptions, base scores and
        clamp: whether a country is exempt never shows in the counters. */
    method CalculateScore(ctx: RequestContext, config: ScoringConfig, now: real)
      returns (r: Result<int, PenaltyStore.StoreError>, ghost counts: Counts)
      requires Validated(config) && ctx.request.userClass in config.baseScores
      modifies store.redis, ctx`scoreBreakdown
      ensures r.Err? ==>
        && ChargeAll(old(store.redis.Value()), ctx.request, config, |DIMENSIONS|, now)
           == (Err(r.error), store.redis.Value())
        && ctx.scoreBreakdown == old(ctx.scoreBreakdown)
      ensures r.Ok? ==>
        var base, country := config.baseScores[ctx.request.userClass], ctx.request.country;
        var exempt := country.Some? && country.value in config.exemptCountries;
        && ChargeAll(old(store.redis.Value()), ctx.request, config, |DIMENSIONS|, now)
           == (Ok(counts), store.redis.Value())
        && CountsFit(counts, config.penalties)
        && r.value == ScoreOf(config, base, exempt, counts)
        && ctx.scoreBreakdown
           == Some(ScoreBreakdown(base, Penalise(config.penalties, counts), exempt, r.value))
      ensures forall other: ScoringConfig :: Validated(other) && other.penalties == config.penalties ==>
        store.redis.Value() == ChargeAll(old(store.redis.Value()), ctx.request, other, |DIMENSIONS|, now).1
    {
      ghost var start := store.redis.Value();
      var charged;
      charged, counts := ChargeRequest(ctx.request, config, now);
      StoreIgnoresExemption(start, ctx.request, config, now);
      if charged.Err? {
        return Err(charged.error), counts;
      }
      var final := ApplyPenalties(ctx, config, charged.value);
      r := Ok(final);
    }

    /** Scores a request, falling back to the base score without penalties when the store fails
        part-way; the hits counted before the failure stay counted. */
    method Score(ctx: RequestContext, now: real) returns (r: Result<int, ScoreError>)
      requires Valid()
      modifies store.redis, ctx`scoreBreakdown
      ensures r == Err(UnknownBackend) <==> ctx.request.backend !in configs
      ensures r == Err(UnknownUserClass) <==>
        ctx.request.backend in configs && ctx.request.userClass !in configs[ctx.request.backend].baseScores
      ensures r.Err? ==> store.redis.Value() == old(store.redis.Value())
      ensures r.Ok? ==>
        var config := configs[ctx.request.backend];
        var base, country := config.baseScores[ctx.request.userClass], ctx.request.country;
        var exempt := country.Some? && country.value in config.exemptCountries;
        var (charged, after) := ChargeAll(old(store.redis.Value()), ctx.request, config, |DIMENSIONS|, now);
        && store.redis.Value() == after
        && ctx.scoreBreakdown.Some? && ctx.scoreBreakdown.value.final == r.value
        && config.minScore <= r.value <= FailOpenScore(config, base)
        && (charged.Err? ==> r.value == FailOpenScore(config, base)
                             && ctx.scoreBreakdown.value.penalties == NO_PENALTIES)
        && (charged.Ok? ==> CountsFit(charged.value, config.penalties)
                            && ctx.scoreBreakdown.value.penalties == Penalise(config.penalties, charged.value)
                            && r.value == ScoreOf(config, base, exempt, charged.value))
        && ctx.scoreBreakdown.value.base == base && ctx.scoreBreakdown.value.isExempt == exempt
    {
      if ctx.request.backend !in configs {
        return Err(UnknownBackend);
      }
      var config := configs[ctx.request.backend];
      if ctx.request.userClass !in config.baseScores {
        return Err(UnknownUserClass);
      }
      var calculated, counts := CalculateScore(ctx, config, now);
      var base := config.baseScores[ctx.request.userClass];
      if calculated.Ok? {
        ScoreOrder(config, base, counts, counts);
        return Ok(calculated.value);
      }
      var final := Clamp(base, config.minScore, config.maxScore);
      ctx.scoreBreakdown := Some(ScoreBreakdown(base, NO_PENALTIES, Exempt(ctx.request, config), final));
      r := Ok(final);
    }
  }

  lemma {:induction false} ChargeFailureSticks(
    redis: PenaltyStore.Redis, request: Request, config: ScoringConfig, n: nat, now: real)
    requires Validated(config) && n <= |DIMENSIONS|
    requires ChargeAll(redis, request, config, n, now).0.Err?
    ensures ChargeAll(redis, request, config, |DIMENSIONS|, now) == ChargeAll(redis, request, config, n, now)
    decreases |DIMENSIONS| - n
  {
    if n < |DIMENSIONS| { ChargeFailureSticks(redis, request, config, n + 1, now); }
  }

  lemma {:induction false} FailureSticks(redis: PenaltyStore.Redis, d: Dimension, value: string, backend: string,
                                         windows: seq<PenaltyWindow>, n: nat, now: real)
    requires n <= |windows| && forall i :: 0 <= i < |windows| ==> windows[i].windowSeconds > 0
    requires ReadCounts(redis, d, value, backend, windows, n, now).0.Err?
    ensures ReadCounts(redis, d, value, backend, windows, |windows|, now)
            == ReadCounts(redis, d, value, backend, windows, n, now)
    decreases |windows| - n
  {
    if n < |windows| { FailureSticks(redis, d, value, backend, windows, n + 1, now); }
  }
}
