/**
  Requests scored at the same time: every command awaits the store, so the hits of concurrent requests
  interleave, each at its own instant and each able to fail. What the counts they read stand for, and how
  the scores they make compare with true sliding windows.
 */
module Interleavings {
  import opened Wrappers
  import opened Sequences
  import opened KeyFormat
  import opened Config
  import opened PenaltyStore
  import opened Scoring
  import R = RequestLog

  /** A hit made for a request, by its number, on a counter; how many commands its connection could send. */
  datatype Hit = Hit(request: nat, counted: Counted, at: real, commands: nat)

  // ---------------------------------------------------------------- the hits of one request

  function WindowCounters(d: Dimension, value: string, backend: string, windows: seq<PenaltyWindow>, n: nat)
    : (r: seq<Counted>)
    requires ValidWindows(windows) && n <= |windows|
    ensures |r| == n
  {
    if n == 0 then []
    else
      WindowCounters(d, value, backend, windows, n - 1)
      + [Counted(d, value, backend, windows[n - 1].windowSeconds)]
  }

  lemma {:induction false} WindowCounterAt(d: Dimension, value: string, backend: string,
                                           windows: seq<PenaltyWindow>, n: nat, i: nat)
    requires ValidWindows(windows) && i < n <= |windows|
    ensures WindowCounters(d, value, backend, windows, n)[i] == Counted(d, value, backend, windows[i].windowSeconds)
    decreases n
  {
    if i < n - 1 { WindowCounterAt(d, value, backend, windows, n - 1, i); }
  }

  function DimensionCounters(request: Request, config: ScoringConfig, d: Dimension): seq<Counted>
    requires Validated(config)
  {
    match ValueOf(request, d)
    case None => []
    case Some(value) =>
      WindowCounters(d, value, request.backend, config.penalties[d], |config.penalties[d]|)
  }

  /** The counters a request hits for its first `n` dimensions, in order. */
  function Program(request: Request, config: ScoringConfig, n: nat): seq<Counted>
    requires Validated(config) && n <= |DIMENSIONS|
  {
    if n == 0 then [] else Program(request, config, n - 1) + DimensionCounters(request, config, DIMENSIONS[n - 1])
  }

  lemma {:induction false} DistinctAppend<T>(a: seq<T>, b: seq<T>)
    requires Distinct(a) && Distinct(b) && forall x :: x in a ==> x !in b
    ensures Distinct(a + b)
  {
    if b == [] {
      assert a + b == a;
    } else {
      assert (a + b)[..|a + b| - 1] == a + b[..|b| - 1];
      DistinctAppend(a, b[..|b| - 1]);
    }
  }

  lemma {:induction false} DistinctPrefix<T>(p: seq<T>, s: seq<T>)
    requires Distinct(s) && p <= s
    ensures Distinct(p)
    decreases |s|
  {
    if p != s {
      assert p <= s[..|s| - 1];
      DistinctPrefix(p, s[..|s| - 1]);
    }
  }

  lemma {:induction false} WindowCountersDistinct(d: Dimension, value: string, backend: string,
                                                  windows: seq<PenaltyWindow>, n: nat)
    requires ValidWindows(windows) && DistinctLengths(windows) && n <= |windows|
    ensures Distinct(WindowCounters(d, value, backend, windows, n))
    decreases n
  {
    if n > 0 {
      var before := WindowCounters(d, value, backend, windows, n - 1);
      WindowCountersDistinct(d, value, backend, windows, n - 1);
      assert WindowCounters(d, value, backend, windows, n)[..n - 1] == before;
      forall i | 0 <= i < n - 1 ensures before[i].window != windows[n - 1].windowSeconds {
        WindowCounterAt(d, value, backend, windows, n - 1, i);
      }
    }
  }

  lemma OfItsDimension(request: Request, config: ScoringConfig, d: Dimension, c: Counted)
    requires Validated(config) && c in DimensionCounters(request, config, d)
    ensures c.dimension == d && R.IsFor(request, c) && c.window > 0
  {
    var own := DimensionCounters(request, config, d);
    var i :| 0 <= i < |own| && own[i] == c;
    WindowCounterAt(d, ValueOf(request, d).value, request.backend, config.penalties[d], |own|, i);
    assert ValidWindow(config.penalties[d][i]);
  }

  /** A request only hits counters of its own backend and values. */
  lemma {:induction false} ProgramMembers(request: Request, config: ScoringConfig, n: nat, c: Counted)
    requires Validated(config) && n <= |DIMENSIONS| && c in Program(request, config, n)
    ensures c.dimension in DIMENSIONS[..n] && R.IsFor(request, c) && c.window > 0
    decreases n
  {
    R.ListedSnoc(c.dimension, n - 1);
    if c in Program(request, config, n - 1) {
      ProgramMembers(request, config, n - 1, c);
    } else {
      OfItsDimension(request, config, DIMENSIONS[n - 1], c);
    }
  }

  lemma DimensionDistinct(request: Request, config: ScoringConfig, d: Dimension)
    requires Validated(config) && DistinctLengths(config.penalties[d])
    ensures Distinct(DimensionCounters(request, config, d))
  {
    if ValueOf(request, d).Some? {
      WindowCountersDistinct(d, ValueOf(request, d).value, request.backend,
                             config.penalties[d], |config.penalties[d]|);
    }
  }

  lemma NotBefore(request: Request, config: ScoringConfig, n: nat, c: Counted)
    requires Validated(config) && 0 < n <= |DIMENSIONS| && c in Program(request, config, n - 1)
    ensures c !in DimensionCounters(request, config, DIMENSIONS[n - 1])
  {
    ProgramMembers(request, config, n - 1, c);
    NewDimension(n - 1);
    if c in DimensionCounters(request, config, DIMENSIONS[n - 1]) {
      OfItsDimension(request, config, DIMENSIONS[n - 1], c);
    }
  }

  /** With distinct window lengths, it hits each of them once. */
  lemma {:induction false} ProgramDistinct(request: Request, config: ScoringConfig, n: nat)
    requires Validated(config) && (forall d: Dimension :: DistinctLengths(config.penalties[d])) && n <= |DIMENSIONS|
    ensures Distinct(Program(request, config, n))
    decreases n
  {
    if n > 0 {
      var before := Program(request, config, n - 1);
      ProgramDistinct(request, config, n - 1);
      DimensionDistinct(request, config, DIMENSIONS[n - 1]);
      forall c | c in before ensures c !in DimensionCounters(request, config, DIMENSIONS[n - 1]) {
        NotBefore(request, config, n, c);
      }
      DistinctAppend(before, DimensionCounters(request, config, DIMENSIONS[n - 1]));
    }
  }

  // ---------------------------------------------------------------- interleavings

  ghost predicate SoundConfigs(configs: R.Configs) {
    forall b :: b in configs ==>
      Validated(configs[b]) && forall d: Dimension :: DistinctLengths(configs[b].penalties[d])
  }

  /** The counters a log hits for one request, in order. */
  function Steps(log: seq<Hit>, r: nat): seq<Counted> {
    if log == [] then []
    else
      var last := log[|log| - 1];
      Steps(log[..|log| - 1], r) + if last.request == r then [last.counted] else []
  }

  /** Every request's hits are the first ones it makes, in its order; requests interleave freely, and one
      may still be at work or have stopped at a failure. */
  ghost predicate Interleaved(log: seq<Hit>, requests: seq<Request>, configs: R.Configs) {
    && SoundConfigs(configs)
    && (forall r :: 0 <= r < |requests| ==> requests[r].backend in configs)
    && (forall j :: 0 <= j < |log| ==> log[j].request < |requests|)
    && (forall r :: 0 <= r < |requests| ==>
          Steps(log, r) <= Program(requests[r], configs[requests[r].backend], |DIMENSIONS|))
  }

  predicate TimeOrdered(log: seq<Hit>) {
    forall i, j :: 0 <= i < j < |log| ==> log[i].at <= log[j].at
  }

  lemma FrontInterleaved(log: seq<Hit>, requests: seq<Request>, configs: R.Configs)
    requires Interleaved(log, requests, configs) && log != []
    ensures Interleaved(log[..|log| - 1], requests, configs)
  {
    forall r | 0 <= r < |requests|
      ensures Steps(log[..|log| - 1], r) <= Program(requests[r], configs[requests[r].backend], |DIMENSIONS|)
    {
      assert Steps(log[..|log| - 1], r) <= Steps(log, r);
    }
  }

  /** A hit as the store sees it. */
  function AttemptOf(h: Hit): Attempt { Attempt(KeyFormat.Key(h.counted), h.at, h.commands) }

  function Attempts(log: seq<Hit>): (r: seq<Attempt>)
    ensures |r| == |log|
  {
    if log == [] then [] else Attempts(log[..|log| - 1]) + [AttemptOf(log[|log| - 1])]
  }

  lemma {:induction false} AttemptsOfHits(log: seq<Hit>)
    ensures forall i :: 0 <= i < |log| ==> Attempts(log)[i] == AttemptOf(log[i])
    decreases |log|
  {
    if log != [] { AttemptsOfHits(log[..|log| - 1]); }
  }

  lemma LastAttempt(log: seq<Hit>)
    requires log != []
    ensures Attempts(log)[..|log| - 1] == Attempts(log[..|log| - 1])
    ensures Attempts(log)[|log| - 1] == AttemptOf(log[|log| - 1])
  {
  }

  lemma AttemptsInOrder(log: seq<Hit>)
    requires TimeOrdered(log)
    ensures InOrder(Attempts(log))
  {
    AttemptsOfHits(log);
  }

  /** The requests whose hit on a counter after an instant got through. */
  function Visitors(log: seq<Hit>, c: Counted, since: real): set<nat> {
    if log == [] then {}
    else
      var last := log[|log| - 1];
      Visitors(log[..|log| - 1], c, since)
      + if last.counted == c && last.commands > 0 && last.at > since then {last.request} else {}
  }

  lemma {:induction false} VisitorsHit(log: seq<Hit>, c: Counted, since: real, r: nat)
    requires r in Visitors(log, c, since)
    ensures c in Steps(log, r)
    decreases |log|
  {
    if r in Visitors(log[..|log| - 1], c, since) { VisitorsHit(log[..|log| - 1], c, since, r); }
  }

  /** The last hit of a log is one of its request's own, and its first on that counter. */
  lemma LastStep(log: seq<Hit>, requests: seq<Request>, configs: R.Configs)
    requires Interleaved(log, requests, configs) && log != []
    ensures var last := log[|log| - 1];
            && last.request < |requests| && R.IsFor(requests[last.request], last.counted)
            && last.counted.window > 0 && last.counted.backend in configs
            && last.counted !in Steps(log[..|log| - 1], last.request)
  {
    var last := log[|log| - 1];
    var request := requests[last.request];
    var config, steps := configs[request.backend], Steps(log, last.request);
    var program := Program(request, config, |DIMENSIONS|);
    assert steps[|steps| - 1] == last.counted && last.counted == program[|steps| - 1];
    ProgramMembers(request, config, |DIMENSIONS|, last.counted);
    ProgramDistinct(request, config, |DIMENSIONS|);
    DistinctPrefix(steps, program);
    assert steps[..|steps| - 1] == Steps(log[..|log| - 1], last.request);
  }

  lemma SameCounterOnly(c: Counted, c': Counted, configs: R.Configs)
    requires CollisionFree(configs.Keys) && c.backend in configs && c'.backend in configs
    ensures KeyFormat.Key(c) == KeyFormat.Key(c') <==> c == c'
  {
  }

  /** Every visit is a different request's: the hits on a counter number its visitors. */
  lemma {:induction false} VisitorsAreHits(log: seq<Hit>, requests: seq<Request>, configs: R.Configs,
                                           c: Counted, since: real)
    requires Interleaved(log, requests, configs) && CollisionFree(configs.Keys) && c.backend in configs
    ensures |Visitors(log, c, since)| == ThroughAfter(Attempts(log), KeyFormat.Key(c), since)
    ensures forall r :: r in Visitors(log, c, since) ==> r < |requests| && R.IsFor(requests[r], c)
    decreases |log|
  {
    if log != [] {
      var front, last := log[..|log| - 1], log[|log| - 1];
      FrontInterleaved(log, requests, configs);
      VisitorsAreHits(front, requests, configs, c, since);
      LastStep(log, requests, configs);
      SameCounterOnly(last.counted, c, configs);
      assert Attempts(log)[..|log| - 1] == Attempts(front);
      if last.request in Visitors(front, c, since) { VisitorsHit(front, c, since, last.request); }
    }
  }

  // ---------------------------------------------------------------- what a hit reads

  /** The store after a log of hits. */
  ghost function StoreAfter(log: seq<Hit>): Cells { CellsAfterAttempts(Attempts(log), R.LengthOf) }

  /** What the last hit returns. */
  ghost function LastRead(log: seq<Hit>): Result<nat, StoreError>
    requires log != []
  {
    var last := log[|log| - 1];
    IncrementAndGet(Redis(StoreAfter(log[..|log| - 1]), last.commands), KeyFormat.Key(last.counted),
                    last.counted.window, last.at).0
  }

  /** The start of the sliding window the last hit stands for. */
  function WindowStart(log: seq<Hit>): real
    requires log != []
  {
    log[|log| - 1].at - log[|log| - 1].counted.window as real
  }

  lemma LengthOfKey(c: Counted)
    ensures R.LengthOf(KeyFormat.Key(c)) == c.window
  {
    var c' :| KeyFormat.Key(c') == KeyFormat.Key(c) && R.LengthOf(KeyFormat.Key(c)) == c'.window;
    KeyParts(c, c');
  }

  /** What the last hit leaves in the store against the requests of its kind in the sliding window, whatever
      requests interleave and whatever commands fail. */
  ghost predicate AgainstRequests(log: seq<Hit>, requests: seq<Request>)
    requires log != []
  {
    var c := log[|log| - 1].counted;
    var visitors := Visitors(log, c, WindowStart(log));
    && (forall r :: r in visitors ==> r < |requests| && R.IsFor(requests[r], c))
    && |visitors| == ThroughAfter(Attempts(log), KeyFormat.Key(c), WindowStart(log))
    && AgainstRolling(StoreAfter(log), Attempts(log), KeyFormat.Key(c), c.window, log[|log| - 1].at)
  }

  lemma HitAgainstRequests(log: seq<Hit>, requests: seq<Request>, configs: R.Configs)
    requires Interleaved(log, requests, configs) && TimeOrdered(log) && CollisionFree(configs.Keys)
    requires log != [] && log[|log| - 1].commands > 0
    ensures AgainstRequests(log, requests)
  {
    var c := log[|log| - 1].counted;
    LastStep(log, requests, configs);
    VisitorsAreHits(log, requests, configs, c, WindowStart(log));
    LengthOfKey(c);
    AttemptsInOrder(log);
    LastAttempt(log);
    RollingCountIff(Attempts(log), R.LengthOf, KeyFormat.Key(c));
  }

  // ---------------------------------------------------------------- what a request is scored on

  /** The last hit found a counter begun by an attempt that lost its `EXPIRE` and left the sliding window. */
  ghost predicate StaleAtLast(log: seq<Hit>)
    requires log != []
  {
    var last := log[|log| - 1];
    Stale(Attempts(log), KeyFormat.Key(last.counted), last.counted.window, last.at)
  }

  /** A request's last hit of the log, on a counter of the given dimension, that got an answer. */
  ghost predicate Answers(log: seq<Hit>, r: nat, d: Dimension)
    requires log != []
  {
    log[|log| - 1].request == r && log[|log| - 1].counted.dimension == d && LastRead(log).Ok?
  }

  /** The counts a request read for a dimension, in order. */
  ghost function Reads(log: seq<Hit>, r: nat, d: Dimension): seq<nat> {
    if log == [] then []
    else Reads(log[..|log| - 1], r, d) + if Answers(log, r, d) then [LastRead(log).value] else []
  }

  /** What true sliding windows would have answered at the same moments. */
  ghost function Sliding(log: seq<Hit>, r: nat, d: Dimension): seq<nat> {
    if log == [] then []
    else
      Sliding(log[..|log| - 1], r, d)
      + if Answers(log, r, d) then [|Visitors(log, log[|log| - 1].counted, WindowStart(log))|] else []
  }

  /** None of a request's hits found a stale counter. */
  ghost predicate NeverStale(log: seq<Hit>, r: nat) {
    log == [] || (NeverStale(log[..|log| - 1], r) && (log[|log| - 1].request == r ==> !StaleAtLast(log)))
  }

  lemma ReadIsCount(log: seq<Hit>)
    requires log != [] && LastRead(log).Ok?
    ensures var last := log[|log| - 1];
            && last.commands > 0 && KeyFormat.Key(last.counted) in StoreAfter(log)
            && LastRead(log).value == StoreAfter(log)[KeyFormat.Key(last.counted)].count
  {
    assert Attempts(log)[..|log| - 1] == Attempts(log[..|log| - 1]);
    LengthOfKey(log[|log| - 1].counted);
  }

  /** A read is at most the sliding count if and only if its counter is not stale. */
  lemma ReadAtMostSlidingIff(log: seq<Hit>, requests: seq<Request>, configs: R.Configs)
    requires Interleaved(log, requests, configs) && TimeOrdered(log) && CollisionFree(configs.Keys)
    requires log != [] && LastRead(log).Ok?
    ensures LastRead(log).value <= |Visitors(log, log[|log| - 1].counted, WindowStart(log))| <==> !StaleAtLast(log)
  {
    ReadIsCount(log);
    HitAgainstRequests(log, requests, configs);
    var last := log[|log| - 1];
    TooHighIffStale(StoreAfter(log), Attempts(log), KeyFormat.Key(last.counted), last.counted.window, last.at,
                    WindowStart(log));
  }

  lemma {:induction false} ReadsAtMostSliding(log: seq<Hit>, requests: seq<Request>, configs: R.Configs,
                                              r: nat, d: Dimension)
    requires Interleaved(log, requests, configs) && TimeOrdered(log) && CollisionFree(configs.Keys)
    requires NeverStale(log, r)
    ensures AtMost(Reads(log, r, d), Sliding(log, r, d))
    decreases |log|
  {
    if log != [] {
      FrontInterleaved(log, requests, configs);
      ReadsAtMostSliding(log[..|log| - 1], requests, configs, r, d);
      if Answers(log, r, d) { ReadAtMostSlidingIff(log, requests, configs); }
    }
  }

  // ---------------------------------------------------------------- as many reads as windows at most

  function OfDimension(counters: seq<Counted>, d: Dimension): nat {
    if counters == [] then 0
    else
      OfDimension(counters[..|counters| - 1], d) + if counters[|counters| - 1].dimension == d then 1 else 0
  }

  lemma {:induction false} OfDimensionAppend(a: seq<Counted>, b: seq<Counted>, d: Dimension)
    ensures OfDimension(a + b, d) == OfDimension(a, d) + OfDimension(b, d)
  {
    if b == [] {
      assert a + b == a;
    } else {
      assert (a + b)[..|a + b| - 1] == a + b[..|b| - 1];
      OfDimensionAppend(a, b[..|b| - 1], d);
    }
  }

  lemma {:induction false} AllOrNone(counters: seq<Counted>, own: Dimension, d: Dimension)
    requires forall c :: c in counters ==> c.dimension == own
    ensures OfDimension(counters, d) == if own == d then |counters| else 0
  {
    if counters != [] {
      assert counters[|counters| - 1] in counters;
      AllOrNone(counters[..|counters| - 1], own, d);
    }
  }

  lemma DimensionShare(request: Request, config: ScoringConfig, own: Dimension, d: Dimension)
    requires Validated(config)
    ensures OfDimension(DimensionCounters(request, config, own), d) <= if own == d then |config.penalties[d]| else 0
  {
    forall c | c in DimensionCounters(request, config, own) ensures c.dimension == own {
      OfItsDimension(request, config, own, c);
    }
    AllOrNone(DimensionCounters(request, config, own), own, d);
  }

  lemma {:induction false} ProgramShare(request: Request, config: ScoringConfig, n: nat, d: Dimension)
    requires Validated(config) && n <= |DIMENSIONS|
    ensures OfDimension(Program(request, config, n), d) <= if d in DIMENSIONS[..n] then |config.penalties[d]| else 0
    decreases n
  {
    if n > 0 {
      ProgramShare(request, config, n - 1, d);
      DimensionShare(request, config, DIMENSIONS[n - 1], d);
      OfDimensionAppend(Program(request, config, n - 1), DimensionCounters(request, config, DIMENSIONS[n - 1]), d);
      R.ListedSnoc(d, n - 1);
    }
  }

  lemma {:induction false} ReadsPerStep(log: seq<Hit>, r: nat, d: Dimension)
    ensures |Reads(log, r, d)| == |Sliding(log, r, d)| <= OfDimension(Steps(log, r), d)
    decreases |log|
  {
    if log != [] {
      ReadsPerStep(log[..|log| - 1], r, d);
      if log[|log| - 1].request == r {
        assert Steps(log, r)[..|Steps(log, r)| - 1] == Steps(log[..|log| - 1], r);
      } else {
        assert Steps(log, r) == Steps(log[..|log| - 1], r);
      }
    }
  }

  /** A request reads at most one count for each window of a dimension. */
  lemma ReadsFit(log: seq<Hit>, requests: seq<Request>, configs: R.Configs, r: nat, d: Dimension)
    requires Interleaved(log, requests, configs) && r < |requests|
    ensures |Reads(log, r, d)| == |Sliding(log, r, d)| <= |configs[requests[r].backend].penalties[d]|
  {
    var config := configs[requests[r].backend];
    var steps, program := Steps(log, r), Program(requests[r], config, |DIMENSIONS|);
    ReadsPerStep(log, r, d);
    ProgramShare(requests[r], config, |DIMENSIONS|, d);
    OfDimensionAppend(steps, program[|steps|..], d);
    assert program == steps + program[|steps|..];
  }

  // ---------------------------------------------------------------- scores

  /** The counts of all dimensions a request was scored on, and those of true sliding windows. */
  ghost function CountsRead(log: seq<Hit>, r: nat): Counts { map d: Dimension | d in DIMENSIONS :: Reads(log, r, d) }

  ghost function CountsSliding(log: seq<Hit>, r: nat): Counts {
    map d: Dimension | d in DIMENSIONS :: Sliding(log, r, d)
  }

  /** However requests interleave and whatever commands of others fail: a request none of whose counters had
      gone stale is charged no more, in any dimension, and scored no lower than with sliding windows. */
  lemma ScoredAtLeastSliding(log: seq<Hit>, requests: seq<Request>, configs: R.Configs, r: nat,
                             base: int, exempt: bool)
    requires Interleaved(log, requests, configs) && TimeOrdered(log) && CollisionFree(configs.Keys)
    requires r < |requests| && NeverStale(log, r)
    ensures var config := configs[requests[r].backend];
            var counts, sliding := CountsRead(log, r), CountsSliding(log, r);
            && CountsFit(counts, config.penalties) && CountsFit(sliding, config.penalties)
            && (forall d: Dimension ::
                  PenaltySum(config.penalties[d], counts[d]) <= PenaltySum(config.penalties[d], sliding[d]))
            && ScoreOf(config, base, exempt, counts) >= ScoreOf(config, base, exempt, sliding)
  {
    var config := configs[requests[r].backend];
    var counts, sliding := CountsRead(log, r), CountsSliding(log, r);
    forall d: Dimension
      ensures d in counts && d in sliding && AtMost(counts[d], sliding[d])
      ensures |counts[d]| == |sliding[d]| <= |config.penalties[d]|
      ensures PenaltySum(config.penalties[d], counts[d]) <= PenaltySum(config.penalties[d], sliding[d])
    {
      EveryDimensionListed(d);
      ReadsFit(log, requests, configs, r, d);
      ReadsAtMostSliding(log, requests, configs, r, d);
      PenaltySumMonotone(config.penalties[d], counts[d], sliding[d]);
    }
    ScoreOrder(config, base, counts, sliding);
  }

  /** Counters go stale only where a hit got one command through and not two. */
  lemma {:induction false} LossFreeNeverStale(log: seq<Hit>, r: nat)
    requires forall j :: 0 <= j < |log| ==> log[j].commands != 1
    ensures NeverStale(log, r)
    decreases |log|
  {
    if log != [] {
      LossFreeNeverStale(log[..|log| - 1], r);
      AttemptsOfHits(log);
    }
  }

  // ---------------------------------------------------------------- scoring in one piece

  lemma OneMoreHit(log: seq<Hit>, h: Hit)
    ensures var (result, after) := IncrementAndGet(Redis(StoreAfter(log), h.commands), KeyFormat.Key(h.counted),
                                                   h.counted.window, h.at);
            StoreAfter(log + [h]) == after.cells && LastRead(log + [h]) == result
  {
    assert (log + [h])[..|log|] == log;
    assert Attempts(log + [h]) == Attempts(log) + [AttemptOf(h)];
    assert (Attempts(log) + [AttemptOf(h)])[..|log|] == Attempts(log);
    LengthOfKey(h.counted);
  }

  lemma OneMoreStep(log: seq<Hit>, h: Hit, r: nat)
    ensures Steps(log + [h], r) == Steps(log, r) + if h.request == r then [h.counted] else []
  {
    assert (log + [h])[..|log|] == log;
  }

  lemma OneMoreRead(log: seq<Hit>, h: Hit, d: Dimension)
    requires LastRead(log + [h]).Ok?
    ensures Reads(log + [h], h.request, d)
            == Reads(log, h.request, d) + if h.counted.dimension == d then [LastRead(log + [h]).value] else []
  {
    assert (log + [h])[..|log|] == log;
  }

  /** The hit of a dimension's `n`-th window, on what its connection has left. */
  function WindowHit(redis: Redis, r: nat, d: Dimension, value: string, backend: string,
                     windows: seq<PenaltyWindow>, n: nat, now: real): Hit
    requires ValidWindows(windows) && 0 < n <= |windows|
  {
    Hit(r, Counted(d, value, backend, windows[n - 1].windowSeconds), now,
        ReadCounts(redis, d, value, backend, windows, n - 1, now).1.commandsLeft)
  }

  /** The hits of one dimension's charge. */
  function Piece(redis: Redis, r: nat, d: Dimension, value: string, backend: string,
                 windows: seq<PenaltyWindow>, n: nat, now: real): seq<Hit>
    requires ValidWindows(windows) && n <= |windows|
  {
    if n == 0 then []
    else
      Piece(redis, r, d, value, backend, windows, n - 1, now)
      + [WindowHit(redis, r, d, value, backend, windows, n, now)]
  }

  lemma PieceSnoc(log: seq<Hit>, redis: Redis, r: nat, d: Dimension, value: string, backend: string,
                  windows: seq<PenaltyWindow>, n: nat, now: real)
    requires ValidWindows(windows) && 0 < n <= |windows|
    ensures log + Piece(redis, r, d, value, backend, windows, n, now)
            == log + Piece(redis, r, d, value, backend, windows, n - 1, now)
               + [WindowHit(redis, r, d, value, backend, windows, n, now)]
  {
  }

  lemma {:induction false} PieceSteps(log: seq<Hit>, redis: Redis, r: nat, d: Dimension, value: string,
                                      backend: string, windows: seq<PenaltyWindow>, n: nat, now: real, other: nat)
    requires ValidWindows(windows) && n <= |windows|
    ensures Steps(log + Piece(redis, r, d, value, backend, windows, n, now), other)
            == Steps(log, other) + if other == r then WindowCounters(d, value, backend, windows, n) else []
    decreases n
  {
    if n == 0 {
      assert log + [] == log;
    } else {
      PieceSteps(log, redis, r, d, value, backend, windows, n - 1, now, other);
      PieceSnoc(log, redis, r, d, value, backend, windows, n, now);
      OneMoreStep(log + Piece(redis, r, d, value, backend, windows, n - 1, now),
                  WindowHit(redis, r, d, value, backend, windows, n, now), other);
    }
  }

  /** One window's read is that hit. */
  lemma NextRead(log: seq<Hit>, redis: Redis, r: nat, d: Dimension, value: string,
                 backend: string, windows: seq<PenaltyWindow>, n: nat, now: real)
    requires ValidWindows(windows) && 0 < n <= |windows|
    requires StoreAfter(log) == ReadCounts(redis, d, value, backend, windows, n - 1, now).1.cells
    requires ReadCounts(redis, d, value, backend, windows, n, now).0.Ok?
    ensures var h := WindowHit(redis, r, d, value, backend, windows, n, now);
            var (counts, after) := ReadCounts(redis, d, value, backend, windows, n, now);
            var before := ReadCounts(redis, d, value, backend, windows, n - 1, now).0;
            && StoreAfter(log + [h]) == after.cells && LastRead(log + [h]).Ok? && before.Ok?
            && counts.value == before.value + [LastRead(log + [h]).value]
  {
    OneMoreHit(log, WindowHit(redis, r, d, value, backend, windows, n, now));
  }

  /** After `n` reads the log and the store agree. */
  ghost predicate PieceDone(log: seq<Hit>, redis: Redis, r: nat, d: Dimension, value: string,
                            backend: string, windows: seq<PenaltyWindow>, n: nat, now: real, e: Dimension)
    requires ValidWindows(windows) && n <= |windows|
  {
    match ReadCounts(redis, d, value, backend, windows, n, now).0
    case Err(_) => true
    case Ok(counts) =>
      var all := log + Piece(redis, r, d, value, backend, windows, n, now);
      && StoreAfter(all) == ReadCounts(redis, d, value, backend, windows, n, now).1.cells
      && Reads(all, r, e) == Reads(log, r, e) + if e == d then counts else []
  }

  lemma Regroup<T>(a: seq<T>, b: seq<T>, c: seq<T>)
    ensures a + b + c == a + (b + c)
  {
  }

  lemma NextPiece(log: seq<Hit>, redis: Redis, r: nat, d: Dimension, value: string,
                  backend: string, windows: seq<PenaltyWindow>, n: nat, now: real, e: Dimension)
    requires ValidWindows(windows) && 0 < n <= |windows|
    requires PieceDone(log, redis, r, d, value, backend, windows, n - 1, now, e)
    ensures PieceDone(log, redis, r, d, value, backend, windows, n, now, e)
  {
    var counts := ReadCounts(redis, d, value, backend, windows, n, now).0;
    if counts.Ok? {
      var before := log + Piece(redis, r, d, value, backend, windows, n - 1, now);
      var h := WindowHit(redis, r, d, value, backend, windows, n, now);
      NextRead(before, redis, r, d, value, backend, windows, n, now);
      OneMoreRead(before, h, e);
      PieceSnoc(log, redis, r, d, value, backend, windows, n, now);
      Regroup(Reads(log, r, e), ReadCounts(redis, d, value, backend, windows, n - 1, now).0.value,
              [LastRead(before + [h]).value]);
      Regroup(Reads(log, r, e), [], []);
    }
  }

  lemma NoPieceYet(log: seq<Hit>, redis: Redis, r: nat, d: Dimension, value: string,
                   backend: string, windows: seq<PenaltyWindow>, now: real, e: Dimension)
    requires ValidWindows(windows) && redis.cells == StoreAfter(log)
    ensures PieceDone(log, redis, r, d, value, backend, windows, 0, now, e)
  {
    assert log + [] == log && Reads(log, r, e) + [] == Reads(log, r, e);
  }

  lemma PieceIsCharge(log: seq<Hit>, redis: Redis, r: nat, d: Dimension, value: string,
                      backend: string, windows: seq<PenaltyWindow>, n: nat, now: real, e: Dimension)
    requires ValidWindows(windows) && n <= |windows| && redis.cells == StoreAfter(log)
    ensures PieceDone(log, redis, r, d, value, backend, windows, n, now, e)
  {
    NoPieceYet(log, redis, r, d, value, backend, windows, now, e);
    for k := 0 to n
      invariant PieceDone(log, redis, r, d, value, backend, windows, k, now, e)
    {
      NextPiece(log, redis, r, d, value, backend, windows, k + 1, now, e);
    }
  }

  function DimensionPiece(redis: Redis, r: nat, request: Request, config: ScoringConfig, d: Dimension, now: real)
    : seq<Hit>
    requires Validated(config)
  {
    match ValueOf(request, d)
    case None => []
    case Some(value) =>
      Piece(redis, r, d, value, request.backend, config.penalties[d], |config.penalties[d]|, now)
  }

  /** The hits of a request scored in one piece. */
  function Whole(redis: Redis, r: nat, request: Request, config: ScoringConfig, n: nat, now: real): seq<Hit>
    requires Validated(config) && n <= |DIMENSIONS|
  {
    if n == 0 then []
    else
      Whole(redis, r, request, config, n - 1, now)
      + DimensionPiece(ChargeAll(redis, request, config, n - 1, now).1, r, request, config, DIMENSIONS[n - 1], now)
  }

  lemma WholeSnoc(log: seq<Hit>, redis: Redis, r: nat, request: Request, config: ScoringConfig, n: nat, now: real)
    requires Validated(config) && 0 < n <= |DIMENSIONS|
    ensures log + Whole(redis, r, request, config, n, now)
            == log + Whole(redis, r, request, config, n - 1, now)
               + DimensionPiece(ChargeAll(redis, request, config, n - 1, now).1, r, request, config,
                                DIMENSIONS[n - 1], now)
  {
    Regroup(log, Whole(redis, r, request, config, n - 1, now),
            DimensionPiece(ChargeAll(redis, request, config, n - 1, now).1, r, request, config,
                           DIMENSIONS[n - 1], now));
  }

  lemma DimensionSteps(log: seq<Hit>, redis: Redis, r: nat, request: Request, config: ScoringConfig,
                       d: Dimension, now: real, other: nat)
    requires Validated(config)
    ensures Steps(log + DimensionPiece(redis, r, request, config, d, now), other)
            == Steps(log, other) + if other == r then DimensionCounters(request, config, d) else []
  {
    match ValueOf(request, d)
    case None => assert log + [] == log;
    case Some(value) =>
      PieceSteps(log, redis, r, d, value, request.backend, config.penalties[d], |config.penalties[d]|, now, other);
  }

  ghost predicate WholeStepped(log: seq<Hit>, redis: Redis, r: nat, request: Request, config: ScoringConfig,
                               n: nat, now: real, other: nat)
    requires Validated(config) && n <= |DIMENSIONS|
  {
    Steps(log + Whole(redis, r, request, config, n, now), other)
    == Steps(log, other) + if other == r then Program(request, config, n) else []
  }

  lemma NextWholeSteps(log: seq<Hit>, redis: Redis, r: nat, request: Request,
                       config: ScoringConfig, n: nat, now: real, other: nat)
    requires Validated(config) && 0 < n <= |DIMENSIONS|
    requires WholeStepped(log, redis, r, request, config, n - 1, now, other)
    ensures WholeStepped(log, redis, r, request, config, n, now, other)
  {
    WholeSnoc(log, redis, r, request, config, n, now);
    DimensionSteps(log + Whole(redis, r, request, config, n - 1, now),
                   ChargeAll(redis, request, config, n - 1, now).1, r, request, config,
                   DIMENSIONS[n - 1], now, other);
    if other == r {
      Regroup(Steps(log, r), Program(request, config, n - 1),
              DimensionCounters(request, config, DIMENSIONS[n - 1]));
    }
  }

  lemma WholeSteps(log: seq<Hit>, redis: Redis, r: nat, request: Request,
                   config: ScoringConfig, n: nat, now: real, other: nat)
    requires Validated(config) && n <= |DIMENSIONS|
    ensures WholeStepped(log, redis, r, request, config, n, now, other)
  {
    assert log + [] == log;
    for k := 0 to n
      invariant WholeStepped(log, redis, r, request, config, k, now, other)
    {
      NextWholeSteps(log, redis, r, request, config, k + 1, now, other);
    }
  }

  ghost predicate DimensionDone(log: seq<Hit>, redis: Redis, r: nat, request: Request, config: ScoringConfig,
                                d: Dimension, now: real, e: Dimension)
    requires Validated(config)
  {
    match ChargeDimension(redis, request, config, d, now).0
    case Err(_) => true
    case Ok(counts) =>
      var all := log + DimensionPiece(redis, r, request, config, d, now);
      && StoreAfter(all) == ChargeDimension(redis, request, config, d, now).1.cells
      && Reads(all, r, e) == Reads(log, r, e) + if e == d then counts else []
  }

  lemma DimensionIsCharge(log: seq<Hit>, redis: Redis, r: nat, request: Request,
                          config: ScoringConfig, d: Dimension, now: real, e: Dimension)
    requires Validated(config) && redis.cells == StoreAfter(log)
    ensures DimensionDone(log, redis, r, request, config, d, now, e)
  {
    match ValueOf(request, d)
    case None => assert log + [] == log && Reads(log, r, e) + [] == Reads(log, r, e);
    case Some(value) =>
      PieceIsCharge(log, redis, r, d, value, request.backend, config.penalties[d], |config.penalties[d]|, now, e);
  }

  /** After `n` dimensions the log, the store and the counts agree. */
  ghost predicate WholeDone(log: seq<Hit>, redis: Redis, r: nat, request: Request, config: ScoringConfig,
                            n: nat, now: real, e: Dimension)
    requires Validated(config) && n <= |DIMENSIONS|
  {
    match ChargeAll(redis, request, config, n, now).0
    case Err(_) => true
    case Ok(counts) =>
      var all := log + Whole(redis, r, request, config, n, now);
      && StoreAfter(all) == ChargeAll(redis, request, config, n, now).1.cells
      && Reads(all, r, e) == Reads(log, r, e) + if e in counts then counts[e] else []
  }

  /** One more dimension's counts among those read of a given one. */
  lemma OneMoreDimension(before: seq<nat>, after: seq<nat>, counts: Counts, d: Dimension, own: seq<nat>, e: Dimension)
    requires d !in counts && after == before + if e in counts then counts[e] else []
    ensures after + (if e == d then own else [])
            == before + if e in counts[d := own] then counts[d := own][e] else []
  {
  }

  lemma NextWhole(log: seq<Hit>, redis: Redis, r: nat, request: Request, config: ScoringConfig,
                  n: nat, now: real, e: Dimension)
    requires Validated(config) && 0 < n <= |DIMENSIONS|
    requires WholeDone(log, redis, r, request, config, n - 1, now, e)
    ensures WholeDone(log, redis, r, request, config, n, now, e)
  {
    if ChargeAll(redis, request, config, n, now).0.Ok? {
      R.ChargeAllStep(redis, request, config, n - 1, now);
      var d, before := DIMENSIONS[n - 1], log + Whole(redis, r, request, config, n - 1, now);
      var (counts, store) := ChargeAll(redis, request, config, n - 1, now);
      DimensionIsCharge(before, store, r, request, config, d, now, e);
      WholeSnoc(log, redis, r, request, config, n, now);
      CountsSoFar(redis, request, config, n - 1, now);
      NewDimension(n - 1);
      OneMoreDimension(Reads(log, r, e), Reads(before, r, e), counts.value, d,
                       ChargeDimension(store, request, config, d, now).0.value, e);
    }
  }

  lemma NothingWholeYet(log: seq<Hit>, redis: Redis, r: nat, request: Request,
                        config: ScoringConfig, now: real, e: Dimension)
    requires Validated(config) && redis.cells == StoreAfter(log)
    ensures WholeDone(log, redis, r, request, config, 0, now, e)
  {
    assert log + [] == log && Reads(log, r, e) + [] == Reads(log, r, e);
  }

  lemma WholeIsCharge(log: seq<Hit>, redis: Redis, r: nat, request: Request,
                      config: ScoringConfig, n: nat, now: real, e: Dimension)
    requires Validated(config) && n <= |DIMENSIONS| && redis.cells == StoreAfter(log)
    ensures WholeDone(log, redis, r, request, config, n, now, e)
  {
    NothingWholeYet(log, redis, r, request, config, now, e);
    for k := 0 to n
      invariant WholeDone(log, redis, r, request, config, k, now, e)
    {
      NextWhole(log, redis, r, request, config, k + 1, now, e);
    }
  }

  lemma {:induction false} PieceOwner(redis: Redis, r: nat, d: Dimension, value: string, backend: string,
                                      windows: seq<PenaltyWindow>, n: nat, now: real)
    requires ValidWindows(windows) && n <= |windows|
    ensures forall h :: h in Piece(redis, r, d, value, backend, windows, n, now) ==> h.request == r
    decreases n
  {
    if n > 0 { PieceOwner(redis, r, d, value, backend, windows, n - 1, now); }
  }

  lemma {:induction false} WholeOwner(redis: Redis, r: nat, request: Request, config: ScoringConfig, n: nat, now: real)
    requires Validated(config) && n <= |DIMENSIONS|
    ensures forall h :: h in Whole(redis, r, request, config, n, now) ==> h.request == r
    decreases n
  {
    if n > 0 {
      WholeOwner(redis, r, request, config, n - 1, now);
      var d := DIMENSIONS[n - 1];
      if ValueOf(request, d).Some? {
        PieceOwner(ChargeAll(redis, request, config, n - 1, now).1, r, d, ValueOf(request, d).value,
                   request.backend, config.penalties[d], |config.penalties[d]|, now);
      }
    }
  }

  lemma StaysInterleaved(log: seq<Hit>, requests: seq<Request>, configs: R.Configs,
                         redis: Redis, r: nat, now: real)
    requires Interleaved(log, requests, configs) && r < |requests| && Steps(log, r) == []
    ensures var config := configs[requests[r].backend];
            var all := log + Whole(redis, r, requests[r], config, |DIMENSIONS|, now);
            Interleaved(all, requests, configs) && Steps(all, r) == Program(requests[r], config, |DIMENSIONS|)
  {
    var config := configs[requests[r].backend];
    var own := Whole(redis, r, requests[r], config, |DIMENSIONS|, now);
    WholeOwner(redis, r, requests[r], config, |DIMENSIONS|, now);
    forall j | 0 <= j < |log + own| ensures (log + own)[j].request < |requests| {
      if j >= |log| { assert own[j - |log|] in own; }
    }
    forall other | 0 <= other < |requests|
      ensures Steps(log + own, other)
              <= Program(requests[other], configs[requests[other].backend], |DIMENSIONS|)
    {
      WholeSteps(log, redis, r, requests[r], config, |DIMENSIONS|, now, other);
    }
    WholeSteps(log, redis, r, requests[r], config, |DIMENSIONS|, now, r);
  }

  lemma OneDimensionRead(log: seq<Hit>, redis: Redis, r: nat, request: Request,
                         config: ScoringConfig, now: real, e: Dimension)
    requires Validated(config) && Steps(log, r) == [] && redis.cells == StoreAfter(log)
    requires ChargeAll(redis, request, config, |DIMENSIONS|, now).0.Ok?
    ensures var (counts, after) := ChargeAll(redis, request, config, |DIMENSIONS|, now);
            var all := log + Whole(redis, r, request, config, |DIMENSIONS|, now);
            && StoreAfter(all) == after.cells
            && e in counts.value && Reads(all, r, e) == counts.value[e]
  {
    EveryDimensionListed(e);
    assert DIMENSIONS[..|DIMENSIONS|] == DIMENSIONS;
    ReadsPerStep(log, r, e);
    CountsSoFar(redis, request, config, |DIMENSIONS|, now);
    WholeIsCharge(log, redis, r, request, config, |DIMENSIONS|, now, e);
  }

  lemma SameCounts(log: seq<Hit>, r: nat, counts: Counts)
    requires forall d :: d in counts <==> d in DIMENSIONS
    requires forall d :: d in counts ==> Reads(log, r, d) == counts[d]
    ensures CountsRead(log, r) == counts
  {
  }

  /** Scoring a request in one piece is one of the interleavings: whatever came before, it leaves the store
      as its hits do, and the counts it is scored on are the ones those hits read. */
  lemma ScoredInOnePiece(log: seq<Hit>, requests: seq<Request>, configs: R.Configs,
                         redis: Redis, r: nat, now: real)
    requires Interleaved(log, requests, configs) && r < |requests| && Steps(log, r) == []
    requires redis.cells == StoreAfter(log)
    requires ChargeAll(redis, requests[r], configs[requests[r].backend], |DIMENSIONS|, now).0.Ok?
    ensures var config := configs[requests[r].backend];
            var (counts, after) := ChargeAll(redis, requests[r], config, |DIMENSIONS|, now);
            var all := log + Whole(redis, r, requests[r], config, |DIMENSIONS|, now);
            && Interleaved(all, requests, configs)
            && Steps(all, r) == Program(requests[r], config, |DIMENSIONS|)
            && StoreAfter(all) == after.cells && CountsRead(all, r) == counts.value
  {
    var config := configs[requests[r].backend];
    var all := log + Whole(redis, r, requests[r], config, |DIMENSIONS|, now);
    var counts := ChargeAll(redis, requests[r], config, |DIMENSIONS|, now).0.value;
    StaysInterleaved(log, requests, configs, redis, r, now);
    OneDimensionRead(log, redis, r, requests[r], config, now, Ip);
    forall e: Dimension ensures e in counts && e in DIMENSIONS && Reads(all, r, e) == counts[e] {
      EveryDimensionListed(e);
      OneDimensionRead(log, redis, r, requests[r], config, now, e);
    }
    SameCounts(all, r, counts);
  }
}
