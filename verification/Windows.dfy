/**
  Rolling windows over release outcomes (`LatencyWindow`, `RateWindow`).

  A window is a bounded deque: appending to a full one drops its oldest sample. The functions
  give the deque's value; the classes keep it up to date in place and are proved against the
  whole history of accepted samples.
 */
module Windows {
  import opened Sequences
  import opened Wrappers

  const WINDOW_SIZE: nat := 100
  const MIN_SAMPLES: nat := 10

  /** `deque(maxlen=capacity).append(x)`. */
  function Push<T>(window: seq<T>, x: T, capacity: nat): seq<T>
    requires 0 < capacity
  {
    var extended := window + [x];
    if |extended| > capacity then extended[1..] else extended
  }

  function LastN<T>(history: seq<T>, n: nat): seq<T> {
    if |history| <= n then history else history[|history| - n..]
  }

  /** Appending to a window of the last `n` samples gives the window of the longer history. */
  lemma PushKeepsLastN<T>(history: seq<T>, x: T, n: nat)
    requires 0 < n
    ensures Push(LastN(history, n), x, n) == LastN(history + [x], n)
  {
    var window := LastN(history, n);
    if |history| < n {
      assert window + [x] == history + [x];
    } else {
      assert window == history[|history| - n..];
      assert (window + [x])[1..] == (history + [x])[|history| + 1 - n..];
    }
  }

  /** The last `n`: a suffix, and all of it up to that length. */
  lemma LastNIsSuffix<T>(history: seq<T>, n: nat, k: nat)
    requires k < |LastN(history, n)|
    ensures |LastN(history, n)| == if |history| < n then |history| else n
    ensures LastN(history, n)[k] == history[|history| - |LastN(history, n)| + k]
  {
  }

  lemma QuotientTimes(x: real, d: real)
    requires d > 0.0
    ensures x / d * d == x
  {
  }

  // ---------------------------------------------------------------- mean and rate

  function Mean(samples: seq<real>): Option<real> {
    if |samples| < MIN_SAMPLES then None else Some(Total(samples) / |samples| as real)
  }

  function CountTrue(outcomes: seq<bool>): (n: nat)
    ensures n == multiset(outcomes)[true]
  {
    if outcomes == [] then 0
    else
      assert outcomes == outcomes[..|outcomes| - 1] + [outcomes[|outcomes| - 1]];
      CountTrue(outcomes[..|outcomes| - 1]) + if outcomes[|outcomes| - 1] then 1 else 0
  }

  function Rate(outcomes: seq<bool>): real {
    if outcomes == [] then 0.0 else CountTrue(outcomes) as real / |outcomes| as real
  }

  /** More than a share of the outcomes are true. */
  ghost predicate TooMany(outcomes: seq<bool>, share: real) {
    if outcomes == [] then share < 0.0 else multiset(outcomes)[true] as real > share * |outcomes| as real
  }

  /** The rate compares as the counts do, without dividing. */
  lemma RateExceedsIff(outcomes: seq<bool>, share: real)
    ensures Rate(outcomes) > share <==> TooMany(outcomes, share)
  {
    if outcomes != [] { QuotientExceeds(CountTrue(outcomes) as real, |outcomes| as real, share); }
  }

  lemma QuotientExceeds(x: real, d: real, y: real)
    requires d > 0.0
    ensures x / d > y <==> x > y * d
  {
    QuotientTimes(x, d);
    ProductOrder(x / d, y, d);
    ProductOrder(y, x / d, d);
  }

  lemma ProductOrder(x: real, y: real, d: real)
    requires d > 0.0
    ensures x < y ==> x * d < y * d
  {
  }

  // ---------------------------------------------------------------- 95th percentile

  function CountAbove(samples: seq<real>, threshold: real): (n: nat)
    ensures n <= |samples|
  {
    if samples == [] then 0
    else CountAbove(samples[1..], threshold) + if samples[0] > threshold then 1 else 0
  }

  function CountBelow(samples: seq<real>, threshold: real): (n: nat)
    ensures n <= |samples|
  {
    if samples == [] then 0
    else CountBelow(samples[1..], threshold) + if samples[0] < threshold then 1 else 0
  }

  function Insert(x: real, sorted: seq<real>): seq<real> {
    if sorted == [] || x <= sorted[0] then [x] + sorted
    else [sorted[0]] + Insert(x, sorted[1..])
  }

  function Sorted(samples: seq<real>): seq<real> {
    if samples == [] then [] else Insert(samples[0], Sorted(samples[1..]))
  }

  /** Index of the sample read as the 95th percentile, `int(0.95 * n)`. */
  function P95Index(n: nat): nat { 95 * n / 100 }

  ghost predicate Ascending(s: seq<real>) {
    forall i, j :: 0 <= i < j < |s| ==> s[i] <= s[j]
  }

  lemma {:induction false} InsertShape(x: real, s: seq<real>, threshold: real)
    requires Ascending(s)
    ensures |Insert(x, s)| == |s| + 1
    ensures Ascending(Insert(x, s))
    ensures forall y :: y in Insert(x, s) ==> y == x || y in s
    ensures CountAbove(Insert(x, s), threshold)
            == CountAbove(s, threshold) + if x > threshold then 1 else 0
    ensures CountBelow(Insert(x, s), threshold)
            == CountBelow(s, threshold) + if x < threshold then 1 else 0
  {
    if s == [] || x <= s[0] {
      assert ([x] + s)[1..] == s;
    } else {
      var rest := Insert(x, s[1..]);
      InsertShape(x, s[1..], threshold);
      assert ([s[0]] + rest)[1..] == rest;
      forall y | y in rest ensures s[0] <= y { }
    }
  }

  lemma {:induction false} SortedShape(s: seq<real>, threshold: real)
    ensures |Sorted(s)| == |s|
    ensures Ascending(Sorted(s))
    ensures CountAbove(Sorted(s), threshold) == CountAbove(s, threshold)
    ensures CountBelow(Sorted(s), threshold) == CountBelow(s, threshold)
  {
    if s != [] {
      SortedShape(s[1..], threshold);
      InsertShape(s[0], Sorted(s[1..]), threshold);
    }
  }

  /** In an ascending sequence, rank `k` exceeds a threshold exactly when all ranks from `k` on do. */
  lemma {:induction false} AscendingRank(s: seq<real>, k: nat, threshold: real)
    requires Ascending(s)
    requires k < |s|
    ensures s[k] > threshold <==> CountAbove(s, threshold) >= |s| - k
    ensures s[k] < threshold <==> CountBelow(s, threshold) > k
  {
    if k > 0 {
      AscendingRank(s[1..], k - 1, threshold);
      if s[0] > threshold { assert s[k] > threshold; }
      if s[0] >= threshold { NoneBelow(s, threshold); }
    } else {
      if s[0] > threshold { AllAbove(s, threshold); }
      if s[0] >= threshold { NoneBelow(s, threshold); }
    }
  }

  lemma {:induction false} NoneBelow(s: seq<real>, threshold: real)
    requires forall i :: 0 <= i < |s| ==> s[i] >= threshold
    ensures CountBelow(s, threshold) == 0
  {
    if s != [] { NoneBelow(s[1..], threshold); }
  }

  lemma {:induction false} AllAbove(s: seq<real>, threshold: real)
    requires forall i :: 0 <= i < |s| ==> s[i] > threshold
    ensures CountAbove(s, threshold) == |s|
  {
    if s != [] { AllAbove(s[1..], threshold); }
  }

  function P95(samples: seq<real>): Option<real> {
    if |samples| < MIN_SAMPLES then None
    else
      SortedShape(samples, 0.0);
      Some(Sorted(samples)[P95Index(|samples|)])
  }

  /** The percentile needs no sorting to be understood: it exceeds a threshold exactly when at least one
      sample in twenty does, in whatever order they arrived. */
  lemma P95ByCounting(samples: seq<real>, threshold: real)
    requires |samples| >= 10
    ensures P95(samples).Some?
    ensures P95(samples).value > threshold <==> 20 * CountAbove(samples, threshold) >= |samples|
  {
    SortedShape(samples, threshold);
    AscendingRank(Sorted(samples), P95Index(|samples|), threshold);
  }

  /** It lies below a threshold exactly when more than nineteen samples in twenty do. */
  lemma P95ByCountingBelow(samples: seq<real>, threshold: real)
    requires |samples| >= 10
    ensures P95(samples).Some?
    ensures P95(samples).value < threshold <==> 20 * CountBelow(samples, threshold) > 19 * |samples|
  {
    SortedShape(samples, threshold);
    AscendingRank(Sorted(samples), P95Index(|samples|), threshold);
  }

  // ---------------------------------------------------------------- the deques, in place

  class LatencyWindow {
    var samples: seq<real>
    /** Every sample ever accepted. */
    ghost var history: seq<real>

    ghost predicate Valid()
      reads this
    {
      samples == LastN(history, 100)
    }

    constructor ()
      ensures Valid() && history == []
    {
      samples, history := [], [];
    }

    method Record(latencyMs: real)
      requires Valid()
      modifies this
      ensures Valid() && history == old(history) + [latencyMs]
      ensures samples == Push(old(samples), latencyMs, WINDOW_SIZE)
    {
      PushKeepsLastN(history, latencyMs, WINDOW_SIZE);
      samples := samples + [latencyMs];
      if |samples| > WINDOW_SIZE {
        samples := samples[1..];
      }
      history := history + [latencyMs];
    }

    method ReadMean() returns (mean: Option<real>)
      ensures mean == Mean(samples)
      ensures mean.None? <==> |samples| < 10
      ensures mean.Some? ==> mean.value * |samples| as real == Total(samples)
    {
      if |samples| < MIN_SAMPLES {
        return None;
      }
      var total, i := 0.0, 0;
      while i < |samples|
        invariant 0 <= i <= |samples|
        invariant total == Total(samples[..i])
      {
        assert samples[..i + 1][..i] == samples[..i];
        total := total + samples[i];
        i := i + 1;
      }
      assert samples[..i] == samples;
      mean := Some(total / |samples| as real);
      QuotientTimes(total, |samples| as real);
    }

    method ReadP95() returns (p95: Option<real>)
      ensures p95 == P95(samples)
      ensures p95.None? <==> |samples| < 10
      ensures p95.Some? ==> forall threshold: real ::
        && (p95.value > threshold <==> 20 * CountAbove(samples, threshold) >= |samples|)
        && (p95.value < threshold <==> 20 * CountBelow(samples, threshold) > 19 * |samples|)
    {
      if |samples| < MIN_SAMPLES {
        return None;
      }
      SortedShape(samples, 0.0);
      p95 := Some(Sorted(samples)[P95Index(|samples|)]);
      forall threshold: real
        ensures p95.value > threshold <==> 20 * CountAbove(samples, threshold) >= |samples|
        ensures p95.value < threshold <==> 20 * CountBelow(samples, threshold) > 19 * |samples|
      {
        P95ByCounting(samples, threshold);
        P95ByCountingBelow(samples, threshold);
      }
    }
  }

  class RateWindow {
    var outcomes: seq<bool>
    ghost var history: seq<bool>

    ghost predicate Valid()
      reads this
    {
      outcomes == LastN(history, 100)
    }

    constructor ()
      ensures Valid() && history == []
    {
      outcomes, history := [], [];
    }

    method Record(matched: bool)
      requires Valid()
      modifies this
      ensures Valid() && history == old(history) + [matched]
      ensures outcomes == Push(old(outcomes), matched, WINDOW_SIZE)
    {
      PushKeepsLastN(history, matched, WINDOW_SIZE);
      outcomes := outcomes + [matched];
      if |outcomes| > WINDOW_SIZE {
        outcomes := outcomes[1..];
      }
      history := history + [matched];
    }

    method ReadRate() returns (rate: real)
      ensures rate == Rate(outcomes)
      ensures outcomes == [] ==> rate == 0.0
      ensures rate * |outcomes| as real == multiset(outcomes)[true] as real
    {
      if outcomes == [] {
        return 0.0;
      }
      var matched, i := 0, 0;
      while i < |outcomes|
        invariant 0 <= i <= |outcomes|
        invariant matched == CountTrue(outcomes[..i])
      {
        assert outcomes[..i + 1][..i] == outcomes[..i];
        matched := matched + if outcomes[i] then 1 else 0;
        i := i + 1;
      }
      assert outcomes[..i] == outcomes;
      rate := matched as real / |outcomes| as real;
      QuotientTimes(matched as real, |outcomes| as real);
    }
  }
}
