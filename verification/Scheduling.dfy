/**
  `PriorityScheduler`: the priority order, the bounded queue and predictive rejection, with the
  accuracy of the wait it predicts.
 */
module Scheduling {
  import opened Sequences
  import opened Wrappers

  // ---------------------------------------------------------------- priority order

  /** A queued request; `id` stands for the request and its future. */
  datatype Entry = Entry(id: nat, score: int, arrival: real, ip: Option<string>)

  /** The heap orders entries by `(-score, arrival_time)`. */
  predicate Before(a: Entry, b: Entry) {
    a.score > b.score || (a.score == b.score && a.arrival < b.arrival)
  }

  predicate SameKey(a: Entry, b: Entry) { a.score == b.score && a.arrival == b.arrival }

  /** No two entries tie, so comparing them never reaches the request itself. */
  ghost predicate DistinctKeys(queue: set<Entry>) {
    forall a, b :: a in queue && b in queue && SameKey(a, b) ==> a == b
  }

  ghost predicate IsBest(queue: set<Entry>, e: Entry) {
    e in queue && forall o :: o in queue && o != e ==> Before(e, o)
  }

  lemma {:induction false} BestExists(queue: set<Entry>) returns (e: Entry)
    requires queue != {} && DistinctKeys(queue)
    ensures IsBest(queue, e)
    decreases |queue|
  {
    e :| e in queue;
    if queue != {e} {
      var rest := queue - {e};
      assert rest != {};
      var best := BestExists(rest);
      BestOfTwo(queue, e, best);
      if Before(best, e) { e := best; }
    }
  }

  /** Distinct keys are totally ordered. */
  lemma Compare(queue: set<Entry>, a: Entry, b: Entry)
    requires DistinctKeys(queue) && a in queue && b in queue && a != b
    ensures Before(a, b) <==> !Before(b, a)
  {
    assert !SameKey(a, b);
  }

  lemma BestOfTwo(queue: set<Entry>, e: Entry, best: Entry)
    requires DistinctKeys(queue) && e in queue && IsBest(queue - {e}, best)
    ensures IsBest(queue, if Before(best, e) then best else e)
  {
    Compare(queue, e, best);
    forall o | o in queue && o != e && o != best
      ensures Before(best, o) && (Before(e, best) ==> Before(e, o))
    {
      assert o in queue - {e};
    }
  }

  /** What `PriorityQueue.get()` takes. */
  ghost function Best(queue: set<Entry>): (e: Entry)
    requires queue != {} && DistinctKeys(queue)
    ensures IsBest(queue, e)
  {
    assert exists e :: IsBest(queue, e) by { var e := BestExists(queue); }
    var e :| IsBest(queue, e);
    e
  }

  // ---------------------------------------------------------------- predictive rejection

  function EstimateWaitSeconds(depth: nat, limit: int, meanMs: Option<real>): real {
    if meanMs.None? || limit <= 0 then 0.0
    else depth as real * meanMs.value / limit as real / 1000.0
  }

  datatype Rejection = WaitExceeded | QueueFull

  /** `enqueue`: the projected wait is checked first, then the queue bound. */
  function Verdict(depth: nat, maxSize: nat, limit: int, meanMs: Option<real>, timeout: real): Option<Rejection> {
    if EstimateWaitSeconds(depth, limit, meanMs) > timeout then Some(WaitExceeded)
    else if depth >= maxSize then Some(QueueFull)
    else None
  }

  lemma MulMonotone(n: real, x: real, y: real)
    requires 0.0 < n
    ensures x < y ==> n * x < n * y
  {
  }

  lemma DivideGreater(x: real, d: real, y: real)
    requires d > 0.0
    ensures x / d > y <==> x > y * d
  {
    assert x == x / d * d;
    MulMonotone(d, y, x / d);
    MulMonotone(d, x / d, y);
  }

  /** The exact boundary, without divisions: a request is rejected for its wait if and only if there are
      samples to go by and the work queued ahead exceeds what the slots serve within the timeout. So a
      cold start and an empty queue always fail open; and a full queue is reported only otherwise. */
  lemma WaitRejectionIff(depth: nat, maxSize: nat, limit: int, meanMs: Option<real>, timeout: real)
    requires timeout > 0.0
    ensures Verdict(depth, maxSize, limit, meanMs, timeout) == Some(WaitExceeded)
            <==> meanMs.Some? && limit > 0
                 && depth as real * meanMs.value > timeout * 1000.0 * limit as real
    ensures Verdict(depth, maxSize, limit, meanMs, timeout) == Some(QueueFull)
            <==> depth >= maxSize && Verdict(depth, depth + 1, limit, meanMs, timeout).None?
    ensures meanMs.None? || depth == 0 ==> Verdict(depth, maxSize, limit, meanMs, timeout) != Some(WaitExceeded)
  {
    if meanMs.Some? && limit > 0 {
      var work := depth as real * meanMs.value;
      DivideGreater(work / limit as real, 1000.0, timeout);
      DivideGreater(work, limit as real, timeout * 1000.0);
    }
  }

  // ---------------------------------------------------------------- accuracy of the projection

  /** Slots as the times (in ms) at which they next come free. */
  ghost predicate Earliest(free: seq<real>, k: nat) {
    k < |free| && forall j :: 0 <= j < |free| ==> free[k] <= free[j]
  }

  lemma {:induction false} EarliestExists(free: seq<real>) returns (k: nat)
    requires free != []
    ensures Earliest(free, k)
  {
    if |free| == 1 {
      k := 0;
    } else {
      k := EarliestExists(free[..|free| - 1]);
      assert forall j :: 0 <= j < |free| - 1 ==> free[..|free| - 1][j] == free[j];
      if free[|free| - 1] < free[k] { k := |free| - 1; }
    }
  }

  ghost function EarliestSlot(free: seq<real>): (k: nat)
    requires free != []
    ensures Earliest(free, k)
  {
    assert exists k :: Earliest(free, k) by { var k := EarliestExists(free); }
    var k :| Earliest(free, k);
    k
  }

  /** First come, first served: `n` requests each take the earliest slot for `service` ms. */
  ghost function Served(free: seq<real>, service: real, n: nat): (r: seq<real>)
    requires free != []
    ensures |r| == |free|
  {
    if n == 0 then free
    else
      var before := Served(free, service, n - 1);
      before[EarliestSlot(before) := before[EarliestSlot(before)] + service]
  }

  /** When the request with `ahead` others before it starts. */
  ghost function StartMs(free: seq<real>, service: real, ahead: nat): real
    requires free != []
  {
    var before := Served(free, service, ahead);
    before[EarliestSlot(before)]
  }

  lemma {:induction false} TotalUpdate(s: seq<real>, k: nat, x: real)
    requires k < |s|
    ensures Total(s[k := x]) == Total(s) - s[k] + x
  {
    var front := s[..|s| - 1];
    if k == |s| - 1 {
      assert s[k := x][..|s| - 1] == front;
    } else {
      assert s[k := x][..|s| - 1] == front[k := x];
      TotalUpdate(front, k, x);
    }
  }

  /** `n` services one after the other; kept apart from multiplication. */
  function Work(n: nat, service: real): real {
    if n == 0 then 0.0 else Work(n - 1, service) + service
  }

  lemma Distribute(x: real, y: real)
    ensures (x + 1.0) * y == x * y + y
  {
  }

  lemma {:induction false} WorkIsProduct(n: nat, service: real)
    ensures Work(n, service) == n as real * service
  {
    if n > 0 {
      WorkIsProduct(n - 1, service);
      Distribute((n - 1) as real, service);
      assert n as real == (n - 1) as real + 1.0;
    }
  }

  lemma {:induction false} TotalBounds(s: seq<real>, lo: real, hi: real)
    requires forall i :: 0 <= i < |s| ==> lo <= s[i] <= hi
    ensures Work(|s|, lo) <= Total(s) <= Work(|s|, hi)
  {
    if s != [] { TotalBounds(s[..|s| - 1], lo, hi); }
  }

  ghost predicate Within(s: seq<real>, service: real) {
    forall i, j :: 0 <= i < |s| && 0 <= j < |s| ==> s[i] <= s[j] + service
  }

  /** Serving keeps the slots within one service time of each other. */
  lemma {:induction false} ServedWithin(free: seq<real>, service: real, n: nat)
    requires free != [] && service >= 0.0 && Within(free, service)
    ensures Within(Served(free, service, n), service)
  {
    if n > 0 {
      ServedWithin(free, service, n - 1);
      var before := Served(free, service, n - 1);
      WithinStep(before, service, EarliestSlot(before));
    }
  }

  /** Each request served adds one service time to the slots' total. */
  lemma {:induction false} ServedTotal(free: seq<real>, service: real, n: nat)
    requires free != []
    ensures Total(Served(free, service, n)) == Total(free) + Work(n, service)
  {
    if n > 0 {
      ServedTotal(free, service, n - 1);
      var before := Served(free, service, n - 1);
      TotalUpdate(before, EarliestSlot(before), before[EarliestSlot(before)] + service);
    }
  }

  lemma WithinStep(free: seq<real>, service: real, k: nat)
    requires Within(free, service) && service >= 0.0 && Earliest(free, k)
    ensures Within(free[k := free[k] + service], service)
  {
    var next := free[k := free[k] + service];
    forall i, j | 0 <= i < |next| && 0 <= j < |next|
      ensures next[i] <= next[j] + service
    {
      assert free[k] <= free[j] && free[i] <= free[k] + service && free[i] <= free[j] + service;
    }
  }

  /** The projected wait is right within one service time: with `limit` slots of constant service
      time, whatever is left of the requests in service, the request with `ahead` others before it
      starts within one service time of the projection. */
  lemma ProjectionWithinOneService(free: seq<real>, service: real, ahead: nat)
    requires free != [] && service >= 0.0
    requires forall i :: 0 <= i < |free| ==> 0.0 <= free[i] <= service
    ensures var projected := 1000.0 * EstimateWaitSeconds(ahead, |free|, Some(service));
            projected - service <= StartMs(free, service, ahead) <= projected + service
  {
    StartBounds(free, service, ahead);
    DivideWork(StartMs(free, service, ahead), service, Work(ahead, service), Total(free), |free|);
    WorkIsProduct(ahead, service);
    ProjectionMs(ahead, |free|, service);
  }

  lemma StartBounds(free: seq<real>, service: real, ahead: nat)
    requires free != [] && service >= 0.0
    requires forall i :: 0 <= i < |free| ==> 0.0 <= free[i] <= service
    ensures 0.0 <= Total(free) <= Work(|free|, service)
    ensures var start := StartMs(free, service, ahead);
            Work(|free|, start) <= Total(free) + Work(ahead, service) <= Work(|free|, start + service)
  {
    ServedWithin(free, service, ahead);
    ServedTotal(free, service, ahead);
    TotalBounds(free, 0.0, service);
    WorkIsProduct(|free|, 0.0);
    var slots := Served(free, service, ahead);
    TotalBounds(slots, slots[EarliestSlot(slots)], slots[EarliestSlot(slots)] + service);
  }

  lemma ProjectionMs(ahead: nat, limit: nat, service: real)
    requires 0 < limit
    ensures 1000.0 * EstimateWaitSeconds(ahead, limit, Some(service)) == ahead as real * service / limit as real
  {
  }

  lemma DivideWork(start: real, service: real, work: real, residual: real, limit: nat)
    requires 0 < limit && 0.0 <= residual <= Work(limit, service)
    requires Work(limit, start) <= residual + work <= Work(limit, start + service)
    ensures work / limit as real - service <= start <= work / limit as real + service
  {
    WorkIsProduct(limit, service);
    WorkIsProduct(limit, start);
    WorkIsProduct(limit, start + service);
    DivideBounds(start, service, work, residual, limit);
  }

  lemma DivideBounds(start: real, service: real, work: real, residual: real, limit: nat)
    requires 0 < limit && 0.0 <= residual <= limit as real * service
    requires limit as real * start <= residual + work <= limit as real * (start + service)
    ensures work / limit as real - service <= start <= work / limit as real + service
  {
    var n, w := limit as real, work / limit as real;
    assert n * w == work;
    MulMonotone(n, w + service, start);
    MulMonotone(n, start + service, w);
  }

  // ---------------------------------------------------------------- the scheduler, in place

  class PriorityScheduler {
    const queueMaxSize: nat
    const queueTimeoutSeconds: real
    var queue: set<Entry>

    ghost predicate Valid()
      reads this
    {
      |queue| <= queueMaxSize && DistinctKeys(queue)
    }

    constructor (queueMaxSize: nat, queueTimeoutSeconds: real)
      requires 0 < queueMaxSize
      ensures Valid() && queue == {}
      ensures this.queueMaxSize == queueMaxSize && this.queueTimeoutSeconds == queueTimeoutSeconds
    {
      this.queueMaxSize, this.queueTimeoutSeconds := queueMaxSize, queueTimeoutSeconds;
      queue := {};
    }

    method Enqueue(entry: Entry, limit: int, meanMs: Option<real>) returns (rejection: Option<Rejection>)
      requires Valid()
      requires forall o :: o in queue ==> !SameKey(o, entry)
      modifies this
      ensures Valid()
      ensures rejection == Verdict(|old(queue)|, queueMaxSize, limit, meanMs, queueTimeoutSeconds)
      ensures queue == if rejection.None? then old(queue) + {entry} else old(queue)
    {
      var projectedWait := EstimateWaitSeconds(|queue|, limit, meanMs);
      if projectedWait > queueTimeoutSeconds {
        return Some(WaitExceeded);
      }
      if |queue| >= queueMaxSize {
        return Some(QueueFull);
      }
      queue := queue + {entry};
      rejection := None;
    }

    /** `await queue.get()`, once there is something to get. */
    method Pop() returns (e: Entry)
      requires Valid() && queue != {}
      modifies this
      ensures Valid()
      ensures e == Best(old(queue)) && queue == old(queue) - {e}
      ensures forall o :: o in old(queue) && o != e ==>
        o.score < e.score || (o.score == e.score && e.arrival < o.arrival)
    {
      e :| e in queue;
      var unseen := queue - {e};
      while unseen != {}
        invariant queue == old(queue) && unseen <= queue && e in queue && e !in unseen
        invariant forall o :: o in queue && o !in unseen && o != e ==> Before(e, o)
        decreases unseen
      {
        var o :| o in unseen;
        Compare(queue, o, e);
        unseen := unseen - {o};
        if Before(o, e) {
          e := o;
        }
      }
      BestUnique(queue, e, Best(queue));
      queue := queue - {e};
    }
  }

  lemma BestUnique(queue: set<Entry>, a: Entry, b: Entry)
    requires IsBest(queue, a) && IsBest(queue, b)
    ensures a == b
  {
  }
}
