/**
 * The `Frontier` class of frontier.py: a Mercator-style frontier whose
 * fields are updated in place. Each method is proved to perform a
 * transition of `FrontierSpec`, where the invariants of those transitions
 * are proved: `Enqueue` and `Insert` perform `Enqueue`, `Dequeue` performs
 * `Dequeue`, `Serve` performs `AfterGet`, `BackRoute` performs `Refill`,
 * `FrontRoute` performs `FrontRoute` and `HeapReplace` performs `Replace`.
 */
module Frontier {
  import opened Wrappers
  import opened Hostname
  import HeapQ
  import opened FrontierSpec

  /** `curr_sum = 1; for num in range(n): append(curr_sum + num); curr_sum += num`. */
  method BiasWeights(n: nat) returns (w: seq<int>)
    ensures w == Weights(n)
  {
    var currSum := 1;
    w := [];
    for num := 0 to n
      invariant |w| == num
      invariant currSum == 1 + num * (num - 1) / 2
      invariant forall k :: 0 <= k < num ==> w[k] == BiasWeight(k)
    {
      assert currSum + num == BiasWeight(num) by {
        assert num * (num + 1) == num * (num - 1) + 2 * num;
      }
      w := w + [currSum + num];
      assert (num + 1) * num == num * (num - 1) + 2 * num;
      currSum := currSum + num;
    }
  }

  /** `time.time() + fetch_times.get(host, mean) * 10`, with `clock` as the time read. */
  method NextVisitTime(ft: map<Host, real>, clock: real, host: Host) returns (due: real)
    requires |ft| > 0
    ensures due == NextVisit(ft, clock, host)
  {
    var mean := MeanFetchTime(ft);
    var delay := if host in ft then ft[host] else mean;
    due := clock + delay * 10.0;
  }

  /** The `for idx, (_, h) in enumerate(heap)` scan of `__heap_replace`: the index of the host's entry, or `|heap|`. */
  method ScanHost(heap: seq<HeapQ.Entry>, host: Host) returns (idx: nat)
    ensures idx <= |heap|
    ensures FindHost(heap, host) == if idx < |heap| then Some(idx) else None
  {
    idx := 0;
    while idx < |heap| && heap[idx].host != host
      invariant idx <= |heap|
      invariant forall j :: 0 <= j < idx ==> heap[j].host != host
    {
      idx := idx + 1;
    }
  }

  class Frontier {
    var size: int
    const interval: nat
    var front: seq<seq<Url>>
    const capacity: nat
    var back: map<Host, seq<Url>>
    var heap: seq<HeapQ.Entry>
    const weights: seq<int>
    /** `urlsplit`, which `resolve_hostname` calls. */
    const split: string -> Parts

    ghost function State(): FrontierSpec.State
      reads this
    {
      FrontierSpec.State(size, interval, front, capacity, back, heap, weights)
    }

    ghost predicate Valid()
      reads this
    {
      Inv(State(), split)
    }

    /** `Frontier(num_back_queues, num_front_queues)`, for a bucket count that divides 100. */
    constructor(numBack: nat, numFront: nat, split: string -> Parts)
      requires 1 <= numFront && 100 % numFront == 0
      ensures Valid() && State() == Initial(numBack, numFront) && this.split == split
    {
      size := 0;
      interval := 100 / numFront;
      front := seq(numFront, _ => []);
      capacity := numBack;
      back := map[];
      heap := [];
      var w := BiasWeights(numFront);
      weights := w;
      this.split := split;
      new;
      InitialInv(numBack, numFront, split);
    }

    /** `len(frontier)`: the number of URLs enqueued and not yet dequeued. */
    function Len(): (n: int)
      reads this
      ensures Valid() ==> n == |Held(State())|
    {
      size
    }

    /**
     * `enqueue(url, priority, fetch_times)` at clock `now`. It raises only
     * where `FrontierSpec.Enqueue` does, and keeps the invariant.
     */
    method Enqueue(url: Url, priority: real, ft: map<Host, real>, now: real) returns (r: Result<(), Error>)
      requires interval > 0 && |ft| > 0
      modifies this
      ensures old(Valid()) ==> Valid()
      ensures match FrontierSpec.Enqueue(old(State()), url, priority, ft, now, split)
              case Ok(s') => r.Ok? && State() == s'
              case Err(e) => r == Err(e) && State() == old(State())
    {
      ghost var s0 := State();
      r := Insert(url, priority, ft, now);
      if Inv(s0, split) {
        EnqueueKeepsInv(s0, url, priority, ft, now, split);
      }
    }

    /** The body of `enqueue`: the back-queue path while slots are free, the bucket path after. */
    method Insert(url: Url, priority: real, ft: map<Host, real>, now: real) returns (r: Result<(), Error>)
      requires interval > 0 && |ft| > 0
      modifies this
      ensures match FrontierSpec.Enqueue(old(State()), url, priority, ft, now, split)
              case Ok(s') => r.Ok? && State() == s'
              case Err(e) => r == Err(e) && State() == old(State())
    {
      ghost var s0 := State();
      ghost var res := FrontierSpec.Enqueue(s0, url, priority, ft, now, split);
      if |back| < capacity {
        var host := HostOf(split, url);
        var q := if host in back then back[host] else [];
        back := back[host := q + [url]];
        var due := NextVisitTime(ft, now, host);
        HeapReplace(due, host);
        size := size + 1;
        assert res.value == s0.(size := s0.size + 1, back := back, heap := heap);
      } else {
        var ok := FrontRoute(url, priority);
        if !ok {
          assert res == Err(NoSuchBucket);
          return Err(NoSuchBucket);
        }
        size := size + 1;
        assert res.value == s0.(size := s0.size + 1, front := front);
      }
      r := Ok(());
    }

    /** `dequeue(fetch_times)` at clock `now`, with `pick` as the source of random draws. */
    method Dequeue(ft: map<Host, real>, now: real, pick: nat -> nat) returns (r: Result<Url, Error>)
      requires Valid() && |ft| > 0
      modifies this
      ensures Valid()
      ensures (r, State()) == FrontierSpec.Dequeue(old(State()), ft, now, pick, split)
    {
      ghost var s0 := State();
      DequeueKeepsInv(s0, ft, now, pick, split);
      if size == 0 {
        return Err(EmptyFrontier);
      }
      if heap == [] {
        return Err(EmptyHeap);
      }
      DequeueServed(s0, ft, now, pick, split);
      ghost var rf := AfterGet(s0, pick, split);
      var url, waitTime, next := Serve(pick);
      if next.Some? {
        var due := NextVisitTime(ft, Max(now, waitTime), next.value);
        HeapReplace(due, next.value);
      }
      size := size - 1;
      r := Ok(url);
      assert State() == Served(s0, rf, ft, now);
    }

    /**
     * The first half of `dequeue`: `heappop`, then `q.get()` on the popped
     * host's queue, and `__back_route` when that drains it.
     */
    method Serve(pick: nat -> nat) returns (url: Url, waitTime: real, next: Option<Host>)
      requires heap != [] && heap[0].host in back && back[heap[0].host] != []
      modifies this
      ensures url == old(back)[old(heap)[0].host][0] && waitTime == old(heap)[0].time
      ensures Refilled(front, back, next) == AfterGet(old(State()), pick, split)
      ensures heap == HeapQ.Pop(old(heap)).1 && size == old(size)
    {
      var popped := HeapQ.Pop(heap);
      waitTime := popped.0.time;
      var host := popped.0.host;
      heap := popped.1;
      var q := back[host];
      url := q[0];
      back := back[host := q[1..]];
      next := Some(host);
      if q[1..] == [] {
        next := BackRoute(host, pick);
      }
    }

    /** `__back_route(q, ourHost)` for the drained queue of `ourHost`. */
    method BackRoute(ourHost: Host, pick: nat -> nat) returns (result: Option<Host>)
      requires ourHost in back && back[ourHost] == []
      modifies this
      ensures Refilled(front, back, result) == Refill(old(front), old(back), ourHost, pick, 0, split)
      ensures size == old(size) && heap == old(heap)
    {
      var draw := 0;
      while NonEmptyBuckets(front) != []
        invariant ourHost in back && back[ourHost] == []
        invariant Refill(front, back, ourHost, pick, draw, split) == Refill(old(front), old(back), ourHost, pick, 0, split)
        invariant size == old(size) && heap == old(heap)
        decreases |FrontContents(front)|
      {
        var next := RouteOne(ourHost, pick, draw);
        if next.Some? {
          return next;
        }
        draw := draw + 1;
      }
      return None;
    }

    /**
     * One pass of the loop of `__back_route`: draw a bucket, take its head,
     * and either give the queue a host (`Some`) or pass the URL on to the
     * queue of its host and go on (`None`).
     */
    method RouteOne(ourHost: Host, pick: nat -> nat, draw: nat) returns (next: Option<Host>)
      requires ourHost in back && back[ourHost] == [] && NonEmptyBuckets(front) != []
      modifies this
      ensures next.Some? ==> Refilled(front, back, next) == Refill(old(front), old(back), ourHost, pick, draw, split)
      ensures next.None? ==> && ourHost in back && back[ourHost] == []
                             && Refill(front, back, ourHost, pick, draw + 1, split)
                                == Refill(old(front), old(back), ourHost, pick, draw, split)
                             && |FrontContents(front)| < |FrontContents(old(front))|
      ensures size == old(size) && heap == old(heap)
    {
      var ne := NonEmptyBuckets(front);
      var b := ne[pick(draw) % |ne|];
      var cand := front[b][0];
      TakeHead(front, b);
      front := front[b := front[b][1..]];
      var candHost := HostOf(split, cand);
      if candHost == ourHost {
        back := back[ourHost := [cand]];
        next := Some(ourHost);
      } else if candHost in back {
        back := back[candHost := back[candHost] + [cand]];
        next := None;
      } else {
        back := (back - {ourHost})[candHost := [cand]];
        next := Some(candHost);
      }
    }

    /** `__front_route(url, priority)`; `false` where the source raises `IndexError`. */
    method FrontRoute(url: Url, priority: real) returns (ok: bool)
      requires interval > 0
      modifies this
      ensures match FrontierSpec.FrontRoute(old(front), interval, url, priority)
              case None => !ok && front == old(front)
              case Some(f) => ok && front == f
      ensures size == old(size) && back == old(back) && heap == old(heap)
    {
      var prior := BucketIndex(priority, interval);
      var n := |front|;
      if prior < -n || prior >= n {
        return false;
      }
      var j := if prior < 0 then prior + n else prior;
      front := front[j := front[j] + [url]];
      ok := true;
    }

    /** `__heap_replace(t, host)`: scan for the host's entry, drop it, restore the heap, push `(t, host)`. */
    method HeapReplace(t: real, host: Host)
      modifies this
      ensures heap == Replace(old(heap), t, host)
      ensures size == old(size) && front == old(front) && back == old(back)
    {
      var h := heap;
      var idx := ScanHost(h, host);
      if idx < |h| {
        h := HeapQ.Heapify(RemoveAt(h, idx));
      }
      heap := HeapQ.Push(h, HeapQ.Entry(t, host));
    }
  }
}
