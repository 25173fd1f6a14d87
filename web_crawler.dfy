/**
 * The shared registry of `WebCrawler` (web_crawler.py:14-138): the table of
 * URLs seen by any worker, and the host-to-worker ownership table through
 * which every discovered URL is handed to the one frontier that owns its
 * host.
 */
module WebCrawler {
  import opened Wrappers
  import opened Hostname
  import FrontierSpec
  import Frontier

  type Url = string
  type Host = string

  // ---------------------------------------------------------------------
  // Deduplication (web_crawler.py:103-112)

  /**
   * `filter(lambda x: x not in seen, batch)`: the URLs of the batch not
   * seen before, in batch order. A URL repeated inside the batch is kept
   * every time, because the table is updated only afterwards.
   */
  function Unseen(batch: seq<Url>, seen: set<Url>): (r: seq<Url>)
    ensures |r| <= |batch|
    ensures forall u :: u in r <==> u in batch && u !in seen
  {
    if batch == [] then []
    else (if batch[0] in seen then [] else [batch[0]]) + Unseen(batch[1..], seen)
  }

  /** The members of a batch, as `set.update(batch)` adds them. */
  function Members(batch: seq<Url>): (r: set<Url>)
    ensures forall u :: u in r <==> u in batch
  {
    set u | u in batch
  }

  /** Each unseen URL is kept as many times as the batch holds it; seen ones are dropped. */
  lemma {:induction false} UnseenCount(batch: seq<Url>, seen: set<Url>, u: Url)
    ensures multiset(Unseen(batch, seen))[u] == if u in seen then 0 else multiset(batch)[u]
    decreases |batch|
  {
    if batch != [] {
      var head := if batch[0] in seen then [] else [batch[0]];
      UnseenCount(batch[1..], seen, u);
      assert batch == [batch[0]] + batch[1..];
      assert multiset(batch) == multiset{batch[0]} + multiset(batch[1..]);
      assert multiset(Unseen(batch, seen)) == multiset(head) + multiset(Unseen(batch[1..], seen));
    }
  }

  /** Filtering a concatenation filters each part, keeping their order. */
  lemma {:induction false} UnseenAppend(a: seq<Url>, b: seq<Url>, seen: set<Url>)
    ensures Unseen(a + b, seen) == Unseen(a, seen) + Unseen(b, seen)
    decreases |a|
  {
    if a != [] {
      assert (a + b)[0] == a[0];
      assert (a + b)[1..] == a[1..] + b;
      UnseenAppend(a[1..], b, seen);
      var head := if a[0] in seen then [] else [a[0]];
      calc {
        Unseen(a + b, seen);
        head + Unseen(a[1..] + b, seen);
        head + (Unseen(a[1..], seen) + Unseen(b, seen));
        (head + Unseen(a[1..], seen)) + Unseen(b, seen);
      }
    } else {
      assert a + b == b;
    }
  }

  /** Once a batch is recorded, none of its URLs passes the filter again. */
  lemma PassesOnce(b1: seq<Url>, b2: seq<Url>, seen: set<Url>, u: Url)
    requires u in Unseen(b1, seen)
    ensures u !in Unseen(b2, seen + Members(b1))
  {
  }

  /** Checking the same batch a second time returns nothing. */
  lemma RepeatPassesNone(batch: seq<Url>, seen: set<Url>)
    ensures Unseen(batch, seen + Members(batch)) == []
  {
    UnseenOfSeen(batch, seen + Members(batch));
  }

  /** A batch all of whose URLs are seen passes nothing. */
  lemma {:induction false} UnseenOfSeen(batch: seq<Url>, seen: set<Url>)
    requires forall u :: u in batch ==> u in seen
    ensures Unseen(batch, seen) == []
    decreases |batch|
  {
    if batch != [] {
      assert batch[0] in seen;
      assert forall u :: u in batch[1..] ==> u in batch;
      UnseenOfSeen(batch[1..], seen);
    }
  }

  // ---------------------------------------------------------------------
  // Dispatch (web_crawler.py:114-138)

  /** Ownership, the workers' frontiers, and the error an enqueue raised, if any. */
  datatype Synced = Synced(owners: map<Host, string>, states: map<string, FrontierSpec.State>,
                           failure: Option<FrontierSpec.Error>)

  /** Every named worker has a frontier `enqueue` accepts and a non-empty fetch-time table. */
  ghost predicate Ready(states: map<string, FrontierSpec.State>, fts: map<string, map<Host, real>>)
  {
    forall n :: n in states ==> n in fts && |fts[n]| > 0 && states[n].interval > 0
  }

  /** Every named worker's frontier satisfies the frontier invariant. */
  ghost predicate AllValid(states: map<string, FrontierSpec.State>, split: string -> Parts)
  {
    forall n {:trigger FrontierSpec.Inv(states[n], split)} :: n in states ==> FrontierSpec.Inv(states[n], split)
  }

  /** `host_to_thread` after a URL of `host` arrives from `sender`: an unowned host is claimed. */
  function Claim(owners: map<Host, string>, host: Host, sender: string): (r: map<Host, string>)
    ensures host in r && (host in owners ==> r == owners)
    ensures host !in owners ==> r[host] == sender && r.Keys == owners.Keys + {host}
    ensures forall h :: h in owners ==> h in r && r[h] == owners[h]
  {
    if host in owners then owners else owners[host := sender]
  }

  /** `enqueue` never changes the bucket width. */
  lemma EnqueueKeepsInterval(s: FrontierSpec.State, url: Url, priority: real, ft: map<Host, real>, now: real,
                             split: string -> Parts)
    requires s.interval > 0 && |ft| > 0
    ensures var r := FrontierSpec.Enqueue(s, url, priority, ft, now, split);
            r.Ok? ==> r.value.interval == s.interval
  {
  }

  /**
   * One iteration of the loop of `synchronize_frontiers`: the host of
   * `url` is claimed for `sender` unless owned, and `url` is enqueued in
   * the owner's frontier if a worker of that name is running.
   */
  ghost function Step(owners: map<Host, string>, states: map<string, FrontierSpec.State>,
                      fts: map<string, map<Host, real>>, url: Url, priority: real, sender: string,
                      clock: real, split: string -> Parts): (r: Synced)
    requires Ready(states, fts)
    ensures Ready(r.states, fts) && r.states.Keys == states.Keys
    ensures r.owners == Claim(owners, HostOf(split, url), sender)
  {
    var owners' := Claim(owners, HostOf(split, url), sender);
    var owner := owners'[HostOf(split, url)];
    if owner !in states then Synced(owners', states, None)
    else
      var e := FrontierSpec.Enqueue(states[owner], url, priority, fts[owner], clock, split);
      if e.Err? then Synced(owners', states, Some(e.error))
      else
        EnqueueKeepsInterval(states[owner], url, priority, fts[owner], clock, split);
        ReadyUpdate(states, fts, owner, e.value);
        Synced(owners', states[owner := e.value], None)
  }

  /** Replacing one frontier by one with a positive bucket width keeps `Ready` and the names. */
  lemma ReadyUpdate(states: map<string, FrontierSpec.State>, fts: map<string, map<Host, real>>,
                    n: string, s': FrontierSpec.State)
    requires Ready(states, fts) && n in states && s'.interval > 0
    ensures Ready(states[n := s'], fts) && states[n := s'].Keys == states.Keys
  {
  }

  /**
   * `synchronize_frontiers(urls, sender, priorities)` from position `from`
   * on, the k-th enqueue reading the clock `now(k)`. The first enqueue
   * that raises ends the batch.
   */
  ghost function Sync(owners: map<Host, string>, states: map<string, FrontierSpec.State>,
                      fts: map<string, map<Host, real>>, urls: seq<Url>, priorities: seq<real>, from: nat,
                      sender: string, now: nat -> real, split: string -> Parts): Synced
    requires from <= |urls| <= |priorities|
    requires Ready(states, fts)
    decreases |urls| - from
  {
    if from == |urls| then Synced(owners, states, None)
    else
      var t := Step(owners, states, fts, urls[from], priorities[from], sender, now(from), split);
      if t.failure.Some? then t
      else Sync(t.owners, t.states, fts, urls, priorities, from + 1, sender, now, split)
  }

  lemma AllValidUpdate(states: map<string, FrontierSpec.State>, n: string, s: FrontierSpec.State,
                        split: string -> Parts)
    requires AllValid(states, split) && FrontierSpec.Inv(s, split)
    ensures AllValid(states[n := s], split)
  {
  }

  lemma HeldUpdate(states: map<string, FrontierSpec.State>, owner: string, s: FrontierSpec.State, url: Url)
    requires owner in states
    requires FrontierSpec.Held(s) == FrontierSpec.Held(states[owner]) + multiset{url}
    ensures forall n :: n in states ==>
              FrontierSpec.Held(states[owner := s][n]) == FrontierSpec.Held(states[n]) + (if n == owner then multiset{url} else multiset{})
  {
  }

  /**
   * One step keeps every frontier valid; if it succeeds, the owner of the
   * URL's host gains that URL and every other frontier holds what it held.
   * If it fails, no frontier changes and the error is one `enqueue`
   * raised at the owner.
   */
  lemma StepEffect(owners: map<Host, string>, states: map<string, FrontierSpec.State>,
                   fts: map<string, map<Host, real>>, url: Url, priority: real, sender: string,
                   clock: real, split: string -> Parts)
    requires Ready(states, fts) && AllValid(states, split)
    ensures var r := Step(owners, states, fts, url, priority, sender, clock, split);
            var owner := r.owners[HostOf(split, url)];
            && AllValid(r.states, split)
            && (r.failure.None? ==>
                  forall n :: n in states ==>
                    FrontierSpec.Held(r.states[n]) == FrontierSpec.Held(states[n]) + (if n == owner then multiset{url} else multiset{}))
            && (r.failure.Some? ==>
                  r.states == states && owner in states &&
                  FrontierSpec.Enqueue(states[owner], url, priority, fts[owner], clock, split) == Err(r.failure.value))
  {
    var owners' := Claim(owners, HostOf(split, url), sender);
    var owner := owners'[HostOf(split, url)];
    if owner in states {
      var e := FrontierSpec.Enqueue(states[owner], url, priority, fts[owner], clock, split);
      FrontierSpec.EnqueueKeepsInv(states[owner], url, priority, fts[owner], clock, split);
      if e.Ok? {
        AllValidUpdate(states, owner, e.value, split);
        HeldUpdate(states, owner, e.value, url);
      }
    }
  }

  /** Dispatch keeps every frontier valid and never changes the set of workers. */
  lemma {:induction false} SyncKeepsInv(owners: map<Host, string>, states: map<string, FrontierSpec.State>,
                                        fts: map<string, map<Host, real>>, urls: seq<Url>, priorities: seq<real>,
                                        from: nat, sender: string, now: nat -> real, split: string -> Parts)
    requires from <= |urls| <= |priorities|
    requires Ready(states, fts) && AllValid(states, split)
    ensures var r := Sync(owners, states, fts, urls, priorities, from, sender, now, split);
            Ready(r.states, fts) && AllValid(r.states, split) && r.states.Keys == states.Keys
    decreases |urls| - from
  {
    if from < |urls| {
      var t := Step(owners, states, fts, urls[from], priorities[from], sender, now(from), split);
      StepEffect(owners, states, fts, urls[from], priorities[from], sender, now(from), split);
      if t.failure.None? {
        SyncKeepsInv(t.owners, t.states, fts, urls, priorities, from + 1, sender, now, split);
      }
    }
  }

  /**
   * Ownership is first-come: a host keeps the owner it has, and a host
   * that gains one gains the sender. On a batch that completes, every
   * host in it is owned afterwards.
   */
  lemma SyncOwnership(owners: map<Host, string>, states: map<string, FrontierSpec.State>,
                      fts: map<string, map<Host, real>>, urls: seq<Url>, priorities: seq<real>,
                      from: nat, sender: string, now: nat -> real, split: string -> Parts)
    requires from <= |urls| <= |priorities|
    requires Ready(states, fts)
    ensures var r := Sync(owners, states, fts, urls, priorities, from, sender, now, split);
            && (forall h :: h in owners ==> h in r.owners && r.owners[h] == owners[h])
            && (forall h :: h in r.owners && h !in owners ==> r.owners[h] == sender)
            && (r.failure.None? ==> forall k :: from <= k < |urls| ==> HostOf(split, urls[k]) in r.owners)
  {
    SyncKeepsOwners(owners, states, fts, urls, priorities, from, sender, now, split);
    SyncClaimsAll(owners, states, fts, urls, priorities, from, sender, now, split);
  }

  /** The first half of `SyncOwnership`: existing owners stay, new ones are the sender. */
  lemma {:induction false} SyncKeepsOwners(owners: map<Host, string>, states: map<string, FrontierSpec.State>,
                      fts: map<string, map<Host, real>>, urls: seq<Url>, priorities: seq<real>,
                      from: nat, sender: string, now: nat -> real, split: string -> Parts)
    requires from <= |urls| <= |priorities|
    requires Ready(states, fts)
    ensures var r := Sync(owners, states, fts, urls, priorities, from, sender, now, split);
            && (forall h :: h in owners ==> h in r.owners && r.owners[h] == owners[h])
            && (forall h :: h in r.owners && h !in owners ==> r.owners[h] == sender)
    decreases |urls| - from
  {
    if from < |urls| {
      var t := Step(owners, states, fts, urls[from], priorities[from], sender, now(from), split);
      if t.failure.None? {
        SyncKeepsOwners(t.owners, t.states, fts, urls, priorities, from + 1, sender, now, split);
      }
    }
  }

  /** The second half of `SyncOwnership`: a complete batch leaves every host in it owned. */
  lemma {:induction false} SyncClaimsAll(owners: map<Host, string>, states: map<string, FrontierSpec.State>,
                      fts: map<string, map<Host, real>>, urls: seq<Url>, priorities: seq<real>,
                      from: nat, sender: string, now: nat -> real, split: string -> Parts)
    requires from <= |urls| <= |priorities|
    requires Ready(states, fts)
    ensures var r := Sync(owners, states, fts, urls, priorities, from, sender, now, split);
            r.failure.None? ==> forall k :: from <= k < |urls| ==> HostOf(split, urls[k]) in r.owners
    decreases |urls| - from
  {
    if from < |urls| {
      var t := Step(owners, states, fts, urls[from], priorities[from], sender, now(from), split);
      if t.failure.None? {
        SyncClaimsAll(t.owners, t.states, fts, urls, priorities, from + 1, sender, now, split);
        SyncKeepsOwners(t.owners, t.states, fts, urls, priorities, from + 1, sender, now, split);
        assert HostOf(split, urls[from]) in t.owners;
      }
    }
  }

  /** The URLs of `urls` whose host `owners` assigns to worker `n`. */
  ghost function RoutedTo(urls: seq<Url>, owners: map<Host, string>, n: string, split: string -> Parts): multiset<Url>
  {
    if urls == [] then multiset{}
    else
      var host := HostOf(split, urls[0]);
      (if host in owners && owners[host] == n then multiset{urls[0]} else multiset{})
        + RoutedTo(urls[1..], owners, n, split)
  }

  lemma RoutedToCons(urls: seq<Url>, owners: map<Host, string>, n: string, split: string -> Parts)
    requires urls != []
    ensures RoutedTo(urls, owners, n, split)
            == (if HostOf(split, urls[0]) in owners && owners[HostOf(split, urls[0])] == n then multiset{urls[0]} else multiset{})
               + RoutedTo(urls[1..], owners, n, split)
  {
  }

  /** One URL routed to `n` or not: what `n` gained before and after it adds up. */
  lemma HeldStep(h0: multiset<Url>, h1: multiset<Url>, h2: multiset<Url>, routed: multiset<Url>,
                 rest: multiset<Url>, url: Url, hit: bool)
    requires h1 == h0 + (if hit then multiset{url} else multiset{})
    requires h2 == h1 + rest
    requires routed == (if hit then multiset{url} else multiset{}) + rest
    ensures h2 == h0 + routed
  {
  }

  /** Each frontier of `states` has become the one in `final` by gaining the URLs of `urls` that `owners` routes to it. */
  ghost predicate Delivered(states: map<string, FrontierSpec.State>, final: map<string, FrontierSpec.State>,
                            urls: seq<Url>, owners: map<Host, string>, split: string -> Parts)
  {
    forall n :: n in states ==>
      (n in final && FrontierSpec.Held(final[n]) == FrontierSpec.Held(states[n]) + RoutedTo(urls, owners, n, split))
  }

  /** The step of `SyncDelivers`: the first URL went to `owner`, the rest as the final ownership says. */
  lemma DeliverStep(states: map<string, FrontierSpec.State>, states': map<string, FrontierSpec.State>,
                    final: map<string, FrontierSpec.State>, owners: map<Host, string>,
                    urls: seq<Url>, owner: string, split: string -> Parts)
    requires urls != []
    requires HostOf(split, urls[0]) in owners && owners[HostOf(split, urls[0])] == owner
    requires forall n :: n in states ==>
               (n in states' &&
                FrontierSpec.Held(states'[n]) == FrontierSpec.Held(states[n]) + (if n == owner then multiset{urls[0]} else multiset{}))
    requires Delivered(states', final, urls[1..], owners, split)
    ensures Delivered(states, final, urls, owners, split)
  {
    forall n | n in states
      ensures FrontierSpec.Held(final[n]) == FrontierSpec.Held(states[n]) + RoutedTo(urls, owners, n, split)
    {
      RoutedToCons(urls, owners, n, split);
      HeldStep(FrontierSpec.Held(states[n]), FrontierSpec.Held(states'[n]), FrontierSpec.Held(final[n]),
               RoutedTo(urls, owners, n, split), RoutedTo(urls[1..], owners, n, split),
               urls[0], n == owner);
    }
  }

  /**
   * On a batch that completes, each worker's frontier gains exactly the
   * URLs whose host it owns at the end: every URL reaches one frontier,
   * the owner's, and no other.
   */
  lemma {:induction false} SyncDelivers(owners: map<Host, string>, states: map<string, FrontierSpec.State>,
                                        fts: map<string, map<Host, real>>, urls: seq<Url>, priorities: seq<real>,
                                        from: nat, sender: string, now: nat -> real, split: string -> Parts)
    requires from <= |urls| <= |priorities|
    requires Ready(states, fts) && AllValid(states, split)
    ensures var r := Sync(owners, states, fts, urls, priorities, from, sender, now, split);
            r.failure.None? ==> Delivered(states, r.states, urls[from..], r.owners, split)
    decreases |urls| - from
  {
    var r := Sync(owners, states, fts, urls, priorities, from, sender, now, split);
    if from < |urls| && r.failure.None? {
      var t := Step(owners, states, fts, urls[from], priorities[from], sender, now(from), split);
      StepEffect(owners, states, fts, urls[from], priorities[from], sender, now(from), split);
      assert r == Sync(t.owners, t.states, fts, urls, priorities, from + 1, sender, now, split);
      SyncDelivers(t.owners, t.states, fts, urls, priorities, from + 1, sender, now, split);
      SyncOwnership(t.owners, t.states, fts, urls, priorities, from + 1, sender, now, split);
      assert urls[from..][1..] == urls[from + 1..];
      DeliverStep(states, t.states, r.states, r.owners, urls[from..], t.owners[HostOf(split, urls[from])], split);
    } else if from == |urls| {
      assert urls[from..] == [];
    }
  }

  /** The dispatch state after enqueue outcome `e` at `owner`, and the error that ends the batch. */
  predicate Outcome(e: Result<FrontierSpec.State, FrontierSpec.Error>, owner: string,
                    states: map<string, FrontierSpec.State>, states': map<string, FrontierSpec.State>,
                    failure: Option<FrontierSpec.Error>)
  {
    && states' == (if e.Ok? then states[owner := e.value] else states)
    && failure == (if e.Err? then Some(e.error) else None)
  }

  /**
   * `Step` from the outcome `e` of the owner's `enqueue`: on success the
   * owner's frontier is replaced by the new one, on failure nothing changes.
   */
  lemma StepFromOutcome(owners: map<Host, string>, states: map<string, FrontierSpec.State>,
                        fts: map<string, map<Host, real>>, url: Url, priority: real, sender: string,
                        clock: real, split: string -> Parts, owner: string,
                        states': map<string, FrontierSpec.State>, failure: Option<FrontierSpec.Error>)
    requires Ready(states, fts)
    requires owner == Claim(owners, HostOf(split, url), sender)[HostOf(split, url)]
    requires owner in states ==>
               Outcome(FrontierSpec.Enqueue(states[owner], url, priority, fts[owner], clock, split),
                       owner, states, states', failure)
    requires owner !in states ==> states' == states && failure.None?
    ensures Step(owners, states, fts, url, priority, sender, clock, split)
            == Synced(Claim(owners, HostOf(split, url), sender), states', failure)
  {
  }

  /** Frontiers that are ready are valid ones with non-empty fetch-time tables. */
  lemma ValidReady(states: map<string, FrontierSpec.State>, fts: map<string, map<Host, real>>, split: string -> Parts)
    requires AllValid(states, split)
    requires forall n :: n in states ==> n in fts && |fts[n]| > 0
    ensures Ready(states, fts)
  {
    forall n | n in states
      ensures states[n].interval > 0
    {
      assert FrontierSpec.Inv(states[n], split);
    }
  }

  /** A running worker: its frontier and its own fetch-time table. */
  datatype Worker = Worker(frontier: Frontier.Frontier, fetchTimes: map<Host, real>)

  function Frontiers(workers: map<string, Worker>): set<Frontier.Frontier>
  {
    set n | n in workers :: workers[n].frontier
  }

  function FetchTimes(workers: map<string, Worker>): (r: map<string, map<Host, real>>)
    ensures r.Keys == workers.Keys && forall n :: n in workers ==> r[n] == workers[n].fetchTimes
  {
    map n | n in workers :: workers[n].fetchTimes
  }

  /** `states` names, worker by worker, the current state of each frontier. */
  ghost predicate Mirrors(workers: map<string, Worker>, states: map<string, FrontierSpec.State>)
    reads Frontiers(workers)
  {
    states.Keys == workers.Keys && forall n :: n in workers ==> workers[n].frontier.State() == states[n]
  }

  class WebCrawler {
    /** The URLs seen by any worker. */
    var urls: set<Url>
    /** The worker each host has been assigned to. */
    var hostToThread: map<Host, string>
    /** `urlsplit`, which `resolve_hostname` calls. */
    const split: string -> Parts

    constructor(split: string -> Parts)
      ensures urls == {} && hostToThread == map[] && this.split == split
    {
      urls := {};
      hostToThread := map[];
      this.split := split;
    }

    /**
     * Running workers: pairwise distinct frontiers, each splitting URLs as
     * the registry does, each with a non-empty fetch-time table.
     */
    ghost predicate WorkersOk(workers: map<string, Worker>)
    {
      && (forall a, b :: a in workers && b in workers && a != b ==> workers[a].frontier != workers[b].frontier)
      && (forall n :: n in workers ==> workers[n].frontier.split == split && |workers[n].fetchTimes| > 0)
    }

    /** `check_and_update_urls(batch)`: the unseen URLs of the batch; every URL of the batch is then seen. */
    method CheckAndUpdateUrls(batch: seq<Url>) returns (result: seq<Url>)
      modifies this
      ensures result == Unseen(batch, old(urls))
      ensures urls == old(urls) + Members(batch)
      ensures hostToThread == old(hostToThread)
    {
      result := Unseen(batch, urls);
      urls := urls + Members(batch);
    }

    /** `thread.frontier_add(url, priority)`: one `enqueue` on the worker's frontier, with outcome `e`. */
    static method FrontierAdd(w: Worker, url: Url, priority: real, clock: real)
      returns (res: Result<(), FrontierSpec.Error>, ghost e: Result<FrontierSpec.State, FrontierSpec.Error>)
      requires w.frontier.interval > 0 && |w.fetchTimes| > 0
      modifies w.frontier
      ensures e == FrontierSpec.Enqueue(old(w.frontier.State()), url, priority, w.fetchTimes, clock, w.frontier.split)
      ensures e.Ok? ==> res.Ok? && w.frontier.State() == e.value
      ensures e.Err? ==> res == Err(e.error) && w.frontier.State() == old(w.frontier.State())
    {
      e := FrontierSpec.Enqueue(w.frontier.State(), url, priority, w.fetchTimes, clock, w.frontier.split);
      res := w.frontier.Enqueue(url, priority, w.fetchTimes, clock);
    }

    /**
     * `frontier_add` on the worker named `owner`, when such a thread runs,
     * in terms of the frontiers named by `states`.
     */
    static method Deliver(owner: string, url: Url, priority: real, workers: map<string, Worker>,
                          clock: real, ghost states: map<string, FrontierSpec.State>, ghost split: string -> Parts)
      returns (failure: Option<FrontierSpec.Error>, ghost states': map<string, FrontierSpec.State>)
      requires forall n :: n in workers ==> workers[n].frontier.split == split
      requires Mirrors(workers, states) && Ready(states, FetchTimes(workers))
      requires forall a, b :: a in workers && b in workers && a != b ==> workers[a].frontier != workers[b].frontier
      modifies Frontiers(workers)
      ensures Mirrors(workers, states')
      ensures owner in states ==>
                Outcome(FrontierSpec.Enqueue(states[owner], url, priority, FetchTimes(workers)[owner], clock, split),
                        owner, states, states', failure)
      ensures owner !in states ==> states' == states && failure.None?
    {
      failure := None;
      states' := states;
      if owner in workers {
        var w := workers[owner];
        assert w.frontier.State() == states[owner] && w.fetchTimes == FetchTimes(workers)[owner];
        var res, e := FrontierAdd(w, url, priority, clock);
        if res.Ok? {
          states' := states[owner := e.value];
        } else {
          failure := Some(res.error);
        }
        forall n | n in workers && n != owner
          ensures workers[n].frontier.State() == states'[n]
        {
          assert workers[n].frontier != w.frontier;
        }
      }
    }

    /**
     * One iteration of the loop of `synchronize_frontiers`, at clock
     * `clock`; `states` and `states'` name the frontiers before and after.
     */
    method Dispatch(url: Url, priority: real, sender: string, workers: map<string, Worker>, clock: real,
                    ghost states: map<string, FrontierSpec.State>)
      returns (failure: Option<FrontierSpec.Error>, ghost states': map<string, FrontierSpec.State>)
      requires WorkersOk(workers) && Mirrors(workers, states) && Ready(states, FetchTimes(workers))
      modifies this, Frontiers(workers)
      ensures Mirrors(workers, states') && urls == old(urls)
      ensures Step(old(hostToThread), states, FetchTimes(workers), url, priority, sender, clock, split)
              == Synced(hostToThread, states', failure)
    {
      var host := HostOf(split, url);
      var owner := if host in hostToThread then hostToThread[host] else sender;
      failure, states' := Deliver(owner, url, priority, workers, clock, states, split);
      ghost var owners := hostToThread;
      label before:
      hostToThread := Claim(hostToThread, host, sender);
      forall n | n in workers ensures workers[n].frontier.State() == states'[n] {
        assert workers[n].frontier.State() == old@before(workers[n].frontier.State());
      }
      StepFromOutcome(owners, states, FetchTimes(workers), url, priority, sender, clock, split, owner, states', failure);
    }

    /**
     * `synchronize_frontiers(batch, sender, priorities)`, with `workers`
     * standing for the running threads by name and `now(k)` for the clock
     * when the k-th URL is enqueued; `states` and `states'` name the
     * workers' frontiers before and after. Returns the error an enqueue
     * raised, which ends the batch.
     */
    method SynchronizeFrontiers(batch: seq<Url>, sender: string, priorities: seq<real>,
                                workers: map<string, Worker>, now: nat -> real,
                                ghost states: map<string, FrontierSpec.State>)
      returns (failure: Option<FrontierSpec.Error>, ghost states': map<string, FrontierSpec.State>)
      requires |batch| <= |priorities|
      requires WorkersOk(workers) && Mirrors(workers, states) && AllValid(states, split)
      modifies this, Frontiers(workers)
      ensures WorkersOk(workers) && Mirrors(workers, states') && AllValid(states', split) && urls == old(urls)
      ensures Ready(states, FetchTimes(workers))
      ensures Sync(old(hostToThread), states, FetchTimes(workers), batch, priorities, 0, sender, now, split)
              == Synced(hostToThread, states', failure)
    {
      ValidReady(states, FetchTimes(workers), split);
      SyncKeepsInv(hostToThread, states, FetchTimes(workers), batch, priorities, 0, sender, now, split);
      failure, states' := DispatchBatch(batch, sender, priorities, workers, now, states);
    }

    /** The loop of `synchronize_frontiers`: one dispatch per URL, stopping at the first error. */
    method DispatchBatch(batch: seq<Url>, sender: string, priorities: seq<real>,
                         workers: map<string, Worker>, now: nat -> real,
                         ghost states: map<string, FrontierSpec.State>)
      returns (failure: Option<FrontierSpec.Error>, ghost states': map<string, FrontierSpec.State>)
      requires |batch| <= |priorities|
      requires WorkersOk(workers) && Mirrors(workers, states) && Ready(states, FetchTimes(workers))
      modifies this, Frontiers(workers)
      ensures Mirrors(workers, states') && urls == old(urls)
      ensures Sync(old(hostToThread), states, FetchTimes(workers), batch, priorities, 0, sender, now, split)
              == Synced(hostToThread, states', failure)
    {
      ghost var fts := FetchTimes(workers);
      ghost var target := Sync(hostToThread, states, fts, batch, priorities, 0, sender, now, split);
      states' := states;
      for num := 0 to |batch|
        invariant Mirrors(workers, states') && urls == old(urls)
        invariant Ready(states', fts)
        invariant Sync(hostToThread, states', fts, batch, priorities, num, sender, now, split) == target
      {
        failure, states' := Dispatch(batch[num], priorities[num], sender, workers, now(num), states');
        if failure.Some? {
          return;
        }
      }
      failure := None;
    }
  }
}
