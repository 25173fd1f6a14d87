# A verified model of the crawler's URL frontier and registry

This project models in Dafny the scheduling core of a multi-threaded web
crawler: the per-worker URL frontier and the registry the workers share.

- **The frontier**, class `Frontier` of `frontier.py`, is a Mercator-style
  two-level queue. It has:
  - priority buckets ("front queues");
  - at most `num_back_queues` per-host FIFO queues ("back queues");
  - a readiness heap of `(next_contact_time, host)` pairs, which decides
    which host is served next.
- **The registry**, class `WebCrawler` of `web_crawler.py`, removes duplicate
  URLs across workers. It gives each host to the first worker that discovers
  it, and passes every URL on to the frontier of its host's owner.

The project is organised as follows.

- `wrappers.dfy`: `Option` and `Result`.
- `hostname.dfy` (module `Hostname`): the string handling of
  `resolve_hostname`, with `urlsplit` given as its result (`Parts`).
- `heapq.dfy` (module `HeapQ`): Python's `heapq` (`heappush`, `heappop`,
  `heapify`, `_siftdown`, `_siftup`) on a list of `(time, host)` pairs,
  ordered as Python orders tuples.
  - It models a standard-library module that the frontier calls. It follows
    the library's algorithm, since that file is not part of this model.
  - Its rows cite the lines of `frontier.py` that call it.
- `frontier_spec.dfy` (module `FrontierSpec`): the frontier state as a value
  and the transitions `Enqueue`, `Dequeue`, `Refill`, `FrontRoute` and
  `Replace`. It also holds the frontier invariant `Inv` and the lemmas that
  every transition keeps it and moves URLs without losing or duplicating
  any.
- `frontier.dfy` (module `Frontier`): the `Frontier` class, with the
  source's fields:
  - the size counter;
  - the list of buckets;
  - the host-to-queue map;
  - the heap list;
  - the weight list.

  Its methods assign these fields in place, with the source's loops:
  - the weight loop of `__init__`;
  - the refill loop of `__back_route`;
  - the scan of `__heap_replace`.

  Each method is proved to perform a `FrontierSpec` transition:
  - `Enqueue` and `Insert` perform `Enqueue`;
  - `Dequeue` performs `Dequeue`, and `Serve` performs `AfterGet`;
  - `BackRoute` performs `Refill`, one `RouteOne` per loop pass;
  - `FrontRoute` performs `FrontRoute`;
  - `HeapReplace` performs `Replace`.
- `web_crawler.dfy` (module `WebCrawler`): the `WebCrawler` class, with the
  URL set and the host-to-thread map as fields. `CheckAndUpdateUrls` and
  `SynchronizeFrontiers` are proved against the functions `Unseen` and
  `Sync`.
  - The running threads are a map from thread name to `Worker`, which pairs
    a frontier object with its fetch-time table.
  - Ghost maps from name to frontier state (`states`, `states'`) name what
    the frontiers hold before and after.

Outside inputs are parameters:
- `urlsplit` is `split: string -> Parts`;
- the clock is the parameter `now` (for the registry, `now(k)` for the k-th
  URL of a batch);
- the draws of `random.choices` come from an oracle `pick: nat -> nat`,
  whose i-th value selects one of the non-empty buckets.

Times and priorities are exact reals.

The model follows the code, with the two exceptions described next.
When a refill of a drained back queue finds every bucket empty, `__back_route`
returns `None` (frontier.py:147-148). The empty queue stays under its old host
key, so the number of slots is unchanged. `FrontierSpec.Refill` does the same.

The two exceptions are places where the model follows what the code
evidently intends rather than what it does. Both are listed under "## Findings", with a member that models
the code as written.
- **Heap order.** `__heap_replace` removes the host's old entry with a
  mid-list `pop(idx)` and does not restore the heap order. `FrontierSpec.Replace`
  restores it before pushing.
- **Non-empty draws.** `__back_route` can draw an empty bucket and then block.
  `FrontierSpec.Refill` draws only among the non-empty buckets.

## Model

| member | source | states |
|---|---|---|
| `Hostname.StripWww` | web_crawler.py:45 | the host name is never longer than the netloc |
| `Hostname.StripWwwRemovesWhole` | web_crawler.py:45 | `replace` removes a multiple of four characters, i.e. whole occurrences of "www." |
| `Hostname.StripWwwNoOccurrence` | web_crawler.py:45 | a netloc containing no "www." is its own host name |
| `Hostname.StripWwwLeading` | web_crawler.py:45 | a leading "www." is removed |
| `Hostname.StripWwwSubsequence` | web_crawler.py:45 | the host name is the netloc with some characters deleted |
| `Hostname.StripWwwAfter` | web_crawler.py:45 | every occurrence is removed, not only a leading one: after a prefix with no occurrence, the next "www." is dropped and the prefix is kept |
| `Hostname.HostOf` | web_crawler.py:126 | defines the host key of a URL, the stripped netloc; `HostOfResolves` ties it to `resolve_hostname` |
| `Hostname.StripWwwDotCom` | web_crawler.py:45 | a one-letter ".com" name is unchanged |
| `Hostname.StripWwwLeadingExample` | web_crawler.py:44-45 | "www.a.com" becomes "a.com" |
| `Hostname.StripWwwInnerExample` | web_crawler.py:45 | an occurrence after the first character is removed too ("awww.b.com" becomes "ab.com"), not only a leading one |
| `Hostname.StripWwwIsSinglePass` | web_crawler.py:45 | one left-to-right pass: "wwww.ww." becomes "www.", which still contains the pattern |
| `Hostname.RFind` | web_crawler.py:49 | `rfind`: -1 exactly when the character is absent, otherwise the position of its last occurrence |
| `Hostname.PathPrefix` | web_crawler.py:49 | the path is a prefix of the URL; it is the URL itself when the parsed path has no '/', otherwise it ends at the URL's last '/' |
| `Hostname.Resolve` | web_crawler.py:42-50 | the triple is the stripped netloc, `scheme + "://" + netloc`, and the directory prefix `PathPrefix(url, path)` of the URL |
| `Hostname.HostOfResolves` | web_crawler.py:126 | the host used for queues and ownership is the first component of `resolve_hostname` |
| `HeapQ.HeapRootIsMinimal` | frontier.py:95 | on a heap, the entry at index 0 is no later than any other |
| `HeapQ.Push` | frontier.py:176 | `heappush` adds exactly the new entry |
| `HeapQ.PushKeepsHeap` | frontier.py:176 | `heappush` keeps the heap order |
| `HeapQ.Pop` | frontier.py:95 | `heappop` returns `heap[0]` and leaves exactly the other entries |
| `HeapQ.PopKeepsHeap` | frontier.py:95 | `heappop` keeps the heap order and returns a smallest entry |
| `HeapQ.SiftDown` | frontier.py:176 | `heapq._siftdown`: moves an entry up toward the root while it is earlier than its parent, permuting the list; `SiftDownRestores` and `PushKeepsHeap` state the order it restores |
| `HeapQ.SiftUp` | frontier.py:95 | `heapq._siftup`: moves the smaller child up to the bottom, then sifts the entry back up, permuting the list; `SiftUpRestores` and `PopKeepsHeap` state the order it restores |
| `HeapQ.HeapifyFrom` | frontier.py:39 | the `_siftup` loop of `heapify` over positions below `k`, a permutation; `HeapifyMakesHeap` states that it yields a heap |
| `HeapQ.Heapify` | frontier.py:39 | `heapify` permutes the list |
| `HeapQ.HeapifyMakesHeap` | frontier.py:39 | `heapify` makes any list a heap |
| `HeapQ.LessTotal` | frontier.py:95 | tuples of distinct (time, host) are ordered one way or the other |
| `FrontierSpec.Weights` | frontier.py:42-46 | one weight per bucket, the k-th being `1 + k(k+1)/2` |
| `FrontierSpec.WeightsIncrease` | frontier.py:40-46 | the weights strictly increase toward the higher-priority buckets |
| `FrontierSpec.WeightsForFiveBuckets` | frontier.py:42-46 | five buckets get weights [1, 2, 4, 7, 11] |
| `FrontierSpec.Initial` | frontier.py:26-39 | `n` empty buckets of width `100/n`, together covering exactly 100 hundredths |
| `FrontierSpec.InitialInv` | frontier.py:20-46 | a new frontier satisfies the invariant and holds no URL |
| `FrontierSpec.MeanFetchTime` | frontier.py:79 | the loop sums the values and returns sum / count, the mean |
| `FrontierSpec.DelayNonNegative` | frontier.py:79 | with non-negative fetch times the delay used, known or mean, is non-negative |
| `FrontierSpec.BucketIndex` | frontier.py:158 | defines the bucket index `floor(priority * 100 / interval)`; `FrontRouteBucket` and `FrontRouteTop` state where it lands |
| `FrontierSpec.FrontRoute` | frontier.py:152-160 | `__front_route`: the selected bucket gains the URL, or `None` for the `IndexError`; the bucket count is kept; `FrontRouteBucket` and `FrontRouteTop` state which bucket |
| `FrontierSpec.PyIndex` | frontier.py:159 | Python list indexing: defined exactly for `-n <= i < n`, negative indices counting from the end |
| `FrontierSpec.FrontRouteBucket` | frontier.py:158-160 | a priority in [0, 1) goes to the bucket `j` with `j <= priority * n < j + 1`, and only that bucket gains the URL |
| `FrontierSpec.FrontRouteTop` | frontier.py:158-159 | priority 1.0 indexes one past the last bucket and raises |
| `FrontierSpec.FindHost` | frontier.py:170-174 | the scan stops at the first entry for the host, or finds none |
| `FrontierSpec.RemoveAt` | frontier.py:173 | `list.pop(i)` removes exactly the i-th entry |
| `FrontierSpec.ReplaceAsWritten` | frontier.py:162-176 | `__heap_replace` as written: `pop(idx)` of the host's entry, then `heappush`; `ReplaceAsWrittenBreaksOrder` shows it can break the heap order |
| `FrontierSpec.Replace` | frontier.py:162-176 | the corrected `__heap_replace`, which restores heap order after the removal; `ReplaceEffect` states its effect |
| `FrontierSpec.UniqueHostsDistinct` | frontier.py:162-176 | in a heap with unique hosts, entries at distinct positions have distinct hosts |
| `FrontierSpec.ReplaceEffect` | frontier.py:162-176 | after `__heap_replace(t, host)` the heap is a heap, hosts are unique, `host` has exactly the entry `(t, host)`, and every other entry is kept |
| `FrontierSpec.ReplaceAsWrittenBreaksOrder` | frontier.py:170-176 | as written, the mid-list `pop(idx)` leaves [(3,y), (2,z), (11,x)], which is not a heap and from which `heappop` returns y before the earlier z |
| `FrontierSpec.NonEmptyBuckets` | frontier.py:127 | the indices of exactly the non-empty buckets: every listed index is a non-empty bucket and every non-empty bucket is listed; empty exactly when every bucket is |
| `FrontierSpec.TakeHead` | frontier.py:131 | `get()` on a bucket removes exactly its head |
| `FrontierSpec.Refill` | frontier.py:117-150 | `__back_route` drawing among the non-empty buckets; it keeps the bucket count; `RefillContents`, `RefillMatchesHosts`, `RefillSlots` and `RefillKeepsQueues` state its effect |
| `FrontierSpec.RefillAsWritten` | frontier.py:127-131 | `__back_route` as written, drawing among all buckets, with `Blocked` for a draw of an empty bucket; `RefillAsWrittenBlocks` shows it can block |
| `FrontierSpec.RefillContents` | frontier.py:117-150 | refill moves URLs from buckets to back queues, losing or duplicating none |
| `FrontierSpec.RefillMatchesHosts` | frontier.py:136-145 | every URL refill places is in its own host's queue |
| `FrontierSpec.RefillSlots` | frontier.py:139-145 | the slot count is unchanged; every key afterwards was a key before or is the returned host, and a new host takes the place of the drained key |
| `FrontierSpec.RefillKeepsQueues` | frontier.py:127-149 | other queues only grow; success gives the returned host a non-empty queue; failure happens only with every bucket empty and leaves the drained queue under the old key |
| `FrontierSpec.RefillAsWrittenBlocks` | frontier.py:127-131 | as written, `random.choices` can draw an empty bucket while another is non-empty, and `get()` then blocks |
| `FrontierSpec.Inv` | frontier.py:20-115 | the frontier invariant: the buckets cover 0-100 with the weights of `__init__`; at most `capacity` slots, all in use once a bucket holds a URL; each queue holds only its host's URLs; the heap is a heap with one entry per host, each for a non-empty queue; the size counts the URLs held. `InitialInv`, `EnqueueKeepsInv` and `DequeueKeepsInv` show it is kept |
| `FrontierSpec.Enqueue` | frontier.py:56-84 | `enqueue` as a transition; `EnqueueKeepsInv`, `EnqueueDirect`, `EnqueueSchedules` and `EnqueueToFront` state its effect |
| `FrontierSpec.Dequeue` | frontier.py:86-115 | `dequeue` as a transition; `DequeueKeepsInv`, `DequeueServesEarliest`, `DequeueReschedulesLater` and `DequeueWhenEmpty` state its effect |
| `FrontierSpec.EnqueueDirect` | frontier.py:66-84 | with a free slot, `enqueue` succeeds, keeps the invariant and adds exactly the URL |
| `FrontierSpec.DirectInv` | frontier.py:66-80 | the back-queue path keeps the invariant whatever time is scheduled |
| `FrontierSpec.EnqueueSchedules` | frontier.py:66-80 | the URL is appended to its host's queue (created if absent); the only new key is that host; every other queue and all buckets are unchanged; the host gets exactly one heap entry, at `now + 10 * delay`, and every other entry is kept |
| `FrontierSpec.EnqueueToFront` | frontier.py:81-84 | with every slot in use, `enqueue` leaves queues and heap alone; it raises exactly when the bucket index is out of range, and otherwise adds exactly the URL |
| `FrontierSpec.EnqueueKeepsInv` | frontier.py:56-84 | `enqueue` keeps the invariant, adds exactly the URL and increments the size; it raises only when every slot is in use and the bucket index is out of range |
| `FrontierSpec.PopRest` | frontier.py:95 | after `heappop` the rest is a heap with unique hosts, without the served host |
| `FrontierSpec.TakeHeadOf` | frontier.py:96-97 | `q.get()` removes exactly the head of the host's queue, keeping the slots and the hosts' URLs |
| `FrontierSpec.RefilledContents` | frontier.py:97-101 | when the get drains the queue, the refill that follows loses no URL |
| `FrontierSpec.RefilledQueues` | frontier.py:97-101 | when the get drains the queue, the refill keeps the slot count, the hosts' URLs and the other non-empty queues |
| `FrontierSpec.AfterGetKept` | frontier.py:96-101 | when the host's queue keeps URLs after the get, exactly its head leaves the frontier; slot count, per-host queues and the other non-empty queues are kept |
| `FrontierSpec.AfterGetRefilled` | frontier.py:96-101 | when the get drains the queue, exactly its head leaves the frontier also after the refill, and the refilled host's queue is non-empty |
| `FrontierSpec.AfterGetEffect` | frontier.py:95-101 | on a valid frontier, `get` plus any refill remove exactly the served head, keep the slot count and per-host queues, keep other non-empty queues, and leave the returned host a non-empty queue |
| `FrontierSpec.DequeueKeepsInv` | frontier.py:86-115 | `dequeue` raises exactly when the size is 0, or when the heap is empty, and then changes nothing; otherwise it keeps the invariant, removes exactly the returned URL and decrements the size |
| `FrontierSpec.DequeueServesEarliest` | frontier.py:95-97 | a successful `dequeue` returns the FIFO head of the queue of the host with the earliest heap entry |
| `FrontierSpec.DequeueReschedulesLater` | frontier.py:103-112 | with non-negative fetch times, every heap entry `dequeue` adds is no earlier than `now` and no earlier than the served entry's due time |
| `FrontierSpec.DequeueWhenEmpty` | frontier.py:92-93 | a frontier holding nothing raises and stays unchanged |
| `FrontierSpec.RunRefillB` | frontier.py:141-146 | in the sample run, the drained a.com queue is re-keyed to b.com and holds b.com/1 |
| `FrontierSpec.OneQueueTwoBuckets` | frontier.py:56-150 | one slot, two buckets: a.com/1 takes the slot, b.com/1 goes to bucket 0; the dequeues return a.com/1, then b.com/1, then raise |
| `Frontier.BiasWeights` | frontier.py:42-46 | the weight loop builds `Weights(n)` |
| `Frontier.NextVisitTime` | frontier.py:79-80 | the heap time is `now + 10 * delay`, with the mean for an unknown host |
| `Frontier.ScanHost` | frontier.py:170-174 | the scan's index is the host's first entry, or the length when it has none |
| `Frontier.Frontier.constructor` | frontier.py:20-46 | a new frontier is `Initial(numBack, numFront)` and satisfies the invariant |
| `Frontier.Frontier.Len` | frontier.py:48-54 | on a valid frontier, `len()` is the number of URLs held |
| `Frontier.Frontier.Enqueue` | frontier.py:56-84 | performs `FrontierSpec.Enqueue` (error and all) and keeps the invariant |
| `Frontier.Frontier.Insert` | frontier.py:64-84 | the two branches of `enqueue` perform `FrontierSpec.Enqueue` on the fields |
| `Frontier.Frontier.Dequeue` | frontier.py:86-115 | returns and leaves what `FrontierSpec.Dequeue` does, and keeps the invariant |
| `Frontier.Frontier.Serve` | frontier.py:95-101 | pops the heap, takes the head of the host's queue, and refills a drained queue as `AfterGet` says |
| `Frontier.Frontier.BackRoute` | frontier.py:117-150 | the loop performs `FrontierSpec.Refill` |
| `Frontier.Frontier.RouteOne` | frontier.py:130-146 | one draw: it either resolves the refill or forwards a URL and shrinks the buckets |
| `Frontier.Frontier.FrontRoute` | frontier.py:152-160 | appends to the selected bucket, or reports the `IndexError` and changes nothing |
| `Frontier.Frontier.HeapReplace` | frontier.py:162-176 | the heap becomes `Replace(heap, t, host)`; nothing else changes |
| `WebCrawler.Unseen` | web_crawler.py:110 | exactly the batch URLs not seen before; never longer than the batch |
| `WebCrawler.UnseenCount` | web_crawler.py:110 | each unseen URL is kept as often as the batch holds it; seen ones are dropped |
| `WebCrawler.UnseenAppend` | web_crawler.py:110 | filtering keeps batch order |
| `WebCrawler.PassesOnce` | web_crawler.py:110-111 | once recorded, a URL that passed never passes again |
| `WebCrawler.RepeatPassesNone` | web_crawler.py:110-111 | checking the same batch again returns an empty list |
| `WebCrawler.Claim` | web_crawler.py:127-133 | an unowned host is given to the sender; an owned one keeps its owner; no other entry changes |
| `WebCrawler.Step` | web_crawler.py:124-138 | one iteration claims the host and never adds or removes a worker |
| `WebCrawler.StepEffect` | web_crawler.py:124-138 | on success only the owner's frontier gains the URL; on failure nothing changes and the error is the owner's `enqueue` error |
| `WebCrawler.Sync` | web_crawler.py:114-138 | the loop of `synchronize_frontiers` as a function, one `Step` per URL, stopping at the first failure; `SyncKeepsInv`, `SyncOwnership` and `SyncDelivers` state its effect |
| `WebCrawler.SyncKeepsInv` | web_crawler.py:114-138 | the batch keeps every frontier valid and the set of workers unchanged |
| `WebCrawler.SyncOwnership` | web_crawler.py:123-133 | owners never change, new owners are the sender, and after a complete batch every host in it is owned |
| `WebCrawler.SyncDelivers` | web_crawler.py:123-138 | after a complete batch, each worker's frontier has gained exactly the batch URLs whose host it owns |
| `WebCrawler.WebCrawler.constructor` | web_crawler.py:26-31 | the URL table and the ownership map start empty |
| `WebCrawler.WebCrawler.CheckAndUpdateUrls` | web_crawler.py:103-112 | returns `Unseen(batch, old table)`; the table becomes the old one plus every batch URL |
| `WebCrawler.WebCrawler.FrontierAdd` | single_crawler.py:174-180 | the worker's frontier performs `FrontierSpec.Enqueue` with its own fetch times |
| `WebCrawler.WebCrawler.Deliver` | web_crawler.py:136-138 | only the owner's frontier changes, by its `enqueue`; nothing changes when no worker has that name |
| `WebCrawler.WebCrawler.Dispatch` | web_crawler.py:124-138 | one loop iteration performs `Step` on the ownership map and the frontiers |
| `WebCrawler.WebCrawler.DispatchBatch` | web_crawler.py:123-138 | the loop performs `Sync`, stopping at the first error |
| `WebCrawler.WebCrawler.SynchronizeFrontiers` | web_crawler.py:114-138 | performs `Sync` over the batch and keeps every frontier valid |

## Left out

- `be_fair`, `be_robust`, `crawl`, `retrieve` and `log_info` in `web_crawler.py`, and all of `single_crawler.py` except `frontier_add` and the seeding of the fetch times: network access, robots.txt, regular expressions, threads and logging.
- `urlsplit` is not modelled. Its scheme, netloc and path are the input `split`, which is the same function in the registry and in every frontier.
- `time.time()` is the parameter `now`. `time.sleep` is not modelled; after it the clock reads the later of `now` and the due time.
- `random.choices` is an oracle of draws among the non-empty buckets. Probabilities and the weights' effect on them are not modelled.
- Floating point is not modelled: times, delays and priorities are exact reals, and the bucket width is `100 div n`.
- `Frontier.Frontier.HeapReplace`: like `FrontierSpec.Replace`, and so the `FrontierSpec.Enqueue` and `FrontierSpec.Dequeue` transitions that use it, it restores the heap order after `pop(idx)`. The code at frontier.py:173-176 does not, and can then serve a later host first (see "## Findings"). `FrontierSpec.ReplaceAsWritten` models the code as written.
- `Frontier.Frontier.BackRoute`: like `FrontierSpec.Refill`, it draws only among the non-empty buckets. The code at frontier.py:130-131 draws among all buckets and can block on an empty one (see "## Findings"). `FrontierSpec.RefillAsWritten` models the code as written.
- `Frontier.Frontier.constructor`: requires that the bucket count divides 100. Otherwise `int(100 * (1 / n))` and `range(0, 100, interval)` make a different number of buckets than weights.
- The front buckets are a list in ascending key order. The dictionary keys themselves (the upper bounds) are not modelled.
- The stored `fetch_times` value is assumed non-empty, because the caller seeds it with the seed host (single_crawler.py:38). `Frontier.Frontier.Enqueue` and `Frontier.Frontier.Dequeue` require it.
- `Frontier.Frontier.Dequeue`: requires the invariant. Under it, the KeyErrors of `back_queues[host]` cannot happen. The empty-heap `IndexError` is modelled.
- Concurrency is not modelled: the per-call `threading.Lock()` and simultaneous workers. Registry operations are sequential.
- Threads are a map by name, so two threads with the same name, which would both receive the URL, are not modelled. Threads are assumed to have distinct frontiers.
- The fetch-time tables are assumed not to change during one batch.
- `WebCrawler.WebCrawler.SynchronizeFrontiers`: requires `|batch| <= |priorities|`. The caller computes the priorities before removing duplicates, so the list is never shorter. The index correspondence between the two lists is taken as given.
- `WebCrawler.WebCrawler.SynchronizeFrontiers`: the first error from an `enqueue` (a priority of 1.0 with every slot in use) ends the batch, as the exception does in the source. The propagation of the exception itself is modelled only as that error value.

## Findings

| source | as written | input that shows it | evidently intended | confidence | as-written member | corrected member |
|---|---|---|---|---|---|---|
| frontier.py:170-176 | `__heap_replace` removes the host's old entry with `list.pop(idx)` and then calls `heappush`, without restoring the heap order | heap [(1,x), (3,y), (2,z)] built by three pushes; `__heap_replace(11, "x")` leaves [(3,y), (2,z), (11,x)], and `heappop` then returns y although z is due earlier | the heap stays a heap, so the earliest host is served first (re-heapify after the removal) | not executed | `FrontierSpec.ReplaceAsWrittenBreaksOrder` | `FrontierSpec.ReplaceEffect` |
| frontier.py:127-131 | `__back_route` draws among all front buckets by weight, and every weight is at least 1, then calls the blocking `Queue.get()` on the bucket drawn | buckets [[], ["u"]] with the drained queue of host h: drawing bucket 0 blocks the worker until another thread fills that bucket, which may never happen, although bucket 1 holds a URL | refill draws only among non-empty buckets | not executed | `FrontierSpec.RefillAsWrittenBlocks` | `FrontierSpec.RefillKeepsQueues` |
