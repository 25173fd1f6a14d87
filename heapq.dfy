/**
 * Python's `heapq` on a list of `(next_contact_time, host)` pairs, the
 * readiness heap of frontier.py:38-39. `_siftdown` and `_siftup` are written
 * as successive swaps; they leave the list exactly as the library's
 * hole-moving loops do. Pairs compare as Python tuples: by time, then by
 * host string.
 */
module HeapQ {

  /** A heap entry: the earliest time `host` may be contacted again. */
  datatype Entry = Entry(time: real, host: string)

  /** Python's `<` on strings: lexicographic by code point. */
  predicate StrLess(a: string, b: string)
    decreases |a|
  {
    if a == [] then b != []
    else if b == [] then false
    else if a[0] < b[0] then true
    else if a[0] == b[0] then StrLess(a[1..], b[1..])
    else false
  }

  /** Python's `<` on `(time, host)` tuples. */
  predicate Less(a: Entry, b: Entry)
  {
    a.time < b.time || (a.time == b.time && StrLess(a.host, b.host))
  }

  /** `not b < a`, the order a heap keeps between a parent and its child. */
  predicate Le(a: Entry, b: Entry)
  {
    !Less(b, a)
  }

  lemma {:induction false} StrLessIrreflexive(a: string)
    ensures !StrLess(a, a)
    decreases |a|
  {
    if a != [] { StrLessIrreflexive(a[1..]); }
  }

  lemma {:induction false} StrLessTransitive(a: string, b: string, c: string)
    requires StrLess(a, b) && StrLess(b, c)
    ensures StrLess(a, c)
    decreases |a|
  {
    if a != [] && b != [] && c != [] && a[0] == b[0] && b[0] == c[0] {
      StrLessTransitive(a[1..], b[1..], c[1..]);
    }
  }

  lemma {:induction false} StrLessTotal(a: string, b: string)
    requires a != b
    ensures StrLess(a, b) || StrLess(b, a)
    decreases |a|
  {
    if a != [] && b != [] && a[0] == b[0] {
      assert a == [a[0]] + a[1..] && b == [b[0]] + b[1..];
      StrLessTotal(a[1..], b[1..]);
    }
  }

  /** `Less` is a strict total order. */
  lemma LessIrreflexive(a: Entry)
    ensures !Less(a, a)
  {
    StrLessIrreflexive(a.host);
  }

  lemma LessTransitive(a: Entry, b: Entry, c: Entry)
    requires Less(a, b) && Less(b, c)
    ensures Less(a, c)
  {
    if a.time == b.time && b.time == c.time {
      StrLessTransitive(a.host, b.host, c.host);
    }
  }

  lemma LessTotal(a: Entry, b: Entry)
    requires a != b
    ensures Less(a, b) || Less(b, a)
  {
    if a.time == b.time {
      StrLessTotal(a.host, b.host);
    }
  }

  lemma LeReflexive(a: Entry)
    ensures Le(a, a)
  {
    LessIrreflexive(a);
  }

  lemma LessImpliesLe(a: Entry, b: Entry)
    requires Less(a, b)
    ensures Le(a, b)
  {
    if Less(b, a) {
      LessTransitive(a, b, a);
      LessIrreflexive(a);
    }
  }

  lemma LeTransitive(a: Entry, b: Entry, c: Entry)
    requires Le(a, b) && Le(b, c)
    ensures Le(a, c)
  {
    if Less(c, a) {
      if a == b {
      } else {
        LessTotal(a, b);
        LessTransitive(c, a, b);
      }
    }
  }

  lemma LessLeIsLe(a: Entry, b: Entry, c: Entry)
    requires Less(a, b) && Le(b, c)
    ensures Le(a, c)
  {
    LessImpliesLe(a, b);
    LeTransitive(a, b, c);
  }

  /** Index of the parent of position `i` in the implicit binary tree. */
  function Parent(i: nat): nat
    requires i > 0
  {
    (i - 1) / 2
  }

  /** Position `i` lies in the subtree rooted at `r`. */
  predicate Desc(i: nat, r: nat)
    decreases i
  {
    i == r || (i > r && Desc(Parent(i), r))
  }

  lemma {:induction false} DescOfRoot(i: nat)
    ensures Desc(i, 0)
    decreases i
  {
    if i > 0 { DescOfRoot(Parent(i)); }
  }

  /** Every parent-child pair whose parent is at `k` or later is ordered. */
  ghost predicate HeapFrom(h: seq<Entry>, k: nat)
  {
    forall c :: 0 < c < |h| && Parent(c) >= k ==> Le(h[Parent(c)], h[c])
  }

  /** The heap invariant `heap[(k-1)//2] <= heap[k]` that heapq maintains. */
  ghost predicate IsHeap(h: seq<Entry>)
  {
    HeapFrom(h, 0)
  }

  /** On a heap, `heap[0]` is a smallest entry. */
  lemma {:induction false} HeapRootIsMinimal(h: seq<Entry>, i: nat)
    requires IsHeap(h)
    requires i < |h|
    ensures Le(h[0], h[i])
    decreases i
  {
    if i == 0 {
      LeReflexive(h[0]);
    } else {
      HeapRootIsMinimal(h, Parent(i));
      LeTransitive(h[0], h[Parent(i)], h[i]);
    }
  }

  function Swap(h: seq<Entry>, i: nat, j: nat): (r: seq<Entry>)
    requires i < |h| && j < |h|
    ensures |r| == |h|
    ensures multiset(r) == multiset(h)
    ensures r[i] == h[j] && r[j] == h[i]
    ensures forall k :: 0 <= k < |h| && k != i && k != j ==> r[k] == h[k]
  {
    h[i := h[j]][j := h[i]]
  }

  /** `heapq._siftdown(heap, startpos, pos)`: move the entry at `pos` up while it is smaller than its parent. */
  function SiftDown(h: seq<Entry>, start: nat, pos: nat): (r: seq<Entry>)
    requires pos < |h|
    ensures |r| == |h| && multiset(r) == multiset(h)
    decreases pos
  {
    if pos > start && Less(h[pos], h[Parent(pos)]) then SiftDown(Swap(h, pos, Parent(pos)), start, Parent(pos))
    else h
  }

  /**
   * The descending half of `heapq._siftup(heap, pos)`: move the entry at
   * `pos` down along the smaller child (the right one on a tie) to a leaf,
   * then `_siftdown(heap, startpos, leaf)`.
   */
  function Descend(h: seq<Entry>, start: nat, pos: nat): (r: seq<Entry>)
    requires pos < |h|
    ensures |r| == |h| && multiset(r) == multiset(h)
    decreases |h| - pos
  {
    var child := 2 * pos + 1;
    if child < |h| then
      var m := if child + 1 < |h| && !Less(h[child], h[child + 1]) then child + 1 else child;
      Descend(Swap(h, pos, m), start, m)
    else
      SiftDown(h, start, pos)
  }

  /** `heapq._siftup(heap, pos)`. */
  function SiftUp(h: seq<Entry>, pos: nat): (r: seq<Entry>)
    requires pos < |h|
    ensures |r| == |h| && multiset(r) == multiset(h)
  {
    Descend(h, pos, pos)
  }

  /** `heapq.heappush(heap, e)`. */
  function Push(h: seq<Entry>, e: Entry): (r: seq<Entry>)
    ensures |r| == |h| + 1
    ensures multiset(r) == multiset(h) + multiset{e}
  {
    SiftDown(h + [e], 0, |h|)
  }

  /** `heapq.heappop(heap)` on a non-empty list: the entry it returns and the list it leaves. */
  function Pop(h: seq<Entry>): (r: (Entry, seq<Entry>))
    requires |h| > 0
    ensures r.0 == h[0]
    ensures |r.1| == |h| - 1
    ensures multiset(r.1) + multiset{r.0} == multiset(h)
  {
    var last := h[|h| - 1];
    var rest := h[..|h| - 1];
    if rest == [] then (last, [])
    else
      assert multiset(rest[0 := last]) + multiset{rest[0]} == multiset(h) by {
        assert h == rest + [last];
      }
      (rest[0], SiftUp(rest[0 := last], 0))
  }

  /** `heapq.heapify(x)`: `_siftup(x, i)` for `i` from `len(x)//2 - 1` down to 0. */
  function Heapify(h: seq<Entry>): (r: seq<Entry>)
    ensures |r| == |h| && multiset(r) == multiset(h)
  {
    HeapifyFrom(h, |h| / 2)
  }

  function HeapifyFrom(h: seq<Entry>, k: nat): (r: seq<Entry>)
    requires k <= |h|
    ensures |r| == |h| && multiset(r) == multiset(h)
    decreases k
  {
    if k == 0 then h else HeapifyFrom(SiftUp(h, k - 1), k - 1)
  }

  // ---------------------------------------------------------------------
  // Heap order is preserved.

  /** All pairs below `start` hold except the one above `pos`, and `pos`'s parent bounds `pos`'s children. */
  ghost predicate SiftDownReady(h: seq<Entry>, start: nat, pos: nat)
  {
    && pos < |h|
    && Desc(pos, start)
    && (forall c :: 0 < c < |h| && c != pos && Parent(c) >= start ==> Le(h[Parent(c)], h[c]))
    && (pos > start ==> forall c :: 0 < c < |h| && Parent(c) == pos ==> Le(h[Parent(pos)], h[c]))
  }

  lemma {:induction false} SiftDownRestores(h: seq<Entry>, start: nat, pos: nat)
    requires SiftDownReady(h, start, pos)
    ensures HeapFrom(SiftDown(h, start, pos), start)
    decreases pos
  {
    if pos > start && Less(h[pos], h[Parent(pos)]) {
      SiftDownStep(h, start, pos);
      SiftDownRestores(Swap(h, pos, Parent(pos)), start, Parent(pos));
    } else {
      forall c | 0 < c < |h| && Parent(c) >= start
        ensures Le(h[Parent(c)], h[c])
      {
        if c == pos {
          assert pos > start;
        }
      }
    }
  }

  /** One swap of `_siftdown` moves the exception one level up. */
  lemma SiftDownStep(h: seq<Entry>, start: nat, pos: nat)
    requires SiftDownReady(h, start, pos)
    requires pos > start && Less(h[pos], h[Parent(pos)])
    ensures SiftDownReady(Swap(h, pos, Parent(pos)), start, Parent(pos))
  {
    var p := Parent(pos);
    var h' := Swap(h, pos, p);
    assert Desc(p, start);
    forall c | 0 < c < |h'| && c != p && Parent(c) >= start
      ensures Le(h'[Parent(c)], h'[c])
    {
      if c == pos {
        LessImpliesLe(h[pos], h[p]);
      } else if Parent(c) == p {
        LessLeIsLe(h[pos], h[p], h[c]);
      } else if Parent(c) == pos {
      } else {
        assert c != pos && c != p && Parent(c) != pos && Parent(c) != p;
      }
    }
    if p > start {
      assert Desc(Parent(p), start);
      forall c | 0 < c < |h'| && Parent(c) == p
        ensures Le(h'[Parent(p)], h'[c])
      {
        assert Le(h[Parent(p)], h[p]);
        if c != pos {
          LeTransitive(h[Parent(p)], h[p], h[c]);
        }
      }
    }
  }

  /** All pairs below `start` not touching `pos` hold, and `pos`'s parent bounds `pos`'s children. */
  ghost predicate DescendReady(h: seq<Entry>, start: nat, pos: nat)
  {
    && pos < |h|
    && Desc(pos, start)
    && (forall c :: 0 < c < |h| && c != pos && Parent(c) != pos && Parent(c) >= start ==> Le(h[Parent(c)], h[c]))
    && (pos > start ==> forall c :: 0 < c < |h| && Parent(c) == pos ==> Le(h[Parent(pos)], h[c]))
  }

  lemma ChildrenOf(pos: nat, c: nat)
    requires c > 0
    ensures Parent(c) == pos <==> c == 2 * pos + 1 || c == 2 * pos + 2
  {
  }

  /** The child `_siftup` moves up: the left one unless the right one exists and is not larger. */
  function SmallerChild(h: seq<Entry>, pos: nat): nat
  {
    var child := 2 * pos + 1;
    if child + 1 < |h| && !Less(h[child], h[child + 1]) then child + 1 else child
  }

  lemma SmallerChildIsSmallest(h: seq<Entry>, pos: nat, c: nat)
    requires 2 * pos + 1 < |h|
    requires 0 < c < |h| && Parent(c) == pos
    ensures Parent(SmallerChild(h, pos)) == pos
    ensures Le(h[SmallerChild(h, pos)], h[c])
  {
    var child := 2 * pos + 1;
    ChildrenOf(pos, c);
    ChildrenOf(pos, SmallerChild(h, pos));
    if child + 1 < |h| && Less(h[child], h[child + 1]) {
      LessImpliesLe(h[child], h[child + 1]);
    }
    LeReflexive(h[c]);
  }

  lemma {:induction false} DescendRestores(h: seq<Entry>, start: nat, pos: nat)
    requires DescendReady(h, start, pos)
    ensures HeapFrom(Descend(h, start, pos), start)
    decreases |h| - pos
  {
    if 2 * pos + 1 < |h| {
      var m := SmallerChild(h, pos);
      DescendStep(h, start, pos);
      DescendRestores(Swap(h, pos, m), start, m);
    } else {
      assert forall c :: 0 < c < |h| ==> Parent(c) != pos;
      SiftDownRestores(h, start, pos);
    }
  }

  /** One swap of the descent moves the hole one level down. */
  lemma DescendStep(h: seq<Entry>, start: nat, pos: nat)
    requires DescendReady(h, start, pos)
    requires 2 * pos + 1 < |h|
    ensures SmallerChild(h, pos) > pos
    ensures DescendReady(Swap(h, pos, SmallerChild(h, pos)), start, SmallerChild(h, pos))
  {
    var m := SmallerChild(h, pos);
    SmallerChildIsSmallest(h, pos, 2 * pos + 1);
    var h' := Swap(h, pos, m);
    assert Desc(m, start);
    forall c | 0 < c < |h'| && c != m && Parent(c) != m && Parent(c) >= start
      ensures Le(h'[Parent(c)], h'[c])
    {
      if c == pos {
      } else if Parent(c) == pos {
        SmallerChildIsSmallest(h, pos, c);
      } else {
        assert c != pos && c != m && Parent(c) != pos && Parent(c) != m;
      }
    }
    forall c | 0 < c < |h'| && Parent(c) == m
      ensures Le(h'[Parent(m)], h'[c])
    {
      assert c != pos && c != m;
    }
  }

  /** `_siftup(heap, i)` turns a heap below `i` into a heap from `i`. */
  lemma SiftUpRestores(h: seq<Entry>, i: nat)
    requires i < |h|
    requires HeapFrom(h, i + 1)
    ensures HeapFrom(SiftUp(h, i), i)
  {
    DescendRestores(h, i, i);
  }

  /** `heappush` keeps a heap a heap. */
  lemma PushKeepsHeap(h: seq<Entry>, e: Entry)
    requires IsHeap(h)
    ensures IsHeap(Push(h, e))
  {
    var h' := h + [e];
    DescOfRoot(|h|);
    assert forall c :: 0 < c < |h'| && c != |h| ==> h'[c] == h[c] && h'[Parent(c)] == h[Parent(c)];
    assert forall c :: 0 < c < |h'| ==> Parent(c) != |h|;
    SiftDownRestores(h', 0, |h|);
  }

  /** `heappop` keeps a heap a heap, and what it returns is a smallest entry. */
  lemma PopKeepsHeap(h: seq<Entry>)
    requires |h| > 0
    requires IsHeap(h)
    ensures IsHeap(Pop(h).1)
    ensures forall i :: 0 <= i < |h| ==> Le(Pop(h).0, h[i])
  {
    forall i | 0 <= i < |h| ensures Le(h[0], h[i]) {
      HeapRootIsMinimal(h, i);
    }
    var rest := h[..|h| - 1];
    if rest != [] {
      var r := rest[0 := h[|h| - 1]];
      assert HeapFrom(r, 1) by {
        forall c | 0 < c < |r| && Parent(c) >= 1
          ensures Le(r[Parent(c)], r[c])
        {
          assert r[c] == h[c] && r[Parent(c)] == h[Parent(c)];
        }
      }
      SiftUpRestores(r, 0);
    }
  }

  /** `heapify` produces a heap. */
  lemma {:induction false} HeapifyFromMakesHeap(h: seq<Entry>, k: nat)
    requires k <= |h|
    requires HeapFrom(h, k)
    ensures IsHeap(HeapifyFrom(h, k))
    decreases k
  {
    if k > 0 {
      SiftUpRestores(h, k - 1);
      HeapifyFromMakesHeap(SiftUp(h, k - 1), k - 1);
    }
  }

  lemma HeapifyMakesHeap(h: seq<Entry>)
    ensures IsHeap(Heapify(h))
  {
    assert forall c :: 0 < c < |h| ==> Parent(c) < |h| / 2;
    HeapifyFromMakesHeap(h, |h| / 2);
  }
}
