/** The order structure behind OSHeap: a heap is the sequence fHeap[1..fFreeIndex], and position p
    (counted from 1, as the source counts) is element p - 1 of it. The functions below are the two
    sift loops and the two updates; OSHeap.dfy proves that the in-place code computes them, and the
    scheduler uses them for the timer heap of each task thread. */
module HeapOrder {

  datatype Entry<T> = Entry(value: int, item: T)

  type Heap<T> = seq<Entry<T>>

  /** The edge from position p to its parent p / 2 is in order. */
  ghost predicate EdgeOk<T>(h: Heap<T>, p: nat)
    requires 1 <= p <= |h|
  {
    p == 1 || h[p / 2 - 1].value <= h[p - 1].value
  }

  ghost predicate MinOrdered<T>(h: Heap<T>) {
    forall p :: 1 <= p <= |h| ==> EdgeOk(h, p)
  }

  function Swap<T>(h: Heap<T>, p: nat, q: nat): (r: Heap<T>)
    requires 1 <= p <= |h| && 1 <= q <= |h|
    ensures |r| == |h|
  {
    h[p - 1 := h[q - 1]][q - 1 := h[p - 1]]
  }

  /** The bubbling loop of OSHeap::Insert, entered at swapPos == p. */
  function SiftUp<T>(h: Heap<T>, p: nat): (r: Heap<T>)
    requires 1 <= p <= |h|
    ensures |r| == |h|
    decreases p
  {
    if p > 1 && h[p - 1].value < h[p / 2 - 1].value then SiftUp(Swap(h, p, p / 2), p / 2) else h
  }

  function Insert<T>(h: Heap<T>, x: Entry<T>): (r: Heap<T>)
    ensures |r| == |h| + 1
  {
    SiftUp(h + [x], |h| + 1)
  }

  /** The position the heapify loop of OSHeap::Extract calls "greatest" for a given parent. */
  function Greatest<T>(h: Heap<T>, p: nat): (g: nat)
    requires 1 <= p <= |h|
    ensures p <= g <= |h|
  {
    var left := if 2 * p <= |h| && h[2 * p - 1].value < h[p - 1].value then 2 * p else p;
    if 2 * p + 1 <= |h| && h[2 * p].value < h[left - 1].value then 2 * p + 1 else left
  }

  /** The heapify loop of OSHeap::Extract, entered at parent == p. */
  function SiftDown<T>(h: Heap<T>, p: nat): (r: Heap<T>)
    requires 1 <= p
    ensures |r| == |h|
    decreases |h| - p
  {
    if p <= |h| && Greatest(h, p) != p then SiftDown(Swap(h, p, Greatest(h, p)), Greatest(h, p)) else h
  }

  /** The heap after the last leaf has been put into the hole at position p. */
  function FillHole<T>(h: Heap<T>, p: nat): (r: Heap<T>)
    requires 1 <= p <= |h|
    ensures |r| == |h| - 1
  {
    var n := |h| - 1;
    if p <= n then h[..n][p - 1 := h[n]] else h[..n]
  }

  /** OSHeap::Extract: what is left once the entry at position p has been taken out. */
  function Extract<T>(h: Heap<T>, p: nat): (r: Heap<T>)
    requires 1 <= p <= |h|
    ensures |r| == |h| - 1
  {
    SiftDown(FillHole(h, p), p)
  }

  /** The linear search of OSHeap::Remove from position p on; |h| + 1 when there is no such item. */
  function Position<T(==)>(h: Heap<T>, item: T, p: nat): (r: nat)
    requires 1 <= p <= |h| + 1
    ensures p <= r <= |h| + 1
    ensures r <= |h| ==> h[r - 1].item == item
    ensures forall i :: p - 1 <= i < r - 1 ==> h[i].item != item
    decreases |h| - p
  {
    if p > |h| || h[p - 1].item == item then p else Position(h, item, p + 1)
  }

  /** OSHeap::Remove: takes the item out wherever it is, and does nothing when it is not there. */
  function RemoveItem<T(==)>(h: Heap<T>, item: T): (r: Heap<T>) {
    var p := Position(h, item, 1);
    if p <= |h| then Extract(h, p) else h
  }

  // ----- Nothing is lost or made up -----

  lemma SwapPermutes<T>(h: Heap<T>, p: nat, q: nat)
    requires 1 <= p <= |h| && 1 <= q <= |h|
    ensures multiset(Swap(h, p, q)) == multiset(h)
  {
  }

  lemma {:induction false} SiftUpPermutes<T>(h: Heap<T>, p: nat)
    requires 1 <= p <= |h|
    ensures multiset(SiftUp(h, p)) == multiset(h)
    decreases p
  {
    if p > 1 && h[p - 1].value < h[p / 2 - 1].value {
      SwapPermutes(h, p, p / 2);
      SiftUpPermutes(Swap(h, p, p / 2), p / 2);
    }
  }

  lemma {:induction false} SiftDownPermutes<T>(h: Heap<T>, p: nat)
    requires 1 <= p
    ensures multiset(SiftDown(h, p)) == multiset(h)
    decreases |h| - p
  {
    if p <= |h| && Greatest(h, p) != p {
      SwapPermutes(h, p, Greatest(h, p));
      SiftDownPermutes(Swap(h, p, Greatest(h, p)), Greatest(h, p));
    }
  }

  /** Insert adds exactly its entry. */
  lemma InsertAdds<T>(h: Heap<T>, x: Entry<T>)
    ensures multiset(Insert(h, x)) == multiset(h) + multiset{x}
  {
    SiftUpPermutes(h + [x], |h| + 1);
  }

  /** Extract takes out exactly the entry it is asked for, wherever it is. */
  lemma ExtractRemoves<T>(h: Heap<T>, p: nat)
    requires 1 <= p <= |h|
    ensures multiset(Extract(h, p)) + multiset{h[p - 1]} == multiset(h)
  {
    var n := |h| - 1;
    assert h == h[..n] + [h[n]];
    SiftDownPermutes(FillHole(h, p), p);
  }

  // ----- Insert -----

  /** Everything is in order except possibly the edge above p, and p's children are above p's parent. */
  ghost predicate OrderedExceptAbove<T>(h: Heap<T>, p: nat)
    requires 1 <= p <= |h|
  {
    && (forall q :: 1 <= q <= |h| && q != p ==> EdgeOk(h, q))
    && (forall q :: 2 <= q <= |h| && q / 2 == p && p > 1 ==> h[p / 2 - 1].value <= h[q - 1].value)
  }

  lemma {:induction false} SiftUpOrders<T>(h: Heap<T>, p: nat)
    requires 1 <= p <= |h| && OrderedExceptAbove(h, p)
    ensures MinOrdered(SiftUp(h, p))
    decreases p
  {
    if p > 1 && h[p - 1].value < h[p / 2 - 1].value {
      var g := Swap(h, p, p / 2);
      forall q | 1 <= q <= |g| && q != p / 2
        ensures EdgeOk(g, q)
      {
        assert EdgeOk(h, p / 2);
        if q > 1 && q != p { assert EdgeOk(h, q); }
      }
      forall q | 2 <= q <= |g| && q / 2 == p / 2 && p / 2 > 1
        ensures g[p / 2 / 2 - 1].value <= g[q - 1].value
      {
        assert EdgeOk(h, p / 2) && (q != p ==> EdgeOk(h, q));
      }
      SiftUpOrders(g, p / 2);
    }
  }

  lemma InsertKeepsOrder<T>(h: Heap<T>, x: Entry<T>)
    requires MinOrdered(h)
    ensures MinOrdered(Insert(h, x))
  {
    var g := h + [x];
    forall q | 1 <= q <= |g| && q != |g|
      ensures EdgeOk(g, q)
    {
      assert EdgeOk(h, q);
    }
    SiftUpOrders(g, |g|);
  }

  // ----- Extract -----

  /** Every edge is in order except possibly those below p and the one above top; when the hole has
      moved below top, its children are not below its parent. */
  ghost predicate OrderedExceptBelow<T>(h: Heap<T>, top: nat, p: nat)
    requires 1 <= top <= p
  {
    && (forall q :: 1 <= q <= |h| && q / 2 != p && q != top ==> EdgeOk(h, q))
    && (p != top ==> forall q :: 2 <= q <= |h| && q / 2 == p && p > 1 ==> h[p / 2 - 1].value <= h[q - 1].value)
  }

  /** Every edge is in order except possibly the one above top. */
  ghost predicate OrderedButTop<T>(h: Heap<T>, top: nat) {
    forall q :: 1 <= q <= |h| && q != top ==> EdgeOk(h, q)
  }

  lemma GreatestIsLeast<T>(h: Heap<T>, p: nat)
    requires 1 <= p <= |h|
    ensures Greatest(h, p) == p || (Greatest(h, p) / 2 == p && h[Greatest(h, p) - 1].value < h[p - 1].value)
    ensures forall q :: 2 <= q <= |h| && q / 2 == p ==> h[Greatest(h, p) - 1].value <= h[q - 1].value
  {
  }

  lemma {:induction false} SiftDownOrders<T>(h: Heap<T>, top: nat, p: nat)
    requires 1 <= top <= p && OrderedExceptBelow(h, top, p)
    ensures OrderedButTop(SiftDown(h, p), top)
    decreases |h| - p
  {
    if p <= |h| {
      GreatestIsLeast(h, p);
    }
    if p <= |h| && Greatest(h, p) != p {
      var k := Greatest(h, p);
      var g := Swap(h, p, k);
      forall q | 1 <= q <= |g| && q / 2 != k && q != top
        ensures EdgeOk(g, q)
      {
        if q > 1 && q / 2 != p { assert EdgeOk(h, q); }
      }
      forall q | 2 <= q <= |g| && q / 2 == k
        ensures g[k / 2 - 1].value <= g[q - 1].value
      {
        assert EdgeOk(h, q);
      }
      SiftDownOrders(g, top, k);
    }
  }

  /** A sift at p or below leaves every position before p alone. */
  lemma {:induction false} SiftDownKeepsAbove<T>(h: Heap<T>, p: nat, q: nat)
    requires 1 <= q < p && q <= |h|
    ensures SiftDown(h, p)[q - 1] == h[q - 1]
    decreases |h| - p
  {
    if p <= |h| && Greatest(h, p) != p {
      SiftDownKeepsAbove(Swap(h, p, Greatest(h, p)), Greatest(h, p), q);
    }
  }

  lemma FillHoleOrders<T>(h: Heap<T>, p: nat)
    requires 1 <= p <= |h| && MinOrdered(h)
    ensures OrderedExceptBelow(FillHole(h, p), p, p)
  {
    var g := FillHole(h, p);
    forall q | 1 <= q <= |g| && q / 2 != p && q != p
      ensures EdgeOk(g, q)
    {
      assert EdgeOk(h, q);
    }
  }

  /** What ends up in the hole: the moved leaf, or a child of the hole that is less than the leaf. */
  lemma SiftDownAtHole<T>(h: Heap<T>, p: nat)
    requires 1 <= p <= |h|
    ensures SiftDown(h, p)[p - 1] == h[Greatest(h, p) - 1]
  {
    var k := Greatest(h, p);
    if k != p {
      SiftDownKeepsAbove(Swap(h, p, k), k, p);
    }
  }

  lemma EdgeAboveHole<T>(h: Heap<T>, p: nat)
    requires 1 < p < |h| && MinOrdered(h)
    ensures EdgeOk(Extract(h, p), p) <==> h[p / 2 - 1].value <= h[|h| - 1].value
  {
    var g := FillHole(h, p);
    var k := Greatest(g, p);
    GreatestIsLeast(g, p);
    var q := p / 2;
    SiftDownKeepsAbove(g, p, q);
    SiftDownAtHole(g, p);
    assert g[p - 1] == h[|h| - 1] && g[q - 1] == h[q - 1];
    assert EdgeOk(Extract(h, p), p) <==> h[q - 1].value <= g[k - 1].value;
    if k != p {
      assert g[k - 1] == h[k - 1];
      assert EdgeOk(h, k) && EdgeOk(h, p);
    }
  }

  /** Taking out the entry at position p leaves every edge in order except possibly the one above p,
      and that one breaks exactly when p was not the last slot and the last leaf, which moves into the
      hole, is below the hole's parent. */
  lemma ExtractBreaksOnlyEdgeAbove<T>(h: Heap<T>, p: nat)
    requires 1 <= p <= |h| && MinOrdered(h)
    ensures OrderedButTop(Extract(h, p), p)
    ensures MinOrdered(Extract(h, p)) <==> !(1 < p < |h| && h[|h| - 1].value < h[p / 2 - 1].value)
  {
    FillHoleOrders(h, p);
    SiftDownOrders(FillHole(h, p), p, p);
    if 1 < p < |h| {
      EdgeAboveHole(h, p);
    }
  }

  /** A heap whose order breaks: 4 is the last leaf, and moves below 5 when 6 is taken out. */
  lemma OrderCanBreak()
    ensures var h := [Entry(1, 1), Entry(5, 2), Entry(2, 3), Entry(6, 4), Entry(7, 5), Entry(3, 6), Entry(4, 7)];
            MinOrdered(h) && !MinOrdered(Extract(h, 4))
  {
    var h := [Entry(1, 1), Entry(5, 2), Entry(2, 3), Entry(6, 4), Entry(7, 5), Entry(3, 6), Entry(4, 7)];
    ExtractBreaksOnlyEdgeAbove(h, 4);
  }

  // ----- Which items a heap holds -----

  ghost predicate HasItem<T(!new)>(h: Heap<T>, item: T) {
    exists i :: 0 <= i < |h| && h[i].item == item
  }

  ghost predicate DistinctItems<T>(h: Heap<T>) {
    forall i, j :: 0 <= i < j < |h| ==> h[i].item != h[j].item
  }

  lemma SwapItems<T(!new)>(h: Heap<T>, p: nat, q: nat)
    requires 1 <= p <= |h| && 1 <= q <= |h|
    ensures DistinctItems(h) ==> DistinctItems(Swap(h, p, q))
    ensures forall t :: HasItem(Swap(h, p, q), t) <==> HasItem(h, t)
  {
    var g := Swap(h, p, q);
    forall t
      ensures HasItem(g, t) <==> HasItem(h, t)
    {
      if HasItem(h, t) {
        var i :| 0 <= i < |h| && h[i].item == t;
        assert g[if i == p - 1 then q - 1 else if i == q - 1 then p - 1 else i].item == t;
      }
      if HasItem(g, t) {
        var i :| 0 <= i < |g| && g[i].item == t;
        assert h[if i == p - 1 then q - 1 else if i == q - 1 then p - 1 else i].item == t;
      }
    }
  }

  lemma {:induction false} SiftUpItems<T(!new)>(h: Heap<T>, p: nat)
    requires 1 <= p <= |h|
    ensures DistinctItems(h) ==> DistinctItems(SiftUp(h, p))
    ensures forall t :: HasItem(SiftUp(h, p), t) <==> HasItem(h, t)
    decreases p
  {
    if p > 1 && h[p - 1].value < h[p / 2 - 1].value {
      SwapItems(h, p, p / 2);
      SiftUpItems(Swap(h, p, p / 2), p / 2);
    }
  }

  lemma {:induction false} SiftDownItems<T(!new)>(h: Heap<T>, p: nat)
    requires 1 <= p
    ensures DistinctItems(h) ==> DistinctItems(SiftDown(h, p))
    ensures forall t :: HasItem(SiftDown(h, p), t) <==> HasItem(h, t)
    decreases |h| - p
  {
    if p <= |h| && Greatest(h, p) != p {
      SwapItems(h, p, Greatest(h, p));
      SiftDownItems(Swap(h, p, Greatest(h, p)), Greatest(h, p));
    }
  }

  lemma InsertItems<T(!new)>(h: Heap<T>, x: Entry<T>)
    requires DistinctItems(h) && !HasItem(h, x.item)
    ensures DistinctItems(Insert(h, x))
    ensures forall t :: HasItem(Insert(h, x), t) <==> HasItem(h, t) || t == x.item
  {
    var g := h + [x];
    SiftUpItems(g, |g|);
    forall t
      ensures HasItem(g, t) <==> HasItem(h, t) || t == x.item
    {
      if HasItem(h, t) {
        var i :| 0 <= i < |h| && h[i].item == t;
        assert g[i].item == t;
      }
      if HasItem(g, t) {
        var i :| 0 <= i < |g| && g[i].item == t;
        if i < |h| { assert h[i].item == t; }
      }
      assert g[|h|].item == x.item;
    }
  }

  lemma ExtractItems<T(!new)>(h: Heap<T>, p: nat)
    requires 1 <= p <= |h| && DistinctItems(h)
    ensures DistinctItems(Extract(h, p))
    ensures forall t :: HasItem(Extract(h, p), t) <==> HasItem(h, t) && t != h[p - 1].item
  {
    var g := FillHole(h, p);
    SiftDownItems(g, p);
    forall t
      ensures HasItem(g, t) <==> HasItem(h, t) && t != h[p - 1].item
    {
      if HasItem(h, t) && t != h[p - 1].item {
        var i :| 0 <= i < |h| && h[i].item == t;
        assert g[if i == |h| - 1 then p - 1 else i].item == t;
      }
      if HasItem(g, t) {
        var i :| 0 <= i < |g| && g[i].item == t;
        assert h[if i == p - 1 then |h| - 1 else i].item == t;
      }
    }
  }

  /** RemoveItem takes out exactly its item, with its value, and leaves every other entry as it is. */
  lemma RemoveItemExact<T(!new)>(h: Heap<T>, item: T)
    requires DistinctItems(h)
    ensures DistinctItems(RemoveItem(h, item))
    ensures forall t :: HasItem(RemoveItem(h, item), t) <==> HasItem(h, t) && t != item
    ensures !HasItem(h, item) ==> RemoveItem(h, item) == h
    ensures var p := Position(h, item, 1);
            HasItem(h, item) ==>
              p <= |h| && h[p - 1].item == item && multiset(RemoveItem(h, item)) + multiset{h[p - 1]} == multiset(h)
  {
    var p := Position(h, item, 1);
    if p <= |h| {
      ExtractItems(h, p);
      ExtractRemoves(h, p);
    }
  }

  // ----- The least element, and draining -----

  lemma {:induction false} RootIsLeast<T>(h: Heap<T>, p: nat)
    requires 1 <= p <= |h| && MinOrdered(h)
    ensures h[0].value <= h[p - 1].value
    decreases p
  {
    if p > 1 {
      assert EdgeOk(h, p);
      RootIsLeast(h, p / 2);
    }
  }

  /** ExtractMin: the entry it returns is a least one, and what is left is a heap. */
  lemma ExtractMinIsLeast<T>(h: Heap<T>)
    requires |h| > 0 && MinOrdered(h)
    ensures MinOrdered(Extract(h, 1))
    ensures forall e :: e in h ==> h[0].value <= e.value
    ensures forall e :: e in Extract(h, 1) ==> h[0].value <= e.value
  {
    ExtractBreaksOnlyEdgeAbove(h, 1);
    ExtractRemoves(h, 1);
    forall e | e in h
      ensures h[0].value <= e.value
    {
      var p :| 0 <= p < |h| && h[p] == e;
      RootIsLeast(h, p + 1);
    }
    forall e | e in Extract(h, 1)
      ensures e in h
    {
      assert e in multiset(Extract(h, 1));
      assert e in multiset(h);
    }
  }

  /** The entries in the order repeated ExtractMin calls return them. */
  function Drain<T>(h: Heap<T>): (s: seq<Entry<T>>)
    ensures |s| == |h|
    decreases |h|
  {
    if h == [] then [] else [h[0]] + Drain(Extract(h, 1))
  }

  ghost predicate Sorted<T>(s: seq<Entry<T>>) {
    forall i, j :: 0 <= i < j < |s| ==> s[i].value <= s[j].value
  }

  lemma ConsSorted<T>(e: Entry<T>, s: seq<Entry<T>>)
    requires Sorted(s) && forall x :: x in s ==> e.value <= x.value
    ensures Sorted([e] + s)
  {
  }

  lemma SameMultisetSameMembers<T>(s: seq<T>, t: seq<T>)
    requires multiset(s) == multiset(t)
    ensures forall x :: x in s ==> x in t
  {
    forall x | x in s
      ensures x in t
    {
      assert x in multiset(s);
    }
  }

  /** Draining a heap is sorting it. */
  lemma {:induction false} DrainSorts<T>(h: Heap<T>)
    requires MinOrdered(h)
    ensures multiset(Drain(h)) == multiset(h)
    ensures Sorted(Drain(h))
    decreases |h|
  {
    if h != [] {
      var g := Extract(h, 1);
      ExtractMinIsLeast(h);
      ExtractRemoves(h, 1);
      DrainSorts(g);
      SameMultisetSameMembers(Drain(g), g);
      ConsSorted(h[0], Drain(g));
    }
  }

  /** The heap made by inserting the entries of s one after the other into an empty heap. */
  function InsertAll<T>(s: seq<Entry<T>>): (h: Heap<T>)
    ensures |h| == |s|
  {
    if s == [] then [] else Insert(InsertAll(s[..|s| - 1]), s[|s| - 1])
  }

  lemma {:induction false} InsertAllIsHeap<T>(s: seq<Entry<T>>)
    ensures MinOrdered(InsertAll(s)) && multiset(InsertAll(s)) == multiset(s)
  {
    if s != [] {
      var t, x := s[..|s| - 1], s[|s| - 1];
      InsertAllIsHeap(t);
      InsertKeepsOrder(InsertAll(t), x);
      InsertAdds(InsertAll(t), x);
      assert s == t + [x];
    }
  }

  /** Inserting everything and draining it is a sorted permutation of the input. */
  lemma HeapSort<T>(s: seq<Entry<T>>)
    ensures Sorted(Drain(InsertAll(s))) && multiset(Drain(InsertAll(s))) == multiset(s)
  {
    InsertAllIsHeap(s);
    DrainSorts(InsertAll(s));
  }
}
