/** What EnQueue does to a queue held as a sequence, oldest first. */
module QueueOrder {
  import opened Sequences

  /** A member keeps its turn; anything else goes to the end. */
  function EnQueued<T(==)>(q: seq<T>, x: T): (r: seq<T>) {
    if x in q then q else q + [x]
  }

  function EnQueuedAll<T(==)>(q: seq<T>, xs: seq<T>): (r: seq<T>)
    decreases |xs|
  {
    if xs == [] then q else EnQueuedAll(EnQueued(q, xs[0]), xs[1..])
  }

  /** Elements enqueued one after the other are queued in the order they came in, oldest first. */
  lemma {:induction false} FirstInFirst<T>(q: seq<T>, xs: seq<T>)
    requires Distinct(q + xs)
    ensures EnQueuedAll(q, xs) == q + xs
    decreases |xs|
  {
    if xs == [] {
      assert q + xs == q;
    } else {
      assert (q + xs)[|q|] == xs[0] && forall i :: 0 <= i < |q| ==> (q + xs)[i] == q[i];
      assert q + xs == (q + [xs[0]]) + xs[1..];
      FirstInFirst(q + [xs[0]], xs[1..]);
    }
  }
}

/** OSQueue.h and OSQueue.cpp: the intrusive ring around a sentinel, and its iterator. */
module OSQueue {
  import opened QueueOrder
  import opened Sequences

  class OSQueueElem {
    var fNext: OSQueueElem?
    var fPrev: OSQueueElem?
    var fQueue: OSQueue?

    constructor ()
      ensures fNext == null && fPrev == null && fQueue == null
    {
      fNext, fPrev, fQueue := null, null, null;
    }

    predicate IsMember(queue: OSQueue)
      reads this
    {
      queue == fQueue
    }
  }

  class OSQueue {
    const fSentinel: OSQueueElem
    var fLength: nat

    ghost var Elems: seq<OSQueueElem>     // the members, oldest first
    ghost var World: set<OSQueueElem>     // every element this queue has met

    /** The ring in the direction of fPrev, from the sentinel past the oldest member back to the sentinel. */
    ghost function Ring(): seq<OSQueueElem>
      reads this
    {
      [fSentinel] + Elems + [fSentinel]
    }

    ghost predicate Linked(r: seq<OSQueueElem>)
      reads r
    {
      forall i :: 0 <= i < |r| - 1 ==> r[i].fPrev == r[i + 1] && r[i + 1].fNext == r[i]
    }

    ghost predicate Valid()
      reads this, fSentinel, Elems, World
    {
      && fLength == |Elems|
      && Distinct(Elems)
      && (forall e :: e in Elems ==> e in World)
      && fSentinel !in World
      && fSentinel.fQueue == null
      && (forall e :: e in World ==> (e.fQueue == this <==> e in Elems))
      && Linked(Ring())
    }

    constructor ()
      ensures Valid() && Elems == [] && World == {} && fresh(fSentinel)
    {
      fSentinel := new OSQueueElem();
      fLength := 0;
      Elems := [];
      World := {};
      new;
      fSentinel.fNext := fSentinel;
      fSentinel.fPrev := fSentinel;
    }

    /** The element may be handed to this queue: if it says it is a member, the queue has met it. */
    ghost predicate Knows(elem: OSQueueElem)
      reads this, elem
    {
      elem != fSentinel && (elem.fQueue == this ==> elem in World)
    }

    /** Links the element in as the newest member; a member stays where it is. */
    method EnQueue(elem: OSQueueElem)
      requires Valid() && Knows(elem)
      requires elem.fQueue == null || elem.fQueue == this
      modifies this, fSentinel, Elems, elem
      ensures Valid() && World == old(World) + {elem}
      ensures Elems == EnQueued(old(Elems), elem)
      ensures elem.fQueue == this
    {
      if elem.fQueue == this {
        assert World == World + {elem};
        return;
      }
      ghost var r := Ring();
      assert elem !in Elems;
      assert |Ring()| == |Elems| + 2 && Ring()[|Elems|].fPrev == Ring()[|Elems| + 1] == fSentinel;
      elem.fNext := fSentinel.fNext;
      elem.fPrev := fSentinel;
      elem.fQueue := this;
      fSentinel.fNext.fPrev := elem;
      fSentinel.fNext := elem;
      fLength := fLength + 1;
      Elems := Elems + [elem];
      World := World + {elem};
      assert Ring() == r[..|r| - 1] + [elem, fSentinel];
    }

    /** Unlinks the oldest member. */
    method DeQueue() returns (elem: OSQueueElem?)
      requires Valid()
      modifies this, fSentinel, Elems
      ensures Valid() && World == old(World)
      ensures elem == null <==> old(Elems) == []
      ensures elem == null ==> Elems == []
      ensures elem != null ==> old(Elems) == [elem] + Elems && elem.fQueue == null
    {
      if fLength > 0 {
        assert Ring()[0].fPrev == Ring()[1] && Ring()[1].fPrev == Ring()[2];
        elem := fSentinel.fPrev;
        elem.fPrev.fNext := fSentinel;
        fSentinel.fPrev := elem.fPrev;
        elem.fQueue := null;
        fLength := fLength - 1;
        Elems := Elems[1..];
        assert forall i :: 0 < i < |Ring()| ==> Ring()[i] == old(Ring())[i + 1];
      } else {
        elem := null;
      }
    }

    method GetHead() returns (r: OSQueueElem?)
      requires Valid()
      ensures r == if Elems == [] then null else Elems[0]
    {
      assert Ring()[0].fPrev == Ring()[1];
      r := if fLength > 0 then fSentinel.fPrev else null;
    }

    method GetTail() returns (r: OSQueueElem?)
      requires Valid()
      ensures r == if Elems == [] then null else Elems[|Elems| - 1]
    {
      assert Ring()[|Elems|].fPrev == Ring()[|Elems| + 1];
      r := if fLength > 0 then fSentinel.fNext else null;
    }

    /** Unlinks the element from wherever it is; a stranger is left alone. */
    method Remove(elem: OSQueueElem)
      requires Valid() && Knows(elem)
      modifies this, fSentinel, Elems
      ensures Valid() && World == old(World)
      ensures old(elem.fQueue) != this ==> Elems == old(Elems) && elem.fQueue == old(elem.fQueue)
      ensures old(elem.fQueue) == this ==> elem.fQueue == null && Elems == Without(old(Elems), elem)
    {
      if elem.fQueue == this {
        ghost var k :| 0 <= k < |Elems| && Elems[k] == elem;
        WithoutIsSplice(Elems, k);
        Unlink(elem, k);
      }
    }

    lemma SplicedMembers(elems: seq<OSQueueElem>, k: nat)
      requires k < |elems| && Distinct(elems)
      ensures forall e :: e in elems[..k] + elems[k + 1..] <==> e in elems && e != elems[k]
    {
      assert elems == elems[..k] + [elems[k]] + elems[k + 1..];
    }

    lemma JoinedRing(elems: seq<OSQueueElem>, k: nat)
      requires k < |elems|
      requires var r := [fSentinel] + elems + [fSentinel];
               r[k].fPrev == r[k + 2] && r[k + 2].fNext == r[k] && Linked(r[..k + 1]) && Linked(r[k + 2..])
      ensures Linked([fSentinel] + (elems[..k] + elems[k + 1..]) + [fSentinel])
    {
      var r := [fSentinel] + elems + [fSentinel];
      var a, b := r[..k + 1], r[k + 2..];
      var s := [fSentinel] + (elems[..k] + elems[k + 1..]) + [fSentinel];
      assert s == a + b;
      forall i | 0 <= i < |s| - 1 ensures s[i].fPrev == s[i + 1] && s[i + 1].fNext == s[i] {
        if i < k {
          assert a[i].fPrev == a[i + 1] && a[i + 1].fNext == a[i];
        } else if i > k {
          assert b[i - k - 1].fPrev == b[i - k] && b[i - k].fNext == b[i - k - 1];
        }
      }
    }

    method Unlink(elem: OSQueueElem, ghost k: nat)
      requires Valid() && k < |Elems| && Elems[k] == elem
      modifies this, fSentinel, Elems
      ensures Valid() && World == old(World)
      ensures elem.fQueue == null && Elems == old(Elems)[..k] + old(Elems)[k + 1..]
    {
      Bypass(elem, k);
      fLength := fLength - 1;
      SplicedMembers(Elems, k);
      JoinedRing(Elems, k);
      Elems := Elems[..k] + Elems[k + 1..];
    }

    /** Links the neighbours to each other. */
    method Bypass(elem: OSQueueElem, ghost k: nat)
      requires Valid() && k < |Elems| && Elems[k] == elem
      modifies fSentinel, Elems
      ensures elem.fQueue == null && forall e <- World + {fSentinel} :: e != elem ==> e.fQueue == old(e.fQueue)
      ensures Ring()[k].fPrev == Ring()[k + 2] && Ring()[k + 2].fNext == Ring()[k]
      ensures Linked(Ring()[..k + 1]) && Linked(Ring()[k + 2..])
    {
      ghost var r := Ring();
      assert r[k + 1] == elem && r[k].fPrev == r[k + 1] && r[k + 1].fPrev == r[k + 2];
      elem.fNext.fPrev := elem.fPrev;
      elem.fPrev.fNext := elem.fNext;
      elem.fQueue := null;
    }
  }

  /** OSQueueIter: walks from the oldest member to the newest. */
  class OSQueueIter {
    const fQueueP: OSQueue
    var fCurrentElemP: OSQueueElem?

    ghost var Visited: seq<OSQueueElem>   // the members already passed

    /** The iterator stands on the first member it has not passed, or is done. */
    ghost predicate Valid()
      reads this, fQueueP, fQueueP.fSentinel, fQueueP.Elems, fQueueP.World
    {
      && fQueueP.Valid()
      && |Visited| <= |fQueueP.Elems|
      && Visited == fQueueP.Elems[..|Visited|]
      && fCurrentElemP == (if |Visited| == |fQueueP.Elems| then null else fQueueP.Elems[|Visited|])
    }

    constructor (inQueue: OSQueue)
      requires inQueue.Valid()
      ensures Valid() && fQueueP == inQueue && Visited == []
    {
      fQueueP := inQueue;
      Visited := [];
      var head := inQueue.GetHead();
      fCurrentElemP := head;
    }

    predicate IsDone()
      reads this
    {
      fCurrentElemP == null
    }

    method Next()
      requires Valid() && !IsDone()
      modifies this
      ensures Valid() && Visited == old(Visited) + [old(fCurrentElemP)]
    {
      var tail := fQueueP.GetTail();
      ghost var k := |Visited|;
      assert fQueueP.Ring()[k + 1].fPrev == fQueueP.Ring()[k + 2];
      Visited := Visited + [fCurrentElemP];
      if fCurrentElemP == tail {
        fCurrentElemP := null;
      } else {
        fCurrentElemP := fCurrentElemP.fPrev;
      }
    }
  }

  /** A whole walk visits every member once, oldest first. */
  method Walk(queue: OSQueue) returns (visited: seq<OSQueueElem>)
    requires queue.Valid()
    ensures visited == queue.Elems
  {
    visited := [];
    var iter := new OSQueueIter(queue);
    while !iter.IsDone()
      invariant iter.Valid() && iter.fQueueP == queue && visited == iter.Visited
      invariant fresh(iter)
      modifies iter
      decreases |queue.Elems| - |iter.Visited|
    {
      visited := visited + [iter.fCurrentElemP];
      iter.Next();
    }
  }
}
