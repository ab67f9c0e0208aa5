/** OSHeap.h and OSHeap.cpp: the array heap with membership marks. */
module OSHeap {
  import opened HeapOrder

  class OSHeapElem {
    var fValue: int
    var fCurrentHeap: OSHeap?

    constructor ()
      ensures fValue == 0 && fCurrentHeap == null
    {
      fValue := 0;
      fCurrentHeap := null;
    }

    method SetValue(newValue: int)
      modifies this`fValue
      ensures fValue == newValue
    {
      fValue := newValue;
    }

    predicate IsMemberOfAnyHeap()
      reads this
    {
      fCurrentHeap != null
    }
  }

  class OSHeap {
    var fHeap: array<OSHeapElem?>
    var fFreeIndex: nat
    var fArraySize: nat

    /** Slots 1 to fFreeIndex - 1 hold different elements. */
    ghost predicate Shape()
      reads this, fHeap
    {
      && fHeap.Length == fArraySize
      && 1 <= fFreeIndex <= fArraySize
      && 2 <= fArraySize
      && (forall p :: 1 <= p < fFreeIndex ==> fHeap[p] != null)
      && (forall p, q :: 1 <= p < q < fFreeIndex ==> fHeap[p] != fHeap[q])
    }

    ghost function Members(): (s: seq<OSHeapElem?>)
      reads this, fHeap
    {
      if 1 <= fFreeIndex <= fHeap.Length then fHeap[1..fFreeIndex] else []
    }

    ghost function EntryAt(p: nat): (e: Entry<OSHeapElem>)
      reads this, fHeap, Members()
      requires Shape() && 1 <= p < fFreeIndex
      ensures e.item == fHeap[p] && e.value == fHeap[p].fValue
    {
      assert fHeap[p] == Members()[p - 1];
      Entry(fHeap[p].fValue, fHeap[p])
    }

    ghost function Entries(): (h: Heap<OSHeapElem>)
      reads this, fHeap, Members()
      requires Shape()
      ensures |h| == fFreeIndex - 1
      ensures forall p :: 1 <= p < fFreeIndex ==> h[p - 1] == EntryAt(p)
    {
      seq(fFreeIndex - 1, i requires 0 <= i < fFreeIndex - 1 && Shape() reads this, fHeap, Members() => EntryAt(i + 1))
    }

    /** Shape, and every member carries this heap as its mark. */
    ghost predicate Valid()
      reads this, fHeap, Members()
    {
      Shape() && forall p :: 1 <= p < fFreeIndex ==> fHeap[p] == Members()[p - 1] && fHeap[p].fCurrentHeap == this
    }

    constructor (inStartSize: nat)
      ensures Valid() && fresh(fHeap) && Entries() == []
    {
      var size := if inStartSize < 2 then 2 else inStartSize;
      fFreeIndex := 1;
      fArraySize := size;
      fHeap := new OSHeapElem?[size](_ => null);
    }

    method CurrentHeapSize() returns (n: nat)
      requires Valid()
      ensures n == |Entries()|
    {
      n := fFreeIndex - 1;
    }

    method PeekMin() returns (r: OSHeapElem?)
      requires Valid()
      ensures r == null <==> Entries() == []
      ensures r != null ==> Entries()[0].item == r && Entries()[0].value == r.fValue
      ensures r != null && MinOrdered(Entries()) ==> forall e :: e in Entries() ==> r.fValue <= e.value
    {
      if fFreeIndex - 1 > 0 {
        r := fHeap[1];
        if MinOrdered(Entries()) {
          ExtractMinIsLeast(Entries());
        }
      } else {
        r := null;
      }
    }

    /** Doubles the array when it is full. */
    method Grow()
      requires Valid()
      modifies this`fHeap, this`fArraySize
      ensures Valid() && Entries() == old(Entries()) && Members() == old(Members())
      ensures fFreeIndex < fArraySize
      ensures fHeap == old(fHeap) || fresh(fHeap)
    {
      if fFreeIndex == fArraySize {
        var tempArray := new OSHeapElem?[fArraySize * 2](_ => null);
        forall i | 0 <= i < fFreeIndex {
          tempArray[i] := fHeap[i];
        }
        fArraySize := fArraySize * 2;
        fHeap := tempArray;
        assert Members() == old(Members());
        assert Entries() == old(Entries());
      }
    }

    /** Exchanges two slots, as both sift loops do. */
    method SwapSlots(p: nat, q: nat)
      requires Valid() && 1 <= p < fFreeIndex && 1 <= q < fFreeIndex
      modifies fHeap
      ensures Valid() && Entries() == Swap(old(Entries()), p, q)
      ensures fHeap[p] == old(fHeap[q]) && fHeap[q] == old(fHeap[p])
    {
      var temp := fHeap[p];
      fHeap[p] := fHeap[q];
      fHeap[q] := temp;
      assert Entries() == Swap(old(Entries()), p, q);
    }

    /** Writes the element into the next free slot. */
    method Append(inElem: OSHeapElem)
      requires Valid() && inElem.fCurrentHeap == null
      modifies this, fHeap, inElem`fCurrentHeap
      ensures Valid() && (fHeap == old(fHeap) || fresh(fHeap))
      ensures Entries() == old(Entries()) + [Entry(inElem.fValue, inElem)]
      ensures Members() == old(Members()) + [inElem]
    {
      Grow();
      PutLast(inElem);
    }

    method PutLast(inElem: OSHeapElem)
      requires Valid() && inElem.fCurrentHeap == null && fFreeIndex < fArraySize
      modifies this`fFreeIndex, fHeap, inElem`fCurrentHeap
      ensures Valid()
      ensures Entries() == old(Entries()) + [Entry(inElem.fValue, inElem)]
      ensures Members() == old(Members()) + [inElem]
    {
      assert forall p :: 1 <= p < fFreeIndex ==> fHeap[p] != inElem;
      fHeap[fFreeIndex] := inElem;
      fFreeIndex := fFreeIndex + 1;
      inElem.fCurrentHeap := this;
      assert Members() == old(Members()) + [inElem];
      assert Entries() == old(Entries()) + [Entry(inElem.fValue, inElem)];
    }

    /** Puts the element into the last leaf and bubbles it up. */
    method Insert(inElem: OSHeapElem)
      requires Valid() && inElem.fCurrentHeap == null
      modifies this, fHeap, inElem`fCurrentHeap
      ensures Valid() && (fHeap == old(fHeap) || fresh(fHeap))
      ensures Entries() == HeapOrder.Insert(old(Entries()), Entry(inElem.fValue, inElem))
      ensures inElem.fCurrentHeap == this
    {
      Append(inElem);
      BubbleUp(fFreeIndex - 1);
    }

    method BubbleUp(p: nat)
      requires Valid() && 1 <= p < fFreeIndex
      modifies fHeap
      ensures Valid() && Entries() == SiftUp(old(Entries()), p)
    {
      var swapPos := p;
      while swapPos > 1
        invariant 1 <= swapPos < fFreeIndex
        invariant Valid() && SiftUp(Entries(), swapPos) == SiftUp(old(Entries()), p)
      {
        var nextSwapPos := swapPos / 2;
        assert Entries()[swapPos - 1] == EntryAt(swapPos) && Entries()[nextSwapPos - 1] == EntryAt(nextSwapPos);
        if fHeap[swapPos].fValue < fHeap[nextSwapPos].fValue {
          SwapSlots(swapPos, nextSwapPos);
          swapPos := nextSwapPos;
        } else {
          break;
        }
      }
    }

    /** Takes out the element in slot inIndex: the last leaf fills the hole and is sifted down. */
    method Extract(inIndex: nat) returns (victim: OSHeapElem?)
      requires Valid() && 1 <= inIndex
      modifies this, fHeap, Members()`fCurrentHeap
      ensures Valid() && fHeap == old(fHeap)
      ensures victim == null <==> inIndex > |old(Entries())|
      ensures victim == null ==> Entries() == old(Entries())
      ensures victim != null ==> victim == old(Entries()[inIndex - 1].item) && victim.fCurrentHeap == null
      ensures victim != null ==> Entries() == HeapOrder.Extract(old(Entries()), inIndex)
    {
      if fFreeIndex <= inIndex {
        return null;
      }
      victim := fHeap[inIndex];
      assert victim == Members()[inIndex - 1];
      ExtractAt(inIndex, victim);
    }

    method ExtractAt(inIndex: nat, victim: OSHeapElem)
      requires Valid() && 1 <= inIndex < fFreeIndex && fHeap[inIndex] == victim
      modifies this, fHeap, victim`fCurrentHeap
      ensures Valid() && fHeap == old(fHeap)
      ensures Entries() == HeapOrder.Extract(old(Entries()), inIndex)
      ensures victim.fCurrentHeap == null
    {
      FillHole(inIndex, victim);
      Heapify(inIndex);
    }

    /** The smallest of a slot and its two children. */
    method PickGreatest(parent: nat) returns (greatest: nat)
      requires Valid() && 1 <= parent < fFreeIndex
      ensures greatest == Greatest(Entries(), parent)
    {
      greatest := parent;
      var leftChild := parent * 2;
      if leftChild < fFreeIndex && fHeap[leftChild].fValue < fHeap[parent].fValue {
        greatest := leftChild;
      }
      var rightChild := parent * 2 + 1;
      if rightChild < fFreeIndex && fHeap[rightChild].fValue < fHeap[greatest].fValue {
        greatest := rightChild;
      }
    }

    lemma SiftDownTurn(h: Heap<OSHeapElem>, p: nat)
      requires 1 <= p <= |h|
      ensures SiftDown(h, p) == if Greatest(h, p) == p then h else SiftDown(Swap(h, p, Greatest(h, p)), Greatest(h, p))
    {
    }

    /** One turn of the heapify loop: swaps the parent with its smallest child if that is smaller. */
    method HeapifyStep(parent: nat) returns (greatest: nat)
      requires Valid() && 1 <= parent < fFreeIndex
      modifies fHeap
      ensures Valid() && parent <= greatest < fFreeIndex
      ensures greatest == parent ==> Entries() == SiftDown(old(Entries()), parent)
      ensures SiftDown(Entries(), greatest) == SiftDown(old(Entries()), parent)
    {
      greatest := PickGreatest(parent);
      SiftDownTurn(Entries(), parent);
      if greatest != parent {
        SwapSlots(parent, greatest);
      }
    }

    method Heapify(p: nat)
      requires Valid() && 1 <= p
      modifies fHeap
      ensures Valid() && Entries() == SiftDown(old(Entries()), p)
    {
      var parent := p;
      ghost var target := SiftDown(Entries(), p);
      while parent < fFreeIndex
        invariant 1 <= parent
        invariant Valid() && SiftDown(Entries(), parent) == target
        decreases fFreeIndex - parent
      {
        var greatest := HeapifyStep(parent);
        if greatest == parent {
          break;
        }
        parent := greatest;
      }
    }

    /** Unmarks the victim and moves the last leaf into its slot. */
    method FillHole(inIndex: nat, victim: OSHeapElem)
      requires Valid() && 1 <= inIndex < fFreeIndex && fHeap[inIndex] == victim
      modifies this, fHeap, victim`fCurrentHeap
      ensures Valid() && fHeap == old(fHeap)
      ensures Entries() == HeapOrder.FillHole(old(Entries()), inIndex)
      ensures victim.fCurrentHeap == null
    {
      ghost var m := Members();
      victim.fCurrentHeap := null;
      fHeap[inIndex] := fHeap[fFreeIndex - 1];
      fFreeIndex := fFreeIndex - 1;
      assert Members() == m[inIndex - 1 := m[|m| - 1]][..|m| - 1];
      assert Entries() == HeapOrder.FillHole(old(Entries()), inIndex);
    }

    method ExtractMin() returns (r: OSHeapElem?)
      requires Valid()
      modifies this, fHeap, Members()`fCurrentHeap
      ensures Valid() && fHeap == old(fHeap)
      ensures r == null <==> old(Entries()) == []
      ensures r == null ==> Entries() == []
      ensures r != null ==> r == old(Entries()[0].item) && r.fCurrentHeap == null
      ensures r != null ==> Entries() == HeapOrder.Extract(old(Entries()), 1)
      ensures r != null && old(MinOrdered(Entries())) ==>
        MinOrdered(Entries()) && forall e :: e in Entries() ==> old(Entries()[0].value) <= e.value
    {
      ghost var h := Entries();
      r := Extract(1);
      if r != null && MinOrdered(h) {
        ExtractMinIsLeast(h);
      }
    }

    /** Looks the element up from slot 1 on and takes it out; an element of no slot is left alone. */
    method Remove(elem: OSHeapElem) returns (r: OSHeapElem?)
      requires Valid()
      modifies this, fHeap, Members()`fCurrentHeap
      ensures Valid() && fHeap == old(fHeap)
      ensures r == null <==> elem !in old(Members())
      ensures Entries() == RemoveItem(old(Entries()), elem)
      ensures r != null ==> r == elem && r.fCurrentHeap == null
    {
      if fFreeIndex == 1 {
        return null;
      }
      var theIndex := 1;
      while theIndex < fFreeIndex
        invariant 1 <= theIndex <= fFreeIndex
        invariant forall p :: 1 <= p < theIndex ==> fHeap[p] != elem
        invariant Position(Entries(), elem, theIndex) == Position(Entries(), elem, 1)
      {
        assert Entries()[theIndex - 1] == EntryAt(theIndex);
        if elem == fHeap[theIndex] {
          break;
        }
        theIndex := theIndex + 1;
      }
      if theIndex == fFreeIndex {
        return null;
      }
      assert Members()[theIndex - 1] == elem;
      r := Extract(theIndex);
    }
  }
}
