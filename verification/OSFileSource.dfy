/** OSFileSource.h and OSFileSource.cpp: the cache of file blocks. The pool's OSQueue is a sequence of its
    members, oldest first, on which EnQueue and Remove act as EnQueued and Without. */
module OSFileSource {
  import opened QueueOrder
  import opened Sequences
  import opened LruOrder

  type Byte = b: int | 0 <= b < 256

  class FileBlockBuffer {
    const fDataBuffer: array<Byte>
    var fArrayIndex: int
    var fBufferFillSize: nat

    /** One byte more than asked for stays 0 behind the data. */
    constructor AllocateBuffer(buffSize: nat)
      ensures fArrayIndex == -1 && fBufferFillSize == 0
      ensures fresh(fDataBuffer) && fDataBuffer.Length == buffSize + 1
    {
      fDataBuffer := new Byte[buffSize + 1](_ => 0);
      fArrayIndex, fBufferFillSize := -1, 0;
    }
  }

  class FileBlockPool {
    var fQueue: seq<FileBlockBuffer>
    var fMaxBuffers: nat
    var fNumCurrentBuffers: nat
    var fBufferInc: nat

    ghost function Buffers(): set<FileBlockBuffer>
      reads this
    {
      set b | b in fQueue
    }

    constructor (maxBuffers: nat, bufferInc: nat)
      ensures fQueue == [] && fNumCurrentBuffers == 0 && fBufferInc == bufferInc
      ensures fMaxBuffers == if maxBuffers > 0 then maxBuffers else 1
    {
      fQueue, fNumCurrentBuffers, fBufferInc := [], 0, bufferInc;
      fMaxBuffers := if maxBuffers > 0 then maxBuffers else 1;
    }

    method IncMaxBuffers()
      modifies this`fMaxBuffers
      ensures fMaxBuffers == old(fMaxBuffers) + fBufferInc
    {
      fMaxBuffers := fMaxBuffers + fBufferInc;
    }

    /** The maximum never gets to 0. */
    method DecMaxBuffers()
      modifies this`fMaxBuffers
      ensures fMaxBuffers == old(if fMaxBuffers > fBufferInc then fMaxBuffers - fBufferInc else fMaxBuffers)
      ensures old(fMaxBuffers) > 0 ==> fMaxBuffers > 0
    {
      if fMaxBuffers > fBufferInc {
        fMaxBuffers := fMaxBuffers - fBufferInc;
      }
    }

    method DecCurBuffers()
      modifies this`fNumCurrentBuffers
      ensures fNumCurrentBuffers == old(if fNumCurrentBuffers > 0 then fNumCurrentBuffers - 1 else 0)
    {
      if fNumCurrentBuffers > 0 {
        fNumCurrentBuffers := fNumCurrentBuffers - 1;
      }
    }

    /** A new buffer while there is room for one, and otherwise the oldest, taken off the queue. */
    method GetBufferElement(bufferSizeBytes: nat) returns (b: FileBlockBuffer?)
      modifies this`fQueue, this`fNumCurrentBuffers
      ensures old(fNumCurrentBuffers < fMaxBuffers)
        ==> (&& b != null && fresh(b) && fresh(b.fDataBuffer)
             && b.fArrayIndex == -1 && b.fDataBuffer.Length == bufferSizeBytes + 1
             && fQueue == old(fQueue) + [b] && fNumCurrentBuffers == old(fNumCurrentBuffers) + 1)
      ensures !old(fNumCurrentBuffers < fMaxBuffers)
        ==> (&& fNumCurrentBuffers == old(fNumCurrentBuffers)
             && (if old(fQueue) == [] then b == null && fQueue == [] else b == old(fQueue[0]) && fQueue == old(fQueue)[1..]))
    {
      if fNumCurrentBuffers < fMaxBuffers {
        b := new FileBlockBuffer.AllocateBuffer(bufferSizeBytes);
        fNumCurrentBuffers := fNumCurrentBuffers + 1;
        fQueue := EnQueued(fQueue, b);
        return;
      }
      if fQueue == [] {
        return null;
      }
      b := fQueue[0];
      fQueue := fQueue[1..];
    }

    /** The buffer becomes the newest. */
    method MarkUsed(b: FileBlockBuffer)
      requires Distinct(fQueue)
      modifies this`fQueue
      ensures fQueue == Without(old(fQueue), b) + [b]
    {
      if fQueue == [] || Last(fQueue) != b {
        WithoutMembers(fQueue, b);
        fQueue := Without(fQueue, b);
        fQueue := EnQueued(fQueue, b);
      } else {
        LastStays(fQueue);
      }
    }
  }

  class FileMap {
    const fBlockPool: FileBlockPool
    const fFileMapArray: array<FileBlockBuffer?>
    const fDataBufferSize: nat
    const fMapArraySize: nat

    ghost var Indices: seq<int>     // the block index of each queued buffer
    ghost var Log: seq<Request>     // the requests served so far

    /** Slot i holds a buffer exactly when the buffer is queued with fArrayIndex i. */
    ghost predicate Slots(q: seq<FileBlockBuffer>, indices: seq<int>)
      reads q`fArrayIndex, fFileMapArray
    {
      && |q| == |indices|
      && Distinct(indices)
      && (forall k :: 0 <= k < |q| ==> InSlot(q[k], indices[k]))
      && (forall i :: 0 <= i < fFileMapArray.Length && fFileMapArray[i] != null ==> i in indices)
    }

    ghost predicate InSlot(b: FileBlockBuffer, i: int)
      reads b`fArrayIndex, fFileMapArray
    {
      b.fArrayIndex == i && 0 <= i < fMapArraySize < fFileMapArray.Length && fFileMapArray[i] == b
    }

    ghost predicate OwnData(q: seq<FileBlockBuffer>) {
      && (forall k :: 0 <= k < |q| ==> q[k].fDataBuffer.Length == fDataBufferSize + 1)
      && (forall j, k :: 0 <= j < k < |q| ==> q[j].fDataBuffer != q[k].fDataBuffer)
    }

    ghost predicate Shape()
      reads this, fBlockPool, fBlockPool.fQueue`fArrayIndex, fFileMapArray
    {
      && fDataBufferSize > 0
      && fFileMapArray.Length == fMapArraySize + 1 > 1
      && fBlockPool.fMaxBuffers > 0
      && fBlockPool.fNumCurrentBuffers == |fBlockPool.fQueue|
      && Slots(fBlockPool.fQueue, Indices)
      && OwnData(fBlockPool.fQueue)
    }

    /** The queued indices are what the requests so far leave. */
    ghost predicate Valid()
      reads this, fBlockPool, fBlockPool.fQueue`fArrayIndex, fFileMapArray
    {
      Shape() && Sound(Log) && Indices == Cached(Log)
    }

    /** The map's objects: itself, its pool and array, and the buffers with their data. */
    ghost function Repr(): set<object>
      reads this, fBlockPool
    {
      {this, fBlockPool, fFileMapArray} + fBlockPool.Buffers() + Data()
    }

    ghost function Data(): set<array<Byte>>
      reads fBlockPool
    {
      set b <- fBlockPool.Buffers() :: b.fDataBuffer
    }

    constructor (dataBufferSize: nat, bufferIncCount: nat, fileLen: nat)
      requires dataBufferSize > 0
      ensures Valid() && Log == []
      ensures fresh(fBlockPool) && fresh(fFileMapArray) && fBlockPool.fQueue == []
      ensures fDataBufferSize == dataBufferSize && fMapArraySize == fileLen / dataBufferSize + 1
    {
      fDataBufferSize, fMapArraySize := dataBufferSize, fileLen / dataBufferSize + 1;
      fBlockPool := new FileBlockPool(bufferIncCount, bufferIncCount);
      fFileMapArray := new FileBlockBuffer?[fileLen / dataBufferSize + 2](_ => null);
      Indices, Log := [], [];
    }

    /** Deletes the oldest buffers until there are no more than the maximum. */
    method DeleteOldBuffs()
      requires Shape()
      modifies this`Indices, fBlockPool`fQueue, fBlockPool`fNumCurrentBuffers, fFileMapArray
      ensures Shape() && Indices == LastN(old(Indices), fBlockPool.fMaxBuffers)
      ensures |fBlockPool.fQueue| <= fBlockPool.fMaxBuffers
      ensures fBlockPool.Buffers() <= old(fBlockPool.Buffers())
    {
      while fBlockPool.fNumCurrentBuffers > fBlockPool.fMaxBuffers
        invariant Shape() && |Indices| <= |old(Indices)|
        invariant IsSuffix(Indices, old(Indices)) && IsSuffix(fBlockPool.fQueue, old(fBlockPool.fQueue))
        invariant |Indices| >= Smaller(|old(Indices)|, fBlockPool.fMaxBuffers)
        decreases fBlockPool.fNumCurrentBuffers
      {
        TailIsSuffix(Indices, old(Indices));
        TailIsSuffix(fBlockPool.fQueue, old(fBlockPool.fQueue));
        DeleteOne();
      }
      SuffixIsLastN(Indices, old(Indices), fBlockPool.fMaxBuffers);
      SuffixMembers(fBlockPool.fQueue, old(fBlockPool.fQueue));
    }

    method DeleteOne()
      requires Shape() && fBlockPool.fNumCurrentBuffers > fBlockPool.fMaxBuffers
      modifies this`Indices, fBlockPool`fQueue, fBlockPool`fNumCurrentBuffers, fFileMapArray
      ensures Shape() && Indices == old(Indices)[1..]
      ensures fBlockPool.fQueue == old(fBlockPool.fQueue)[1..]
    {
      ghost var q := fBlockPool.fQueue;
      var theElem := fBlockPool.GetBufferElement(fDataBufferSize);
      assert theElem == q[0] && InSlot(q[0], Indices[0]);
      fFileMapArray[theElem.fArrayIndex] := null;
      fBlockPool.DecCurBuffers();
      Indices := Indices[1..];
      forall k | 0 <= k < |Indices| ensures InSlot(fBlockPool.fQueue[k], Indices[k]) {
        assert InSlot(q[k + 1], old(Indices)[k + 1]);
      }
    }

    lemma SlotIsTaken(i: nat)
      requires Shape() && i < fMapArraySize
      ensures fFileMapArray[i] != null <==> i in Indices
      ensures fFileMapArray[i] != null ==> exists k :: 0 <= k < |Indices| && Indices[k] == i && fBlockPool.fQueue[k] == fFileMapArray[i]
    {
      if i in Indices {
        var k :| 0 <= k < |Indices| && Indices[k] == i;
        assert InSlot(fBlockPool.fQueue[k], Indices[k]);
      }
    }

    lemma SlotHoldsIff(i: nat, b: FileBlockBuffer)
      requires Shape() && i < fMapArraySize
      ensures fFileMapArray[i] == b <==> b in fBlockPool.fQueue && b.fArrayIndex == i
    {
      SlotIsTaken(i);
      if b in fBlockPool.fQueue {
        var k :| 0 <= k < |Indices| && fBlockPool.fQueue[k] == b;
        assert InSlot(fBlockPool.fQueue[k], Indices[k]);
      }
    }

    lemma QueueIsDistinct()
      requires Shape()
      ensures Distinct(fBlockPool.fQueue)
    {
      var q := fBlockPool.fQueue;
      forall j, k | 0 <= j < k < |q| ensures q[j] != q[k] {
        assert InSlot(q[j], Indices[j]) && InSlot(q[k], Indices[k]);
      }
    }

    /** The buffer of a requested block that is there becomes the newest. */
    method Touch(theElem: FileBlockBuffer, i: nat)
      requires Shape() && i < fMapArraySize && fFileMapArray[i] == theElem
      modifies this`Indices, fBlockPool`fQueue
      ensures Shape() && Indices == Without(old(Indices), i) + [i]
      ensures |fBlockPool.fQueue| == |old(fBlockPool.fQueue)|
      ensures fBlockPool.Buffers() == old(fBlockPool.Buffers())
    {
      Moved(theElem, i);
      fBlockPool.MarkUsed(theElem);
      Indices := Without(Indices, i) + [i];
    }

    lemma Moved(theElem: FileBlockBuffer, i: nat)
      requires Shape() && i < fMapArraySize && fFileMapArray[i] == theElem
      ensures Distinct(fBlockPool.fQueue)
      ensures var q' := Without(fBlockPool.fQueue, theElem) + [theElem];
              && Slots(q', Without(Indices, i) + [i])
              && OwnData(q')
              && |q'| == |fBlockPool.fQueue|
              && (set b | b in q') == fBlockPool.Buffers()
    {
      SlotIsTaken(i);
      QueueIsDistinct();
      var k :| 0 <= k < |Indices| && Indices[k] == i && fBlockPool.fQueue[k] == theElem;
      assert Without(fBlockPool.fQueue, theElem) == fBlockPool.fQueue[..k] + fBlockPool.fQueue[k + 1..] by {
        WithoutIsSplice(fBlockPool.fQueue, k);
      }
      assert Without(Indices, i) == Indices[..k] + Indices[k + 1..] by {
        WithoutIsSplice(Indices, k);
      }
      MovedToEnd(fBlockPool.fQueue, k);
      SlotsMoved(fBlockPool.fQueue, Indices, k);
      OwnDataMoved(fBlockPool.fQueue, k);
    }

    lemma OwnDataMoved(q: seq<FileBlockBuffer>, k: nat)
      requires OwnData(q) && k < |q|
      ensures OwnData(q[..k] + q[k + 1..] + [q[k]])
    {
    }

    lemma SlotsMoved(q: seq<FileBlockBuffer>, indices: seq<int>, k: nat)
      requires Slots(q, indices) && k < |q|
      ensures Slots(q[..k] + q[k + 1..] + [q[k]], indices[..k] + indices[k + 1..] + [indices[k]])
    {
      MovedToEnd(indices, k);
      var q', indices' := q[..k] + q[k + 1..] + [q[k]], indices[..k] + indices[k + 1..] + [indices[k]];
      forall m | 0 <= m < |q| ensures InSlot(q'[m], indices'[m]) {
        var m' := if m < k then m else if m < |q| - 1 then m + 1 else k;
        assert q'[m] == q[m'] && indices'[m] == indices[m'] && InSlot(q[m'], indices[m']);
      }
    }

    /** A new buffer, or the oldest, becomes the newest and takes the slot of a requested block that is not there. */
    method Claim(i: nat) returns (theElem: FileBlockBuffer)
      requires Shape() && i < fMapArraySize && fFileMapArray[i] == null
      requires fBlockPool.fNumCurrentBuffers <= fBlockPool.fMaxBuffers
      modifies this`Indices, fBlockPool`fQueue, fBlockPool`fNumCurrentBuffers, fFileMapArray
      modifies fBlockPool.Buffers()`fArrayIndex
      ensures Shape() && Indices == LastN(old(Indices), fBlockPool.fMaxBuffers - 1) + [i]
      ensures |fBlockPool.fQueue| <= fBlockPool.fMaxBuffers
      ensures theElem in old(fBlockPool.Buffers()) || (fresh(theElem) && fresh(theElem.fDataBuffer))
      ensures fFileMapArray[i] == theElem && theElem in fBlockPool.Buffers() && theElem.fArrayIndex == i
      ensures fBlockPool.Buffers() - {theElem} <= old(fBlockPool.Buffers())
      ensures forall b <- old(fBlockPool.Buffers()) :: b != theElem ==> b.fArrayIndex == old(b.fArrayIndex)
    {
      SlotIsTaken(i);
      theElem := Take();
      ghost var q := Init(fBlockPool.fQueue);
      assert fBlockPool.fQueue == q + [theElem];
      Assign(theElem, q, i);
    }

    /** Gives a block's slot to the newest buffer; q is the queue before it. */
    method Assign(theElem: FileBlockBuffer, ghost q: seq<FileBlockBuffer>, i: nat)
      requires 0 < fBlockPool.fMaxBuffers
      requires if theElem.fArrayIndex < 0 then |Indices| < fBlockPool.fMaxBuffers && Slots(q, Indices)
               else |Indices| == fBlockPool.fMaxBuffers && Slots([theElem] + q, Indices)
      requires i < fMapArraySize < fFileMapArray.Length && fFileMapArray[i] == null && i !in Indices && theElem !in q
      modifies this`Indices, fFileMapArray, theElem`fArrayIndex
      ensures Indices == LastN(old(Indices), fBlockPool.fMaxBuffers - 1) + [i]
      ensures Slots(q + [theElem], Indices)
      ensures fFileMapArray[i] == theElem && theElem.fArrayIndex == i
    {
      Vacate(theElem, q, i);
      Place(theElem, q, i);
    }

    /** The pool's part: the queue, without its oldest where it was full, and then the buffer. */
    method Take() returns (theElem: FileBlockBuffer)
      requires Shape() && fBlockPool.fNumCurrentBuffers <= fBlockPool.fMaxBuffers
      modifies fBlockPool`fQueue, fBlockPool`fNumCurrentBuffers
      ensures fBlockPool.fNumCurrentBuffers == |fBlockPool.fQueue| && OwnData(fBlockPool.fQueue)
      ensures fBlockPool.fQueue != [] && Last(fBlockPool.fQueue) == theElem && theElem !in Init(fBlockPool.fQueue)
      ensures fBlockPool.fNumCurrentBuffers <= fBlockPool.fMaxBuffers
      ensures theElem in old(fBlockPool.Buffers()) || (fresh(theElem) && fresh(theElem.fDataBuffer))
      ensures fBlockPool.Buffers() - {theElem} <= old(fBlockPool.Buffers())
      ensures if |old(fBlockPool.fQueue)| < fBlockPool.fMaxBuffers
              then theElem.fArrayIndex == -1 && Init(fBlockPool.fQueue) == old(fBlockPool.fQueue)
              else theElem.fArrayIndex >= 0 && [theElem] + Init(fBlockPool.fQueue) == old(fBlockPool.fQueue)
    {
      QueueIsDistinct();
      ghost var q := fBlockPool.fQueue;
      var b := fBlockPool.GetBufferElement(fDataBufferSize);
      assert b != null;
      theElem := b;
      if |q| < fBlockPool.fMaxBuffers {
        NewAtEnd(q, theElem);
      } else {
        assert InSlot(q[0], Indices[0]);
        OldAtEnd(q);
      }
      fBlockPool.MarkUsed(theElem);
    }

    lemma NewAtEnd(q: seq<FileBlockBuffer>, b: FileBlockBuffer)
      requires Distinct(q) && OwnData(q) && b.fDataBuffer.Length == fDataBufferSize + 1
      requires forall x :: x in q ==> x.fDataBuffer != b.fDataBuffer
      ensures Distinct(q + [b]) && Without(q + [b], b) + [b] == q + [b] && OwnData(q + [b])
      ensures Last(q + [b]) == b && Init(q + [b]) == q && b !in q
    {
      LastStays(q + [b]);
    }

    lemma OldAtEnd(q: seq<FileBlockBuffer>)
      requires Distinct(q) && OwnData(q) && q != []
      ensures Distinct(q[1..]) && Without(q[1..], q[0]) + [q[0]] == q[1..] + [q[0]] && OwnData(q[1..] + [q[0]])
      ensures Init(q[1..] + [q[0]]) == q[1..] && q[0] !in q[1..] && [q[0]] + q[1..] == q
    {
      WithoutAbsent(q[1..], q[0]);
      OwnDataMoved(q, 0);
      assert q[..0] + q[1..] + [q[0]] == q[1..] + [q[0]];
    }

    /** Empties the slot of a buffer that is to hold another block. */
    method Vacate(theElem: FileBlockBuffer, ghost q: seq<FileBlockBuffer>, ghost i: nat)
      requires 0 < fBlockPool.fMaxBuffers
      requires if theElem.fArrayIndex < 0 then |Indices| < fBlockPool.fMaxBuffers && Slots(q, Indices)
               else |Indices| == fBlockPool.fMaxBuffers && Slots([theElem] + q, Indices)
      requires i < fFileMapArray.Length && fFileMapArray[i] == null && i !in Indices
      modifies this`Indices, fFileMapArray
      ensures Indices == LastN(old(Indices), fBlockPool.fMaxBuffers - 1)
      ensures Slots(q, Indices) && fFileMapArray[i] == null && i !in Indices
    {
      if theElem.fArrayIndex >= 0 {
        ghost var both, indices := [theElem] + q, Indices;
        assert InSlot(both[0], indices[0]);
        fFileMapArray[theElem.fArrayIndex] := null;
        Indices := Indices[1..];
        forall k | 0 <= k < |q| ensures InSlot(q[k], Indices[k]) {
          assert q[k] == both[k + 1] && old(InSlot(both[k + 1], indices[k + 1]));
        }
      }
    }

    /** Puts the buffer in its slot. */
    method Place(theElem: FileBlockBuffer, ghost q: seq<FileBlockBuffer>, i: nat)
      requires i < fMapArraySize < fFileMapArray.Length && fFileMapArray[i] == null && i !in Indices
      requires Slots(q, Indices) && theElem !in q
      modifies this`Indices, fFileMapArray, theElem`fArrayIndex
      ensures Indices == old(Indices) + [i] && Slots(q + [theElem], Indices)
      ensures fFileMapArray[i] == theElem && theElem.fArrayIndex == i
    {
      ghost var indices := Indices;
      fFileMapArray[i] := theElem;
      theElem.fArrayIndex := i;
      Indices := Indices + [i];
      forall k | 0 <= k < |q| + 1 ensures InSlot((q + [theElem])[k], Indices[k]) {
        assert k < |q| ==> old(InSlot(q[k], indices[k]));
      }
    }

    /** The buffer of a block, to be filled if the block was not there. */
    method GetBuffer(buffIndex: nat) returns (theElem: FileBlockBuffer, fillBuff: bool)
      requires Valid() && buffIndex < fMapArraySize
      modifies this`Indices, this`Log, fBlockPool`fQueue, fBlockPool`fNumCurrentBuffers, fFileMapArray
      modifies fBlockPool.Buffers()`fArrayIndex
      ensures Valid() && Log == old(Log) + [Request(buffIndex, fBlockPool.fMaxBuffers)]
      ensures fillBuff <==> !Hit(Cached(old(Log)), fBlockPool.fMaxBuffers, buffIndex)
      ensures |fBlockPool.fQueue| <= fBlockPool.fMaxBuffers
      ensures fFileMapArray[buffIndex] == theElem && theElem in fBlockPool.Buffers() && theElem.fArrayIndex == buffIndex
      ensures theElem in old(fBlockPool.Buffers()) || (fillBuff && fresh(theElem) && fresh(theElem.fDataBuffer))
      ensures fBlockPool.Buffers() - {theElem} <= old(fBlockPool.Buffers())
      ensures forall b <- old(fBlockPool.Buffers()) ::
                b != theElem || !fillBuff ==> b.fArrayIndex == old(b.fArrayIndex)
    {
      CachedSnoc(Log, Request(buffIndex, fBlockPool.fMaxBuffers));
      Log := Log + [Request(buffIndex, fBlockPool.fMaxBuffers)];
      theElem, fillBuff := Serve(buffIndex);
    }

    method Serve(i: nat) returns (theElem: FileBlockBuffer, fillBuff: bool)
      requires Shape() && i < fMapArraySize
      modifies this`Indices, fBlockPool`fQueue, fBlockPool`fNumCurrentBuffers, fFileMapArray
      modifies fBlockPool.Buffers()`fArrayIndex
      ensures Shape() && Indices == Requested(old(Indices), fBlockPool.fMaxBuffers, i)
      ensures fillBuff <==> !Hit(old(Indices), fBlockPool.fMaxBuffers, i)
      ensures |fBlockPool.fQueue| <= fBlockPool.fMaxBuffers
      ensures fFileMapArray[i] == theElem && theElem in fBlockPool.Buffers() && theElem.fArrayIndex == i
      ensures theElem in old(fBlockPool.Buffers()) || (fillBuff && fresh(theElem) && fresh(theElem.fDataBuffer))
      ensures fBlockPool.Buffers() - {theElem} <= old(fBlockPool.Buffers())
      ensures forall b <- old(fBlockPool.Buffers()) ::
                b != theElem || !fillBuff ==> b.fArrayIndex == old(b.fArrayIndex)
    {
      DeleteOldBuffs();
      theElem, fillBuff := Find(i);
    }

    /** What GetBuffer does once there are no more buffers than the maximum. */
    method Find(i: nat) returns (theElem: FileBlockBuffer, fillBuff: bool)
      requires Shape() && i < fMapArraySize && fBlockPool.fNumCurrentBuffers <= fBlockPool.fMaxBuffers
      modifies this`Indices, fBlockPool`fQueue, fBlockPool`fNumCurrentBuffers, fFileMapArray
      modifies fBlockPool.Buffers()`fArrayIndex
      ensures Shape() && fillBuff == (i !in old(Indices)) && |fBlockPool.fQueue| <= fBlockPool.fMaxBuffers
      ensures Indices == if fillBuff then LastN(old(Indices), fBlockPool.fMaxBuffers - 1) + [i] else Without(old(Indices), i) + [i]
      ensures fFileMapArray[i] == theElem && theElem in fBlockPool.Buffers() && theElem.fArrayIndex == i
      ensures theElem in old(fBlockPool.Buffers()) || (fillBuff && fresh(theElem) && fresh(theElem.fDataBuffer))
      ensures fBlockPool.Buffers() - {theElem} <= old(fBlockPool.Buffers())
      ensures forall b <- old(fBlockPool.Buffers()) ::
                b != theElem || !fillBuff ==> b.fArrayIndex == old(b.fArrayIndex)
    {
      SlotIsTaken(i);
      if fFileMapArray[i] == null {
        theElem := Claim(i);
        fillBuff := true;
      } else {
        InQueue(i);
        theElem, fillBuff := fFileMapArray[i], false;
        Touch(theElem, i);
      }
    }

    lemma HasOwnData(b: FileBlockBuffer)
      requires Shape() && b in fBlockPool.Buffers()
      ensures b.fDataBuffer.Length == fDataBufferSize + 1
      ensures forall c <- fBlockPool.Buffers() :: c != b ==> c.fDataBuffer != b.fDataBuffer
    {
    }

    lemma InQueue(i: nat)
      requires Shape() && i < fMapArraySize && fFileMapArray[i] != null
      ensures fFileMapArray[i] in fBlockPool.Buffers() && fFileMapArray[i].fArrayIndex == i
    {
      SlotIsTaken(i);
      var k :| 0 <= k < |Indices| && Indices[k] == i && fBlockPool.fQueue[k] == fFileMapArray[i];
      assert InSlot(fBlockPool.fQueue[k], Indices[k]);
    }
  }

  lemma MovedToEnd<T>(s: seq<T>, k: nat)
    requires k < |s|
    ensures forall x :: x in s[..k] + s[k + 1..] + [s[k]] <==> x in s
  {
    assert s == s[..k] + [s[k]] + s[k + 1..];
  }

  function Smaller(a: nat, b: nat): nat { if a < b then a else b }

  // ----- Reading -----

  /** The bytes of a file from a position on, at most len of them. */
  function Bytes(file: seq<Byte>, pos: nat, len: nat): (r: seq<Byte>)
    ensures |r| == if pos >= |file| then 0 else Smaller(len, |file| - pos)
  {
    if pos >= |file| then [] else file[pos..pos + Smaller(len, |file| - pos)]
  }

  /** The block of an index, cut off at the end of the file. */
  function Block(file: seq<Byte>, index: nat, size: nat): (r: seq<Byte>)
    ensures |r| <= size
  {
    Bytes(file, index * size, size)
  }

  method memcpy(dst: array<Byte>, at: nat, src: array<Byte>, from: nat, n: nat)
    requires dst != src && at + n <= dst.Length && from + n <= src.Length
    modifies dst
    ensures dst[..] == old(dst[..at] + src[from..from + n] + dst[at + n..])
  {
    var k := 0;
    while k < n
      invariant k <= n
      invariant dst[..] == old(dst[..at] + src[from..from + k] + dst[at + k..])
    {
      dst[at + k] := src[from + k];
      k := k + 1;
    }
  }

  class OSFileSource {
    const File: seq<Byte>        // what the open file holds
    var fFileMap: FileMap?
    var fCacheEnabled: bool
    var fPosition: nat

    /** The buffer holds the block of its index, cut off at the end of the file. */
    ghost predicate Holds(b: FileBlockBuffer, size: nat)
      reads b, b.fDataBuffer
    {
      && b.fArrayIndex >= 0
      && b.fBufferFillSize == |Block(File, b.fArrayIndex, size)| <= b.fDataBuffer.Length
      && b.fDataBuffer[..b.fBufferFillSize] == Block(File, b.fArrayIndex, size)
    }

    ghost predicate Filled(m: FileMap)
      reads this, m, m.fBlockPool, m.fBlockPool.Buffers(), m.Data()
    {
      forall b <- m.fBlockPool.Buffers() :: Holds(b, m.fDataBufferSize)
    }

    ghost predicate Valid()
      reads this, if fFileMap == null then {} else {fFileMap, fFileMap.fBlockPool} + fFileMap.Repr()
    {
      fFileMap != null
      ==> (&& fFileMap.Valid()
           && fFileMap.fMapArraySize == |File| / fFileMap.fDataBufferSize + 1
           && Filled(fFileMap))
    }

    constructor (file: seq<Byte>)
      ensures File == file && Valid() && fFileMap == null
    {
      File, fFileMap, fCacheEnabled, fPosition := file, null, false, 0;
    }

    method Seek(newPosition: nat)
      modifies this`fPosition
      ensures fPosition == newPosition
    {
      fPosition := newPosition;
    }

    /** The system call reads what there is, from the position sought. */
    method ReadFromDisk(inBuffer: array<Byte>, inLength: nat) returns (rcvLen: nat)
      requires inLength <= inBuffer.Length
      modifies inBuffer, this`fPosition
      ensures rcvLen == |Bytes(File, old(fPosition), inLength)| && fPosition == old(fPosition) + rcvLen
      ensures inBuffer[..] == Bytes(File, old(fPosition), inLength) + old(inBuffer[..])[rcvLen..]
    {
      ghost var before := inBuffer[..];
      rcvLen := 0;
      while rcvLen < inLength && fPosition < |File|
        invariant rcvLen <= inLength && fPosition == old(fPosition) + rcvLen
        invariant rcvLen > 0 ==> fPosition <= |File|
        invariant rcvLen > 0 ==> inBuffer[..] == File[old(fPosition)..fPosition] + before[rcvLen..]
        invariant rcvLen == 0 ==> inBuffer[..] == before
      {
        inBuffer[rcvLen] := File[fPosition];
        rcvLen, fPosition := rcvLen + 1, fPosition + 1;
      }
    }

    method ReadFromPos(inPosition: nat, inBuffer: array<Byte>, inLength: nat) returns (outRcvLen: nat)
      requires inLength <= inBuffer.Length
      modifies inBuffer, this`fPosition
      ensures outRcvLen == |Bytes(File, inPosition, inLength)|
      ensures inBuffer[..] == Bytes(File, inPosition, inLength) + old(inBuffer[..])[outRcvLen..]
    {
      Seek(inPosition);
      outRcvLen := ReadFromDisk(inBuffer, inLength);
    }

    method FillBuffer(m: FileMap, b: FileBlockBuffer)
      requires m.fDataBufferSize < b.fDataBuffer.Length && b.fArrayIndex >= 0
      modifies this`fPosition, b`fBufferFillSize, b.fDataBuffer
      ensures Holds(b, m.fDataBufferSize)
    {
      var readLen := ReadFromPos(b.fArrayIndex * m.fDataBufferSize, b.fDataBuffer, m.fDataBufferSize);
      b.fBufferFillSize := readLen;
    }

    /** The buffer of a block, holding it. */
    method Load(m: FileMap, buffIndex: nat) returns (b: FileBlockBuffer)
      requires m.Valid() && Filled(m) && buffIndex < m.fMapArraySize
      modifies this`fPosition
      modifies m`Indices, m`Log, m.fBlockPool`fQueue, m.fBlockPool`fNumCurrentBuffers, m.fFileMapArray
      modifies m.fBlockPool.Buffers(), m.Data()
      ensures m.Valid() && Filled(m)
      ensures forall x <- m.fBlockPool.Buffers() - old(m.fBlockPool.Buffers()) :: fresh(x) && fresh(x.fDataBuffer)
      ensures m.Log == old(m.Log) + [Request(buffIndex, m.fBlockPool.fMaxBuffers)]
      ensures b in m.fBlockPool.Buffers() && b.fArrayIndex == buffIndex
    {
      var fillBuff: bool;
      b, fillBuff := GetBuffer(m, buffIndex);
      if fillBuff {
        Refill(m, b);
      }
    }

    /** Asking the map for a buffer leaves the others as they are. */
    method GetBuffer(m: FileMap, buffIndex: nat) returns (b: FileBlockBuffer, fillBuff: bool)
      requires m.Valid() && Filled(m) && buffIndex < m.fMapArraySize
      modifies m`Indices, m`Log, m.fBlockPool`fQueue, m.fBlockPool`fNumCurrentBuffers, m.fFileMapArray
      modifies m.fBlockPool.Buffers()`fArrayIndex
      ensures m.Valid() && m.Log == old(m.Log) + [Request(buffIndex, m.fBlockPool.fMaxBuffers)]
      ensures forall x <- m.fBlockPool.Buffers() - old(m.fBlockPool.Buffers()) :: fresh(x) && fresh(x.fDataBuffer)
      ensures b in m.fBlockPool.Buffers() && b.fArrayIndex == buffIndex
      ensures forall x <- m.fBlockPool.Buffers() :: x != b || !fillBuff ==> Holds(x, m.fDataBufferSize)
    {
      ghost var before := m.fBlockPool.Buffers();
      b, fillBuff := m.GetBuffer(buffIndex);
      assert forall x <- m.fBlockPool.Buffers() :: x != b || !fillBuff ==> x in before;
    }

    method Refill(m: FileMap, b: FileBlockBuffer)
      requires m.Valid() && b in m.fBlockPool.Buffers() && b.fArrayIndex >= 0
      requires forall x <- m.fBlockPool.Buffers() :: x != b ==> Holds(x, m.fDataBufferSize)
      modifies this`fPosition, b`fBufferFillSize, b.fDataBuffer
      ensures m.Valid() && Filled(m)
    {
      m.HasOwnData(b);
      FillBuffer(m, b);
    }

    lemma NotMine(m: FileMap, b: FileBlockBuffer, inBuffer: array<Byte>)
      requires b in m.fBlockPool.Buffers() && inBuffer !in m.Data()
      ensures inBuffer != b.fDataBuffer
    {
    }

    /** One turn of the loop of ReadFromCache: copies from a block what it has of the bytes still to copy. */
    method CopyBlock(m: FileMap, buffIndex: nat, buffPos: nat, bytesToCopy: nat, inBuffer: array<Byte>, at: nat,
                     ghost block: seq<Byte>)
        returns (copied: nat, last: bool)
      requires m.Valid() && Filled(m) && buffIndex < m.fMapArraySize
      requires block == Block(File, buffIndex, m.fDataBufferSize) && buffPos <= |block|
      requires inBuffer !in m.Data() && at + bytesToCopy <= inBuffer.Length
      modifies this`fPosition, inBuffer
      modifies m`Indices, m`Log, m.fBlockPool`fQueue, m.fBlockPool`fNumCurrentBuffers, m.fFileMapArray
      modifies m.fBlockPool.Buffers(), m.Data()
      ensures m.Valid() && Filled(m)
      ensures forall x <- m.fBlockPool.Buffers() - old(m.fBlockPool.Buffers()) :: fresh(x) && fresh(x.fDataBuffer)
      ensures copied == Smaller(bytesToCopy, |block| - buffPos)
      ensures last == (buffPos == 0 && bytesToCopy <= m.fDataBufferSize && |block| < bytesToCopy)
      ensures inBuffer[..] == old(inBuffer[..at]) + block[buffPos..buffPos + copied] + old(inBuffer[at + copied..])
    {
      var b := Load(m, buffIndex);
      assert Holds(b, m.fDataBufferSize);
      NotMine(m, b, inBuffer);
      copied, last := CopyFrom(b, m.fDataBufferSize, buffPos, bytesToCopy, inBuffer, at, block);
    }

    method CopyFrom(b: FileBlockBuffer, maxBuffSize: nat, buffPos: nat, bytesToCopy: nat, inBuffer: array<Byte>, at: nat,
                    ghost block: seq<Byte>)
        returns (copied: nat, last: bool)
      requires b.fDataBuffer != inBuffer && b.fBufferFillSize <= b.fDataBuffer.Length
      requires block == b.fDataBuffer[..b.fBufferFillSize] && buffPos <= |block|
      requires at + bytesToCopy <= inBuffer.Length
      modifies inBuffer
      ensures copied == Smaller(bytesToCopy, |block| - buffPos)
      ensures last == (buffPos == 0 && bytesToCopy <= maxBuffSize && |block| < bytesToCopy)
      ensures inBuffer[..] == old(inBuffer[..at]) + block[buffPos..buffPos + copied] + old(inBuffer[at + copied..])
    {
      var buffSize := b.fBufferFillSize;
      if buffPos == 0 && bytesToCopy <= maxBuffSize && buffSize < bytesToCopy {
        copied, last := buffSize, true;
      } else {
        copied, last := if bytesToCopy >= buffSize - buffPos then buffSize - buffPos else bytesToCopy, false;
      }
      assert block[buffPos..buffPos + copied] == b.fDataBuffer[buffPos..buffPos + copied];
      memcpy(inBuffer, at, b.fDataBuffer, buffPos, copied);
    }

    method ReadFromCache(inPosition: nat, inBuffer: array<Byte>, inLength: nat) returns (outRcvLen: nat)
      requires Valid() && fFileMap != null && inLength <= inBuffer.Length && inBuffer !in fFileMap.Data()
      modifies this`fPosition, inBuffer
      modifies fFileMap`Indices, fFileMap`Log, fFileMap.fBlockPool`fQueue, fFileMap.fBlockPool`fNumCurrentBuffers, fFileMap.fFileMapArray
      modifies fFileMap.fBlockPool.Buffers(), fFileMap.Data()
      ensures Valid() && fFileMap == old(fFileMap)
      ensures forall x <- fFileMap.fBlockPool.Buffers() - old(fFileMap.fBlockPool.Buffers()) ::
                fresh(x) && fresh(x.fDataBuffer)
      ensures outRcvLen == |Bytes(File, inPosition, inLength)|
      ensures inBuffer[..] == Bytes(File, inPosition, inLength) + old(inBuffer[..])[outRcvLen..]
    {
      assert Covers(fFileMap, inBuffer, fFileMap.fMapArraySize - 1);
      outRcvLen := ReadBlocks(fFileMap, inPosition, inLength, inBuffer);
    }

    /** The block of a position, and the position in it; nothing to read behind the end of the file. */
    method FirstBlock(m: FileMap, pos: nat, ghost len: nat, ghost inBuffer: array<Byte>)
        returns (buffIndex: nat, buffPos: nat, more: bool)
      requires Ready(m, inBuffer)
      ensures Cursor(pos, len, m.fDataBufferSize, 0, buffIndex, buffPos, more) && buffIndex <= |File|
    {
      if pos >= |File| {
        return 0, 0, false;
      }
      StartsInStep(File, m.fDataBufferSize, pos, len);
      buffIndex := pos / m.fDataBufferSize;
      buffPos := pos - GetBuffOffset(buffIndex, m.fDataBufferSize);
      IndexIsSmall(File, m.fDataBufferSize, pos, len, 0, buffIndex, buffPos);
      more := true;
    }

    /** The loop of ReadFromCache. */
    method ReadBlocks(m: FileMap, pos: nat, len: nat, inBuffer: array<Byte>) returns (outRcvLen: nat)
      requires Ready(m, inBuffer) && len <= inBuffer.Length
      modifies this`fPosition, inBuffer
      modifies m`Indices, m`Log, m.fBlockPool`fQueue, m.fBlockPool`fNumCurrentBuffers, m.fFileMapArray
      modifies m.fBlockPool.Buffers(), m.Data()
      ensures Ready(m, inBuffer)
      ensures forall x <- m.fBlockPool.Buffers() - old(m.fBlockPool.Buffers()) :: fresh(x) && fresh(x.fDataBuffer)
      ensures outRcvLen == |Bytes(File, pos, len)| && Received(inBuffer[..], old(inBuffer[..]), pos, outRcvLen)
    {
      outRcvLen := 0;
      ghost var before := inBuffer[..];
      var buffIndex, buffPos, more := FirstBlock(m, pos, len, inBuffer);
      while more
        invariant Ready(m, inBuffer)
        invariant forall x <- m.fBlockPool.Buffers() - old(m.fBlockPool.Buffers()) :: fresh(x) && fresh(x.fDataBuffer)
        invariant outRcvLen <= len && Received(inBuffer[..], before, pos, outRcvLen)
        invariant Cursor(pos, len, m.fDataBufferSize, outRcvLen, buffIndex, buffPos, more)
        decreases |File| + 1 - buffIndex, more
      {
        outRcvLen, more := Turn(m, pos, len, outRcvLen, buffIndex, buffPos, inBuffer, before);
        buffPos, buffIndex := 0, buffIndex + 1;
      }
    }

    /** The map is in order and covers the file up to its last block, and the buffer is not one of its own. */
    ghost predicate Ready(m: FileMap, inBuffer: array<Byte>)
      reads this, m, m.fBlockPool, m.fFileMapArray, m.fBlockPool.Buffers(), m.Data()
    {
      exists maxIndex: nat :: Covers(m, inBuffer, maxIndex)
    }

    ghost predicate Covers(m: FileMap, inBuffer: array<Byte>, maxIndex: nat)
      reads this, m, m.fBlockPool, m.fFileMapArray, m.fBlockPool.Buffers(), m.Data()
    {
      && m.Valid()
      && m.fMapArraySize == maxIndex + 1 == |File| / m.fDataBufferSize + 1
      && Filled(m)
      && inBuffer !in m.Data()
    }

    /** The buffer starts with what the file has from the position on, and is as before after that. */
    ghost predicate Received(held: seq<Byte>, before: seq<Byte>, pos: nat, rcv: nat) {
      rcv == |Bytes(File, pos, rcv)| <= |before| && held == Bytes(File, pos, rcv) + before[rcv..]
    }

    /** The cursor is in step, or all has been read and the loop is over. */
    ghost predicate Cursor(pos: nat, len: nat, size: nat, rcv: nat, index: nat, buffPos: nat, more: bool) {
      if more then InStep(File, size, pos, len, rcv, index, buffPos) && index <= |File| else rcv == |Bytes(File, pos, len)|
    }

    /** One turn of the loop. */
    method Turn(m: FileMap, pos: nat, len: nat, rcv: nat, index: nat, buffPos: nat, inBuffer: array<Byte>,
                ghost before: seq<Byte>)
        returns (rcv': nat, more: bool)
      requires Ready(m, inBuffer) && |before| == inBuffer.Length && len <= inBuffer.Length
      requires InStep(File, m.fDataBufferSize, pos, len, rcv, index, buffPos)
      requires Received(inBuffer[..], before, pos, rcv)
      modifies this`fPosition, inBuffer
      modifies m`Indices, m`Log, m.fBlockPool`fQueue, m.fBlockPool`fNumCurrentBuffers, m.fFileMapArray
      modifies m.fBlockPool.Buffers(), m.Data()
      ensures Ready(m, inBuffer)
      ensures forall x <- m.fBlockPool.Buffers() - old(m.fBlockPool.Buffers()) :: fresh(x) && fresh(x.fDataBuffer)
      ensures rcv' <= len && Received(inBuffer[..], before, pos, rcv')
      ensures Cursor(pos, len, m.fDataBufferSize, rcv', index + 1, 0, more)
    {
      ghost var maxIndex :| Covers(m, inBuffer, maxIndex);
      rcv', more := ReadBlock(m, pos, len, rcv, index, buffPos, inBuffer, before, maxIndex);
    }

    method ReadBlock(m: FileMap, pos: nat, len: nat, rcv: nat, index: nat, buffPos: nat, inBuffer: array<Byte>,
                     ghost before: seq<Byte>, ghost maxIndex: nat)
        returns (rcv': nat, more: bool)
      requires Covers(m, inBuffer, maxIndex) && |before| == inBuffer.Length && len <= inBuffer.Length
      requires InStep(File, m.fDataBufferSize, pos, len, rcv, index, buffPos)
      requires Received(inBuffer[..], before, pos, rcv)
      modifies this`fPosition, inBuffer
      modifies m`Indices, m`Log, m.fBlockPool`fQueue, m.fBlockPool`fNumCurrentBuffers, m.fFileMapArray
      modifies m.fBlockPool.Buffers(), m.Data()
      ensures Covers(m, inBuffer, maxIndex)
      ensures forall x <- m.fBlockPool.Buffers() - old(m.fBlockPool.Buffers()) :: fresh(x) && fresh(x.fDataBuffer)
      ensures rcv' <= len && Received(inBuffer[..], before, pos, rcv')
      ensures Cursor(pos, len, m.fDataBufferSize, rcv', index + 1, 0, more)
    {
      ghost var size, held := m.fDataBufferSize, inBuffer[..];
      ghost var block := Block(File, index, size);
      StepIsInside(File, size, pos, len, rcv, index, buffPos);
      var copied, last := CopyBlock(m, index, buffPos, len - rcv, inBuffer, rcv, block);
      rcv' := rcv + copied;
      // The loop's condition for the next index.
      more := !last && index + 1 <= (pos + len) / m.fDataBufferSize && index + 1 <= m.fMapArraySize - 1;
      TurnIsRight(held, before, pos, len, size, rcv, index, buffPos, copied, last);
      assert held[..rcv] + block[buffPos..buffPos + copied] + held[rcv'..] == inBuffer[..];
    }

    lemma TurnIsRight(held: seq<Byte>, before: seq<Byte>, pos: nat, len: nat, size: nat, rcv: nat, index: nat,
                      buffPos: nat, copied: nat, last: bool)
      requires size > 0 && InStep(File, size, pos, len, rcv, index, buffPos)
      requires Received(held, before, pos, rcv) && len <= |before|
      requires copied == Smaller(len - rcv, |Block(File, index, size)| - buffPos)
      requires last == (buffPos == 0 && len - rcv <= size && |Block(File, index, size)| < len - rcv)
      ensures rcv + copied <= len
      ensures Received(held[..rcv] + Block(File, index, size)[buffPos..buffPos + copied] + held[rcv + copied..],
                       before, pos, rcv + copied)
      ensures Cursor(pos, len, size, rcv + copied, index + 1, 0,
                     !last && index + 1 <= (pos + len) / size && index + 1 <= |File| / size)
    {
      StepIsInside(File, size, pos, len, rcv, index, buffPos);
      BlockContinues(File, size, pos, len, rcv, index, buffPos, copied);
      TurnAdvances(File, size, pos, len, rcv, index, buffPos, copied);
      if InStep(File, size, pos, len, rcv + copied, index + 1, 0) {
        IndexIsSmall(File, size, pos, len, rcv + copied, index + 1, 0);
      }
      OneMoreBlock(held, before, pos, rcv, Block(File, index, size)[buffPos..buffPos + copied]);
    }

    lemma OneMoreBlock(held: seq<Byte>, before: seq<Byte>, pos: nat, rcv: nat, more: seq<Byte>)
      requires Received(held, before, pos, rcv)
      requires pos + rcv + |more| <= |File| && rcv + |more| <= |before|
      requires Bytes(File, pos, rcv) + more == Bytes(File, pos, rcv + |more|)
      ensures Received(held[..rcv] + more + held[rcv + |more|..], before, pos, rcv + |more|)
    {
    }

    /** With or without the cache, a read gives the bytes of the file and their number. */
    method Read(inPosition: nat, inBuffer: array<Byte>, inLength: nat) returns (outRcvLen: nat)
      requires Valid() && inLength <= inBuffer.Length && (fFileMap != null ==> inBuffer !in fFileMap.Data())
      modifies this`fPosition, inBuffer, if fFileMap == null then {} else fFileMap.Repr()
      ensures Valid() && fFileMap == old(fFileMap)
      ensures fFileMap != null
          ==> forall x <- fFileMap.fBlockPool.Buffers() - old(fFileMap.fBlockPool.Buffers()) ::
                fresh(x) && fresh(x.fDataBuffer)
      ensures outRcvLen == |Bytes(File, inPosition, inLength)|
      ensures inBuffer[..] == Bytes(File, inPosition, inLength) + old(inBuffer[..])[outRcvLen..]
    {
      if fFileMap == null || !fCacheEnabled || (inPosition + inLength) / fFileMap.fDataBufferSize > fFileMap.fMapArraySize - 1 {
        outRcvLen := ReadFromPos(inPosition, inBuffer, inLength);
      } else {
        outRcvLen := ReadFromCache(inPosition, inBuffer, inLength);
      }
    }

    method AllocateFileCache(dataBufferSize: nat, incBuffers: nat)
      requires fFileMap == null && dataBufferSize > 0
      modifies this`fFileMap
      ensures Valid() && fFileMap != null && fresh(fFileMap.Repr())
      ensures fFileMap.fDataBufferSize == dataBufferSize && fFileMap.Log == []
    {
      fFileMap := new FileMap(dataBufferSize, incBuffers, |File|);
    }

    method EnableFileCache(enabled: bool)
      requires Valid()
      modifies this`fCacheEnabled
      ensures Valid() && fCacheEnabled == enabled
    {
      fCacheEnabled := enabled;
    }

    method IncMaxBuffers()
      requires Valid() && fFileMap != null
      modifies fFileMap.fBlockPool`fMaxBuffers
      ensures Valid() && fFileMap.fBlockPool.fMaxBuffers == old(fFileMap.fBlockPool.fMaxBuffers) + fFileMap.fBlockPool.fBufferInc
    {
      fFileMap.fBlockPool.IncMaxBuffers();
    }

    method DecMaxBuffers()
      requires Valid() && fFileMap != null
      modifies fFileMap.fBlockPool`fMaxBuffers
      ensures Valid()
      ensures var pool := fFileMap.fBlockPool;
              pool.fMaxBuffers == old(if pool.fMaxBuffers > pool.fBufferInc then pool.fMaxBuffers - pool.fBufferInc else pool.fMaxBuffers)
    {
      fFileMap.fBlockPool.DecMaxBuffers();
    }
  }

  /** The cursor of the loop is where the bytes received so far end. */
  ghost predicate InStep(file: seq<Byte>, size: nat, pos: nat, len: nat, rcv: nat, index: nat, buffPos: nat) {
    index * size + buffPos == pos + rcv <= |file| && buffPos <= size && rcv <= len
  }

  lemma IndexIsSmall(file: seq<Byte>, size: nat, pos: nat, len: nat, rcv: nat, index: nat, buffPos: nat)
    requires size > 0 && InStep(file, size, pos, len, rcv, index, buffPos)
    ensures index <= |file|
  {
    assert index * (size - 1) >= 0;
  }

  /** A cursor in step is on a block to be read. */
  lemma StepIsInside(file: seq<Byte>, size: nat, pos: nat, len: nat, rcv: nat, index: nat, buffPos: nat)
    requires size > 0 && InStep(file, size, pos, len, rcv, index, buffPos)
    ensures index <= (pos + len) / size && index <= |file| / size
    ensures buffPos <= |Block(file, index, size)|
  {
    IndexIsBelow(index, size, pos + len);
    IndexIsBelow(index, size, |file|);
  }

  /** The block holds the bytes to come. */
  lemma BlockContinues(file: seq<Byte>, size: nat, pos: nat, len: nat, rcv: nat, index: nat, buffPos: nat, n: nat)
    requires size > 0 && InStep(file, size, pos, len, rcv, index, buffPos)
    requires buffPos + n <= |Block(file, index, size)|
    ensures pos + rcv + n <= |file|
    ensures Bytes(file, pos, rcv) + Block(file, index, size)[buffPos..buffPos + n] == Bytes(file, pos, rcv + n)
  {
    SliceOfBytes(file, index * size, size, buffPos, n);
    SlicesJoin(file, pos, rcv, n);
  }

  lemma SliceOfBytes(file: seq<Byte>, start: nat, len: nat, a: nat, n: nat)
    requires a + n <= |Bytes(file, start, len)| && start + a <= |file|
    ensures start + a + n <= |file| && Bytes(file, start, len)[a..a + n] == file[start + a..start + a + n]
  {
  }

  lemma SlicesJoin(file: seq<Byte>, pos: nat, rcv: nat, n: nat)
    requires pos + rcv + n <= |file|
    ensures Bytes(file, pos, rcv) + file[pos + rcv..pos + rcv + n] == Bytes(file, pos, rcv + n)
  {
  }

  lemma IndexIsBelow(index: nat, size: nat, x: nat)
    requires size > 0
    ensures index * size <= x ==> index <= x / size
    ensures x < (index + 1) * size ==> x / size <= index
  {
    var q := x / size;
    assert q * size <= x < (q + 1) * size;
    if index > q {
      Times(q + 1, index, size);
    } else if index < q {
      Times(index + 1, q, size);
    }
  }

  lemma Times(a: nat, b: nat, size: nat)
    requires a <= b
    ensures a * size <= b * size
  {
  }

  function GetBuffOffset(buffIndex: nat, size: nat): (offset: nat) { buffIndex * size }

  lemma StartsInStep(file: seq<Byte>, size: nat, pos: nat, len: nat)
    requires size > 0 && pos < |file|
    ensures GetBuffOffset(pos / size, size) <= pos
    ensures InStep(file, size, pos, len, 0, pos / size, pos - GetBuffOffset(pos / size, size))
  {
    assert pos == size * (pos / size) + pos % size;
  }

  /** One turn keeps the cursor in step, or everything there is has been read and the loop is over. */
  lemma TurnAdvances(file: seq<Byte>, size: nat, pos: nat, len: nat, rcv: nat, index: nat, buffPos: nat, copied: nat)
    requires size > 0 && InStep(file, size, pos, len, rcv, index, buffPos)
    requires copied == Smaller(len - rcv, |Block(file, index, size)| - buffPos)
    ensures if index + 1 <= (pos + len) / size && index + 1 <= |file| / size
            then InStep(file, size, pos, len, rcv + copied, index + 1, 0)
            else rcv + copied == |Bytes(file, pos, len)|
    ensures buffPos == 0 && |Block(file, index, size)| < len - rcv <= size ==> rcv + copied == |Bytes(file, pos, len)|
  {
    var next := (index + 1) * size;
    assert next == index * size + size;
    TurnEnds(|file|, size, pos, len, rcv, index * size, buffPos, copied, |Block(file, index, size)|);
    IndexIsBelow(index, size, pos + len);
    IndexIsBelow(index, size, |file|);
    IndexIsBelow(index + 1, size, pos + len);
    IndexIsBelow(index + 1, size, |file|);
  }

  lemma TurnEnds(fileLen: nat, size: nat, pos: nat, len: nat, rcv: nat, start: nat, buffPos: nat, copied: nat, block: nat)
    requires start + buffPos == pos + rcv <= fileLen && buffPos <= size && rcv <= len
    requires block == Smaller(size, fileLen - start) && copied == Smaller(len - rcv, block - buffPos)
    ensures pos + rcv + copied <= start + size && rcv + copied <= len && pos + rcv + copied <= fileLen
    ensures pos + rcv + copied < start + size ==> rcv + copied == Smaller(len, fileLen - pos)
    ensures pos + rcv + copied < start + size ==> pos + len < start + size || fileLen < start + size
    ensures block < len - rcv && buffPos == 0 && len - rcv <= size ==> rcv + copied == Smaller(len, fileLen - pos)
  {
  }
}
