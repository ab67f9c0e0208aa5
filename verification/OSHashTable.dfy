/** What a chained table keeps, held as one sequence, newest first. */
module HashOrder {
  import opened Sequences

  // ----- The index of a hash value -----

  /** The bitwise and of two numbers. */
  function And(a: nat, b: nat): (r: nat) {
    if a == 0 || b == 0 then 0 else 2 * And(a / 2, b / 2) + (a % 2) * (b % 2)
  }

  predicate IsPowerOfTwo(n: nat) {
    n == 1 || (n > 1 && n % 2 == 0 && IsPowerOfTwo(n / 2))
  }

  lemma {:induction false} AndSelf(n: nat)
    ensures And(n, n) == n
  {
    if n > 0 {
      AndSelf(n / 2);
    }
  }

  /** The constructor's test for a power of two is exact. */
  lemma {:induction false} MaskTest(size: nat)
    requires size > 0
    ensures And(size - 1, size) == 0 <==> IsPowerOfTwo(size)
  {
    if size > 1 {
      if size % 2 == 0 {
        assert (size - 1) / 2 == size / 2 - 1;
        MaskTest(size / 2);
      } else {
        assert (size - 1) / 2 == size / 2;
        AndSelf(size / 2);
      }
    }
  }

  lemma HalfMod(h: nat, m: nat)
    requires m > 0
    ensures h % (2 * m) == 2 * ((h / 2) % m) + h % 2
  {
    var q, r := (h / 2) / m, (h / 2) % m;
    assert h / 2 == q * m + r;
    assert h == (2 * m) * q + (2 * r + h % 2);
    ModIs(h, 2 * m, q, 2 * r + h % 2);
  }

  lemma ModIs(h: nat, d: nat, q: nat, r: nat)
    requires r < d && h == d * q + r
    ensures h % d == r
  {
    var q', r' := h / d, h % d;
    assert h == d * q' + r';
    if q < q' {
      MulStep(d, q, q');
    } else if q' < q {
      MulStep(d, q', q);
    }
  }

  lemma MulStep(d: nat, a: nat, b: nat)
    requires a < b
    ensures d * a + d <= d * b
  {
    var more := b - a - 1;
    assert d * more >= 0;
    assert d * b == d * (a + 1 + more) == d * a + d + d * more;
  }

  lemma {:induction false} MaskIsMod(h: nat, size: nat)
    requires IsPowerOfTwo(size)
    ensures And(h, size - 1) == h % size
  {
    if size > 1 {
      assert (size - 1) / 2 == size / 2 - 1 && (size - 1) % 2 == 1;
      MaskIsMod(h / 2, size / 2);
      HalfMod(h, size / 2);
      if h == 0 || size - 1 == 0 {
        assert And(h, size - 1) == 0;
      } else {
        assert And(h, size - 1) == 2 * And(h / 2, size / 2 - 1) + h % 2;
      }
    }
  }

  // ----- One chain of the sequence -----

  function Chain<E>(s: seq<E>, idx: E -> int, i: int): (r: seq<E>)
    ensures forall k :: 0 <= k < |r| ==> r[k] in s
  {
    if s == [] then []
    else if idx(s[0]) == i then [s[0]] + Chain(s[1..], idx, i)
    else Chain(s[1..], idx, i)
  }

  lemma {:induction false} ChainMembers<E>(s: seq<E>, idx: E -> int, i: int)
    ensures forall e :: e in Chain(s, idx, i) <==> e in s && idx(e) == i
  {
    if s != [] {
      ChainMembers(s[1..], idx, i);
    }
  }

  lemma {:induction false} ChainDistinct<E>(s: seq<E>, idx: E -> int, i: int)
    requires Distinct(s)
    ensures Distinct(Chain(s, idx, i))
  {
    if s != [] {
      ChainMembers(s[1..], idx, i);
      ChainDistinct(s[1..], idx, i);
    }
  }

  lemma {:induction false} ChainWithout<E>(s: seq<E>, idx: E -> int, i: int, e: E)
    ensures Chain(Without(s, e), idx, i) == Without(Chain(s, idx, i), e)
  {
    if s != [] {
      ChainWithout(s[1..], idx, i, e);
      if s[0] != e && idx(s[0]) == i {
        assert ([s[0]] + Chain(s[1..], idx, i))[1..] == Chain(s[1..], idx, i);
        assert ([s[0]] + Without(s[1..], e))[1..] == Without(s[1..], e);
      } else if s[0] == e && idx(e) == i {
        assert ([s[0]] + Chain(s[1..], idx, i))[1..] == Chain(s[1..], idx, i);
      } else if s[0] != e {
        assert ([s[0]] + Without(s[1..], e))[1..] == Without(s[1..], e);
      }
    }
  }

  // ----- Every chain after another -----

  function Chains<E>(s: seq<E>, idx: E -> int, from: nat, size: nat): (r: seq<E>)
    requires from <= size
    decreases size - from
  {
    if from == size then [] else Chain(s, idx, from) + Chains(s, idx, from + 1, size)
  }

  lemma ChainCons<E>(e: E, s: seq<E>, idx: E -> int, i: int)
    ensures Chain([e] + s, idx, i) == if idx(e) == i then [e] + Chain(s, idx, i) else Chain(s, idx, i)
  {
    assert ([e] + s)[1..] == s;
  }

  function Occurs<E(==)>(s: seq<E>, e: E): (n: nat) {
    if s == [] then 0 else (if s[0] == e then 1 else 0) + Occurs(s[1..], e)
  }

  lemma {:induction false} OccursAppend<E>(a: seq<E>, b: seq<E>, e: E)
    ensures Occurs(a + b, e) == Occurs(a, e) + Occurs(b, e)
  {
    if a == [] {
      assert a + b == b;
    } else {
      assert (a + b)[0] == a[0] && (a + b)[1..] == a[1..] + b;
      OccursAppend(a[1..], b, e);
    }
  }

  lemma {:induction false} OccursFound<E>(s: seq<E>, e: E) returns (k: nat)
    requires Occurs(s, e) > 0
    ensures k < |s| && s[k] == e
  {
    k := 0;
    if s[0] != e {
      k := OccursFound(s[1..], e);
      k := k + 1;
    }
  }

  lemma {:induction false} SameOccurs<E>(a: seq<E>, b: seq<E>)
    requires forall e :: Occurs(a, e) == Occurs(b, e)
    ensures multiset(a) == multiset(b)
  {
    if a == [] {
      if b != [] { assert Occurs(b, b[0]) > 0; }
    } else {
      var k := OccursFound(b, a[0]);
      var rest := b[..k] + b[k + 1..];
      assert a == [a[0]] + a[1..] && b == b[..k] + ([a[0]] + b[k + 1..]);
      forall e | true
        ensures Occurs(a[1..], e) == Occurs(rest, e)
      {
        OccursAppend(b[..k], [a[0]] + b[k + 1..], e);
        OccursAppend([a[0]], b[k + 1..], e);
        OccursAppend(b[..k], b[k + 1..], e);
        assert Occurs(a, e) == Occurs(b, e);
      }
      SameOccurs(a[1..], rest);
    }
  }

  /** Together the chains hold the whole sequence, each member as often as it is there. */
  lemma ChainsHoldAll<E>(s: seq<E>, idx: E -> int, size: nat)
    requires forall e :: e in s ==> 0 <= idx(e) < size
    ensures multiset(Chains(s, idx, 0, size)) == multiset(s)
  {
    forall e | true
      ensures Occurs(Chains(s, idx, 0, size), e) == Occurs(s, e)
    {
      ChainsHold(s, idx, size, e);
    }
    SameOccurs(Chains(s, idx, 0, size), s);
  }

  lemma {:induction false} ChainsHold<E>(s: seq<E>, idx: E -> int, size: nat, e: E)
    requires forall x :: x in s ==> 0 <= idx(x) < size
    ensures Occurs(Chains(s, idx, 0, size), e) == Occurs(s, e)
  {
    if s == [] {
      ChainsOfNothing<E>(idx, 0, size);
    } else {
      ChainsHold(s[1..], idx, size, e);
      ChainsAdd(s, idx, 0, size, e);
    }
  }

  lemma SameSize<E>(a: seq<E>, b: seq<E>)
    requires multiset(a) == multiset(b)
    ensures |a| == |b|
  {
    assert |multiset(a)| == |a| && |multiset(b)| == |b|;
  }

  lemma DropOne<E>(a: seq<E>, k: nat, b: seq<E>)
    requires k < |a|
    ensures (a[k..] + b)[1..] == a[k + 1..] + b
    ensures k + 1 == |a| ==> a[k + 1..] + b == b
  {
  }

  lemma DistinctOnce<E>(s: seq<E>)
    ensures Distinct(s) <==> forall e :: multiset(s)[e] <= 1
  {
    if !Distinct(s) {
      var i, j :| 0 <= i < j < |s| && s[i] == s[j];
      assert s == s[..j] + s[j..] && s[i] in s[..j] && s[j] in s[j..];
      assert multiset(s)[s[i]] == multiset(s[..j])[s[i]] + multiset(s[j..])[s[i]];
    } else {
      forall e ensures multiset(s)[e] <= 1 {
        if e in s {
          var i :| 0 <= i < |s| && s[i] == e;
          assert s == s[..i] + [e] + s[i + 1..];
          assert multiset(s)[e] == multiset(s[..i])[e] + 1 + multiset(s[i + 1..])[e];
          assert e !in s[..i] && e !in s[i + 1..];
        }
      }
    }
  }

  lemma SameDistinct<E>(s: seq<E>, t: seq<E>)
    requires multiset(s) == multiset(t) && Distinct(s)
    ensures Distinct(t)
  {
    DistinctOnce(s);
    DistinctOnce(t);
  }

  lemma {:induction false} ChainsOfNothing<E>(idx: E -> int, from: nat, size: nat)
    requires from <= size
    ensures Chains([], idx, from, size) == []
    decreases size - from
  {
    if from < size {
      ChainsOfNothing<E>(idx, from + 1, size);
    }
  }

  /** The first member is in one of the chains. */
  lemma {:induction false} ChainsAdd<E>(s: seq<E>, idx: E -> int, from: nat, size: nat, e: E)
    requires s != [] && from <= size && 0 <= idx(s[0]) < size
    ensures Occurs(Chains(s, idx, from, size), e)
         == Occurs(Chains(s[1..], idx, from, size), e) + (if from <= idx(s[0]) && s[0] == e then 1 else 0)
    decreases size - from
  {
    if from < size {
      ChainsAdd(s, idx, from + 1, size, e);
      ChainAdds(s, idx, from, e);
      OccursAppend(Chain(s, idx, from), Chains(s, idx, from + 1, size), e);
      OccursAppend(Chain(s[1..], idx, from), Chains(s[1..], idx, from + 1, size), e);
    }
  }

  lemma ChainAdds<E>(s: seq<E>, idx: E -> int, i: int, e: E)
    requires s != []
    ensures Occurs(Chain(s, idx, i), e) == Occurs(Chain(s[1..], idx, i), e) + (if i == idx(s[0]) && s[0] == e then 1 else 0)
  {
    OccursAppend([s[0]], Chain(s[1..], idx, i), e);
  }
}

/** OSHashTable.h: the template's table of entries of type T, chained through fNextHashEntry, and its iterator. */
module OSHashTable {
  import opened Sequences
  import opened HashOrder

  /** The entry type: its key, its link, and what else it keeps. */
  class HashEntry<K(==), T> {
    const key: K
    var value: T
    var fNextHashEntry: HashEntry?<K, T>

    constructor (key: K, value: T)
      ensures this.key == key && this.value == value && fNextHashEntry == null
    {
      this.key, this.value, fNextHashEntry := key, value, null;
    }
  }

  /** The newest entry with the key. */
  function Newest<K(==), T>(s: seq<HashEntry<K, T>>, key: K): (r: HashEntry?<K, T>) {
    if s == [] then null else if s[0].key == key then s[0] else Newest(s[1..], key)
  }

  /** Newest is the entry with the key that has no newer one; there is none exactly when no entry has the key. */
  lemma {:induction false} NewestIs<K, T>(s: seq<HashEntry<K, T>>, key: K)
    ensures Newest(s, key) == null <==> forall e :: e in s ==> e.key != key
    ensures Newest(s, key) != null
      ==> exists k :: 0 <= k < |s| && s[k] == Newest(s, key) && IsNewest(s, key, k)
  {
    if s != [] {
      NewestIs(s[1..], key);
      if s[0].key == key {
        assert IsNewest(s, key, 0);
      } else if Newest(s, key) != null {
        var k :| 0 <= k < |s| - 1 && s[1..][k] == Newest(s[1..], key) && IsNewest(s[1..], key, k);
        assert s[k + 1] == Newest(s, key) && IsNewest(s, key, k + 1) by {
          forall j | 0 <= j < k + 1 ensures s[j].key != key {
            assert j > 0 ==> s[1..][j - 1].key != key;
          }
        }
      }
    }
  }

  ghost predicate IsNewest<K, T>(s: seq<HashEntry<K, T>>, key: K, k: int)
    requires 0 <= k < |s|
  {
    s[k].key == key && forall j :: 0 <= j < k ==> s[j].key != key
  }

  /** One chain is enough to search. */
  lemma {:induction false} NewestInChain<K, T>(s: seq<HashEntry<K, T>>, idx: HashEntry<K, T> -> int, i: int, key: K)
    requires forall e: HashEntry<K, T> :: e in s && e.key == key ==> idx(e) == i
    ensures Newest(Chain(s, idx, i), key) == Newest(s, key)
  {
    if s != [] {
      NewestInChain(s[1..], idx, i, key);
      assert idx(s[0]) == i ==> ([s[0]] + Chain(s[1..], idx, i))[1..] == Chain(s[1..], idx, i);
    }
  }

  /** The member at a position; null past the end. */
  function At<K, T>(s: seq<HashEntry<K, T>>, i: nat): HashEntry?<K, T> {
    if i < |s| then s[i] else null
  }

  /** A chain from its first entry to null. */
  ghost predicate Linked<K, T>(first: HashEntry?<K, T>, s: seq<HashEntry<K, T>>)
    reads s`fNextHashEntry
  {
    first == At(s, 0) && forall k :: 0 <= k < |s| ==> s[k].fNextHashEntry == At(s, k + 1)
  }

  class OSHashTable<K(==), T> {
    const fHashTable: array<HashEntry?<K, T>>
    const fSize: nat
    const fMask: nat
    const GetHashKey: K -> nat
    var fNumEntries: nat

    ghost var Entries: seq<HashEntry<K, T>>   // the entries in the table, newest first

    /** By mask or by modulo. */
    function ComputeIndex(hashKey: nat): (i: nat)
      requires fSize > 0
    {
      if fMask != 0 then And(hashKey, fMask) else hashKey % fSize
    }

    ghost predicate GoodSize() {
      fSize == fHashTable.Length > 0 && fMask == if And(fSize - 1, fSize) != 0 then 0 else fSize - 1
    }

    /** Either way the index is the hash value modulo the table size. */
    lemma IndexIsMod(hashKey: nat)
      requires GoodSize()
      ensures ComputeIndex(hashKey) == hashKey % fSize < fHashTable.Length
    {
      MaskTest(fSize);
      if fMask != 0 {
        MaskIsMod(hashKey, fSize);
      }
    }

    ghost function Index(): HashEntry<K, T> -> int
      requires fSize > 0
    {
      (e: HashEntry<K, T>) => GetHashKey(e.key) % fSize
    }

    ghost function ChainAt(i: int): seq<HashEntry<K, T>>
      requires fSize > 0
      reads this
    {
      Chain(Entries, Index(), i)
    }

    ghost predicate Valid()
      reads this, fHashTable, Entries`fNextHashEntry
    {
      && GoodSize()
      && fNumEntries == |Entries|
      && Distinct(Entries)
      && (forall i :: 0 <= i < fSize ==> Linked(fHashTable[i], ChainAt(i)))
    }

    /** The chains from an index on, one after another. */
    ghost function Tail(from: nat): seq<HashEntry<K, T>>
      requires GoodSize() && from <= fSize
      reads this
    {
      Chains(Entries, Index(), from, fSize)
    }

    lemma TailHoldsAll()
      requires Valid()
      ensures |Tail(0)| == fNumEntries && multiset(Tail(0)) == multiset(Entries) && Distinct(Tail(0))
    {
      ChainsHoldAll(Entries, Index(), fSize);
      SameSize(Entries, Tail(0));
      SameDistinct(Entries, Tail(0));
    }

    lemma HeadOfChain(i: nat)
      requires Valid() && i < fSize
      ensures fHashTable[i] == At(ChainAt(i), 0)
      ensures Tail(i) == From(i, 0)
      ensures ChainAt(i) == [] ==> Tail(i) == Tail(i + 1)
    {
    }

    /** What is to be visited from an entry on. */
    ghost function From(i: nat, k: nat): seq<HashEntry<K, T>>
      requires GoodSize() && i < fSize && k <= |ChainAt(i)|
      reads this
      ensures k < |ChainAt(i)| ==> From(i, k) != [] && From(i, k)[0] == ChainAt(i)[k]
    {
      ChainAt(i)[k..] + Tail(i + 1)
    }

    lemma NextInChain(i: nat, k: nat)
      requires Valid() && i < fSize && k < |ChainAt(i)|
      ensures ChainAt(i)[k].fNextHashEntry == At(ChainAt(i), k + 1)
      ensures From(i, k)[1..] == From(i, k + 1)
      ensures k + 1 == |ChainAt(i)| ==> From(i, k + 1) == Tail(i + 1)
    {
      assert Linked(fHashTable[i], ChainAt(i));
      DropOne(ChainAt(i), k, Tail(i + 1));
    }

    function GetTableSize(): nat { fSize }

    function GetTableEntry(i: nat): HashEntry?<K, T>
      requires i < fHashTable.Length
      reads fHashTable
    {
      fHashTable[i]
    }

    constructor (size: nat, hash: K -> nat)
      requires size > 0
      ensures Valid() && Entries == [] && fresh(fHashTable) && fSize == size && GetHashKey == hash
    {
      fHashTable := new HashEntry?<K, T>[size](i => null);
      fSize := size;
      fMask := if And(size - 1, size) != 0 then 0 else size - 1;
      GetHashKey := hash;
      fNumEntries := 0;
      Entries := [];
    }

    method Add(entry: HashEntry<K, T>)
      requires Valid() && entry !in Entries && entry.fNextHashEntry == null
      modifies this`fNumEntries, this`Entries, fHashTable, entry`fNextHashEntry
      ensures Valid() && Entries == [entry] + old(Entries)
    {
      IndexIsMod(GetHashKey(entry.key));
      var theIndex := ComputeIndex(GetHashKey(entry.key));
      ghost var before := Entries;
      entry.fNextHashEntry := fHashTable[theIndex];
      fHashTable[theIndex] := entry;
      fNumEntries := fNumEntries + 1;
      Entries := [entry] + Entries;
      forall i | 0 <= i < fSize ensures Linked(fHashTable[i], ChainAt(i)) {
        assert Linked(if i == theIndex then entry.fNextHashEntry else fHashTable[i], Chain(before, Index(), i));
        ChainCons(entry, before, Index(), i);
      }
    }

    /** Also when the entry is not there: nothing happens then. */
    method Remove(entry: HashEntry<K, T>)
      requires Valid()
      modifies this`fNumEntries, this`Entries, fHashTable, Entries`fNextHashEntry
      ensures Valid() && Entries == Without(old(Entries), entry)
      ensures entry in old(Entries) ==> entry.fNextHashEntry == null
    {
      IndexIsMod(GetHashKey(entry.key));
      var theIndex := ComputeIndex(GetHashKey(entry.key));
      ChainMembers(Entries, Index(), theIndex);
      ChainDistinct(Entries, Index(), theIndex);
      var last, elem, at := Find(theIndex, entry);
      if elem != null {
        Unlink(theIndex, last, entry, at);
        fNumEntries := fNumEntries - 1;
        Drop(entry);
      } else {
        assert ChainAt(theIndex)[..at] == ChainAt(theIndex);
        WithoutAbsent(Entries, entry);
      }
    }

    /** The entry and the one before it, at their place in the chain; null where there is none. */
    method Find(theIndex: nat, entry: HashEntry<K, T>)
        returns (last: HashEntry?<K, T>, elem: HashEntry?<K, T>, ghost at: nat)
      requires Valid() && theIndex < fSize
      ensures at <= |ChainAt(theIndex)|
      ensures elem == At(ChainAt(theIndex), at) && last == if at == 0 then null else ChainAt(theIndex)[at - 1]
      ensures entry !in ChainAt(theIndex)[..at] && (elem == null || elem == entry)
    {
      ghost var chain := ChainAt(theIndex);
      elem, last, at := fHashTable[theIndex], null, 0;
      while elem != null && elem != entry
        invariant at <= |chain|
        invariant elem == At(chain, at) && last == if at == 0 then null else chain[at - 1]
        invariant entry !in chain[..at]
        decreases |chain| - at
      {
        last := elem;
        elem := elem.fNextHashEntry;
        at := at + 1;
      }
    }

    /** Takes the entry out of its chain. */
    method Unlink(theIndex: nat, last: HashEntry?<K, T>, elem: HashEntry<K, T>, ghost at: nat)
      requires GoodSize() && theIndex < fSize && Distinct(ChainAt(theIndex)) && at < |ChainAt(theIndex)|
      requires elem == ChainAt(theIndex)[at] && last == if at == 0 then null else ChainAt(theIndex)[at - 1]
      requires forall i :: 0 <= i < fSize ==> Linked(fHashTable[i], ChainAt(i))
      modifies fHashTable, Entries`fNextHashEntry
      ensures elem.fNextHashEntry == null
      ensures forall i :: 0 <= i < fSize ==> Linked(fHashTable[i], Without(ChainAt(i), elem))
    {
      ghost var chain := ChainAt(theIndex);
      WithoutIsSplice(chain, at);
      ghost var heads := fHashTable[..];
      ChainMembers(Entries, Index(), theIndex);
      assert elem in Entries && elem.fNextHashEntry == At(chain, at + 1);
      Bypass(theIndex, last, elem);
      forall i | 0 <= i < fSize ensures Linked(fHashTable[i], Without(ChainAt(i), elem)) {
        if i == theIndex {
          SplicedLinks(chain, at, fHashTable[i]);
        } else {
          assert fHashTable[i] == heads[i];
          ChainMembers(Entries, Index(), i);
          assert elem !in ChainAt(i) && (last == null || last !in ChainAt(i));
          WithoutAbsent(ChainAt(i), elem);
        }
      }
    }

    method Bypass(theIndex: nat, last: HashEntry?<K, T>, elem: HashEntry<K, T>)
      requires theIndex < fHashTable.Length && last != elem
      requires elem in Entries && (last == null || last in Entries)
      modifies fHashTable, Entries`fNextHashEntry
      ensures elem.fNextHashEntry == null && (last != null ==> last.fNextHashEntry == old(elem.fNextHashEntry))
      ensures forall e <- Entries :: e != elem && e != last ==> e.fNextHashEntry == old(e.fNextHashEntry)
      ensures fHashTable[..] == old(if last == null then fHashTable[..][theIndex := elem.fNextHashEntry] else fHashTable[..])
    {
      if last != null {
        last.fNextHashEntry := elem.fNextHashEntry;
      } else {
        fHashTable[theIndex] := elem.fNextHashEntry;
      }
      elem.fNextHashEntry := null;
    }

    lemma SplicedLinks(chain: seq<HashEntry<K, T>>, at: nat, first: HashEntry?<K, T>)
      requires at < |chain|
      requires first == if at == 0 then At(chain, 1) else chain[0]
      requires at > 0 ==> chain[at - 1].fNextHashEntry == At(chain, at + 1)
      requires forall k :: 0 <= k < |chain| && k != at && k != at - 1 ==> chain[k].fNextHashEntry == At(chain, k + 1)
      ensures Linked(first, chain[..at] + chain[at + 1..])
    {
      var s := chain[..at] + chain[at + 1..];
      forall k | 0 <= k < |s| ensures s[k].fNextHashEntry == At(s, k + 1) {
        assert s[k] == if k < at then chain[k] else chain[k + 1];
      }
    }

    ghost method Drop(entry: HashEntry<K, T>)
      requires GoodSize() && Distinct(Entries) && entry in Entries && fNumEntries == |Entries| - 1
      requires forall i :: 0 <= i < fSize ==> Linked(fHashTable[i], Without(ChainAt(i), entry))
      modifies this`Entries
      ensures Valid() && Entries == Without(old(Entries), entry)
    {
      ghost var before := Entries;
      WithoutDistinct(Entries, entry);
      Entries := Without(Entries, entry);
      forall i | 0 <= i < fSize ensures Linked(fHashTable[i], ChainAt(i)) {
        ChainWithout(before, Index(), i, entry);
      }
    }

    method Map(key: K) returns (r: HashEntry?<K, T>)
      requires Valid()
      ensures r == Newest(Entries, key)
    {
      IndexIsMod(GetHashKey(key));
      var theIndex := ComputeIndex(GetHashKey(key));
      ghost var chain := ChainAt(theIndex);
      NewestInChain(Entries, Index(), theIndex, key);
      ghost var at := 0;
      r := fHashTable[theIndex];
      assert chain[0..] == chain;
      while r != null
        invariant 0 <= at <= |chain| && r == At(chain, at)
        invariant Newest(chain[at..], key) == Newest(chain, key)
        decreases |chain| - at
      {
        if r.key == key {
          break;
        }
        r := r.fNextHashEntry;
        at := at + 1;
      }
    }
  }


  class OSHashTableIter<K(==), T> {
    const fHashTable: OSHashTable<K, T>
    var fCurrent: HashEntry?<K, T>
    var fIndex: nat
    ghost var Place: nat                  // of fCurrent in its chain
    ghost var Rest: seq<HashEntry<K, T>>  // still to be visited, the current one first

    ghost predicate Valid()
      requires fHashTable.GoodSize()
      reads this, fHashTable
    {
      if fCurrent == null then Rest == []
      else
        && Rest != []
        && fCurrent == Rest[0]
        && fIndex < fHashTable.fSize
        && Place < |fHashTable.ChainAt(fIndex)|
        && fCurrent == fHashTable.ChainAt(fIndex)[Place]
        && Rest == fHashTable.From(fIndex, Place)
    }

    constructor (table: OSHashTable<K, T>)
      requires table.Valid()
      ensures fHashTable == table && Valid() && Rest == table.Tail(0)
    {
      fHashTable, fCurrent, fIndex := table, null, 0;
      new;
      First();
    }

    method First()
      requires fHashTable.Valid()
      modifies this
      ensures Valid() && Rest == fHashTable.Tail(0)
    {
      Seek(0);
    }

    method Next()
      requires fHashTable.Valid() && Valid() && !IsDone()
      modifies this
      ensures Valid() && old(Rest) != [] && old(fCurrent == Rest[0]) && Rest == old(Rest)[1..]
    {
      Ahead();
      if fCurrent.fNextHashEntry == null {
        Seek(fIndex + 1);
      } else {
        Advance();
      }
    }

    lemma Ahead()
      requires fHashTable.Valid() && Valid() && !IsDone()
      ensures fCurrent.fNextHashEntry == At(fHashTable.ChainAt(fIndex), Place + 1)
      ensures Rest[1..] == fHashTable.From(fIndex, Place + 1)
      ensures fCurrent.fNextHashEntry == null ==> Rest[1..] == fHashTable.Tail(fIndex + 1)
    {
      fHashTable.NextInChain(fIndex, Place);
    }

    method Advance()
      requires fHashTable.GoodSize() && Valid() && !IsDone() && fCurrent.fNextHashEntry != null
      requires fCurrent.fNextHashEntry == At(fHashTable.ChainAt(fIndex), Place + 1)
      requires Rest[1..] == fHashTable.From(fIndex, Place + 1)
      modifies this
      ensures Valid() && Rest == old(Rest)[1..]
    {
      fCurrent := fCurrent.fNextHashEntry;
      Place := Place + 1;
      Rest := Rest[1..];
    }

    /** The loop that First and Next share: to the next chain that is not empty. */
    method Seek(from: nat)
      requires fHashTable.Valid() && from <= fHashTable.fSize
      modifies this
      ensures Valid() && Rest == fHashTable.Tail(from)
    {
      fCurrent, fIndex, Place, Rest := null, from, 0, fHashTable.Tail(from);
      while fIndex < fHashTable.GetTableSize()
        invariant fIndex <= fHashTable.fSize && Place == 0 && fCurrent == null
        invariant Rest == fHashTable.Tail(from) == fHashTable.Tail(fIndex)
      {
        fHashTable.HeadOfChain(fIndex);
        fCurrent := fHashTable.GetTableEntry(fIndex);
        if fCurrent != null {
          return;
        }
        fIndex := fIndex + 1;
      }
    }

    predicate IsDone()
      reads this
    {
      fCurrent == null
    }

    function GetCurrent(): HashEntry?<K, T>
      reads this
    {
      fCurrent
    }
  }

  lemma Shift<E>(a: seq<E>, b: seq<E>, e: E)
    requires b != [] && b[0] == e
    ensures a + b == (a + [e]) + b[1..]
  {
  }

  method Visit<K(==), T>(iter: OSHashTableIter<K, T>, visited: seq<HashEntry<K, T>>)
      returns (visited': seq<HashEntry<K, T>>)
    requires iter.fHashTable.Valid() && iter.Valid() && !iter.IsDone()
    modifies iter
    ensures iter.Valid() && |iter.Rest| < |old(iter.Rest)|
    ensures visited' + iter.Rest == visited + old(iter.Rest)
  {
    var e: HashEntry<K, T> := iter.GetCurrent();
    Shift(visited, iter.Rest, e);
    visited' := visited + [e];
    iter.Next();
  }

  /** A walk with the iterator visits each of the fNumEntries entries, and each once. */
  method Walk<K(==), T>(table: OSHashTable<K, T>) returns (visited: seq<HashEntry<K, T>>)
    requires table.Valid()
    ensures visited == table.Tail(0)
    ensures |visited| == table.fNumEntries && multiset(visited) == multiset(table.Entries) && Distinct(visited)
  {
    var iter := new OSHashTableIter(table);
    visited := VisitAll(iter);
    table.TailHoldsAll();
  }

  method VisitAll<K(==), T>(iter: OSHashTableIter<K, T>) returns (visited: seq<HashEntry<K, T>>)
    requires iter.fHashTable.Valid() && iter.Valid()
    modifies iter
    ensures visited == old(iter.Rest)
  {
    visited := [];
    while !iter.IsDone()
      invariant iter.Valid() && visited + iter.Rest == old(iter.Rest)
      decreases |iter.Rest|
    {
      visited := Visit(iter, visited);
    }
    assert visited + [] == visited;
  }
}
