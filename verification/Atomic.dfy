/** atomic.cpp: the four atomic operations on a 32-bit word. Each holds one lock for its whole body, so
    each is a single step; addition and subtraction wrap modulo 2^32, as bv32 does. */
module Atomic {

  type Word = bv32

  function Or(w: Word, bits: Word): Word { w | bits }

  function Add(w: Word, val: Word): Word { w + val }

  function Sub(w: Word, val: Word): Word { Add(w, 0 - val) }

  class AtomicWord {
    var area: Word

    constructor (initial: Word)
      ensures area == initial
    {
      area := initial;
    }

    method AtomicAdd(val: Word) returns (r: Word)
      modifies this
      ensures area == Add(old(area), val) && r == area
    {
      area := area + val;
      r := area;
    }

    method AtomicSub(val: Word) returns (r: Word)
      modifies this
      ensures area == Sub(old(area), val) && r == area
    {
      r := AtomicAdd(0 - val);
    }

    method AtomicOr(val: Word) returns (oldval: Word)
      modifies this
      ensures area == Or(old(area), val) && oldval == old(area)
    {
      oldval := area;
      area := oldval | val;
    }

    method CompareAndStore(oval: Word, nval: Word) returns (rv: bool)
      modifies this
      ensures rv <==> old(area) == oval
      ensures area == if rv then nval else old(area)
    {
      if oval == area {
        rv := true;
        area := nval;
      } else {
        rv := false;
      }
    }
  }

  /** Taking away bits that are all set is clearing exactly those bits: no borrow reaches another bit. */
  lemma SubClearsBits(w: Word, bits: Word)
    requires w & bits == bits
    ensures Sub(w, bits) == w & !bits
  {
  }
}
