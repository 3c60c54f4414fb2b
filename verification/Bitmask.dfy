/** The bitmask sets of src/util.c, from which flag bits are allocated. */
module Bitmask {

  type Word = bv64

  const FULL: Word := 0xffff_ffff_ffff_ffff
  const TOP: Word := 0x8000_0000_0000_0000

  predicate Single(v: Word) {
    v != 0 && v & (v - 1) == 0
  }

  /** The lowest bit that is not in the set: it is one bit, it is not in, and all below are. */
  predicate LowestFree(bits: Word, v: Word) {
    Single(v) && bits & v == 0 && bits & (v - 1) == v - 1
  }

  /** The steps of u_bitmask_alloc. */
  function Pick(bits: Word): Word {
    var v := bits ^ (bits + 1);
    v ^ (v >> 1)
  }

  /** The trick finds the lowest free bit, unless there is none: then it gives out the top bit, which
      is taken. */
  lemma PickIsLowest(bits: Word)
    ensures if bits == FULL then Pick(bits) == TOP else LowestFree(bits, Pick(bits))
  {
  }

  /** There is only one lowest free bit. */
  lemma LowestUnique(bits: Word, v: Word, w: Word)
    requires LowestFree(bits, v) && LowestFree(bits, w)
    ensures v == w
  {
  }

  lemma FullStays()
    ensures FULL | TOP == FULL
  {
  }

  method Compute(bits: Word) returns (v: Word)
    ensures v == Pick(bits)
  {
    v := bits;
    v := v ^ (v + 1);
    v := v ^ (v >> 1);
  }

  class BitmaskSet {
    var bits: Word

    constructor ()
      ensures bits == 0
    {
      bits := 0;
    }

    /** u_bitmask_alloc: the lowest free bit is taken; a full set gives out its top bit again. */
    method Alloc() returns (v: Word)
      modifies this
      ensures bits == old(bits) | v
      ensures if old(bits) == FULL then v == TOP && bits == old(bits) else LowestFree(old(bits), v)
    {
      v := Compute(bits);
      hide Pick, LowestFree;
      PickIsLowest(bits);
      FullStays();
      bits := bits | v;
    }

    /** u_bitmask_free: what was allocated is free again. */
    method Free(v: Word)
      modifies this
      ensures bits == old(bits) & !v && bits & v == 0
    {
      bits := bits & !v;
    }
  }
}
