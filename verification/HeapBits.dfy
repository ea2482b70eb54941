/**
 The tags of Lab6_malloclab/mm.c as the C code handles them: 64-bit vectors with
 masks and shifts, and the numbers they stand for in HeapWords.dfy.
 */
module HeapBits {
  import opened HeapWords

  /** PACK as the C code computes it. */
  function PackBits(size: bv64, prevAlloc: bv64, alloc: bv64): bv64 {
    size | (prevAlloc << 1) | alloc
  }

  /** On a size with its three low bits clear, `|` is addition ... */
  lemma PackBitsAdds(size: bv64, prevAlloc: bv64, alloc: bv64)
    requires size & 7 == 0 && (prevAlloc == 0 || prevAlloc == 1) && (alloc == 0 || alloc == 1)
    ensures PackBits(size, prevAlloc, alloc) == size + 2 * prevAlloc + alloc
  {
  }

  /** ... and the masks of get_blockSize, check_prev_alloc and check_alloc
      give back the three fields. */
  lemma PackBitsSize(size: bv64, prevAlloc: bv64, alloc: bv64)
    requires size & 7 == 0 && (prevAlloc == 0 || prevAlloc == 1) && (alloc == 0 || alloc == 1)
    ensures PackBits(size, prevAlloc, alloc) & !7 == size
  {
  }

  lemma PackBitsFlags(size: bv64, prevAlloc: bv64, alloc: bv64)
    requires size & 7 == 0 && (prevAlloc == 0 || prevAlloc == 1) && (alloc == 0 || alloc == 1)
    ensures (PackBits(size, prevAlloc, alloc) & 2) >> 1 == prevAlloc
    ensures PackBits(size, prevAlloc, alloc) & 1 == alloc
  {
  }

  /** The number that the n low bits of b stand for. */
  function Number(b: bv64, n: nat): nat {
    if n == 0 then 0 else (if b & 1 == 1 then 1 else 0) + 2 * Number(b >> 1, n - 1)
  }

  lemma ThreeLowBits(b: bv64)
    ensures Number(b, 64) == (if b & 1 == 1 then 1 else 0) + (if b & 2 == 2 then 2 else 0)
      + (if b & 4 == 4 then 4 else 0) + 8 * Number(b >> 3, 61)
  {
    assert Number(b, 64) == (if b & 1 == 1 then 1 else 0) + 2 * Number(b >> 1, 63);
    assert (b >> 1) >> 1 == b >> 2 && (b >> 2) >> 1 == b >> 3;
    assert Number(b >> 2, 62) == (if (b >> 2) & 1 == 1 then 1 else 0) + 2 * Number((b >> 2) >> 1, 61);
    assert ((b >> 1) & 1 == 1) == (b & 2 == 2) && ((b >> 2) & 1 == 1) == (b & 4 == 4);
  }

  function Flag(b: bool): bv64 {
    if b then 1 else 0
  }

  /** The three low bits of a tag that is packed, and the bits above them. */
  lemma PackedHigh(size: bv64, prevAlloc: bool, alloc: bool)
    ensures PackBits(size, Flag(prevAlloc), Flag(alloc)) >> 3 == size >> 3
  {
  }

  lemma PackedLow(size: bv64, prevAlloc: bool, alloc: bool)
    requires size & 7 == 0
    ensures var tag := PackBits(size, Flag(prevAlloc), Flag(alloc));
      tag & 4 != 4 && (tag & 2 == 2 <==> prevAlloc) && (tag & 1 == 1 <==> alloc)
  {
  }

  lemma SizeLow(size: bv64)
    requires size & 7 == 0
    ensures size & 1 != 1 && size & 2 != 2 && size & 4 != 4
  {
  }

  lemma MaskedBits(tag: bv64)
    ensures (tag & !7) >> 3 == tag >> 3 && (tag & !7) & 1 != 1 && (tag & !7) & 2 != 2 && (tag & !7) & 4 != 4
    ensures (tag & 2) >> 1 == 1 <==> tag & 2 == 2
  {
  }

  /** A number given by its three low bits and the rest. */
  lemma TagOfBits(n: nat, high: nat, prevAlloc: bool, alloc: bool)
    requires n == (if alloc then 1 else 0) + (if prevAlloc then 2 else 0) + 8 * high
    ensures n == Pack(high, prevAlloc, alloc)
  {
  }

  lemma EmptyTag(high: nat)
    ensures Pack(high, false, false) == 8 * high
  {
  }

  lemma NumberOfBits(tag: bv64, high: bv64, prevAlloc: bool, alloc: bool)
    requires tag >> 3 == high && tag & 4 != 4 && (tag & 2 == 2 <==> prevAlloc) && (tag & 1 == 1 <==> alloc)
    ensures Number(tag, 64) == Pack(Number(high, 61), prevAlloc, alloc)
  {
    hide Number, Pack;
    ThreeLowBits(tag);
    TagOfBits(Number(tag, 64), Number(tag >> 3, 61), prevAlloc, alloc);
  }

  /** PACK is Pack on the numbers that the bits stand for. */
  lemma PackNumber(size: bv64, prevAlloc: bool, alloc: bool)
    requires size & 7 == 0
    ensures Number(size, 64) == 8 * Number(size >> 3, 61)
    ensures Number(PackBits(size, Flag(prevAlloc), Flag(alloc)), 64) == Pack(Number(size >> 3, 61), prevAlloc, alloc)
  {
    hide Number, PackBits, Pack, Flag;
    SizeLow(size);
    NumberOfBits(size, size >> 3, false, false);
    EmptyTag(Number(size >> 3, 61));
    PackedHigh(size, prevAlloc, alloc);
    PackedLow(size, prevAlloc, alloc);
    NumberOfBits(PackBits(size, Flag(prevAlloc), Flag(alloc)), size >> 3, prevAlloc, alloc);
  }

  /** The masks read from the bits of any tag with a clear third bit what
      Words, PrevAlloc and Alloc read from its number. */
  lemma MasksNumber(tag: bv64)
    requires tag & 4 != 4
    ensures Number(tag & !7, 64) == 8 * Words(Number(tag, 64))
    ensures (tag & 2) >> 1 == 1 <==> PrevAlloc(Number(tag, 64))
    ensures tag & 1 == 1 <==> Alloc(Number(tag, 64))
  {
    hide Number, Pack, Words, PrevAlloc, Alloc;
    MaskedBits(tag);
    ThreeLowBits(tag);
    ThreeLowBits(tag & !7);
    TagOfBits(Number(tag, 64), Number(tag >> 3, 61), tag & 2 == 2, tag & 1 == 1);
  }
}
