/**
 What follows from the invariant of the allocator: the state between calls is
 a function of the live blocks and the heap's extent, so it does not depend on
 the order of the calls that led to it.
 */
module HeapTheorems {
  import opened HeapWords
  import opened HeapLayout
  import opened HeapCanonical
  import opened HeapAllocator

  // ------------------------------------------------------ whole histories

  lemma SameUseSameState(h1: Heap, h2: Heap)
    requires h1.Valid() && h2.Valid() && Live(h1.layout) == Live(h2.layout) && h1.brk == h2.brk
    ensures h1.layout == h2.layout && Lists(h1.mem[..]) == Lists(h2.mem[..])
  {
    hide Tiling, Tags, Links, Coalesced, Aligned, FreeLists, Live, Lists;
    CanonicalHeap(h1.mem[..], h1.layout, h2.mem[..], h2.layout, h1.End());
  }

  method FreeBoth(h: Heap, p: nat, q: nat)
    requires h.Valid() && p != q && p >= 3 && q >= 3 && p - 3 in Live(h.layout) && q - 3 in Live(h.layout)
    modifies h`layout, h`listed, h.mem
    ensures h.Valid() && Live(h.layout) == Live(old(h.layout)) - {p - 3, q - 3}
  {
    hide Live, Tiling, Tags, Links, Coalesced, Aligned, FreeLists, Kept;
    ghost var live := Live(h.layout);
    h.Free(p);
    h.Free(q);
    assert live - {p - 3} - {q - 3} == live - {p - 3, q - 3};
  }

  /** Two live blocks may be freed in either order. */
  method FreeInEitherOrder(h1: Heap, h2: Heap, p: nat, q: nat)
    requires h1.Valid() && h2.Valid() && Apart(h1, h2)
    requires Live(h1.layout) == Live(h2.layout) && h1.brk == h2.brk
    requires p != q && p >= 3 && q >= 3 && p - 3 in Live(h1.layout) && q - 3 in Live(h1.layout)
    modifies h1`layout, h1`listed, h1.mem, h2`layout, h2`listed, h2.mem
    ensures h1.layout == h2.layout && Lists(h1.mem[..]) == Lists(h2.mem[..])
    ensures Live(h1.layout) == Live(old(h1.layout)) - {p - 3, q - 3}
  {
    FreeBoth(h1, p, q);
    FreeBothFrame(h1, h2, p, q);
    SameUseSameState(h1, h2);
  }

  /** The two heaps share no storage. */
  ghost predicate Apart(h1: Heap, h2: Heap) {
    h1 != h2 && h1.mem != h2.mem && h1.mem != h2.segMax && h2.mem != h1.segMax
  }

  method FreeBothFrame(h1: Heap, h2: Heap, p: nat, q: nat)
    requires h1.Valid() && h2.Valid() && Apart(h1, h2)
    requires p != q && p >= 3 && q >= 3 && p - 3 in Live(h2.layout) && q - 3 in Live(h2.layout)
    modifies h2`layout, h2`listed, h2.mem
    ensures h1.Valid() && h2.Valid() && Live(h2.layout) == Live(old(h2.layout)) - {p - 3, q - 3}
  {
    hide Live, Tiling, Tags, Links, Coalesced, Aligned, FreeLists, Kept;
    assert {p - 3, q - 3} == {q - 3, p - 3};
    FreeBoth(h2, q, p);
    assert h1.mem[..] == old(h1.mem[..]);
  }

  /** Allocating from a list and freeing at once leaves no trace. */
  method MallocThenFree(h: Heap, size: nat)
    requires h.Valid() && size < TWO64 && HasFit(h.layout, RequestWords(size))
    modifies h, h.mem
    ensures h.layout == old(h.layout) && h.brk == old(h.brk) && Lists(h.mem[..]) == old(Lists(h.mem[..]))
  {
    hide Tiling, Tags, Links, Aligned, Coalesced, FreeLists, Live, PayloadsKept, AskedWords, Lists, Heap.Promise, HasFit;
    ghost var w, m, end := h.mem[..], h.layout, h.End();
    h.SoundTiling(0);
    FitRepresentable(m, end, size);
    var p, fault := h.Malloc(size);
    HandedOutLive(m, h.layout, h.End(), p, size);
    ghost var live := Live(h.layout);
    h.Free(p);
    h.SoundTiling(0);
    assert live - {p - 3} == Live(m);
    CanonicalHeap(h.mem[..], h.layout, w, m, end);
  }

  /** What fits into a heap has a 64-bit size. */
  lemma FitRepresentable(m: Layout, end: nat, size: nat)
    requires Tiling(m, end) && end < MAX_WORDS && HasFit(m, RequestWords(size)) && size < TWO64
    ensures Representable(size) && AskedWords(size) == RequestWords(size)
  {
    var b :| IsFit(m, RequestWords(size), b);
    BlockRange(m, end, b);
    AskedExactly(size);
  }

  lemma HandedOutLive(m: Layout, m': Layout, end: nat, ptr: nat, size: nat)
    requires HandedOut(m, m', end, ptr, size)
    ensures ptr >= 3 && ptr - 3 in Live(m') && ptr - 3 !in Live(m) && Live(m') - {ptr - 3} == Live(m)
  {
  }
}
