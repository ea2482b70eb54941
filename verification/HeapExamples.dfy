/**
 Runs of Lab6_malloclab/mm.c on small heaps, from mm_init on, in which a call
 loses a block or does not keep its promise.
 */
module HeapExamples {
  import opened HeapWords
  import opened HeapLayout
  import opened HeapCanonical
  import opened HeapAllocator

  /** A heap that mm_init has set up. */
  method NewHeap(capacity: nat) returns (h: Heap)
    requires FIRST < capacity <= MAX_WORDS
    ensures fresh(h) && fresh(h.mem) && fresh(h.segMax) && h.mem.Length == capacity
    ensures h.Valid() && h.layout == map[] && h.brk == FIRST + 1
  {
    h := new Heap(capacity);
    var ok := h.Init();
  }

  lemma NoFitInEmpty(words: nat)
    ensures !HasFit(map[], words)
  {
  }

  lemma EightBytes()
    ensures Representable(8) && AskedWords(8) == RequestWords(8) == 4 && Grows(4, FIRST + 1, 54) && Grows(4, FIRST + 1, 58)
  {
  }

  /** With room for one extension only, mm_malloc returns NULL and a block that
      nobody has stays allocated. */
  method LostByMalloc() returns (h: Heap, p: nat, fault: bool)
    ensures p == 0 && !fault && h.Valid() && Live(h.layout) == map[FIRST := 4]
  {
    hide HasFit, Heap.Promise, Heap.SoundFor;
    h := NewHeap(54);
    EightBytes();
    NoFitInEmpty(4);
    p, fault := h.Malloc(8);
  }

  lemma EightGranted(h: Heap, w: seq<nat>, p: nat, fault: bool)
    requires h.mem.Length == 58 && h.Judged(w, map[], FIRST + 1, 8, p, fault)
    ensures p == FIRST + 3 && h.Valid() && h.layout == map[FIRST := Block(4, true), FIRST + 4 := Block(4, false)] && h.brk == 58
  {
    hide HasFit, Heap.Promise, Heap.SoundFor;
    EightBytes();
    NoFitInEmpty(4);
  }

  lemma NoRoomForThousand(m: Layout)
    requires m == map[FIRST := Block(4, true), FIRST + 4 := Block(4, false)]
    ensures ServedAgain(m, 58, 58, FIRST, 1000) && NoRoomToMove(m, 58, 58, FIRST, RequestWords(1000))
  {
    assert RequestWords(1000) == 128;
    assert forall p :: !EndsFree(m, p, FIRST);
    assert Merged(m, FIRST) == 8;
  }

  /** mm_realloc fails on a live block, and the block is gone. */
  method LostByRealloc() returns (h: Heap, p: nat, r: nat, fault: bool)
    ensures p != 0 && r == 0 && !fault && h.Valid() && Live(h.layout) == map[]
  {
    hide HasFit, Heap.Promise, Heap.SoundFor, Heap.Judged, NoRoomToMove, ServedAgain;
    h := NewHeap(58);
    ghost var w := h.mem[..];
    p, fault := h.Malloc(8);
    EightGranted(h, w, p, fault);
    NoRoomForThousand(h.layout);
    r, fault := h.Realloc(p, 1000);
  }

  lemma FourGigabytes()
    ensures Representable(TWO32) && AskedWords(TWO32) == TWO32 / 8 + 4 && !Grows(TWO32 / 8 + 4, FIRST + 1, 54)
  {
  }

  /** A request of 4 GiB moves the break by 32 bytes, and what mm_malloc then
      writes is no heap. */
  method Truncated4GiB() returns (h: Heap, p: nat, fault: bool)
    ensures !h.Promise(map[], TWO32, p, fault)
  {
    hide HasFit, Heap.Promise, Heap.SoundFor;
    h := NewHeap(54);
    FourGigabytes();
    NoFitInEmpty(TWO32 / 8 + 4);
    p, fault := h.Malloc(TWO32);
  }

  lemma FiveGigabytes(len: nat)
    requires len <= 0x50_0000
    ensures AskedWords(TWO32 + 0x4000_0000) == 0x2800_0004 && Representable(TWO32 + 0x4000_0000)
    ensures Refused(0x2800_0004, FIRST + 1, len)
  {
  }

  /** One of 5 GiB is refused, as it should be, by any memory up to the 40 MiB
      there are, although the increment is cut short as well. */
  method Refused5GiB(capacity: nat) returns (h: Heap, p: nat, fault: bool)
    requires FIRST < capacity <= 0x50_0000
    ensures p == 0 && !fault && h.Valid() && h.layout == map[] && h.brk == FIRST + 1
  {
    hide HasFit, Heap.Promise, Heap.SoundFor, RequestWords;
    h := NewHeap(capacity);
    FiveGigabytes(capacity);
    NoFitInEmpty(0x2800_0004);
    p, fault := h.Malloc(TWO32 + 0x4000_0000);
  }
}
