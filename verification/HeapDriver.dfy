/**
 The correctness test of Lab6_malloclab/mdriver.c (eval_mm_valid and
 add_range) run against the allocator: on every well-formed trace it can only
 stop because memory is exhausted.  Its range list is the blocks array here,
 which holds the same ranges.
 */
module HeapDriver {
  import opened HeapWords
  import opened HeapLayout
  import opened HeapAllocator

  datatype Op = Alloc(index: nat, size: nat) | Free(index: nat) | Realloc(index: nat, size: nat)

  /** The payload of a block of the trace: word address and bytes. */
  datatype Range = Nothing | Range(lo: nat, size: nat)

  datatype Verdict =
    Passed | InitFailed | MallocFailed | ReallocFailed | Misaligned | OutsideHeap | Overlapping | DataLost

  // ------------------------------------------------------------ the trace

  /** Blocks are allocated when there is none of that index, reallocated and
      freed when there is one; sizes are positive ints. */
  predicate WellFormed(ops: seq<Op>, live: seq<bool>)
    decreases |ops|
  {
    ops == [] || (
      && ops[0].index < |live|
      && match ops[0]
         case Alloc(k, size) => !live[k] && 0 < size <= INT_MAX && WellFormed(ops[1..], live[k := true])
         case Free(k) => live[k] && WellFormed(ops[1..], live[k := false])
         case Realloc(k, size) => live[k] && 0 < size <= INT_MAX && WellFormed(ops[1..], live))
  }

  /** Sizes that are ints are served, whatever the heap. */
  lemma IntsServed(m: Layout, brk: nat, len: nat, size: nat)
    requires size <= INT_MAX
    ensures Representable(size) && AskedWords(size) == RequestWords(size) && Served(m, brk, len, size)
    ensures forall b :: b in m ==> ServedAgain(m, brk, len, b, size)
  {
    AskedExactly(size);
    IntGrows(RequestWords(size), brk, len);
  }

  lemma IntGrows(words: nat, brk: nat, len: nat)
    requires 8 * words < INT_MAX + 64
    ensures Grows(words, brk, len)
  {
  }

  // --------------------------------------------------------- the capacity

  /** Words by which a request may extend the heap. */
  function Demand(op: Op): nat {
    match op
    case Alloc(_, size) => 2 * RequestWords(size)
    case Realloc(_, size) => RequestWords(size)
    case Free(_) => 0
  }

  function TotalDemand(ops: seq<Op>): nat {
    if ops == [] then 0 else Demand(ops[0]) + TotalDemand(ops[1..])
  }

  /** The block asked for is larger than an int can tell mem_sbrk. */
  predicate Oversized(op: Op) {
    !op.Free? && 8 * RequestWords(op.size) > INT_MAX
  }

  lemma OversizedExactly(op: Op)
    ensures Oversized(op) <==> !op.Free? && op.size > INT_MAX - 39
  {
  }

  // ------------------------------------------------------------- payloads

  /** The range lies in a live block and holds its fill byte. */
  ghost predicate Intact(live: map<nat, nat>, w: seq<nat>, r: Range, c: nat) {
    r.Range? ==>
      && r.lo >= 3 && r.lo - 3 in live && r.size + 24 <= 8 * live[r.lo - 3]
      && r.lo - 3 + live[r.lo - 3] <= |w|
      && forall j: nat :: j < r.size ==> ByteAt(w, r.lo, j) == c
  }

  lemma IntactKept(live: map<nat, nat>, live': map<nat, nat>, w: seq<nat>, w': seq<nat>, r: Range, c: nat)
    requires Intact(live, w, r, c) && r.Range?
    requires r.lo - 3 in live' && live'[r.lo - 3] == live[r.lo - 3] && |w| == |w'|
    requires forall k :: r.lo <= k < r.lo - 3 + live[r.lo - 3] ==> w'[k] == w[k]
    ensures Intact(live', w', r, c)
  {
    forall j: nat | j < r.size
      ensures ByteAt(w', r.lo, j) == c
    {
      assert ByteAt(w, r.lo, j) == c;
    }
  }

  /** Another block's payload is untouched. */
  lemma IntactOther(live: map<nat, nat>, kept: map<nat, nat>, live': map<nat, nat>, w: seq<nat>, w': seq<nat>, r: Range, c: nat)
    requires Intact(live, w, r, c) && r.Range? && PayloadsKept(kept, w, w')
    requires r.lo - 3 in kept && kept[r.lo - 3] == live[r.lo - 3]
    requires r.lo - 3 in live' && live'[r.lo - 3] == live[r.lo - 3]
    ensures Intact(live', w', r, c)
  {
    forall k | r.lo <= k < r.lo - 3 + live[r.lo - 3]
      ensures w'[k] == w[k]
    {
      assert LiveWord(kept, r.lo - 3, k);
    }
    IntactKept(live, live', w, w', r, c);
  }

  /** All ranges are intact, and no two start at the same place. */
  ghost predicate Tracked(live: map<nat, nat>, w: seq<nat>, blocks: seq<Range>) {
    && (forall i :: 0 <= i < |blocks| ==> Intact(live, w, blocks[i], i % 256))
    && (forall i, j :: 0 <= i < j < |blocks| && blocks[i].Range? && blocks[j].Range? ==> blocks[i].lo != blocks[j].lo)
  }

  /** The state of the blocks while block k is being worked on. */
  ghost predicate TrackedBut(live: map<nat, nat>, w: seq<nat>, blocks: seq<Range>, k: nat)
    requires k < |blocks|
  {
    Tracked(live, w, blocks[k := Nothing])
  }

  lemma Untrack(live: map<nat, nat>, w: seq<nat>, blocks: seq<Range>, k: nat)
    requires Tracked(live, w, blocks) && k < |blocks|
    ensures TrackedBut(live, w, blocks, k)
    ensures blocks[k].Range? ==> forall i :: 0 <= i < |blocks| && i != k && blocks[i].Range? ==> blocks[i].lo != blocks[k].lo
  {
    var bs := blocks[k := Nothing];
    forall i | 0 <= i < |bs|
      ensures Intact(live, w, bs[i], i % 256)
    {
      assert Intact(live, w, blocks[i], i % 256);
    }
  }

  /** A step of the allocator that keeps the other live blocks keeps the ranges. */
  lemma TrackedKept(live: map<nat, nat>, kept: map<nat, nat>, live': map<nat, nat>, w: seq<nat>, w': seq<nat>, blocks: seq<Range>, k: nat)
    requires k < |blocks| && TrackedBut(live, w, blocks, k) && PayloadsKept(kept, w, w')
    requires forall i :: 0 <= i < |blocks| && i != k && blocks[i].Range? && blocks[i].lo >= 3 && blocks[i].lo - 3 in live ==>
      StillThere(live, kept, live', blocks[i].lo - 3)
    ensures TrackedBut(live', w', blocks, k)
  {
    hide PayloadsKept;
    var bs := blocks[k := Nothing];
    forall i | 0 <= i < |bs|
      ensures Intact(live', w', bs[i], i % 256)
    {
      assert Intact(live, w, bs[i], i % 256);
      if bs[i].Range? {
        IntactOther(live, kept, live', w, w', bs[i], i % 256);
      }
    }
  }

  ghost predicate StillThere(live: map<nat, nat>, kept: map<nat, nat>, live': map<nat, nat>, a: nat)
    requires a in live
  {
    a in kept && a in live' && kept[a] == live[a] == live'[a]
  }

  // ------------------------------------------------------------- add_range

  /** The test that add_range makes for each range on the list, on byte addresses. */
  predicate Overlaps(lo: nat, hi: int, p: Range) {
    p.Range? && ((8 * p.lo <= lo <= 8 * p.lo + p.size - 1) || (8 * p.lo <= hi <= 8 * p.lo + p.size - 1))
  }

  predicate Covers(p: Range, x: int) {
    p.Range? && 8 * p.lo <= x < 8 * p.lo + p.size
  }

  /** The test finds every range that has a byte in common with [lo, hi], but
      for those strictly inside. */
  lemma OverlapsExactly(lo: nat, hi: int, p: Range)
    requires lo <= hi
    ensures Overlaps(lo, hi, p) <==>
      (exists x :: lo <= x <= hi && Covers(p, x)) && !(lo < 8 * p.lo && 8 * p.lo + p.size <= hi)
  {
    if Overlaps(lo, hi, p) {
      assert Covers(p, lo) || Covers(p, hi);
    }
  }

  method AddRange(h: Heap, blocks: seq<Range>, ptr: nat, size: nat) returns (v: Verdict)
    requires size > 0
    ensures v == Passed <==>
      ptr % 2 == 0 && 8 * ptr + size <= 8 * h.brk && forall i :: 0 <= i < |blocks| ==> !Overlaps(8 * ptr, 8 * ptr + size - 1, blocks[i])
    ensures v in {Passed, Misaligned, OutsideHeap, Overlapping}
    ensures v == Misaligned <==> ptr % 2 != 0
    ensures v == OutsideHeap <==> ptr % 2 == 0 && 8 * ptr + size > 8 * h.brk
  {
    var lo, hi := 8 * ptr, 8 * ptr + size - 1;
    if lo % 16 != 0 {
      return Misaligned;
    }
    if lo > 8 * h.brk - 1 || hi > 8 * h.brk - 1 {
      return OutsideHeap;
    }
    for i := 0 to |blocks|
      invariant forall k :: 0 <= k < i ==> !Overlaps(lo, hi, blocks[k])
    {
      if Overlaps(lo, hi, blocks[i]) {
        return Overlapping;
      }
    }
    return Passed;
  }

  /** A block just handed out passes. */
  lemma HandedOutPasses(m: Layout, m': Layout, end: nat, w: seq<nat>, ptr: nat, size: nat, blocks: seq<Range>, k: nat)
    requires HandedOut(m, m', end, ptr, size) && 0 < size && k < |blocks| && TrackedBut(Live(m), w, blocks, k)
    ensures ptr % 2 == 0 && 8 * ptr + size <= 8 * (end + 1)
    ensures forall i :: 0 <= i < |blocks| && i != k ==> !Overlaps(8 * ptr, 8 * ptr + size - 1, blocks[i])
    ensures forall i :: 0 <= i < |blocks| && i != k && blocks[i].Range? ==> blocks[i].lo != ptr
  {
    hide Live;
    var bs := blocks[k := Nothing];
    forall i | 0 <= i < |blocks| && i != k && blocks[i].Range?
      ensures !Overlaps(8 * ptr, 8 * ptr + size - 1, blocks[i]) && blocks[i].lo != ptr
    {
      assert Intact(Live(m), w, bs[i], i % 256);
    }
  }

  // ---------------------------------------------------------------- memset

  /** A word of n bytes c. */
  function Repeated(c: nat, n: nat): nat {
    if n == 0 then 0 else c + 256 * Repeated(c, n - 1)
  }

  lemma {:induction false} RepeatedByte(c: nat, n: nat, j: nat)
    requires c < 256 && j < n
    ensures WordByte(Repeated(c, n), j) == c
  {
    BytePush(c, Repeated(c, n - 1));
    if j > 0 {
      RepeatedByte(c, n - 1, j - 1);
    }
  }

  /** memset */
  method MemSet(h: Heap, p: nat, c: nat, size: nat)
    requires c < 256 && p + (size + 7) / 8 <= h.mem.Length
    modifies h.mem
    ensures OnlyWithin(old(h.mem[..]), h.mem[..], p, p + (size + 7) / 8)
    ensures forall j: nat :: j < size ==> ByteAt(h.mem[..], p, j) == c
  {
    var q, r, v := size / 8, size % 8, Repeated(c, 8);
    forall k | p <= k < p + q {
      h.mem[k] := v;
    }
    if r > 0 {
      h.mem[p + q] := MergeLow(h.mem[p + q], v, r);
    }
    ghost var last := if r > 0 then old(h.mem[p + q]) else 0;
    forall j: nat | j < size
      ensures ByteAt(h.mem[..], p, j) == c
    {
      RepeatedByte(c, 8, j % 8);
      MergeLowBytes(last, v, r, j % 8);
    }
  }

  /** Filling a block's payload. */
  method FillBlock(h: Heap, blocks: seq<Range>, k: nat, p: nat, size: nat) returns (blocks': seq<Range>)
    requires h.Valid() && k < |blocks| && p >= 3 && p - 3 in Live(h.layout) && size + 24 <= 8 * Live(h.layout)[p - 3]
    requires TrackedBut(Live(h.layout), h.mem[..], blocks, k)
    requires forall i :: 0 <= i < |blocks| && i != k && blocks[i].Range? ==> blocks[i].lo != p
    modifies h.mem
    ensures h.Valid() && blocks' == blocks[k := Range(p, size)]
    ensures Tracked(Live(h.layout), h.mem[..], blocks')
  {
    hide Tiling, Tags, Links, Coalesced, Aligned, FreeLists, Live, PayloadsKept, Intact, Heap.SoundFor;
    ghost var w, m, live := h.mem[..], h.layout, Live(h.layout);
    LiveInLayout(m);
    h.SoundTiling(0);
    BlockRange(m, h.End(), p - 3);
    MemSet(h, p, k % 256, size);
    OnlyWithinWider(w, h.mem[..], p, p + (size + 7) / 8, Next(m, p - 3));
    h.FillLiveKeeps(w, p - 3);
    FillPayloads(w, h.mem[..], m, h.End(), p - 3, live - {p - 3});
    TrackedKept(live, live - {p - 3}, live, w, h.mem[..], blocks, k);
    blocks' := blocks[k := Range(p, size)];
    NewRange(live, h.mem[..], blocks, k, p, size);
  }

  lemma OnlyWithinWider(w: seq<nat>, w': seq<nat>, lo: nat, hi: nat, hi': nat)
    requires OnlyWithin(w, w', lo, hi) && hi <= hi'
    ensures OnlyWithin(w, w', lo, hi')
  {
  }

  lemma NewRange(live: map<nat, nat>, w: seq<nat>, blocks: seq<Range>, k: nat, p: nat, size: nat)
    requires k < |blocks| && TrackedBut(live, w, blocks, k)
    requires p >= 3 && p - 3 in live && size + 24 <= 8 * live[p - 3] && p - 3 + live[p - 3] <= |w|
    requires forall j: nat :: j < size ==> ByteAt(w, p, j) == k % 256
    requires forall i :: 0 <= i < |blocks| && i != k && blocks[i].Range? ==> blocks[i].lo != p
    ensures Tracked(live, w, blocks[k := Range(p, size)])
  {
    var bs, bs' := blocks[k := Nothing], blocks[k := Range(p, size)];
    forall i | 0 <= i < |bs'|
      ensures Intact(live, w, bs'[i], i % 256)
    {
      assert i != k ==> Intact(live, w, bs[i], i % 256);
    }
    forall i, j | 0 <= i < j < |bs'| && bs'[i].Range? && bs'[j].Range?
      ensures bs'[i].lo != bs'[j].lo
    {
      assert i != k && j != k ==> bs[i].lo != bs[j].lo;
    }
  }

  // ------------------------------------------------------- the three requests

  /** Where mm_malloc has left the break, and why it may have returned NULL. */
  lemma MallocBreak(m: Layout, brk: nat, len: nat, size: nat, ptr: nat, m': Layout, brk': nat)
    requires 0 < brk <= len && MallocResult(m, brk, len, size, ptr, m', brk') && size <= INT_MAX
    ensures brk <= brk' <= brk + 2 * RequestWords(size) && brk' <= len
    ensures ptr == 0 ==> 8 * RequestWords(size) > INT_MAX || brk + 2 * RequestWords(size) > len
  {
    hide HasFit, FirstFit, Placed;
    AskedExactly(size);
  }

  lemma HandedOutLive(m: Layout, m': Layout, end: nat, ptr: nat, size: nat)
    requires HandedOut(m, m', end, ptr, size)
    ensures ptr >= 3 && ptr - 3 in Live(m') && size + 24 <= 8 * Live(m')[ptr - 3]
    ensures forall a :: a in Live(m) ==> a != ptr - 3 && a in Live(m') && Live(m')[a] == Live(m)[a]
  {
  }

  predicate Replaced(blocks: seq<Range>, blocks': seq<Range>, k: nat) {
    k < |blocks| == |blocks'| && forall i :: 0 <= i < |blocks| && i != k ==> blocks'[i] == blocks[i]
  }

  /** mm_malloc, add_range and memset. */
  method DoAlloc(h: Heap, blocks: seq<Range>, k: nat, size: nat) returns (v: Verdict, blocks': seq<Range>)
    requires h.Valid() && k < |blocks| && !blocks[k].Range? && 0 < size <= INT_MAX
    requires Tracked(Live(h.layout), h.mem[..], blocks)
    modifies h`brk, h`layout, h`listed, h.mem
    ensures v in {Passed, MallocFailed} && h.Valid() && old(h.brk) <= h.brk <= old(h.brk) + Demand(Alloc(k, size))
    ensures v == MallocFailed ==> Oversized(Alloc(k, size)) || old(h.brk) + Demand(Alloc(k, size)) > h.mem.Length
    ensures v == Passed ==> Replaced(blocks, blocks', k) && blocks'[k].Range? && Tracked(Live(h.layout), h.mem[..], blocks')
  {
    hide Tiling, Tags, Links, Coalesced, Aligned, FreeLists, Live, PayloadsKept, Intact, Heap.SoundFor, HandedOut, MallocResult, Served, Heap.Promise, Tracked, RequestWords;
    ghost var w, m, brk := h.mem[..], h.layout, h.brk;
    IntsServed(m, brk, h.mem.Length, size);
    h.SoundTiling(0);
    Untrack(Live(m), w, blocks, k);
    blocks' := blocks;
    var p, fault := h.Malloc(size);
    MallocBreak(m, brk, h.mem.Length, size, p, h.layout, h.brk);
    if p == 0 {
      return MallocFailed, blocks;
    }
    HandedOutPasses(m, h.layout, h.End(), w, p, size, blocks, k);
    HandedOutLive(m, h.layout, h.End(), p, size);
    h.SoundTiling(0);
    v := AddRange(h, blocks, p, size);
    TrackedKept(Live(m), Live(m), Live(h.layout), w, h.mem[..], blocks, k);
    blocks' := FillBlock(h, blocks, k, p, size);
  }

  /** remove_range and mm_free. */
  method DoFree(h: Heap, blocks: seq<Range>, k: nat) returns (blocks': seq<Range>)
    requires h.Valid() && k < |blocks| && blocks[k].Range?
    requires Tracked(Live(h.layout), h.mem[..], blocks)
    modifies h`layout, h`listed, h.mem
    ensures h.Valid() && Replaced(blocks, blocks', k) && blocks'[k] == Nothing
    ensures Tracked(Live(h.layout), h.mem[..], blocks')
  {
    hide Tiling, Tags, Links, Coalesced, Aligned, FreeLists, Live, PayloadsKept, Heap.SoundFor, Kept;
    ghost var w, m, live := h.mem[..], h.layout, Live(h.layout);
    var p := blocks[k].lo;
    assert Intact(live, w, blocks[k], k % 256);
    Untrack(live, w, blocks, k);
    LiveInLayout(m);
    h.Free(p);
    FreedPayload(m, p - 3, w, h.mem[..]);
    TrackedKept(live, live - {p - 3}, Live(h.layout), w, h.mem[..], blocks, k);
    blocks' := blocks[k := Nothing];
  }

  /** The loop that compares the new block with the old fill byte. */
  method SameData(h: Heap, p: nat, n: nat, c: nat) returns (same: bool)
    requires p + (n + 7) / 8 <= h.mem.Length
    ensures same <==> forall j: nat :: j < n ==> ByteAt(h.mem[..], p, j) == c
  {
    for j := 0 to n
      invariant forall i: nat :: i < j ==> ByteAt(h.mem[..], p, i) == c
    {
      assert WordByte(h.mem[p + j / 8], j % 8) == ByteAt(h.mem[..], p, j);
      if WordByte(h.mem[p + j / 8], j % 8) != c {
        return false;
      }
    }
    return true;
  }

  /** What Moved says about the block that was moved and about the others. */
  lemma MovedFacts(m: Layout, brk: nat, w: seq<nat>, blocks: seq<Range>, k: nat, size: nat, r: nat, m': Layout, brk': nat, w': seq<nat>)
    requires k < |blocks| && blocks[k].Range? && Tracked(Live(m), w, blocks) && 0 < size
    requires blocks[k].lo >= 3 && blocks[k].lo - 3 in m && m[blocks[k].lo - 3].alloc && brk' > 0
    requires r != 0 && Moved(m, brk, w, blocks[k].lo, size, r, m', brk', w')
    ensures r >= 3 && r - 3 in Live(m') && size + 24 <= 8 * Live(m')[r - 3]
    ensures r % 2 == 0 && 8 * r + size <= 8 * brk' && r + (size + 7) / 8 <= |w'|
    ensures forall i :: 0 <= i < |blocks| && i != k ==> !Overlaps(8 * r, 8 * r + size - 1, blocks[i])
    ensures forall i :: 0 <= i < |blocks| && i != k && blocks[i].Range? ==> blocks[i].lo != r
    ensures TrackedBut(Live(m'), w', blocks, k)
    ensures forall j: nat :: j < size && j < blocks[k].size ==> ByteAt(w', r, j) == k % 256
  {
    hide Live, PayloadsKept, HandedOut, Intact, Tracked, TrackedBut;
    var a := blocks[k].lo - 3;
    var rest := m[a := Block(m[a].size, false)];
    MarkFreeLive(m, a);
    Untrack(Live(m), w, blocks, k);
    SamePayloads(Live(rest), w, w', blocks, k);
    TrackedKept(Live(m), Live(rest), Live(rest), w, w, blocks, k);
    HandedOutPasses(rest, m', brk' - 1, w, r, size, blocks, k);
    HandedOutLive(rest, m', brk' - 1, r, size);
    TrackedKept(Live(rest), Live(rest), Live(m'), w, w', blocks, k);
    MovedBytes(m, w, blocks, k, size, r, w');
  }

  lemma SamePayloads(live: map<nat, nat>, w: seq<nat>, w': seq<nat>, blocks: seq<Range>, k: nat)
    requires PayloadsKept(live, w, w')
    ensures PayloadsKept(live, w, w)
  {
  }

  lemma MovedBytes(m: Layout, w: seq<nat>, blocks: seq<Range>, k: nat, size: nat, r: nat, w': seq<nat>)
    requires k < |blocks| && blocks[k].Range? && Tracked(Live(m), w, blocks)
    requires blocks[k].lo >= 3 && blocks[k].lo - 3 in m && m[blocks[k].lo - 3].alloc && m[blocks[k].lo - 3].size >= 3
    requires blocks[k].lo + m[blocks[k].lo - 3].size - 3 <= |w| && r + (size + 7) / 8 <= |w'|
    requires forall j: nat :: j < 8 * (m[blocks[k].lo - 3].size - 3) && j < size ==> ByteAt(w', r, j) == ByteAt(w, blocks[k].lo, j)
    ensures forall j: nat :: j < size && j < blocks[k].size ==> ByteAt(w', r, j) == k % 256
  {
    assert Intact(Live(m), w, blocks[k], k % 256);
  }

  lemma MovedBreak(m: Layout, brk: nat, w: seq<nat>, ptr: nat, size: nat, r: nat, m': Layout, brk': nat, w': seq<nat>)
    requires ptr >= 3 && ptr - 3 in m && brk' > 0 && Moved(m, brk, w, ptr, size, r, m', brk', w')
    ensures brk <= brk' <= brk + RequestWords(size)
    ensures r == 0 ==> 8 * RequestWords(size) > INT_MAX || brk + RequestWords(size) > |w|
  {
    hide HasFit, Live, HandedOut, PayloadsKept, Merged;
  }

  /** mm_realloc, remove_range, add_range, the comparison and memset. */
  method DoRealloc(h: Heap, blocks: seq<Range>, k: nat, size: nat) returns (v: Verdict, blocks': seq<Range>)
    requires h.Valid() && k < |blocks| && blocks[k].Range? && 0 < size <= INT_MAX
    requires Tracked(Live(h.layout), h.mem[..], blocks)
    modifies h`brk, h`layout, h`listed, h.mem
    ensures v in {Passed, ReallocFailed} && h.Valid() && old(h.brk) <= h.brk <= old(h.brk) + Demand(Realloc(k, size))
    ensures v == ReallocFailed ==> Oversized(Realloc(k, size)) || old(h.brk) + Demand(Realloc(k, size)) > h.mem.Length
    ensures v == Passed ==> Replaced(blocks, blocks', k) && blocks'[k].Range? && Tracked(Live(h.layout), h.mem[..], blocks')
  {
    hide Tiling, Tags, Links, Coalesced, Aligned, FreeLists, Live, PayloadsKept, Intact, Heap.SoundFor, HandedOut, MallocResult, ServedAgain, Heap.Promise, Tracked, Moved, RequestWords;
    ghost var w, m, brk := h.mem[..], h.layout, h.brk;
    IntsServed(m, brk, h.mem.Length, size);
    var oldp := blocks[k].lo;
    TrackedLive(m, w, blocks, k);
    var newp, fault := h.Realloc(oldp, size);
    MovedBreak(m, brk, w, oldp, size, newp, h.layout, h.brk, h.mem[..]);
    if newp == 0 {
      return ReallocFailed, blocks;
    }
    h.SoundTiling(0);
    MovedFacts(m, brk, w, blocks, k, size, newp, h.layout, h.brk, h.mem[..]);
    v := AddRange(h, blocks[k := Nothing], newp, size);
    var oldsize := blocks[k].size;
    if size < oldsize {
      oldsize := size;
    }
    var same := SameData(h, newp, oldsize, k % 256);
    if !same {
      return DataLost, blocks;
    }
    blocks' := FillBlock(h, blocks, k, newp, size);
  }

  lemma TrackedLive(m: Layout, w: seq<nat>, blocks: seq<Range>, k: nat)
    requires k < |blocks| && blocks[k].Range? && Tracked(Live(m), w, blocks)
    ensures blocks[k].lo >= 3 && blocks[k].lo - 3 in Live(m) && blocks[k].lo - 3 in m && m[blocks[k].lo - 3].alloc
  {
    assert Intact(Live(m), w, blocks[k], k % 256);
  }

  // --------------------------------------------------------- eval_mm_valid

  function LiveBlocks(blocks: seq<Range>): (live: seq<bool>)
    ensures |live| == |blocks| && forall i :: 0 <= i < |live| ==> live[i] == blocks[i].Range?
  {
    seq(|blocks|, i requires 0 <= i < |blocks| => blocks[i].Range?)
  }

  /** On any well-formed trace over `ids` blocks the test finds nothing wrong.
      It stops early only at a request for which memory does not suffice, the
      `at`-th; a capacity that covers the demand of the whole trace always does. */
  method EvalMmValid(h: Heap, ops: seq<Op>, ids: nat) returns (v: Verdict, at: nat)
    requires WellFormed(ops, seq(ids, _ => false))
    requires h.mem != h.segMax && h.segMax.Length == SEG_NUM - 1 && h.mem.Length <= MAX_WORDS
    modifies h, h.mem, h.segMax
    ensures v in {Passed, InitFailed, MallocFailed, ReallocFailed}
    ensures v == InitFailed <==> h.mem.Length <= FIRST
    ensures v in {MallocFailed, ReallocFailed} ==>
      at < |ops| && (v == MallocFailed <==> ops[at].Alloc?) && (Oversized(ops[at]) || h.brk + Demand(ops[at]) > h.mem.Length)
    ensures FIRST + 1 + TotalDemand(ops) <= h.mem.Length && (forall i :: 0 <= i < |ops| ==> !Oversized(ops[i])) ==> v == Passed
  {
    hide Tiling, Tags, Links, Coalesced, Aligned, FreeLists, Live, Intact, Heap.SoundFor, Tracked, Oversized, Demand;
    at := 0;
    h.ResetBrk();
    var ok := h.Init();
    if !ok {
      return InitFailed, 0;
    }
    var blocks: seq<Range> := seq(ids, _ => Nothing);
    NothingTracked(Live(h.layout), h.mem[..], blocks);
    assert LiveBlocks(blocks) == seq(ids, _ => false);
    v := Passed;
    while at < |ops|
      invariant at <= |ops| && h.Valid() && WellFormed(ops[at..], LiveBlocks(blocks))
      invariant Tracked(Live(h.layout), h.mem[..], blocks) && v == Passed
      invariant h.brk + TotalDemand(ops[at..]) <= FIRST + 1 + TotalDemand(ops)
    {
      ghost var live := LiveBlocks(blocks);
      assert ops[at..][1..] == ops[at + 1..];
      match ops[at] {
        case Alloc(k, size) =>
          v, blocks := DoAlloc(h, blocks, k, size);
          assert v == Passed ==> LiveBlocks(blocks) == live[k := true];
        case Free(k) =>
          blocks := DoFree(h, blocks, k);
          assert LiveBlocks(blocks) == live[k := false];
        case Realloc(k, size) =>
          v, blocks := DoRealloc(h, blocks, k, size);
          assert v == Passed ==> LiveBlocks(blocks) == live;
      }
      if v != Passed {
        return;
      }
      at := at + 1;
    }
  }

  lemma NothingTracked(live: map<nat, nat>, w: seq<nat>, blocks: seq<Range>)
    requires forall i :: 0 <= i < |blocks| ==> blocks[i] == Nothing
    ensures Tracked(live, w, blocks)
  {
  }
}
