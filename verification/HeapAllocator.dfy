/**
 The allocator of Lab6_malloclab/mm.c over the heap extent of memlib.c.
 Memory is one array of words that every operation overwrites in place.
 */
module HeapAllocator {
  import opened HeapWords
  import opened HeapLayout
  import opened HeapCanonical

  class Heap {
    /** The simulated memory from mem_start_brk to mem_max_addr. */
    const mem: array<nat>
    /** mem_brk, in words above mem_start_brk. */
    var brk: nat
    const segMax: array<nat>

    /** What memory stands for: the blocks, and those that are in a list. */
    ghost var layout: Layout
    ghost var listed: Listed

    ghost function End(): nat
      reads this
    {
      if brk == 0 then 0 else brk - 1
    }

    /** With memory w, tags and links would be sound; `hole` may have stale tags. */
    ghost predicate SoundFor(w: seq<nat>, hole: nat)
      reads this, segMax
    {
      && mem != segMax && segMax.Length == SEG_NUM - 1
      && (forall i :: 0 <= i < SEG_NUM - 1 ==> segMax[i] == SegMax(i))
      && FIRST < brk <= |w| == mem.Length <= MAX_WORDS
      && Tiling(layout, End())
      && Tags(w, layout, End(), hole)
      && Links(w, listed) && listed.Keys <= layout.Keys
    }

    ghost predicate Sound(hole: nat)
      reads this, mem, segMax
    {
      SoundFor(mem[..], hole)
    }

    /** The invariant between calls. */
    ghost predicate Valid()
      reads this, mem, segMax
    {
      Sound(0) && End() % 2 == 1 && Aligned(layout) && Coalesced(layout) && listed == FreeLists(layout)
    }

    /** What the stores of the allocator need, whatever the sizes are. */
    ghost predicate Loose()
      reads this, mem, segMax
    {
      && mem != segMax && segMax.Length == SEG_NUM - 1
      && (forall i :: 0 <= i < SEG_NUM - 1 ==> segMax[i] == SegMax(i))
      && FIRST < brk <= mem.Length <= MAX_WORDS
      && Links(mem[..], listed) && (forall a :: a in listed ==> a + 4 <= End())
    }

    lemma SoundLoose(hole: nat)
      requires Sound(hole)
      ensures Loose()
    {
      forall a | a in listed
        ensures a + 4 <= End()
      {
        BlockRange(layout, End(), a);
      }
    }

    /** Memory describes these blocks. */
    ghost predicate Describes(m: Layout)
      reads this, mem
    {
      Tiling(m, End()) && Tags(mem[..], m, End(), 0)
    }

    /** mem_init */
    constructor (capacity: nat)
      requires capacity <= MAX_WORDS
      ensures fresh(mem) && fresh(segMax) && mem.Length == capacity && brk == 0
      ensures mem != segMax && segMax.Length == SEG_NUM - 1
    {
      mem := new nat[capacity];
      segMax := new nat[SEG_NUM - 1];
      brk := 0;
      layout := map[];
      listed := map[];
    }

    /** mem_reset_brk */
    method ResetBrk()
      modifies this`brk
      ensures brk == 0
    {
      brk := 0;
    }

    /** mem_sbrk: `incr` is in bytes. */
    method Sbrk(incr: int) returns (old_brk: int)
      requires incr % WSIZE == 0
      modifies this`brk
      ensures old_brk == -1 <==> incr < 0 || WSIZE * old(brk) + incr > WSIZE * mem.Length
      ensures old_brk == -1 ==> brk == old(brk)
      ensures old_brk != -1 ==> old_brk == old(brk) && WSIZE * brk == WSIZE * old(brk) + incr
    {
      if incr < 0 || WSIZE * brk + incr > WSIZE * mem.Length {
        return -1;
      }
      old_brk := brk;
      brk := brk + incr / WSIZE;
    }

    // ------------------------------------------------- tags and lists

    method WriteHeader(block: nat, tag: nat)
      requires block < mem.Length
      modifies mem
      ensures mem[..] == old(mem[..])[block := tag]
    {
      mem[block] := tag;
    }

    method WriteFooter(block: nat, tag: nat)
      requires block < mem.Length && 0 < block + Words(mem[block]) <= mem.Length
      modifies mem
      ensures mem[..] == old(mem[..])[block + Words(old(mem[block])) - 1 := tag]
    {
      mem[block + Words(mem[block]) - 1] := tag;
    }

    method WriteNextHf(block: nat, prevAlloc: bool)
      requires block < mem.Length
      requires var x := block + Words(mem[block]);
        x < mem.Length && (!Alloc(mem[x]) ==> 0 < Words(mem[x]) && x + Words(mem[x]) <= mem.Length)
      modifies mem
      ensures mem[..] == NextTagged(old(mem[..]), block + Words(old(mem[block])), prevAlloc)
    {
      var x := block + Words(mem[block]);
      var tag := Pack(Words(mem[x]), prevAlloc, Alloc(mem[x]));
      WriteHeader(x, tag);
      if !Alloc(mem[x]) {
        WriteFooter(x, Pack(Words(mem[x]), prevAlloc, Alloc(mem[x])));
      }
    }

    /** Takes a free block out of its list. */
    method Unlink(block: nat, ghost hole: nat)
      requires Sound(hole) && block in listed
      modifies mem, this`listed
      ensures Sound(hole) && listed == old(listed) - {block}
      ensures old(mem[block + 1]) + 2 < mem.Length && old(mem[block + 2]) + 1 < mem.Length
      ensures mem[..] == Unlinked(old(mem[..]), block)
      ensures Kept(layout, old(mem[..]), mem[..])
    {
      hide Tiling, Tags, Links, Kept;
      ghost var w := mem[..];
      UnlinkBounds(w, listed, block);
      var pred := mem[block + 1];
      var succ := mem[block + 2];
      mem[pred + 2] := succ;
      if succ != 0 {
        mem[succ + 1] := pred;
      }
      assert mem[..] == Unlinked(w, block);
      UnlinkKeepsLinks(w, listed, block);
      UnlinkKeepsRest(w, layout, End(), hole, listed, block);
      listed := listed - {block};
    }
  
    /** choose_list */
    method ChooseList(words: nat) returns (c: nat)
      requires segMax.Length == SEG_NUM - 1
      requires forall i :: 0 <= i < SEG_NUM - 1 ==> segMax[i] == SegMax(i)
      ensures c == ClassOf(words)
    {
      for i := 0 to SEG_NUM - 1
        invariant ClassOf(words) == ClassFrom(words, i)
      {
        if words <= segMax[i] {
          return i;
        }
      }
      return SEG_NUM - 1;
    }

    /** The walk of place_free_block to the last node below `block`. */
    method FindPlace(block: nat, c: nat) returns (pred: nat, rover: nat)
      requires Links(mem[..], listed) && c < SEG_NUM && FIRST <= block && block !in listed
      ensures IsNode(listed, pred) && ListOf(listed, pred) == c && pred < block
      ensures pred + 2 < mem.Length && rover == mem[pred + 2] && (rover == 0 || block < rover)
    {
      pred := 1 + c * ROOT_WORDS;
      assert SuccOk(mem[..], listed, pred);
      rover := mem[pred + 2];
      while rover != 0
        invariant IsNode(listed, pred) && ListOf(listed, pred) == c && pred < block
        invariant pred + 2 < mem.Length && rover == mem[pred + 2]
        invariant rover == 0 || Before(listed, pred, rover)
        decreases if rover == 0 then 0 else mem.Length - rover
      {
        if rover > block {
          break;
        }
        pred := rover;
        assert SuccOk(mem[..], listed, pred);
        rover := mem[rover + 2];
      }
    }

    /** The stores of place_free_block. */
    method Splice(pred: nat, block: nat, rover: nat)
      requires pred + 2 < mem.Length && block + 2 < mem.Length && rover + 1 < mem.Length
      requires rover == mem[pred + 2] && (rover != 0 ==> mem[rover + 1] == pred)
      requires pred + 4 <= block && (rover != 0 ==> block + 4 <= rover)
      modifies mem
      ensures mem[..] == Inserted(old(mem[..]), pred, block)
    {
      if rover != 0 {
        mem[mem[rover + 1] + 2] := block;
        mem[block + 1] := mem[rover + 1];
        mem[rover + 1] := block;
        mem[block + 2] := rover;
      } else {
        mem[pred + 2] := block;
        mem[block + 1] := pred;
        mem[block + 2] := 0;
      }
    }

    /** A free block that is in no list, in a sound heap. */
    ghost predicate Settled(block: nat)
      reads this, mem, segMax
    {
      Sound(0) && block in layout && !layout[block].alloc && block !in listed
    }

    lemma SettledSpot(block: nat)
      requires Settled(block)
      ensures Loose() && Spot(listed, mem.Length, block) && Words(mem[block]) == layout[block].size
    {
      SoundLoose(0);
      BlockTag(mem[..], layout, End(), 0, block);
      SpotOf(layout, End(), listed, mem.Length, block);
    }

    /** place_free_block: puts a free block at its place in address order. */
    method PlaceFreeBlock(block: nat)
      requires Settled(block) || (Loose() && Spot(listed, mem.Length, block))
      modifies mem, this`listed
      ensures old(Settled(block)) ==> Sound(0) && listed == old(listed)[block := ClassOf(layout[block].size)]
      ensures old(Settled(block)) ==> Kept(layout, old(mem[..]), mem[..])
    {
      hide Tiling, Tags, Links, Kept, IsNode, ListOf, Inserted, ClassOf, SegMax, Spot;
      ghost var w, settled := mem[..], Settled(block);
      if settled {
        SettledSpot(block);
      }
      SpotInMemory(block);
      var c := ChooseList(Words(mem[block]));
      var pred, rover := FindPlace(block, c);
      SpliceFits(w, listed, pred, block);
      if settled {
        InsertSound(w, layout, End(), listed, pred, block, c);
      }
      Splice(pred, block, rover);
      listed := listed[block := c];
    }

    lemma SpotInMemory(block: nat)
      requires Spot(listed, mem.Length, block)
      ensures FIRST <= block && block + 2 < mem.Length && block !in listed
    {
    }

    // -------------------------------------------------- free and coalesce

    /** Header, footer and the tag above, as mm_free, coallesce and
        allocate_block write them. */
    method Retag(block: nat, size: nat, alloc: bool)
      requires Sound(block) && block in layout && size == layout[block].size
      modifies mem, this`layout
      ensures Sound(0) && layout == old(layout)[block := Block(size, alloc)]
      ensures Kept(layout, old(mem[..]), mem[..])
    {
      hide Tiling, Tags, Links, Kept, RetagFits;
      ghost var w := mem[..];
      BlockTag(w, layout, End(), block, block);
      NextTag(w, layout, End(), block);
      RetagKeepsTags(w, layout, End(), block, alloc);
      RetagKeepsPayload(w, layout, End(), block, alloc);
      RetagKeepsLinks(w, layout, End(), block, alloc, listed);
      RetagTiling(layout, End(), block, alloc);
      WriteTags(block, size, alloc);
      layout := layout[block := Block(size, alloc)];
    }

    method WriteTags(block: nat, size: nat, alloc: bool)
      requires RetagFits(mem[..], block, size)
      modifies mem
      ensures mem[..] == Retagged(old(mem[..]), block, size, alloc)
    {
      var tag := Pack(size, PrevAlloc(mem[block]), alloc);
      WriteHeader(block, tag);
      if !alloc {
        WriteFooter(block, tag);
      }
      WriteNextHf(block, alloc);
    }

    /** First half of coallesce: a free block below joins `block`. */
    method JoinBelow(block: nat) returns (r: nat, size: nat)
      requires Sound(0) && block in layout && !layout[block].alloc
      requires listed == FreeLists(layout) - {block} && CoalescedBut(layout, block)
      modifies mem, this`layout, this`listed
      ensures Sound(r) && r in layout && layout[r] == Block(size, false)
      ensures listed == FreeLists(layout) - {r} && CoalescedBut(layout, r) && AllocBelow(layout, r)
      ensures Live(layout) == old(Live(layout)) && (old(Aligned(layout)) ==> Aligned(layout))
      ensures Kept(old(layout), old(mem[..]), mem[..]) && Finer(old(layout), layout)
    {
      hide Tiling, Tags, Links, CoalescedBut, AllocBelow, Aligned, FreeLists, Live, Merge, Finer, Unlinked, Kept;
      ghost var w := mem[..];
      BlockTag(w, layout, End(), 0, block);
      size := Words(mem[block]);
      r := block;
      if !PrevAlloc(mem[block]) {
        ghost var p := FreeBelow(w, layout, End(), block);
        var prevSize := Words(mem[block - 1]);
        size := size + prevSize;
        var prev := block - prevSize;
        InFreeLists(layout, prev);
        Unlink(prev, 0);
        MergeSound(mem[..], layout, End(), 0, listed, prev, block);
        layout := Merge(layout, prev);
        r := prev;
      } else {
        PrevBitTruth(w, layout, End(), 0, block);
        NoBlockAtZero(layout, End());
        TagsHole(w, layout, End(), block);
        FinerRefl(layout);
        KeptRefl(layout, w, End());
      }
    }

    /** Second half of coallesce: a free block above joins `block`. */
    method JoinAbove(block: nat, size: nat) returns (total: nat)
      requires Sound(block) && block in layout && layout[block] == Block(size, false)
      requires listed == FreeLists(layout) - {block} && CoalescedBut(layout, block) && AllocBelow(layout, block)
      modifies mem, this`layout, this`listed
      ensures Sound(block) && block in layout && layout[block] == Block(total, false)
      ensures listed == FreeLists(layout) - {block} && Coalesced(layout)
      ensures Live(layout) == old(Live(layout)) && (old(Aligned(layout)) ==> Aligned(layout))
      ensures Kept(old(layout), old(mem[..]), mem[..]) && Finer(old(layout), layout)
    {
      hide Tiling, Tags, Links, CoalescedBut, AllocBelow, Aligned, FreeLists, Live, Merge, Finer, Coalesced, Unlinked, Kept;
      ghost var w := mem[..];
      NextTag(w, layout, End(), block);
      var next := block + size;
      total := size;
      if !Alloc(mem[next]) {
        var nextSize := Words(mem[next]);
        total := total + nextSize;
        InFreeLists(layout, next);
        Unlink(next, block);
        MergeSound(mem[..], layout, End(), block, listed, block, block);
        layout := Merge(layout, block);
      } else {
        FinerRefl(layout);
        KeptRefl(layout, w, End());
      }
      CoalescedAround(layout, block);
    }

    /** coallesce */
    method Coalesce(block: nat) returns (r: nat)
      requires Sound(0) && block in layout && !layout[block].alloc
      requires listed == FreeLists(layout) - {block} && CoalescedBut(layout, block)
      modifies mem, this`layout, this`listed
      ensures Sound(0) && r in layout && !layout[r].alloc
      ensures listed == FreeLists(layout) - {r} && Coalesced(layout)
      ensures Live(layout) == old(Live(layout)) && (old(Aligned(layout)) ==> Aligned(layout))
      ensures Kept(old(layout), old(mem[..]), mem[..]) && Finer(old(layout), layout)
    {
      hide SoundFor, CoalescedBut, AllocBelow, Aligned, ClassOf, Live, FreeLists, Finer, Coalesced, Kept;
      ghost var w0, m0 := mem[..], layout;
      var size;
      r, size := JoinBelow(block);
      ghost var w1, m1 := mem[..], layout;
      size := JoinAbove(r, size);
      ghost var w2, m2 := mem[..], layout;
      FinerTrans(m0, m1, m2);
      FinerKept(m0, m1, w1, w2);
      KeptTrans(m0, w0, w1, w2);
      Retag(r, size, false);
      assert layout == m2;
      FinerKept(m0, m2, w2, mem[..]);
      KeptTrans(m0, w0, w2, mem[..]);
    }

    /** mm_free */
    method Free(ptr: nat)
      requires Valid() && ptr >= 3 && ptr - 3 in Live(layout)
      modifies mem, this`layout, this`listed
      ensures Valid() && Live(layout) == old(Live(layout)) - {ptr - 3}
      ensures Kept(old(layout)[ptr - 3 := Block(old(layout)[ptr - 3].size, false)], old(mem[..]), mem[..])
    {
      hide SoundFor, Aligned, ClassOf, Finer, Coalesced, Kept, CoalescedBut;
      var block := ptr - 3;
      ghost var w0, m0 := mem[..], layout;
      MarkFree(m0, block);
      BlockSize(block);
      Retag(block, Words(mem[block]), false);
      ghost var w1, m1 := mem[..], layout;
      block := Coalesce(block);
      ghost var w2, m2 := mem[..], layout;
      KeptTrans(m1, w0, w1, w2);
      PlaceFreeBlock(block);
      FinerKept(m1, m2, w2, mem[..]);
      KeptTrans(m1, w0, w2, mem[..]);
    }

    lemma BlockSize(block: nat)
      requires Sound(0) && block in layout
      ensures block < mem.Length && mem[block] == Pack(layout[block].size, PrevAlloc(mem[block]), layout[block].alloc)
      ensures Sound(block)
    {
      BlockTag(mem[..], layout, End(), 0, block);
      NoBlockAtZero(layout, End());
      TagsHole(mem[..], layout, End(), block);
    }
  
    // ------------------------------------------------- allocate and extend

    /** A free block whose header is intact, though its footer may not be. */
    ghost predicate InHand(block: nat)
      reads this, mem
    {
      && block in layout && !layout[block].alloc && block < mem.Length
      && mem[block] == Pack(layout[block].size, PrevAlloc(mem[block]), false)
    }
  
    /** split: keeps `words` of the block and frees the rest, when the rest is
        more than the 32 bytes of an empty block and its footer. */
    method Split(block: nat, words: nat) returns (done: bool)
      requires Sound(block) && InHand(block) && words <= layout[block].size
      requires listed == FreeLists(layout) && Coalesced(layout)
      modifies mem, this`layout, this`listed
      ensures done <==> old(layout)[block].size - words > 4
      ensures !done ==> layout == old(layout) && listed == old(listed) && mem[..] == old(mem[..]) && Sound(block)
      ensures done && 4 <= words ==> layout == Cut(old(layout), block, words) && Sound(0)
      ensures done && 4 <= words ==> listed == FreeLists(layout) && Kept(layout, old(mem[..]), mem[..])
    {
      hide Tiling, Tags, Links, Coalesced, FreeLists, Live, Finer, Kept, Unlinked, ClassOf, Cut;
      ghost var w0, m := mem[..], layout;
      BlockTag(w0, m, End(), block, block);
      var sizeLeft := Words(mem[block]) - words;
      if sizeLeft <= 4 {
        return false;
      }
      HoleWrite(w0, m, End(), block, listed, words);
      WriteHeader(block, Pack(words, PrevAlloc(mem[block]), true));
      ghost var w1 := mem[..];
      InFreeLists(m, block);
      UnlinkKeepsHeader(w1, listed, block);
      Unlink(block, block);
      ghost var w2 := mem[..];
      KeptTrans(m, w0, w1, w2);
      LeaveRest(block, words, sizeLeft);
      if 4 <= words {
        CutKept(m, End(), block, words, w0, w2);
        KeptTrans(layout, w0, w2, mem[..]);
      }
      done := true;
    }

    /** The second half of split: the remainder becomes a free block. */
    method LeaveRest(block: nat, words: nat, sizeLeft: nat)
      requires Sound(block) && block in layout && !layout[block].alloc && listed == FreeLists(layout) - {block}
      requires block < mem.Length && mem[block] == Pack(words, PrevAlloc(mem[block]), true)
      requires words + sizeLeft == layout[block].size && sizeLeft > 4
      modifies mem, this`layout, this`listed
      ensures 4 <= words ==> layout == Cut(old(layout), block, words) && Sound(0)
      ensures 4 <= words ==> listed == FreeLists(layout) && Kept(layout, old(mem[..]), mem[..])
    {
      hide Tiling, Tags, Links, FreeLists, Live, Finer, Kept, ClassOf, Cut, SegMax;
      ghost var w, m, end := mem[..], layout, End();
      var left := block + words;
      BlockTag(w, m, end, block, block);
      SoundLoose(block);
      if 4 <= words {
        CutWords(m, end, block, words, w, listed);
      }
      WriteHeader(left, Pack(sizeLeft, true, false));
      WriteFooter(left, Pack(sizeLeft, true, false));
      ghost var w1 := mem[..];
      assert w1 == CutTagged(w, left, sizeLeft);
      if 4 <= words {
        layout := Cut(m, block, words);
        CutHasRest(m, block, words);
        assert Settled(left);
      } else {
        InnerWrites(w, w1, m, end, block, listed);
        SpotWithin(m, end, listed, mem.Length, block, left);
      }
      PlaceFreeBlock(left);
      if 4 <= words {
        KeptTrans(layout, w, w1, mem[..]);
      }
    }

    /** allocate_block; the size in bytes is that of `words` words in 64 bits. */
    method AllocateBlock(rover: nat, words: nat)
      requires Sound(rover) && InHand(rover) && words % TWO61 <= layout[rover].size
      requires listed == FreeLists(layout) && Coalesced(layout)
      modifies mem, this`layout, this`listed
      ensures 4 <= words < TWO61 ==> Sound(0) && layout == Placed(old(layout), rover, words) && listed == FreeLists(layout)
      ensures 4 <= words < TWO61 ==> Kept(layout, old(mem[..]), mem[..])
    {
      hide SoundFor, Coalesced, FreeLists, Live, Finer, Kept, Unlinked, Cut;
      ghost var w0, m := mem[..], layout;
      var done := Split(rover, words % TWO61);
      if done {
        return;
      }
      Retag(rover, Words(mem[rover]), true);
      ghost var w1 := mem[..];
      InFreeLists(m, rover);
      TakeLists(m, rover);
      Unlink(rover, 0);
      KeptTrans(layout, w0, w1, mem[..]);
    }

    lemma ToInt32Words(words: nat)
      ensures ToInt32(words * WSIZE) == ToInt32(8 * words) && ToInt32(8 * words) % WSIZE == 0
    {
    }

    /** mm_extend_heap; 0 stands for NULL.  A fault is a store outside the heap. */
    method ExtendHeap(words: nat, alloc: bool) returns (r: nat, fault: bool)
      requires Loose() && words % 2 == 0 && words <= TWO61
      modifies mem, this`brk, this`layout
      ensures FIRST < brk <= mem.Length && (r == 0 <==> Refused(words, old(brk), mem.Length))
      ensures r == 0 ==> !fault && brk == old(brk) && layout == old(layout) && mem[..] == old(mem[..]) && (old(Sound(0)) ==> Sound(0))
      ensures r != 0 ==> r == old(End())
      ensures fault <==> !Grows(words, old(brk), mem.Length) && words < TWO61
      ensures fault && old(Sound(0)) ==> Heapless(mem[..], End())
      ensures r != 0 && !fault ==> brk == old(brk) + words % TWO61 && (alloc || words % TWO61 > 0 ==> Loose())
      ensures words == 2 && r != 0 ==> Words(mem[r]) == 2 && SameWords(old(mem[..]), mem[..], 0, r)
      ensures r != 0 && !fault && 4 <= words < TWO61 && old(Sound(0)) ==> Extension(old(layout), old(mem[..]), r, words, alloc)
    {
      hide Tiling, Tags, Links, Kept, AllocBelow, SameWords, SegMax, ToInt32, Extended, Extension, Grows, Heapless;
      ghost var w, m, end, sound := mem[..], layout, End(), Sound(0);
      ToInt32Words(words);
      GrowsExactly(words, brk, mem.Length);
      var old_brk := Sbrk(ToInt32(words * WSIZE));
      if old_brk == -1 {
        return 0, false;
      }
      Increment(words, old_brk, mem.Length);
      r := old_brk - 1;
      var size := words % TWO61;
      fault := r + size >= brk;
      if fault {
        WriteHeader(r, Pack(size, PrevAlloc(mem[r]), alloc));
        if sound {
          Truncated(w, m, end, mem[..], End(), size);
        }
      } else {
        Append(r, size, alloc);
      }
    }

    /** The tags below `end` describe the layout, whatever the break is now. */
    ghost predicate SoundBelow(end: nat)
      reads this, mem
    {
      Tiling(layout, end) && Tags(mem[..], layout, end, 0) && listed.Keys <= layout.Keys
    }

    /** mm_extend_heap once the break has been moved. */
    method Append(r: nat, size: nat, alloc: bool)
      requires mem != segMax && segMax.Length == SEG_NUM - 1 && mem.Length <= MAX_WORDS && brk <= mem.Length
      requires forall i :: 0 <= i < SEG_NUM - 1 ==> segMax[i] == SegMax(i)
      requires Links(mem[..], listed) && (forall a :: a in listed ==> a + 4 <= r)
      requires FIRST <= r && r + size + 1 == brk && size % 2 == 0
      modifies mem, this`layout
      ensures alloc || size > 0 ==> Loose()
      ensures size == 2 ==> Words(mem[r]) == 2 && SameWords(old(mem[..]), mem[..], 0, r)
      ensures 4 <= size && old(SoundBelow(r)) ==> Extension(old(layout), old(mem[..]), r, size, alloc)
      ensures !(4 <= size && old(SoundBelow(r))) ==> layout == old(layout)
    {
      hide Tiling, Tags, Links, Kept, AllocBelow, SegMax, Extended;
      ghost var w, m, sound := mem[..], layout, SoundBelow(r);
      if sound && 4 <= size {
        ExtendSound(w, m, r, size, alloc, listed);
      }
      WriteEnd(r, size, alloc);
      if alloc || size > 0 {
        OuterWrites(w, mem[..], listed, r);
      }
      if sound && 4 <= size {
        layout := m[r := Block(size, alloc)];
      }
    }

    /** The block is where the epilogue was, and the heap is as sound as before. */
    ghost predicate Extension(m: Layout, w: seq<nat>, r: nat, words: nat, alloc: bool)
      reads this, mem, segMax
    {
      && r !in m && layout == m[r := Block(words, alloc)]
      && Sound(0) && (alloc ==> AllocBelow(layout, End()))
      && Kept(m, w, mem[..]) && SameWords(w, mem[..], 0, r)
    }

    /** The stores of mm_extend_heap, write_epilogue last. */
    method WriteEnd(block: nat, words: nat, alloc: bool)
      requires words != 1 && 0 < block && block + words < mem.Length
      modifies mem
      ensures 1 < words ==> mem[..] == Extended(old(mem[..]), block, words, alloc) && Words(mem[block]) == words
      ensures words > 0 || alloc ==> OnlyWithin(old(mem[..]), mem[..], block, mem.Length)
    {
      var tag := Pack(words, PrevAlloc(mem[block]), alloc);
      WriteHeader(block, tag);
      if !alloc {
        WriteFooter(block, tag);
      }
      mem[block + Words(mem[block])] := Pack(0, alloc, true);
    }

    /** find_fit; 0 stands for NULL.  Sizes are compared in bytes. */
    method FindFit(words: nat) returns (r: nat)
      requires Sound(0) && listed == FreeLists(layout) && words <= TWO61
      ensures words < TWO61 && r == 0 ==> forall b :: IsFit(layout, words, b) ==> false
      ensures words < TWO61 && r != 0 ==> FirstFit(layout, words, r)
      ensures r != 0 ==> IsFit(layout, words % TWO61, r)
    {
      hide Tiling, Tags, Links, FreeLists, IsNode, ListOf, ClassOf;
      ghost var w := mem[..];
      var list_offset := ChooseList(words);
      FitClass(layout, words);
      for i := list_offset to SEG_NUM
        invariant forall b :: IsFit(layout, words, b) ==> i <= ClassOf(layout[b].size)
      {
        var n := 1 + i * ROOT_WORDS;
        RootOfList(i);
        NextOnList(w, layout, listed, n, i);
        var rover := mem[n + 2];
        while rover != 0
          invariant rover == 0 || (rover < mem.Length && rover in layout && !layout[rover].alloc && ClassOf(layout[rover].size) == i)
          invariant forall b :: IsFit(layout, words, b) && ClassOf(layout[b].size) == i ==> 0 < rover <= b
          decreases if rover == 0 then 0 else mem.Length - rover
        {
          BlockTag(w, layout, End(), 0, rover);
          if WSIZE * Words(mem[rover]) >= WSIZE * words % TWO64 {
            return rover;
          }
          FreeOnList(layout, rover);
          NextOnList(w, layout, listed, rover, i);
          rover := mem[rover + 2];
        }
      }
      return 0;
    }

    lemma RootOfList(i: nat)
      requires Sound(0) && i < SEG_NUM
      ensures IsNode(listed, 1 + i * ROOT_WORDS) && ListOf(listed, 1 + i * ROOT_WORDS) == i
      ensures forall b :: b in layout ==> 1 + i * ROOT_WORDS < b
    {
      RootOnList(listed, mem.Length, i);
    }
  
    // ------------------------------------------------- the public interface

    /** mm_init, on a heap that mem_reset_brk has emptied. */
    method Init() returns (ok: bool)
      requires brk == 0 && mem != segMax && segMax.Length == SEG_NUM - 1 && mem.Length <= MAX_WORDS
      modifies mem, segMax, this`brk, this`layout, this`listed
      ensures ok <==> FIRST < mem.Length
      ensures ok ==> Valid() && layout == map[] && brk == FIRST + 1
      ensures !ok ==> brk == 0 && mem[..] == old(mem[..])
    {
      var p := Sbrk(WSIZE * (ROOT_WORDS * SEG_NUM + 2));
      if p == -1 {
        return false;
      }
      mem[FIRST] := Pack(0, true, true);
      InitRoots();
      InitSegMax();
      layout := map[];
      listed := map[];
      EmptyHeap(mem[..]);
      ok := true;
    }

    /** First loop of mm_init.  The footer of an empty root is the word below it. */
    method InitRoots()
      requires FIRST < mem.Length
      modifies mem
      ensures mem[FIRST] == old(mem[FIRST])
      ensures forall i :: 0 <= i < SEG_NUM ==> mem[ROOT_WORDS * i + 3] == 0
    {
      for i := 0 to SEG_NUM
        invariant mem[FIRST] == old(mem[FIRST])
        invariant forall j :: 0 <= j < i ==> mem[ROOT_WORDS * j + 3] == 0
      {
        var root := 1 + ROOT_WORDS * i;
        WriteHeader(root, Pack(0, true, true));
        ghost var w := mem[..];
        assert mem[root] == Pack(0, true, true);
        WriteFooter(root, Pack(0, true, true));
        assert mem[..] == w[root - 1 := Pack(0, true, true)];
        mem[root + 1] := 0;
        mem[root + 2] := 0;
      }
    }

    /** Second loop of mm_init. */
    method InitSegMax()
      requires segMax.Length == SEG_NUM - 1
      modifies segMax
      ensures forall i :: 0 <= i < SEG_NUM - 1 ==> segMax[i] == SegMax(i)
    {
      var seg_max_i := 4;
      for i := 0 to SEG_NUM - 1
        invariant seg_max_i == SegMax(i)
        invariant forall j :: 0 <= j < i ==> segMax[j] == SegMax(j)
      {
        segMax[i] := seg_max_i;
        seg_max_i := seg_max_i * 2;
      }
    }

    lemma SoundTiling(hole: nat)
      requires Sound(hole)
      ensures mem != segMax && FIRST < brk <= mem.Length <= MAX_WORDS
      ensures Tiling(layout, End()) && Tags(mem[..], layout, End(), hole)
    {
    }

    static lemma NoFit(m: Layout, words: nat)
      ensures (forall b :: IsFit(m, words, b) ==> false) ==> !HasFit(m, words)
    {
    }

    lemma FitInHand(block: nat, words: nat)
      requires Sound(0) && IsFit(layout, words, block)
      ensures Sound(block) && InHand(block) && words <= layout[block].size && HasFit(layout, words)
    {
      BlockSize(block);
    }

    /** The second extension of mm_malloc: a free block above the one granted. */
    method ExtendFree(words: nat) returns (r: nat, fault: bool)
      requires Loose() && words % 2 == 0 && words <= TWO61
      modifies mem, this`brk, this`layout, this`listed
      ensures FIRST < brk <= mem.Length && (r == 0 <==> Refused(words, old(brk), mem.Length))
      ensures r == 0 ==> !fault && brk == old(brk) && layout == old(layout) && listed == old(listed) && mem[..] == old(mem[..])
      ensures r == 0 && old(Valid()) ==> Valid()
      ensures words % TWO61 == 0 ==> r == 0 || fault
      ensures r != 0 && 4 <= words < TWO61 && Grows(words, old(brk), mem.Length) && old(Extendable()) ==>
        && !fault && Valid() && brk == old(brk) + words && r == old(End()) && r !in old(layout)
        && layout == old(layout)[r := Block(words, false)] && Live(layout) == Live(old(layout))
        && Kept(old(layout), old(mem[..]), mem[..])
    {
      hide SoundFor, Kept, Aligned, Coalesced, Live, FreeLists, AllocBelow, ToInt32, Tiling, Finer, Refused, Grows, Links, Extension, Spot, Heap.Valid, Extendable, Settled, SameWords, Heapless, SegMax, AtEnd, Loose;
      ghost var w0, m, f, end, valid, extendable := mem[..], layout, listed, End(), Valid(), Extendable() && 4 <= words < TWO61;
      if valid {
        ValidFacts();
      }
      if extendable {
        ExtendableFacts();
      }
      LooseEnds();
      r, fault := ExtendHeap(words, false);
      if r == 0 || fault {
        if r == 0 && valid {
          ValidFrom();
        }
        return;
      }
      if r + 2 >= brk {
        fault := true;
        return;
      }
      if extendable {
        FreeAtEnd(m, w0, end, words);
      } else {
        SpotAbove(f, mem.Length, r);
      }
      PlaceAtEnd(r, words, m, w0, extendable);
    }

    lemma LooseEnds()
      requires Loose()
      ensures forall a :: a in listed ==> a + 4 <= End()
      ensures FIRST < brk <= mem.Length
    {
    }

    /** A free block at the end of a heap, not yet listed. */
    ghost predicate AtEnd(m: Layout, w: seq<nat>, r: nat, words: nat)
      reads this, mem, segMax
    {
      && Settled(r) && r in layout && layout == m[r := Block(words, false)] && End() % 2 == 1
      && Aligned(layout) && Coalesced(layout) && FreeLists(layout) == listed[r := ClassOf(words)]
      && Kept(m, w, mem[..]) && Finer(m, layout)
    }

    /** The end of mm_malloc's second extension. */
    method PlaceAtEnd(r: nat, words: nat, ghost m: Layout, ghost w: seq<nat>, ghost extendable: bool)
      requires if extendable then AtEnd(m, w, r, words) else Loose() && Spot(listed, mem.Length, r)
      modifies mem, this`listed
      ensures extendable ==> Valid() && Kept(m, w, mem[..])
    {
      hide SoundFor, Kept, Aligned, Coalesced, FreeLists, Tiling, Finer, Links, Spot, Settled, Heap.Valid, ClassOf;
      ghost var w1 := mem[..];
      PlaceFreeBlock(r);
      if extendable {
        FinerKept(m, layout, w1, mem[..]);
        KeptTrans(m, w, w1, mem[..]);
        ValidFrom();
      }
    }

    lemma ValidFacts()
      requires Valid()
      ensures Sound(0) && Aligned(layout) && Coalesced(layout) && End() % 2 == 1 && listed == FreeLists(layout)
    {
    }

    lemma ExtendableFacts()
      requires Extendable()
      ensures Sound(0) && Tiling(layout, End()) && Aligned(layout) && Coalesced(layout) && AllocBelow(layout, End())
      ensures End() % 2 == 1 && listed == FreeLists(layout)
    {
    }

    lemma ValidFrom()
      requires Sound(0) && Aligned(layout) && Coalesced(layout) && End() % 2 == 1 && listed == FreeLists(layout)
      ensures Valid()
    {
    }

    /** The heap after the second extension, the new block not yet listed. */
    lemma FreeAtEnd(m: Layout, w: seq<nat>, end: nat, words: nat)
      requires Extension(m, w, end, words, false) && Tiling(m, end) && Aligned(m) && Coalesced(m) && AllocBelow(m, end)
      requires end % 2 == 1 && words % 2 == 0 && 4 <= words && listed == FreeLists(m) && End() == end + words
      ensures AtEnd(m, w, end, words) && layout == m[end := Block(words, false)] && end !in m && Live(layout) == Live(m)
    {
      hide SoundFor, Kept, Aligned, Coalesced, Live, FreeLists, AllocBelow, Tiling, Finer, Extension;
      ExtensionFacts(m, w, end, words, false);
      ExtendFacts(m, end, words, false);
      InFreeLists(m, end);
      ExtendFiner(m, end, words);
    }

    ghost predicate Extendable()
      reads this, mem, segMax
    {
      Valid() && AllocBelow(layout, End())
    }

    lemma ExtensionFacts(m: Layout, w: seq<nat>, r: nat, words: nat, alloc: bool)
      requires Extension(m, w, r, words, alloc)
      ensures r !in m && layout == m[r := Block(words, alloc)]
      ensures Sound(0) && (alloc ==> AllocBelow(layout, End()))
      ensures Kept(m, w, mem[..]) && SameWords(w, mem[..], 0, r)
    {
    }

    /** After the first extension of mm_malloc. */
    lemma FirstHalf(w: seq<nat>, m: Layout, end: nat, words: nat)
      requires Extension(m, w, end, words, true) && Tiling(m, end) && Aligned(m) && Coalesced(m)
      requires end % 2 == 1 && words % 2 == 0 && 4 <= words && listed == FreeLists(m) && End() == end + words
      ensures Extendable() && layout == m[end := Block(words, true)] && end !in m
      ensures Live(layout) == Live(m)[end := words] && PayloadsKept(Live(m), w, mem[..])
      ensures forall a :: a in Live(m) ==> a in layout && layout[a] == Block(Live(m)[a], true)
    {
      hide SoundFor, Kept, Aligned, Coalesced, Live, FreeLists, AllocBelow, Tiling, PayloadsKept, Extension;
      ExtensionFacts(m, w, end, words, true);
      ExtendFacts(m, end, words, true);
      LiveInLayout(m);
      LivePayloadsKept(m, Live(m), w, mem[..]);
      EndNotLive(m, end);
    }

    /** A block of two words is no block of a heap. */
    lemma TooSmall(w: seq<nat>, m: Layout, end: nat)
      requires Tiling(m, end) && Tags(w, m, end, 0) && SameWords(w, mem[..], 0, end)
      requires end < mem.Length && Words(mem[end]) == 2 && End() == end + 2
      ensures Heapless(mem[..], End())
    {
      hide Tiling, Tags;
      Truncated(w, m, end, mem[..], End(), 2);
    }

    /** mm_malloc when no free block fits. */
    method GrowTwice(words: nat) returns (ptr: nat, fault: bool)
      requires Valid() && words % 2 == 0 && words <= TWO61
      modifies mem, this`brk, this`layout, this`listed
      ensures 4 <= words < TWO61 && Grows(words, old(brk), mem.Length) ==>
        && !fault && Valid() && PayloadsKept(Live(old(layout)), old(mem[..]), mem[..])
        && GrowResult(old(layout), old(brk), mem.Length, words, ptr, layout, brk)
        && (ptr != 0 ==> Live(layout) == Live(old(layout))[old(End()) := words] && old(End()) !in old(layout))
      ensures 4 <= words < TWO61 && !Grows(words, old(brk), mem.Length) ==> fault && Heapless(mem[..], End())
      ensures words == 2 && old(brk) + 2 > mem.Length ==>
        ptr == 0 && !fault && Valid() && layout == old(layout) && brk == old(brk) && mem[..] == old(mem[..])
      ensures words == 2 && old(brk) + 2 <= mem.Length ==> fault || ptr != 0 || Heapless(mem[..], End())
      ensures words % TWO61 == 0 ==> fault
      ensures 0 < brk <= mem.Length
    {
      hide SoundFor, Kept, Aligned, Coalesced, Live, FreeLists, PayloadsKept, AllocBelow, ToInt32, Tiling, Tags, Refused, Grows, Links, Extension, SameWords, Heapless, SegMax;
      SoundTiling(0);
      SoundLoose(0);
      ghost var w0, m, end, brk0 := mem[..], layout, End(), brk;
      GrowsExactly(words, brk, mem.Length);
      if words % TWO61 == 0 {
        NoWordsGranted(words, brk, mem.Length);
      }
      PayloadsKeptRefl(m, end, w0);
      var new_block;
      new_block, fault := ExtendHeap(words, true);
      if fault || new_block == 0 {
        return 0, fault;
      }
      ghost var w1, m1 := mem[..], layout;
      GrowsExactly(words, brk, mem.Length);
      if 4 <= words < TWO61 {
        FirstHalf(w0, m, end, words);
      } else if words == 2 {
        TooSmall(w0, m, end);
      }
      var new_free_block;
      new_free_block, fault := ExtendFree(words);
      if fault || new_free_block == 0 {
        return 0, fault;
      }
      if 4 <= words < TWO61 {
        LivePayloadsKept(m1, Live(m), w1, mem[..]);
        PayloadsKeptTrans(Live(m), w0, w1, mem[..]);
      }
      ptr := new_block + 3;
    }

    /** What mm_malloc and mm_realloc promise: NULL or a block fit for `size`
        bytes, and a heap. */
    ghost predicate Promise(m: Layout, size: nat, ptr: nat, fault: bool)
      reads this, mem
    {
      !fault && exists m' :: Describes(m') && (ptr == 0 || HandedOut(m, m', End(), ptr, size))
    }

    lemma PromiseKept(m: Layout, size: nat, ptr: nat)
      requires Sound(0) && (ptr == 0 || HandedOut(m, layout, End(), ptr, size))
      ensures Promise(m, size, ptr, false)
    {
      assert Describes(layout);
    }

    lemma PromiseBroken(m: Layout, size: nat, ptr: nat, fault: bool)
      requires fault || Heapless(mem[..], End()) || (ptr != 0 && 8 * End() < size)
      ensures !Promise(m, size, ptr, fault)
    {
      hide Tiling, Tags, Live;
    }

    /** When mm_malloc has found a free block. */
    lemma FitJudged(w: seq<nat>, m: Layout, size: nat, rover: nat)
      requires var words := AskedWords(size);
        && size < TWO64 && Tiling(m, End()) && Aligned(m) && Coalesced(m) && End() % 2 == 1 && 0 < brk <= MAX_WORDS
        && IsFit(m, words % TWO61, rover) && (words < TWO61 ==> FirstFit(m, words, rover))
        && (4 <= words < TWO61 ==> Sound(0) && layout == Placed(m, rover, words) && listed == FreeLists(layout) && Kept(layout, w, mem[..]))
      ensures Judged(w, m, brk, size, rover + 3, false)
    {
      hide Tiling, Tags, Links, Kept, Aligned, Coalesced, FreeLists, HandedOut, PayloadsKept, Placed, FirstFit, AskedWords, SoundFor, Promise, RequestWords;
      AskedExactly(size);
      var words := AskedWords(size);
      assert HasFit(m, words % TWO61);
      if Representable(size) {
        AtLeastFour(size);
        SoundTiling(0);
        PlacedHandedOut(w, mem[..], m, End(), rover, size);
        PromiseKept(m, size, rover + 3);
      } else {
        assert IsFit(m, 0, rover);
        PromiseBroken(m, size, rover + 3, false);
      }
    }

    lemma AtLeastFour(size: nat)
      ensures 4 <= RequestWords(size)
    {
    }

    /** The promise is kept exactly where it is served, and then in full. */
    ghost predicate Judged(w: seq<nat>, m: Layout, brk0: nat, size: nat, ptr: nat, fault: bool)
      requires 0 < brk0
      reads this, mem, segMax
    {
      && (Served(m, brk0, mem.Length, size) <==> Promise(m, size, ptr, fault))
      && (Served(m, brk0, mem.Length, size) ==>
        && !fault && Valid() && PayloadsKept(Live(m), w, mem[..])
        && MallocResult(m, brk0, mem.Length, size, ptr, layout, brk)
        && (ptr != 0 ==> HandedOut(m, layout, End(), ptr, size)))
    }

    /** When it has not. */
    lemma GrowthJudged(w: seq<nat>, m: Layout, brk0: nat, size: nat, ptr: nat, fault: bool)
      requires var words, end := AskedWords(size), brk0 - 1;
        && size < TWO64 && 0 < brk0 <= mem.Length && 0 < brk <= mem.Length <= MAX_WORDS && Tiling(m, end)
        && (words < TWO61 ==> !HasFit(m, words))
        && (4 <= words < TWO61 && Grows(words, brk0, mem.Length) ==>
             && !fault && Valid() && PayloadsKept(Live(m), w, mem[..])
             && GrowResult(m, brk0, mem.Length, words, ptr, layout, brk)
             && (ptr != 0 ==> Live(layout) == Live(m)[end := words] && end !in m))
        && (4 <= words < TWO61 && !Grows(words, brk0, mem.Length) ==> fault)
        && (words == 2 && brk0 + 2 > mem.Length ==>
             ptr == 0 && !fault && Valid() && layout == m && brk == brk0 && PayloadsKept(Live(m), w, mem[..]))
        && (words == 2 && brk0 + 2 <= mem.Length ==> fault || ptr != 0 || Heapless(mem[..], End()))
        && (words % TWO61 == 0 ==> fault)
      ensures Judged(w, m, brk0, size, ptr, fault)
    {
      hide Tiling, Tags, Links, Aligned, Coalesced, FreeLists, Live, HandedOut, PayloadsKept, AskedWords, SoundFor, Promise, RequestWords, Heapless, ToInt32, Refused, Grows, HasFit;
      AskedExactly(size);
      AtLeastFour(size);
      var words, end := AskedWords(size), brk0 - 1;
      GrowsExactly(words, brk0, mem.Length);
      if words <= 4 {
        NoFreeBlock(m, end, words);
      }
      if Representable(size) && Grows(words, brk0, mem.Length) {
        if ptr != 0 {
          GrownHandedOut(m, end, words, ptr, size);
        }
        PromiseKept(m, size, ptr);
      } else if ptr == 0 && !fault && ((words == 2 && brk0 + 2 > mem.Length) || words == 4) {
        PromiseKept(m, size, 0);
      } else {
        PromiseBroken(m, size, ptr, fault);
      }
    }

    lemma GrownHandedOut(m: Layout, end: nat, words: nat, ptr: nat, size: nat)
      requires Valid() && end !in m && ptr == end + 3 && end in layout && layout[end] == Block(words, true)
      requires words == RequestWords(size) && Live(layout) == Live(m)[end := words]
      ensures HandedOut(m, layout, End(), ptr, size)
    {
      hide Tags, Links, Coalesced, FreeLists, HandedOut, Aligned, Tiling, Live;
      EndNotLive(m, end);
      HandedOutFacts(m, layout, End(), ptr, size);
    }

    /** mm_malloc; 0 stands for NULL.  A fault is a store outside the heap. */
    method Malloc(size: nat) returns (ptr: nat, fault: bool)
      requires Valid() && size < TWO64
      modifies mem, this`brk, this`layout, this`listed
      ensures Judged(old(mem[..]), old(layout), old(brk), size, ptr, fault)
    {
      hide SoundFor, Tiling, Tags, Kept, Aligned, Coalesced, FreeLists, Live, PayloadsKept, Placed, FirstFit, InHand, Judged, GrowResult, AskedWords, Grows, Heapless, IsFit, HasFit;
      ghost var w0, m, brk0 := mem[..], layout, brk;
      SoundTiling(0);
      PayloadsKeptRefl(m, End(), w0);
      var words := AskedWords(size);
      var rover := FindFit(words);
      if rover != 0 {
        FitInHand(rover, words % TWO61);
        AllocateBlock(rover, words);
        FitJudged(w0, m, size, rover);
        return rover + 3, false;
      }
      NoFit(m, words);
      ptr, fault := GrowTwice(words);
      GrowthJudged(w0, m, brk0, size, ptr, fault);
    }

    /** memmove, which also serves for memcpy. */
    method MemMove(dst: nat, src: nat, len: nat)
      requires dst + (len + 7) / 8 <= mem.Length && src + (len + 7) / 8 <= mem.Length
      modifies mem
      ensures IsCopy(old(mem[..]), mem[..], dst, src, len)
    {
      var q, r := len / 8, len % 8;
      var last := if r > 0 then MergeLow(mem[dst + q], mem[src + q], r) else 0;
      forall k | dst <= k < dst + q {
        mem[k] := mem[src + (k - dst)];
      }
      if r > 0 {
        mem[dst + q] := last;
      }
    }

    /** How mm_realloc fills its result: the bytes at `ptr`, then the saved
        last word of the old payload if the new payload, its size computed in
        64 bits, reaches that far. */
    method MoveData(newpayload: nat, ptr: nat, copySize: nat, words: nat, oldWords: nat, lastword: nat, ghost room: nat)
      requires words <= TWO61 && 0 < oldWords && copySize <= 8 * oldWords && copySize <= 8 * room
      requires newpayload + room <= mem.Length && ptr + oldWords <= mem.Length
      requires (words + TWO61 - 3) % TWO61 >= oldWords ==> oldWords <= room
      modifies mem
      ensures OnlyWithin(old(mem[..]), mem[..], newpayload, newpayload + room)
      ensures newpayload + (copySize + 7) / 8 <= mem.Length
      ensures 3 < words < TWO61 && copySize <= 8 * (words - 3) ==>
        Carried(old(mem[..]), mem[..], ptr, newpayload, copySize, oldWords, lastword)
    {
      ghost var w := mem[..];
      MemMove(newpayload, ptr, copySize);
      ghost var w1 := mem[..];
      forall j: nat | j < copySize
        ensures ByteAt(w1, newpayload, j) == ByteAt(w, ptr, j)
      {
        CopiedByte(w, w1, newpayload, ptr, copySize, j);
      }
      forall k | 0 <= k < mem.Length && (k < newpayload || newpayload + room <= k)
        ensures w1[k] == w[k]
      {
        CopyFrame(w, w1, newpayload, ptr, copySize, k);
      }
      if (words + TWO61 - 3) % TWO61 >= oldWords {
        mem[newpayload + oldWords - 1] := lastword;
      }
    }

    /** mm_realloc when a free block fits: the data is moved into the block
        while it is still listed as free.  A fault is a copy past the block. */
    method FillFit(newblock: nat, ptr: nat, copySize: nat, words: nat, oldWords: nat, lastword: nat, ghost size: nat) returns (fault: bool)
      requires Valid() && words <= TWO61 && IsFit(layout, words % TWO61, newblock)
      requires 0 < oldWords && copySize <= 8 * oldWords && ptr + oldWords <= mem.Length
      requires 3 < words < TWO61 || copySize == 8 * oldWords
      modifies mem, this`layout, this`listed
      ensures words == RequestWords(size) < TWO61 && copySize <= size ==>
        && !fault && Valid() && HandedOut(old(layout), layout, End(), newblock + 3, size)
        && PayloadsKept(Live(old(layout)), old(mem[..]), mem[..])
        && newblock + 3 + (copySize + 7) / 8 <= mem.Length
        && Carried(old(mem[..]), mem[..], ptr, newblock + 3, copySize, oldWords, lastword)
    {
      hide Tiling, Tags, Links, Kept, Aligned, Coalesced, HandedOut, PayloadsKept, Placed, Carried, FreeLists, InHand, SoundFor, Live, OnlyWithin;
      ghost var w1, m := mem[..], layout;
      SoundTiling(0);
      FitInHand(newblock, words % TWO61);
      BlockTag(w1, m, End(), 0, newblock);
      var room := Words(mem[newblock]) - 3;
      fault := 8 * room < copySize;
      if fault {
        AtLeastFour(size);
        return;
      }
      MoveData(newblock + 3, ptr, copySize, words, oldWords, lastword, room);
      ghost var w2 := mem[..];
      FillKeeps(w1, newblock);
      AllocateBlock(newblock, words);
      if words == RequestWords(size) < TWO61 && copySize <= size {
        Filled(w1, w2, m, newblock, ptr, copySize, oldWords, lastword, size);
      }
    }

    lemma Filled(w1: seq<nat>, w2: seq<nat>, m: Layout, b: nat, ptr: nat, copySize: nat, oldWords: nat, lastword: nat, size: nat)
      requires IsFit(m, RequestWords(size), b) && layout == Placed(m, b, RequestWords(size)) && Sound(0) && End() % 2 == 1
      requires Tiling(m, End()) && Aligned(m) && Coalesced(m) && listed == FreeLists(layout) && |w1| == |w2| == mem.Length
      requires Kept(layout, w2, mem[..]) && OnlyWithin(w1, w2, b + 3, Next(m, b)) && copySize <= size
      requires ptr + (copySize + 7) / 8 <= |w1| && b + 3 + (copySize + 7) / 8 <= |w2|
      requires Carried(w1, w2, ptr, b + 3, copySize, oldWords, lastword)
      ensures Valid() && HandedOut(m, layout, End(), b + 3, size) && PayloadsKept(Live(m), w1, mem[..])
      ensures Carried(w1, mem[..], ptr, b + 3, copySize, oldWords, lastword)
    {
      hide Tiling, Tags, Links, Kept, Aligned, Coalesced, HandedOut, PayloadsKept, Placed, Carried, FreeLists, SoundFor, SameWords, OnlyWithin;
      var w3, words := mem[..], RequestWords(size);
      SoundTiling(0);
      PlacedHandedOut(w2, w3, m, End(), b, size);
      PlacedBlock(m, b, words);
      KeptBlock(layout, b, w2, w3);
      SameWordsPart(w2, w3, b + 3, Next(layout, b), b + 3, b + 3 + (copySize + 7) / 8);
      CarriedOn(w1, w2, w3, ptr, b + 3, copySize, oldWords, lastword);
      LiveInLayout(m);
      FillPayloads(w1, w2, m, End(), b, Live(m));
      PayloadsKeptTrans(Live(m), w1, w2, w3);
    }

    /** Filling the payload of a block keeps it in hand. */
    lemma FillKeeps(w: seq<nat>, block: nat)
      requires SoundFor(w, 0)
      requires block in layout && !layout[block].alloc && OnlyWithin(w, mem[..], block + 3, Next(layout, block))
      ensures Sound(block) && InHand(block)
    {
      hide Tiling, Tags, Links;
      BlockTag(w, layout, End(), 0, block);
      NoBlockAtZero(layout, End());
      TagsHole(w, layout, End(), block);
      FillTags(w, mem[..], layout, End(), block);
      FillLinks(w, mem[..], layout, End(), block, listed);
    }

    /** mm_realloc when no free block fits. */
    method FillExtend(ptr: nat, copySize: nat, words: nat, oldWords: nat, lastword: nat, ghost size: nat) returns (r: nat, fault: bool)
      requires Valid() && words % 2 == 0 && words <= TWO61
      requires 0 < oldWords && 0 < copySize <= 8 * oldWords && ptr + oldWords <= End()
      modifies mem, this`brk, this`layout
      ensures 0 < brk <= mem.Length
      ensures 4 <= words < TWO61 && !Grows(words, old(brk), mem.Length) ==> fault
      ensures words % TWO61 == 0 ==> fault
      ensures words == RequestWords(size) < TWO61 && copySize <= size && Grows(words, old(brk), mem.Length) ==>
        && !fault && Valid() && (r == 0 <==> Refused(words, old(brk), mem.Length))
        && (r == 0 ==> layout == old(layout) && brk == old(brk) && mem[..] == old(mem[..]))
        && (r != 0 ==>
          && HandedOut(old(layout), layout, End(), r, size) && brk == old(brk) + words
          && PayloadsKept(Live(old(layout)), old(mem[..]), mem[..])
          && r + (copySize + 7) / 8 <= mem.Length
          && Carried(old(mem[..]), mem[..], ptr, r, copySize, oldWords, lastword))
    {
      hide SoundFor, Tiling, Tags, Kept, Aligned, Coalesced, Live, FreeLists, HandedOut, PayloadsKept, AllocBelow, ToInt32, Carried, SameWords, OnlyWithin, Refused, Grows, Extension, Extendable, Heapless, Links, SegMax, RequestWords;
      SoundTiling(0);
      SoundLoose(0);
      AtLeastFour(size);
      ghost var w0, m, end, fine := mem[..], layout, End(), words == RequestWords(size) < TWO61 && copySize <= size;
      if words % TWO61 == 0 {
        NoWordsGranted(words, brk, mem.Length);
      }
      var newblock;
      newblock, fault := ExtendHeap(words, true);
      if fault || newblock == 0 {
        return 0, fault;
      }
      r := newblock + 3;
      fault := words % TWO61 < 3 + (copySize + 7) / 8;
      if fault {
        return;
      }
      FillNew(newblock, ptr, copySize, words, oldWords, lastword, size, m, w0, fine && 4 <= words < TWO61);
    }

    /** The copy of mm_realloc into the block just added. */
    method FillNew(b: nat, ptr: nat, copySize: nat, words: nat, oldWords: nat, lastword: nat, ghost size: nat, ghost m: Layout, ghost w0: seq<nat>, ghost fine: bool)
      requires words <= TWO61 && 3 + (copySize + 7) / 8 <= words % TWO61 && b + words % TWO61 <= mem.Length && mem != segMax && 0 < brk
      requires 0 < oldWords && copySize <= 8 * oldWords && ptr + oldWords <= b
      requires fine ==> words == RequestWords(size) < TWO61 && copySize <= size && |w0| == mem.Length && End() == b + words
      requires fine ==> Extension(m, w0, b, words, true)
      requires fine ==> Tiling(m, b) && Aligned(m) && Coalesced(m) && b % 2 == 1 && listed == FreeLists(m)
      modifies mem
      ensures fine ==> Valid() && HandedOut(m, layout, End(), b + 3, size) && PayloadsKept(Live(m), w0, mem[..])
      ensures fine ==> b + 3 + (copySize + 7) / 8 <= mem.Length
      ensures fine ==> ptr + (copySize + 7) / 8 <= |w0| && Carried(w0, mem[..], ptr, b + 3, copySize, oldWords, lastword)
    {
      hide SoundFor, Tiling, Tags, Kept, Aligned, Coalesced, Live, FreeLists, HandedOut, PayloadsKept, AllocBelow, Carried, SameWords, OnlyWithin, Extension, Heap.Valid, RequestWords;
      ghost var w1 := mem[..];
      if fine {
        AtLeastFour(size);
        ExtensionFacts(m, w0, b, words, true);
      }
      MoveData(b + 3, ptr, copySize, words, oldWords, lastword, words % TWO61 - 3);
      if fine {
        Appended(w0, w1, m, b, ptr, copySize, oldWords, lastword, size);
      }
    }

    lemma Appended(w0: seq<nat>, w1: seq<nat>, m: Layout, b: nat, ptr: nat, copySize: nat, oldWords: nat, lastword: nat, size: nat)
      requires 0 < brk && SoundFor(w1, 0) && |w0| == |w1| == mem.Length && b !in m && listed == FreeLists(m)
      requires layout == m[b := Block(RequestWords(size), true)] && End() == b + RequestWords(size)
      requires Tiling(m, b) && Aligned(m) && Coalesced(m) && b % 2 == 1
      requires Kept(m, w0, w1) && SameWords(w0, w1, 0, b) && OnlyWithin(w1, mem[..], b + 3, b + RequestWords(size))
      requires ptr + oldWords <= b && copySize <= 8 * oldWords && copySize <= size && b + 3 + (copySize + 7) / 8 <= mem.Length
      requires Carried(w1, mem[..], ptr, b + 3, copySize, oldWords, lastword)
      ensures Valid() && HandedOut(m, layout, End(), b + 3, size) && PayloadsKept(Live(m), w0, mem[..])
      ensures Carried(w0, mem[..], ptr, b + 3, copySize, oldWords, lastword)
    {
      hide SoundFor, Tiling, Tags, Kept, Aligned, Coalesced, Live, FreeLists, HandedOut, PayloadsKept, Carried, SameWords, OnlyWithin, RequestWords, Links, SegMax;
      AtLeastFour(size);
      ExtendFacts(m, b, RequestWords(size), true);
      FillLiveKeeps(w1, b);
      SoundTiling(0);
      EndNotLive(m, b);
      HandedOutFacts(m, layout, End(), b + 3, size);
      SameWordsPart(w0, w1, 0, b, ptr, ptr + (copySize + 7) / 8);
      CarriedSource(w0, w1, mem[..], ptr, b + 3, copySize, oldWords, lastword);
      LiveInLayout(m);
      LivePayloadsKept(m, Live(m), w0, w1);
      FillPayloads(w1, mem[..], layout, End(), b, Live(m));
      PayloadsKeptTrans(Live(m), w0, w1, mem[..]);
    }

    lemma FillLiveKeeps(w: seq<nat>, block: nat)
      requires SoundFor(w, 0)
      requires block in layout && layout[block].alloc && OnlyWithin(w, mem[..], block + 3, Next(layout, block))
      ensures Sound(0)
    {
      hide Tiling, Tags, Links;
      BlockTag(w, layout, End(), 0, block);
      FillLiveTags(w, mem[..], layout, End(), block);
      FillLinks(w, mem[..], layout, End(), block, listed);
    }

    lemma OldBlock(block: nat)
      requires Sound(0) && block in Live(layout)
      ensures block in layout && layout[block].alloc && 4 <= layout[block].size && Next(layout, block) <= End()
      ensures block < mem.Length && Words(mem[block]) == layout[block].size
    {
      BlockTag(mem[..], layout, End(), 0, block);
    }

    /** mm_realloc after the old block has been freed. */
    method Refill(ptr: nat, copySize: nat, words: nat, oldWords: nat, lastword: nat, ghost size: nat) returns (r: nat, fault: bool)
      requires Valid() && size < TWO64 && words == AskedWords(size) && HasFit(layout, 4)
      requires 0 < oldWords && 0 < copySize <= 8 * oldWords && ptr + oldWords <= End()
      requires if Representable(size) then copySize <= size else copySize == 8 * oldWords
      modifies mem, this`brk, this`layout, this`listed
      ensures 0 < brk <= mem.Length
      ensures Refillable(old(layout), old(brk), mem.Length, size) ==>
        && !fault && Valid() && (r == 0 <==> !HasFit(old(layout), words) && Refused(words, old(brk), mem.Length))
        && (r == 0 ==> layout == old(layout) && brk == old(brk) && mem[..] == old(mem[..]))
        && (r != 0 ==>
          && HandedOut(old(layout), layout, End(), r, size) && (brk == old(brk) || brk == old(brk) + words)
          && PayloadsKept(Live(old(layout)), old(mem[..]), mem[..])
          && r + (copySize + 7) / 8 <= mem.Length
          && Carried(old(mem[..]), mem[..], ptr, r, copySize, oldWords, lastword))
      ensures !Refillable(old(layout), old(brk), mem.Length, size) ==> fault || (!Representable(size) && r != 0)
    {
      hide SoundFor, PayloadsKept, HandedOut, Kept, Live, FreeLists, Carried, SameWords, Coalesced, Aligned, HasFit, FirstFit, ToInt32, Tiling, Tags, Refused, Grows, AskedWords, Representable, IsFit;
      SoundTiling(0);
      AskedExactly(size);
      AtLeastFour(size);
      FitsMore(layout, words);
      var newblock := FindFit(words);
      if newblock != 0 {
        FitInHand(newblock, words % TWO61);
        fault := FillFit(newblock, ptr, copySize, words, oldWords, lastword, size);
        r := newblock + 3;
      } else {
        NoFit(layout, words);
        r, fault := FillExtend(ptr, copySize, words, oldWords, lastword, size);
      }
    }

    /** mm_realloc past its two early exits. */
    method ReallocLive(ptr: nat, size: nat) returns (r: nat, fault: bool)
      requires Valid() && 0 < size < TWO64
      requires ptr >= 3 && ptr - 3 in Live(layout)
      modifies mem, this`brk, this`layout, this`listed
      ensures ptr - 3 in old(layout) && ReallocJudged(old(mem[..]), old(layout), old(brk), ptr, size, r, fault)
    {
      hide SoundFor, Tiling, Tags, Moved, PayloadsKept, HandedOut, Kept, Live, FreeLists, Carried, Coalesced, Aligned, HasFit, ToInt32, Refillable, ReallocJudged, AskedWords, Representable, Refused;
      ghost var w0, m, b, brk0, end := mem[..], layout, ptr - 3, brk, End();
      OldBlock(b);
      SoundTiling(0);
      AskedExactly(size);
      var oldpayload_words := Words(mem[ptr - 3]) - 3;
      var lastword := mem[ptr + oldpayload_words - 1];
      var words := AskedWords(size);
      var copySize := if 8 * oldpayload_words < size then 8 * oldpayload_words else size;
      Free(ptr);
      SoundTiling(0);
      ghost var w1, m1 := mem[..], layout;
      FreedFit(m, m1, end, b, words);
      FreedFit(m, m1, end, b, 4);
      r, fault := Refill(ptr, copySize, words, oldpayload_words, lastword, size);
      ReallocCases(w0, m, brk0, ptr, size, w1, m1, r, fault);
    }

    /** Whether the promise is kept, and what then holds. */
    ghost predicate ReallocJudged(w: seq<nat>, m: Layout, brk0: nat, ptr: nat, size: nat, r: nat, fault: bool)
      requires ptr >= 3 && ptr - 3 in m && 0 < brk0
      reads this, mem, segMax
    {
      && 0 < brk
      && (ServedAgain(m, brk0, mem.Length, ptr - 3, size) <==> Promise(m[ptr - 3 := Block(m[ptr - 3].size, false)], size, r, fault))
      && (ServedAgain(m, brk0, mem.Length, ptr - 3, size) ==>
           !fault && Valid() && Moved(m, brk0, w, ptr, size, r, layout, brk, mem[..]))
    }

    /** The two ways mm_realloc goes on after the free. */
    lemma ReallocCases(w0: seq<nat>, m: Layout, brk0: nat, ptr: nat, size: nat, w1: seq<nat>, m1: Layout, r: nat, fault: bool)
      requires var b, words := ptr - 3, AskedWords(size);
        && ptr >= 3 && b in m && m[b].alloc && 4 <= m[b].size && Next(m, b) <= |w0| && 0 < size < TWO64
        && |w0| == |w1| == mem.Length && 0 < brk0 && 0 < brk <= mem.Length <= MAX_WORDS
        && Kept(m[b := Block(m[b].size, false)], w0, w1) && Live(m1) == Live(m) - {b}
        && (HasFit(m1, words) <==> HasFit(m, words) || words <= Merged(m, b))
      requires Refillable(m1, brk0, mem.Length, size) ==> Refilled(w0, w1, m, m1, brk0, ptr, size, r, fault)
      requires !Refillable(m1, brk0, mem.Length, size) ==> fault || (!Representable(size) && r != 0)
      ensures ReallocJudged(w0, m, brk0, ptr, size, r, fault)
    {
      hide Kept, Live, HasFit, SoundFor, HandedOut, PayloadsKept, Carried, AskedWords, RequestWords, Coalesced, Aligned, FreeLists, Promise, Refused, Grows, Moved, ToInt32, Tiling, Tags, Links, Merged;
      var b, words := ptr - 3, AskedWords(size);
      var rest := m[b := Block(m[b].size, false)];
      AskedExactly(size);
      GrowsExactly(words, brk0, mem.Length);
      assert Refillable(m1, brk0, mem.Length, size) <==> ServedAgain(m, brk0, mem.Length, b, size);
      if Refillable(m1, brk0, mem.Length, size) {
        MarkFreeLive(m, b);
        if r == 0 {
          MovedNowhere(m, brk0, w0, ptr, size, w1, m1);
        } else {
          MovedTo(m, brk0, w0, ptr, size, w1, m1, r, layout, brk, mem[..]);
          HandedOutCongruent(m1, rest, layout, End(), r, size);
        }
        PromiseKept(rest, size, r);
      } else {
        PromiseBroken(rest, size, r, fault);
      }
    }

    /** What Refill says when it is in order. */
    ghost predicate Refilled(w0: seq<nat>, w1: seq<nat>, m: Layout, m1: Layout, brk0: nat, ptr: nat, size: nat, r: nat, fault: bool)
      requires ptr >= 3 && ptr - 3 in m && m[ptr - 3].size >= 4 && Next(m, ptr - 3) <= |w0| == |w1|
      reads this, mem, segMax
    {
      var words, oldWords := AskedWords(size), m[ptr - 3].size - 3;
      var len := if 8 * oldWords < size then 8 * oldWords else size;
      && !fault && Valid() && (r == 0 <==> !HasFit(m1, words) && Refused(words, brk0, mem.Length))
      && (r == 0 ==> layout == m1 && brk == brk0 && mem[..] == w1)
      && (r != 0 ==>
        && HandedOut(m1, layout, End(), r, size) && (brk == brk0 || brk == brk0 + words)
        && PayloadsKept(Live(m1), w1, mem[..])
        && r + (len + 7) / 8 <= mem.Length
        && Carried(w1, mem[..], ptr, r, len, oldWords, w0[ptr + oldWords - 1]))
    }

    /** mm_realloc; 0 stands for NULL.  A fault is a store outside the heap or
        past the block that is being filled. */
    method Realloc(ptr: nat, size: nat) returns (r: nat, fault: bool)
      requires Valid() && size < TWO64
      requires ptr == 0 || (ptr >= 3 && ptr - 3 in Live(layout))
      modifies mem, this`brk, this`layout, this`listed
      ensures ptr == 0 ==> Judged(old(mem[..]), old(layout), old(brk), size, r, fault)
      ensures ptr != 0 && size == 0 ==>
        r == 0 && !fault && Valid() && layout == old(layout) && brk == old(brk) && mem[..] == old(mem[..])
      ensures ptr != 0 && size != 0 ==>
        ptr - 3 in old(layout) && ReallocJudged(old(mem[..]), old(layout), old(brk), ptr, size, r, fault)
    {
      hide SoundFor, Judged, ReallocJudged, Coalesced, Aligned, FreeLists;
      if ptr == 0 {
        r, fault := Malloc(size);
        return;
      }
      if size == 0 {
        return 0, false;
      }
      r, fault := ReallocLive(ptr, size);
    }
  }

  /** How mm_malloc grows the heap by a block of n words and a free one of the
      same size, and what it leaves behind. */
  ghost predicate GrowResult(m: Layout, brk: nat, len: nat, n: nat, ptr: nat, m': Layout, brk': nat)
    requires 0 < brk
  {
    var end := brk - 1;
    if 8 * n > INT_MAX || brk + n > len then
      ptr == 0 && m' == m && brk' == brk
    else if brk + 2 * n > len then
      // the block stays allocated although the caller gets NULL
      ptr == 0 && m' == m[end := Block(n, true)] && brk' == brk + n
    else
      ptr == end + 3 && m' == m[end := Block(n, true)][end + n := Block(n, false)] && brk' == brk + 2 * n
  }

  /** The requests for which mm_malloc keeps its promise: a free block fits, or
      the heap grows by the block asked for or not at all.  Where the size wraps
      the promise is only kept by way of NULL: no free block, and no room for
      the block that the wrapped size asks for. */
  ghost predicate Served(m: Layout, brk: nat, len: nat, size: nat) {
    var n := AskedWords(size);
    if Representable(size) then HasFit(m, n) || Grows(n, brk, len)
    else !HasFit(m, 0) && ((n == 2 && brk + 2 > len) || (n == 4 && brk + 8 > len))
  }

  /** Which of its four ways mm_malloc takes, and what it leaves behind. */
  ghost predicate MallocResult(m: Layout, brk: nat, len: nat, size: nat, ptr: nat, m': Layout, brk': nat)
    requires 0 < brk
  {
    var n := AskedWords(size);
    if HasFit(m, n) then
      0 < n && ptr >= 3 && FirstFit(m, n, ptr - 3) && m' == Placed(m, ptr - 3, n) && brk' == brk
    else
      GrowResult(m, brk, len, n, ptr, m', brk')
  }

  lemma NoFreeBlock(m: Layout, end: nat, words: nat)
    requires Tiling(m, end) && words <= 4
    ensures HasFit(m, words) <==> HasFit(m, 0)
  {
    if b :| IsFit(m, 0, b) {
      assert IsFit(m, words, b);
    }
    if b :| IsFit(m, words, b) {
      assert IsFit(m, 0, b);
    }
  }

  /** The memory freed by mm_realloc can be filled again, or the heap extended. */
  ghost predicate Refillable(m: Layout, brk: nat, len: nat, size: nat) {
    Representable(size) && (HasFit(m, AskedWords(size)) || Grows(AskedWords(size), brk, len))
  }

  /** The requests for which mm_realloc on block b keeps its promise: it takes a
      free block, b itself with its free neighbours, or growth as asked for. */
  ghost predicate ServedAgain(m: Layout, brk: nat, len: nat, b: nat, size: nat)
    requires b in m
  {
    var n := AskedWords(size);
    Representable(size) && (HasFit(m, n) || n <= Merged(m, b) || Grows(n, brk, len))
  }

  /** mm_realloc on a live block: the old block is gone in any case.  It fails,
      and the block is lost, exactly if no free block and not even this one
      with its free neighbours is large enough and the heap cannot grow.  Else the
      new one is fit for `size` bytes and starts with the old contents, cut to
      the smaller size. */
  ghost predicate Moved(m: Layout, brk: nat, w: seq<nat>, ptr: nat, size: nat, r: nat, m': Layout, brk': nat, w': seq<nat>)
    requires ptr >= 3 && ptr - 3 in m && brk' > 0
  {
    var oldWords := m[ptr - 3].size - 3;
    var n := RequestWords(size);
    var rest := m[ptr - 3 := Block(m[ptr - 3].size, false)];
    && PayloadsKept(Live(rest), w, w')
    && (r == 0 <==> NoRoomToMove(m, brk, |w|, ptr - 3, n))
    && if r == 0 then
         Live(m') == Live(rest) && brk' == brk
       else
         && HandedOut(rest, m', brk' - 1, r, size) && (brk' == brk || brk' == brk + n)
         && 0 <= oldWords && ptr + oldWords <= |w| && r + (size + 7) / 8 <= |w'|
         && forall j: nat :: j < 8 * oldWords && j < size ==> ByteAt(w', r, j) == ByteAt(w, ptr, j)
  }

  ghost predicate NoRoomToMove(m: Layout, brk: nat, len: nat, b: nat, n: nat)
    requires b in m
  {
    !HasFit(m, n) && Merged(m, b) < n && (8 * n > INT_MAX || brk + n > len)
  }

  lemma MovedNowhere(m: Layout, brk: nat, w0: seq<nat>, ptr: nat, size: nat, w1: seq<nat>, m1: Layout)
    requires ptr >= 3 && ptr - 3 in m && m[ptr - 3].alloc && brk > 0
    requires Kept(m[ptr - 3 := Block(m[ptr - 3].size, false)], w0, w1) && Live(m1) == Live(m) - {ptr - 3}
    requires NoRoomToMove(m, brk, |w0|, ptr - 3, RequestWords(size))
    ensures Moved(m, brk, w0, ptr, size, 0, m1, brk, w1)
  {
    hide HasFit, Live, Kept, PayloadsKept, NoRoomToMove;
    FreedPayload(m, ptr - 3, w0, w1);
    MarkFreeLive(m, ptr - 3);
  }

  lemma MovedTo(m: Layout, brk: nat, w0: seq<nat>, ptr: nat, size: nat, w1: seq<nat>, m1: Layout,
                r: nat, m2: Layout, brk': nat, w2: seq<nat>)
    requires ptr >= 3 && ptr - 3 in m && m[ptr - 3].alloc && 4 <= m[ptr - 3].size && Next(m, ptr - 3) <= |w0|
    requires Kept(m[ptr - 3 := Block(m[ptr - 3].size, false)], w0, w1) && Live(m1) == Live(m) - {ptr - 3}
    requires PayloadsKept(Live(m1), w1, w2) && 0 < brk' <= |w2| && |w0| == |w1|
    requires !NoRoomToMove(m, brk, |w0|, ptr - 3, RequestWords(size))
    requires r != 0 && HandedOut(m1, m2, brk' - 1, r, size) && (brk' == brk || brk' == brk + RequestWords(size))
    requires var oldWords := m[ptr - 3].size - 3;
      var len := if 8 * oldWords < size then 8 * oldWords else size;
      r + (len + 7) / 8 <= |w2| && Carried(w1, w2, ptr, r, len, oldWords, w0[ptr + oldWords - 1])
    ensures Moved(m, brk, w0, ptr, size, r, m2, brk', w2)
  {
    hide Live, Kept, PayloadsKept, HandedOut, Carried, SameWords, NoRoomToMove;
    var b, oldWords := ptr - 3, m[ptr - 3].size - 3;
    var rest := m[b := Block(m[b].size, false)];
    var len := if 8 * oldWords < size then 8 * oldWords else size;
    FreedPayload(m, b, w0, w1);
    MarkFreeLive(m, b);
    PayloadsKeptTrans(Live(rest), w0, w1, w2);
    HandedOutCongruent(m1, rest, m2, brk' - 1, r, size);
    HandedOutRoom(rest, m2, brk' - 1, r, size);
    CarriedFromFreed(w0, w1, w2, ptr, r, len, oldWords);
  }
}
