/**
 The state of the allocator between calls is a function of the live blocks and
 the heap's extent, so it does not depend on the calls that led to it.
 */
module HeapCanonical {
  import opened HeapWords
  import opened HeapLayout

  // ------------------------------------------------------ canonical form

  /** At any boundary two coalesced tilings with the same live blocks agree. */
  lemma SameBlockAt(m1: Layout, m2: Layout, end: nat, x: nat)
    requires Tiling(m1, end) && Tiling(m2, end) && Coalesced(m1) && Coalesced(m2)
    requires Live(m1) == Live(m2) && x in m1 && x in m2
    ensures m1[x] == m2[x]
  {
    InFreeLists(m1, x);
    InFreeLists(m2, x);
    if m1[x].alloc {
      assert Live(m1)[x] == m1[x].size && Live(m2)[x] == m2[x].size;
    } else if m1[x].size < m2[x].size {
      ShorterFree(m1, m2, end, x);
    } else if m2[x].size < m1[x].size {
      ShorterFree(m2, m1, end, x);
    }
  }

  /** A free block cannot be a proper part of a free block of the other tiling:
      what follows it would be live. */
  lemma ShorterFree(m1: Layout, m2: Layout, end: nat, x: nat)
    requires Tiling(m1, end) && Tiling(m2, end) && Coalesced(m1)
    requires Live(m1) == Live(m2) && x in m1 && x in m2 && !m1[x].alloc
    ensures m2[x].size <= m1[x].size
  {
    if m1[x].size < m2[x].size {
      assert Follows(m1, end, x) && Follows(m2, end, x);
      var y := Next(m1, x);
      InFreeLists(m1, y);
      InFreeLists(m2, y);
      assert false;
    }
  }

  /** From a common boundary on, the tilings are the same. */
  lemma {:induction false} SameFrom(m1: Layout, m2: Layout, end: nat, x: nat, a: nat)
    requires Tiling(m1, end) && Tiling(m2, end) && Coalesced(m1) && Coalesced(m2)
    requires Live(m1) == Live(m2) && x in m1 && x in m2 && x <= a && a in m1
    ensures a in m2 && m1[a] == m2[a]
    decreases a - x
  {
    SameBlockAt(m1, m2, end, x);
    if x < a {
      var y := Next(m1, x);
      assert Follows(m1, end, x) && Follows(m2, end, x) && Follows(m1, end, a);
      SameFrom(m1, m2, end, y, a);
    }
  }

  lemma SameBlocks(m1: Layout, m2: Layout, end: nat)
    requires Tiling(m1, end) && Tiling(m2, end) && Coalesced(m1) && Coalesced(m2) && Live(m1) == Live(m2)
    ensures forall a :: a in m1 ==> a in m2 && m1[a] == m2[a]
  {
    forall a | a in m1
      ensures a in m2 && m1[a] == m2[a]
    {
      assert Follows(m1, end, a);
      SameFrom(m1, m2, end, FIRST, a);
    }
  }

  /** The live blocks and the end of the heap determine all blocks. */
  lemma CanonicalLayout(m1: Layout, m2: Layout, end: nat)
    requires Tiling(m1, end) && Tiling(m2, end) && Coalesced(m1) && Coalesced(m2) && Live(m1) == Live(m2)
    ensures m1 == m2
  {
    SameBlocks(m1, m2, end);
    SameBlocks(m2, m1, end);
  }

  /** The layout determines every tag ... */
  lemma CanonicalTags(w1: seq<nat>, w2: seq<nat>, m: Layout, end: nat, a: nat)
    requires Tiling(m, end) && Tags(w1, m, end, 0) && Tags(w2, m, end, 0) && (a in m || a == end)
    ensures a < |w1| && a < |w2| && w1[a] == w2[a]
    ensures a in m && !m[a].alloc ==>
      0 < Next(m, a) <= |w1| && Next(m, a) <= |w2| && w1[Next(m, a) - 1] == w2[Next(m, a) - 1]
  {
    if a in m {
      BlockTag(w1, m, end, 0, a);
      BlockTag(w2, m, end, 0, a);
    }
    if FIRST < a {
      var p := BlockBelow(m, end, a);
      assert PrevBitOk(w1, m, p) && PrevBitOk(w2, m, p);
    }
  }

  /** ... and every link. */
  lemma CanonicalLinks(w1: seq<nat>, w2: seq<nat>, f: Listed, n: nat)
    requires Links(w1, f) && Links(w2, f) && IsNode(f, n)
    ensures n + 2 < |w1| && n + 2 < |w2| && w1[n + 2] == w2[n + 2]
    ensures n in f ==> w1[n + 1] == w2[n + 1]
  {
    assert SuccOk(w1, f, n) && SuccOk(w2, f, n);
    assert w1[n + 2] != 0 ==> SuccNear(w2, n, w1[n + 2]);
    assert w2[n + 2] != 0 ==> SuccNear(w1, n, w2[n + 2]);
    if n in f {
      assert PredOk(w1, f, n) && PredOk(w2, f, n);
      var p1, p2 := w1[n + 1], w2[n + 1];
      assert SuccNear(w1, p2, n) && SuccNear(w2, p1, n) && SuccOk(w1, f, p2);
      SuccUnique(w1, f, p1, p2, n);
    }
  }

  // --------------------------------------------------------------- lists

  /** The blocks met by following succ from node n. */
  function Walk(w: seq<nat>, n: nat): seq<nat>
    decreases |w| - n
  {
    if n + 2 < |w| && n < w[n + 2] < |w| then [w[n + 2]] + Walk(w, w[n + 2]) else []
  }

  ghost predicate Increasing(s: seq<nat>) {
    forall i, j :: 0 <= i < j < |s| ==> s[i] < s[j]
  }

  /** From node n of list i, succ leads through exactly the later free blocks
      of size class i, in address order. */
  lemma {:induction false} WalkContents(w: seq<nat>, m: Layout, n: nat, i: nat)
    requires Links(w, FreeLists(m)) && IsNode(FreeLists(m), n) && ListOf(FreeLists(m), n) == i
    ensures Increasing(Walk(w, n))
    ensures forall b :: b in Walk(w, n) <==> b in m && !m[b].alloc && ClassOf(m[b].size) == i && n < b
    decreases |w| - n
  {
    hide Links, FreeLists, IsNode, ListOf, ClassOf;
    NextOnList(w, m, FreeLists(m), n, i);
    if w[n + 2] != 0 {
      var s := w[n + 2];
      FreeOnList(m, s);
      WalkContents(w, m, s, i);
      assert forall b :: b in Walk(w, n) <==> b == s || b in Walk(w, s);
      forall j, k | 0 <= j < k < |Walk(w, n)|
        ensures Walk(w, n)[j] < Walk(w, n)[k]
      {
        assert Walk(w, n)[k] == Walk(w, s)[k - 1];
        assert Walk(w, n)[k] in Walk(w, s);
      }
    }
  }

  /** Along the walk pred leads back. */
  lemma {:induction false} WalkBack(w: seq<nat>, f: Listed, n: nat, k: nat)
    requires Links(w, f) && IsNode(f, n) && k < |Walk(w, n)|
    ensures Walk(w, n)[k] + 1 < |w|
    ensures w[Walk(w, n)[k] + 1] == if k == 0 then n else Walk(w, n)[k - 1]
    decreases k
  {
    assert SuccOk(w, f, n);
    var s := w[n + 2];
    if k == 0 {
      assert PredOk(w, f, s);
      SuccUnique(w, f, n, w[s + 1], s);
    } else {
      WalkBack(w, f, s, k - 1);
    }
  }

  // ------------------------------------------------------- whole heaps

  /** With nothing live at most one block is left, and it covers the heap. */
  lemma NothingLive(m: Layout, end: nat)
    requires Tiling(m, end) && Coalesced(m) && Live(m) == map[]
    ensures m == if end == FIRST then map[] else map[FIRST := Block(end - FIRST, false)]
  {
    forall a | a in m
      ensures FIRST in m && !m[a].alloc && a < end
    {
      InFreeLists(m, a);
      assert Follows(m, end, a);
    }
    if end != FIRST {
      assert Follows(m, end, FIRST);
      forall a | a in m
        ensures a == FIRST
      {
        assert Follows(m, end, a);
      }
    }
  }

  lemma {:induction false} SameWalk(w1: seq<nat>, w2: seq<nat>, f: Listed, n: nat)
    requires Links(w1, f) && Links(w2, f) && IsNode(f, n)
    ensures Walk(w1, n) == Walk(w2, n)
    decreases |w1| - n
  {
    CanonicalLinks(w1, w2, f, n);
    assert SuccOk(w1, f, n) && SuccOk(w2, f, n);
    if w1[n + 2] != 0 {
      SameWalk(w1, w2, f, w1[n + 2]);
    }
  }

  /** The contents of the twelve free lists. */
  ghost function Lists(w: seq<nat>): (ls: seq<seq<nat>>)
    ensures |ls| == SEG_NUM
  {
    seq(SEG_NUM, (i: nat) => Walk(w, 1 + i * ROOT_WORDS))
  }

  /** Everything the allocator will ever look at - blocks, tags and lists -
      depends on the live blocks and the extent alone, whatever calls led there. */
  lemma CanonicalHeap(w1: seq<nat>, m1: Layout, w2: seq<nat>, m2: Layout, end: nat)
    requires Tiling(m1, end) && Tiling(m2, end) && Coalesced(m1) && Coalesced(m2)
    requires Tags(w1, m1, end, 0) && Tags(w2, m2, end, 0)
    requires Links(w1, FreeLists(m1)) && Links(w2, FreeLists(m2))
    requires Live(m1) == Live(m2)
    ensures m1 == m2 && Lists(w1) == Lists(w2)
    ensures forall a :: a in m1 || a == end ==> a < |w1| && a < |w2| && w1[a] == w2[a]
  {
    hide Tiling, Tags, Links, Coalesced, FreeLists;
    CanonicalLayout(m1, m2, end);
    forall a | a in m1 || a == end
      ensures a < |w1| && a < |w2| && w1[a] == w2[a]
    {
      CanonicalTags(w1, w2, m1, end, a);
    }
    forall i: nat | i < SEG_NUM
      ensures Lists(w1)[i] == Lists(w2)[i]
    {
      SameWalk(w1, w2, FreeLists(m1), 1 + i * ROOT_WORDS);
    }
  }

  // ------------------------------------------------------- after a free

  ghost function LowEnd(m: Layout, b: nat): (lo: int) {
    b - FreeSizeBelow(m, b)
  }

  function HighEnd(m: Layout, b: nat): nat
    requires b in m
  {
    Next(m, b) + FreeSizeAt(m, Next(m, b))
  }

  /** The layout with b free and joined to the free blocks that touch it. */
  ghost function Freed(m: Layout, b: nat): Layout
    requires b in m && LowEnd(m, b) >= 0
  {
    (map a | a in m && !(LowEnd(m, b) <= a < HighEnd(m, b)) :: m[a])[LowEnd(m, b) := Block(Merged(m, b), false)]
  }

  /** The blocks between the two ends. */
  lemma FreedEnds(m: Layout, end: nat, b: nat)
    requires Tiling(m, end) && b in m
    ensures LowEnd(m, b) in m && FIRST <= LowEnd(m, b) <= b && HighEnd(m, b) <= end
    ensures HighEnd(m, b) in m || HighEnd(m, b) == end
    ensures LowEnd(m, b) < b ==> EndsFree(m, LowEnd(m, b), b)
    ensures LowEnd(m, b) == b ==> forall p :: p in m && Next(m, p) == b ==> m[p].alloc
    ensures HighEnd(m, b) == Next(m, b) && HighEnd(m, b) in m ==> m[HighEnd(m, b)].alloc
    ensures HighEnd(m, b) > Next(m, b) ==> EndsFree(m, Next(m, b), HighEnd(m, b))
  {
    assert Follows(m, end, b);
    var x := Next(m, b);
    assert x in m ==> Follows(m, end, x);
    if p :| EndsFree(m, p, b) {
      assert Follows(m, end, p);
    } else {
      forall p | p in m && Next(m, p) == b
        ensures m[p].alloc
      {
        assert m[p].alloc || EndsFree(m, p, b);
      }
    }
  }

  lemma FreedBetween(m: Layout, end: nat, b: nat, x: nat)
    requires Tiling(m, end) && b in m && x in m && LowEnd(m, b) <= x < HighEnd(m, b)
    ensures x == LowEnd(m, b) || x == b || x == Next(m, b)
  {
    FreedEnds(m, end, b);
    assert Follows(m, end, b);
  }

  lemma FreedFollows(m: Layout, end: nat, b: nat, x: nat)
    requires Tiling(m, end) && b in m && LowEnd(m, b) >= 0 && x in Freed(m, b)
    ensures Follows(Freed(m, b), end, x)
  {
    hide Tiling;
    FreedEnds(m, end, b);
    var lo, hi := LowEnd(m, b), HighEnd(m, b);
    BlockFollows(m, end, x);
    if x != lo {
      BlocksApart(m, end, x, lo);
      assert Next(m, x) <= lo || hi <= x;
    } else {
      assert Next(Freed(m, b), lo) == hi;
    }
  }

  lemma BlockFollows(m: Layout, end: nat, x: nat)
    requires Tiling(m, end) && x in m
    ensures Follows(m, end, x) && 4 <= m[x].size
  {
  }

  lemma FreedApart(m: Layout, end: nat, b: nat, x: nat, y: nat)
    requires Tiling(m, end) && b in m && LowEnd(m, b) >= 0 && x in Freed(m, b) && y in Freed(m, b) && x < y
    ensures Next(Freed(m, b), x) <= y
  {
    FreedEnds(m, end, b);
    assert Next(Freed(m, b), LowEnd(m, b)) == HighEnd(m, b);
  }

  lemma FreedTiling(m: Layout, end: nat, b: nat)
    requires Tiling(m, end) && b in m
    ensures LowEnd(m, b) >= 0 && Tiling(Freed(m, b), end)
  {
    FreedEnds(m, end, b);
    FreedMembers(m, end, b);
    var m' := Freed(m, b);
    hide Freed;
    forall x {:trigger Follows(m', end, x)} | x in m'
      ensures Follows(m', end, x)
    {
      FreedFollows(m, end, b, x);
    }
    forall x, y | x in m' && y in m' && x < y
      ensures Next(m', x) <= y
    {
      FreedApart(m, end, b, x, y);
    }
  }

  lemma FreedMembers(m: Layout, end: nat, b: nat)
    requires Tiling(m, end) && b in m
    ensures LowEnd(m, b) >= 0
    ensures forall x :: x in Freed(m, b) ==> FIRST <= x && 4 <= Freed(m, b)[x].size
    ensures FIRST in Freed(m, b)
  {
    FreedEnds(m, end, b);
    FirstBlock(m, end);
  }

  lemma FreedCoalesced(m: Layout, end: nat, b: nat)
    requires Tiling(m, end) && Coalesced(m) && b in m
    ensures LowEnd(m, b) >= 0 && Coalesced(Freed(m, b))
  {
    FreedEnds(m, end, b);
    var m', lo, hi := Freed(m, b), LowEnd(m, b), HighEnd(m, b);
    assert Next(m', lo) == hi;
    forall x {:trigger Next(m', x)} | x in m' && !m'[x].alloc && Next(m', x) in m'
      ensures m'[Next(m', x)].alloc
    {
      assert x in m;
      if x == lo {
        assert hi > Next(m, b) ==> Next(m, Next(m, b)) == hi;
      } else {
        assert Next(m', x) == Next(m, x);
      }
    }
  }

  lemma FreedLiveAt(m: Layout, end: nat, b: nat, x: nat)
    requires Tiling(m, end) && b in m && m[b].alloc && LowEnd(m, b) >= 0
    ensures x in Live(Freed(m, b)) <==> x in Live(m) && x != b
    ensures x in Live(m) && x != b ==> Live(Freed(m, b))[x] == Live(m)[x]
  {
    FreedEnds(m, end, b);
    if x in m && LowEnd(m, b) <= x < HighEnd(m, b) {
      FreedBetween(m, end, b, x);
    }
  }

  lemma FreedLive(m: Layout, end: nat, b: nat)
    requires Tiling(m, end) && b in m && m[b].alloc
    ensures LowEnd(m, b) >= 0 && Live(Freed(m, b)) == Live(m) - {b}
  {
    hide Tiling, Live, Freed;
    FreedEnds(m, end, b);
    forall x: nat
      ensures x in Live(Freed(m, b)) <==> x in Live(m) - {b}
      ensures x in Live(m) - {b} ==> Live(Freed(m, b))[x] == Live(m)[x]
    {
      FreedLiveAt(m, end, b, x);
    }
  }

  /** A heap in which b has been freed has a fit exactly if there was one, or
      b with its free neighbours is one. */
  lemma FreedFit(m: Layout, m': Layout, end: nat, b: nat, words: nat)
    requires Tiling(m, end) && Coalesced(m) && b in m && m[b].alloc
    requires Tiling(m', end) && Coalesced(m') && Live(m') == Live(m) - {b}
    ensures HasFit(m', words) <==> HasFit(m, words) || words <= Merged(m, b)
  {
    hide Tiling, Coalesced, Live;
    FreedTiling(m, end, b);
    FreedCoalesced(m, end, b);
    FreedLive(m, end, b);
    CanonicalLayout(m', Freed(m, b), end);
    FreedEnds(m, end, b);
    var lo := LowEnd(m, b);
    if words <= Merged(m, b) {
      assert IsFit(m', words, lo);
    }
    if x: nat :| IsFit(m, words, x) {
      if lo <= x < HighEnd(m, b) {
        FreedBetween(m, end, b, x);
        assert IsFit(m', words, lo);
      } else {
        assert IsFit(m', words, x);
      }
    }
    if x: nat :| IsFit(m', words, x) {
      assert x != lo ==> IsFit(m, words, x);
    }
  }
}
