/**
 What a well-formed heap of Lab6_malloclab/mm.c is: a layout of blocks that
 tile it, tags in memory that tell the truth about the layout, and free lists
 threaded through the free blocks.  Everything here is about values; the
 operations that change memory are in HeapAllocator.dfy.
 */
module HeapLayout {
  import opened HeapWords

  datatype Block = Block(size: nat, alloc: bool)

  /** Blocks by address. */
  type Layout = map<nat, Block>

  /** List index of each block that is in a free list. */
  type Listed = map<nat, nat>

  // ------------------------------------------------------------- tiling

  function Next(m: Layout, a: nat): nat
    requires a in m
  {
    a + m[a].size
  }

  /** The end of a block is the start of another, or the end of the heap. */
  ghost predicate Follows(m: Layout, end: nat, a: nat)
    requires a in m
  {
    Next(m, a) <= end && (Next(m, a) in m || Next(m, a) == end)
  }

  /** Blocks cover the heap from FIRST to the epilogue at `end`, without gap
      or overlap, and are at least 32 bytes. */
  ghost predicate Tiling(m: Layout, end: nat) {
    && FIRST <= end
    && (FIRST == end || FIRST in m)
    && (forall a :: a in m ==> FIRST <= a && 4 <= m[a].size)
    && (forall a {:trigger Follows(m, end, a)} :: a in m ==> Follows(m, end, a))
    && (forall a, b :: a in m && b in m && a < b ==> Next(m, a) <= b)
  }

  /** Sizes are multiples of 16 bytes, and so is every payload address. */
  ghost predicate Aligned(m: Layout) {
    forall a :: a in m ==> a % 2 == 1 && m[a].size % 2 == 0
  }

  /** No two free blocks are adjacent. */
  ghost predicate Coalesced(m: Layout) {
    forall a {:trigger Next(m, a)} :: a in m && !m[a].alloc && Next(m, a) in m ==> m[Next(m, a)].alloc
  }

  /** Sizes of the allocated blocks. */
  ghost function Live(m: Layout): map<nat, nat> {
    map a | a in m && m[a].alloc :: m[a].size
  }

  /** The free blocks with the list each belongs to. */
  ghost function FreeLists(m: Layout): Listed {
    map a | a in m && !m[a].alloc :: ClassOf(m[a].size)
  }

  /** Every boundary but the first is the end of a block. */
  lemma BlockBelow(m: Layout, end: nat, x: nat) returns (p: nat)
    requires Tiling(m, end) && (x in m || x == end) && FIRST < x
    ensures p in m && Next(m, p) == x
  {
    assert x in m ==> Follows(m, end, x);
    p := FIRST;
    assert Follows(m, end, p);
    while Next(m, p) != x
      invariant p in m && p < x && Follows(m, end, p)
      decreases x - p
    {
      p := Next(m, p);
      assert Follows(m, end, p);
    }
  }

  /** Two adjacent blocks as one free block. */
  ghost function Merge(m: Layout, a: nat): Layout
    requires a in m && Next(m, a) in m
  {
    var b := Next(m, a);
    (m - {b})[a := Block(m[a].size + m[b].size, false)]
  }

  lemma MergeFollows(m: Layout, end: nat, a: nat, x: nat)
    requires Tiling(m, end) && a in m && Next(m, a) in m && x in Merge(m, a)
    ensures Follows(Merge(m, a), end, x)
  {
    assert Follows(m, end, Next(m, a));
    assert x != a ==> Follows(m, end, x) && Next(m, x) != Next(m, a);
  }

  lemma MergeApart(m: Layout, end: nat, a: nat, x: nat, y: nat)
    requires Tiling(m, end) && a in m && Next(m, a) in m && x in Merge(m, a) && y in Merge(m, a) && x < y
    ensures Next(Merge(m, a), x) <= y
  {
  }

  lemma MergeTiling(m: Layout, end: nat, a: nat)
    requires Tiling(m, end) && a in m && Next(m, a) in m
    ensures Tiling(Merge(m, a), end)
  {
    var m' := Merge(m, a);
    forall x {:trigger Follows(m', end, x)} | x in m'
      ensures Follows(m', end, x)
    {
      MergeFollows(m, end, a, x);
    }
    forall x, y | x in m' && y in m' && x < y
      ensures Next(m', x) <= y
    {
      MergeApart(m, end, a, x, y);
    }
  }

  /** The low part of a block taken by an allocation, the rest left free. */
  ghost function Cut(m: Layout, a: nat, n: nat): Layout
    requires a in m && n < m[a].size
  {
    m[a := Block(n, true)][a + n := Block(m[a].size - n, false)]
  }

  lemma CutFresh(m: Layout, end: nat, a: nat, n: nat)
    requires Tiling(m, end) && a in m && 0 < n < m[a].size
    ensures a + n !in m && Next(m, a) <= end
  {
    assert Follows(m, end, a);
  }

  lemma CutDisjoint(m: Layout, end: nat, a: nat, n: nat, x: nat, y: nat)
    requires Tiling(m, end) && a in m && 4 <= n <= m[a].size - 4
    requires x in Cut(m, a, n) && y in Cut(m, a, n) && x < y
    ensures Next(Cut(m, a, n), x) <= y
  {
    CutFresh(m, end, a, n);
  }

  lemma CutTiling(m: Layout, end: nat, a: nat, n: nat)
    requires Tiling(m, end) && a in m && 4 <= n <= m[a].size - 4
    ensures a + n !in m && Tiling(Cut(m, a, n), end)
  {
    var m' := Cut(m, a, n);
    CutFresh(m, end, a, n);
    forall x {:trigger Follows(m', end, x)} | x in m'
      ensures Follows(m', end, x)
    {
      assert Follows(m, end, a);
      assert x in m ==> Follows(m, end, x);
    }
    forall x, y | x in m' && y in m' && x < y
      ensures Next(m', x) <= y
    {
      CutDisjoint(m, end, a, n, x, y);
    }
  }

  // --------------------------------------------------------------- tags

  /** Header and footer of block a; only a free block has a footer. */
  ghost predicate TagOk(w: seq<nat>, m: Layout, a: nat)
    requires a in m
  {
    && 0 < Next(m, a) <= |w| && a < |w|
    && w[a] == Pack(m[a].size, PrevAlloc(w[a]), m[a].alloc)
    && (!m[a].alloc ==> w[Next(m, a) - 1] == w[a])
  }

  /** The word above block a tells whether a is allocated. */
  ghost predicate PrevBitOk(w: seq<nat>, m: Layout, a: nat)
    requires a in m
  {
    Next(m, a) < |w| && PrevAlloc(w[Next(m, a)]) == m[a].alloc
  }

  /** The tags in memory describe the layout, but for the header and footer of
      the block at `hole` (0 when there is no such block). */
  ghost predicate Tags(w: seq<nat>, m: Layout, end: nat, hole: nat) {
    && FIRST <= end < |w|
    && (forall a {:trigger TagOk(w, m, a)} :: a in m && a != hole ==> TagOk(w, m, a))
    && (forall a {:trigger PrevBitOk(w, m, a)} :: a in m ==> PrevBitOk(w, m, a))
    && PrevAlloc(w[FIRST])
    && w[end] == Pack(0, PrevAlloc(w[end]), true)
  }

  lemma BlockTag(w: seq<nat>, m: Layout, end: nat, hole: nat, a: nat)
    requires Tiling(m, end) && Tags(w, m, end, hole) && a in m
    ensures FIRST <= a && 4 <= m[a].size && Next(m, a) <= end < |w|
    ensures a != hole ==> TagOk(w, m, a)
    ensures PrevBitOk(w, m, a)
  {
    assert Follows(m, end, a) && PrevBitOk(w, m, a);
    assert a != hole ==> TagOk(w, m, a);
  }

  lemma TagsHole(w: seq<nat>, m: Layout, end: nat, b: nat)
    requires Tags(w, m, end, 0) && 0 !in m
    ensures Tags(w, m, end, b)
  {
  }

  // -------------------------------------------------------------- lists

  predicate IsRoot(n: nat) {
    n < FIRST && n % 4 == 1
  }

  predicate IsNode(f: Listed, n: nat) {
    n in f || IsRoot(n)
  }

  /** The list a node is on: the roots stand 4 words apart from word 1. */
  function ListOf(f: Listed, n: nat): nat {
    if n in f then f[n] else n / 4
  }

  /** Node n comes before free block b on the same list. */
  predicate Before(f: Listed, n: nat, b: nat) {
    IsNode(f, n) && b in f && n < b && ListOf(f, n) == f[b]
  }

  /** Listed blocks lie above the roots and do not overlap. */
  ghost predicate Nodes(f: Listed, len: nat) {
    && FIRST < len
    && (forall a :: a in f ==> FIRST <= a && a + 3 <= len && f[a] < SEG_NUM)
    && (forall a, b :: a in f && b in f && a < b ==> a + 4 <= b)
  }

  /** succ is NULL or a later block of the list. */
  predicate SuccOk(w: seq<nat>, f: Listed, n: nat)
    requires n + 2 < |w|
  {
    w[n + 2] == 0 || Before(f, n, w[n + 2])
  }

  /** succ is not NULL and not beyond b. */
  predicate SuccNear(w: seq<nat>, n: nat, b: nat)
    requires n + 2 < |w|
  {
    0 < w[n + 2] <= b
  }

  /** pred is the node whose succ is a. */
  predicate PredOk(w: seq<nat>, f: Listed, a: nat)
    requires a + 1 < |w|
  {
    Before(f, w[a + 1], a) && w[a + 1] + 2 < |w| && w[w[a + 1] + 2] == a
  }

  /** succ of every node is the nearest later free block of its list, or NULL
      when there is none, and pred is the inverse of succ. */
  ghost predicate Links(w: seq<nat>, f: Listed) {
    && Nodes(f, |w|)
    && (forall n {:trigger SuccOk(w, f, n)} :: IsNode(f, n) ==> SuccOk(w, f, n))
    && (forall n, b {:trigger Before(f, n, b)} :: Before(f, n, b) ==> SuccNear(w, n, b))
    && (forall a {:trigger PredOk(w, f, a)} :: a in f ==> PredOk(w, f, a))
  }

  /** A node other than p has a succ other than p's. */
  lemma SuccDiffers(w: seq<nat>, f: Listed, p: nat, n: nat, b: nat)
    requires Links(w, f) && Before(f, p, b) && w[p + 2] == b && IsNode(f, n) && n != p
    ensures w[n + 2] != b
  {
    assert SuccOk(w, f, n);
    assert Before(f, n, b) ==> (Before(f, n, p) || Before(f, p, n));
  }

  lemma SuccUnique(w: seq<nat>, f: Listed, p: nat, q: nat, b: nat)
    requires Links(w, f) && Before(f, p, b) && Before(f, q, b)
    requires q + 2 < |w| && p + 2 < |w| && w[p + 2] == b && w[q + 2] == b
    ensures p == q
  {
    if p != q { SuccDiffers(w, f, p, q, b); }
  }

  /** Memory after node b is taken out of its list. */
  function Unlinked(w: seq<nat>, b: nat): (w': seq<nat>)
    requires b + 2 < |w| && w[b + 1] + 2 < |w| && w[b + 2] + 1 < |w|
    ensures |w'| == |w|
  {
    var p, s := w[b + 1], w[b + 2];
    if s == 0 then w[p + 2 := s] else w[p + 2 := s][s + 1 := p]
  }

  lemma UnlinkBounds(w: seq<nat>, f: Listed, b: nat)
    requires Links(w, f) && b in f
    ensures b + 2 < |w| && w[b + 1] + 2 < |w| && w[b + 2] + 1 < |w|
    ensures Before(f, w[b + 1], b) && w[w[b + 1] + 2] == b
    ensures w[b + 2] == 0 || Before(f, b, w[b + 2])
  {
    assert PredOk(w, f, b);
    assert SuccOk(w, f, b);
  }

  lemma UnlinkKeepsHeader(w: seq<nat>, f: Listed, b: nat)
    requires Links(w, f) && b in f
    ensures w[b + 1] + 2 < |w| && w[b + 2] + 1 < |w| && Unlinked(w, b)[b] == w[b]
  {
    UnlinkBounds(w, f, b);
  }

  /** Unlinking changes the two neighbours only. */
  lemma UnlinkedWords(w: seq<nat>, f: Listed, b: nat)
    requires Links(w, f) && b in f
    ensures w[b + 1] + 2 < |w| && w[b + 2] + 1 < |w|
    ensures forall n :: IsNode(f, n) ==> Unlinked(w, b)[n + 2] == if n == w[b + 1] then w[b + 2] else w[n + 2]
    ensures forall a :: a in f ==> Unlinked(w, b)[a + 1] == if a == w[b + 2] then w[b + 1] else w[a + 1]
  {
    UnlinkBounds(w, f, b);
  }

  lemma UnlinkSucc(w: seq<nat>, f: Listed, b: nat, n: nat)
    requires Links(w, f) && b in f && IsNode(f - {b}, n)
    ensures w[b + 1] + 2 < |w| && w[b + 2] + 1 < |w| && n + 2 < |w| && SuccOk(Unlinked(w, b), f - {b}, n)
  {
    UnlinkBounds(w, f, b);
    UnlinkedWords(w, f, b);
    assert SuccOk(w, f, n);
    if n != w[b + 1] { SuccDiffers(w, f, w[b + 1], n, b); }
  }

  lemma UnlinkNear(w: seq<nat>, f: Listed, b: nat, n: nat, a: nat)
    requires Links(w, f) && b in f && Before(f - {b}, n, a)
    ensures w[b + 1] + 2 < |w| && w[b + 2] + 1 < |w| && n + 2 < |w| && SuccNear(Unlinked(w, b), n, a)
  {
    UnlinkBounds(w, f, b);
    UnlinkedWords(w, f, b);
    assert Before(f, n, a);
    assert n == w[b + 1] ==> Before(f, b, a);
  }

  lemma UnlinkPred(w: seq<nat>, f: Listed, b: nat, a: nat)
    requires Links(w, f) && b in f && a in f && a != b
    ensures w[b + 1] + 2 < |w| && w[b + 2] + 1 < |w| && a + 1 < |w| && PredOk(Unlinked(w, b), f - {b}, a)
  {
    UnlinkBounds(w, f, b);
    UnlinkedWords(w, f, b);
    assert PredOk(w, f, a);
  }

  lemma LinksNodes(w: seq<nat>, f: Listed)
    requires Links(w, f)
    ensures Nodes(f, |w|) && (forall n: nat :: IsNode(f, n) ==> n + 2 < |w|) && (forall a :: a in f ==> a + 2 < |w|)
  {
  }

  lemma UnlinkKeepsLinks(w: seq<nat>, f: Listed, b: nat)
    requires Links(w, f) && b in f
    ensures w[b + 1] + 2 < |w| && w[b + 2] + 1 < |w|
    ensures Links(Unlinked(w, b), f - {b})
  {
    UnlinkBounds(w, f, b);
    LinksNodes(w, f);
    var w', f' := Unlinked(w, b), f - {b};
    forall n {:trigger SuccOk(w', f', n)} | IsNode(f', n)
      ensures SuccOk(w', f', n)
    {
      UnlinkSucc(w, f, b, n);
    }
    forall n, a {:trigger Before(f', n, a)} | Before(f', n, a)
      ensures SuccNear(w', n, a)
    {
      UnlinkNear(w, f, b, n, a);
    }
    forall a {:trigger PredOk(w', f', a)} | a in f'
      ensures PredOk(w', f', a)
    {
      UnlinkPred(w, f, b, a);
    }
  }

  /** Memory after b is put between node p and p's successor. */
  function Inserted(w: seq<nat>, p: nat, b: nat): (w': seq<nat>)
    requires p + 2 < |w| && b + 2 < |w| && w[p + 2] + 1 < |w|
    ensures |w'| == |w|
  {
    var s := w[p + 2];
    var w' := w[p + 2 := b][b + 1 := p][b + 2 := s];
    if s == 0 then w' else w'[s + 1 := b]
  }

  /** b may be inserted on list c behind node p. */
  ghost predicate Gap(w: seq<nat>, f: Listed, p: nat, b: nat, c: nat) {
    && IsNode(f, p) && ListOf(f, p) == c && c < SEG_NUM && p < b
    && p + 2 < |w| && (w[p + 2] == 0 || b < w[p + 2])
    && FIRST <= b && b + 3 <= |w| && b !in f
    && (forall a :: a in f ==> a + 4 <= b || b + 4 <= a)
  }

  lemma InsertedWords(w: seq<nat>, f: Listed, p: nat, b: nat, c: nat)
    requires Links(w, f) && Gap(w, f, p, b, c)
    ensures w[p + 2] + 1 < |w| && (w[p + 2] == 0 || Before(f, p, w[p + 2]))
    ensures forall n :: IsNode(f, n) ==> Inserted(w, p, b)[n + 2] == if n == p then b else w[n + 2]
    ensures forall a :: a in f ==> Inserted(w, p, b)[a + 1] == if a == w[p + 2] then b else w[a + 1]
    ensures Inserted(w, p, b)[b + 1] == p && Inserted(w, p, b)[b + 2] == w[p + 2]
  {
    assert SuccOk(w, f, p);
  }

  lemma InsertSucc(w: seq<nat>, f: Listed, p: nat, b: nat, c: nat, n: nat)
    requires Links(w, f) && Gap(w, f, p, b, c) && IsNode(f[b := c], n)
    ensures w[p + 2] + 1 < |w| && n + 2 < |w| && SuccOk(Inserted(w, p, b), f[b := c], n)
  {
    InsertedWords(w, f, p, b, c);
    assert n != b ==> SuccOk(w, f, n);
  }

  lemma InsertNear(w: seq<nat>, f: Listed, p: nat, b: nat, c: nat, n: nat, a: nat)
    requires Links(w, f) && Gap(w, f, p, b, c) && Before(f[b := c], n, a)
    ensures w[p + 2] + 1 < |w| && n + 2 < |w| && SuccNear(Inserted(w, p, b), n, a)
  {
    InsertedWords(w, f, p, b, c);
    assert n != b && a != b ==> Before(f, n, a);
    assert n == b ==> Before(f, p, a);
    assert a == b && n != p ==> Before(f, n, p) || Before(f, p, n);
  }

  lemma InsertPred(w: seq<nat>, f: Listed, p: nat, b: nat, c: nat, a: nat)
    requires Links(w, f) && Gap(w, f, p, b, c) && a in f[b := c]
    ensures w[p + 2] + 1 < |w| && a + 1 < |w| && PredOk(Inserted(w, p, b), f[b := c], a)
  {
    InsertedWords(w, f, p, b, c);
    assert a != b ==> PredOk(w, f, a);
  }

  lemma InsertKeepsLinks(w: seq<nat>, f: Listed, p: nat, b: nat, c: nat)
    requires Links(w, f) && Gap(w, f, p, b, c)
    ensures w[p + 2] + 1 < |w|
    ensures Links(Inserted(w, p, b), f[b := c])
  {
    InsertedWords(w, f, p, b, c);
    LinksNodes(w, f);
    var w', f' := Inserted(w, p, b), f[b := c];
    forall n {:trigger SuccOk(w', f', n)} | IsNode(f', n)
      ensures SuccOk(w', f', n)
    {
      InsertSucc(w, f, p, b, c, n);
    }
    forall n, a {:trigger Before(f', n, a)} | Before(f', n, a)
      ensures SuccNear(w', n, a)
    {
      InsertNear(w, f, p, b, c, n, a);
    }
    forall a {:trigger PredOk(w', f', a)} | a in f'
      ensures PredOk(w', f', a)
    {
      InsertPred(w, f, p, b, c, a);
    }
  }

  // ------------------------------------------- writes that do not interfere

  /** Word k holds payload of block a; of a free block, the words between the
      links and the footer, which hold what its last owner left there. */
  ghost predicate PayloadWord(m: Layout, a: nat, k: nat) {
    a in m && a + 3 <= k < if m[a].alloc then Next(m, a) else Next(m, a) - 1
  }

  /** No payload word of any block differs. */
  ghost predicate Kept(m: Layout, w: seq<nat>, w': seq<nat>) {
    && |w| == |w'|
    && forall a: nat, k: nat {:trigger PayloadWord(m, a, k)} :: PayloadWord(m, a, k) ==> k < |w| && w'[k] == w[k]
  }

  lemma KeptTrans(m: Layout, w0: seq<nat>, w1: seq<nat>, w2: seq<nat>)
    requires Kept(m, w0, w1) && Kept(m, w1, w2)
    ensures Kept(m, w0, w2)
  {
  }

  ghost predicate HasPayload(m: Layout, k: nat) {
    exists a: nat :: PayloadWord(m, a, k)
  }

  /** Every payload word under m is one under m'. */
  ghost predicate Finer(m: Layout, m': Layout) {
    forall a: nat, k: nat {:trigger PayloadWord(m, a, k)} :: PayloadWord(m, a, k) ==> HasPayload(m', k)
  }

  lemma FinerTrans(m: Layout, m': Layout, m'': Layout)
    requires Finer(m, m') && Finer(m', m'')
    ensures Finer(m, m'')
  {
  }

  lemma FinerKept(m: Layout, m': Layout, w: seq<nat>, w': seq<nat>)
    requires Finer(m, m') && Kept(m', w, w')
    ensures Kept(m, w, w')
  {
  }

  /** Writing pred or succ of a root or of a block leaves tags and payloads alone. */
  lemma LinkWrite(w: seq<nat>, m: Layout, end: nat, hole: nat, n: nat, x: nat, v: nat)
    requires Tiling(m, end) && Tags(w, m, end, hole) && (IsRoot(n) || n in m)
    requires x == n + 1 || x == n + 2
    ensures x < |w| && Tags(w[x := v], m, end, hole) && Kept(m, w, w[x := v])
  {
    assert n in m ==> Follows(m, end, n);
    var w' := w[x := v];
    forall a {:trigger TagOk(w', m, a)} | a in m && a != hole
      ensures TagOk(w', m, a)
    {
      assert TagOk(w, m, a);
    }
    forall a {:trigger PrevBitOk(w', m, a)} | a in m
      ensures PrevBitOk(w', m, a)
    {
      assert PrevBitOk(w, m, a) && Follows(m, end, a);
    }
    forall a: nat, k: nat {:trigger PayloadWord(m, a, k)} | PayloadWord(m, a, k)
      ensures k < |w| && w'[k] == w[k]
    {
      assert Follows(m, end, a);
    }
  }

  // ---------------------------------------------------- rewriting the tags

  /** Memory after header and, for a free block, footer of b are written. */
  function Tagged(w: seq<nat>, b: nat, n: nat, alloc: bool): (w': seq<nat>)
    requires 0 < n && b + n <= |w|
    ensures |w'| == |w|
  {
    var tag := Pack(n, PrevAlloc(w[b]), alloc);
    if alloc then w[b := tag] else w[b := tag][b + n - 1 := tag]
  }

  /** Memory after write_next_hf for the tag at x. */
  function NextTagged(w: seq<nat>, x: nat, prevAlloc: bool): (w': seq<nat>)
    requires x < |w| && (!Alloc(w[x]) ==> 0 < Words(w[x]) && x + Words(w[x]) <= |w|)
    ensures |w'| == |w|
  {
    var tag := Pack(Words(w[x]), prevAlloc, Alloc(w[x]));
    if Alloc(w[x]) then w[x := tag] else w[x := tag][x + Words(w[x]) - 1 := tag]
  }

  /** The two steps together, as mm_free, coallesce and allocate_block do them. */
  function Retagged(w: seq<nat>, b: nat, n: nat, alloc: bool): (w': seq<nat>)
    requires RetagFits(w, b, n)
    ensures |w'| == |w|
  {
    NextTagged(Tagged(w, b, n, alloc), b + n, alloc)
  }

  ghost predicate RetagFits(w: seq<nat>, b: nat, n: nat) {
    && 1 < n && b + n < |w|
    && (!Alloc(w[b + n]) ==> 0 < Words(w[b + n]) && b + n + Words(w[b + n]) <= |w|)
  }

  lemma NextTag(w: seq<nat>, m: Layout, end: nat, b: nat)
    requires Tiling(m, end) && Tags(w, m, end, b) && b in m
    ensures RetagFits(w, b, m[b].size)
    ensures var x := Next(m, b);
      if x in m then w[x] == Pack(m[x].size, PrevAlloc(w[x]), m[x].alloc)
      else x == end && w[x] == Pack(0, PrevAlloc(w[x]), true)
  {
    assert Follows(m, end, b);
    var x := Next(m, b);
    if x in m {
      assert TagOk(w, m, x) && Follows(m, end, x);
    }
  }

  /** What the rewritten words hold. */
  lemma RetaggedWords(w: seq<nat>, m: Layout, end: nat, b: nat, alloc: bool, k: nat)
    requires Tiling(m, end) && Tags(w, m, end, b) && b in m && k < |w|
    ensures RetagFits(w, b, m[b].size)
    ensures var n, x := m[b].size, Next(m, b);
      var w' := Retagged(w, b, n, alloc);
      && (k == b || (!alloc && k == x - 1) ==> w'[k] == Pack(n, PrevAlloc(w[b]), alloc))
      && (k == x && x in m ==> w'[k] == Pack(m[x].size, alloc, m[x].alloc))
      && (k == x && x == end ==> w'[k] == Pack(0, alloc, true))
      && (x in m && !m[x].alloc && k == Next(m, x) - 1 ==> w'[k] == w'[x])
      && (k != b && (alloc || k != x - 1) && k != x && (x in m && !m[x].alloc ==> k != Next(m, x) - 1) ==> w'[k] == w[k])
  {
    assert Follows(m, end, b);
    NextTag(w, m, end, b);
  }

  lemma RetagTagOk(w: seq<nat>, m: Layout, end: nat, b: nat, alloc: bool, a: nat)
    requires Tiling(m, end) && Tags(w, m, end, b) && b in m && a in m
    ensures RetagFits(w, b, m[b].size)
    ensures TagOk(Retagged(w, b, m[b].size, alloc), m[b := Block(m[b].size, alloc)], a)
  {
    assert Follows(m, end, a);
    RetaggedWords(w, m, end, b, alloc, a);
    RetaggedWords(w, m, end, b, alloc, Next(m, a) - 1);
    assert a != b ==> TagOk(w, m, a);
  }

  lemma RetagPrevBitOk(w: seq<nat>, m: Layout, end: nat, b: nat, alloc: bool, a: nat)
    requires Tiling(m, end) && Tags(w, m, end, b) && b in m && a in m
    ensures RetagFits(w, b, m[b].size)
    ensures PrevBitOk(Retagged(w, b, m[b].size, alloc), m[b := Block(m[b].size, alloc)], a)
  {
    assert Follows(m, end, a) && PrevBitOk(w, m, a);
    RetaggedWords(w, m, end, b, alloc, Next(m, a));
  }

  lemma RetagKeepsTags(w: seq<nat>, m: Layout, end: nat, b: nat, alloc: bool)
    requires Tiling(m, end) && Tags(w, m, end, b) && b in m
    ensures RetagFits(w, b, m[b].size)
    ensures Tags(Retagged(w, b, m[b].size, alloc), m[b := Block(m[b].size, alloc)], end, 0)
  {
    NextTag(w, m, end, b);
    assert Follows(m, end, b);
    var w', m' := Retagged(w, b, m[b].size, alloc), m[b := Block(m[b].size, alloc)];
    forall a {:trigger TagOk(w', m', a)} | a in m'
      ensures TagOk(w', m', a)
    {
      RetagTagOk(w, m, end, b, alloc, a);
    }
    forall a {:trigger PrevBitOk(w', m', a)} | a in m'
      ensures PrevBitOk(w', m', a)
    {
      RetagPrevBitOk(w, m, end, b, alloc, a);
    }
    assert Next(m, b) in m ==> Follows(m, end, Next(m, b));
    RetaggedWords(w, m, end, b, alloc, FIRST);
    RetaggedWords(w, m, end, b, alloc, end);
  }

  lemma RetagKeepsPayload(w: seq<nat>, m: Layout, end: nat, b: nat, alloc: bool)
    requires Tiling(m, end) && Tags(w, m, end, b) && b in m
    ensures RetagFits(w, b, m[b].size)
    ensures Kept(m[b := Block(m[b].size, alloc)], w, Retagged(w, b, m[b].size, alloc))
  {
    NextTag(w, m, end, b);
    var w', m' := Retagged(w, b, m[b].size, alloc), m[b := Block(m[b].size, alloc)];
    forall a: nat, k: nat {:trigger PayloadWord(m', a, k)} | PayloadWord(m', a, k)
      ensures k < |w| && w'[k] == w[k]
    {
      assert Follows(m, end, a);
      RetaggedWords(w, m, end, b, alloc, k);
    }
  }

  /** A write that misses all link words. */
  lemma NonLinkWrites(w: seq<nat>, w': seq<nat>, f: Listed)
    requires Links(w, f) && |w'| == |w|
    requires forall n: nat :: IsNode(f, n) ==> w'[n + 2] == w[n + 2]
    requires forall a :: a in f ==> w'[a + 1] == w[a + 1]
    ensures Links(w', f)
  {
    forall n {:trigger SuccOk(w', f, n)} | IsNode(f, n)
      ensures SuccOk(w', f, n)
    {
      assert SuccOk(w, f, n);
    }
    forall n, b {:trigger Before(f, n, b)} | Before(f, n, b)
      ensures SuccNear(w', n, b)
    {
      assert SuccNear(w, n, b);
    }
    forall a {:trigger PredOk(w', f, a)} | a in f
      ensures PredOk(w', f, a)
    {
      assert PredOk(w, f, a);
    }
  }

  lemma RetagMissesLinks(w: seq<nat>, m: Layout, end: nat, b: nat, alloc: bool, n: nat)
    requires Tiling(m, end) && Tags(w, m, end, b) && b in m && (IsRoot(n) || n in m)
    ensures RetagFits(w, b, m[b].size) && n + 2 < |w|
    ensures var w' := Retagged(w, b, m[b].size, alloc);
      w'[n + 2] == w[n + 2] && (n in m ==> w'[n + 1] == w[n + 1])
  {
    hide Tags;
    assert FIRST <= end < |w| by { BlockTag(w, m, end, b, b); }
    assert n in m ==> Follows(m, end, n);
    RetaggedWords(w, m, end, b, alloc, n + 1);
    RetaggedWords(w, m, end, b, alloc, n + 2);
  }

  lemma RetagKeepsLinks(w: seq<nat>, m: Layout, end: nat, b: nat, alloc: bool, f: Listed)
    requires Tiling(m, end) && Tags(w, m, end, b) && b in m
    requires Links(w, f) && f.Keys <= m.Keys
    ensures RetagFits(w, b, m[b].size)
    ensures Links(Retagged(w, b, m[b].size, alloc), f)
  {
    hide Tiling, Tags, Retagged, RetagFits;
    NextTag(w, m, end, b);
    var w' := Retagged(w, b, m[b].size, alloc);
    forall n: nat | IsNode(f, n)
      ensures w'[n + 2] == w[n + 2] && (n in f ==> w'[n + 1] == w[n + 1])
    {
      RetagMissesLinks(w, m, end, b, alloc, n);
    }
    NonLinkWrites(w, w', f);
  }

  // ------------------------------------------- splitting and extending

  /** Memory after split has written the tags of the remainder. */
  function CutTagged(w: seq<nat>, l: nat, left: nat): (w': seq<nat>)
    requires 0 < left && l + left <= |w|
    ensures |w'| == |w|
  {
    w[l := Pack(left, true, false)][l + left - 1 := Pack(left, true, false)]
  }

  lemma CutTagOk(w: seq<nat>, m: Layout, end: nat, b: nat, n: nat, a: nat)
    requires Tiling(m, end) && Tags(w, m, end, b) && b in m && !m[b].alloc && b < |w|
    requires 4 <= n <= m[b].size - 4 && w[b] == Pack(n, PrevAlloc(w[b]), true)
    requires a in Cut(m, b, n)
    ensures Next(m, b) <= |w|
    ensures TagOk(CutTagged(w, b + n, m[b].size - n), Cut(m, b, n), a)
  {
    assert Follows(m, end, b);
    if a != b && a != b + n {
      assert TagOk(w, m, a) && Follows(m, end, a);
    }
  }

  lemma CutPrevBitOk(w: seq<nat>, m: Layout, end: nat, b: nat, n: nat, a: nat)
    requires Tiling(m, end) && Tags(w, m, end, b) && b in m && !m[b].alloc
    requires 4 <= n <= m[b].size - 4
    requires a in Cut(m, b, n)
    ensures Next(m, b) <= |w|
    ensures PrevBitOk(CutTagged(w, b + n, m[b].size - n), Cut(m, b, n), a)
  {
    assert Follows(m, end, b) && PrevBitOk(w, m, b);
    if a != b && a != b + n {
      assert PrevBitOk(w, m, a) && Follows(m, end, a);
    }
  }

  lemma CutKeepsTags(w: seq<nat>, m: Layout, end: nat, b: nat, n: nat)
    requires Tiling(m, end) && Tags(w, m, end, b) && b in m && !m[b].alloc && b < |w|
    requires 4 <= n <= m[b].size - 4 && w[b] == Pack(n, PrevAlloc(w[b]), true)
    ensures Next(m, b) <= |w|
    ensures Tags(CutTagged(w, b + n, m[b].size - n), Cut(m, b, n), end, 0)
  {
    assert Follows(m, end, b);
    var w', m' := CutTagged(w, b + n, m[b].size - n), Cut(m, b, n);
    forall a {:trigger TagOk(w', m', a)} | a in m'
      ensures TagOk(w', m', a)
    {
      CutTagOk(w, m, end, b, n, a);
    }
    forall a {:trigger PrevBitOk(w', m', a)} | a in m'
      ensures PrevBitOk(w', m', a)
    {
      CutPrevBitOk(w, m, end, b, n, a);
    }
  }

  /** The remainder's tags land in the part of b that is not allocated. */
  lemma CutKeepsPayload(w: seq<nat>, m: Layout, end: nat, b: nat, n: nat)
    requires Tiling(m, end) && b in m && 4 <= n <= m[b].size - 4 && end < |w|
    ensures Next(m, b) <= |w| && Kept(Cut(m, b, n), w, CutTagged(w, b + n, m[b].size - n))
  {
    assert Follows(m, end, b);
    var l, left := b + n, m[b].size - n;
    var w', m' := CutTagged(w, l, left), Cut(m, b, n);
    CutTiling(m, end, b, n);
    forall a: nat, k: nat {:trigger PayloadWord(m', a, k)} | PayloadWord(m', a, k)
      ensures k < |w| && w'[k] == w[k]
    {
      assert Follows(m', end, a);
    }
  }

  lemma CutKeepsLinks(w: seq<nat>, m: Layout, end: nat, b: nat, n: nat, f: Listed)
    requires Tiling(m, end) && b in m && 4 <= n <= m[b].size - 4 && end < |w|
    requires Links(w, f) && f.Keys <= m.Keys && b !in f
    ensures Next(m, b) <= |w| && Links(CutTagged(w, b + n, m[b].size - n), f)
  {
    assert Follows(m, end, b);
    var w' := CutTagged(w, b + n, m[b].size - n);
    assert forall a :: a in f ==> w'[a + 1] == w[a + 1] && w'[a + 2] == w[a + 2];
    NonLinkWrites(w, w', f);
  }

  /** Memory after mm_extend_heap has turned the epilogue into a block. */
  function Extended(w: seq<nat>, end: nat, n: nat, alloc: bool): (w': seq<nat>)
    requires 1 < n && end + n < |w|
    ensures |w'| == |w|
  {
    Tagged(w, end, n, alloc)[end + n := Pack(0, alloc, true)]
  }

  lemma FirstBlock(m: Layout, end: nat)
    requires Tiling(m, end)
    ensures end !in m && (m == map[] <==> FIRST == end) && (m != map[] ==> FIRST in m)
  {
    assert end in m ==> Follows(m, end, end);
    if a :| a in m {
      assert Follows(m, end, a);
    }
  }

  lemma ExtendFollows(m: Layout, end: nat, n: nat, alloc: bool, x: nat)
    requires Tiling(m, end) && 4 <= n && x in m
    ensures Next(m, x) <= end && Follows(m[end := Block(n, alloc)], end + n, x)
  {
    assert Follows(m, end, x);
  }

  lemma ExtendTiling(m: Layout, end: nat, n: nat, alloc: bool)
    requires Tiling(m, end) && 4 <= n
    ensures end !in m && Tiling(m[end := Block(n, alloc)], end + n)
  {
    var m' := m[end := Block(n, alloc)];
    FirstBlock(m, end);
    forall x {:trigger Follows(m', end + n, x)} | x in m'
      ensures Follows(m', end + n, x)
    {
      if x in m { ExtendFollows(m, end, n, alloc, x); }
    }
    forall x, y | x in m' && y in m' && x < y
      ensures Next(m', x) <= y
    {
      if x in m { ExtendFollows(m, end, n, alloc, x); }
      if y in m { BlockRange(m, end, y); }
    }
  }

  lemma ExtendTagOk(w: seq<nat>, m: Layout, end: nat, n: nat, alloc: bool, a: nat)
    requires Tiling(m, end) && Tags(w, m, end, 0) && 4 <= n && end + n < |w| && a in m[end := Block(n, alloc)] && a != 0
    ensures TagOk(Extended(w, end, n, alloc), m[end := Block(n, alloc)], a)
  {
    assert a != end ==> TagOk(w, m, a) && Follows(m, end, a);
  }

  lemma ExtendPrevBitOk(w: seq<nat>, m: Layout, end: nat, n: nat, alloc: bool, a: nat)
    requires Tiling(m, end) && Tags(w, m, end, 0) && 4 <= n && end + n < |w| && a in m[end := Block(n, alloc)]
    ensures PrevBitOk(Extended(w, end, n, alloc), m[end := Block(n, alloc)], a)
  {
    assert a != end ==> PrevBitOk(w, m, a) && Follows(m, end, a);
  }

  lemma ExtendKept(w: seq<nat>, m: Layout, end: nat, n: nat, alloc: bool)
    requires Tiling(m, end) && 4 <= n && end + n < |w|
    ensures Kept(m, w, Extended(w, end, n, alloc))
  {
    var w' := Extended(w, end, n, alloc);
    forall a: nat, k: nat {:trigger PayloadWord(m, a, k)} | PayloadWord(m, a, k)
      ensures k < |w| && w'[k] == w[k]
    {
      BlockRange(m, end, a);
    }
  }

  lemma ExtendKeeps(w: seq<nat>, m: Layout, end: nat, n: nat, alloc: bool)
    requires Tiling(m, end) && Tags(w, m, end, 0) && 4 <= n && end + n < |w|
    ensures Tags(Extended(w, end, n, alloc), m[end := Block(n, alloc)], end + n, 0)
    ensures Kept(m, w, Extended(w, end, n, alloc))
  {
    FirstBlock(m, end);
    ExtendKept(w, m, end, n, alloc);
    NoBlockAtZero(m, end);
    var w', m' := Extended(w, end, n, alloc), m[end := Block(n, alloc)];
    forall a {:trigger TagOk(w', m', a)} | a in m'
      ensures TagOk(w', m', a)
    {
      ExtendTagOk(w, m, end, n, alloc, a);
    }
    forall a {:trigger PrevBitOk(w', m', a)} | a in m'
      ensures PrevBitOk(w', m', a)
    {
      ExtendPrevBitOk(w, m, end, n, alloc, a);
    }
  }

  // ------------------------------------ list surgery leaves the rest alone

  lemma UnlinkKeepsRest(w: seq<nat>, m: Layout, end: nat, hole: nat, f: Listed, b: nat)
    requires Tiling(m, end) && Tags(w, m, end, hole)
    requires Links(w, f) && f.Keys <= m.Keys && b in f
    ensures w[b + 1] + 2 < |w| && w[b + 2] + 1 < |w|
    ensures Tags(Unlinked(w, b), m, end, hole) && Kept(m, w, Unlinked(w, b))
  {
    hide Tiling, Tags, Kept, Links;
    UnlinkBounds(w, f, b);
    var p, s := w[b + 1], w[b + 2];
    LinkWrite(w, m, end, hole, p, p + 2, s);
    if s != 0 {
      var w1 := w[p + 2 := s];
      LinkWrite(w1, m, end, hole, s, s + 1, p);
      KeptTrans(m, w, w1, w1[s + 1 := p]);
    }
  }

  lemma InsertKeepsRest(w: seq<nat>, m: Layout, end: nat, hole: nat, f: Listed, p: nat, b: nat, c: nat)
    requires Tiling(m, end) && Tags(w, m, end, hole)
    requires Links(w, f) && f.Keys <= m.Keys && Gap(w, f, p, b, c) && b in m
    ensures w[p + 2] + 1 < |w|
    ensures Tags(Inserted(w, p, b), m, end, hole) && Kept(m, w, Inserted(w, p, b))
  {
    hide Tiling, Tags, Kept, Links;
    InsertedWords(w, f, p, b, c);
    var s := w[p + 2];
    var w1 := w[p + 2 := b];
    LinkWrite(w, m, end, hole, p, p + 2, b);
    var w2 := w1[b + 1 := p];
    LinkWrite(w1, m, end, hole, b, b + 1, p);
    KeptTrans(m, w, w1, w2);
    var w3 := w2[b + 2 := s];
    LinkWrite(w2, m, end, hole, b, b + 2, s);
    KeptTrans(m, w, w2, w3);
    if s != 0 {
      LinkWrite(w3, m, end, hole, s, s + 1, b);
      KeptTrans(m, w, w3, w3[s + 1 := b]);
    }
  }

  /** There is room for a node at b among the listed blocks. */
  ghost predicate Spot(f: Listed, len: nat, b: nat) {
    && FIRST <= b && b + 3 <= len && b !in f
    && forall a :: a in f ==> a + 4 <= b || b + 4 <= a
  }

  /** The stores behind node p are within memory, and p's successor has p as pred. */
  lemma SpliceFits(w: seq<nat>, f: Listed, p: nat, b: nat)
    requires Links(w, f) && Spot(f, |w|, b) && IsNode(f, p) && p < b
    requires p + 2 < |w| && (w[p + 2] == 0 || b < w[p + 2])
    ensures w[p + 2] + 1 < |w| && p + 4 <= b
    ensures w[p + 2] != 0 ==> w[w[p + 2] + 1] == p && b + 4 <= w[p + 2]
  {
    var s := w[p + 2];
    assert SuccOk(w, f, p);
    if s != 0 {
      assert PredOk(w, f, s);
      SuccUnique(w, f, p, w[s + 1], s);
    }
  }

  lemma SpotOf(m: Layout, end: nat, f: Listed, len: nat, b: nat)
    requires Tiling(m, end) && f.Keys <= m.Keys && b in m && b !in f && end < len
    ensures Spot(f, len, b)
  {
    assert Follows(m, end, b);
  }

  /** A place in the middle of a block that is in no list. */
  lemma SpotWithin(m: Layout, end: nat, f: Listed, len: nat, b: nat, x: nat)
    requires Tiling(m, end) && f.Keys <= m.Keys && b in m && b !in f && end < len
    requires b <= x && x + 4 <= Next(m, b)
    ensures Spot(f, len, x)
  {
    assert Follows(m, end, b);
  }

  lemma SpotAbove(f: Listed, len: nat, x: nat)
    requires (forall a :: a in f ==> a + 4 <= x) && FIRST <= x && x + 3 <= len
    ensures Spot(f, len, x)
  {
  }

  lemma BlocksApart(m: Layout, end: nat, a: nat, b: nat)
    requires Tiling(m, end) && a in m && b in m && a != b
    ensures Next(m, a) <= b || Next(m, b) <= a
    ensures 4 <= m[a].size && Next(m, a) <= end
  {
    assert Follows(m, end, a);
  }

  /** Writing anywhere in a block that is in no list leaves the lists alone. */
  lemma InnerWrites(w: seq<nat>, w': seq<nat>, m: Layout, end: nat, b: nat, f: Listed)
    requires Tiling(m, end) && b in m && b !in f && Links(w, f) && f.Keys <= m.Keys
    requires OnlyWithin(w, w', b, Next(m, b))
    ensures Links(w', f)
  {
    hide Tiling, Links;
    LinksNodes(w, f);
    BlockRange(m, end, b);
    forall a | a in f
      ensures w'[a + 1] == w[a + 1] && w'[a + 2] == w[a + 2]
    {
      BlocksApart(m, end, a, b);
    }
    NonLinkWrites(w, w', f);
  }

  /** So does writing above all blocks. */
  lemma OuterWrites(w: seq<nat>, w': seq<nat>, f: Listed, end: nat)
    requires Links(w, f) && (forall a :: a in f ==> a + 4 <= end) && FIRST <= end
    requires OnlyWithin(w, w', end, |w|)
    ensures Links(w', f)
  {
    NonLinkWrites(w, w', f);
  }

  /** Inserting a block at its place: the successor's pred is the node found. */
  lemma InsertSound(w: seq<nat>, m: Layout, end: nat, f: Listed, p: nat, b: nat, c: nat)
    requires Tiling(m, end) && Tags(w, m, end, 0) && Links(w, f) && f.Keys <= m.Keys
    requires b in m && b !in f && IsNode(f, p) && ListOf(f, p) == c && c < SEG_NUM && p < b
    requires p + 2 < |w| && (w[p + 2] == 0 || b < w[p + 2])
    ensures w[p + 2] + 1 < |w| && b + 2 < |w| && p + 4 <= b
    ensures w[p + 2] != 0 ==> w[w[p + 2] + 1] == p && b + 4 <= w[p + 2]
    ensures var w' := Inserted(w, p, b);
      Tags(w', m, end, 0) && Links(w', f[b := c]) && Kept(m, w, w')
  {
    hide Tiling, Tags, Links, Kept, IsNode, ListOf, Inserted;
    BlockTag(w, m, end, 0, b);
    SpotOf(m, end, f, |w|, b);
    SpliceFits(w, f, p, b);
    assert Gap(w, f, p, b, c);
    InsertKeepsLinks(w, f, p, b, c);
    InsertKeepsRest(w, m, end, 0, f, p, b, c);
  }

  // ------------------------------------------------------------ coalescing

  /** A memory that is truthful about two adjacent blocks is truthful about
      their union but for its size. */
  lemma MergeTags(w: seq<nat>, m: Layout, end: nat, hole: nat, a: nat)
    requires Tiling(m, end) && Tags(w, m, end, hole) && (hole == 0 || hole == a)
    requires a in m && Next(m, a) in m && !m[Next(m, a)].alloc
    ensures Tags(w, Merge(m, a), end, a)
  {
    var m', b := Merge(m, a), Next(m, a);
    assert PrevBitOk(w, m, b);
    forall x {:trigger TagOk(w, m', x)} | x in m' && x != a
      ensures TagOk(w, m', x)
    {
      assert TagOk(w, m, x);
    }
    forall x {:trigger PrevBitOk(w, m', x)} | x in m'
      ensures PrevBitOk(w, m', x)
    {
      assert PrevBitOk(w, m, x);
    }
  }

  lemma MergeFiner(m: Layout, a: nat)
    requires a in m && !m[a].alloc && Next(m, a) in m && !m[Next(m, a)].alloc
    ensures Finer(m, Merge(m, a))
  {
    var m', b := Merge(m, a), Next(m, a);
    forall x: nat, k: nat {:trigger PayloadWord(m, x, k)} | PayloadWord(m, x, k)
      ensures HasPayload(m', k)
    {
      assert if x == b then PayloadWord(m', a, k) else PayloadWord(m', x, k);
    }
  }

  lemma MergeLive(m: Layout, a: nat)
    requires a in m && !m[a].alloc && Next(m, a) in m && !m[Next(m, a)].alloc
    ensures Live(Merge(m, a)) == Live(m)
  {
    var m', b := Merge(m, a), Next(m, a);
    assert forall x :: x in Live(m') <==> x in Live(m);
  }

  lemma MergeFree(m: Layout, a: nat)
    requires a in m && !m[a].alloc && Next(m, a) in m && !m[Next(m, a)].alloc
    ensures FreeLists(Merge(m, a)) - {a} == FreeLists(m) - {a} - {Next(m, a)}
  {
    hide ClassOf;
    var m', b := Merge(m, a), Next(m, a);
    var f, f' := FreeLists(m) - {a} - {b}, FreeLists(m') - {a};
    assert forall x :: x in f' <==> x in f;
  }

  lemma MergeAligned(m: Layout, a: nat)
    requires Aligned(m) && a in m && Next(m, a) in m
    ensures Aligned(Merge(m, a))
  {
  }

  /** No two free blocks are adjacent, block x left out of account. */
  ghost predicate CoalescedBut(m: Layout, x: nat) {
    forall a {:trigger Next(m, a)} :: a in m && !m[a].alloc && a != x && Next(m, a) in m && Next(m, a) != x ==> m[Next(m, a)].alloc
  }

  /** The block below x is allocated, or there is none. */
  ghost predicate AllocBelow(m: Layout, x: nat) {
    forall a {:trigger Next(m, a)} :: a in m && Next(m, a) == x ==> m[a].alloc
  }

  lemma MergeCoalesced(m: Layout, end: nat, a: nat, x: nat)
    requires Tiling(m, end) && a in m && Next(m, a) in m && CoalescedBut(m, x)
    requires !m[a].alloc && !m[Next(m, a)].alloc && (x == a || x == Next(m, a))
    ensures CoalescedBut(Merge(m, a), a)
    ensures x == a && AllocBelow(m, a) ==> AllocBelow(Merge(m, a), a)
    ensures x != a ==> AllocBelow(Merge(m, a), a)
    ensures x == a && Next(Merge(m, a), a) in m ==> m[Next(Merge(m, a), a)].alloc
  {
    var m', b := Merge(m, a), Next(m, a);
    forall y {:trigger Next(m', y)} | y in m'
      ensures y != a ==> Next(m', y) == Next(m, y) && Next(m, y) != b
    {
      assert y in m && y != b;
      assert y != a ==> Next(m, y) <= a || Next(m, b) <= y;
    }
    assert Next(m', a) == Next(m, b);
  }

  /** Joining the blocks at a and Next(m, a) once neither is in a list;
      x, the block just freed, is one of them. */
  lemma MergeSound(w: seq<nat>, m: Layout, end: nat, hole: nat, f: Listed, a: nat, x: nat)
    requires Tiling(m, end) && Tags(w, m, end, hole) && (hole == 0 || hole == a)
    requires a in m && !m[a].alloc && Next(m, a) in m && !m[Next(m, a)].alloc
    requires CoalescedBut(m, x) && (x == a || x == Next(m, a))
    requires f == FreeLists(m) - {a} - {Next(m, a)}
    ensures var m' := Merge(m, a);
      && Tiling(m', end) && Tags(w, m', end, a) && (Aligned(m) ==> Aligned(m'))
      && f.Keys <= m'.Keys && f == FreeLists(m') - {a} && Live(m') == Live(m)
      && a in m' && m'[a] == Block(m[a].size + m[Next(m, a)].size, false)
      && CoalescedBut(m', a) && (x == a && AllocBelow(m, a) ==> AllocBelow(m', a))
      && (x != a ==> AllocBelow(m', a))
      && (x == a && Next(m', a) in m' ==> m'[Next(m', a)].alloc)
      && Finer(m, m')
  {
    hide Tiling, Tags, CoalescedBut, AllocBelow, Aligned, ClassOf, Finer;
    MergeFiner(m, a);
    MergeTiling(m, end, a);
    MergeTags(w, m, end, hole, a);
    MergeLive(m, a);
    MergeFree(m, a);
    MergeCoalesced(m, end, a, x);
    if Aligned(m) { MergeAligned(m, a); }
  }

  /** The prev-alloc bit and the footer below x lead to a free block there. */
  lemma FreeBelow(w: seq<nat>, m: Layout, end: nat, x: nat) returns (p: nat)
    requires Tiling(m, end) && Tags(w, m, end, 0) && x in m && x < |w| && !PrevAlloc(w[x])
    ensures 0 < x && Words(w[x - 1]) <= x && p == x - Words(w[x - 1])
    ensures p in m && !m[p].alloc && Next(m, p) == x && m[p].size == Words(w[x - 1])
  {
    p := BlockBelow(m, end, x);
    BlockTag(w, m, end, 0, p);
  }

  lemma PrevBitTruth(w: seq<nat>, m: Layout, end: nat, hole: nat, x: nat)
    requires Tags(w, m, end, hole) && x < |w| && PrevAlloc(w[x])
    ensures AllocBelow(m, x)
  {
    forall a {:trigger Next(m, a)} | a in m && Next(m, a) == x
      ensures m[a].alloc
    {
      assert PrevBitOk(w, m, a);
    }
  }

  lemma RetagTiling(m: Layout, end: nat, b: nat, alloc: bool)
    requires Tiling(m, end) && b in m
    ensures Tiling(m[b := Block(m[b].size, alloc)], end)
  {
    var m' := m[b := Block(m[b].size, alloc)];
    forall x {:trigger Follows(m', end, x)} | x in m'
      ensures Follows(m', end, x)
    {
      assert Follows(m, end, x);
    }
  }

  lemma NoBlockAtZero(m: Layout, end: nat)
    requires Tiling(m, end)
    ensures 0 !in m
  {
  }

  lemma FinerRefl(m: Layout)
    ensures Finer(m, m)
  {
  }

  lemma CoalescedAround(m: Layout, x: nat)
    requires x in m && !m[x].alloc && CoalescedBut(m, x) && AllocBelow(m, x)
    requires Next(m, x) in m ==> m[Next(m, x)].alloc
    ensures Coalesced(m)
  {
  }

  lemma KeptRefl(m: Layout, w: seq<nat>, end: nat)
    requires Tiling(m, end) && end < |w|
    ensures Kept(m, w, w)
  {
    forall a: nat, k: nat {:trigger PayloadWord(m, a, k)} | PayloadWord(m, a, k)
      ensures k < |w|
    {
      assert Follows(m, end, a);
    }
  }

  lemma InFreeLists(m: Layout, a: nat)
    ensures a in FreeLists(m) <==> a in m && !m[a].alloc
    ensures a in Live(m) <==> a in m && m[a].alloc
  {
  }

  /** Clearing the alloc flag of a live block. */
  lemma MarkFree(m: Layout, b: nat)
    requires b in m && m[b].alloc && Coalesced(m)
    ensures var m' := m[b := Block(m[b].size, false)];
      && Live(m') == Live(m) - {b} && FreeLists(m') - {b} == FreeLists(m)
      && CoalescedBut(m', b) && (Aligned(m) ==> Aligned(m'))
  {
    var m' := m[b := Block(m[b].size, false)];
    MarkFreeLive(m, b);
    MarkFreeLists(m, b);
    assert forall a {:trigger Next(m', a)} :: a in m ==> Next(m', a) == Next(m, a) by {
      hide Coalesced, CoalescedBut, Live, FreeLists, Aligned;
    }
    assert CoalescedBut(m', b) by {
      hide Live, FreeLists, Aligned;
    }
    assert Aligned(m) ==> Aligned(m') by {
      hide Live, FreeLists, Coalesced, CoalescedBut;
    }
  }

  lemma MarkFreeLive(m: Layout, b: nat)
    requires b in m && m[b].alloc
    ensures Live(m[b := Block(m[b].size, false)]) == Live(m) - {b}
  {
    var m' := m[b := Block(m[b].size, false)];
    assert forall x :: x in Live(m') <==> x in Live(m) - {b};
  }

  lemma MarkFreeLists(m: Layout, b: nat)
    requires b in m && m[b].alloc
    ensures FreeLists(m[b := Block(m[b].size, false)]) - {b} == FreeLists(m)
  {
    hide ClassOf;
    var m' := m[b := Block(m[b].size, false)];
    assert forall x :: x in FreeLists(m') - {b} <==> x in FreeLists(m);
  }

  // -------------------------------------------------------- allocating

  /** Writing a new size into the header of the hole. */
  lemma HoleWrite(w: seq<nat>, m: Layout, end: nat, b: nat, f: Listed, n: nat)
    requires Tiling(m, end) && Tags(w, m, end, b) && b in m && b < |w|
    requires Links(w, f) && f.Keys <= m.Keys
    ensures var w' := w[b := Pack(n, PrevAlloc(w[b]), true)];
      Tags(w', m, end, b) && Links(w', f) && Kept(m, w, w')
  {
    var w' := w[b := Pack(n, PrevAlloc(w[b]), true)];
    assert Follows(m, end, b);
    forall x {:trigger TagOk(w', m, x)} | x in m && x != b
      ensures TagOk(w', m, x)
    {
      assert TagOk(w, m, x) && Follows(m, end, x);
    }
    forall x {:trigger PrevBitOk(w', m, x)} | x in m
      ensures PrevBitOk(w', m, x)
    {
      assert PrevBitOk(w, m, x);
    }
    forall x: nat, k: nat {:trigger PayloadWord(m, x, k)} | PayloadWord(m, x, k)
      ensures k < |w| && w'[k] == w[k]
    {
      assert Follows(m, end, x);
    }
    NonLinkWrites(w, w', f);
  }

  lemma CutFiner(m: Layout, end: nat, b: nat, n: nat)
    requires Tiling(m, end) && b in m && !m[b].alloc && 4 <= n <= m[b].size - 4
    ensures Finer(Cut(m, b, n), m)
  {
    CutTiling(m, end, b, n);
    var m' := Cut(m, b, n);
    forall x: nat, k: nat {:trigger PayloadWord(m', x, k)} | PayloadWord(m', x, k)
      ensures HasPayload(m, k)
    {
      assert if x == b || x == b + n then PayloadWord(m, b, k) else PayloadWord(m, x, k);
    }
  }

  lemma CutLive(m: Layout, b: nat, n: nat)
    requires b in m && !m[b].alloc && 0 < n < m[b].size && b + n !in m
    ensures Live(Cut(m, b, n)) == Live(m)[b := n]
  {
    assert forall x :: x in Live(Cut(m, b, n)) <==> x in Live(m)[b := n];
  }

  lemma CutLists(m: Layout, b: nat, n: nat)
    requires b in m && !m[b].alloc && 0 < n < m[b].size && b + n !in m
    ensures FreeLists(Cut(m, b, n)) == (FreeLists(m) - {b})[b + n := ClassOf(m[b].size - n)]
  {
    hide ClassOf;
    var f := (FreeLists(m) - {b})[b + n := ClassOf(m[b].size - n)];
    assert forall x :: x in FreeLists(Cut(m, b, n)) <==> x in f;
  }

  lemma CutCoalesced(m: Layout, end: nat, b: nat, n: nat)
    requires Tiling(m, end) && b in m && !m[b].alloc && Coalesced(m) && 4 <= n <= m[b].size - 4
    ensures Coalesced(Cut(m, b, n))
  {
    CutTiling(m, end, b, n);
    var m' := Cut(m, b, n);
    assert Next(m', b + n) == Next(m, b);
    forall a {:trigger Next(m', a)} | a in m && a != b
      ensures Next(m', a) == Next(m, a) && (Next(m, a) in m ==> Next(m, a) != b + n)
    {
      assert Follows(m, end, a);
    }
    assert forall a {:trigger Next(m', a)} :: a in m && a != b ==> Follows(m, end, a);
  }

  lemma CutAligned(m: Layout, b: nat, n: nat)
    requires Aligned(m) && b in m && n % 2 == 0 && 0 < n < m[b].size
    ensures Aligned(Cut(m, b, n))
  {
  }

  /** Setting the alloc flag of a free block. */
  lemma TakeLive(m: Layout, b: nat)
    requires b in m && !m[b].alloc
    ensures Live(m[b := Block(m[b].size, true)]) == Live(m)[b := m[b].size]
  {
    var m' := m[b := Block(m[b].size, true)];
    assert forall x :: x in Live(m') <==> x in Live(m)[b := m[b].size];
  }

  lemma TakeLists(m: Layout, b: nat)
    requires b in m && !m[b].alloc
    ensures FreeLists(m[b := Block(m[b].size, true)]) == FreeLists(m) - {b}
  {
    hide ClassOf;
    var m' := m[b := Block(m[b].size, true)];
    assert forall x :: x in FreeLists(m') <==> x in FreeLists(m) - {b};
  }

  lemma TakeCoalesced(m: Layout, b: nat)
    requires Coalesced(m) && b in m
    ensures Coalesced(m[b := Block(m[b].size, true)])
  {
    var m' := m[b := Block(m[b].size, true)];
    assert forall a {:trigger Next(m', a)} :: a in m ==> Next(m', a) == Next(m, a);
  }

  lemma TakeAligned(m: Layout, b: nat)
    requires Aligned(m) && b in m
    ensures Aligned(m[b := Block(m[b].size, true)])
  {
  }

  // ---------------------------------------------------------- extending

  lemma RootsBelow(m: Layout, end: nat)
    requires Tiling(m, end)
    ensures FIRST <= end
  {
  }

  lemma BlockRange(m: Layout, end: nat, a: nat)
    requires Tiling(m, end) && a in m
    ensures FIRST <= a && 4 <= m[a].size && Next(m, a) <= end
  {
    assert Follows(m, end, a);
  }

  lemma ExtendKeepsLinks(w: seq<nat>, m: Layout, end: nat, n: nat, alloc: bool, f: Listed)
    requires Tiling(m, end) && 4 <= n && end + n < |w|
    requires Links(w, f) && f.Keys <= m.Keys
    ensures Links(Extended(w, end, n, alloc), f)
  {
    hide Tiling;
    var w' := Extended(w, end, n, alloc);
    RootsBelow(m, end);
    forall a | IsNode(f, a)
      ensures w'[a + 2] == w[a + 2] && (a in f ==> w'[a + 1] == w[a + 1])
    {
      if a in f { BlockRange(m, end, a); }
    }
    NonLinkWrites(w, w', f);
  }

  lemma ExtendLive(m: Layout, e: nat, n: nat, alloc: bool)
    requires e !in m
    ensures Live(m[e := Block(n, alloc)]) == if alloc then Live(m)[e := n] else Live(m)
  {
    var m' := m[e := Block(n, alloc)];
    assert forall x :: x in Live(m') <==> x in if alloc then Live(m)[e := n] else Live(m);
  }

  lemma ExtendLists(m: Layout, e: nat, n: nat, alloc: bool)
    requires e !in m
    ensures FreeLists(m[e := Block(n, alloc)]) == if alloc then FreeLists(m) else FreeLists(m)[e := ClassOf(n)]
  {
    hide ClassOf;
    var m' := m[e := Block(n, alloc)];
    assert forall x :: x in FreeLists(m') <==> x in if alloc then FreeLists(m) else FreeLists(m)[e := ClassOf(n)];
  }

  lemma ExtendCoalesced(m: Layout, end: nat, n: nat, alloc: bool)
    requires Tiling(m, end) && Coalesced(m) && (alloc || AllocBelow(m, end)) && 0 < n
    ensures Coalesced(m[end := Block(n, alloc)])
  {
    var m' := m[end := Block(n, alloc)];
    assert forall a {:trigger Next(m', a)} :: a in m && a != end ==> Next(m', a) == Next(m, a);
    forall a | a in m
      ensures a < end
    {
      assert Follows(m, end, a);
    }
  }

  lemma ExtendAligned(m: Layout, end: nat, n: nat, alloc: bool)
    requires Aligned(m) && end % 2 == 1 && n % 2 == 0
    ensures Aligned(m[end := Block(n, alloc)])
  {
  }

  /** All that split needs to know about the remainder's tags. */
  lemma CutWords(m: Layout, end: nat, b: nat, n: nat, w: seq<nat>, f: Listed)
    requires Tiling(m, end) && Tags(w, m, end, b) && b in m && !m[b].alloc && b < |w|
    requires 4 <= n <= m[b].size - 4 && w[b] == Pack(n, PrevAlloc(w[b]), true)
    requires Links(w, f) && f == FreeLists(m) - {b}
    ensures b + n !in m && Next(m, b) < |w| && 0 < b + n
    ensures var m', w' := Cut(m, b, n), CutTagged(w, b + n, m[b].size - n);
      && Tiling(m', end) && Tags(w', m', end, 0) && Links(w', f) && Kept(m', w, w') && Finer(m', m)
      && f.Keys <= m'.Keys && b + n !in f && FreeLists(m') == f[b + n := ClassOf(m[b].size - n)]
  {
    hide Tiling, Tags, Links, Kept, Finer;
    BlockTag(w, m, end, b, b);
    CutTiling(m, end, b, n);
    CutKeepsTags(w, m, end, b, n);
    CutKeepsPayload(w, m, end, b, n);
    CutKeepsLinks(w, m, end, b, n, f);
    CutFiner(m, end, b, n);
    CutLists(m, b, n);
  }

  lemma CutKept(m: Layout, end: nat, b: nat, n: nat, w: seq<nat>, w': seq<nat>)
    requires Tiling(m, end) && b in m && !m[b].alloc && 4 <= n <= m[b].size - 4 && Kept(m, w, w')
    ensures Kept(Cut(m, b, n), w, w')
  {
    hide Tiling, Kept, Cut;
    CutFiner(m, end, b, n);
    FinerKept(Cut(m, b, n), m, w, w');
  }

  lemma CutHasRest(m: Layout, b: nat, n: nat)
    requires b in m && n < m[b].size
    ensures b + n in Cut(m, b, n) && Cut(m, b, n)[b + n] == Block(m[b].size - n, false)
  {
  }

  /** The blocks after `words` words of free block b are allocated: the rest
      is cut off when it is more than 32 bytes. */
  ghost function Placed(m: Layout, b: nat, words: nat): Layout
    requires b in m && 0 < words <= m[b].size
  {
    if m[b].size - words > 4 then Cut(m, b, words) else m[b := Block(m[b].size, true)]
  }

  /** The words an allocation of `words` words takes out of a block of `size`. */
  function Granted(size: nat, words: nat): nat
    requires words <= size
  {
    if size - words > 4 then words else size
  }

  /** A remainder becomes a free block exactly if it has more than 32 bytes;
      otherwise the block is handed out whole. */
  lemma PlacedExactly(m: Layout, end: nat, b: nat, words: nat)
    requires Tiling(m, end) && b in m && 0 < words <= m[b].size
    ensures var m', rest := Placed(m, b, words), m[b].size - words;
      && b in m' && m'[b].alloc
      && (b + words in m' && !m'[b + words].alloc && Next(m', b + words) == Next(m, b) <==> 8 * rest > 32)
      && (m'[b].size == m[b].size <==> rest == 0 || 8 * rest <= 32)
  {
  }

  lemma PlacedBlock(m: Layout, b: nat, words: nat)
    requires b in m && 0 < words <= m[b].size
    ensures b in Placed(m, b, words) && Placed(m, b, words)[b] == Block(Granted(m[b].size, words), true)
  {
  }

  lemma PlacedFacts(m: Layout, end: nat, b: nat, words: nat)
    requires Tiling(m, end) && Aligned(m) && Coalesced(m)
    requires b in m && !m[b].alloc && 4 <= words <= m[b].size && words % 2 == 0
    ensures var m' := Placed(m, b, words);
      && Aligned(m') && Coalesced(m') && b in m' && m'[b] == Block(Granted(m[b].size, words), true)
      && Live(m') == Live(m)[b := Granted(m[b].size, words)]
  {
    hide Tiling, Aligned, Coalesced;
    if m[b].size - words > 4 {
      CutFresh(m, end, b, words);
      CutAligned(m, b, words);
      CutCoalesced(m, end, b, words);
      CutLive(m, b, words);
    } else {
      TakeAligned(m, b);
      TakeCoalesced(m, b);
      TakeLive(m, b);
    }
  }

  /** All that mm_extend_heap needs to know about turning the epilogue into a block. */
  lemma ExtendSound(w: seq<nat>, m: Layout, end: nat, n: nat, alloc: bool, f: Listed)
    requires Tiling(m, end) && Tags(w, m, end, 0) && Links(w, f) && f.Keys <= m.Keys
    requires 4 <= n && end + n < |w|
    ensures end !in m
    ensures var m', w' := m[end := Block(n, alloc)], Extended(w, end, n, alloc);
      && Tiling(m', end + n) && Tags(w', m', end + n, 0) && Links(w', f) && f.Keys <= m'.Keys
      && Kept(m, w, w') && (alloc ==> AllocBelow(m', end + n))
  {
    hide Tags, Links, Kept;
    ExtendTiling(m, end, n, alloc);
    ExtendKeeps(w, m, end, n, alloc);
    ExtendKeepsLinks(w, m, end, n, alloc, f);
    var m' := m[end := Block(n, alloc)];
    forall a {:trigger Next(m', a)} | a in m' && a != end
      ensures Next(m', a) <= end
    {
      assert Follows(m, end, a);
    }
  }

  /** Free block b can hold `words` words. */
  ghost predicate IsFit(m: Layout, words: nat, b: nat) {
    b in m && !m[b].alloc && words <= m[b].size
  }

  /** b is the lowest fitting block of the lowest list that has one. */
  ghost predicate FirstFit(m: Layout, words: nat, b: nat) {
    && IsFit(m, words, b)
    && forall x :: IsFit(m, words, x) ==>
         ClassOf(m[b].size) < ClassOf(m[x].size) || (ClassOf(m[b].size) == ClassOf(m[x].size) && b <= x)
  }

  /** From a node of list i, succ skips no block of that list. */
  lemma NextOnList(w: seq<nat>, m: Layout, f: Listed, n: nat, i: nat)
    requires Links(w, f) && f == FreeLists(m) && IsNode(f, n) && ListOf(f, n) == i
    ensures n + 2 < |w|
    ensures w[n + 2] != 0 ==> n < w[n + 2] < |w| && w[n + 2] in m && !m[w[n + 2]].alloc && ClassOf(m[w[n + 2]].size) == i
    ensures forall b :: b in m && !m[b].alloc && ClassOf(m[b].size) == i && n < b ==> 0 < w[n + 2] <= b
  {
    hide ClassOf;
    assert SuccOk(w, f, n);
    forall b | b in m && !m[b].alloc && ClassOf(m[b].size) == i && n < b
      ensures 0 < w[n + 2] <= b
    {
      assert Before(f, n, b);
    }
  }

  lemma RootOnList(f: Listed, len: nat, i: nat)
    requires Nodes(f, len) && i < SEG_NUM
    ensures IsNode(f, 1 + i * ROOT_WORDS) && ListOf(f, 1 + i * ROOT_WORDS) == i
  {
  }

  lemma FreeOnList(m: Layout, b: nat)
    requires b in m && !m[b].alloc
    ensures IsNode(FreeLists(m), b) && ListOf(FreeLists(m), b) == ClassOf(m[b].size)
  {
  }

  lemma FitClass(m: Layout, words: nat)
    ensures forall b :: IsFit(m, words, b) ==> ClassOf(words) <= ClassOf(m[b].size) < SEG_NUM
  {
    forall b | IsFit(m, words, b)
      ensures ClassOf(words) <= ClassOf(m[b].size)
    {
      ClassOfMonotone(words, m[b].size);
    }
  }

  ghost predicate HasFit(m: Layout, words: nat) {
    exists b :: IsFit(m, words, b)
  }

  lemma FitsMore(m: Layout, words: nat)
    ensures words <= 4 && HasFit(m, 4) ==> HasFit(m, words)
  {
    if b :| IsFit(m, 4, b) {
      assert words <= 4 ==> IsFit(m, words, b);
    }
  }

  // -------------------------------------------------- what callers can see

  ghost predicate LiveWord(live: map<nat, nat>, a: nat, k: nat) {
    a in live && a + 3 <= k < a + live[a]
  }

  /** Not a word of the payloads of these allocated blocks differs. */
  ghost predicate PayloadsKept(live: map<nat, nat>, w: seq<nat>, w': seq<nat>) {
    && |w| == |w'|
    && forall a: nat, k: nat {:trigger LiveWord(live, a, k)} :: LiveWord(live, a, k) ==> k < |w| && w'[k] == w[k]
  }

  lemma LivePayloadsKept(m: Layout, live: map<nat, nat>, w: seq<nat>, w': seq<nat>)
    requires Kept(m, w, w') && (forall a :: a in live ==> a in m && m[a] == Block(live[a], true))
    ensures PayloadsKept(live, w, w')
  {
    forall a: nat, k: nat {:trigger LiveWord(live, a, k)} | LiveWord(live, a, k)
      ensures k < |w| && w'[k] == w[k]
    {
      assert PayloadWord(m, a, k);
    }
  }

  lemma PayloadsKeptTrans(live: map<nat, nat>, w0: seq<nat>, w1: seq<nat>, w2: seq<nat>)
    requires PayloadsKept(live, w0, w1) && PayloadsKept(live, w1, w2)
    ensures PayloadsKept(live, w0, w2)
  {
  }

  /** Block ptr - 3 has been handed out for a request of `size` bytes: its
      payload is 16-byte aligned, in the heap, large enough with less than 16
      bytes of rounding and at most 32 bytes of slack, and apart from every
      payload that was live before. */
  ghost predicate HandedOut(m: Layout, m': Layout, end: nat, ptr: nat, size: nat) {
    && ptr >= 3 && ptr % 2 == 0 && ptr - 3 in m' && ptr - 3 !in Live(m)
    && RequestWords(size) <= m'[ptr - 3].size <= RequestWords(size) + 4
    && size <= 8 * (m'[ptr - 3].size - 3)
    && Next(m', ptr - 3) <= end
    && Live(m') == Live(m)[ptr - 3 := m'[ptr - 3].size]
    && forall a :: a in Live(m) ==> a + Live(m)[a] <= ptr - 3 || Next(m', ptr - 3) <= a
  }

  lemma HandedOutFacts(m: Layout, m': Layout, end: nat, ptr: nat, size: nat)
    requires Tiling(m', end) && Aligned(m') && ptr >= 3 && ptr - 3 in m' && ptr - 3 !in Live(m)
    requires RequestWords(size) <= m'[ptr - 3].size <= RequestWords(size) + 4
    requires Live(m') == Live(m)[ptr - 3 := m'[ptr - 3].size]
    ensures HandedOut(m, m', end, ptr, size)
  {
    hide Tiling, Live;
    LiveInLayout(m');
    BlockRange(m', end, ptr - 3);
    forall a | a in Live(m)
      ensures a + Live(m)[a] <= ptr - 3 || Next(m', ptr - 3) <= a
    {
      BlocksApart(m', end, a, ptr - 3);
    }
  }

  lemma AlignedSlack(m: Layout, b: nat, words: nat)
    requires Aligned(m) && b in m && words <= m[b].size && words % 2 == 0
    ensures words <= Granted(m[b].size, words) <= words + 4
  {
  }

  /** Serving a request from free block b. */
  lemma PlacedHandedOut(w: seq<nat>, w': seq<nat>, m: Layout, end: nat, b: nat, size: nat)
    requires Tiling(m, end) && Aligned(m) && Coalesced(m) && IsFit(m, RequestWords(size), b)
    requires Tiling(Placed(m, b, RequestWords(size)), end) && Kept(Placed(m, b, RequestWords(size)), w, w')
    ensures var m' := Placed(m, b, RequestWords(size));
      Aligned(m') && Coalesced(m') && HandedOut(m, m', end, b + 3, size) && PayloadsKept(Live(m), w, w')
  {
    hide Tiling, Coalesced, Placed, HandedOut, Kept, PayloadsKept;
    var n := RequestWords(size);
    var m' := Placed(m, b, n);
    PlacedFacts(m, end, b, n);
    InFreeLists(m, b);
    AlignedSlack(m, b, n);
    HandedOutFacts(m, m', end, b + 3, size);
    forall a | a in Live(m)
      ensures a in m' && m'[a] == Block(Live(m)[a], true)
    {
      assert a in Live(m');
    }
    LivePayloadsKept(m', Live(m), w, w');
  }

  lemma ExtendFacts(m: Layout, end: nat, n: nat, alloc: bool)
    requires Tiling(m, end) && Aligned(m) && Coalesced(m) && (alloc || AllocBelow(m, end)) && end !in m
    requires end % 2 == 1 && n % 2 == 0 && 4 <= n
    ensures var m' := m[end := Block(n, alloc)];
      && Aligned(m') && Coalesced(m')
      && Live(m') == (if alloc then Live(m)[end := n] else Live(m))
      && FreeLists(m') == (if alloc then FreeLists(m) else FreeLists(m)[end := ClassOf(n)])
  {
    hide Tiling, Aligned, Coalesced, AllocBelow;
    ExtendAligned(m, end, n, alloc);
    ExtendCoalesced(m, end, n, alloc);
    ExtendLive(m, end, n, alloc);
    ExtendLists(m, end, n, alloc);
  }

  lemma LiveInLayout(m: Layout)
    ensures forall a :: a in Live(m) ==> a in m && m[a] == Block(Live(m)[a], true)
  {
  }

  lemma EndNotLive(m: Layout, end: nat)
    requires end !in m
    ensures end !in Live(m)
  {
  }

  lemma ExtendFiner(m: Layout, end: nat, n: nat)
    requires end !in m
    ensures Finer(m, m[end := Block(n, false)])
  {
    var m' := m[end := Block(n, false)];
    assert forall a: nat, k: nat {:trigger PayloadWord(m, a, k)} :: PayloadWord(m, a, k) ==> PayloadWord(m', a, k);
  }

  lemma PayloadsKeptRefl(m: Layout, end: nat, w: seq<nat>)
    requires Tiling(m, end) && end < |w|
    ensures PayloadsKept(Live(m), w, w)
  {
    KeptRefl(m, w, end);
    LivePayloadsKept(m, Live(m), w, w);
  }

  /** A heap that holds nothing but the roots and the epilogue. */
  lemma EmptyHeap(w: seq<nat>)
    requires FIRST < |w| && w[FIRST] == Pack(0, true, true)
    requires forall i :: 0 <= i < SEG_NUM ==> w[ROOT_WORDS * i + 3] == 0
    ensures Tiling(map[], FIRST) && Tags(w, map[], FIRST, 0) && Links(w, map[])
    ensures Aligned(map[]) && Coalesced(map[]) && FreeLists(map[]) == map[] && Live(map[]) == map[]
  {
    forall n: nat {:trigger SuccOk(w, map[], n)} | IsNode(map[], n)
      ensures SuccOk(w, map[], n)
    {
      assert n + 2 == ROOT_WORDS * (n / 4) + 3;
    }
  }

  // -------------------------------------------------------- reallocating

  /** w' differs from w in words lo..hi-1 at most. */
  ghost predicate OnlyWithin(w: seq<nat>, w': seq<nat>, lo: nat, hi: nat) {
    |w| == |w'| && forall k :: 0 <= k < |w| && (k < lo || hi <= k) ==> w'[k] == w[k]
  }

  /** Filling the payload of block b spoils at most b's own footer. */
  lemma FillTags(w: seq<nat>, w': seq<nat>, m: Layout, end: nat, b: nat)
    requires Tiling(m, end) && Tags(w, m, end, b) && b in m
    requires OnlyWithin(w, w', b + 3, Next(m, b))
    ensures Tags(w', m, end, b)
  {
    assert Follows(m, end, b);
    forall x {:trigger TagOk(w', m, x)} | x in m && x != b
      ensures TagOk(w', m, x)
    {
      assert TagOk(w, m, x) && Follows(m, end, x);
    }
    forall x {:trigger PrevBitOk(w', m, x)} | x in m
      ensures PrevBitOk(w', m, x)
    {
      assert PrevBitOk(w, m, x) && Follows(m, end, x);
    }
  }

  lemma FillLinks(w: seq<nat>, w': seq<nat>, m: Layout, end: nat, b: nat, f: Listed)
    requires Tiling(m, end) && b in m && Next(m, b) <= |w|
    requires Links(w, f) && f.Keys <= m.Keys && OnlyWithin(w, w', b + 3, Next(m, b))
    ensures Links(w', f)
  {
    assert forall a :: a in f ==> w'[a + 1] == w[a + 1] && w'[a + 2] == w[a + 2];
    NonLinkWrites(w, w', f);
  }

  lemma FillPayloads(w: seq<nat>, w': seq<nat>, m: Layout, end: nat, b: nat, live: map<nat, nat>)
    requires Tiling(m, end) && end < |w| && b in m && OnlyWithin(w, w', b + 3, Next(m, b))
    requires forall a :: a in live ==> a != b && a in m && m[a] == Block(live[a], true)
    ensures PayloadsKept(live, w, w')
  {
    forall a: nat, k: nat {:trigger LiveWord(live, a, k)} | LiveWord(live, a, k)
      ensures k < |w| && w'[k] == w[k]
    {
      assert Follows(m, end, a);
    }
  }

  /** Words lo..hi-1 are the same in both. */
  ghost predicate SameWords(w: seq<nat>, w': seq<nat>, lo: int, hi: int)
    requires 0 <= lo
  {
    |w| == |w'| && forall k :: lo <= k < hi && k < |w| ==> w'[k] == w[k]
  }

  /** Bytes j < len at r in w' are those at ptr in w, but the last word of the
      `words` there is taken from `last`. */
  ghost predicate Carried(w: seq<nat>, w': seq<nat>, ptr: nat, r: nat, len: nat, words: nat, last: nat)
    requires ptr + (len + 7) / 8 <= |w| && r + (len + 7) / 8 <= |w'|
  {
    forall j: nat :: j < len ==>
      ByteAt(w', r, j) == (if j / 8 == words - 1 then WordByte(last, j % 8) else ByteAt(w, ptr, j))
  }

  lemma CarriedOn(w: seq<nat>, w1: seq<nat>, w2: seq<nat>, ptr: nat, r: nat, len: nat, words: nat, last: nat)
    requires ptr + (len + 7) / 8 <= |w| && r + (len + 7) / 8 <= |w1| == |w2|
    requires Carried(w, w1, ptr, r, len, words, last)
    requires SameWords(w1, w2, r, r + (len + 7) / 8)
    ensures Carried(w, w2, ptr, r, len, words, last)
  {
    forall j: nat | j < len
      ensures ByteAt(w2, r, j) == ByteAt(w1, r, j)
    {
      assert w2[r + j / 8] == w1[r + j / 8];
    }
  }

  /** Freed memory w1 still holds the payload of the old block but for its last
      word, so what is carried over from w1 and `last` is the old payload. */
  lemma CarriedFromFreed(w0: seq<nat>, w1: seq<nat>, w2: seq<nat>, ptr: nat, r: nat, len: nat, words: nat)
    requires 0 < words && len <= 8 * words && |w0| == |w1| && ptr + words <= |w0| && r + (len + 7) / 8 <= |w2|
    requires SameWords(w0, w1, ptr, ptr + words - 1)
    requires Carried(w1, w2, ptr, r, len, words, w0[ptr + words - 1])
    ensures forall j: nat :: j < len ==> ByteAt(w2, r, j) == ByteAt(w0, ptr, j)
  {
    forall j: nat | j < len
      ensures ByteAt(w2, r, j) == ByteAt(w0, ptr, j)
    {
      assert j / 8 != words - 1 ==> w1[ptr + j / 8] == w0[ptr + j / 8];
    }
  }

  lemma FreedPayload(m: Layout, b: nat, w: seq<nat>, w': seq<nat>)
    requires b in m && m[b].alloc && Kept(m[b := Block(m[b].size, false)], w, w')
    ensures PayloadsKept(Live(m) - {b}, w, w')
    ensures SameWords(w, w', b + 3, Next(m, b) - 1)
  {
    var m' := m[b := Block(m[b].size, false)];
    LivePayloadsKept(m', Live(m) - {b}, w, w');
    forall k | b + 3 <= k < Next(m, b) - 1 && k < |w|
      ensures w'[k] == w[k]
    {
      assert PayloadWord(m', b, k);
    }
  }

  lemma KeptBlock(m: Layout, b: nat, w: seq<nat>, w': seq<nat>)
    requires b in m && m[b].alloc && Kept(m, w, w')
    ensures SameWords(w, w', b + 3, Next(m, b))
  {
    forall k | b + 3 <= k < Next(m, b) && k < |w|
      ensures w'[k] == w[k]
    {
      assert PayloadWord(m, b, k);
    }
  }

  lemma HandedOutRoom(m: Layout, m': Layout, end: nat, ptr: nat, size: nat)
    requires HandedOut(m, m', end, ptr, size)
    ensures ptr + (size + 7) / 8 <= end
  {
  }

  lemma HandedOutCongruent(m1: Layout, m2: Layout, m': Layout, end: nat, ptr: nat, size: nat)
    requires Live(m1) == Live(m2) && HandedOut(m1, m', end, ptr, size)
    ensures HandedOut(m2, m', end, ptr, size)
  {
  }

  lemma CarriedSource(w0: seq<nat>, w1: seq<nat>, w2: seq<nat>, ptr: nat, r: nat, len: nat, words: nat, last: nat)
    requires ptr + (len + 7) / 8 <= |w0| == |w1| && r + (len + 7) / 8 <= |w2|
    requires SameWords(w0, w1, ptr, ptr + (len + 7) / 8)
    requires Carried(w1, w2, ptr, r, len, words, last)
    ensures Carried(w0, w2, ptr, r, len, words, last)
  {
    forall j: nat | j < len
      ensures ByteAt(w1, ptr, j) == ByteAt(w0, ptr, j)
    {
      assert w1[ptr + j / 8] == w0[ptr + j / 8];
    }
  }

  lemma SameWordsPart(w: seq<nat>, w': seq<nat>, lo: nat, hi: nat, lo': nat, hi': nat)
    requires SameWords(w, w', lo, hi) && lo <= lo' && hi' <= hi
    ensures SameWords(w, w', lo', hi')
  {
  }

  /** An allocated block's tags survive any payload. */
  lemma FillLiveTags(w: seq<nat>, w': seq<nat>, m: Layout, end: nat, b: nat)
    requires Tiling(m, end) && Tags(w, m, end, 0) && b in m && m[b].alloc && b < |w|
    requires OnlyWithin(w, w', b + 3, Next(m, b))
    ensures Tags(w', m, end, 0)
  {
    NoBlockAtZero(m, end);
    TagsHole(w, m, end, b);
    FillTags(w, w', m, end, b);
    assert TagOk(w, m, b);
  }

  // ------------------------------------------- memory that is no heap

  /** The boundaries that the tags of w stand for are also boundaries for any
      layout that memory w' describes, if the tags below `end` are the same. */
  lemma {:induction false} SameBoundaries(w: seq<nat>, m: Layout, end: nat, w': seq<nat>, m': Layout, end': nat, a: nat)
    requires Tiling(m, end) && Tags(w, m, end, 0) && Tiling(m', end') && Tags(w', m', end', 0)
    requires end <= end' && end <= |w'| && (forall k :: FIRST <= k < end ==> w'[k] == w[k]) && a in m && a in m'
    ensures end in m' || end == end'
    decreases end - a
  {
    NoBlockAtZero(m, end);
    NoBlockAtZero(m', end');
    BlockTag(w, m, end, 0, a);
    BlockTag(w', m', end', 0, a);
    assert Follows(m, end, a) && Follows(m', end', a);
    var b := Next(m, a);
    assert Next(m', a) == b;
    if b != end {
      assert Follows(m, end, b);
      SameBoundaries(w, m, end, w', m', end', b);
    }
  }

  /** A header at the old end whose block is too small, or leads beyond the new
      end, cannot be part of a heap. */
  lemma NotAHeap(w: seq<nat>, m: Layout, end: nat, w': seq<nat>, m': Layout, end': nat, n: nat)
    requires Tiling(m, end) && Tags(w, m, end, 0) && end <= end' && end < |w'|
    requires forall k :: FIRST <= k < end ==> w'[k] == w[k]
    requires Words(w'[end]) == n && 0 < n && (n < 4 || end + n > end')
    ensures !(Tiling(m', end') && Tags(w', m', end', 0))
  {
    if Tiling(m', end') && Tags(w', m', end', 0) {
      NoBlockAtZero(m', end');
      if FIRST < end {
        assert m == map[] ==> FIRST == end;
        SameBoundaries(w, m, end, w', m', end', FIRST);
      }
      if end in m' {
        BlockTag(w', m', end', 0, end);
      }
    }
  }

  /** No blocks whatever are described by memory w up to `end`. */
  ghost predicate Heapless(w: seq<nat>, end: nat) {
    forall m :: !(Tiling(m, end) && Tags(w, m, end, 0))
  }

  lemma Truncated(w: seq<nat>, m: Layout, end: nat, w': seq<nat>, end': nat, n: nat)
    requires Tiling(m, end) && Tags(w, m, end, 0) && end <= end' && end < |w'|
    requires forall k :: FIRST <= k < end ==> w'[k] == w[k]
    requires Words(w'[end]) == n && 0 < n && (n < 4 || end + n > end')
    ensures Heapless(w', end')
  {
    forall m'
      ensures !(Tiling(m', end') && Tags(w', m', end', 0))
    {
      NotAHeap(w, m, end, w', m', end', n);
    }
  }

  // ------------------------------------------------- what a free makes of m

  /** Size of the free block that ends at b, 0 if there is none. */
  ghost function FreeSizeBelow(m: Layout, b: nat): nat {
    if exists p :: EndsFree(m, p, b) then (var p :| EndsFree(m, p, b); m[p].size) else 0
  }

  ghost predicate EndsFree(m: Layout, p: nat, b: nat) {
    p in m && !m[p].alloc && Next(m, p) == b
  }

  /** Size of the free block at x, 0 if there is none. */
  function FreeSizeAt(m: Layout, x: nat): nat {
    if x in m && !m[x].alloc then m[x].size else 0
  }

  /** Size of block b together with the free blocks that touch it. */
  ghost function Merged(m: Layout, b: nat): nat
    requires b in m
  {
    FreeSizeBelow(m, b) + m[b].size + FreeSizeAt(m, Next(m, b))
  }
}
