/**
 The words of the heap in Lab6_malloclab/mm.c: block tags, request sizes,
 size classes and byte access.

 Addresses are word offsets from mem_start_brk, so the C pointer for address
 `a` is mem_start_brk + 8 * a.  Word 0 is the padding word below the list
 roots and never belongs to a block, hence 0 plays the part of NULL.
 */
module HeapWords {

  const WSIZE := 8
  const SEG_NUM := 12
  /** size_root in words */
  const ROOT_WORDS := 4
  /** First word above the twelve roots: the first block or the epilogue. */
  const FIRST := 49
  const INT_MAX := 0x7fff_ffff
  const TWO32 := 0x1_0000_0000
  const TWO61 := 0x2000_0000_0000_0000
  const TWO64 := 0x1_0000_0000_0000_0000
  /** No memory is larger than half of the 64-bit address space. */
  const MAX_WORDS := 0x1000_0000_0000_0000

  // ---------------------------------------------------------------- tags

  /** A block header, footer or epilogue: the size (in words), whether the
      block below is allocated, whether this block is allocated. */
  function Pack(words: nat, prevAlloc: bool, alloc: bool): (tag: nat)
    ensures Words(tag) == words && PrevAlloc(tag) == prevAlloc && Alloc(tag) == alloc
  {
    8 * words + (if prevAlloc then 2 else 0) + (if alloc then 1 else 0)
  }

  function Words(tag: nat): nat {
    tag / 8
  }

  predicate PrevAlloc(tag: nat) {
    tag / 2 % 2 == 1
  }

  predicate Alloc(tag: nat) {
    tag % 2 == 1
  }

  // ------------------------------------------------------------ requests

  /** Bytes to words, rounded up to an even number of words. */
  function ByteToWordAligned(size: nat): (n: nat)
    ensures n % 2 == 0 && size <= 8 * n < size + 16
  {
    var word := if size % WSIZE == 0 then size / WSIZE else size / WSIZE + 1;
    if word % 2 == 0 then word else word + 1
  }

  /** Block size in words for a request of `size` payload bytes. */
  function RequestWords(size: nat): (n: nat)
    ensures 4 <= n && n % 2 == 0 && size <= 8 * (n - 3) < size + 16
  {
    ByteToWordAligned(size + 3 * WSIZE)
  }

  /** Conversion of a 64-bit byte count to the `int` parameter of mem_sbrk. */
  function ToInt32(x: nat): int {
    var low := x % TWO32;
    if low <= INT_MAX then low else low - TWO32
  }

  /** Block size in words as the C code computes it, in 64-bit arithmetic. */
  function AskedWords(size: nat): (n: nat)
    ensures n % 2 == 0 && n <= TWO61
  {
    ByteToWordAligned((size + 3 * WSIZE) % TWO64)
  }

  /** The block for the request has a 64-bit size in bytes. */
  predicate Representable(size: nat) {
    8 * RequestWords(size) < TWO64
  }

  /** Where the arithmetic does not wrap it computes the block for the request;
      where it does, a block of at most 4 words or one of 2^64 bytes, which
      wraps again to none. */
  lemma AskedExactly(size: nat)
    requires size < TWO64
    ensures Representable(size) ==> AskedWords(size) == RequestWords(size) < TWO61
    ensures !Representable(size) ==> AskedWords(size) in {0, 2, 4, TWO61} && TWO64 <= size + 39
  {
    hide ByteToWordAligned;
    var t := size + 3 * WSIZE;
    var n := ByteToWordAligned(t % TWO64);
    if t < TWO64 {
      assert t % TWO64 == t;
    } else {
      assert t % TWO64 == t - TWO64 < 3 * WSIZE;
      assert n in {0, 2, 4};
    }
  }

  /** mem_sbrk refuses to grow the heap by this many words. */
  predicate Refused(words: nat, brk: nat, len: nat) {
    ToInt32(8 * words) < 0 || 8 * brk + ToInt32(8 * words) > 8 * len
  }

  /** The heap grows by the block asked for, or not at all. */
  predicate Grows(words: nat, brk: nat, len: nat) {
    ToInt32(8 * words) == 8 * words || Refused(words, brk, len)
  }

  lemma GrowsExactly(words: nat, brk: nat, len: nat)
    ensures Grows(words, brk, len) ==> (Refused(words, brk, len) <==> 8 * words > INT_MAX || brk + words > len)
    ensures !Grows(words, brk, len) ==> !Refused(words, brk, len) && 0 <= ToInt32(8 * words) < 8 * words && 8 * words > INT_MAX
  {
  }

  lemma NoWordsGranted(words: nat, brk: nat, len: nat)
    requires words % TWO61 == 0 && words <= TWO61 && brk <= len
    ensures !Refused(words, brk, len)
  {
  }

  /** What mem_sbrk adds when it does not refuse, against the block's 64-bit size. */
  lemma Increment(words: nat, brk: nat, len: nat)
    requires words % 2 == 0 && words <= TWO61 && !Refused(words, brk, len)
    ensures var incr, size := ToInt32(8 * words), words % TWO61;
      && 0 <= incr <= 8 * size && incr % 8 == 0
      && (incr == 8 * size <==> Grows(words, brk, len) || words == TWO61)
  {
  }

  // --------------------------------------------------------- size classes

  /** The largest block, in words, of list i; the last list is unbounded. */
  function SegMax(i: nat): (n: nat)
    ensures n >= 4
  {
    if i == 0 then 4 else 2 * SegMax(i - 1)
  }

  function ClassFrom(words: nat, i: nat): (c: nat)
    requires i < SEG_NUM
    ensures i <= c < SEG_NUM
    decreases SEG_NUM - i
  {
    if i == SEG_NUM - 1 || words <= SegMax(i) then i else ClassFrom(words, i + 1)
  }

  /** The list holding free blocks of this size. */
  function ClassOf(words: nat): (c: nat)
    ensures c < SEG_NUM
  {
    ClassFrom(words, 0)
  }

  lemma {:induction false} ClassFromBounds(words: nat, i: nat)
    requires i < SEG_NUM
    ensures ClassFrom(words, i) < SEG_NUM - 1 ==> words <= SegMax(ClassFrom(words, i))
    ensures forall j: nat :: i <= j < ClassFrom(words, i) ==> SegMax(j) < words
    decreases SEG_NUM - i
  {
    hide SegMax;
    if i < SEG_NUM - 1 && SegMax(i) < words {
      ClassFromBounds(words, i + 1);
    }
  }

  const BOUNDS := [4, 8, 16, 32, 64, 128, 256, 512, 1024, 2048, 4096]

  lemma {:induction false} SegMaxTable(i: nat)
    requires i < |BOUNDS|
    ensures SegMax(i) == BOUNDS[i]
  {
    if i > 0 {
      SegMaxTable(i - 1);
    }
  }

  /** The lists hold the blocks of up to 4, 8, 16 and so on words, and the last
      one those of more than 4096. */
  lemma ClassExactly(words: nat)
    ensures var c := ClassOf(words);
      (c < |BOUNDS| ==> words <= BOUNDS[c]) && (c > 0 ==> BOUNDS[c - 1] < words)
  {
    var c := ClassOf(words);
    ClassFromBounds(words, 0);
    hide SegMax, ClassOf;
    if c < |BOUNDS| {
      SegMaxTable(c);
    }
    if c > 0 {
      SegMaxTable(c - 1);
    }
  }

  /** Larger blocks are never in a lower list. */
  lemma ClassOfMonotone(m: nat, n: nat)
    requires m <= n
    ensures ClassOf(m) <= ClassOf(n)
  {
    ClassFromBounds(m, 0);
    ClassFromBounds(n, 0);
    assert ClassOf(n) < ClassOf(m) ==> SegMax(ClassOf(n)) < m;
  }

  // --------------------------------------------------------------- bytes

  /** Byte j of a word, least significant first. */
  function WordByte(w: nat, j: nat): (b: nat)
    ensures b < 256
  {
    if j == 0 then w % 256 else WordByte(w / 256, j - 1)
  }

  /** `dst` with its k lowest bytes taken from `src`. */
  function MergeLow(dst: nat, src: nat, k: nat): nat {
    if k == 0 then dst else src % 256 + 256 * MergeLow(dst / 256, src / 256, k - 1)
  }

  lemma BytePush(b: nat, m: nat)
    requires b < 256
    ensures (b + 256 * m) / 256 == m && (b + 256 * m) % 256 == b
  {
  }

  lemma {:induction false} MergeLowBytes(dst: nat, src: nat, k: nat, j: nat)
    ensures WordByte(MergeLow(dst, src, k), j) == if j < k then WordByte(src, j) else WordByte(dst, j)
  {
    if k > 0 {
      var m := MergeLow(dst / 256, src / 256, k - 1);
      BytePush(src % 256, m);
      if j > 0 {
        MergeLowBytes(dst / 256, src / 256, k - 1, j - 1);
      }
    }
  }

  /** Byte j of the memory that starts at word p. */
  function ByteAt(mem: seq<nat>, p: nat, j: nat): (b: nat)
    requires p + j / 8 < |mem|
    ensures b < 256
  {
    WordByte(mem[p + j / 8], j % 8)
  }

  /** Word k after `len` bytes are moved from word src to word dst: whole
      words, then the low bytes of one more. */
  function CopiedWord(mem: seq<nat>, dst: nat, src: nat, len: nat, k: nat): nat
    requires src + (len + 7) / 8 <= |mem| && k < |mem|
  {
    if dst <= k < dst + len / 8 then mem[src + (k - dst)]
    else if k == dst + len / 8 && len % 8 > 0 then MergeLow(mem[k], mem[src + len / 8], len % 8)
    else mem[k]
  }

  ghost predicate IsCopy(mem: seq<nat>, mem': seq<nat>, dst: nat, src: nat, len: nat)
    requires dst + (len + 7) / 8 <= |mem| && src + (len + 7) / 8 <= |mem|
  {
    && |mem'| == |mem|
    && forall k :: 0 <= k < |mem| ==> mem'[k] == CopiedWord(mem, dst, src, len, k)
  }

  lemma CopiedByte(mem: seq<nat>, mem': seq<nat>, dst: nat, src: nat, len: nat, j: nat)
    requires dst + (len + 7) / 8 <= |mem| && src + (len + 7) / 8 <= |mem|
    requires IsCopy(mem, mem', dst, src, len) && j < len
    ensures ByteAt(mem', dst, j) == ByteAt(mem, src, j)
  {
    if j / 8 == len / 8 {
      MergeLowBytes(mem[dst + j / 8], mem[src + j / 8], len % 8, j % 8);
    }
  }

  lemma CopyFrame(mem: seq<nat>, mem': seq<nat>, dst: nat, src: nat, len: nat, k: nat)
    requires dst + (len + 7) / 8 <= |mem| && src + (len + 7) / 8 <= |mem|
    requires IsCopy(mem, mem', dst, src, len) && k < |mem| && (k < dst || dst + (len + 7) / 8 <= k)
    ensures mem'[k] == mem[k]
  {
  }
}
