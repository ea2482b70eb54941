/**
 The queue of Lab0_cprogramminglab/queue.c on the counting allocator.  A C
 string is its characters without the terminator.
 */
module LinkedQueue {
  import opened Harness
  import opened Sequences

  /** list_ele_t; `block` and `valueBlock` are the two allocations behind it. */
  class Ele {
    var value: string
    var next: Ele?
    var block: Block?
    var valueBlock: Block?

    constructor (value: string)
      ensures this.value == value && next == null && block == null && valueBlock == null
    {
      this.value := value;
      next := null;
      block := null;
      valueBlock := null;
    }
  }

  class Queue {
    var head: Ele?
    var tail: Ele?
    var sizeL: nat
    const block: Block
    /** The elements from head to tail, and the allocations of others. */
    ghost var elems: seq<Ele>
    ghost const base: nat

    constructor (block: Block, ghost base: nat)
      ensures head == null && tail == null && sizeL == 0 && elems == [] && this.block == block && this.base == base
    {
      head := null;
      tail := null;
      sizeL := 0;
      elems := [];
      this.block := block;
      this.base := base;
    }

    /** head, tail, size and links are those of the sequence of elements. */
    ghost predicate Linked()
      reads this, elems
    {
      && Chain() && sizeL == |elems|
      && tail == (if elems == [] then null else elems[|elems| - 1])
    }

    ghost predicate Chain()
      reads this`elems, this`head, elems
    {
      && (forall i, j :: 0 <= i < j < |elems| ==> elems[i] != elems[j])
      && head == (if elems == [] then null else elems[0])
      && (forall i {:trigger elems[i].next} :: 0 <= i < |elems| ==>
            elems[i].next == if i < |elems| - 1 then elems[i + 1] else null)
    }

    /** The queue's own allocations are live, and account for its share of the count. */
    ghost predicate Owns(h: Allocator)
      reads this, elems, h, h.blocks
    {
      && h.Valid() && h.allocated_count == base + 1 + 2 * |elems|
      && block in h.blocks && block.role == 0
      && (forall e :: e in elems ==> Holds(e, h.blocks))
    }

    ghost predicate Valid(h: Allocator)
      reads this, elems, h, h.blocks
    {
      Linked() && Owns(h)
    }

    ghost function Contents(): (s: seq<string>)
      reads this, elems
      ensures |s| == |elems| && forall i :: 0 <= i < |s| ==> s[i] == elems[i].value
    {
      Values(elems)
    }
  }

  ghost function Values(es: seq<Ele>): (s: seq<string>)
    reads (set e | e in es)`value
    ensures |s| == |es| && forall i :: 0 <= i < |s| ==> s[i] == es[i].value
  {
    if es == [] then [] else [es[0].value] + Values(es[1..])
  }

  lemma ValuesTail(es: seq<Ele>)
    requires es != []
    ensures Values(es[1..]) == Values(es)[1..] && Values(es)[0] == es[0].value
  {
  }

  /** What the invariant says of the queue's ends and blocks. */
  lemma QueueFacts(h: Allocator, q: Queue)
    requires q.Valid(h)
    ensures q.Linked() && h.Valid() && h.allocated_count == q.base + 1 + 2 * |q.elems|
    ensures q.block in h.blocks && q.block.role == 0 && AllHeld(q.elems, h.blocks) && Different(q.elems)
    ensures q.head == (if q.elems == [] then null else q.elems[0])
    ensures q.Contents() == Values(q.elems)
  {
  }

  lemma QueueValid(h: Allocator, q: Queue)
    requires q.Linked() && h.Valid() && h.allocated_count == q.base + 1 + 2 * |q.elems|
    requires q.block in h.blocks && q.block.role == 0 && AllHeld(q.elems, h.blocks)
    ensures q.Valid(h) && q.Contents() == Values(q.elems)
  {
  }

  /** More blocks do no harm. */
  lemma HeldGrows(es: seq<Ele>, bs: seq<Block>, bs': seq<Block>)
    requires AllHeld(es, bs) && forall b :: b in bs ==> b in bs'
    ensures AllHeld(es, bs')
  {
    forall e | e in es
      ensures Holds(e, bs')
    {
      assert Holds(e, bs);
    }
  }

  lemma HeldCons(e: Ele, es: seq<Ele>, bs: seq<Block>)
    requires Holds(e, bs) && AllHeld(es, bs)
    ensures AllHeld([e] + es, bs) && AllHeld(es + [e], bs)
  {
  }

  lemma ValuesCons(e: Ele, es: seq<Ele>)
    ensures Values([e] + es) == [e.value] + Values(es) && Values(es + [e]) == Values(es) + [e.value]
  {
  }

  lemma ValuesReversed(es: seq<Ele>)
    ensures Values(Reversed(es)) == Reversed(Values(es))
  {
  }

  lemma HeldReversed(es: seq<Ele>, bs: seq<Block>)
    requires AllHeld(es, bs)
    ensures AllHeld(Reversed(es), bs) && forall e :: e in Reversed(es) ==> e in es
  {
  }

  twostate lemma SameBlocks(h: Allocator)
    requires h.blocks == old(h.blocks)
    ensures NewOnly(old(h.blocks), h)
  {
  }

  ghost predicate AllHeld(es: seq<Ele>, bs: seq<Block>)
    reads (set e | e in es)`block, (set e | e in es)`valueBlock
  {
    forall x :: x in es ==> Holds(x, bs)
  }

  ghost predicate Different(es: seq<Ele>) {
    forall i, j :: 0 <= i < j < |es| ==> es[i] != es[j]
  }

  /** The element and its string are allocated, each in its own block. */
  ghost predicate Holds(e: Ele, bs: seq<Block>)
    reads e`block, e`valueBlock
  {
    && e.block != null && e.block in bs && e.block.owner == e && e.block.role == 1
    && e.valueBlock != null && e.valueBlock in bs && e.valueBlock.owner == e && e.valueBlock.role == 2
  }

  /** Blocks that were not there are new. */
  twostate predicate NewOnly(before: seq<Block>, h: Allocator)
    reads h
  {
    forall i {:trigger h.blocks[i]} :: 0 <= i < |h.blocks| ==> h.blocks[i] in before || fresh(h.blocks[i])
  }

  /** q_new; `fails` is the outcome of malloc. */
  method QNew(h: Allocator, fails: bool) returns (q: Queue?)
    requires h.Valid()
    modifies h`latest, h`allocated_count, h`blocks, h.blocks
    ensures h.Valid() && (q == null <==> fails)
    ensures q == null ==> h.blocks == old(h.blocks)
    ensures q != null ==> fresh(q) && q.Valid(h) && q.Contents() == [] && q.base == old(h.allocated_count)
    ensures h.error_occurred == old(h.error_occurred) && NewOnly(old(h.blocks), h)
  {
    hide Allocator.Valid;
    ghost var before := h.allocated_count;
    var block := h.TestMalloc(fails, h, 0);
    if block == null {
      return null;
    }
    q := new Queue(block, before);
  }

  /** The two allocations of an insertion; a failure of the second undoes the first. */
  method NewEle(h: Allocator, s: string, fails: bool, valueFails: bool, ghost es: seq<Ele>) returns (e: Ele?)
    requires h.Valid()
    modifies h, h.blocks
    ensures h.Valid() && (e == null <==> fails || valueFails)
    ensures e == null ==> h.allocated_count == old(h.allocated_count) && (forall b :: b in h.blocks <==> b in old(h.blocks))
    ensures e != null ==> fresh(e) && Holds(e, h.blocks) && e.value == s && e.next == null
    ensures e != null ==> h.allocated_count == old(h.allocated_count) + 2 && (forall b :: b in old(h.blocks) ==> b in h.blocks)
    ensures h.error_occurred == old(h.error_occurred) && NewOnly(old(h.blocks), h)
    ensures old(AllHeld(es, h.blocks)) ==> AllHeld(es, h.blocks)
  {
    hide Allocator.Valid, AllHeld;
    ghost var bs, held := h.blocks, AllHeld(es, h.blocks);
    var newh := new Ele(s);
    var block := h.TestMalloc(fails, newh, 1);
    if block == null {
      if held { HeldGrows(es, bs, h.blocks); }
      return null;
    }
    newh.block := block;
    var newv := h.TestMalloc(valueFails, newh, 2);
    if newv == null {
      h.TestFree(block);
      if held { HeldGrows(es, bs, h.blocks); }
      return null;
    }
    newh.valueBlock := newv;
    if held { HeldGrows(es, bs, h.blocks); }
    e := newh;
  }

  // ------------------------------------------------------- the links

  method LinkHead(q: Queue, newh: Ele)
    requires q.Linked() && newh !in q.elems
    modifies q, newh
    ensures q.Linked() && q.elems == [newh] + old(q.elems)
    ensures newh.value == old(newh.value) && newh.block == old(newh.block) && newh.valueBlock == old(newh.valueBlock)
  {
    ghost var before := q.elems;
    newh.next := q.head;
    q.head := newh;
    q.sizeL := q.sizeL + 1;
    if q.tail == null {
      q.tail := newh;
    }
    q.elems := [newh] + before;
    assert forall i :: 0 < i < |q.elems| ==> q.elems[i] == before[i - 1];
  }

  method LinkTail(q: Queue, newt: Ele)
    requires q.Linked() && newt !in q.elems && newt.next == null
    modifies q, if q.tail == null then {} else {q.tail}
    ensures q.Linked() && q.elems == old(q.elems) + [newt]
    ensures forall e :: e in old(q.elems) ==> e.value == old(e.value) && e.block == old(e.block) && e.valueBlock == old(e.valueBlock)
  {
    ghost var before := q.elems;
    if q.tail == null {
      q.head := newt;
      q.tail := newt;
    } else {
      q.tail.next := newt;
      q.tail := newt;
    }
    q.sizeL := q.sizeL + 1;
    q.elems := before + [newt];
    assert forall i :: 0 <= i < |before| ==> q.elems[i] == before[i];
  }

  method UnlinkHead(q: Queue)
    requires q.Linked() && q.elems != []
    modifies q
    ensures q.Linked() && q.elems == old(q.elems)[1..]
  {
    ghost var before := q.elems;
    if q.head == q.tail {
      q.tail := q.head.next;
    }
    q.head := q.head.next;
    q.sizeL := q.sizeL - 1;
    q.elems := before[1..];
    assert forall i :: 0 <= i < |q.elems| ==> q.elems[i] == before[i + 1];
  }

  /** The loop of q_reverse: every link is turned around in place. */
  method TurnAround(q: Queue) returns (newNext: Ele?)
    requires q.Chain() && q.elems != []
    modifies (set e | e in q.elems)`next
    ensures newNext == q.elems[|q.elems| - 1]
    ensures forall k {:trigger q.elems[k].next} :: 0 <= k < |q.elems| ==> q.elems[k].next == if k > 0 then q.elems[k - 1] else null
  {
    ghost var es := q.elems;
    var cur := q.head;
    newNext := null;
    ghost var i := 0;
    while cur != null
      invariant 0 <= i <= |es|
      invariant cur == (if i < |es| then es[i] else null) && newNext == (if i > 0 then es[i - 1] else null)
      invariant forall k {:trigger es[k].next} :: 0 <= k < i ==> es[k].next == if k > 0 then es[k - 1] else null
      invariant forall k {:trigger es[k].next} :: i <= k < |es| ==> es[k].next == if k < |es| - 1 then es[k + 1] else null
      decreases |es| - i
    {
      var nextCopy := cur.next;
      cur.next := newNext;
      newNext := cur;
      cur := nextCopy;
      i := i + 1;
    }
  }

  method ReverseLinks(q: Queue)
    requires q.Linked() && q.elems != []
    modifies q, (set e | e in q.elems)`next
    ensures q.Linked() && q.elems == Reversed(old(q.elems))
  {
    ghost var es := q.elems;
    q.tail := q.head;
    var newNext := TurnAround(q);
    q.head := newNext;
    q.elems := Reversed(es);
  }

  // --------------------------------------------------- the operations

  /** q_insert_head */
  method QInsertHead(h: Allocator, q: Queue?, s: string, fails: bool, valueFails: bool) returns (ok: bool)
    requires h.Valid() && (q != null ==> q.Valid(h))
    modifies h, h.blocks, q
    ensures h.Valid() && (ok <==> q != null && !fails && !valueFails)
    ensures q != null ==> q.Valid(h)
    ensures q != null ==> q.Contents() == if ok then [s] + old(q.Contents()) else old(q.Contents())
    ensures q == null ==> h.allocated_count == old(h.allocated_count)
    ensures h.error_occurred == old(h.error_occurred) && NewOnly(old(h.blocks), h)
    ensures q != null ==> forall e :: e in q.elems ==> e in old(q.elems) || fresh(e)
  {
    hide Allocator.Valid, Queue.Valid, Queue.Linked, Queue.Contents, Values, AllHeld, Different, Holds, NewOnly;
    if q == null {
      SameBlocks(h);
      return false;
    }
    QueueFacts(h, q);
    var newh := NewEle(h, s, fails, valueFails, q.elems);
    if newh == null {
      QueueValid(h, q);
      return false;
    }
    ghost var es := q.elems;
    LinkHead(q, newh);
    HeldCons(newh, es, h.blocks);
    ValuesCons(newh, es);
    QueueValid(h, q);
    ok := true;
  }

  /** q_insert_tail */
  method QInsertTail(h: Allocator, q: Queue?, s: string, fails: bool, valueFails: bool) returns (ok: bool)
    requires h.Valid() && (q != null ==> q.Valid(h))
    modifies h, h.blocks, q, if q == null || q.tail == null then {} else {q.tail}
    ensures h.Valid() && (ok <==> q != null && !fails && !valueFails)
    ensures q != null ==> q.Valid(h)
    ensures q != null ==> q.Contents() == if ok then old(q.Contents()) + [s] else old(q.Contents())
    ensures q == null ==> h.allocated_count == old(h.allocated_count)
    ensures h.error_occurred == old(h.error_occurred) && NewOnly(old(h.blocks), h)
    ensures q != null ==> forall e :: e in q.elems ==> e in old(q.elems) || fresh(e)
  {
    hide Allocator.Valid, Queue.Valid, Queue.Linked, Queue.Contents, Values, AllHeld, Different, Holds, NewOnly;
    if q == null {
      SameBlocks(h);
      return false;
    }
    QueueFacts(h, q);
    TailInElems(q);
    var newt := NewEle(h, s, fails, valueFails, q.elems);
    if newt == null {
      QueueValid(h, q);
      return false;
    }
    ghost var es := q.elems;
    LinkTail(q, newt);
    HeldCons(newt, es, h.blocks);
    ValuesCons(newt, es);
    QueueValid(h, q);
    ok := true;
  }

  /** strncpy of at most n characters. */
  function Prefix(s: string, n: nat): (p: string)
    ensures p <= s && |p| == if |s| < n then |s| else n
  {
    if |s| <= n then s else s[..n]
  }

  /** Frees the string of an element and the element. */
  method FreeEle(h: Allocator, e: Ele)
    requires h.Valid() && Holds(e, h.blocks)
    modifies h, h.blocks
    ensures h.Valid() && h.allocated_count == old(h.allocated_count) - 2
    ensures forall b :: b in h.blocks <==> b in old(h.blocks) && b != e.block && b != e.valueBlock
    ensures forall i :: 0 <= i < |h.blocks| ==> h.blocks[i] in old(h.blocks)
    ensures h.error_occurred == old(h.error_occurred)
  {
    hide Allocator.Valid;
    h.TestFree(e.valueBlock);
    h.TestFree(e.block);
  }

  /** q_remove_head; `sp` tells whether a buffer is given. */
  method QRemoveHead(h: Allocator, q: Queue?, sp: bool, bufsize: nat) returns (ok: bool, copied: string)
    requires h.Valid() && (q != null ==> q.Valid(h)) && (sp ==> bufsize > 0)
    modifies h, h.blocks, q
    ensures h.Valid() && (ok <==> q != null && old(q.elems) != [])
    ensures q != null ==> q.Valid(h)
    ensures q != null ==> q.Contents() == if ok then old(q.Contents())[1..] else []
    ensures copied == if ok && sp then Prefix(old(q.Contents())[0], bufsize - 1) else ""
    ensures ok && sp ==> var s := old(q.Contents())[0];
      copied <= s && |copied| == if |s| < bufsize - 1 then |s| else bufsize - 1
    ensures h.error_occurred == old(h.error_occurred) && NewOnly(old(h.blocks), h)
    ensures q != null ==> forall e :: e in q.elems ==> e in old(q.elems)
  {
    hide Allocator.Valid, Queue.Valid, Queue.Linked, Queue.Contents, Values, AllHeld, Different;
    copied := "";
    if q == null {
      return false, copied;
    }
    QueueFacts(h, q);
    if q.head == null {
      assert Values(q.elems) == [];
      return false, copied;
    }
    var headCopy := q.head;
    ghost var before := q.elems;
    ValuesTail(before);
    if sp {
      copied := Prefix(q.head.value, bufsize - 1);
    }
    UnlinkHead(q);
    FreeUnlinked(h, q, headCopy, before);
    TailMembers(before);
    ok := true;
  }

  lemma TailMembers(es: seq<Ele>)
    requires es != []
    ensures forall e :: e in es[1..] ==> e in es
  {
  }

  /** The element just taken out is freed. */
  method FreeUnlinked(h: Allocator, q: Queue, e: Ele, ghost before: seq<Ele>)
    requires h.Valid() && q.Linked() && before != [] && e == before[0] && q.elems == before[1..]
    requires AllHeld(before, h.blocks) && Different(before)
    requires h.allocated_count == q.base + 1 + 2 * |before| && q.block in h.blocks && q.block.role == 0
    modifies h, h.blocks
    ensures q.Valid(h) && h.Valid() && q.Contents() == Values(q.elems)
    ensures h.error_occurred == old(h.error_occurred) && NewOnly(old(h.blocks), h)
  {
    hide Allocator.Valid, Queue.Linked;
    FreeEle(h, e);
    forall x | x in q.elems
      ensures Holds(x, h.blocks)
    {
      var k :| 0 <= k < |q.elems| && q.elems[k] == x;
      assert before[k + 1] == x && before[0] == e;
      assert old(Holds(e, h.blocks)) && old(Holds(x, h.blocks));
    }
    QueueValid(h, q);
  }

  /** q_size */
  method QSize(h: Allocator, q: Queue?) returns (n: nat)
    requires h.Valid() && (q != null ==> q.Valid(h))
    ensures n == if q == null then 0 else |q.Contents()|
  {
    if q == null || q.head == null {
      return 0;
    }
    return q.sizeL;
  }

  /** q_reverse: no element is allocated or freed. */
  method QReverse(h: Allocator, q: Queue?)
    requires h.Valid() && (q != null ==> q.Valid(h))
    modifies q, if q == null then {} else set e | e in q.elems
    ensures h.Valid() && (q != null ==> q.Valid(h) && q.Contents() == Reversed(old(q.Contents())))
    ensures h.allocated_count == old(h.allocated_count) && h.blocks == old(h.blocks) && NewOnly(old(h.blocks), h)
    ensures q != null ==> forall e :: e in q.elems ==> e in old(q.elems)
  {
    hide Allocator.Valid, Queue.Valid, Queue.Linked, Queue.Contents, Values, AllHeld, Different, Holds, NewOnly, Reversed;
    SameBlocks(h);
    if q == null {
      return;
    }
    QueueFacts(h, q);
    ghost var es := q.elems;
    ValuesReversed(es);
    if q.head == null {
      NothingReversed(es);
      return;
    }
    ReverseLinks(q);
    SameBlocks(h);
    HeldReversed(es, h.blocks);
    QueueValid(h, q);
  }

  lemma NothingReversed(es: seq<Ele>)
    requires es == []
    ensures Reversed(es) == es
  {
  }

  /** q_free */
  method QFree(h: Allocator, q: Queue?)
    requires h.Valid() && (q != null ==> q.Valid(h))
    modifies h, h.blocks
    ensures h.Valid() && h.allocated_count == if q == null then old(h.allocated_count) else q.base
    ensures h.error_occurred == old(h.error_occurred)
  {
    hide Allocator.Valid;
    if q == null {
      return;
    }
    var cur := q.head;
    ghost var i := 0;
    while cur != null
      invariant 0 <= i <= |q.elems| && q.Linked() && h.Valid()
      invariant cur == if i < |q.elems| then q.elems[i] else null
      invariant h.allocated_count == q.base + 1 + 2 * (|q.elems| - i)
      invariant q.block in h.blocks && q.block.role == 0
      invariant forall k :: i <= k < |q.elems| ==> Holds(q.elems[k], h.blocks)
      invariant forall k :: 0 <= k < |h.blocks| ==> h.blocks[k] in old(h.blocks)
      invariant h.error_occurred == old(h.error_occurred)
      decreases |q.elems| - i
    {
      var nextCopy := cur.next;
      FreeEle(h, cur);
      cur := nextCopy;
      i := i + 1;
    }
    h.TestFree(q.block);
  }

  // ------------------------------------------------------------ whole runs

  datatype Op =
    | InsertHead(s: string, fails: bool, valueFails: bool)
    | InsertTail(s: string, fails: bool, valueFails: bool)
    | RemoveHead(sp: bool, bufsize: nat)
    | Size
    | Reverse

  /** What an operation does to the sequence of strings. */
  ghost function Apply(c: seq<string>, op: Op): seq<string> {
    match op
    case InsertHead(s, fails, valueFails) => if fails || valueFails then c else [s] + c
    case InsertTail(s, fails, valueFails) => if fails || valueFails then c else c + [s]
    case RemoveHead(_, _) => if c == [] then c else c[1..]
    case Size => c
    case Reverse => Reversed(c)
  }

  /** What the caller sees of an operation. */
  datatype Seen = Inserted(ok: bool) | Removed(ok: bool, copied: string) | Counted(n: nat) | Turned

  ghost function Observe(c: seq<string>, op: Op): Seen {
    match op
    case InsertHead(_, fails, valueFails) => Inserted(!fails && !valueFails)
    case InsertTail(_, fails, valueFails) => Inserted(!fails && !valueFails)
    case RemoveHead(sp, bufsize) =>
      Removed(c != [], if c != [] && sp && bufsize > 0 then Prefix(c[0], bufsize - 1) else "")
    case Size => Counted(|c|)
    case Reverse => Turned
  }

  ghost function ApplyAll(c: seq<string>, ops: seq<Op>): seq<string> {
    if ops == [] then c else Apply(ApplyAll(c, ops[..|ops| - 1]), ops[|ops| - 1])
  }

  lemma TailInElems(q: Queue)
    requires q.Linked()
    ensures q.tail != null ==> q.tail in q.elems
  {
  }

  /** One operation on a queue. */
  method Perform(h: Allocator, q: Queue, op: Op) returns (seen: Seen)
    requires h.Valid() && q.Valid(h) && (op.RemoveHead? && op.sp ==> op.bufsize > 0)
    modifies h, h.blocks, q, q.elems
    ensures h.Valid() && q.Valid(h) && q.Contents() == Apply(old(q.Contents()), op)
    ensures seen == Observe(old(q.Contents()), op)
    ensures h.error_occurred == old(h.error_occurred) && NewOnly(old(h.blocks), h)
    ensures forall e :: e in q.elems ==> e in old(q.elems) || fresh(e)
  {
    hide Allocator.Valid, Queue.Owns, Queue.Linked, Queue.Contents, NewOnly;
    match op
    case InsertHead(s, fails, valueFails) =>
      var ok := QInsertHead(h, q, s, fails, valueFails);
      seen := Inserted(ok);
    case InsertTail(s, fails, valueFails) =>
      TailInElems(q);
      var ok := QInsertTail(h, q, s, fails, valueFails);
      seen := Inserted(ok);
    case RemoveHead(sp, bufsize) =>
      var ok, copied := QRemoveHead(h, q, sp, bufsize);
      seen := Removed(ok, copied);
    case Size =>
      var n := QSize(h, q);
      SameBlocks(h);
      seen := Counted(n);
    case Reverse =>
      QReverse(h, q);
      seen := Turned;
  }

  lemma ApplyNone()
    ensures ApplyAll([], []) == []
  {
  }

  lemma ApplyStep(ops: seq<Op>, i: nat)
    requires i < |ops|
    ensures ApplyAll([], ops[..i + 1]) == Apply(ApplyAll([], ops[..i]), ops[i])
  {
    assert ops[..i + 1][..i] == ops[..i];
  }

  /** From q_new to q_free, malloc failing at will in between: the caller sees,
      and the queue holds, what the sequence of strings says; the count is
      1 + 2 * size, and in the end 0. */
  method Session(ops: seq<Op>) returns (seen: seq<Seen>, ghost contents: seq<string>, count: nat, leaked: nat, error: bool)
    requires forall i :: 0 <= i < |ops| && ops[i].RemoveHead? && ops[i].sp ==> ops[i].bufsize > 0
    ensures |seen| == |ops| && forall i :: 0 <= i < |ops| ==> seen[i] == Observe(ApplyAll([], ops[..i]), ops[i])
    ensures contents == ApplyAll([], ops) && count == 1 + 2 * |contents| && leaked == 0 && !error
  {
    hide Allocator.Valid, Queue.Linked, Queue.Owns, Queue.Contents, Holds, Apply, ApplyAll, Observe;
    ApplyNone();
    var h := new Allocator();
    var q := QNew(h, false);
    seen := [];
    for i := 0 to |ops|
      invariant fresh(q) && fresh(h)
      invariant forall k {:trigger q.elems[k]} :: 0 <= k < |q.elems| ==> fresh(q.elems[k])
      invariant forall k {:trigger h.blocks[k]} :: 0 <= k < |h.blocks| ==> fresh(h.blocks[k])
      invariant h.Valid() && q.Valid(h) && !h.error_occurred && q.base == 0
      invariant q.Contents() == ApplyAll([], ops[..i])
      invariant |seen| == i && forall k :: 0 <= k < i ==> seen[k] == Observe(ApplyAll([], ops[..k]), ops[k])
    {
      ApplyStep(ops, i);
      var one := Perform(h, q, ops[i]);
      seen := seen + [one];
      forall k {:trigger q.elems[k]} | 0 <= k < |q.elems|
        ensures fresh(q.elems[k])
      {
        assert q.elems[k] in q.elems;
      }
    }
    assert ops[..|ops|] == ops;
    contents := q.Contents();
    QueueFacts(h, q);
    count := h.allocated_count;
    QFree(h, q);
    leaked := h.allocated_count;
    error := h.error_occurred;
  }
}
