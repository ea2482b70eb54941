/**
 The counting allocator of Lab0_cprogramminglab/harness.c: every block handed
 out is on a doubly linked list until it is freed.
 */
module Harness {

  /** Header of an allocated block. */
  class Block {
    var next: Block?
    var prev: Block?
    /** MAGICHEADER while allocated, MAGICFREE after */
    var live: bool
    /** What the block was allocated for. */
    ghost const owner: object
    ghost const role: nat

    constructor (ghost owner: object, ghost role: nat)
      ensures live && this.owner == owner && this.role == role
    {
      this.owner := owner;
      this.role := role;
      next := null;
      prev := null;
      live := true;
    }
  }

  class Allocator {
    /** the static variable `allocated` */
    var latest: Block?
    var allocated_count: nat
    var error_occurred: bool
    /** The allocated blocks, latest first. */
    ghost var blocks: seq<Block>

    ghost predicate Valid()
      reads this, blocks
    {
      && allocated_count == |blocks|
      && latest == (if blocks == [] then null else blocks[0])
      && Distinct(blocks) && Linked(blocks)
    }

    constructor ()
      ensures Valid() && blocks == [] && !error_occurred
    {
      latest := null;
      allocated_count := 0;
      error_occurred := false;
      blocks := [];
    }

    /** test_malloc; `fails` is the outcome of fail_allocation. */
    method TestMalloc(fails: bool, ghost owner: object, ghost role: nat) returns (p: Block?)
      requires Valid()
      modifies this`latest, this`allocated_count, this`blocks, blocks
      ensures Valid() && (p == null <==> fails)
      ensures p == null ==> blocks == old(blocks) && allocated_count == old(allocated_count)
      ensures p != null ==> allocated_count == old(allocated_count) + 1
      ensures p != null ==> fresh(p) && blocks == [p] + old(blocks) && p.owner == owner && p.role == role
    {
      hide Distinct;
      if fails {
        return null;
      }
      var new_block := new Block(owner, role);
      ghost var bs := blocks;
      Push(new_block);
      hide Linked;
      DistinctPush(bs, new_block);
      blocks := [new_block] + bs;
      p := new_block;
    }

    /** The end of test_malloc. */
    method Push(new_block: Block)
      requires Valid() && new_block !in blocks && new_block.live
      modifies this`latest, this`allocated_count, blocks, new_block
      ensures latest == new_block && allocated_count == |blocks| + 1 && Linked([new_block] + blocks)
    {
      hide Distinct;
      ghost var bs := blocks;
      new_block.next := latest;
      new_block.prev := null;
      if latest != null {
        latest.prev := new_block;
      }
      latest := new_block;
      allocated_count := allocated_count + 1;
      assert Beneath(bs, new_block) by {
        DistinctHead(bs);
      }
      PushedLinks(bs, new_block);
    }

    /** The search of find_header: a block not on the list is an error. */
    method FindHeader(p: Block) returns (found: bool)
      requires Valid()
      modifies this`error_occurred
      ensures found <==> p in blocks
      ensures error_occurred == (old(error_occurred) || !found)
    {
      found := false;
      var ab := latest;
      ghost var i := 0;
      while ab != null && !found
        invariant 0 <= i <= |blocks| && (!found ==> ab == if i < |blocks| then blocks[i] else null)
        invariant !found ==> p !in blocks[..i]
        invariant found ==> p in blocks
        invariant Valid() && error_occurred == old(error_occurred)
        decreases |blocks| - i, !found
      {
        assert blocks[..i + 1] == blocks[..i] + [blocks[i]];
        found := ab == p;
        ab := ab.next;
        i := i + 1;
      }
      if !found {
        error_occurred := true;
      }
    }

    /** test_free of NULL or of an allocated block. */
    method TestFree(p: Block?)
      requires Valid() && (p == null || p in blocks)
      modifies this, blocks
      ensures Valid()
      ensures p == null ==> blocks == old(blocks) && error_occurred
      ensures p != null ==> error_occurred == old(error_occurred)
      ensures p != null ==> allocated_count == old(allocated_count) - 1
      ensures p != null ==> forall x :: x in blocks <==> x in old(blocks) && x != p
      ensures forall i :: 0 <= i < |blocks| ==> blocks[i] in old(blocks)
    {
      hide Linked, Without;
      if p == null {
        error_occurred := true;
        return;
      }
      var found := FindHeader(p);
      ghost var i :| 0 <= i < |blocks| && blocks[i] == p;
      WithoutMembers(blocks, i);
      Unlink(p, i);
    }

    /** The end of test_free. */
    method Unlink(b: Block, ghost i: nat)
      requires Valid() && i < |blocks| && blocks[i] == b
      modifies this`latest, this`allocated_count, this`blocks, blocks
      ensures Valid() && blocks == Without(old(blocks), i)
    {
      hide Bypassed, Without, Distinct, Linked;
      ghost var bs := blocks;
      DistinctWithout(bs, i);
      LeadAround(b, i);
      Relinked(bs, i);
      FirstWithout(bs, i);
      blocks := Without(bs, i);
    }

    /** The pointers of the neighbours lead around b. */
    method LeadAround(b: Block, ghost i: nat)
      requires Valid() && i < |blocks| && blocks[i] == b
      modifies this`latest, this`allocated_count, blocks
      ensures allocated_count == |blocks| - 1
      ensures latest == if i > 0 then blocks[0] else NextIn(blocks, i)
      ensures Bypassed(blocks, i)
    {
      b.live := false;
      var bn := b.next;
      var bp := b.prev;
      if bp != null {
        bp.next := bn;
      } else {
        latest := bn;
      }
      if bn != null {
        bn.prev := bp;
      }
      allocated_count := allocated_count - 1;
    }
  }

  ghost function Without(bs: seq<Block>, i: nat): (rest: seq<Block>)
    requires i < |bs|
    ensures |rest| == |bs| - 1 && forall k :: 0 <= k < |rest| ==> rest[k] == bs[if k < i then k else k + 1]
  {
    bs[..i] + bs[i + 1..]
  }

  ghost predicate Distinct(bs: seq<Block>) {
    forall i, j :: 0 <= i < j < |bs| ==> bs[i] != bs[j]
  }

  /** The links of every listed block lead to its neighbours. */
  ghost predicate Linked(bs: seq<Block>)
    reads bs
  {
    forall i {:trigger bs[i]} :: 0 <= i < |bs| ==>
      bs[i].next == NextIn(bs, i) && bs[i].prev == PrevIn(bs, i) && bs[i].live
  }

  /** The links are right but that the first block has p before it. */
  ghost predicate Beneath(bs: seq<Block>, p: Block)
    reads bs
  {
    forall k {:trigger bs[k]} :: 0 <= k < |bs| ==>
      bs[k].next == NextIn(bs, k) && bs[k].prev == (if k == 0 then p else PrevIn(bs, k)) && bs[k].live
  }

  lemma PushedLinks(bs: seq<Block>, p: Block)
    requires Beneath(bs, p) && p.next == (if bs == [] then null else bs[0]) && p.prev == null && p.live
    ensures Linked([p] + bs)
  {
    var all := [p] + bs;
    assert forall i :: 0 < i < |all| ==> all[i] == bs[i - 1];
  }

  lemma DistinctPush(bs: seq<Block>, p: Block)
    requires Distinct(bs) && p !in bs
    ensures Distinct([p] + bs)
  {
  }

  lemma DistinctHead(bs: seq<Block>)
    requires Distinct(bs)
    ensures forall k :: 0 < k < |bs| ==> bs[k] != bs[0]
  {
  }

  lemma DistinctWithout(bs: seq<Block>, i: nat)
    requires Distinct(bs) && i < |bs|
    ensures Distinct(Without(bs, i))
  {
  }

  lemma FirstWithout(bs: seq<Block>, i: nat)
    requires i < |bs|
    ensures (if Without(bs, i) == [] then null else Without(bs, i)[0]) == if i > 0 then bs[0] else NextIn(bs, i)
  {
  }

  lemma WithoutMembers(bs: seq<Block>, i: nat)
    requires i < |bs| && Distinct(bs)
    ensures forall x :: x in Without(bs, i) <==> x in bs && x != bs[i]
    ensures forall k :: 0 <= k < |bs| - 1 ==> Without(bs, i)[k] in bs
  {
    forall x | x in bs && x != bs[i]
      ensures x in Without(bs, i)
    {
      var k :| 0 <= k < |bs| && bs[k] == x;
      assert Without(bs, i)[if k < i then k else k - 1] == x;
    }
  }

  ghost function NextIn(bs: seq<Block>, i: nat): Block? {
    if i + 1 < |bs| then bs[i + 1] else null
  }

  ghost function PrevIn(bs: seq<Block>, i: nat): Block?
    requires i <= |bs|
  {
    if i > 0 then bs[i - 1] else null
  }

  /** All links lead around the i-th block. */
  ghost predicate Bypassed(bs: seq<Block>, i: nat)
    requires i < |bs|
    reads bs
  {
    forall k {:trigger bs[k]} :: 0 <= k < |bs| && k != i ==>
      && bs[k].next == (if k + 1 == i then NextIn(bs, i) else NextIn(bs, k))
      && bs[k].prev == (if k == i + 1 then PrevIn(bs, i) else PrevIn(bs, k))
      && bs[k].live
  }

  /** Links that lead around the i-th block are the links of the others. */
  lemma Relinked(bs: seq<Block>, i: nat)
    requires i < |bs|
    requires Bypassed(bs, i)
    ensures Linked(Without(bs, i))
  {
  }
}
