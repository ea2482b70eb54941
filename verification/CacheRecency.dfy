/**
 LRU replacement as it is meant: every set of the simulated cache keeps the
 tags it holds in order of last use, most recent first.  The simulator of
 Lab4_cachelab/cachelab-handout/csim.c works with time stamps instead and is
 proved to compute this in CacheSimulator.dfy.
 */
module CacheRecency {
  import opened Sequences

  datatype Access = Access(action: char, set_: nat, tag: int)

  // ------------------------------------------------------- recency lists

  /** l without its first occurrence of tag. */
  function Without(l: seq<int>, tag: int): (r: seq<int>)
    ensures |r| == if tag in l then |l| - 1 else |l|
  {
    if l == [] then [] else if l[0] == tag then l[1..] else [l[0]] + Without(l[1..], tag)
  }

  /** The first n elements, or all. */
  function Take(l: seq<int>, n: nat): (r: seq<int>)
    ensures |r| <= n
  {
    if |l| <= n then l else l[..n]
  }

  /** A set with room for `lines` tags after a use of tag: it moves to the
      front, and the last one drops out when there are too many. */
  function Touch(l: seq<int>, tag: int, lines: nat): (r: seq<int>)
    ensures |r| <= lines
  {
    Take([tag] + Without(l, tag), lines)
  }

  predicate Distinct(l: seq<int>) {
    forall i, j :: 0 <= i < j < |l| ==> l[i] != l[j]
  }

  lemma {:induction false} WithoutMember(l: seq<int>, tag: int, x: int)
    ensures x in Without(l, tag) ==> x in l
    ensures x != tag && x in l ==> x in Without(l, tag)
    ensures Distinct(l) ==> tag !in Without(l, tag)
  {
    if l != [] && l[0] != tag {
      WithoutMember(l[1..], tag, x);
      assert l == [l[0]] + l[1..];
    }
  }

  lemma {:induction false} WithoutDistinct(l: seq<int>, tag: int)
    requires Distinct(l)
    ensures Distinct(Without(l, tag))
  {
    if l != [] && l[0] != tag {
      WithoutDistinct(l[1..], tag);
      WithoutMember(l[1..], tag, l[0]);
    }
  }

  lemma WithoutCons(x: int, l: seq<int>, tag: int)
    ensures Without([x] + l, tag) == if x == tag then l else [x] + Without(l, tag)
  {
    assert ([x] + l)[0] == x && ([x] + l)[1..] == l;
  }

  lemma TakeCons(x: int, l: seq<int>, n: nat)
    ensures Take([x] + l, n + 1) == [x] + Take(l, n)
  {
  }

  lemma TakeEnds(l: seq<int>, n: nat)
    ensures Take(l, 0) == [] && Take(Take(l, n), n) == Take(l, n)
  {
  }

  /** Cutting a list short before removing a tag from it only costs the end. */
  lemma {:induction false} WithoutTake(l: seq<int>, tag: int, n: nat)
    ensures Take(Without(Take(l, n + 1), tag), n) == Take(Without(l, tag), n)
  {
    hide Take, Without;
    if l == [] {
      EmptyTake(n + 1);
    } else {
      var x, l' := l[0], l[1..];
      Uncons(l);
      TakeCons(x, l', n);
      WithoutCons(x, Take(l', n), tag);
      WithoutCons(x, l', tag);
      if x == tag {
        TakeEnds(l', n);
      } else if n == 0 {
        TakeEnds(Without(Take(l, n + 1), tag), 0);
        TakeEnds(Without(l, tag), 0);
      } else {
        WithoutTake(l', tag, n - 1);
        TakeCons(x, Without(Take(l', n), tag), n - 1);
        TakeCons(x, Without(l', tag), n - 1);
      }
    }
  }

  lemma EmptyTake(n: nat)
    ensures Take([], n) == []
  {
  }

  /** A set with fewer lines is a prefix of one with more, use after use. */
  lemma TouchTake(l: seq<int>, tag: int, lines: nat)
    requires lines > 0
    ensures Touch(Take(l, lines), tag, lines) == Take([tag] + Without(l, tag), lines)
  {
    WithoutTake(l, tag, lines - 1);
    TakeCons(tag, Without(Take(l, lines), tag), lines - 1);
    TakeCons(tag, Without(l, tag), lines - 1);
  }

  // ---------------------------------------------------------- the stack

  /** All tags of a history of uses, most recently used first. */
  function Stack(h: seq<int>): (r: seq<int>)
  {
    if h == [] then [] else [h[|h| - 1]] + Without(Stack(h[..|h| - 1]), h[|h| - 1])
  }

  lemma {:induction false} StackDistinct(h: seq<int>)
    ensures Distinct(Stack(h))
    ensures forall x :: x in Stack(h) <==> x in h
  {
    if h != [] {
      var g, t := h[..|h| - 1], h[|h| - 1];
      StackDistinct(g);
      WithoutDistinct(Stack(g), t);
      WithoutMember(Stack(g), t, t);
      forall x
        ensures x in Stack(h) <==> x in h
      {
        WithoutMember(Stack(g), t, x);
        assert h == g + [t];
      }
    }
  }

  function Elems(l: seq<int>): set<int> {
    set x | x in l
  }

  lemma ElemsCons(t: int, l: seq<int>)
    ensures Elems([t] + l) == {t} + Elems(l)
    ensures Elems(l + [t]) == {t} + Elems(l)
  {
  }

  lemma ElemsWithout(l: seq<int>, tag: int)
    requires Distinct(l)
    ensures Elems(Without(l, tag)) == Elems(l) - {tag}
  {
    forall x
      ensures x in Elems(Without(l, tag)) <==> x in Elems(l) - {tag}
    {
      WithoutMember(l, tag, x);
    }
  }

  lemma {:induction false} DistinctSize(l: seq<int>)
    requires Distinct(l)
    ensures |Elems(l)| == |l|
  {
    if l != [] {
      assert l == [l[0]] + l[1..];
      DistinctSize(l[1..]);
      ElemsCons(l[0], l[1..]);
    } else {
      assert Elems(l) == {};
    }
  }

  lemma {:induction false} WithoutAppend(a: seq<int>, b: seq<int>, tag: int)
    ensures Without(a + b, tag) == if tag in a then Without(a, tag) + b else a + Without(b, tag)
  {
    hide Without;
    if a == [] {
      Nothing(b);
      Nothing(Without(b, tag));
    } else {
      var x, a' := a[0], a[1..];
      Uncons(a);
      Associative([x], a', b);
      WithoutCons(x, a', tag);
      WithoutCons(x, a' + b, tag);
      InAppend([x], a', tag);
      if x != tag {
        WithoutAppend(a', b, tag);
        Associative([x], Without(a', tag), b);
        Associative([x], a', Without(b, tag));
      }
    }
  }

  /** Above a tag in the stack stand the tags used since its last use. */
  lemma {:induction false} StackSplit(h: seq<int>, p: nat) returns (a: seq<int>, b: seq<int>)
    requires p < |h| && h[p] !in h[p + 1..]
    ensures Stack(h) == a + [h[p]] + b && Elems(a) == Elems(h[p + 1..])
  {
    var g, t := h[..|h| - 1], h[|h| - 1];
    if p == |h| - 1 {
      a, b := [], Without(Stack(g), t);
      assert h[p + 1..] == [];
    } else {
      assert h[p + 1..] == g[p + 1..] + [t];
      assert t == h[p + 1..][|h| - p - 2];
      var c, d := StackSplit(g, p);
      StackDistinct(g);
      a, b := StackPush(Stack(g), t, c, h[p], d);
      ElemsCons(t, g[p + 1..]);
    }
  }

  lemma StackPush(s: seq<int>, t: int, c: seq<int>, x: int, d: seq<int>) returns (a: seq<int>, b: seq<int>)
    requires s == c + [x] + d && t != x && Distinct(s)
    ensures [t] + Without(s, t) == a + [x] + b && Elems(a) == {t} + Elems(c)
  {
    hide Without, Elems, Distinct;
    Associative(c, [x], d);
    DistinctPrefix(c, [x] + d);
    InAppend(c, [x], t);
    WithoutAppend(c + [x], d, t);
    WithoutAppend(c, [x], t);
    ElemsWithout(c, t);
    if t in c {
      a, b := [t] + Without(c, t), d;
      ElemsCons(t, Without(c, t));
      ElemsMember(c, t);
      Associative(Without(c, t), [x], d);
      Associative([t], Without(c, t), [x] + d);
      Associative(a, [x], d);
    } else {
      a, b := [t] + c, Without(d, t);
      ElemsCons(t, c);
      Associative(c, [x], b);
      Associative([t], c, [x] + b);
      Associative(a, [x], b);
    }
  }

  lemma DistinctPrefix(c: seq<int>, d: seq<int>)
    requires Distinct(c + d)
    ensures Distinct(c)
  {
    assert forall i :: 0 <= i < |c| ==> c[i] == (c + d)[i];
  }

  lemma ElemsMember(c: seq<int>, t: int)
    requires t in c
    ensures {t} + (Elems(c) - {t}) == {t} + Elems(c)
  {
  }

  /** The depth of a tag in the stack is the number of different tags used
      since its last use. */
  lemma StackDistance(h: seq<int>, p: nat)
    requires p < |h| && h[p] !in h[p + 1..]
    ensures |Elems(h[p + 1..])| < |Stack(h)| && Stack(h)[|Elems(h[p + 1..])|] == h[p]
  {
    var a, b := StackSplit(h, p);
    StackDistinct(h);
    assert Distinct(a) by {
      assert forall i :: 0 <= i < |a| ==> a[i] == Stack(h)[i];
    }
    DistinctSize(a);
  }
}
