/**
 The cache simulator of Lab4_cachelab/cachelab-handout/csim.c: lines with time
 stamps that updateCache scans and overwrites.  Stamps are unbounded here;
 the C code counts them in an int.
 */
module CacheSimulator {
  import opened Sequences
  import opened CacheRecency
  import opened CacheTraces
  import opened CacheAddresses

  datatype Line = Line(LRU: int, valid: bool, tag: int)

  // ------------------------------------------------- one set, as a value

  /** order lists valid lines, stamped before now. */
  ghost predicate Listed(row: seq<Line>, order: seq<int>, now: int) {
    forall k :: 0 <= k < |order| ==> 0 <= order[k] < |row| && row[order[k]].valid && row[order[k]].LRU < now
  }

  /** The lines in `order`, most recently stamped first, are the valid ones. */
  ghost predicate Ordered(row: seq<Line>, order: seq<int>, now: int) {
    && Listed(row, order, now)
    && (forall j, k :: 0 <= j < k < |order| ==> Falling(row, order, j, k))
    && (forall i :: 0 <= i < |row| && row[i].valid ==> i in order)
  }

  /** The tags of a set by recency. */
  ghost function Tags(row: seq<Line>, order: seq<int>): (l: seq<int>)
    requires forall k :: 0 <= k < |order| ==> 0 <= order[k] < |row|
    ensures |l| == |order| && forall k :: 0 <= k < |l| ==> l[k] == row[order[k]].tag
  {
    seq(|order|, k requires 0 <= k < |order| => row[order[k]].tag)
  }

  /** Stamps fall and tags differ along the list. */
  ghost predicate Falling(row: seq<Line>, order: seq<int>, j: int, k: int)
    requires 0 <= j < |order| && 0 <= k < |order| && 0 <= order[j] < |row| && 0 <= order[k] < |row|
  {
    row[order[k]].LRU < row[order[j]].LRU && row[order[j]].tag != row[order[k]].tag
  }

  /** Line i goes in front of the lines in `rest`, all other than i. */
  lemma Restamp(row: seq<Line>, rest: seq<int>, now: int, i: int, tag: int)
    requires Listed(row, rest, now) && 0 <= i < |row|
    requires forall j, k :: 0 <= j < k < |rest| ==> Falling(row, rest, j, k)
    requires forall m :: 0 <= m < |row| && row[m].valid && m != i ==> m in rest
    requires forall k :: 0 <= k < |rest| ==> rest[k] != i && row[rest[k]].tag != tag
    ensures var row', order' := row[i := Line(now, true, tag)], [i] + rest;
      Ordered(row', order', now + 1) && Tags(row', order') == [tag] + Tags(row, rest)
  {
    var row', order' := row[i := Line(now, true, tag)], [i] + rest;
    assert forall k :: 0 < k < |order'| ==> order'[k] == rest[k - 1];
    assert order'[0] == i;
    forall j, k | 0 <= j < k < |order'|
      ensures Falling(row', order', j, k)
    {
      if j > 0 { assert Falling(row, rest, j - 1, k - 1); }
    }
    forall m | 0 <= m < |row'| && row'[m].valid
      ensures m in order'
    {
      assert m == i || m in rest;
    }
    RestampTags(row, rest, now, i, tag);
  }

  lemma RestampTags(row: seq<Line>, rest: seq<int>, now: int, i: int, tag: int)
    requires Listed(row, rest, now) && 0 <= i < |row|
    requires forall k :: 0 <= k < |rest| ==> rest[k] != i
    ensures Tags(row[i := Line(now, true, tag)], [i] + rest) == [tag] + Tags(row, rest)
  {
  }

  /** order without its k-th line. */
  ghost function Others(order: seq<int>, k: nat): (rest: seq<int>)
    requires k < |order|
    ensures |rest| == |order| - 1
    ensures forall j :: 0 <= j < |rest| ==> rest[j] == order[if j < k then j else j + 1]
  {
    order[..k] + order[k + 1..]
  }

  lemma OthersFacts(row: seq<Line>, order: seq<int>, now: int, k: nat)
    requires Ordered(row, order, now) && k < |order|
    ensures var rest := Others(order, k);
      && Listed(row, rest, now)
      && (forall j :: 0 <= j < |rest| ==> rest[j] != order[k] && row[rest[j]].tag != row[order[k]].tag)
      && (forall m :: 0 <= m < |row| && row[m].valid && m != order[k] ==> m in rest)
      && Tags(row, rest) == Others(Tags(row, order), k)
  {
    var rest := Others(order, k);
    forall j | 0 <= j < |rest|
      ensures rest[j] != order[k] && row[rest[j]].tag != row[order[k]].tag
    {
      if j < k { assert Falling(row, order, j, k); } else { assert Falling(row, order, k, j + 1); }
    }
    forall m | 0 <= m < |row| && row[m].valid && m != order[k]
      ensures m in rest
    {
      var j :| 0 <= j < |order| && order[j] == m;
      assert rest[if j < k then j else j - 1] == m;
    }
  }

  lemma OthersOrdered(row: seq<Line>, order: seq<int>, now: int, k: nat, a: nat, b: nat)
    requires Ordered(row, order, now) && k < |order| && a < b < |order| - 1
    ensures var rest := Others(order, k);
      0 <= rest[a] < |row| && 0 <= rest[b] < |row| && Falling(row, rest, a, b)
  {
    var j, l := if a < k then a else a + 1, if b < k then b else b + 1;
    assert Falling(row, order, j, l) && Others(order, k)[a] == order[j] && Others(order, k)[b] == order[l];
  }

  /** Line order[k] is stamped now, for its own tag or for one the set lacks. */
  lemma MoveToFront(row: seq<Line>, order: seq<int>, now: int, k: nat, tag: int)
    requires Ordered(row, order, now) && k < |order|
    requires forall j :: 0 <= j < |order| && j != k ==> row[order[j]].tag != tag
    ensures var row', order' := row[order[k] := Line(now, true, tag)], [order[k]] + Others(order, k);
      Ordered(row', order', now + 1) && Tags(row', order') == [tag] + Others(Tags(row, order), k)
  {
    var rest := Others(order, k);
    OthersFacts(row, order, now, k);
    forall a, b | 0 <= a < b < |rest|
      ensures Falling(row, rest, a, b)
    {
      OthersOrdered(row, order, now, k, a, b);
    }
    Restamp(row, rest, now, order[k], tag);
  }

  // ----------------------------------------------------------- counting

  function Upto(n: nat): (s: set<int>)
    ensures |s| == n && forall k :: k in s <==> 0 <= k < n
  {
    if n == 0 then {} else Upto(n - 1) + {n - 1}
  }

  /** A set holds as many tags as it has valid lines. */
  lemma OrderSize(row: seq<Line>, order: seq<int>, now: int)
    requires Ordered(row, order, now)
    ensures |order| <= |row|
    ensures |order| == |row| <==> forall i :: 0 <= i < |row| ==> row[i].valid
  {
    TagsDistinct(row, order, now);
    DistinctSize(order);
    assert Elems(order) <= Upto(|row|);
    SubsetSize(Elems(order), Upto(|row|));
    if i :| 0 <= i < |row| && !row[i].valid {
      assert i !in Elems(order) && i in Upto(|row|);
    } else {
      assert Elems(order) == Upto(|row|);
    }
  }

  lemma SubsetSize(a: set<int>, b: set<int>)
    requires a <= b
    ensures |a| <= |b| && (|a| == |b| <==> a == b)
  {
    assert b == a + (b - a);
    assert |b| == |a| + |b - a|;
  }

  // --------------------------------------------------------- recency

  lemma TagsDistinct(row: seq<Line>, order: seq<int>, now: int)
    requires Ordered(row, order, now)
    ensures Distinct(Tags(row, order)) && Distinct(order)
  {
    forall j, k | 0 <= j < k < |order|
      ensures Tags(row, order)[j] != Tags(row, order)[k] && order[j] != order[k]
    {
      assert Falling(row, order, j, k);
    }
  }

  lemma TouchHit(l: seq<int>, k: nat, lines: nat)
    requires Distinct(l) && k < |l| <= lines
    ensures Touch(l, l[k], lines) == [l[k]] + l[..k] + l[k + 1..]
  {
    hide Without;
    var tag, a, b := l[k], l[..k], l[k + 1..];
    assert tag !in a;
    assert l == a + ([tag] + b);
    WithoutAppend(a, [tag] + b, tag);
    WithoutCons(tag, b, tag);
    Associative([tag], a, b);
    assert |[tag] + (a + b)| == |l|;
  }

  lemma {:induction false} WithoutAbsent(l: seq<int>, tag: int)
    requires tag !in l
    ensures Without(l, tag) == l
  {
    if l != [] {
      WithoutAbsent(l[1..], tag);
    }
  }

  lemma TouchMiss(l: seq<int>, tag: int, lines: nat)
    requires tag !in l && |l| <= lines && lines > 0
    ensures Touch(l, tag, lines) == if |l| < lines then [tag] + l else [tag] + l[..lines - 1]
  {
    WithoutAbsent(l, tag);
  }

  // ------------------------------------------------ the three outcomes

  lemma PlaceOf(row: seq<Line>, order: seq<int>, now: int, i: nat) returns (k: nat)
    requires Ordered(row, order, now) && i < |row| && row[i].valid
    ensures k < |order| && order[k] == i
    ensures forall j :: 0 <= j < |order| && j != k ==> 0 <= order[j] < |row| && row[order[j]].tag != row[i].tag
  {
    k :| 0 <= k < |order| && order[k] == i;
    forall j | 0 <= j < |order| && j != k
      ensures row[order[j]].tag != row[i].tag
    {
      if j < k { assert Falling(row, order, j, k); } else { assert Falling(row, order, k, j); }
    }
  }

  lemma HitStep(row: seq<Line>, order: seq<int>, now: int, i: nat, tag: int) returns (order': seq<int>)
    requires Ordered(row, order, now) && i < |row| && row[i].valid && row[i].tag == tag
    ensures Ordered(row[i := Line(now, true, tag)], order', now + 1)
    ensures Tags(row[i := Line(now, true, tag)], order') == Touch(Tags(row, order), tag, |row|)
    ensures tag in Tags(row, order)
  {
    hide Touch, Distinct;
    var k := PlaceOf(row, order, now, i);
    var l := Tags(row, order);
    assert l[k] == tag;
    TagsDistinct(row, order, now);
    OrderSize(row, order, now);
    TouchHit(l, k, |row|);
    order' := [i] + Others(order, k);
    MoveToFront(row, order, now, k, tag);
    assert [tag] + l[..k] + l[k + 1..] == [tag] + Others(l, k);
  }

  lemma TagAbsent(row: seq<Line>, order: seq<int>, now: int, tag: int)
    requires Ordered(row, order, now) && forall j :: 0 <= j < |row| && row[j].valid ==> row[j].tag != tag
    ensures tag !in Tags(row, order)
  {
  }

  lemma FillStep(row: seq<Line>, order: seq<int>, now: int, i: nat, tag: int) returns (order': seq<int>)
    requires Ordered(row, order, now) && i < |row| && !row[i].valid
    requires forall j :: 0 <= j < |row| && row[j].valid ==> row[j].tag != tag
    ensures Ordered(row[i := Line(now, true, tag)], order', now + 1)
    ensures Tags(row[i := Line(now, true, tag)], order') == Touch(Tags(row, order), tag, |row|)
    ensures tag !in Tags(row, order) && |Tags(row, order)| < |row|
  {
    var l := Tags(row, order);
    TagAbsent(row, order, now, tag);
    OrderSize(row, order, now);
    TouchMiss(l, tag, |row|);
    order' := [i] + order;
    Restamp(row, order, now, i, tag);
  }

  /** The victim is the line used least recently. */
  lemma EvictStep(row: seq<Line>, order: seq<int>, now: int, i: nat, tag: int) returns (order': seq<int>)
    requires Ordered(row, order, now) && i < |row|
    requires forall j :: 0 <= j < |row| ==> row[j].valid && row[j].tag != tag && row[i].LRU <= row[j].LRU
    ensures Ordered(row[i := Line(now, true, tag)], order', now + 1)
    ensures Tags(row[i := Line(now, true, tag)], order') == Touch(Tags(row, order), tag, |row|)
    ensures tag !in Tags(row, order) && |Tags(row, order)| == |row|
  {
    var l := Tags(row, order);
    TagAbsent(row, order, now, tag);
    OrderSize(row, order, now);
    TouchMiss(l, tag, |row|);
    var k := PlaceOf(row, order, now, i);
    assert k < |order| - 1 ==> Falling(row, order, k, |order| - 1);
    order' := [i] + Others(order, k);
    MoveToFront(row, order, now, k, tag);
    assert Others(l, k) == l[..|l| - 1];
  }

  // --------------------------------------------------------- the cache

  class Cache {
    const set_: array2<Line>
    const association: nat
    const num_set: nat
    var timeStamp: nat
    var num_hit: nat
    var num_miss: nat
    var num_eviction: nat

    /** Valid lines of every set by recency. */
    ghost var order: seq<seq<int>>

    ghost function Row(s: nat): (row: seq<Line>)
      requires s < set_.Length0
      reads set_
      ensures |row| == set_.Length1 && forall j :: 0 <= j < |row| ==> row[j] == set_[s, j]
    {
      seq(set_.Length1, j requires 0 <= j < set_.Length1 reads set_ => set_[s, j])
    }

    ghost predicate Valid()
      reads this, set_
    {
      && association > 0 && set_.Length0 == num_set == |order| && set_.Length1 == association
      && forall s :: 0 <= s < num_set ==> Ordered(Row(s), order[s], timeStamp)
    }

    ghost function Lists(): (ls: seq<seq<int>>)
      requires Valid()
      reads this, set_
      ensures |ls| == num_set && forall s :: 0 <= s < num_set ==> ls[s] == Tags(Row(s), order[s])
    {
      seq(num_set, s requires 0 <= s < num_set && Valid() reads this, set_ => Tags(Row(s), order[s]))
    }

    /** What the cache stands for. */
    ghost function Abs(): (c: Sim)
      requires Valid()
      reads this, set_
      ensures |c.lists| == num_set
    {
      Sim(Lists(), num_hit, num_miss, num_eviction)
    }

    /** initCache with enough memory */
    constructor (S: nat, E: nat)
      requires E > 0
      ensures Valid() && fresh(set_) && association == E && num_set == S && Abs() == Empty(S)
    {
      var lines := new Line[S, E];
      for i := 0 to S
        invariant fresh(lines) && lines.Length0 == S && lines.Length1 == E
        invariant forall a, b :: 0 <= a < i && 0 <= b < E ==> lines[a, b].LRU == 0 && !lines[a, b].valid
      {
        for j := 0 to E
          invariant forall a, b :: 0 <= a < i && 0 <= b < E ==> lines[a, b].LRU == 0 && !lines[a, b].valid
          invariant forall b :: 0 <= b < j ==> lines[i, b].LRU == 0 && !lines[i, b].valid
        {
          lines[i, j] := lines[i, j].(LRU := 0, valid := false);
        }
      }
      set_ := lines;
      association := E;
      num_set := S;
      timeStamp := 0;
      num_hit := 0;
      num_miss := 0;
      num_eviction := 0;
      order := seq(S, _ => []);
      new;
      assert Lists() == Empty(S).lists;
    }

    /** Line i of set s gets the tag and the next stamp. */
    method Stamp(s: nat, i: nat, tag: int, ghost order': seq<int>)
      requires Valid() && s < num_set && i < association
      requires Ordered(Row(s)[i := Line(timeStamp, true, tag)], order', timeStamp + 1)
      modifies set_, this`timeStamp, this`order
      ensures Valid() && timeStamp == old(timeStamp) + 1
      ensures Lists() == old(Lists())[s := Tags(old(Row(s))[i := Line(old(timeStamp), true, tag)], order')]
    {
      ghost var row := Row(s);
      set_[s, i] := set_[s, i].(LRU := timeStamp);
      timeStamp := timeStamp + 1;
      set_[s, i] := set_[s, i].(tag := tag);
      set_[s, i] := set_[s, i].(valid := true);
      order := order[s := order'];
      forall t | 0 <= t < num_set && t != s
        ensures Row(t) == old(Row(t))
      {
      }
      assert Row(s) == row[i := Line(old(timeStamp), true, tag)];
    }
  
    /** The loop of updateCache: a line holding the tag, or else the first
        free line and the line with the oldest stamp. */
    method Scan(s: nat, tag: int) returns (hitIDX: int, freeLineIDX: int, LRU_lineIDX: nat)
      requires Valid() && s < num_set
      ensures hitIDX != -1 ==> 0 <= hitIDX < association && Row(s)[hitIDX].valid && Row(s)[hitIDX].tag == tag
      ensures hitIDX == -1 ==> forall j :: 0 <= j < association && Row(s)[j].valid ==> Row(s)[j].tag != tag
      ensures hitIDX == -1 && freeLineIDX != -1 ==> 0 <= freeLineIDX < association && !Row(s)[freeLineIDX].valid
      ensures hitIDX == -1 ==> forall j :: 0 <= j < (if freeLineIDX == -1 then association else freeLineIDX) ==> Row(s)[j].valid
      ensures hitIDX == -1 && freeLineIDX == -1 ==>
        LRU_lineIDX < association && forall j :: 0 <= j < association ==> Row(s)[LRU_lineIDX].LRU <= Row(s)[j].LRU
    {
      ghost var row := Row(s);
      hitIDX := -1;
      freeLineIDX := -1;
      LRU_lineIDX := 0;
      var LRU := timeStamp;
      for i := 0 to association
        invariant forall j :: 0 <= j < i && row[j].valid ==> row[j].tag != tag
        invariant freeLineIDX != -1 ==> 0 <= freeLineIDX < i && !row[freeLineIDX].valid
        invariant forall j :: 0 <= j < (if freeLineIDX == -1 then i else freeLineIDX) ==> row[j].valid
        invariant forall j :: 0 <= j < i ==> LRU <= row[j].LRU
        invariant LRU == timeStamp || (LRU_lineIDX < i && LRU == row[LRU_lineIDX].LRU)
      {
        assert row[i] == set_[s, i];
        if set_[s, i].valid && set_[s, i].tag == tag {
          hitIDX := i;
          return;
        }
        if freeLineIDX == -1 && !set_[s, i].valid {
          freeLineIDX := i;
        }
        if set_[s, i].LRU < LRU {
          LRU_lineIDX := i;
          LRU := set_[s, i].LRU;
        }
      }
      StampsPast(s);
      assert row[0].valid ==> row[0].LRU < timeStamp;
    }

    /** Every valid line was stamped before now. */
    lemma StampsPast(s: nat)
      requires Valid() && s < num_set
      ensures forall j :: 0 <= j < association && Row(s)[j].valid ==> Row(s)[j].LRU < timeStamp
    {
    }

    /** updateCache up to its test for a modification. */
    method UseTag(s: nat, tag: int)
      requires Valid() && s < num_set
      modifies this`timeStamp, this`num_hit, this`num_miss, this`num_eviction, this`order, set_
      ensures Valid() && Abs() == Use(old(Abs()), association, s, tag)
    {
      hide Touch, Ordered;
      ghost var row, ord := Row(s), order[s];
      var hitIDX, freeLineIDX, LRU_lineIDX := Scan(s, tag);
      if hitIDX != -1 {
        ghost var ord' := HitStep(row, ord, timeStamp, hitIDX, tag);
        Stamp(s, hitIDX, tag, ord');
        num_hit := num_hit + 1;
        return;
      }
      num_miss := num_miss + 1;
      if freeLineIDX != -1 {
        ghost var ord' := FillStep(row, ord, timeStamp, freeLineIDX, tag);
        Stamp(s, freeLineIDX, tag, ord');
        return;
      }
      ghost var ord' := EvictStep(row, ord, timeStamp, LRU_lineIDX, tag);
      Stamp(s, LRU_lineIDX, tag, ord');
      num_eviction := num_eviction + 1;
    }

    /** updateCache; a modification comes back as a store. */
    method UpdateCache(action: char, s: nat, tag: int)
      requires Valid() && s < num_set && action != 'I'
      modifies this`timeStamp, this`num_hit, this`num_miss, this`num_eviction, this`order, set_
      ensures Valid() && Abs() == Perform(old(Abs()), association, Access(action, s, tag))
      decreases action == 'M'
    {
      hide Use, Ordered;
      UseTag(s, tag);
      if action == 'M' {
        UpdateCache('S', s, tag);
      }
    }

    /** The loop of simulate over the lines of a trace. */
    method Simulate(trace: seq<TraceLine>, s: nat, b: nat)
      requires Valid() && Geometry(s, b) && num_set == Pow2(s)
      modifies this`timeStamp, this`num_hit, this`num_miss, this`num_eviction, this`order, set_
      requires Abs() == Empty(num_set)
      ensures Valid() && InRange(Accesses(trace, s, b), num_set)
      ensures Abs() == Run(Accesses(trace, s, b), num_set, association)
      ensures var tr := Accesses(trace, s, b);
        && num_hit == HitsDue(tr, association) && num_miss == MissesDue(tr, association)
        && num_eviction == EvictionsDue(tr, association)
    {
      hide Use, Ordered, HitsDue, MissesDue, EvictionsDue;
      for i := 0 to |trace|
        invariant Valid() && InRange(Accesses(trace[..i], s, b), num_set)
        invariant Abs() == Run(Accesses(trace[..i], s, b), num_set, association)
      {
        AccessesStep(trace, s, b, i);
        SetBits(trace[i].address, s, b);
        if trace[i].action != 'I' {
          var tag_cur := TagOf(trace[i].address, s, b);
          var s_cur := SetOf(trace[i].address, s, b);
          UpdateCache(trace[i].action, s_cur, tag_cur);
        }
        RunStep(trace, s, b, i, num_set, association);
      }
      assert trace[..|trace|] == trace;
      CountersExactly(Accesses(trace, s, b), num_set, association);
    }
  }

  datatype TraceLine = TraceLine(action: char, address: nat)

  /** The trace with every address split. */
  function Accesses(trace: seq<TraceLine>, s: nat, b: nat): (tr: seq<Access>)
    requires Geometry(s, b)
    ensures |tr| == |trace|
    ensures forall i :: 0 <= i < |tr| ==>
      tr[i] == Access(trace[i].action, SetOf(trace[i].address, s, b), TagOf(trace[i].address, s, b))
  {
    seq(|trace|, i requires 0 <= i < |trace| =>
      Access(trace[i].action, SetOf(trace[i].address, s, b), TagOf(trace[i].address, s, b)))
  }

  lemma AccessesStep(trace: seq<TraceLine>, s: nat, b: nat, i: nat)
    requires Geometry(s, b) && i < |trace|
    ensures var a := Access(trace[i].action, SetOf(trace[i].address, s, b), TagOf(trace[i].address, s, b));
      Accesses(trace[..i + 1], s, b) == Accesses(trace[..i], s, b) + [a]
  {
  }

  lemma RunStep(trace: seq<TraceLine>, s: nat, b: nat, i: nat, sets: nat, lines: nat)
    requires Geometry(s, b) && i < |trace| && InRange(Accesses(trace[..i], s, b), sets)
    requires SetOf(trace[i].address, s, b) < sets
    ensures var a := Access(trace[i].action, SetOf(trace[i].address, s, b), TagOf(trace[i].address, s, b));
      && InRange(Accesses(trace[..i + 1], s, b), sets)
      && Run(Accesses(trace[..i + 1], s, b), sets, lines) == Perform(Run(Accesses(trace[..i], s, b), sets, lines), lines, a)
  {
    hide Perform;
    AccessesStep(trace, s, b, i);
    var tr := Accesses(trace[..i + 1], s, b);
    assert tr[..|tr| - 1] == Accesses(trace[..i], s, b);
  }
}
