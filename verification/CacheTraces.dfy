/** Whole traces through the LRU cache, for any number of lines per set. */
module CacheTraces {
  import opened CacheRecency

  /** The recency list of every set, and the counters. */
  datatype Sim = Sim(lists: seq<seq<int>>, hits: nat, misses: nat, evictions: nat)

  /** One use of a tag. */
  function Use(c: Sim, lines: nat, s: nat, tag: int): (c': Sim)
    requires s < |c.lists|
    ensures |c'.lists| == |c.lists|
  {
    var l := c.lists[s];
    var c' := c.(lists := c.lists[s := Touch(l, tag, lines)]);
    if tag in l then c'.(hits := c.hits + 1)
    else if |l| < lines then c'.(misses := c.misses + 1)
    else c'.(misses := c.misses + 1, evictions := c.evictions + 1)
  }

  /** Loads and stores use their tag once, modifications twice, instruction
      fetches not at all. */
  function Perform(c: Sim, lines: nat, a: Access): (c': Sim)
    requires a.set_ < |c.lists|
    ensures |c'.lists| == |c.lists|
  {
    if a.action == 'I' then c
    else if a.action == 'M' then Use(Use(c, lines, a.set_, a.tag), lines, a.set_, a.tag)
    else Use(c, lines, a.set_, a.tag)
  }

  predicate InRange(tr: seq<Access>, sets: nat) {
    forall i :: 0 <= i < |tr| ==> tr[i].set_ < sets
  }

  function Empty(sets: nat): (c: Sim)
    ensures |c.lists| == sets
  {
    Sim(seq(sets, _ => []), 0, 0, 0)
  }

  function Run(tr: seq<Access>, sets: nat, lines: nat): (c: Sim)
    requires InRange(tr, sets)
    ensures |c.lists| == sets
  {
    if tr == [] then Empty(sets)
    else Perform(Run(tr[..|tr| - 1], sets, lines), lines, tr[|tr| - 1])
  }

  /** The tags used in set s, oldest first. */
  function History(tr: seq<Access>, s: nat): seq<int> {
    if tr == [] then []
    else
      var a := tr[|tr| - 1];
      History(tr[..|tr| - 1], s) + if a.action != 'I' && a.set_ == s then [a.tag] else []
  }

  // ------------------------------------------------------- the contents

  lemma TouchFront(l: seq<int>, tag: int, lines: nat)
    requires lines > 0
    ensures tag in Touch(l, tag, lines)
    ensures Touch(Touch(l, tag, lines), tag, lines) == Touch(l, tag, lines)
  {
    TakeCons(tag, Without(l, tag), lines - 1);
    var r := Touch(l, tag, lines);
    assert r[0] == tag;
    assert [tag] + r[1..] == r;
  }

  /** One trace line touches its own set only. */
  lemma PerformList(c: Sim, lines: nat, a: Access, s: nat)
    requires a.set_ < |c.lists| && s < |c.lists| && lines > 0
    ensures Perform(c, lines, a).lists[s] ==
      if a.action != 'I' && a.set_ == s then Touch(c.lists[s], a.tag, lines) else c.lists[s]
  {
    TouchFront(c.lists[a.set_], a.tag, lines);
  }

  /** What a set holds is the top of the stack of its history. */
  lemma {:induction false} Contents(tr: seq<Access>, sets: nat, lines: nat, s: nat)
    requires InRange(tr, sets) && s < sets && lines > 0
    ensures Run(tr, sets, lines).lists[s] == Take(Stack(History(tr, s)), lines)
  {
    hide Touch, Take, Perform;
    if tr != [] {
      var before, a := tr[..|tr| - 1], tr[|tr| - 1];
      var h := History(before, s);
      Contents(before, sets, lines, s);
      PerformList(Run(before, sets, lines), lines, a, s);
      if a.action != 'I' && a.set_ == s {
        StackStep(h, a.tag);
        TouchTake(Stack(h), a.tag, lines);
      } else {
        assert History(tr, s) == h;
      }
    } else {
      TakeNothing(lines);
    }
  }

  lemma TakeNothing(lines: nat)
    ensures Take(Stack([]), lines) == []
  {
  }

  lemma StackStep(h: seq<int>, tag: int)
    ensures Stack(h + [tag]) == [tag] + Without(Stack(h), tag)
  {
    assert (h + [tag])[..|h|] == h;
  }

  /** LRU inclusion: with more lines per set the same trace leaves the same
      tags in the same order, and perhaps more behind them. */
  lemma Inclusion(tr: seq<Access>, sets: nat, lines: nat, more: nat, s: nat)
    requires InRange(tr, sets) && s < sets && 0 < lines <= more
    ensures Run(tr, sets, lines).lists[s] <= Run(tr, sets, more).lists[s]
  {
    Contents(tr, sets, lines, s);
    Contents(tr, sets, more, s);
  }

  lemma UseMonotone(c: Sim, d: Sim, lines: nat, more: nat, s: nat, tag: int)
    requires s < |c.lists| == |d.lists| && c.lists[s] <= d.lists[s] && d.misses <= c.misses
    ensures Use(d, more, s, tag).misses <= Use(c, lines, s, tag).misses
  {
  }

  /** More lines per set never cost a miss. */
  lemma {:induction false} MissesNeverIncrease(tr: seq<Access>, sets: nat, lines: nat, more: nat)
    requires InRange(tr, sets) && 0 < lines <= more
    ensures Run(tr, sets, more).misses <= Run(tr, sets, lines).misses
  {
    if tr != [] {
      var before, a := tr[..|tr| - 1], tr[|tr| - 1];
      MissesNeverIncrease(before, sets, lines, more);
      Inclusion(before, sets, lines, more, a.set_);
      var c, d := Run(before, sets, lines), Run(before, sets, more);
      UseMonotone(c, d, lines, more, a.set_, a.tag);
      if a.action == 'M' {
        TouchFront(c.lists[a.set_], a.tag, lines);
        TouchFront(d.lists[a.set_], a.tag, more);
      }
    }
  }

  predicate LastUse(h: seq<int>, p: int, tag: int) {
    0 <= p < |h| && h[p] == tag && tag !in h[p + 1..]
  }

  lemma LastUseUnique(h: seq<int>, p: nat, q: nat, tag: int)
    requires LastUse(h, p, tag) && LastUse(h, q, tag)
    ensures p == q
  {
  }

  lemma HeldAtDepth(h: seq<int>, lines: nat, p: nat, tag: int)
    requires LastUse(h, p, tag)
    ensures tag in Take(Stack(h), lines) <==> |Elems(h[p + 1..])| < lines
  {
    StackDistance(h, p);
    StackDistinct(h);
    var k := |Elems(h[p + 1..])|;
    assert k < lines ==> Take(Stack(h), lines)[k] == tag;
  }

  /** tag was last used at place p of the history, and fewer than `lines`
      different tags after that. */
  ghost predicate RecentAt(h: seq<int>, lines: nat, tag: int, p: int) {
    LastUse(h, p, tag) && |Elems(h[p + 1..])| < lines
  }

  lemma HeldInStack(h: seq<int>, lines: nat, tag: int)
    ensures tag in Take(Stack(h), lines) <==> exists p :: RecentAt(h, lines, tag, p)
  {
    hide Stack;
    StackDistinct(h);
    if tag in h {
      var p := FindLast(h, tag);
      HeldAtDepth(h, lines, p, tag);
      assert tag in Take(Stack(h), lines) <==> RecentAt(h, lines, tag, p);
      forall q | RecentAt(h, lines, tag, q)
        ensures q == p
      {
        LastUseUnique(h, p, q, tag);
      }
    }
  }

  /** A tag is held exactly if it was used and fewer than `lines` other tags of
      its set were used since. */
  lemma HeldExactly(tr: seq<Access>, sets: nat, lines: nat, s: nat, tag: int)
    requires InRange(tr, sets) && s < sets && lines > 0
    ensures tag in Run(tr, sets, lines).lists[s] <==> exists p :: RecentAt(History(tr, s), lines, tag, p)
  {
    Contents(tr, sets, lines, s);
    HeldInStack(History(tr, s), lines, tag);
  }

  lemma {:induction false} FindLast(h: seq<int>, tag: int) returns (p: nat)
    requires tag in h
    ensures LastUse(h, p, tag)
  {
    p := |h| - 1;
    while h[p] != tag
      decreases p
      invariant p < |h| && tag !in h[p + 1..] && tag in h[..p + 1]
    {
      assert h[p..] == [h[p]] + h[p + 1..];
      assert h[..p + 1] == h[..p] + [h[p]];
      p := p - 1;
    }
  }

  // ------------------------------------------------------- the counters

  function Count(tr: seq<Access>, action: char): nat {
    if tr == [] then 0
    else Count(tr[..|tr| - 1], action) + if tr[|tr| - 1].action == action then 1 else 0
  }

  /** The second use of a modification always hits. */
  lemma ModifyHits(c: Sim, lines: nat, a: Access)
    requires a.set_ < |c.lists| && lines > 0 && a.action == 'M'
    ensures var once := Use(c, lines, a.set_, a.tag);
      Perform(c, lines, a) == once.(hits := once.hits + 1)
  {
    TouchFront(c.lists[a.set_], a.tag, lines);
  }

  // ------------------------------------------ the counters from the history

  /** tag was used, and fewer than `lines` different tags after its last use. */
  ghost predicate Recent(h: seq<int>, lines: nat, tag: int) {
    exists p :: RecentAt(h, lines, tag, p)
  }

  /** The hits a trace is due by the history of its sets alone: an access whose
      tag is recent, and the second access of every modification. */
  ghost function HitsDue(tr: seq<Access>, lines: nat): nat {
    if tr == [] then 0
    else
      var before, a := tr[..|tr| - 1], tr[|tr| - 1];
      HitsDue(before, lines)
      + (if a.action != 'I' && Recent(History(before, a.set_), lines, a.tag) then 1 else 0)
      + (if a.action == 'M' then 1 else 0)
  }

  /** The misses: an access whose tag is not recent. */
  ghost function MissesDue(tr: seq<Access>, lines: nat): nat {
    if tr == [] then 0
    else
      var before, a := tr[..|tr| - 1], tr[|tr| - 1];
      MissesDue(before, lines)
      + if a.action != 'I' && !Recent(History(before, a.set_), lines, a.tag) then 1 else 0
  }

  /** The evictions: such an access when `lines` different tags came before. */
  ghost function EvictionsDue(tr: seq<Access>, lines: nat): nat {
    if tr == [] then 0
    else
      var before, a := tr[..|tr| - 1], tr[|tr| - 1];
      var h := History(before, a.set_);
      EvictionsDue(before, lines)
      + if a.action != 'I' && !Recent(h, lines, a.tag) && |Elems(h)| >= lines then 1 else 0
  }

  /** A set has as many lines in use as tags came, up to all its lines. */
  lemma InUse(tr: seq<Access>, sets: nat, lines: nat, s: nat)
    requires InRange(tr, sets) && s < sets && lines > 0
    ensures |Run(tr, sets, lines).lists[s]| == (if |Elems(History(tr, s))| < lines then |Elems(History(tr, s))| else lines)
  {
    var h := History(tr, s);
    Contents(tr, sets, lines, s);
    StackDistinct(h);
    DistinctSize(Stack(h));
    assert Elems(Stack(h)) == Elems(h);
  }

  /** What one access adds to the counters. */
  lemma PerformCounts(c: Sim, lines: nat, a: Access)
    requires a.set_ < |c.lists| && lines > 0
    ensures var c', held, full := Perform(c, lines, a), a.tag in c.lists[a.set_], |c.lists[a.set_]| >= lines;
      && c'.hits == c.hits + (if a.action != 'I' && held then 1 else 0) + (if a.action == 'M' then 1 else 0)
      && c'.misses == c.misses + (if a.action != 'I' && !held then 1 else 0)
      && c'.evictions == c.evictions + (if a.action != 'I' && !held && full then 1 else 0)
  {
    if a.action == 'M' {
      ModifyHits(c, lines, a);
    }
  }

  /** All three counters are what the history of the sets says. */
  lemma {:induction false} CountersExactly(tr: seq<Access>, sets: nat, lines: nat)
    requires InRange(tr, sets) && lines > 0
    ensures var c := Run(tr, sets, lines);
      c.hits == HitsDue(tr, lines) && c.misses == MissesDue(tr, lines) && c.evictions == EvictionsDue(tr, lines)
  {
    hide Perform, RecentAt, History, Elems;
    if tr != [] {
      var before, a := tr[..|tr| - 1], tr[|tr| - 1];
      var c := Run(before, sets, lines);
      CountersExactly(before, sets, lines);
      HeldExactly(before, sets, lines, a.set_, a.tag);
      InUse(before, sets, lines, a.set_);
      PerformCounts(c, lines, a);
    }
  }

  // ------------------------------------------------ sums of the counters

  /** hits + misses = loads + stores + 2 * modifies. */
  lemma {:induction false} EveryUseCounted(tr: seq<Access>, sets: nat, lines: nat)
    requires InRange(tr, sets)
    requires forall i :: 0 <= i < |tr| ==> tr[i].action in "ILSM"
    ensures var c := Run(tr, sets, lines);
      c.hits + c.misses == Count(tr, 'L') + Count(tr, 'S') + 2 * Count(tr, 'M')
  {
    if tr != [] {
      EveryUseCounted(tr[..|tr| - 1], sets, lines);
      assert tr[|tr| - 1].action in "ILSM";
    }
  }

  function Total(ls: seq<seq<int>>): nat {
    if ls == [] then 0 else |ls[0]| + Total(ls[1..])
  }

  lemma {:induction false} TotalUpdate(ls: seq<seq<int>>, s: nat, l: seq<int>)
    requires s < |ls|
    ensures Total(ls[s := l]) == Total(ls) - |ls[s]| + |l|
  {
    if s > 0 {
      TotalUpdate(ls[1..], s - 1, l);
      assert ls[s := l][1..] == ls[1..][s - 1 := l];
    } else {
      assert ls[s := l][1..] == ls[1..];
    }
  }

  lemma {:induction false} TotalEmpty(n: nat)
    ensures Total(Empty(n).lists) == 0
  {
    if n > 0 {
      TotalEmpty(n - 1);
      assert Empty(n).lists[1..] == Empty(n - 1).lists;
    }
  }

  lemma {:induction false} TotalBound(ls: seq<seq<int>>, lines: nat)
    requires forall i :: 0 <= i < |ls| ==> |ls[i]| <= lines
    ensures Total(ls) <= lines * |ls|
  {
    if ls != [] {
      TotalBound(ls[1..], lines);
      assert lines * |ls| == lines * |ls[1..]| + lines;
    }
  }

  /** Counters and lists in step: no set overflows or repeats a tag, and every
      miss filled a line that an eviction had emptied or none had used. */
  ghost predicate Balanced(c: Sim, lines: nat) {
    && c.misses == c.evictions + Total(c.lists)
    && forall s :: 0 <= s < |c.lists| ==> |c.lists[s]| <= lines && Distinct(c.lists[s])
  }

  lemma UseBalanced(c: Sim, lines: nat, s: nat, tag: int)
    requires Balanced(c, lines) && s < |c.lists| && lines > 0
    ensures Balanced(Use(c, lines, s, tag), lines)
  {
    var l := c.lists[s];
    var r := Touch(l, tag, lines);
    TotalUpdate(c.lists, s, r);
    WithoutDistinct(l, tag);
    WithoutMember(l, tag, tag);
    assert |r| == if tag in l || |l| == lines then |l| else |l| + 1;
  }

  lemma EmptyBalanced(sets: nat, lines: nat)
    ensures Balanced(Empty(sets), lines)
  {
    TotalEmpty(sets);
  }

  lemma {:induction false} RunBalanced(tr: seq<Access>, sets: nat, lines: nat)
    requires InRange(tr, sets) && lines > 0
    ensures Balanced(Run(tr, sets, lines), lines)
  {
    hide Balanced, Use;
    if tr == [] {
      EmptyBalanced(sets, lines);
    } else {
      var before, a := tr[..|tr| - 1], tr[|tr| - 1];
      RunBalanced(before, sets, lines);
      var c := Run(before, sets, lines);
      UseBalanced(c, lines, a.set_, a.tag);
      UseBalanced(Use(c, lines, a.set_, a.tag), lines, a.set_, a.tag);
    }
  }

  /** misses - evictions = lines in use, at most lines * sets of them. */
  lemma LinesInUse(tr: seq<Access>, sets: nat, lines: nat)
    requires InRange(tr, sets) && lines > 0
    ensures var c := Run(tr, sets, lines);
      c.misses - c.evictions == Total(c.lists) <= lines * sets
  {
    RunBalanced(tr, sets, lines);
    TotalBound(Run(tr, sets, lines).lists, lines);
  }
}
