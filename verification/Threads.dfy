/** Counting the threads that stand at a program point. */
module Threads {

  function Count<T(==)>(pcs: seq<T>, pc: T): nat {
    if pcs == [] then 0 else (if pcs[0] == pc then 1 else 0) + Count(pcs[1..], pc)
  }

  lemma {:induction false} CountMove<T>(pcs: seq<T>, t: nat, to: T, pc: T)
    requires t < |pcs|
    ensures Count(pcs[t := to], pc) ==
      Count(pcs, pc) - (if pcs[t] == pc then 1 else 0) + (if to == pc then 1 else 0)
  {
    if t > 0 {
      CountMove(pcs[1..], t - 1, to, pc);
      assert pcs[t := to][1..] == pcs[1..][t - 1 := to];
    } else {
      assert pcs[0 := to][1..] == pcs[1..];
    }
  }

  lemma {:induction false} CountAt<T>(pcs: seq<T>, t: nat)
    requires t < |pcs|
    ensures Count(pcs, pcs[t]) > 0
  {
    if t > 0 {
      CountAt(pcs[1..], t - 1);
    }
  }

  lemma {:induction false} CountFind<T>(pcs: seq<T>, pc: T) returns (t: nat)
    requires Count(pcs, pc) > 0
    ensures t < |pcs| && pcs[t] == pc
  {
    if pcs[0] == pc {
      t := 0;
    } else {
      t := CountFind(pcs[1..], pc);
      t := t + 1;
    }
  }

  lemma {:induction false} CountAbsent<T>(pcs: seq<T>, pc: T)
    requires forall t :: 0 <= t < |pcs| ==> pcs[t] != pc
    ensures Count(pcs, pc) == 0
  {
    if pcs != [] {
      CountAbsent(pcs[1..], pc);
    }
  }
}
