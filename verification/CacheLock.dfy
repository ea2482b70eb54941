/**
 The readers/writers lock around the proxy's cache (Lab7_proxylab/proxy.c):
 the semaphores mutex and w and the counter read_cnt as read_cache and
 write_cache use them, for any number of threads and any interleaving.
 One step is one P, one V or one access to read_cnt.
 */
module CacheLock {
  import opened Threads

  /** The next statement of a thread. */
  datatype PC =
    | Idle
    // read_cache before the search: take mutex, count in, the first takes w, give mutex back
    | REnter | RCount | RFirst | REntered
    // after it: take mutex, count out, the last gives w back, give mutex back
    | Reading | RUncount | RLast | RLeft
    // write_cache: take w, change the list, give w back
    | WEnter | Writing

  datatype State = State(read_cnt: int, mutex: nat, w: nat, pcs: seq<PC>)

  /** A turn lets a thread go on, or an idle one call read_cache or write_cache. */
  datatype Turn = Go(t: nat) | CallRead(t: nat) | CallWrite(t: nat)

  predicate Enabled(s: State, t: nat)
    requires t < |s.pcs|
  {
    match s.pcs[t]
    case Idle => false
    case REnter => s.mutex > 0
    case RFirst => s.read_cnt == 1 ==> s.w > 0
    case Reading => s.mutex > 0
    case WEnter => s.w > 0
    case _ => true
  }

  function At(s: State, t: nat, pc: PC): (s': State)
    requires t < |s.pcs|
    ensures |s'.pcs| == |s.pcs|
  {
    s.(pcs := s.pcs[t := pc])
  }

  function Step(s: State, t: nat): (s': State)
    requires t < |s.pcs| && Enabled(s, t)
    ensures |s'.pcs| == |s.pcs|
  {
    match s.pcs[t]
    case REnter => At(s, t, RCount).(mutex := s.mutex - 1)
    case RCount => At(s, t, RFirst).(read_cnt := s.read_cnt + 1)
    case RFirst => At(s, t, REntered).(w := if s.read_cnt == 1 then s.w - 1 else s.w)
    case REntered => At(s, t, Reading).(mutex := s.mutex + 1)
    case Reading => At(s, t, RUncount).(mutex := s.mutex - 1)
    case RUncount => At(s, t, RLast).(read_cnt := s.read_cnt - 1)
    case RLast => At(s, t, RLeft).(w := if s.read_cnt == 0 then s.w + 1 else s.w)
    case RLeft => At(s, t, Idle).(mutex := s.mutex + 1)
    case WEnter => At(s, t, Writing).(w := s.w - 1)
    case Writing => At(s, t, Idle).(w := s.w + 1)
  }

  function Take(s: State, turn: Turn): (s': State)
    ensures |s'.pcs| == |s.pcs|
  {
    if turn.t >= |s.pcs| then s
    else match turn
      case Go(t) => if Enabled(s, t) then Step(s, t) else s
      case CallRead(t) => if s.pcs[t] == Idle then At(s, t, REnter) else s
      case CallWrite(t) => if s.pcs[t] == Idle then At(s, t, WEnter) else s
  }

  /** cache_init, before any call. */
  predicate Init(s: State) {
    && s.read_cnt == 0 && s.mutex == 1 && s.w == 1
    && forall t :: 0 <= t < |s.pcs| ==> s.pcs[t] == Idle
  }

  function C(s: State, pc: PC): nat {
    Count(s.pcs, pc)
  }

  /** Threads between P(mutex) and V(mutex). */
  function InMutex(s: State): nat {
    C(s, RCount) + C(s, RFirst) + C(s, REntered) + C(s, RUncount) + C(s, RLast) + C(s, RLeft)
  }

  /** Readers on whose behalf w is held. */
  function Holding(s: State): nat {
    C(s, REntered) + C(s, Reading) + C(s, RUncount) + C(s, RLast)
  }

  /** mutex admits one thread; read_cnt counts the readers that have counted
      themselves in and not yet out; w is held by one writer or by the readers
      together. */
  ghost predicate Inv(s: State) {
    MutexHeld(s) && ReadersCounted(s) && WHeld(s)
  }

  ghost predicate MutexHeld(s: State) {
    s.mutex + InMutex(s) == 1
  }

  ghost predicate ReadersCounted(s: State) {
    s.read_cnt == C(s, RFirst) + C(s, REntered) + C(s, Reading) + C(s, RUncount)
  }

  ghost predicate WHeld(s: State) {
    s.w + C(s, Writing) + (if Holding(s) > 0 then 1 else 0) == 1
  }

  lemma InitInv(s: State)
    requires Init(s)
    ensures Inv(s)
  {
    hide Count;
    CountAbsent(s.pcs, RCount);
    CountAbsent(s.pcs, RFirst);
    CountAbsent(s.pcs, REntered);
    CountAbsent(s.pcs, Reading);
    CountAbsent(s.pcs, RUncount);
    CountAbsent(s.pcs, RLast);
    CountAbsent(s.pcs, RLeft);
    CountAbsent(s.pcs, Writing);
  }

  /** The counts after thread t has moved. */
  lemma Moved(s: State, t: nat, pc: PC, s': State)
    requires t < |s.pcs| && s'.pcs == s.pcs[t := pc] && pc != s.pcs[t]
    ensures C(s, s.pcs[t]) > 0
    ensures C(s', RCount) == C(s, RCount) - (if s.pcs[t] == RCount then 1 else 0) + (if pc == RCount then 1 else 0)
    ensures C(s', RFirst) == C(s, RFirst) - (if s.pcs[t] == RFirst then 1 else 0) + (if pc == RFirst then 1 else 0)
    ensures C(s', REntered) == C(s, REntered) - (if s.pcs[t] == REntered then 1 else 0) + (if pc == REntered then 1 else 0)
    ensures C(s', Reading) == C(s, Reading) - (if s.pcs[t] == Reading then 1 else 0) + (if pc == Reading then 1 else 0)
    ensures C(s', RUncount) == C(s, RUncount) - (if s.pcs[t] == RUncount then 1 else 0) + (if pc == RUncount then 1 else 0)
    ensures C(s', RLast) == C(s, RLast) - (if s.pcs[t] == RLast then 1 else 0) + (if pc == RLast then 1 else 0)
    ensures C(s', RLeft) == C(s, RLeft) - (if s.pcs[t] == RLeft then 1 else 0) + (if pc == RLeft then 1 else 0)
    ensures C(s', Writing) == C(s, Writing) - (if s.pcs[t] == Writing then 1 else 0) + (if pc == Writing then 1 else 0)
  {
    hide Count;
    CountAt(s.pcs, t);
    CountMove(s.pcs, t, pc, RCount);
    CountMove(s.pcs, t, pc, RFirst);
    CountMove(s.pcs, t, pc, REntered);
    CountMove(s.pcs, t, pc, Reading);
    CountMove(s.pcs, t, pc, RUncount);
    CountMove(s.pcs, t, pc, RLast);
    CountMove(s.pcs, t, pc, RLeft);
    CountMove(s.pcs, t, pc, Writing);
  }

  lemma TakeMutex(s: State, turn: Turn)
    requires MutexHeld(s)
    ensures MutexHeld(Take(s, turn))
  {
    hide Count;
    var s' := Take(s, turn);
    if turn.t < |s.pcs| && s'.pcs[turn.t] != s.pcs[turn.t] {
      Moved(s, turn.t, s'.pcs[turn.t], s');
    }
  }

  lemma TakeReaders(s: State, turn: Turn)
    requires ReadersCounted(s)
    ensures ReadersCounted(Take(s, turn))
  {
    hide Count;
    var s' := Take(s, turn);
    if turn.t < |s.pcs| && s'.pcs[turn.t] != s.pcs[turn.t] {
      Moved(s, turn.t, s'.pcs[turn.t], s');
    }
  }

  lemma TakeW(s: State, turn: Turn)
    requires Inv(s)
    ensures WHeld(Take(s, turn))
  {
    hide Count;
    var s' := Take(s, turn);
    if turn.t < |s.pcs| && s'.pcs[turn.t] != s.pcs[turn.t] {
      Moved(s, turn.t, s'.pcs[turn.t], s');
    }
  }

  lemma TakeInv(s: State, turn: Turn)
    requires Inv(s)
    ensures Inv(Take(s, turn))
  {
    TakeMutex(s, turn);
    TakeReaders(s, turn);
    hide Count;
    TakeW(s, turn);
  }

  // --------------------------------------------------------- whole runs

  ghost function Exec(s: State, schedule: seq<Turn>): (s': State)
    requires Inv(s)
    ensures Inv(s') && |s'.pcs| == |s.pcs|
    decreases |schedule|
  {
    if schedule == [] then s
    else
      TakeInv(s, schedule[0]);
      Exec(Take(s, schedule[0]), schedule[1..])
  }

  lemma {:induction false} CountTwo(pcs: seq<PC>, t: nat, u: nat)
    requires t < u < |pcs| && pcs[t] == pcs[u]
    ensures Count(pcs, pcs[t]) >= 2
  {
    if t > 0 {
      CountTwo(pcs[1..], t - 1, u - 1);
    } else {
      CountAt(pcs[1..], u - 1);
    }
  }

  /** A writer at work is alone: no reader has passed P(w) and no other
      thread is writing. */
  lemma WriterAlone(s: State, t: nat, u: nat)
    requires Inv(s) && t < |s.pcs| && u < |s.pcs| && t != u && s.pcs[t] == Writing
    ensures s.pcs[u] !in {Writing, REntered, Reading, RUncount, RLast}
  {
    hide Count;
    CountAt(s.pcs, t);
    CountAt(s.pcs, u);
    if s.pcs[u] == Writing {
      CountTwo(s.pcs, if t < u then t else u, if t < u then u else t);
    }
  }

  /** Mutual exclusion in every interleaving from cache_init. */
  lemma Exclusion(s: State, schedule: seq<Turn>, t: nat, u: nat)
    requires Init(s) && t < |s.pcs| && u < |s.pcs| && t != u
    ensures Inv(s)
    ensures var pcs := Exec(s, schedule).pcs;
      pcs[t] == Writing ==> pcs[u] != Writing && pcs[u] != Reading
  {
    InitInv(s);
    var s' := Exec(s, schedule);
    if s'.pcs[t] == Writing {
      WriterAlone(s', t, u);
    }
  }

  /** While a thread is inside read_cache or write_cache, some such thread can go on. */
  lemma NeverStuck(s: State, a: nat) returns (t: nat)
    requires Inv(s) && a < |s.pcs| && s.pcs[a] != Idle
    ensures t < |s.pcs| && Enabled(s, t)
  {
    hide Count;
    CountAt(s.pcs, a);
    if Enabled(s, a) {
      t := a;
    } else if C(s, Writing) > 0 {
      t := CountFind(s.pcs, Writing);
    } else if C(s, RFirst) > 0 {
      t := CountFind(s.pcs, RFirst);
    } else if C(s, RCount) > 0 {
      t := CountFind(s.pcs, RCount);
    } else if C(s, REntered) > 0 {
      t := CountFind(s.pcs, REntered);
    } else if C(s, RUncount) > 0 {
      t := CountFind(s.pcs, RUncount);
    } else if C(s, RLast) > 0 {
      t := CountFind(s.pcs, RLast);
    } else if C(s, RLeft) > 0 {
      t := CountFind(s.pcs, RLeft);
    } else {
      t := CountFind(s.pcs, Reading);
    }
  }

  // ------------------------------------------------ what a thread waits for

  /** Between P(mutex) and V(mutex). */
  predicate AtCounter(pc: PC) {
    pc in {RCount, RFirst, REntered, RUncount, RLast, RLeft}
  }

  /** A writer, or a reader on whose behalf w is held. */
  predicate HoldsW(pc: PC) {
    pc in {Writing, REntered, Reading, RUncount, RLast}
  }

  lemma MutexTaken(s: State) returns (u: nat)
    requires Inv(s) && s.mutex == 0
    ensures u < |s.pcs| && AtCounter(s.pcs[u])
  {
    hide Count;
    if C(s, RCount) > 0 { u := CountFind(s.pcs, RCount); }
    else if C(s, RFirst) > 0 { u := CountFind(s.pcs, RFirst); }
    else if C(s, REntered) > 0 { u := CountFind(s.pcs, REntered); }
    else if C(s, RUncount) > 0 { u := CountFind(s.pcs, RUncount); }
    else if C(s, RLast) > 0 { u := CountFind(s.pcs, RLast); }
    else { u := CountFind(s.pcs, RLeft); }
  }

  lemma WTaken(s: State) returns (u: nat)
    requires Inv(s) && s.w == 0
    ensures u < |s.pcs| && HoldsW(s.pcs[u])
  {
    hide Count;
    if C(s, Writing) > 0 { u := CountFind(s.pcs, Writing); }
    else if C(s, REntered) > 0 { u := CountFind(s.pcs, REntered); }
    else if C(s, Reading) > 0 { u := CountFind(s.pcs, Reading); }
    else if C(s, RUncount) > 0 { u := CountFind(s.pcs, RUncount); }
    else { u := CountFind(s.pcs, RLast); }
  }

  /** The first reader at P(w): no reader holds w. */
  lemma FirstReader(s: State, t: nat)
    requires Inv(s) && t < |s.pcs| && s.pcs[t] == RFirst && s.read_cnt == 1
    ensures Holding(s) == 0
  {
    hide Count;
    CountAt(s.pcs, t);
  }

  /** Why thread t cannot go on: thread u is in its way. */
  ghost predicate InTheWay(s: State, t: nat, u: nat)
    requires t < |s.pcs| && u < |s.pcs|
  {
    match s.pcs[t]
    case REnter => AtCounter(s.pcs[u])
    case Reading => AtCounter(s.pcs[u])
    case RFirst => s.pcs[u] == Writing
    case WEnter => HoldsW(s.pcs[u])
    case _ => false
  }

  lemma WaitsInv(s: State, t: nat) returns (u: nat)
    requires Inv(s) && t < |s.pcs| && s.pcs[t] != Idle && !Enabled(s, t)
    ensures u < |s.pcs| && u != t && InTheWay(s, t, u)
  {
    hide Inv;
    if s.pcs[t] == REnter || s.pcs[t] == Reading {
      u := MutexTaken(s);
    } else {
      u := WTaken(s);
      if s.pcs[t] == RFirst {
        FirstReader(s, t);
        CountAt(s.pcs, u);
      }
    }
  }

  /** In every reachable state a thread inside a call waits only for: a thread
      between P(mutex) and V(mutex), when it is about to take mutex; a writer,
      when it is the first reader; a writer or readers, when it is to write. */
  lemma WaitsFor(s: State, schedule: seq<Turn>, t: nat) returns (u: nat)
    requires Init(s) && t < |s.pcs|
    ensures Inv(s)
    ensures var s' := Exec(s, schedule);
      s'.pcs[t] != Idle && !Enabled(s', t) ==> u < |s'.pcs| && u != t && InTheWay(s', t, u)
  {
    InitInv(s);
    var s' := Exec(s, schedule);
    u := 0;
    if s'.pcs[t] != Idle && !Enabled(s', t) {
      u := WaitsInv(s', t);
    }
  }

  // ------------------------------------------------------- readers together

  /** Threads 0 to k - 1 read, all others are idle. */
  ghost predicate ReadersIn(s: State, k: nat) {
    && k <= |s.pcs| && s.read_cnt == k && s.mutex == 1 && s.w == (if k == 0 then 1 else 0)
    && forall t :: 0 <= t < |s.pcs| ==> s.pcs[t] == if t < k then Reading else Idle
  }

  /** The turns of a reader up to the search of the list. */
  function Enter(t: nat): seq<Turn> {
    [CallRead(t), Go(t), Go(t), Go(t), Go(t)]
  }

  lemma ExecStep(s: State, run: seq<Turn>, s1: State)
    requires Inv(s) && run != [] && Take(s, run[0]) == s1
    ensures Inv(s1) && Exec(s, run) == Exec(s1, run[1..])
  {
    hide Inv, Take;
    TakeInv(s, run[0]);
  }

  /** Thread k has come in as well. */
  function Entered(s: State, k: nat): State
    requires k < |s.pcs|
  {
    At(s, k, Reading).(read_cnt := k + 1, w := 0)
  }

  lemma OneMoreReader(s: State, k: nat, rest: seq<Turn>)
    requires Inv(s) && ReadersIn(s, k) && k < |s.pcs|
    ensures var s' := Entered(s, k);
      Inv(s') && |s'.pcs| == |s.pcs| && ReadersIn(s', k + 1) && Exec(s, Enter(k) + rest) == Exec(s', rest)
  {
    hide Inv;
    var run := Enter(k) + rest;
    var s1 := At(s, k, REnter);
    var s2 := At(s, k, RCount).(mutex := 0);
    var s3 := At(s, k, RFirst).(mutex := 0, read_cnt := k + 1);
    var s4 := At(s, k, REntered).(mutex := 0, read_cnt := k + 1, w := 0);
    var s5 := Entered(s, k);
    ExecStep(s, run, s1);
    ExecStep(s1, run[1..], s2);
    ExecStep(s2, run[2..], s3);
    ExecStep(s3, run[3..], s4);
    ExecStep(s4, run[4..], s5);
    assert run[5..] == rest;
  }

  lemma {:induction false} OthersToo(s: State, k: nat) returns (schedule: seq<Turn>)
    requires Inv(s) && ReadersIn(s, k)
    ensures ReadersIn(Exec(s, schedule), |s.pcs|)
    decreases |s.pcs| - k
  {
    hide Inv, Enter;
    schedule := [];
    if k < |s.pcs| {
      OneMoreReader(s, k, []);
      var rest := OthersToo(Entered(s, k), k + 1);
      OneMoreReader(s, k, rest);
      schedule := Enter(k) + rest;
    }
  }

  /** From the start any number of threads can come to read at the same time. */
  lemma AllReading(s: State) returns (schedule: seq<Turn>)
    requires Init(s)
    ensures Inv(s)
    ensures var s' := Exec(s, schedule);
      |s'.pcs| == |s.pcs| && forall t :: 0 <= t < |s'.pcs| ==> s'.pcs[t] == Reading
  {
    InitInv(s);
    hide Inv;
    schedule := OthersToo(s, 0);
  }

  // ----------------------------------------------------- the shared memory

  /** The lock fields of cache_t and the threads in memory, advanced one
      statement at a time. */
  class Lock {
    var read_cnt: int
    var mutex: nat
    var w: nat
    const pcs: array<PC>

    ghost function Abs(): State
      reads this, pcs
    {
      State(read_cnt, mutex, w, pcs[..])
    }

    /** cache_init */
    constructor (threads: nat)
      ensures fresh(pcs) && pcs.Length == threads && Init(Abs()) && Inv(Abs())
    {
      read_cnt := 0;
      mutex := 1;
      w := 1;
      pcs := new PC[threads](_ => Idle);
      new;
      InitInv(Abs());
    }

    /** Thread t executes its next statement of read_cache, or is left waiting. */
    method ReadCache(t: nat)
      requires Inv(Abs()) && t < pcs.Length && pcs[t] !in {WEnter, Writing}
      modifies this, pcs
      ensures Inv(Abs()) && Abs() == Take(old(Abs()), if old(pcs[t]) == Idle then CallRead(t) else Go(t))
    {
      hide Inv;
      TakeInv(Abs(), if pcs[t] == Idle then CallRead(t) else Go(t));
      match pcs[t] {
        case Idle =>
          pcs[t] := REnter;
        case REnter =>
          if mutex > 0 { mutex := mutex - 1; pcs[t] := RCount; }
        case RCount =>
          read_cnt := read_cnt + 1;
          pcs[t] := RFirst;
        case RFirst =>
          if read_cnt == 1 {
            if w > 0 { w := w - 1; pcs[t] := REntered; }
          } else {
            pcs[t] := REntered;
          }
        case REntered =>
          mutex := mutex + 1;
          pcs[t] := Reading;
        case Reading =>
          if mutex > 0 { mutex := mutex - 1; pcs[t] := RUncount; }
        case RUncount =>
          read_cnt := read_cnt - 1;
          pcs[t] := RLast;
        case RLast =>
          if read_cnt == 0 { w := w + 1; }
          pcs[t] := RLeft;
        case RLeft =>
          mutex := mutex + 1;
          pcs[t] := Idle;
      }
    }

    /** Thread t executes its next statement of write_cache, or is left waiting. */
    method WriteCache(t: nat)
      requires Inv(Abs()) && t < pcs.Length && pcs[t] in {Idle, WEnter, Writing}
      modifies this, pcs
      ensures Inv(Abs()) && Abs() == Take(old(Abs()), if old(pcs[t]) == Idle then CallWrite(t) else Go(t))
    {
      hide Inv;
      TakeInv(Abs(), if pcs[t] == Idle then CallWrite(t) else Go(t));
      match pcs[t] {
        case Idle =>
          pcs[t] := WEnter;
        case WEnter =>
          if w > 0 { w := w - 1; pcs[t] := Writing; }
        case Writing =>
          w := w + 1;
          pcs[t] := Idle;
      }
    }
  }
}
