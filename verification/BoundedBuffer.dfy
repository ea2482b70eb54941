/**
 The bounded buffer of Lab7_proxylab/sbuf.c under any interleaving of any
 number of threads that loop over sbuf_insert or over sbuf_remove.  One step
 is one P, one V or one access to buf; front and rear are unbounded.
 */
module BoundedBuffer {
  import opened Threads

  /** The next statement of a thread; a thread may leave between two calls. */
  datatype PC =
    | PSlots | PMutex | Store | VMutex | VItems            // sbuf_insert
    | PItems | PMutex' | Fetch | VMutex' | VSlots          // sbuf_remove
    | Left

  /** `inserted` and `removed` record the items in the order of Store and Fetch. */
  datatype State = State(
    n: nat, buf: seq<int>, front: nat, rear: nat,
    items: nat, slots: nat, mutex: nat,
    pcs: seq<PC>, inserted: seq<int>, removed: seq<int>)

  /** What a scheduled thread does with its turn: go on, with `item` to insert
      if it comes to that, or leave its loop if it is between two calls. */
  datatype Turn = Go(t: nat, item: int) | Leave(t: nat)

  predicate Enabled(s: State, t: nat)
    requires t < |s.pcs|
  {
    match s.pcs[t]
    case PSlots => s.slots > 0
    case PItems => s.items > 0
    case PMutex => s.mutex > 0
    case PMutex' => s.mutex > 0
    case Left => false
    case _ => true
  }

  function At(s: State, t: nat, pc: PC): (s': State)
    requires t < |s.pcs|
    ensures |s'.pcs| == |s.pcs|
  {
    s.(pcs := s.pcs[t := pc])
  }

  function Step(s: State, t: nat, item: int): (s': State)
    requires t < |s.pcs| && Enabled(s, t) && s.n > 0 && |s.buf| == s.n
    ensures |s'.pcs| == |s.pcs|
  {
    match s.pcs[t]
    case PSlots => At(s, t, PMutex).(slots := s.slots - 1)
    case PMutex => At(s, t, Store).(mutex := s.mutex - 1)
    case Store =>
      var rear := s.rear + 1;
      At(s, t, VMutex).(rear := rear, buf := s.buf[rear % s.n := item], inserted := s.inserted + [item])
    case VMutex => At(s, t, VItems).(mutex := s.mutex + 1)
    case VItems => At(s, t, PSlots).(items := s.items + 1)
    case PItems => At(s, t, PMutex').(items := s.items - 1)
    case PMutex' => At(s, t, Fetch).(mutex := s.mutex - 1)
    case Fetch =>
      var front := s.front + 1;
      At(s, t, VMutex').(front := front, removed := s.removed + [s.buf[front % s.n]])
    case VMutex' => At(s, t, VSlots).(mutex := s.mutex + 1)
    case VSlots => At(s, t, PItems).(slots := s.slots + 1)
  }

  /** A turn of a thread that cannot take it changes nothing. */
  function Take(s: State, turn: Turn): (s': State)
    requires s.n > 0 && |s.buf| == s.n
    ensures |s'.pcs| == |s.pcs|
  {
    if turn.t >= |s.pcs| then s
    else match turn
      case Go(t, item) => if Enabled(s, t) then Step(s, t, item) else s
      case Leave(t) => if s.pcs[t] == PSlots || s.pcs[t] == PItems then At(s, t, Left) else s
  }

  /** sbuf_init, with every thread before its first call. */
  predicate Init(s: State) {
    && s.n > 0 && |s.buf| == s.n && s.front == 0 && s.rear == 0
    && s.items == 0 && s.slots == s.n && s.mutex == 1
    && s.inserted == [] && s.removed == []
    && forall t :: 0 <= t < |s.pcs| ==> s.pcs[t] == PSlots || s.pcs[t] == PItems
  }

  function C(s: State, pc: PC): nat {
    Count(s.pcs, pc)
  }

  /** Every slot is free, promised to a producer, full, or about to be given
      back; every full slot is announced, about to be, or promised to a
      consumer; at most one thread is between P(mutex) and V(mutex). */
  ghost predicate Accounts(s: State) {
    && s.front <= s.rear
    && s.slots + C(s, PMutex) + C(s, Store) + (s.rear - s.front) + C(s, VMutex') + C(s, VSlots) == s.n
    && s.items + C(s, PMutex') + C(s, Fetch) + C(s, VMutex) + C(s, VItems) == s.rear - s.front
    && s.mutex + C(s, Store) + C(s, VMutex) + C(s, Fetch) + C(s, VMutex') == 1
  }

  /** The full slots hold the items inserted and not yet removed, in order. */
  ghost predicate Contents(s: State) {
    && s.n > 0 && |s.buf| == s.n && s.front <= s.rear
    && |s.inserted| == s.rear && s.removed == s.inserted[..s.front]
    && forall k :: s.front < k <= s.rear ==> s.buf[k % s.n] == s.inserted[k - 1]
  }

  ghost predicate Inv(s: State) {
    Accounts(s) && Contents(s)
  }

  lemma InitInv(s: State)
    requires Init(s)
    ensures Inv(s)
  {
    CountAbsent(s.pcs, PMutex);
    CountAbsent(s.pcs, Store);
    CountAbsent(s.pcs, VMutex);
    CountAbsent(s.pcs, VItems);
    CountAbsent(s.pcs, PMutex');
    CountAbsent(s.pcs, Fetch);
    CountAbsent(s.pcs, VMutex');
    CountAbsent(s.pcs, VSlots);
  }

  /** How the counts change when thread t goes from one point to another. */
  lemma Moved(s: State, t: nat, pc: PC)
    requires t < |s.pcs|
    ensures forall x :: Count(s.pcs[t := pc], x) == C(s, x) - (if s.pcs[t] == x then 1 else 0) + (if pc == x then 1 else 0)
    ensures C(s, s.pcs[t]) > 0
  {
    forall x
      ensures Count(s.pcs[t := pc], x) == C(s, x) - (if s.pcs[t] == x then 1 else 0) + (if pc == x then 1 else 0)
    {
      CountMove(s.pcs, t, pc, x);
    }
    CountAt(s.pcs, t);
  }

  lemma StepAccounts(s: State, t: nat, item: int)
    requires Inv(s) && t < |s.pcs| && Enabled(s, t)
    ensures Accounts(Step(s, t, item))
  {
    hide Count;
    var pc := Step(s, t, item).pcs[t];
    CountAt(s.pcs, t);
    CountMove(s.pcs, t, pc, PMutex);
    CountMove(s.pcs, t, pc, Store);
    CountMove(s.pcs, t, pc, VMutex);
    CountMove(s.pcs, t, pc, VItems);
    CountMove(s.pcs, t, pc, PMutex');
    CountMove(s.pcs, t, pc, Fetch);
    CountMove(s.pcs, t, pc, VMutex');
    CountMove(s.pcs, t, pc, VSlots);
  }

  lemma ModStep(k: nat, n: nat)
    requires 0 < n <= k
    ensures k % n == (k - n) % n
  {
    var q, r := (k - n) / n, (k - n) % n;
    assert k == n * (q + 1) + r;
    DivModUnique(k, n, q + 1, r);
  }

  lemma DivModUnique(x: nat, d: nat, q: nat, r: nat)
    requires d > 0 && r < d && x == d * q + r
    ensures x % d == r
  {
    var e := x / d - q;
    assert x == d * (x / d) + x % d;
    assert d * e == r - x % d;
    assert e > 0 ==> d * e >= d;
    assert e < 0 ==> d * e + d <= 0;
  }

  /** Positions less than n apart are different slots. */
  lemma {:induction false} SlotsDiffer(a: nat, b: nat, n: nat)
    requires a < b < a + n
    ensures a % n != b % n
  {
    if a >= n {
      ModStep(a, n);
      ModStep(b, n);
      SlotsDiffer(a - n, b - n, n);
    } else {
      SmallMod(a, n);
      if b >= n {
        ModStep(b, n);
        SmallMod(b - n, n);
      } else {
        SmallMod(b, n);
      }
    }
  }

  lemma SmallMod(a: nat, n: nat)
    requires a < n
    ensures a % n == a
  {
  }

  /** No unread slot is overwritten, and what is read is the oldest item. */
  lemma StepContents(s: State, t: nat, item: int)
    requires Inv(s) && t < |s.pcs| && Enabled(s, t)
    ensures Contents(Step(s, t, item))
  {
    var s' := Step(s, t, item);
    CountAt(s.pcs, t);
    if s.pcs[t] == Store {
      forall k | s'.front < k <= s'.rear
        ensures s'.buf[k % s.n] == s'.inserted[k - 1]
      {
        if k <= s.rear {
          SlotsDiffer(k, s.rear + 1, s.n);
        }
      }
    } else if s.pcs[t] == Fetch {
      assert s.inserted[..s.front + 1] == s.inserted[..s.front] + [s.inserted[s.front]];
    }
  }

  lemma TakeInv(s: State, turn: Turn)
    requires Inv(s)
    ensures Inv(Take(s, turn))
  {
    if turn.t < |s.pcs| {
      if turn.Go? && Enabled(s, turn.t) {
        StepAccounts(s, turn.t, turn.item);
        StepContents(s, turn.t, turn.item);
      } else if turn.Leave? {
        Moved(s, turn.t, Left);
      }
    }
  }

  // --------------------------------------------------------- whole runs

  /** The state after a schedule. */
  ghost function Exec(s: State, schedule: seq<Turn>): (s': State)
    requires Inv(s)
    ensures Inv(s') && |s'.pcs| == |s.pcs| && s'.n == s.n
    decreases |schedule|
  {
    if schedule == [] then s
    else
      TakeInv(s, schedule[0]);
      assert Take(s, schedule[0]).n == s.n;
      Exec(Take(s, schedule[0]), schedule[1..])
  }

  /** In every interleaving the items come out in the order they went in, and
      the buffer holds between none and n of them. */
  lemma FirstInFirstOut(s: State, schedule: seq<Turn>)
    requires Init(s)
    ensures Inv(s)
    ensures var s' := Exec(s, schedule);
      s'.removed <= s'.inserted && 0 <= |s'.inserted| - |s'.removed| == s'.rear - s'.front <= s.n
  {
    InitInv(s);
  }

  ghost predicate Inserting(pc: PC) {
    pc.PSlots? || pc.PMutex? || pc.Store? || pc.VMutex? || pc.VItems?
  }

  ghost predicate Removing(pc: PC) {
    pc.PItems? || pc.PMutex'? || pc.Fetch? || pc.VMutex'? || pc.VSlots?
  }

  /** With a producer and a consumer that have not left, some thread can go on. */
  lemma NeverStuck(s: State, p: nat, c: nat) returns (t: nat)
    requires Inv(s) && p < |s.pcs| && c < |s.pcs| && Inserting(s.pcs[p]) && Removing(s.pcs[c])
    ensures t < |s.pcs| && Enabled(s, t)
  {
    CountAt(s.pcs, p);
    CountAt(s.pcs, c);
    if Enabled(s, p) {
      t := p;
    } else if Enabled(s, c) {
      t := c;
    } else if C(s, Store) > 0 {
      t := CountFind(s.pcs, Store);
    } else if C(s, VMutex) > 0 {
      t := CountFind(s.pcs, VMutex);
    } else if C(s, Fetch) > 0 {
      t := CountFind(s.pcs, Fetch);
    } else if C(s, VMutex') > 0 {
      t := CountFind(s.pcs, VMutex');
    } else if C(s, PMutex) > 0 {
      t := CountFind(s.pcs, PMutex);
    } else if C(s, PMutex') > 0 {
      t := CountFind(s.pcs, PMutex');
    } else if C(s, VItems) > 0 {
      t := CountFind(s.pcs, VItems);
    } else {
      t := CountFind(s.pcs, VSlots);
    }
  }

  // ------------------------------------------------ what a thread waits for

  /** Between P(mutex) and V(mutex). */
  predicate InMutex(pc: PC) {
    pc in {Store, VMutex, Fetch, VMutex'}
  }

  /** A slot taken by a producer on its way in or not yet given back by a consumer. */
  predicate HasSlot(pc: PC) {
    pc in {PMutex, Store, VMutex', VSlots}
  }

  /** An item taken by a consumer on its way in or not yet announced by a producer. */
  predicate HasItem(pc: PC) {
    pc in {PMutex', Fetch, VMutex, VItems}
  }

  lemma MutexTaken(s: State) returns (u: nat)
    requires Inv(s) && s.mutex == 0
    ensures u < |s.pcs| && InMutex(s.pcs[u])
  {
    hide Count, Contents;
    if C(s, Store) > 0 { u := CountFind(s.pcs, Store); }
    else if C(s, VMutex) > 0 { u := CountFind(s.pcs, VMutex); }
    else if C(s, Fetch) > 0 { u := CountFind(s.pcs, Fetch); }
    else { u := CountFind(s.pcs, VMutex'); }
  }

  lemma SlotTaken(s: State) returns (u: nat)
    requires Inv(s) && s.slots == 0 && s.rear - s.front < s.n
    ensures u < |s.pcs| && HasSlot(s.pcs[u])
  {
    hide Count, Contents;
    if C(s, PMutex) > 0 { u := CountFind(s.pcs, PMutex); }
    else if C(s, Store) > 0 { u := CountFind(s.pcs, Store); }
    else if C(s, VMutex') > 0 { u := CountFind(s.pcs, VMutex'); }
    else { u := CountFind(s.pcs, VSlots); }
  }

  lemma ItemTaken(s: State) returns (u: nat)
    requires Inv(s) && s.items == 0 && s.rear > s.front
    ensures u < |s.pcs| && HasItem(s.pcs[u])
  {
    hide Count, Contents;
    if C(s, PMutex') > 0 { u := CountFind(s.pcs, PMutex'); }
    else if C(s, Fetch) > 0 { u := CountFind(s.pcs, Fetch); }
    else if C(s, VMutex) > 0 { u := CountFind(s.pcs, VMutex); }
    else { u := CountFind(s.pcs, VItems); }
  }

  /** Why thread t cannot go on: the buffer is full or empty, or thread u is in its way. */
  ghost predicate Waits(s: State, t: nat, u: nat)
    requires t < |s.pcs|
  {
    match s.pcs[t]
    case PSlots => |s.inserted| - |s.removed| == s.n || (u < |s.pcs| && u != t && HasSlot(s.pcs[u]))
    case PItems => s.inserted == s.removed || (u < |s.pcs| && u != t && HasItem(s.pcs[u]))
    case PMutex => u < |s.pcs| && u != t && InMutex(s.pcs[u])
    case PMutex' => u < |s.pcs| && u != t && InMutex(s.pcs[u])
    case _ => false
  }

  lemma WaitsInv(s: State, t: nat) returns (u: nat)
    requires Inv(s) && t < |s.pcs| && s.pcs[t] != Left && !Enabled(s, t)
    ensures Waits(s, t, u)
  {
    hide Accounts;
    u := 0;
    if s.pcs[t] == PSlots {
      if s.rear - s.front < s.n {
        u := SlotTaken(s);
      } else {
        FullAtMost(s);
      }
    } else if s.pcs[t] == PItems {
      if s.rear > s.front {
        u := ItemTaken(s);
      }
    } else {
      u := MutexTaken(s);
    }
  }

  lemma FullAtMost(s: State)
    requires Inv(s)
    ensures s.rear - s.front <= s.n
  {
    hide Count, Contents;
  }

  /** In every reachable state a producer waits only for a full buffer or a slot
      on its way, a consumer only for an empty one or an item on its way, and at
      mutex either waits only for a thread inside. */
  lemma WaitsFor(s: State, schedule: seq<Turn>, t: nat) returns (u: nat)
    requires Init(s) && t < |s.pcs|
    ensures Inv(s)
    ensures var s' := Exec(s, schedule);
      s'.pcs[t] != Left && !Enabled(s', t) ==> Waits(s', t, u)
  {
    InitInv(s);
    var s' := Exec(s, schedule);
    u := 0;
    if s'.pcs[t] != Left && !Enabled(s', t) {
      u := WaitsInv(s', t);
    }
  }

  // ----------------------------------------------------- the shared memory

  /** sbuf_t and its threads in memory, advanced one statement at a time. */
  class Sbuf {
    const buf: array<int>
    const n: nat
    var front: nat
    var rear: nat
    var items: nat
    var slots: nat
    var mutex: nat
    const pcs: array<PC>
    ghost var inserted: seq<int>
    ghost var removed: seq<int>

    ghost function Abs(): State
      reads this, buf, pcs
    {
      State(n, buf[..], front, rear, items, slots, mutex, pcs[..], inserted, removed)
    }

    ghost predicate Valid()
      reads this, buf, pcs
    {
      Inv(Abs())
    }

    /** sbuf_init; `producers` tells which threads loop over sbuf_insert. */
    constructor (size: nat, producers: seq<bool>)
      requires size > 0
      ensures fresh(buf) && fresh(pcs) && n == size && pcs.Length == |producers|
      ensures Valid() && Init(Abs())
      ensures forall t :: 0 <= t < |producers| ==> pcs[t] == if producers[t] then PSlots else PItems
    {
      n := size;
      buf := new int[size](_ => 0);
      front := 0;
      rear := 0;
      items := 0;
      slots := size;
      mutex := 1;
      inserted := [];
      removed := [];
      pcs := new PC[|producers|](t requires 0 <= t < |producers| => if producers[t] then PSlots else PItems);
      new;
      InitInv(Abs());
    }

    /** Thread t executes its next statement of sbuf_insert, or is left waiting. */
    method Insert(t: nat, item: int)
      requires Valid() && t < pcs.Length && Inserting(pcs[t])
      modifies this`rear, this`items, this`slots, this`mutex, this`inserted, buf, pcs
      ensures Valid() && Abs() == Take(old(Abs()), Go(t, item))
    {
      hide Accounts, Count, Inv;
      assert n > 0 && buf.Length == n by { Sizes(); }
      TakeInv(Abs(), Go(t, item));
      match pcs[t] {
        case PSlots =>
          if slots > 0 { slots := slots - 1; pcs[t] := PMutex; }
        case PMutex =>
          if mutex > 0 { mutex := mutex - 1; pcs[t] := Store; }
        case Store =>
          rear := rear + 1;
          buf[rear % n] := item;
          inserted := inserted + [item];
          pcs[t] := VMutex;
        case VMutex =>
          mutex := mutex + 1;
          pcs[t] := VItems;
        case VItems =>
          items := items + 1;
          pcs[t] := PSlots;
      }
    }

    /** Thread t executes its next statement of sbuf_remove, or is left waiting. */
    method Remove(t: nat) returns (item: int)
      requires Valid() && t < pcs.Length && Removing(pcs[t])
      modifies this`front, this`items, this`slots, this`mutex, this`removed, pcs
      ensures Valid() && Abs() == Take(old(Abs()), Go(t, 0))
      ensures old(pcs[t]) == Fetch ==> removed == old(removed) + [item]
    {
      hide Accounts, Count, Inv;
      assert n > 0 && buf.Length == n by { Sizes(); }
      TakeInv(Abs(), Go(t, 0));
      item := 0;
      match pcs[t] {
        case PItems =>
          if items > 0 { items := items - 1; pcs[t] := PMutex'; }
        case PMutex' =>
          if mutex > 0 { mutex := mutex - 1; pcs[t] := Fetch; }
        case Fetch =>
          front := front + 1;
          item := buf[front % n];
          removed := removed + [item];
          pcs[t] := VMutex';
        case VMutex' =>
          mutex := mutex + 1;
          pcs[t] := VSlots;
        case VSlots =>
          slots := slots + 1;
          pcs[t] := PItems;
      }
    }

    lemma Sizes()
      requires Valid()
      ensures n > 0 && buf.Length == n
    {
    }
  }
}
