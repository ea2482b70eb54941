/** What holds in every interleaving of the shell, its handler and its children. */
module ShellTheorems {
  import opened ShellJobs
  import opened ShellControl

  /** A step that is not enabled is skipped; a dead shell stays dead. */
  function Take(s: State, step: Step): State {
    if !s.pc.Crashed? && Enabled(s, step) then Next(s, step) else s
  }

  ghost function Exec(s: State, run: seq<Step>): (s': State)
    requires Inv(s)
    ensures Inv(s')
    decreases |run|
  {
    if run == [] then s
    else
      TakeInv(s, run[0]);
      Exec(Take(s, run[0]), run[1..])
  }

  lemma TakeInv(s: State, step: Step)
    requires Inv(s)
    ensures Inv(Take(s, step))
  {
    hide Inv, Next, Enabled;
    if !s.pc.Crashed? && Enabled(s, step) {
      NextInv(s, step);
    }
  }

  lemma {:induction false} ExecAppend(s: State, a: seq<Step>, b: seq<Step>)
    requires Inv(s)
    ensures Exec(s, a + b) == Exec(Exec(s, a), b)
    decreases |a|
  {
    hide Inv, Take;
    if a == [] {
      assert a + b == b;
    } else {
      TakeInv(s, a[0]);
      ExecAppend(Take(s, a[0]), a[1..], b);
      assert (a + b)[1..] == a[1..] + b;
    }
  }

  // ------------------------------------------------------------- safety

  /** The shell never sleeps on a finished job: while it is in sigsuspend and
      the handler has not run, the child is running, or it has changed and
      SIGCHLD is about to be delivered. */
  ghost predicate SleepsOnLiveJob(s: State) {
    s.pc.Suspended? && s.handler.Outside? ==>
      && s.pc.pid in s.children
      && (s.children[s.pc.pid].state == Running || (s.children[s.pc.pid].report && Enabled(s, Deliver)))
  }

  ghost predicate AtMostOneForeground(s: State) {
    && (forall i, j :: 0 <= i < j < |s.jobs| ==> !(s.jobs[i].state == FG && s.jobs[j].state == FG))
    && (s.pc.Reading? ==> forall i :: 0 <= i < |s.jobs| ==> s.jobs[i].state != FG)
  }

  /** Whatever waitpid returns has an entry in the table. */
  ghost predicate CollectsKnownJobs(s: State) {
    forall pid :: Enabled(s, Collect(pid)) ==> InTable(s.jobs, pid)
  }

  lemma InvSafe(s: State)
    requires Inv(s) && !s.pc.Crashed?
    ensures SleepsOnLiveJob(s) && AtMostOneForeground(s) && CollectsKnownJobs(s)
  {
    if s.pc.Suspended? && s.handler.Outside? {
      assert s.jobs[FgIndex(s.jobs)].pid == s.pc.pid;
    }
    forall pid | Enabled(s, Collect(pid))
      ensures InTable(s.jobs, pid)
    {
      CollectEntry(s, pid);
    }
    forall i, j | 0 <= i < j < |s.jobs|
      ensures !(s.jobs[i].state == FG && s.jobs[j].state == FG)
    {
    }
  }

  /** All three in every run, unless the shell has died. */
  lemma AlwaysSafe(s: State, run: seq<Step>)
    requires Init(s)
    ensures Inv(s)
    ensures var s' := Exec(s, run);
      s'.pc.Crashed? || (SleepsOnLiveJob(s') && AtMostOneForeground(s') && CollectsKnownJobs(s'))
  {
    hide Next, Enabled, Take, SleepsOnLiveJob, AtMostOneForeground, CollectsKnownJobs;
    InitInv(s);
    var s' := Exec(s, run);
    if !s'.pc.Crashed? {
      InvSafe(s');
    }
  }

  // ------------------------------------------------------ the full table

  /** The shell dies exactly when a job is added to a full table. */
  lemma DiesExactly(s: State, step: Step)
    requires Inv(s) && !s.pc.Crashed? && Enabled(s, step)
    ensures Next(s, step).pc.Crashed? <==> step.Add? && !InTable(s.jobs, 0)
  {
    if step.Collect? {
      CollectEntry(s, step.pid);
    }
  }

  /** The four steps of one background job. */
  function BackgroundJob(pid: nat): seq<Step> {
    [StartJob(true), Fork(pid), Add, Restore]
  }

  lemma ExecFour(s: State, run: seq<Step>)
    requires Inv(s) && |run| == 4
    ensures Exec(s, run) == Take(Take(Take(Take(s, run[0]), run[1]), run[2]), run[3])
  {
    hide Inv, Take;
    var r1, r2, r3 := run[1..], run[2..], run[3..];
    var s1 := Take(s, run[0]);
    TakeInv(s, run[0]);
    assert Exec(s, run) == Exec(s1, r1);
    var s2 := Take(s1, run[1]);
    TakeInv(s1, run[1]);
    assert r1[0] == run[1] && r1[1..] == r2;
    assert Exec(s1, r1) == Exec(s2, r2);
    var s3 := Take(s2, run[2]);
    TakeInv(s2, run[2]);
    assert r2[0] == run[2] && r2[1..] == r3;
    assert Exec(s2, r2) == Exec(s3, r3);
    TakeInv(s3, run[3]);
    assert r3[0] == run[3] && r3[1..] == [];
    assert Exec(s3, r3) == Exec(Take(s3, run[3]), []);
  }

  /** A background job started at the prompt takes the first free entry. */
  lemma OneBackgroundJob(s: State, pid: nat)
    requires Inv(s) && s.pc.Reading? && s.handler.Outside? && pid > 0 && pid !in s.children && InTable(s.jobs, 0)
    ensures Exec(s, BackgroundJob(pid)) == s.(
      jobs := s.jobs[PidIndex(s.jobs, 0) := Job(pid, s.nextjid, BG)],
      nextjid := if s.nextjid + 1 > MAXJOBS then 1 else s.nextjid + 1,
      children := s.children[pid := Child(Running, false)])
  {
    hide Inv, Take;
    ExecFour(s, BackgroundJob(pid));
    UpToAdd(s, pid);
    AddAndRestore(Take(Take(s, StartJob(true)), Fork(pid)));
  }

  /** Up to the attempt to add the job. */
  lemma UpToAdd(s: State, pid: nat)
    requires s.pc.Reading? && s.handler.Outside? && pid > 0 && pid !in s.children
    ensures Take(Take(s, StartJob(true)), Fork(pid)) ==
      s.(pc := Adding(pid, true, s.blocked), blocked := true, children := s.children[pid := Child(Running, false)])
  {
    var s1 := s.(pc := Forking(true, s.blocked), blocked := true);
    assert Take(s, StartJob(true)) == s1;
  }

  lemma AddAndRestore(s: State)
    requires s.pc.Adding? && s.pc.pid > 0 && s.pc.bg && InTable(s.jobs, 0)
    ensures Take(Take(s, Add), Restore) == s.(
      jobs := s.jobs[PidIndex(s.jobs, 0) := Job(s.pc.pid, s.nextjid, BG)],
      nextjid := if s.nextjid + 1 > MAXJOBS then 1 else s.nextjid + 1,
      pc := Reading, blocked := s.pc.saved)
  {
    assert Take(s, Add) == AddJob(s);
  }

  function RunningChildren(n: nat): (c: map<nat, Child>)
    ensures forall p :: p in c <==> 1 <= p <= n
    ensures forall p :: p in c ==> c[p] == Child(Running, false)
  {
    if n == 0 then map[] else RunningChildren(n - 1)[n := Child(Running, false)]
  }

  /** At the prompt with n background jobs started from the beginning, none finished. */
  ghost predicate Busy(s: State, n: nat) {
    && s.pc.Reading? && s.handler.Outside? && !s.blocked && |s.jobs| == MAXJOBS && n <= MAXJOBS
    && (forall i :: 0 <= i < MAXJOBS ==> s.jobs[i] == if i < n then Job(i + 1, i + 1, BG) else NoJob)
    && s.nextjid == (if n == MAXJOBS then 1 else n + 1)
    && s.children == RunningChildren(n)
  }

  lemma FirstWith(jobs: seq<Job>, pid: nat, n: nat)
    requires n < |jobs| && jobs[n].pid == pid && forall i :: 0 <= i < n ==> jobs[i].pid != pid
    ensures PidIndex(jobs, pid) == n
  {
  }

  lemma FirstFree(jobs: seq<Job>, n: nat)
    requires n <= |jobs| && (forall i :: 0 <= i < n ==> jobs[i].pid > 0) && (n < |jobs| ==> jobs[n].pid == 0)
    ensures PidIndex(jobs, 0) == n
  {
  }

  lemma OneMoreJob(s: State, n: nat)
    requires Inv(s) && Busy(s, n) && n < MAXJOBS
    ensures Busy(Exec(s, BackgroundJob(n + 1)), n + 1)
  {
    hide Inv, Exec, BackgroundJob, RunningChildren;
    FirstFree(s.jobs, n);
    assert RunningChildren(n)[n + 1 := Child(Running, false)] == RunningChildren(n + 1);
    OneBackgroundJob(s, n + 1);
  }

  /** Sixteen background jobs, started one after the other. */
  lemma SixteenJobs(s: State) returns (run: seq<Step>)
    requires Init(s)
    ensures Inv(s) && Busy(Exec(s, run), MAXJOBS)
  {
    hide Take, Next, Enabled;
    InitInv(s);
    run := [];
    NothingRun(s);
    var n := 0;
    while n < MAXJOBS
      invariant n <= MAXJOBS && Busy(Exec(s, run), n)
    {
      ExecAppend(s, run, BackgroundJob(n + 1));
      OneMoreJob(Exec(s, run), n);
      run := run + BackgroundJob(n + 1);
      n := n + 1;
    }
  }

  lemma NothingRun(s: State)
    requires Init(s) && Inv(s)
    ensures Busy(Exec(s, []), 0)
  {
  }

  /** A seventeenth that starts before one of them finishes kills the shell. */
  lemma SeventeenJobs(s: State) returns (run: seq<Step>)
    requires Init(s)
    ensures Inv(s) && Exec(s, run).pc.Crashed?
  {
    hide Take, Next, Enabled, Busy, Inv;
    run := SixteenJobs(s);
    ExecAppend(s, run, BackgroundJob(MAXJOBS + 1));
    NoRoom(Exec(s, run));
    run := run + BackgroundJob(MAXJOBS + 1);
  }

  lemma NoRoom(s: State)
    requires Inv(s) && Busy(s, MAXJOBS)
    ensures Exec(s, BackgroundJob(MAXJOBS + 1)).pc.Crashed?
  {
    hide Inv;
    ExecFour(s, BackgroundJob(MAXJOBS + 1));
    UpToAdd(s, MAXJOBS + 1);
    FirstFree(s.jobs, MAXJOBS);
  }

  // ------------------------------------------------------ the lost mask

  /** A step at which the main program turns to a new command. */
  predicate Begins(step: Step) {
    step.StartJob? || step.StartBgFg?
  }

  /** In the course of one bg or fg, started with mask `saved`; `found` tells
      whether there is a job for it. */
  ghost predicate InBgFg(s: State, arg: Arg, saved: bool, found: bool) {
    match s.pc
    case Choosing(_, a, m) =>
      a == arg && m == saved && s.handler.Outside? && (found <==> Chosen(s.jobs, arg) < |s.jobs|)
    case Continuing(_, m) => m == saved && found
    case Waiting(_, m) => m == saved && found
    case Suspended(_, m) => m == saved && found
    case Restoring(m) => m == saved && found
    case Reading => s.blocked == (saved || !found)
    case _ => false
  }

  lemma InBgFgStep(s: State, step: Step, arg: Arg, saved: bool, found: bool)
    requires Inv(s) && InBgFg(s, arg, saved, found) && !Begins(step)
    ensures InBgFg(Take(s, step), arg, saved, found)
  {
    if Enabled(s, step) {
      DiesExactly(s, step);
    }
  }

  lemma {:induction false} InBgFgRun(s: State, run: seq<Step>, arg: Arg, saved: bool, found: bool)
    requires Inv(s) && InBgFg(s, arg, saved, found) && forall i :: 0 <= i < |run| ==> !Begins(run[i])
    ensures InBgFg(Exec(s, run), arg, saved, found)
    decreases |run|
  {
    hide Inv, InBgFg, Take;
    if run != [] {
      TakeInv(s, run[0]);
      InBgFgStep(s, run[0], arg, saved, found);
      InBgFgRun(Take(s, run[0]), run[1..], arg, saved, found);
    }
  }

  lemma FoundExactly(s: State, arg: Arg)
    requires Inv(s) && !s.pc.Crashed?
    ensures Chosen(s.jobs, arg) < |s.jobs| <==> exists k :: 0 <= k < |s.jobs| && Names(arg, s.jobs[k])
  {
    hide Chosen, Names;
    ChosenExactly(s.jobs, arg);
  }

  /** One bg or fg from prompt to prompt, whatever else happens on the way: the
      mask is as before exactly if a job was found or SIGCHLD was blocked already. */
  lemma BgFgMask(s: State, fg: bool, arg: Arg, rest: seq<Step>)
    requires Inv(s) && s.pc.Reading? && s.handler.Outside? && forall i :: 0 <= i < |rest| ==> !Begins(rest[i])
    ensures var s' := Exec(s, [StartBgFg(fg, arg)] + rest);
      s'.pc.Reading? ==> (s'.blocked == s.blocked <==> (exists k :: 0 <= k < |s.jobs| && Names(arg, s.jobs[k])) || s.blocked)
  {
    hide Inv, Names, Take, Chosen, Begins;
    var run := [StartBgFg(fg, arg)] + rest;
    FoundExactly(s, arg);
    BgFgStarts(s, fg, arg);
    var s1 := Take(s, run[0]);
    ExecStep(s, run, s1);
    assert run[1..] == rest;
    InBgFgRun(s1, rest, arg, s.blocked, Chosen(s.jobs, arg) < |s.jobs|);
  }

  lemma BgFgStarts(s: State, fg: bool, arg: Arg)
    requires s.pc.Reading? && s.handler.Outside?
    ensures Take(s, StartBgFg(fg, arg)) == s.(pc := Choosing(fg, arg, s.blocked), blocked := true)
  {
  }

  /** SIGCHLD is blocked, and so is every mask to be restored. */
  predicate MaskLost(s: State) {
    && s.blocked
    && (s.pc.Forking? || s.pc.Adding? || s.pc.Choosing? || s.pc.Continuing? || s.pc.Waiting? || s.pc.Suspended? || s.pc.Restoring?
        ==> s.pc.saved)
  }

  /** The first fg of a session without an argument is enough. */
  lemma MaskLostReached(s: State)
    requires Init(s)
    ensures Inv(s)
    ensures var s' := Exec(s, [StartBgFg(true, NoArg), Choose]);
      MaskLost(s') && s'.pc.Reading?
  {
    InitInv(s);
    var run := [StartBgFg(true, NoArg), Choose];
    TakeInv(s, run[0]);
    var s1 := s.(pc := Choosing(true, NoArg, false), blocked := true);
    assert Take(s, run[0]) == s1 && run[1..] == [Choose] && [Choose][1..] == [];
    TakeInv(s1, Choose);
    assert Exec(s1, [Choose]) == Exec(Take(s1, Choose), []);
  }

  /** After one bg or fg without a job the prompt never hears of a child again. */
  lemma {:induction false} MaskLostForever(s: State, run: seq<Step>)
    requires Inv(s) && MaskLost(s)
    ensures MaskLost(Exec(s, run))
    ensures Exec(s, run).pc.Reading? ==> !Enabled(Exec(s, run), Deliver)
    decreases |run|
  {
    if run != [] {
      TakeInv(s, run[0]);
      MaskLostStep(s, run[0]);
      MaskLostForever(Take(s, run[0]), run[1..]);
    }
  }

  lemma MaskLostStep(s: State, step: Step)
    requires MaskLost(s)
    ensures MaskLost(Take(s, step))
  {
  }

  // --------------------------------------------------- job numbers used twice

  ghost predicate DistinctJids(jobs: seq<Job>) {
    forall i, j :: 0 <= i < j < |jobs| && jobs[i].pid > 0 && jobs[j].pid > 0 ==> jobs[i].jid != jobs[j].jid
  }

  /** addjob keeps job numbers distinct exactly when the next one is not in use. */
  lemma AddJidsExactly(s: State)
    requires s.pc.Adding? && s.pc.pid > 0 && InTable(s.jobs, 0) && DistinctJids(s.jobs)
    ensures DistinctJids(AddJob(s).jobs) <==> forall i :: 0 <= i < |s.jobs| && s.jobs[i].pid > 0 ==> s.jobs[i].jid != s.nextjid
  {
    var k, jobs := PidIndex(s.jobs, 0), AddJob(s).jobs;
    assert jobs[k].jid == s.nextjid && jobs[k].pid > 0;
    forall i | 0 <= i < |s.jobs| && s.jobs[i].pid > 0
      ensures i != k && jobs[i] == s.jobs[i]
    {
    }
    if i :| 0 <= i < |s.jobs| && s.jobs[i].pid > 0 && s.jobs[i].jid == s.nextjid {
      assert jobs[i].jid == jobs[k].jid;
    }
  }

  /** Right after deletejob the next number is free. */
  lemma FreshAfterDelete(jobs: seq<Job>, i: nat)
    requires i < |jobs|
    ensures jobs[i].jid != MaxJid(jobs) + 1
  {
  }

  lemma ExecStep(s: State, run: seq<Step>, s1: State)
    requires Inv(s) && run != [] && Take(s, run[0]) == s1
    ensures Inv(s1) && Exec(s, run) == Exec(s1, run[1..])
  {
    hide Inv, Take;
    TakeInv(s, run[0]);
  }

  /** Job p ends at the prompt; its SIGCHLD is not yet delivered. */
  function Ended(s: State, p: nat): State {
    s.(children := s.children[p := Child(Zombie, true)], pending := true)
  }

  /** Job p, in entry k, has been collected. */
  function Reaped(s: State, k: nat, p: nat): State
    requires k < |s.jobs|
  {
    s.(jobs := s.jobs[k := NoJob], nextjid := MAXJOBS + 1, children := s.children - {p})
  }

  lemma LargestLeft(jobs: seq<Job>)
    requires |jobs| == MAXJOBS && jobs[15].jid == 16 && forall i :: 0 <= i < |jobs| ==> jobs[i].jid <= 16
    ensures MaxJid(jobs) == 16
  {
    var j := MaxJidUsed(jobs);
  }

  lemma ReapStep(s: State, k: nat, p: nat)
    requires s.handler.Collecting? && !s.pc.Crashed? && k < 15 && |s.jobs| == MAXJOBS && PidIndex(s.jobs, p) == k
    requires p in s.children && s.children[p] == Child(Zombie, true)
    requires s.jobs[15].jid == 16 && forall i :: 0 <= i < |s.jobs| ==> s.jobs[i].jid <= 16
    ensures Take(s, Collect(p)) == Reaped(s, k, p)
  {
    LargestLeft(s.jobs[k := NoJob]);
  }

  /** Jobs 3 and 4 end, and the handler collects them. */
  function EndTwo(): seq<Step> {
    [Exit(3), Exit(4), Deliver] + [Collect(3), Collect(4)] + [NoMore, Return]
  }

  lemma ExecTwo(s: State, run: seq<Step>, s1: State, s2: State)
    requires Inv(s) && |run| == 2 && Take(s, run[0]) == s1 && Take(s1, run[1]) == s2
    ensures Inv(s1) && Exec(s, run) == s2
  {
    hide Inv, Take;
    ExecStep(s, run, s1);
    ExecStep(s1, run[1..], s2);
  }

  lemma EndStep(s: State, p: nat)
    requires !s.pc.Crashed? && p in s.children && s.children[p].state != Zombie
    ensures Take(s, Exit(p)) == Ended(s, p)
  {
  }

  lemma DeliverStep(s: State)
    requires s.pc.Reading? && s.handler.Outside? && !s.blocked && s.pending
    ensures Take(s, Deliver) == s.(pending := false, handler := Collecting)
  {
  }

  lemma TwoEnd(s: State)
    requires Inv(s) && Busy(s, MAXJOBS)
    ensures Exec(s, [Exit(3), Exit(4), Deliver]) == Ended(Ended(s, 3), 4).(pending := false, handler := Collecting)
  {
    hide Inv, Take, Exec, RunningChildren;
    var run := [Exit(3), Exit(4), Deliver];
    var s1, s2 := Ended(s, 3), Ended(Ended(s, 3), 4);
    EndStep(s, 3);
    EndStep(s1, 4);
    DeliverStep(s2);
    ExecStep(s, run, s1);
    assert run[1..] == [Exit(4), Deliver];
    ExecTwo(s1, run[1..], s2, s2.(pending := false, handler := Collecting));
  }

  lemma TwoReaped(s: State, t: State)
    requires Busy(s, MAXJOBS) && Inv(t) && t == Ended(Ended(s, 3), 4).(pending := false, handler := Collecting)
    ensures Exec(t, [Collect(3), Collect(4)]) == Reaped(Reaped(t, 2, 3), 3, 4)
  {
    hide Inv, Take;
    var t1 := Reaped(t, 2, 3);
    FirstWith(t.jobs, 3, 2);
    ReapStep(t, 2, 3);
    FirstWith(t1.jobs, 4, 3);
    ReapStep(t1, 3, 4);
    ExecTwo(t, [Collect(3), Collect(4)], t1, Reaped(t1, 3, 4));
  }

  lemma TwoCollected(s: State)
    requires Inv(s) && Busy(s, MAXJOBS)
    ensures Exec(s, EndTwo()) == Reaped(Reaped(s, 2, 3), 3, 4).(pending := false)
  {
    hide Inv, Take;
    TwoEnd(s);
    var t := Exec(s, [Exit(3), Exit(4), Deliver]);
    ExecAppend(s, [Exit(3), Exit(4), Deliver], [Collect(3), Collect(4)]);
    TwoReaped(s, t);
    var u := Exec(t, [Collect(3), Collect(4)]);
    ExecAppend(s, [Exit(3), Exit(4), Deliver] + [Collect(3), Collect(4)], [NoMore, Return]);
    TwoLeft(s);
    HandlerDone(u);
  }

  lemma TwoLeft(s: State)
    requires Busy(s, MAXJOBS)
    ensures Ended(Ended(s, 3), 4).children - {3} - {4} == s.children - {3} - {4}
    ensures forall p :: p in s.children - {3} - {4} ==> !s.children[p].report
  {
  }

  lemma HandlerDone(u: State)
    requires Inv(u) && u.pc.Reading? && u.handler.Collecting? && forall p :: p in u.children ==> !u.children[p].report
    ensures Exec(u, [NoMore, Return]) == u.(handler := Outside)
  {
    hide Inv;
    ExecTwo(u, [NoMore, Return], u.(handler := Returning), u.(handler := Outside));
  }

  /** Two additions after a deletion the number of a live job can come up again:
      a run from the start. */
  lemma JidReissued(s: State) returns (run: seq<Step>)
    requires Init(s)
    ensures Inv(s)
    ensures var jobs := Exec(s, run).jobs;
      && |jobs| == MAXJOBS && jobs[0] == Job(1, 1, BG) && jobs[3] == Job(18, 1, BG) && !DistinctJids(jobs)
  {
    hide Inv, Take, Next, Enabled, Busy;
    run := SixteenJobs(s);
    var t := Exec(s, run);
    ExecAppend(s, run, EndTwo());
    TwoCollected(t);
    var t1 := Exec(t, EndTwo());
    run := run + EndTwo();
    ExecAppend(s, run, BackgroundJob(17));
    TwoMore(t, t1);
    run := run + BackgroundJob(17);
    ExecAppend(s, run, BackgroundJob(18));
    run := run + BackgroundJob(18);
  }

  lemma TwoMore(t: State, t1: State)
    requires Busy(t, MAXJOBS) && Inv(t1) && t1 == Reaped(Reaped(t, 2, 3), 3, 4).(pending := false)
    ensures var jobs := Exec(Exec(t1, BackgroundJob(17)), BackgroundJob(18)).jobs;
      && |jobs| == MAXJOBS && jobs[0] == Job(1, 1, BG) && jobs[3] == Job(18, 1, BG) && !DistinctJids(jobs)
  {
    hide Inv;
    FirstFree(t1.jobs, 2);
    OneBackgroundJob(t1, 17);
    var t2 := Exec(t1, BackgroundJob(17));
    FirstFree(t2.jobs, 3);
    OneBackgroundJob(t2, 18);
    var jobs := Exec(t2, BackgroundJob(18)).jobs;
    assert jobs[0].jid == jobs[3].jid && jobs[0].pid > 0 && jobs[3].pid > 0;
  }
}
