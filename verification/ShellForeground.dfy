/**
 For which jobs the shell waits: one command from prompt to prompt, whatever
 the handler, the children and other signals do on the way.
 */
module ShellForeground {
  import opened ShellJobs
  import opened ShellControl
  import opened ShellTheorems

  /** What a command is about: its process, whether that is to run in the
      foreground, the mask before, and whether the process has been left alone,
      neither ended nor stopped. */
  datatype Command = Command(pid: nat, fg: bool, mask: bool, alone: bool)

  /** The entry of a process, if it has one, is in one of two states. */
  predicate Only(jobs: seq<Job>, pid: nat, a: JobState, b: JobState) {
    forall i :: 0 <= i < |jobs| && jobs[i].pid == pid ==> jobs[i].state == a || jobs[i].state == b
  }

  predicate Disturbs(step: Step, pid: nat) {
    step == Exit(pid) || step == Stop(pid)
  }

  /** The process as it goes on if it is left alone. */
  ghost predicate LeftAlone(s: State, pid: nat) {
    && pid in s.children && s.children[pid].state != Zombie
    && (s.pc.Choosing? || s.pc.Continuing? || s.children[pid] == Child(Running, false))
  }

  /** In the course of the command, or back at the prompt. */
  ghost predicate During(s: State, c: Command) {
    && c.pid > 0 && (c.alone ==> LeftAlone(s, c.pid))
    && match s.pc
       case Adding(p, bg, m) => p == c.pid && bg == !c.fg && m == c.mask
       case Choosing(fg, arg, m) =>
         && fg == c.fg && m == c.mask
         && Chosen(s.jobs, arg) < |s.jobs| && s.jobs[Chosen(s.jobs, arg)].pid == c.pid
       case Continuing(p, m) => p == c.pid && m == c.mask && Started(s.jobs, c)
       case Waiting(p, m) => c.fg && p == c.pid && m == c.mask && Waited(s.jobs, c)
       case Suspended(p, m) => c.fg && p == c.pid && m == c.mask && Waited(s.jobs, c)
       case Restoring(m) => m == c.mask && Done(s.jobs, c)
       case Reading => s.blocked == c.mask && Done(s.jobs, c)
       case Crashed => true
       case Forking(_, _) => false
  }

  predicate Started(jobs: seq<Job>, c: Command) {
    var state := if c.fg then FG else BG;
    Only(jobs, c.pid, state, state)
  }

  predicate Waited(jobs: seq<Job>, c: Command) {
    Only(jobs, c.pid, FG, if c.alone then FG else ST)
  }

  predicate Done(jobs: seq<Job>, c: Command) {
    if c.fg then !c.alone && Only(jobs, c.pid, ST, ST)
    else Only(jobs, c.pid, BG, if c.alone then BG else ST)
  }

  lemma CollectDuring(s: State, pid: nat, c: Command)
    requires Inv(s) && During(s, c) && Enabled(s, Collect(pid)) && !s.pc.Crashed?
    ensures During(CollectChild(s, pid), c)
  {
    CollectEntry(s, pid);
  }

  lemma ChooseDuring(s: State, c: Command)
    requires Inv(s) && During(s, c) && s.pc.Choosing?
    ensures During(ChooseJob(s), c)
  {
    ChosenExactly(s.jobs, s.pc.arg);
  }

  lemma AddDuring(s: State, c: Command)
    requires Inv(s) && During(s, c) && s.pc.Adding?
    ensures During(AddJob(s), c)
  {
  }

  lemma ContinueDuring(s: State, c: Command)
    requires Inv(s) && During(s, c) && s.pc.Continuing?
    ensures During(ContinueJob(s), c)
  {
  }

  lemma TestDuring(s: State, c: Command)
    requires Inv(s) && During(s, c) && s.pc.Waiting?
    ensures During(Next(s, Test), c)
  {
    forall i | 0 <= i < |s.jobs| && s.jobs[i].pid == c.pid && s.jobs[i].state == FG
      ensures FgPid(s.jobs) == c.pid
    {
    }
  }

  lemma OtherDuring(s: State, step: Step, c: Command)
    requires Inv(s) && During(s, c) && Enabled(s, step) && !s.pc.Crashed? && !Begins(step) && (c.alone ==> !Disturbs(step, c.pid))
    requires TableSteady(step) && !step.Continue? && !step.Test?
    ensures During(Next(s, step), c)
  {
    hide Only;
  }

  lemma DuringStep(s: State, step: Step, c: Command)
    requires Inv(s) && During(s, c) && !Begins(step) && (c.alone ==> !Disturbs(step, c.pid))
    ensures During(Take(s, step), c)
  {
    hide Inv, During;
    if !s.pc.Crashed? && Enabled(s, step) {
      match step
      case Collect(pid) => CollectDuring(s, pid, c);
      case Choose => ChooseDuring(s, c);
      case Add => AddDuring(s, c);
      case Continue => ContinueDuring(s, c);
      case Test => TestDuring(s, c);
      case _ => OtherDuring(s, step, c);
    }
  }

  lemma {:induction false} DuringRun(s: State, run: seq<Step>, c: Command)
    requires Inv(s) && During(s, c) && NoCommand(run) && (c.alone ==> !Disturbed(run, c.pid))
    ensures During(Exec(s, run), c)
    decreases |run|
  {
    hide Inv, During, Take, Begins, Disturbs;
    if run != [] {
      TakeInv(s, run[0]);
      DuringStep(s, run[0], c);
      DuringRun(Take(s, run[0]), run[1..], c);
    }
  }

  // ------------------------------------------------- from prompt to prompt

  ghost predicate AtPrompt(s: State) {
    Inv(s) && s.pc.Reading? && s.handler.Outside?
  }

  /** The main program does not turn to another command. */
  ghost predicate NoCommand(run: seq<Step>) {
    forall i :: 0 <= i < |run| ==> !Begins(run[i])
  }

  /** The process ends or is stopped in the course of the run. */
  ghost predicate Disturbed(run: seq<Step>, pid: nat) {
    exists i :: 0 <= i < |run| && Disturbs(run[i], pid)
  }

  lemma StartAndFork(s: State, bg: bool, pid: nat)
    requires AtPrompt(s) && pid > 0 && pid !in s.children
    ensures Take(Take(s, StartJob(bg)), Fork(pid)) ==
      s.(pc := Adding(pid, bg, s.blocked), blocked := true, children := s.children[pid := Child(Running, false)])
  {
    assert Take(s, StartJob(bg)) == s.(pc := Forking(bg, s.blocked), blocked := true);
  }

  /** A new job up to any point before the next command. */
  lemma NewJobDuring(s: State, bg: bool, pid: nat, rest: seq<Step>, alone: bool)
    requires AtPrompt(s) && pid > 0 && pid !in s.children && NoCommand(rest) && (alone ==> !Disturbed(rest, pid))
    ensures During(Exec(s, [StartJob(bg), Fork(pid)] + rest), Command(pid, !bg, s.blocked, alone))
  {
    hide Inv, Take, Only, Begins, Disturbs;
    StartAndFork(s, bg, pid);
    var run := [StartJob(bg), Fork(pid)] + rest;
    var s1 := Take(s, StartJob(bg));
    var s2 := Take(s1, Fork(pid));
    ExecStep(s, run, s1);
    ExecStep(s1, run[1..], s2);
    assert run[1..][1..] == rest;
    DuringRun(s2, rest, Command(pid, !bg, s.blocked, alone));
  }

  /** The shell waits for a new foreground job: it is back at the prompt only
      when the job has ended or stopped, and its entry tells. */
  lemma NewForeground(s: State, pid: nat, rest: seq<Step>)
    requires AtPrompt(s) && pid > 0 && pid !in s.children && NoCommand(rest)
    ensures var s' := Exec(s, [StartJob(false), Fork(pid)] + rest);
      s'.pc.Reading? ==> s'.blocked == s.blocked && Only(s'.jobs, pid, ST, ST) && Disturbed(rest, pid)
  {
    hide Inv, Take, Only, Begins, Disturbs;
    NewJobDuring(s, false, pid, rest, !Disturbed(rest, pid));
  }

  lemma AloneInTable(s: State, c: Command)
    requires Inv(s) && During(s, c) && c.alone && s.pc.Reading?
    ensures InTable(s.jobs, c.pid)
  {
    hide Only;
  }

  /** It does not wait for a new background job, which stays in the background
      until it ends or stops. */
  lemma NewBackground(s: State, pid: nat, rest: seq<Step>)
    requires AtPrompt(s) && pid > 0 && pid !in s.children && NoCommand(rest)
    ensures var s' := Exec(s, [StartJob(true), Fork(pid)] + rest);
      && !s'.pc.Waiting? && !s'.pc.Suspended?
      && (s'.pc.Reading? ==> s'.blocked == s.blocked && Only(s'.jobs, pid, BG, ST))
      && (s'.pc.Reading? && !Disturbed(rest, pid) ==> InTable(s'.jobs, pid) && Only(s'.jobs, pid, BG, BG))
  {
    hide Inv, Take, Only, Begins, Disturbs;
    NewJobDuring(s, true, pid, rest, false);
    if !Disturbed(rest, pid) {
      NewJobDuring(s, true, pid, rest, true);
      var s' := Exec(s, [StartJob(true), Fork(pid)] + rest);
      if s'.pc.Reading? {
        AloneInTable(s', Command(pid, false, s.blocked, true));
      }
    }
  }

  /** The first entry that the argument names. */
  ghost predicate FirstNamed(jobs: seq<Job>, arg: Arg, k: nat) {
    k < |jobs| && Names(arg, jobs[k]) && forall i :: 0 <= i < k ==> !Names(arg, jobs[i])
  }

  lemma ChosenStarts(s: State, fg: bool, arg: Arg, k: nat, alone: bool)
    requires AtPrompt(s) && FirstNamed(s.jobs, arg, k)
    requires alone ==> s.jobs[k].pid in s.children && s.children[s.jobs[k].pid].state != Zombie
    ensures During(s.(pc := Choosing(fg, arg, s.blocked), blocked := true), Command(s.jobs[k].pid, fg, s.blocked, alone))
  {
    ChosenExactly(s.jobs, arg);
    hide Inv, Chosen, Only;
  }

  /** A job found by bg or fg, up to any point before the next command. */
  lemma ChosenDuring(s: State, fg: bool, arg: Arg, k: nat, rest: seq<Step>, alone: bool)
    requires AtPrompt(s) && k < |s.jobs| && FirstNamed(s.jobs, arg, k) && NoCommand(rest)
    requires alone ==> !Disturbed(rest, s.jobs[k].pid) && s.jobs[k].pid in s.children && s.children[s.jobs[k].pid].state != Zombie
    ensures During(Exec(s, [StartBgFg(fg, arg)] + rest), Command(s.jobs[k].pid, fg, s.blocked, alone))
  {
    hide Inv, Take, During, FirstNamed, NoCommand, Disturbed;
    ChosenStarts(s, fg, arg, k, alone);
    var run := [StartBgFg(fg, arg)] + rest;
    BgFgStarts(s, fg, arg);
    var s1 := Take(s, run[0]);
    ExecStep(s, run, s1);
    assert run[1..] == rest;
    DuringRun(s1, rest, Command(s.jobs[k].pid, fg, s.blocked, alone));
  }

  lemma EntryHasChild(s: State, k: nat)
    requires AtPrompt(s) && k < |s.jobs| && s.jobs[k].pid > 0
    ensures s.jobs[k].pid in s.children
  {
  }

  /** The shell waits for the job that fg names. */
  lemma ChosenForeground(s: State, arg: Arg, k: nat, rest: seq<Step>)
    requires AtPrompt(s) && FirstNamed(s.jobs, arg, k) && NoCommand(rest)
    ensures var s', pid := Exec(s, [StartBgFg(true, arg)] + rest), s.jobs[k].pid;
      && pid in s.children
      && (s'.pc.Reading? ==> s'.blocked == s.blocked && Only(s'.jobs, pid, ST, ST))
      && (s'.pc.Reading? ==> Disturbed(rest, pid) || s.children[pid].state == Zombie)
  {
    hide Inv, Take, Only, Begins, Disturbs, NoCommand, Disturbed;
    var pid := s.jobs[k].pid;
    EntryHasChild(s, k);
    ChosenDuring(s, true, arg, k, rest, !Disturbed(rest, pid) && s.children[pid].state != Zombie);
  }

  /** It does not wait for the job that bg names, which goes on in the
      background until it ends or stops. */
  lemma ChosenBackground(s: State, arg: Arg, k: nat, rest: seq<Step>)
    requires AtPrompt(s) && FirstNamed(s.jobs, arg, k) && NoCommand(rest)
    ensures var s', pid := Exec(s, [StartBgFg(false, arg)] + rest), s.jobs[k].pid;
      && pid in s.children && !s'.pc.Waiting? && !s'.pc.Suspended?
      && (s'.pc.Reading? ==> s'.blocked == s.blocked && Only(s'.jobs, pid, BG, ST))
      && (s'.pc.Reading? && !Disturbed(rest, pid) && s.children[pid].state != Zombie ==>
            InTable(s'.jobs, pid) && Only(s'.jobs, pid, BG, BG) && s'.children[pid] == Child(Running, false))
  {
    hide Inv, Take, Only, Begins, Disturbs, NoCommand, Disturbed;
    var pid := s.jobs[k].pid;
    EntryHasChild(s, k);
    ChosenDuring(s, false, arg, k, rest, false);
    if !Disturbed(rest, pid) && s.children[pid].state != Zombie {
      ChosenDuring(s, false, arg, k, rest, true);
      var s' := Exec(s, [StartBgFg(false, arg)] + rest);
      if s'.pc.Reading? {
        AloneInTable(s', Command(pid, false, s.blocked, true));
      }
    }
  }

  // ------------------------------------------------ a job keeps its entry

  /** The process has not ended. */
  predicate Exists(s: State, pid: nat) {
    pid in s.children && s.children[pid].state != Zombie
  }

  lemma ExistsStep(s: State, step: Step, pid: nat)
    requires Exists(s, pid) && step != Exit(pid)
    ensures Exists(Take(s, step), pid)
  {
  }

  lemma {:induction false} ExistsRun(s: State, run: seq<Step>, pid: nat)
    requires Inv(s) && Exists(s, pid) && forall i :: 0 <= i < |run| ==> run[i] != Exit(pid)
    ensures Exists(Exec(s, run), pid)
    decreases |run|
  {
    hide Inv, Take, Exists;
    if run != [] {
      TakeInv(s, run[0]);
      ExistsStep(s, run[0], pid);
      ExistsRun(Take(s, run[0]), run[1..], pid);
    }
  }

  /** Stopped or running, a job stays in the table until its process ends. */
  lemma KeptUntilExit(s: State, run: seq<Step>, pid: nat)
    requires Inv(s) && Exists(s, pid) && forall i :: 0 <= i < |run| ==> run[i] != Exit(pid)
    ensures var s' := Exec(s, run);
      s'.pc.Crashed? || (s'.pc.Adding? && s'.pc.pid == pid) || InTable(s'.jobs, pid)
  {
    ExistsRun(s, run, pid);
    HasEntry(Exec(s, run), pid);
  }

  lemma HasEntry(s: State, pid: nat)
    requires Inv(s) && Exists(s, pid)
    ensures s.pc.Crashed? || (s.pc.Adding? && s.pc.pid == pid) || InTable(s.jobs, pid)
  {
    hide InTable;
  }

  // ------------------------------------------------- the prompt comes back

  /** What the shell and its handler do without a new command or another signal. */
  predicate OnItsOwn(step: Step) {
    step.Test? || step.Restore? || step.Deliver? || step.Collect? || step.NoMore? || step.Return?
  }

  ghost predicate AllOnItsOwn(run: seq<Step>) {
    forall i :: 0 <= i < |run| ==> OnItsOwn(run[i])
  }

  /** The process no longer runs. */
  predicate Over(s: State, pid: nat) {
    pid in s.children ==> s.children[pid].state != Running
  }

  /** The shell waits in the foreground for a process that no longer runs. */
  ghost predicate WaitsInVain(s: State) {
    Inv(s) && (s.pc.Waiting? || s.pc.Suspended?) && Over(s, s.pc.pid)
  }

  ghost function Reports(s: State): set<nat> {
    set p | p in s.children && s.children[p].report
  }

  lemma CollectTaken(s: State, p: nat)
    requires s.handler.Collecting? && !s.pc.Crashed? && p in Reports(s)
    ensures Enabled(s, Collect(p)) && Take(s, Collect(p)) == CollectChild(s, p)
  {
  }

  /** Collecting a child reports it, and nothing starts to run. */
  lemma CollectReports(s: State, p: nat)
    requires p in Reports(s) && !CollectChild(s, p).pc.Crashed?
    ensures var s' := CollectChild(s, p);
      && s'.handler == s.handler && s'.pc == s.pc && Reports(s') == Reports(s) - {p}
      && forall q :: Over(s, q) ==> Over(s', q)
  {
  }

  lemma CollectOneReport(s: State, p: nat)
    requires WaitsInVain(s) && s.handler.Collecting? && p in Reports(s)
    ensures var s' := Take(s, Collect(p));
      WaitsInVain(s') && s'.pc == s.pc && s'.handler.Collecting? && Reports(s') == Reports(s) - {p}
  {
    TakeInv(s, Collect(p));
    CollectTaken(s, p);
    hide Inv, Take, CollectChild, Reports, Over, Enabled;
    CollectStep(s, p);
    CollectReports(s, p);
  }

  lemma {:induction false} CollectAll(s: State) returns (run: seq<Step>)
    requires WaitsInVain(s) && s.handler.Collecting?
    ensures AllOnItsOwn(run)
    ensures var s' := Exec(s, run);
      WaitsInVain(s') && s'.pc == s.pc && s'.handler.Collecting? && Reports(s') == {}
    decreases |Reports(s)|
  {
    hide Inv, Take, Reports, Over;
    if Reports(s) == {} {
      run := [];
    } else {
      var p :| p in Reports(s);
      CollectOneReport(s, p);
      var s1 := Take(s, Collect(p));
      var more := CollectAll(s1);
      run := [Collect(p)] + more;
      ExecStep(s, run, s1);
      assert run[1..] == more;
    }
  }

  /** With nothing left to report the job is out of the foreground. */
  lemma NothingToReport(s: State)
    requires WaitsInVain(s) && s.pc.Suspended? && s.handler.Collecting? && Reports(s) == {}
    ensures var s' := Take(Take(s, NoMore), Return);
      WaitsInVain(s') && s'.pc == Waiting(s.pc.pid, s.pc.saved) && FgPid(s'.jobs) != s.pc.pid
  {
    NothingReported(s);
    NotForeground(s);
    HandlerLeaves(s);
    hide Inv, Take, Over;
    TakeInv(s, NoMore);
    TakeInv(Take(s, NoMore), Return);
    OverKept(s, Take(Take(s, NoMore), Return));
  }

  lemma NothingReported(s: State)
    requires Reports(s) == {}
    ensures forall p :: p in s.children ==> !s.children[p].report
  {
    assert forall p :: p in s.children && s.children[p].report ==> p in Reports(s);
  }

  lemma HandlerLeaves(s: State)
    requires s.pc.Suspended? && s.handler.Collecting? && (forall p :: p in s.children ==> !s.children[p].report)
    ensures Take(Take(s, NoMore), Return) == s.(handler := Outside, pc := Waiting(s.pc.pid, s.pc.saved))
  {
    assert Take(s, NoMore) == s.(handler := Returning);
  }

  lemma NotForeground(s: State)
    requires WaitsInVain(s) && (forall p :: p in s.children ==> !s.children[p].report)
    ensures FgPid(s.jobs) != s.pc.pid
  {
  }

  lemma TestTaken(s: State)
    requires s.pc.Waiting?
    ensures Take(s, Test) ==
      s.(pc := if FgPid(s.jobs) == s.pc.pid then Suspended(s.pc.pid, s.pc.saved) else Restoring(s.pc.saved))
  {
  }

  lemma RestoreTaken(s: State)
    requires s.pc.Restoring?
    ensures Take(s, Restore) == s.(pc := Reading, blocked := s.pc.saved)
  {
  }

  lemma LastTest(s: State)
    requires WaitsInVain(s) && s.pc.Waiting? && FgPid(s.jobs) != s.pc.pid
    ensures Exec(s, [Test, Restore]).pc.Reading?
  {
    hide Inv, Over, Take;
    TestTaken(s);
    var s1 := Take(s, Test);
    RestoreTaken(s1);
    ExecTwo(s, [Test, Restore], s1, Take(s1, Restore));
  }

  lemma FromCollecting(s: State) returns (run: seq<Step>)
    requires WaitsInVain(s) && s.pc.Suspended? && s.handler.Collecting?
    ensures AllOnItsOwn(run) && Exec(s, run).pc.Reading?
  {
    hide Inv, Take, Over, Reports;
    var first := CollectAll(s);
    var s1 := Exec(s, first);
    NothingToReport(s1);
    var s2 := Take(s1, NoMore);
    TakeInv(s1, NoMore);
    var s3 := Take(s2, Return);
    ExecTwo(s1, [NoMore, Return], s2, s3);
    LastTest(s3);
    ExecAppend(s, first, [NoMore, Return]);
    ExecAppend(s, first + [NoMore, Return], [Test, Restore]);
    run := first + [NoMore, Return] + [Test, Restore];
  }

  /** In sigsuspend: the report of the process wakes the handler. */
  lemma WokenUp(s: State)
    requires WaitsInVain(s) && s.pc.Suspended? && s.handler.Outside?
    ensures Take(s, Deliver) == s.(pending := false, handler := Collecting)
    ensures WaitsInVain(Take(s, Deliver))
  {
    var k := FgIndex(s.jobs);
    assert s.jobs[k].pid == s.pc.pid;
    TakeInv(s, Deliver);
  }

  lemma FromSuspended(s: State) returns (run: seq<Step>)
    requires WaitsInVain(s) && s.pc.Suspended? && s.handler.Outside?
    ensures AllOnItsOwn(run) && Exec(s, run).pc.Reading?
  {
    WokenUp(s);
    hide Inv, Take, Over;
    var s1 := Take(s, Deliver);
    var more := FromCollecting(s1);
    run := [Deliver] + more;
    ExecStep(s, run, s1);
    assert run[1..] == more;
  }

  lemma FromWaiting(s: State) returns (run: seq<Step>)
    requires WaitsInVain(s) && s.pc.Waiting?
    ensures AllOnItsOwn(run) && Exec(s, run).pc.Reading?
  {
    hide Inv, Take, Over;
    if FgPid(s.jobs) == s.pc.pid {
      TestTaken(s);
      var s1 := Take(s, Test);
      TakeInv(s, Test);
      OutsideUnlessSuspended(s);
      OverKept(s, s1);
      var more := FromSuspended(s1);
      run := [Test] + more;
      ExecStep(s, run, s1);
      assert run[1..] == more;
    } else {
      LastTest(s);
      run := [Test, Restore];
    }
  }

  lemma OverKept(s: State, s': State)
    requires s'.children == s.children
    ensures forall pid :: Over(s, pid) ==> Over(s', pid)
  {
  }

  lemma OutsideUnlessSuspended(s: State)
    requires Inv(s) && s.pc.Waiting?
    ensures s.handler.Outside?
  {
  }

  /** Once the foreground process has ended or stopped, the shell and its handler
      by themselves come back to the prompt. */
  lemma PromptReturns(s: State) returns (run: seq<Step>)
    requires WaitsInVain(s)
    ensures AllOnItsOwn(run) && Exec(s, run).pc.Reading?
  {
    hide Inv, Over;
    if s.pc.Waiting? {
      run := FromWaiting(s);
    } else if s.handler.Outside? {
      run := FromSuspended(s);
    } else if s.handler.Collecting? {
      run := FromCollecting(s);
    } else {
      var s1 := s.(handler := Outside, pc := Waiting(s.pc.pid, s.pc.saved));
      assert Take(s, Return) == s1;
      TakeInv(s, Return);
      OverKept(s, s1);
      var more := FromWaiting(s1);
      run := [Return] + more;
      ExecStep(s, run, s1);
      assert run[1..] == more;
    }
  }
}
