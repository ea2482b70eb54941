/**
 Job control in the tiny shell (Lab5_shelllab/tsh.c): the main loop, the
 SIGCHLD handler and the child processes as one transition system.  Children
 move at any time; the handler runs whenever SIGCHLD is pending and not
 blocked, or the shell sleeps in sigsuspend.

 Of the kernel it is assumed that a pid is not given out again before its
 process has been collected, that fork and kill succeed, and that SIGCONT
 discards the report of a stop that has not been collected.
 */
module ShellControl {
  import opened ShellJobs

  datatype ChildState = Running | Stopped | Zombie

  /** `report`: a change that waitpid has not returned yet. */
  datatype Child = Child(state: ChildState, report: bool)

  /** What atoi makes of the argument of bg or fg. */
  datatype Arg = NoArg | Jid(jid: int) | Pid(pid: int)

  /** Where the main program is; `saved` is the mask to be restored. */
  datatype PC =
    | Reading
    | Forking(bg: bool, saved: bool)
    | Adding(pid: nat, bg: bool, saved: bool)
    | Choosing(fg: bool, arg: Arg, saved: bool)
    | Continuing(pid: nat, saved: bool)
    | Waiting(pid: nat, saved: bool)
    | Suspended(pid: nat, saved: bool)
    | Restoring(saved: bool)
    | Crashed

  datatype Handler = Outside | Collecting | Returning

  datatype State = State(
    pc: PC, handler: Handler, blocked: bool, pending: bool,
    jobs: seq<Job>, nextjid: nat, children: map<nat, Child>)

  datatype Step =
    // the main program
    | StartJob(bg: bool)              // eval up to the blocking of SIGCHLD
    | Fork(pid: nat)                  // Fork() returns pid
    | Add                             // addjob, getjobpid and the report
    | StartBgFg(fg: bool, arg: Arg)   // do_bgfg up to the blocking of SIGCHLD
    | Choose                          // the choice of the job and its new state
    | Continue                        // Kill(pid, SIGCONT) and the test for FG
    | Test                            // the while condition of waitfg
    | Restore                         // Sigprocmask(SIG_SETMASK, &prev_mask)
    | Wake                            // sigsuspend ended by another signal
    // the handler
    | Deliver                         // SIGCHLD is delivered
    | Collect(pid: nat)               // waitpid returns pid
    | NoMore                          // waitpid returns 0 or ECHILD
    | Return                          // the handler returns
    // the rest of the world
    | Exit(pid: nat)                  // a child exits or is killed
    | Stop(pid: nat)                  // a child is stopped
    | Cont(pid: nat)                  // a child is continued from outside
    | Signal                          // SIGCHLD for some other reason

  // --------------------------------------------------------------- steps

  function SetState(jobs: seq<Job>, k: nat, state: JobState): seq<Job>
    requires k < |jobs|
  {
    jobs[k := jobs[k].(state := state)]
  }

  /** The argument of bg or fg means this job. */
  predicate Names(arg: Arg, job: Job) {
    job.pid > 0 && match arg
      case NoArg => false
      case Jid(jid) => jid >= 1 && job.jid == jid
      case Pid(pid) => job.pid == pid
  }

  /** The entry that bg or fg is meant for; the table length if there is none. */
  function Chosen(jobs: seq<Job>, arg: Arg): (k: nat)
    ensures k <= |jobs|
  {
    match arg
    case NoArg => |jobs|
    case Jid(jid) => if jid < 1 then |jobs| else JidIndex(jobs, jid)
    case Pid(pid) => if pid < 1 then |jobs| else PidIndex(jobs, pid)
  }

  /** SIGCONT */
  function Continued(c: Child): Child {
    if c.state == Stopped then Child(Running, false) else c
  }

  predicate Enabled(s: State, step: Step) {
    match step
    case StartJob(_) => s.pc.Reading? && s.handler.Outside?
    case Fork(pid) => s.pc.Forking? && pid > 0 && pid !in s.children
    case Add => s.pc.Adding?
    case StartBgFg(_, _) => s.pc.Reading? && s.handler.Outside?
    case Choose => s.pc.Choosing?
    case Continue => s.pc.Continuing?
    case Test => s.pc.Waiting?
    case Restore => s.pc.Restoring?
    case Wake => s.pc.Suspended? && s.handler.Outside?
    case Deliver => s.pending && s.handler.Outside? && (s.pc.Suspended? || (s.pc.Reading? && !s.blocked))
    case Collect(pid) => s.handler.Collecting? && pid in s.children && s.children[pid].report
    case NoMore => s.handler.Collecting? && forall p :: p in s.children ==> !s.children[p].report
    case Return => s.handler.Returning?
    case Exit(pid) => pid in s.children && s.children[pid].state != Zombie
    case Stop(pid) => pid in s.children && s.children[pid].state == Running
    case Cont(pid) => pid in s.children && s.children[pid].state == Stopped
    case Signal => true
  }

  /** addjob and the use of its entry: with a full table getjobpid returns
      NULL and the shell dies on it. */
  function AddJob(s: State): State
    requires s.pc.Adding?
  {
    var k := PidIndex(s.jobs, 0);
    if s.pc.pid < 1 || k == |s.jobs| then s.(pc := Crashed)
    else s.(
      jobs := s.jobs[k := Job(s.pc.pid, s.nextjid, if s.pc.bg then BG else FG)],
      nextjid := if s.nextjid + 1 > MAXJOBS then 1 else s.nextjid + 1,
      pc := if s.pc.bg then Restoring(s.pc.saved) else Waiting(s.pc.pid, s.pc.saved))
  }

  /** The two early returns leave SIGCHLD blocked. */
  function ChooseJob(s: State): State
    requires s.pc.Choosing?
  {
    var k := Chosen(s.jobs, s.pc.arg);
    if k == |s.jobs| then s.(pc := Reading)
    else s.(jobs := SetState(s.jobs, k, if s.pc.fg then FG else BG), pc := Continuing(s.jobs[k].pid, s.pc.saved))
  }

  function ContinueJob(s: State): State
    requires s.pc.Continuing?
  {
    var pid := s.pc.pid;
    var k := PidIndex(s.jobs, pid);
    s.(children := if pid in s.children then s.children[pid := Continued(s.children[pid])] else s.children,
       pc := if k < |s.jobs| && s.jobs[k].state == FG then Waiting(pid, s.pc.saved) else Restoring(s.pc.saved))
  }

  /** One turn of the handler's loop; it dies on a child without an entry. */
  function CollectChild(s: State, pid: nat): State
    requires pid in s.children
  {
    var k := PidIndex(s.jobs, pid);
    if k == |s.jobs| then s.(pc := Crashed)
    else if s.children[pid].state == Zombie then
      var jobs := s.jobs[k := NoJob];
      s.(jobs := jobs, nextjid := MaxJid(jobs) + 1, children := s.children - {pid})
    else
      s.(jobs := SetState(s.jobs, k, ST), children := s.children[pid := s.children[pid].(report := false)])
  }

  function Next(s: State, step: Step): State
    requires Enabled(s, step)
  {
    match step
    case StartJob(bg) => s.(pc := Forking(bg, s.blocked), blocked := true)
    case Fork(pid) => s.(pc := Adding(pid, s.pc.bg, s.pc.saved), children := s.children[pid := Child(Running, false)])
    case Add => AddJob(s)
    case StartBgFg(fg, arg) => s.(pc := Choosing(fg, arg, s.blocked), blocked := true)
    case Choose => ChooseJob(s)
    case Continue => ContinueJob(s)
    case Test =>
      s.(pc := if s.pc.pid == FgPid(s.jobs) then Suspended(s.pc.pid, s.pc.saved) else Restoring(s.pc.saved))
    case Restore => s.(pc := Reading, blocked := s.pc.saved)
    case Wake => s.(pc := Waiting(s.pc.pid, s.pc.saved))
    case Deliver => s.(pending := false, handler := Collecting)
    case Collect(pid) => CollectChild(s, pid)
    case NoMore => s.(handler := Returning)
    case Return =>
      s.(handler := Outside, pc := if s.pc.Suspended? then Waiting(s.pc.pid, s.pc.saved) else s.pc)
    case Exit(pid) => s.(children := s.children[pid := Child(Zombie, true)], pending := true)
    case Stop(pid) => s.(children := s.children[pid := Child(Stopped, true)], pending := true)
    case Cont(pid) => s.(children := s.children[pid := Continued(s.children[pid])])
    case Signal => s.(pending := true)
  }

  predicate Init(s: State) {
    && s.pc.Reading? && s.handler.Outside? && !s.blocked && !s.pending
    && |s.jobs| == MAXJOBS && (forall i :: 0 <= i < |s.jobs| ==> s.jobs[i] == NoJob)
    && s.nextjid == 1 && s.children == map[]
  }

  // ----------------------------------------------------------- invariant

  /** A child whose job counts as running: it is, or the shell will be told. */
  predicate Live(c: Child) {
    c.state == Running || c.report
  }

  /** Entries and children belong together; a child just forked has none yet. */
  ghost predicate Matched(s: State) {
    && WellFormed(s.jobs)
    && (forall i :: 0 <= i < |s.jobs| && s.jobs[i].pid > 0 ==> s.jobs[i].pid in s.children)
    && (forall p :: p in s.children && !(s.pc.Adding? && s.pc.pid == p) ==> p > 0 && InTable(s.jobs, p))
    && (s.pc.Adding? ==> s.pc.pid > 0 && s.pc.pid in s.children && !InTable(s.jobs, s.pc.pid))
    && (s.pc.Continuing? ==> s.pc.pid > 0 && InTable(s.jobs, s.pc.pid))
  }

  /** A change not collected has SIGCHLD pending, or the handler will find it. */
  ghost predicate Reported(s: State) {
    && (forall p :: p in s.children && s.children[p].report ==> s.pending || s.handler.Collecting?)
    && (forall p :: p in s.children ==> (s.children[p].state == Zombie ==> s.children[p].report))
    && (forall p :: p in s.children ==> (s.children[p].state == Running ==> !s.children[p].report))
  }

  /** Jobs in foreground or background are live, but for the one about to get SIGCONT. */
  ghost predicate Truthful(s: State) {
    && (forall i :: 0 <= i < |s.jobs| && (s.jobs[i].state == FG || s.jobs[i].state == BG) ==>
      s.jobs[i].pid in s.children && (Live(s.children[s.jobs[i].pid]) || (s.pc.Continuing? && s.pc.pid == s.jobs[i].pid)))
    && (s.pc.Adding? ==> s.pc.pid in s.children && Live(s.children[s.pc.pid]))
  }

  /** The process the main program is busy with in the foreground, or 0. */
  function Foreground(pc: PC): nat {
    if pc.Continuing? || pc.Waiting? || pc.Suspended? then pc.pid else 0
  }

  /** Only that one is in the foreground; in sigsuspend it is, until the handler runs. */
  ghost predicate OneForeground(s: State) {
    && (forall i :: 0 <= i < |s.jobs| && s.jobs[i].state == FG ==> s.jobs[i].pid == Foreground(s.pc))
    && (s.pc.Suspended? && s.handler.Outside? ==> s.pc.pid > 0 && FgPid(s.jobs) == s.pc.pid)
    && (s.pc.Waiting? || s.pc.Suspended? ==> s.pc.pid > 0)
  }

  /** The handler only runs at the prompt, or instead of a sleeping shell. */
  ghost predicate Masked(s: State) {
    && (!s.handler.Outside? ==> s.pc.Suspended? || (s.pc.Reading? && !s.blocked))
    && (!s.pc.Reading? ==> s.blocked)
  }

  ghost predicate Inv(s: State) {
    s.pc.Crashed? || (Matched(s) && Reported(s) && Truthful(s) && OneForeground(s) && Masked(s))
  }

  lemma InitInv(s: State)
    requires Init(s)
    ensures Inv(s)
  {
  }

  /** A step other than those that change the table. */
  predicate TableSteady(step: Step) {
    !step.Add? && !step.Choose? && !step.Collect?
  }

  lemma ForkMatched(s: State, pid: nat)
    requires Matched(s) && Enabled(s, Fork(pid))
    ensures Matched(Next(s, Fork(pid)))
  {
  }

  lemma SteadyMatched(s: State, step: Step)
    requires Matched(s) && Masked(s) && Enabled(s, step) && TableSteady(step) && !step.Fork?
    ensures Matched(Next(s, step))
  {
    hide InTable, Masked, WellFormed;
  }

  lemma SteadyReported(s: State, step: Step)
    requires Reported(s) && Enabled(s, step) && TableSteady(step)
    ensures Reported(Next(s, step))
  {
  }

  lemma SteadyTruthful(s: State, step: Step)
    requires Matched(s) && Truthful(s) && Enabled(s, step) && TableSteady(step) && !step.Continue?
    ensures Truthful(Next(s, step))
  {
  }

  lemma SteadyForeground(s: State, step: Step)
    requires Matched(s) && OneForeground(s) && Masked(s) && Enabled(s, step) && TableSteady(step) && !step.Continue?
    ensures OneForeground(Next(s, step))
  {
  }

  lemma MaskedStep(s: State, step: Step)
    requires Masked(s) && Enabled(s, step) && !s.pc.Crashed?
    ensures Next(s, step).pc.Crashed? || Masked(Next(s, step))
  {
  }

  // --- addjob

  lemma AddMatched(s: State)
    requires Matched(s) && s.pc.Adding? && InTable(s.jobs, 0)
    ensures Matched(AddJob(s))
  {
    AddKeeps(s.jobs, Job(s.pc.pid, s.nextjid, if s.pc.bg then BG else FG));
  }

  lemma AddRest(s: State)
    requires Matched(s) && Reported(s) && Truthful(s) && OneForeground(s) && s.pc.Adding? && InTable(s.jobs, 0)
    ensures Reported(AddJob(s)) && Truthful(AddJob(s)) && OneForeground(AddJob(s))
  {
    var s' := AddJob(s);
    assert forall i :: 0 <= i < |s.jobs| && i != PidIndex(s.jobs, 0) ==> s'.jobs[i] == s.jobs[i];
  }

  // --- bg and fg

  lemma ChooseKeeps(s: State)
    requires Matched(s) && Reported(s) && Truthful(s) && OneForeground(s) && s.pc.Choosing?
    ensures var s' := ChooseJob(s);
      Matched(s') && Reported(s') && Truthful(s') && OneForeground(s')
  {
    var k := Chosen(s.jobs, s.pc.arg);
    if k < |s.jobs| {
      ChosenExactly(s.jobs, s.pc.arg);
      StateKeeps(s.jobs, k, if s.pc.fg then FG else BG);
      ChooseMatched(s);
      ChooseTruthful(s);
      ChooseForeground(s);
    }
  }

  /** The entry found is the first that the argument names, and if none is
      found it names none. */
  lemma ChosenExactly(jobs: seq<Job>, arg: Arg)
    requires WellFormed(jobs)
    ensures var k := Chosen(jobs, arg);
      (k < |jobs| ==> Names(arg, jobs[k])) && forall i :: 0 <= i < k ==> !Names(arg, jobs[i])
  {
  }

  lemma ChooseMatched(s: State)
    requires Matched(s) && s.pc.Choosing? && Chosen(s.jobs, s.pc.arg) < |s.jobs|
    ensures Matched(ChooseJob(s))
  {
    var k := Chosen(s.jobs, s.pc.arg);
    ChosenExactly(s.jobs, s.pc.arg);
    StateKeeps(s.jobs, k, if s.pc.fg then FG else BG);
  }

  lemma ChooseTruthful(s: State)
    requires Matched(s) && Truthful(s) && s.pc.Choosing? && Chosen(s.jobs, s.pc.arg) < |s.jobs|
    ensures Truthful(ChooseJob(s))
  {
    ChosenExactly(s.jobs, s.pc.arg);
  }

  lemma ChooseForeground(s: State)
    requires Matched(s) && OneForeground(s) && s.pc.Choosing? && Chosen(s.jobs, s.pc.arg) < |s.jobs|
    ensures OneForeground(ChooseJob(s))
  {
    ChosenExactly(s.jobs, s.pc.arg);
  }

  lemma ContinueKeeps(s: State)
    requires Matched(s) && Reported(s) && Truthful(s) && OneForeground(s) && s.pc.Continuing?
    ensures Truthful(ContinueJob(s)) && OneForeground(ContinueJob(s))
  {
    var k := PidIndex(s.jobs, s.pc.pid);
    forall i | 0 <= i < |s.jobs| && s.jobs[i].pid == s.pc.pid
      ensures i == k
    {
      OwnEntry(s.jobs, i);
    }
  }

  // --- the handler's loop

  lemma CollectEntry(s: State, pid: nat)
    requires Matched(s) && Masked(s) && Enabled(s, Collect(pid)) && !s.pc.Adding?
    ensures pid > 0 && InTable(s.jobs, pid)
    ensures forall i :: 0 <= i < |s.jobs| && s.jobs[i].pid == pid ==> i == PidIndex(s.jobs, pid)
  {
  }

  lemma ReapMatched(s: State, pid: nat)
    requires Matched(s) && Masked(s) && Enabled(s, Collect(pid)) && s.children[pid].state == Zombie
    ensures Matched(CollectChild(s, pid))
  {
    hide InTable, WellFormed;
    CollectEntry(s, pid);
    EntryInTable(s.jobs, pid);
    DeleteKeeps(s.jobs, pid);
  }

  lemma EntryInTable(jobs: seq<Job>, pid: nat)
    ensures InTable(jobs, pid) <==> PidIndex(jobs, pid) < |jobs|
  {
  }

  lemma StopMatched(s: State, pid: nat)
    requires Matched(s) && Masked(s) && Enabled(s, Collect(pid)) && s.children[pid].state != Zombie
    ensures Matched(CollectChild(s, pid))
  {
    hide InTable, WellFormed;
    CollectEntry(s, pid);
    EntryInTable(s.jobs, pid);
    StateKeeps(s.jobs, PidIndex(s.jobs, pid), ST);
  }

  lemma CollectReported(s: State, pid: nat)
    requires Matched(s) && Reported(s) && Masked(s) && Enabled(s, Collect(pid))
    ensures Reported(CollectChild(s, pid))
  {
  }

  lemma CollectTruthful(s: State, pid: nat)
    requires Matched(s) && Truthful(s) && Masked(s) && Enabled(s, Collect(pid))
    ensures Truthful(CollectChild(s, pid))
  {
    CollectEntry(s, pid);
    var k, s' := PidIndex(s.jobs, pid), CollectChild(s, pid);
    assert forall i :: 0 <= i < |s.jobs| && i != k ==> s'.jobs[i] == s.jobs[i] && s.jobs[i].pid != pid;
  }

  lemma CollectForeground(s: State, pid: nat)
    requires Matched(s) && OneForeground(s) && Masked(s) && Enabled(s, Collect(pid))
    ensures OneForeground(CollectChild(s, pid))
  {
    CollectEntry(s, pid);
    var k, s' := PidIndex(s.jobs, pid), CollectChild(s, pid);
    assert forall i :: 0 <= i < |s.jobs| && i != k ==> s'.jobs[i] == s.jobs[i];
  }

  lemma CollectStep(s: State, pid: nat)
    requires Inv(s) && Enabled(s, Collect(pid)) && !s.pc.Crashed?
    ensures pid > 0 && InTable(s.jobs, pid) && !CollectChild(s, pid).pc.Crashed?
    ensures var s' := CollectChild(s, pid);
      Matched(s') && Reported(s') && Truthful(s') && OneForeground(s')
  {
    hide Matched, Reported, Truthful, OneForeground;
    assert !s.pc.Adding?;
    CollectEntry(s, pid);
    if s.children[pid].state == Zombie {
      ReapMatched(s, pid);
    } else {
      StopMatched(s, pid);
    }
    CollectReported(s, pid);
    CollectTruthful(s, pid);
    CollectForeground(s, pid);
  }

  lemma NextInv(s: State, step: Step)
    requires Inv(s) && Enabled(s, step) && !s.pc.Crashed?
    ensures Inv(Next(s, step))
  {
    hide Matched, Reported, Truthful, OneForeground, Masked;
    MaskedStep(s, step);
    match step
    case Add =>
      if InTable(s.jobs, 0) {
        AddMatched(s);
        AddRest(s);
      }
    case Choose => ChooseKeeps(s);
    case Collect(pid) =>
      CollectStep(s, pid);
    case Continue =>
      SteadyMatched(s, step);
      SteadyReported(s, step);
      ContinueKeeps(s);
    case Fork(pid) =>
      ForkMatched(s, pid);
      SteadyReported(s, step);
      SteadyTruthful(s, step);
      SteadyForeground(s, step);
    case _ =>
      SteadyMatched(s, step);
      SteadyReported(s, step);
      SteadyTruthful(s, step);
      SteadyForeground(s, step);
  }
}
