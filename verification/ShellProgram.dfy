/**
 The parts of eval, do_bgfg, waitfg and sigchld_handler (Lab5_shelllab/tsh.c)
 that work on the job table, over the table in memory.
 */
module ShellProgram {
  import opened ShellJobs
  import opened ShellControl

  class Shell {
    const table: JobTable
    var pc: PC
    var handler: Handler
    var blocked: bool
    var pending: bool
    /** The kernel's view of the children. */
    var children: map<nat, Child>

    ghost function Abs(): State
      reads this, table, table.jobs
    {
      State(pc, handler, blocked, pending, table.jobs[..], table.nextjid, children)
    }

    constructor ()
      ensures fresh(table) && fresh(table.jobs) && Init(Abs()) && Inv(Abs())
    {
      table := new JobTable();
      pc := Reading;
      handler := Outside;
      blocked := false;
      pending := false;
      children := map[];
      new;
      InitInv(Abs());
    }

    /** eval after the fork: the job is added, and waited for in the foreground. */
    method AddNewJob()
      requires Inv(Abs()) && Enabled(Abs(), Add)
      modifies this`pc, table, table.jobs
      ensures Inv(Abs()) && Abs() == Next(old(Abs()), Add)
    {
      hide Inv;
      NextInv(Abs(), Add);
      ghost var jobs := table.jobs[..];
      var pid, bg, saved := pc.pid, pc.bg, pc.saved;
      var ok := table.Addjob(pid, if bg then BG else FG);
      if !ok {
        pc := Crashed;
      } else if bg {
        pc := Restoring(saved);
      } else {
        pc := Waiting(pid, saved);
      }
    }

    /** do_bgfg up to the sending of SIGCONT. */
    method ChooseJobFor()
      requires Inv(Abs()) && Enabled(Abs(), Choose)
      modifies this`pc, table.jobs
      ensures Inv(Abs()) && Abs() == Next(old(Abs()), Choose)
    {
      hide Inv;
      NextInv(Abs(), Choose);
      var fg, arg, saved := pc.fg, pc.arg, pc.saved;
      if arg.NoArg? {
        pc := Reading;
        return;
      }
      var k;
      if arg.Jid? {
        k := table.Getjobjid(arg.jid);
      } else {
        k := table.Getjobpid(arg.pid);
      }
      if k == table.jobs.Length {
        pc := Reading;
        return;
      }
      table.jobs[k] := table.jobs[k].(state := if fg then FG else BG);
      pc := Continuing(table.jobs[k].pid, saved);
    }

    /** The condition of the loop in waitfg. */
    method TestForeground()
      requires Inv(Abs()) && Enabled(Abs(), Test)
      modifies this`pc
      ensures Inv(Abs()) && Abs() == Next(old(Abs()), Test)
    {
      hide Inv;
      NextInv(Abs(), Test);
      var fg := table.Fgpid();
      pc := if pc.pid == fg then Suspended(pc.pid, pc.saved) else Restoring(pc.saved);
    }

    /** One turn of the loop in sigchld_handler, for the child waitpid returned. */
    method CollectOne(pid: nat)
      requires Inv(Abs()) && Enabled(Abs(), Collect(pid)) && !pc.Crashed?
      modifies this`children, table, table.jobs
      ensures Inv(Abs()) && Abs() == Next(old(Abs()), Collect(pid))
    {
      hide Inv, Matched, Reported, Truthful, OneForeground;
      NextInv(Abs(), Collect(pid));
      CollectStep(Abs(), pid);
      if children[pid].state == Zombie {
        var ok := table.Deletejob(pid);
        children := children - {pid};
      } else {
        var k := table.Getjobpid(pid);
        table.jobs[k] := table.jobs[k].(state := ST);
        children := children[pid := children[pid].(report := false)];
      }
    }
  }
}
