/**
 The job table of the tiny shell (Lab5_shelllab/tsh.c, lines 430-548).
 Command lines are not kept.
 */
module ShellJobs {

  datatype JobState = Undef | FG | BG | ST

  datatype Job = Job(pid: nat, jid: nat, state: JobState)

  const MAXJOBS := 16
  const NoJob := Job(0, 0, Undef)

  // ------------------------------------------------- the table as a value

  /** First entry from i on with this pid, or the length of the table. */
  function PidIndex(jobs: seq<Job>, pid: nat, i: nat := 0): (k: nat)
    requires i <= |jobs|
    ensures i <= k <= |jobs| && (k < |jobs| ==> jobs[k].pid == pid)
    ensures forall j :: i <= j < k ==> jobs[j].pid != pid
    decreases |jobs| - i
  {
    if i == |jobs| || jobs[i].pid == pid then i else PidIndex(jobs, pid, i + 1)
  }

  function JidIndex(jobs: seq<Job>, jid: nat, i: nat := 0): (k: nat)
    requires i <= |jobs|
    ensures i <= k <= |jobs| && (k < |jobs| ==> jobs[k].jid == jid)
    ensures forall j :: i <= j < k ==> jobs[j].jid != jid
    decreases |jobs| - i
  {
    if i == |jobs| || jobs[i].jid == jid then i else JidIndex(jobs, jid, i + 1)
  }

  /** First foreground entry, or the length of the table. */
  function FgIndex(jobs: seq<Job>, i: nat := 0): (k: nat)
    requires i <= |jobs|
    ensures i <= k <= |jobs| && (k < |jobs| ==> jobs[k].state == FG)
    ensures forall j :: i <= j < k ==> jobs[j].state != FG
    decreases |jobs| - i
  {
    if i == |jobs| || jobs[i].state == FG then i else FgIndex(jobs, i + 1)
  }

  function FgPid(jobs: seq<Job>): nat {
    var k := FgIndex(jobs);
    if k < |jobs| then jobs[k].pid else 0
  }

  function MaxJid(jobs: seq<Job>): (m: nat)
    ensures forall j :: 0 <= j < |jobs| ==> jobs[j].jid <= m
  {
    if jobs == [] then 0
    else
      var m, jid := MaxJid(jobs[..|jobs| - 1]), jobs[|jobs| - 1].jid;
      if jid > m then jid else m
  }

  lemma {:induction false} MaxJidUsed(jobs: seq<Job>) returns (j: nat)
    requires MaxJid(jobs) > 0
    ensures j < |jobs| && jobs[j].jid == MaxJid(jobs)
  {
    var m := MaxJid(jobs[..|jobs| - 1]);
    if jobs[|jobs| - 1].jid > m {
      j := |jobs| - 1;
    } else {
      j := MaxJidUsed(jobs[..|jobs| - 1]);
    }
  }

  /** Entries are free or belong to different processes. */
  ghost predicate WellFormed(jobs: seq<Job>) {
    && |jobs| == MAXJOBS
    && (forall i :: 0 <= i < |jobs| ==> (jobs[i].pid == 0 ==> jobs[i] == NoJob) && (jobs[i].state == Undef ==> jobs[i].pid == 0))
    && (forall i, j :: 0 <= i < j < |jobs| && jobs[i].pid == jobs[j].pid ==> jobs[i].pid == 0)
  }

  predicate InTable(jobs: seq<Job>, pid: nat) {
    PidIndex(jobs, pid) < |jobs|
  }

  lemma OwnEntry(jobs: seq<Job>, i: nat)
    requires WellFormed(jobs) && i < |jobs| && jobs[i].pid > 0
    ensures PidIndex(jobs, jobs[i].pid) == i
  {
  }

  lemma AddKeeps(jobs: seq<Job>, job: Job)
    requires WellFormed(jobs) && InTable(jobs, 0) && job.pid > 0 && job.state != Undef && !InTable(jobs, job.pid)
    ensures var jobs' := jobs[PidIndex(jobs, 0) := job];
      WellFormed(jobs') && forall p :: p > 0 ==> (InTable(jobs', p) <==> p == job.pid || InTable(jobs, p))
  {
    var k := PidIndex(jobs, 0);
    var jobs' := jobs[k := job];
    forall p | p > 0
      ensures InTable(jobs', p) <==> p == job.pid || InTable(jobs, p)
    {
      assert jobs'[k].pid == job.pid;
      if InTable(jobs, p) { assert jobs'[PidIndex(jobs, p)].pid == p; }
      if InTable(jobs', p) && p != job.pid { assert jobs[PidIndex(jobs', p)].pid == p; }
    }
  }

  lemma DeleteKeeps(jobs: seq<Job>, pid: nat)
    requires WellFormed(jobs) && pid > 0 && InTable(jobs, pid)
    ensures var jobs' := jobs[PidIndex(jobs, pid) := NoJob];
      WellFormed(jobs') && forall p :: p > 0 ==> (InTable(jobs', p) <==> p != pid && InTable(jobs, p))
  {
    var k := PidIndex(jobs, pid);
    var jobs' := jobs[k := NoJob];
    forall p | p > 0
      ensures InTable(jobs', p) <==> p != pid && InTable(jobs, p)
    {
      if InTable(jobs, p) && p != pid { assert jobs'[PidIndex(jobs, p)].pid == p; }
      if InTable(jobs', p) { assert jobs[PidIndex(jobs', p)].pid == p; }
    }
  }

  lemma StateKeeps(jobs: seq<Job>, k: nat, state: JobState)
    requires WellFormed(jobs) && k < |jobs| && jobs[k].pid > 0 && state != Undef
    ensures var jobs' := jobs[k := jobs[k].(state := state)];
      WellFormed(jobs') && forall p :: p > 0 ==> (InTable(jobs', p) <==> InTable(jobs, p))
  {
    var jobs' := jobs[k := jobs[k].(state := state)];
    forall p | p > 0
      ensures InTable(jobs', p) <==> InTable(jobs, p)
    {
      if InTable(jobs, p) { assert jobs'[PidIndex(jobs, p)].pid == p; }
      if InTable(jobs', p) { assert jobs[PidIndex(jobs', p)].pid == p; }
    }
  }

  // ------------------------------------------------ the table in memory

  class JobTable {
    const jobs: array<Job>
    var nextjid: nat

    /** initjobs */
    constructor ()
      ensures fresh(jobs) && jobs.Length == MAXJOBS && nextjid == 1
      ensures forall i :: 0 <= i < MAXJOBS ==> jobs[i] == NoJob
      ensures WellFormed(jobs[..])
    {
      jobs := new Job[MAXJOBS];
      nextjid := 1;
      new;
      for i := 0 to MAXJOBS
        invariant forall k :: 0 <= k < i ==> jobs[k] == NoJob
        modifies jobs
      {
        jobs[i] := NoJob;
      }
    }

    /** maxjid */
    method Maxjid() returns (max: nat)
      ensures max == MaxJid(jobs[..])
    {
      max := 0;
      for i := 0 to jobs.Length
        invariant max == MaxJid(jobs[..i])
      {
        assert jobs[..i + 1][..i] == jobs[..i];
        if jobs[i].jid > max {
          max := jobs[i].jid;
        }
      }
      assert jobs[..jobs.Length] == jobs[..];
    }

    /** addjob: the first free entry is taken. */
    method Addjob(pid: nat, state: JobState) returns (ok: bool)
      modifies jobs, this`nextjid
      ensures ok <==> pid >= 1 && PidIndex(old(jobs[..]), 0) < jobs.Length
      ensures !ok ==> jobs[..] == old(jobs[..]) && nextjid == old(nextjid)
      ensures ok ==> jobs[..] == old(jobs[..])[PidIndex(old(jobs[..]), 0) := Job(pid, old(nextjid), state)]
      ensures ok ==> nextjid == if old(nextjid) + 1 > MAXJOBS then 1 else old(nextjid) + 1
    {
      if pid < 1 {
        return false;
      }
      for i := 0 to jobs.Length
        invariant jobs[..] == old(jobs[..]) && nextjid == old(nextjid)
        invariant PidIndex(jobs[..], 0) == PidIndex(jobs[..], 0, i)
      {
        if jobs[i].pid == 0 {
          jobs[i] := Job(pid, nextjid, state);
          nextjid := nextjid + 1;
          if nextjid > MAXJOBS {
            nextjid := 1;
          }
          return true;
        }
      }
      return false;
    }

    /** deletejob: clears the entry and numbers the next job past the largest. */
    method Deletejob(pid: nat) returns (ok: bool)
      modifies jobs, this`nextjid
      ensures ok <==> pid >= 1 && PidIndex(old(jobs[..]), pid) < jobs.Length
      ensures !ok ==> jobs[..] == old(jobs[..]) && nextjid == old(nextjid)
      ensures ok ==> jobs[..] == old(jobs[..])[PidIndex(old(jobs[..]), pid) := NoJob]
      ensures ok ==> nextjid == MaxJid(jobs[..]) + 1
    {
      if pid < 1 {
        return false;
      }
      for i := 0 to jobs.Length
        invariant jobs[..] == old(jobs[..]) && nextjid == old(nextjid)
        invariant PidIndex(jobs[..], pid) == PidIndex(jobs[..], pid, i)
      {
        if jobs[i].pid == pid {
          jobs[i] := NoJob;
          var max := Maxjid();
          nextjid := max + 1;
          return true;
        }
      }
      return false;
    }

    /** fgpid */
    method Fgpid() returns (pid: nat)
      ensures pid == FgPid(jobs[..])
    {
      for i := 0 to jobs.Length
        invariant FgIndex(jobs[..]) == FgIndex(jobs[..], i)
      {
        if jobs[i].state == FG {
          return jobs[i].pid;
        }
      }
      return 0;
    }

    /** getjobpid; the length of the table stands for NULL. */
    method Getjobpid(pid: int) returns (k: nat)
      ensures k == if pid < 1 then jobs.Length else PidIndex(jobs[..], pid)
    {
      if pid < 1 {
        return jobs.Length;
      }
      for i := 0 to jobs.Length
        invariant PidIndex(jobs[..], pid) == PidIndex(jobs[..], pid, i)
      {
        if jobs[i].pid == pid {
          return i;
        }
      }
      return jobs.Length;
    }

    /** getjobjid; the length of the table stands for NULL. */
    method Getjobjid(jid: int) returns (k: nat)
      ensures k == if jid < 1 then jobs.Length else JidIndex(jobs[..], jid)
    {
      if jid < 1 {
        return jobs.Length;
      }
      for i := 0 to jobs.Length
        invariant JidIndex(jobs[..], jid) == JidIndex(jobs[..], jid, i)
      {
        if jobs[i].jid == jid {
          return i;
        }
      }
      return jobs.Length;
    }
  }
}
