/** The shell's job table: sixteen slots, of which those with pid 0 are free. */
module ShellJobs {

  const MAXJOBS: nat := 16

  datatype JobState = UNDEF | FG | BG | ST

  datatype Job = Job(pid: nat, jid: nat, state: JobState)

  const NoJob := Job(0, 0, UNDEF)

  /** First slot with the pid, or |jobs|; a free slot for pid 0. */
  function Slot(jobs: seq<Job>, pid: nat): (i: nat)
    ensures i <= |jobs| && (i < |jobs| ==> jobs[i].pid == pid)
    ensures forall j | 0 <= j < i :: jobs[j].pid != pid
  {
    if jobs == [] then 0 else if jobs[0].pid == pid then 0 else 1 + Slot(jobs[1..], pid)
  }

  /** First slot in the foreground state, or |jobs|. */
  function FgSlot(jobs: seq<Job>): (i: nat)
    ensures i <= |jobs| && (i < |jobs| ==> jobs[i].state == FG)
    ensures forall j | 0 <= j < i :: jobs[j].state != FG
  {
    if jobs == [] then 0 else if jobs[0].state == FG then 0 else 1 + FgSlot(jobs[1..])
  }

  function FgPid(jobs: seq<Job>): nat {
    var i := FgSlot(jobs);
    if i < |jobs| then jobs[i].pid else 0
  }

  function MaxJid(jobs: seq<Job>): (m: nat)
    ensures forall i | 0 <= i < |jobs| :: jobs[i].jid <= m
    ensures m == 0 || exists i | 0 <= i < |jobs| :: jobs[i].jid == m
  {
    if jobs == [] then 0
    else
      var m := MaxJid(jobs[..|jobs| - 1]);
      if jobs[|jobs| - 1].jid > m then jobs[|jobs| - 1].jid else m
  }

  datatype Table = Table(jobs: seq<Job>, next: nat)

  function Added(t: Table, pid: nat, state: JobState): Table {
    var i := Slot(t.jobs, 0);
    if pid < 1 || i == |t.jobs| then t
    else Table(t.jobs[i := Job(pid, t.next, state)], if t.next + 1 > MAXJOBS then 1 else t.next + 1)
  }

  function Deleted(t: Table, pid: nat): Table {
    var i := Slot(t.jobs, pid);
    if pid < 1 || i == |t.jobs| then t
    else Table(t.jobs[i := NoJob], MaxJid(t.jobs[i := NoJob]) + 1)
  }

  /** The first slot of the pid. */
  predicate FirstWith(jobs: seq<Job>, pid: nat, i: int) {
    0 <= i < |jobs| && jobs[i].pid == pid && forall j | 0 <= j < i :: jobs[j].pid != pid
  }

  /** The job takes the first free slot and the number that was next; the numbers after
      MAXJOBS begin again at 1. */
  ghost predicate Adds(t: Table, pid: nat, state: JobState, u: Table, ok: bool) {
    if pid == 0 || forall i | 0 <= i < |t.jobs| :: t.jobs[i].pid != 0 then !ok && u == t
    else
      && ok && (t.next < MAXJOBS ==> u.next == t.next + 1) && (t.next >= MAXJOBS ==> u.next == 1)
      && exists i :: && FirstWith(t.jobs, 0, i) && |u.jobs| == |t.jobs| && u.jobs[i] == Job(pid, t.next, state)
                     && forall j | 0 <= j < |t.jobs| && j != i :: u.jobs[j] == t.jobs[j]
  }

  lemma AddedAdds(t: Table, pid: nat, state: JobState)
    ensures Adds(t, pid, state, Added(t, pid, state), pid >= 1 && Slot(t.jobs, 0) < |t.jobs|)
  {
    var i := Slot(t.jobs, 0);
    if i < |t.jobs| {
      assert FirstWith(t.jobs, 0, i);
    }
  }

  /** The job's slot becomes free, and the next number is one more than the largest left. */
  ghost predicate Deletes(t: Table, pid: nat, u: Table, ok: bool) {
    if pid == 0 || forall i | 0 <= i < |t.jobs| :: t.jobs[i].pid != pid then !ok && u == t
    else
      && ok && (forall j | 0 <= j < |u.jobs| :: u.jobs[j].jid < u.next)
      && (u.next == 1 || exists j | 0 <= j < |u.jobs| :: u.jobs[j].jid == u.next - 1)
      && exists i :: && FirstWith(t.jobs, pid, i) && |u.jobs| == |t.jobs| && u.jobs[i] == NoJob
                     && forall j | 0 <= j < |t.jobs| && j != i :: u.jobs[j] == t.jobs[j]
  }

  lemma DeletedDeletes(t: Table, pid: nat)
    ensures Deletes(t, pid, Deleted(t, pid), pid >= 1 && Slot(t.jobs, pid) < |t.jobs|)
  {
    var i := Slot(t.jobs, pid);
    if i < |t.jobs| {
      assert FirstWith(t.jobs, pid, i);
    }
  }

  lemma SlotIs(jobs: seq<Job>, pid: nat, i: nat)
    requires i <= |jobs| && (i < |jobs| ==> jobs[i].pid == pid) && forall j | 0 <= j < i :: jobs[j].pid != pid
    ensures Slot(jobs, pid) == i
  {
  }

  lemma FgSlotIs(jobs: seq<Job>, i: nat)
    requires i <= |jobs| && (i < |jobs| ==> jobs[i].state == FG) && forall j | 0 <= j < i :: jobs[j].state != FG
    ensures FgSlot(jobs) == i
  {
  }

  /** The global job list and the next job number, updated in place. */
  class JobTable {
    const jobs: array<Job>
    var next: nat

    ghost function View(): Table
      reads this, jobs
    {
      Table(jobs[..], next)
    }

    constructor ()
      ensures jobs.Length == MAXJOBS && fresh(jobs) && View() == Table(seq(MAXJOBS, _ => NoJob), 1)
    {
      jobs := new Job[MAXJOBS](_ => NoJob);
      next := 1;
    }

    method MaxJobId() returns (max: nat)
      ensures max == MaxJid(jobs[..])
    {
      max := 0;
      var i := 0;
      while i < jobs.Length
        invariant 0 <= i <= jobs.Length && max == MaxJid(jobs[..i])
      {
        assert jobs[..i + 1][..i] == jobs[..i];
        if jobs[i].jid > max {
          max := jobs[i].jid;
        }
        i := i + 1;
      }
      assert jobs[..i] == jobs[..];
    }

    method Find(pid: nat) returns (i: nat)
      ensures i == Slot(jobs[..], pid)
    {
      i := 0;
      while i < jobs.Length && jobs[i].pid != pid
        invariant i <= jobs.Length && forall j | 0 <= j < i :: jobs[j].pid != pid
      {
        i := i + 1;
      }
      SlotIs(jobs[..], pid, i);
    }

    method AddJob(pid: nat, state: JobState) returns (ok: bool)
      modifies this, jobs
      ensures View() == Added(old(View()), pid, state)
      ensures ok <==> pid >= 1 && Slot(old(jobs[..]), 0) < jobs.Length
      ensures Adds(old(View()), pid, state, View(), ok) == true
    {
      AddedAdds(View(), pid, state);
      hide Adds;
      if pid < 1 {
        return false;
      }
      var i := Find(0);
      if i == jobs.Length {
        return false;
      }
      jobs[i] := Job(pid, next, state);
      next := next + 1;
      if next > MAXJOBS {
        next := 1;
      }
      ok := true;
    }

    method DeleteJob(pid: nat) returns (ok: bool)
      modifies this, jobs
      ensures View() == Deleted(old(View()), pid)
      ensures ok <==> pid >= 1 && Slot(old(jobs[..]), pid) < jobs.Length
      ensures Deletes(old(View()), pid, View(), ok) == true
    {
      DeletedDeletes(View(), pid);
      hide Deletes;
      if pid < 1 {
        return false;
      }
      var i := Find(pid);
      if i == jobs.Length {
        return false;
      }
      jobs[i] := NoJob;
      var max := MaxJobId();
      next := max + 1;
      ok := true;
    }

    method ForegroundPid() returns (pid: nat)
      ensures pid == FgPid(jobs[..])
      ensures (forall i | 0 <= i < jobs.Length :: jobs[i].state != FG) ==> pid == 0
      ensures forall i | 0 <= i < jobs.Length && jobs[i].state == FG
              && (forall j | 0 <= j < i :: jobs[j].state != FG) ::
                pid == jobs[i].pid
    {
      var i := 0;
      while i < jobs.Length
        invariant 0 <= i <= jobs.Length && forall j | 0 <= j < i :: jobs[j].state != FG
      {
        if jobs[i].state == FG {
          FgSlotIs(jobs[..], i);
          return jobs[i].pid;
        }
        i := i + 1;
      }
      FgSlotIs(jobs[..], i);
      pid := 0;
    }
  }
}
