/** What becomes of news about the job that the shell waits for: eval always learns
    it, the fg command misses it in exactly one case. */
module ShellWakeups {
  import opened ShellJobs
  import opened ShellProtocol

  lemma Extended(run: seq<State>, t: State)
    requires IsRun(run) && Next(run[|run| - 1], t)
    ensures IsRun(run + [t])
  {
    hide Next, Init;
    var r := run + [t];
    forall i | 0 <= i < |r| - 1 ensures Next(r[i], r[i + 1]) {
      if i < |run| - 1 {
        assert Next(run[i], run[i + 1]);
      }
    }
  }

  // ----- a scan of the handler -----

  ghost function News(kids: map<nat, Child>): set<nat> {
    set p | p in kids && HasNews(kids[p])
  }

  /** Steps left in the handler's loop, counting two for each child with news. */
  ghost function ScanLeft(s: State): nat {
    2 * |News(s.kids)| + match s.handler case Off => 0 case Scanning => 1 case Got(_, _) => 2
  }

  /** Every step of a running handler brings its end nearer. */
  lemma ScanShrinks(s: State, t: State)
    requires HandlerStep(s, t) && s.handler != Off
    ensures ScanLeft(t) < ScanLeft(s)
  {
    if s.handler == Scanning && t.handler != Off {
      var p :| p in s.kids && HasNews(s.kids[p]) &&
        t == if s.kids[p] == Zombie then s.(kids := s.kids - {p}, handler := Got(p, Gone))
             else s.(kids := s.kids[p := Stopped(false)], handler := Got(p, Halted));
      assert News(t.kids) == News(s.kids) - {p};
    } else {
      assert t.kids == s.kids;
    }
  }

  /** A running handler is never stuck. */
  lemma ScanGoesOn(s: State) returns (t: State)
    requires Inv(s) && s.handler != Off
    ensures HandlerStep(s, t)
  {
    match s.handler
    case Scanning =>
      if p :| p in s.kids && HasNews(s.kids[p]) {
        t := if s.kids[p] == Zombie then s.(kids := s.kids - {p}, handler := Got(p, Gone))
             else s.(kids := s.kids[p := Stopped(false)], handler := Got(p, Halted));
      } else {
        t := s.(handler := Off, pc := Woken(s.pc));
      }
    case Got(p, Gone) =>
      t := s.(table := Deleted(s.table, p), handler := Scanning);
    case Got(p, Halted) =>
      assert Listed(s, p);
      t := s.(table := WithState(s.table, Slot(s.table.jobs, p), ST), handler := Scanning);
  }

  /** Where a sigsuspend returns to. */
  function Woken(pc: Pc): Pc {
    match pc
    case Suspended(p) => Waiting(p)
    case FgSuspended(p) => FgWaiting(p)
    case _ => pc
  }

  /** t is s after a whole scan: all news has been collected. */
  ghost predicate Scanned(s: State, t: State) {
    && t.handler == Off && t.pc == Woken(s.pc) && News(t.kids) == {}
    && forall q | q in t.kids :: q in s.kids && (HasNews(s.kids[q]) || s.kids[q] == Stopped(false)
         ==> t.kids[q] == Stopped(false))
  }

  lemma ScannedStep(s: State, t: State, u: State)
    requires HandlerStep(s, t) && s.handler != Off && t.handler != Off && Scanned(t, u)
    ensures Scanned(s, u)
  {
  }

  lemma ScannedLast(s: State, t: State)
    requires HandlerStep(s, t) && s.handler != Off && t.handler == Off
    ensures Scanned(s, t)
  {
    assert forall p | p in t.kids :: !HasNews(t.kids[p]);
  }

  /** Left alone, the handler finishes its scan. */
  lemma {:induction false} ScanEnds(run: seq<State>) returns (more: seq<State>)
    requires IsRun(run) && run[|run| - 1].handler != Off
    ensures more != [] && IsRun(run + more) && Scanned(run[|run| - 1], more[|more| - 1])
    decreases ScanLeft(run[|run| - 1])
  {
    var s := run[|run| - 1];
    RunInv(run);
    var t := ScanGoesOn(s);
    Extended(run, t);
    ScanShrinks(s, t);
    hide IsRun, Inv, HandlerStep, Scanned, ScanLeft;
    if t.handler == Off {
      more := [t];
      ScannedLast(s, t);
    } else {
      var rest := ScanEnds(run + [t]);
      more := [t] + rest;
      assert run + more == (run + [t]) + rest;
      ScannedStep(s, t, rest[|rest| - 1]);
    }
  }

  // ----- eval -----

  lemma FgListed(s: State, p: nat)
    requires SlotsOk(s) && s.handler == Off
    ensures StillFg(s, p) ==> p in s.kids
  {
    if StillFg(s, p) {
      assert s.table.jobs[Slot(s.table.jobs, p)].pid == p;
    }
    hide Slot;
  }

  /** After a scan that has collected a child's news its job is not in the foreground. */
  lemma CollectedLeaves(s: State, t: State, p: nat)
    requires Inv(t) && Scanned(s, t) && t.pc == Waiting(p) && (p in s.kids ==> HasNews(s.kids[p]))
    ensures !StillFg(t, p)
  {
    FgListed(t, p);
    hide ForegroundOk, NewsOk, HandlerOk, Slot, TableOk, SlotsOk, KidsOk;
  }

  lemma EvalReturns(run: seq<State>, p: nat) returns (more: seq<State>)
    requires IsRun(run) && run[|run| - 1].pc == Waiting(p) && run[|run| - 1].handler == Off
             && !StillFg(run[|run| - 1], p)
    ensures more != [] && IsRun(run + more) && more[|more| - 1] == run[|run| - 1].(pc := Idle)
  {
    var s := run[|run| - 1];
    hide IsRun, StillFg;
    var t, u := s.(pc := Leaving), s.(pc := Idle);
    assert EvalStep(s, t) && EvalStep(t, u);
    Extended(run, t);
    Extended(run + [t], u);
    more := [t, u];
    assert run + more == run + [t] + [u];
  }

  /** With news of a child the handler is running already, or can start. */
  lemma ScanStarts(run: seq<State>, p: nat) returns (r: seq<State>)
    requires IsRun(run) && run[|run| - 1].pc == Suspended(p) && p in run[|run| - 1].kids
             && HasNews(run[|run| - 1].kids[p])
    ensures run <= r && IsRun(r)
    ensures var s := r[|r| - 1]; s.pc == Suspended(p) && s.handler != Off && p in s.kids && HasNews(s.kids[p])
  {
    var s := run[|run| - 1];
    RunInv(run);
    r := run;
    assert s.pending || s.handler != Off;
    hide IsRun, Inv;
    if s.handler == Off {
      var t := s.(pending := false, handler := Scanning);
      assert HandlerStep(s, t);
      Extended(run, t);
      r := run + [t];
    }
  }

  /** News of the job that eval waits for reaches the waiting loop: from every state
      in which eval is suspended and its child has ended or stopped, the handler runs,
      collects the news and finishes, and eval returns to the prompt. */
  lemma NewsReachesEval(run: seq<State>, p: nat) returns (r: seq<State>)
    requires IsRun(run) && run[|run| - 1].pc == Suspended(p)
    requires var s := run[|run| - 1]; p in s.kids && HasNews(s.kids[p])
    ensures run < r && IsRun(r)
    ensures var t := r[|r| - 1];
            t.pc == Idle && t.handler == Off && !StillFg(t, p) && (p in t.kids ==> t.kids[p] == Stopped(false))
  {
    var r1 := ScanStarts(run, p);
    hide IsRun, Scanned, StillFg, HasNews;
    var scan := ScanEnds(r1);
    var r2 := r1 + scan;
    RunInv(r2);
    hide Inv;
    ScannedOf(r1[|r1| - 1], scan[|scan| - 1], p);
    CollectedLeaves(r1[|r1| - 1], scan[|scan| - 1], p);
    var rest := EvalReturns(r2, p);
    r := r2 + rest;
    SamePlace(scan[|scan| - 1], rest[|rest| - 1], p);
  }

  lemma ScannedOf(s: State, u: State, p: nat)
    requires Scanned(s, u) && s.pc == Suspended(p) && p in s.kids && HasNews(s.kids[p])
    ensures u.pc == Waiting(p) && u.handler == Off && (p in u.kids ==> u.kids[p] == Stopped(false))
  {
  }

  lemma SamePlace(s: State, t: State, p: nat)
    requires t == s.(pc := Idle)
    ensures StillFg(t, p) <==> StillFg(s, p)
  {
  }

  // ----- the fg command -----

  /** The shell sleeps for a job that is not, or not running, in the foreground any
      more, and no signal is pending that would wake it. */
  ghost predicate Missed(s: State, p: nat) {
    s.pc == FgSuspended(p) && s.handler == Off && !s.pending && !(StillFg(s, p) && p in s.kids && s.kids[p] == Running)
  }

  predicate BetweenTests(pc: Pc, p: nat) {
    pc == FgGoing(p) || pc == FgSuspended(p)
  }

  /** run[k] is the last state in which fg tests job p, and the test succeeds. */
  ghost predicate SinceTest(run: seq<State>, k: nat, p: nat) {
    && k + 1 < |run| && run[k].pc == FgWaiting(p) && StillFg(run[k], p)
    && forall i | k < i < |run| :: BetweenTests(run[i].pc, p)
  }

  lemma CameFrom(s: State, t: State, p: nat)
    requires Next(s, t) == true && BetweenTests(t.pc, p) == true
    ensures BetweenTests(s.pc, p) || (s.pc == FgWaiting(p) && s.handler == Off && t == s.(pc := FgGoing(p))
              && StillFg(s, p))
  {
    hide StillFg, Slot, Deleted, WithState, Added, Continued;
  }

  /** The last test before run[n]. */
  lemma {:induction false} LastTestBy(run: seq<State>, p: nat, n: nat) returns (k: nat)
    requires IsRun(run) == true && n < |run| && BetweenTests(run[n].pc, p)
             && forall i | n < i < |run| :: BetweenTests(run[i].pc, p)
    ensures SinceTest(run, k, p) && run[k].handler == Off
  {
    StepTo(run, p, n);
    hide IsRun, Next, StillFg, BetweenTests;
    CameFrom(run[n - 1], run[n], p);
    if BetweenTests(run[n - 1].pc, p) {
      k := LastTestBy(run, p, n - 1);
    } else {
      k := n - 1;
    }
  }

  lemma StepTo(run: seq<State>, p: nat, n: nat)
    requires IsRun(run) && n < |run| && BetweenTests(run[n].pc, p)
    ensures n > 0 && Next(run[n - 1], run[n])
  {
    hide Next;
    if n > 0 {
      assert Next(run[n - 1], run[n]);
    }
  }

  predicate HasGot(s: State, p: nat) {
    s.handler.Got? && s.handler.pid == p
  }

  /** Between two tests the job leaves the foreground exactly when the handler gets news of it. */
  lemma LeavesForeground(s: State, t: State, p: nat)
    requires Inv(s) == true && Next(s, t) == true && BetweenTests(t.pc, p) == true && p > 0
    ensures StillFg(t, p) && !HasGot(t, p) <==> StillFg(s, p) && !HasGot(s, p) && !HasGot(t, p)
  {
    CameFrom(s, t, p);
    if HandlerStep(s, t) && s.handler.Got? {
      HandlerActs(s, t, p);
    } else {
      SameTable(s, t, p);
    }
    hide Inv, Next, StillFg;
  }

  lemma SameTable(s: State, t: State, p: nat)
    requires Next(s, t) && BetweenTests(t.pc, p) && !(HandlerStep(s, t) && s.handler.Got?)
    ensures StillFg(t, p) <==> StillFg(s, p)
    ensures HasGot(s, p) ==> HasGot(t, p)
  {
    CameFrom(s, t, p);
    hide StillFg, Slot, Deleted, WithState, Added, Continued;
    assert t.table == s.table;
    SameFg(s, t, p);
  }

  lemma SameFg(s: State, t: State, p: nat)
    requires t.table == s.table
    ensures StillFg(t, p) <==> StillFg(s, p)
  {
  }

  lemma HandlerActs(s: State, t: State, p: nat)
    requires Inv(s) && HandlerStep(s, t) && s.handler.Got? && p > 0
    ensures !HasGot(t, p) && (StillFg(t, p) <==> StillFg(s, p) && s.handler.pid != p)
  {
    var q := s.handler.pid;
    assert q > 0 && TableOk(s);
    hide Inv;
    if s.handler.report == Gone {
      GoneFg(s.table, q, p);
    } else {
      HaltedFg(s.table, q, p);
    }
    hide Slot, Deleted, WithState, TableOk;
  }

  predicate FgIn(t: Table, p: nat) {
    p >= 1 && Slot(t.jobs, p) < |t.jobs| && t.jobs[Slot(t.jobs, p)].state == FG
  }

  lemma GoneFg(t: Table, q: nat, p: nat)
    requires p > 0 && q > 0
             && forall i, j | 0 <= i < j < |t.jobs| :: t.jobs[i].pid != 0 ==> t.jobs[i].pid != t.jobs[j].pid
    ensures FgIn(Deleted(t, q), p) <==> FgIn(t, p) && q != p
  {
    if p != q {
      SlotKept(t, q, p);
    } else if Slot(t.jobs, q) < |t.jobs| {
      SlotIs(Deleted(t, q).jobs, q, |t.jobs|);
    }
  }

  lemma HaltedFg(t: Table, q: nat, p: nat)
    requires p > 0 && Slot(t.jobs, q) < |t.jobs|
    ensures FgIn(WithState(t, Slot(t.jobs, q), ST), p) <==> FgIn(t, p) && q != p
  {
    if p != q {
      SlotKept(t, q, p);
    } else {
      SlotIs(WithState(t, Slot(t.jobs, q), ST).jobs, q, Slot(t.jobs, q));
    }
  }

  /** At run[m], some time after the test. */
  lemma {:induction false} ForegroundSince(run: seq<State>, k: nat, p: nat, m: nat)
    requires IsRun(run) == true && SinceTest(run, k, p) == true && run[k].handler == Off && k < m < |run|
    ensures StillFg(run[m], p) && !HasGot(run[m], p) <==> !CollectedBy(run, k, m, p)
  {
    hide IsRun, SinceTest, Next, Init, StillFg, Inv, BetweenTests;
    SinceFacts(run, k, p, m);
    LeavesForeground(run[m - 1], run[m], p);
    if k + 1 < m {
      ForegroundSince(run, k, p, m - 1);
    }
  }

  lemma SinceFacts(run: seq<State>, k: nat, p: nat, m: nat)
    requires IsRun(run) && SinceTest(run, k, p) && k < m < |run|
    ensures Inv(run[m - 1]) && Next(run[m - 1], run[m]) && BetweenTests(run[m].pc, p) && StillFg(run[k], p) && p > 0
  {
    hide Next, Init, Inv, BetweenTests;
    FgPositive(run[k], p);
    InvAt(run, m - 1);
    assert Next(run[m - 1], run[m]);
    hide StillFg;
  }

  /** Between run[k] and run[m] the handler has collected news of job p. */
  ghost predicate CollectedBy(run: seq<State>, k: nat, m: nat, p: nat)
    requires m < |run|
  {
    exists i | k < i <= m :: HasGot(run[i], p)
  }

  lemma InvAt(run: seq<State>, i: nat)
    requires IsRun(run) && i < |run|
    ensures Inv(run[i])
  {
    var r := run[..i + 1];
    assert IsRun(r) by { hide Next, Init; }
    RunInv(r);
    hide Next, Init, Inv;
  }

  lemma FgPositive(s: State, p: nat)
    requires StillFg(s, p)
    ensures p > 0
  {
  }

  /** When fg misses a wakeup.  At its last test, run[k], the job was in the foreground;
      it sleeps on in vain exactly if the handler has collected news of the job since
      and no other signal is pending. */
  lemma FgMissesIff(run: seq<State>, p: nat) returns (k: nat)
    requires IsRun(run) && run[|run| - 1].pc == FgSuspended(p) && run[|run| - 1].handler == Off
    ensures SinceTest(run, k, p)
    ensures Missed(run[|run| - 1], p) <==> CollectedBy(run, k, |run| - 1, p) && !run[|run| - 1].pending
  {
    k := LastTestBy(run, p, |run| - 1);
    ForegroundSince(run, k, p, |run| - 1);
    RunInv(run);
    var s := run[|run| - 1];
    hide IsRun, SinceTest, CollectedBy;
    FgListed(s, p);
    hide ForegroundOk, TableOk, HandlerOk, Slot, SlotsOk;
  }

  function FirstJob(state: JobState): Table {
    Table(seq(MAXJOBS, _ => NoJob)[0 := Job(1, 1, state)], 2)
  }

  /** A background job 1, and the main line at pc. */
  function OneChild(state: JobState, pc: Pc): State {
    State(FirstJob(state), map[1 := Running], false, Off, pc)
  }

  lemma FirstBackgroundJob() returns (run: seq<State>)
    ensures IsRun(run) && run[|run| - 1] == OneChild(BG, Idle)
  {
    var s0 := State(Table(seq(MAXJOBS, _ => NoJob), 1), map[], false, Off, Idle);
    run := [s0];
    SlotIs(s0.table.jobs, 0, 0);
    var s1 := s0.(pc := Blocked(true));
    Extended(run, s1);
    run := run + [s1];
    var s2 := s1.(kids := map[1 := Running], pc := Forked(1, true));
    assert s1.kids[1 := Running] == s2.kids && EvalStep(s1, s2);
    Extended(run, s2);
    run := run + [s2];
    var s3 := s2.(pc := Masked(1, true));
    Extended(run, s3);
    run := run + [s3];
    var s4 := OneChild(BG, Leaving);
    assert Added(s3.table, 1, BG) == s4.table;
    Extended(run, s4);
    run := run + [s4];
    var s5 := OneChild(BG, Idle);
    Extended(run, s5);
    run := run + [s5];
  }

  lemma BroughtToForeground() returns (run: seq<State>)
    ensures IsRun(run) && run[|run| - 1] == OneChild(FG, FgGoing(1))
  {
    run := FirstBackgroundJob();
    var s1 := OneChild(BG, Picked(0, true));
    assert Occupied(OneChild(BG, Idle), 0) && BuiltinStep(OneChild(BG, Idle), s1);
    Extended(run, s1);
    run := run + [s1];
    var s2 := OneChild(BG, Ready(0, true));
    assert BuiltinStep(s1, s2);
    Extended(run, s2);
    run := run + [s2];
    var s3 := OneChild(FG, Marked(0, true));
    assert WithState(s2.table, 0, FG) == s3.table;
    Extended(run, s3);
    run := run + [s3];
    var s4 := OneChild(FG, FgWaiting(1));
    assert Continued(s3.kids, s3.kids, 1) && s4 == s3.(kids := s3.kids, pc := FgWaiting(s3.table.jobs[0].pid));
    assert BuiltinStep(s3, s4);
    Extended(run, s4);
    run := run + [s4];
    SlotIs(s4.table.jobs, 1, 0);
    var s5 := OneChild(FG, FgGoing(1));
    assert StillFg(s4, 1);
    Extended(run, s5);
    run := run + [s5];
  }

  /** The shell has tested, and its only job has ended and been deleted since. */
  function JobGone(pc: Pc): State {
    State(Deleted(OneChild(FG, FgGoing(1)).table, 1), map[], false, Off, pc)
  }

  lemma EndsBetween() returns (run: seq<State>)
    ensures IsRun(run) && run[|run| - 1] == JobGone(FgGoing(1))
  {
    run := BroughtToForeground();
    hide IsRun;
    var s0 := OneChild(FG, FgGoing(1));
    var s1 := s0.(kids := map[1 := Zombie], pending := true);
    assert Exits(s0, s1, 1) by { assert s0.kids[1 := Zombie] == s1.kids; }
    assert KernelStep(s0, s1);
    Extended(run, s1);
    run := run + [s1];
    var s2 := s1.(pending := false, handler := Scanning);
    Extended(run, s2);
    run := run + [s2];
    var s3 := s2.(kids := map[], handler := Got(1, Gone));
    assert 1 in s2.kids && s2.kids[1] == Zombie && s2.kids - {1} == map[];
    assert HandlerStep(s2, s3);
    Extended(run, s3);
    run := run + [s3];
    SlotIs(s3.table.jobs, 1, 0);
    var s4 := s3.(table := Deleted(s3.table, 1), handler := Scanning);
    Extended(run, s4);
    run := run + [s4];
    var s5 := s4.(handler := Off);
    assert HandlerStep(s4, s5);
    Extended(run, s5);
    run := run + [s5];
  }

  /** The case occurs: the handler collects the job's end between fg's test and its
      sigsuspend, and the shell sleeps with no child left that could wake it. */
  lemma FgMissesWakeup() returns (run: seq<State>)
    ensures IsRun(run) && Missed(run[|run| - 1], 1) && run[|run| - 1].kids == map[]
  {
    run := EndsBetween();
    var s := JobGone(FgSuspended(1));
    assert BuiltinStep(JobGone(FgGoing(1)), s);
    Extended(run, s);
    run := run + [s];
  }

  // ----- ctrl-C and ctrl-Z during the fg command -----

  /** A free slot in front of slot k carries the foreground mark: fg put it on a slot
      that the handler had just cleared. */
  predicate MarkedFreeSlot(jobs: seq<Job>, k: nat)
    requires k <= |jobs|
  {
    exists i | 0 <= i < k :: jobs[i].pid == 0 && jobs[i].state == FG
  }

  /** While fg waits for a job in the foreground, ctrl-C and ctrl-Z reach it exactly if
      no free slot in front of it is marked. */
  lemma FgSignalsIff(run: seq<State>, p: nat)
    requires IsRun(run) && (run[|run| - 1].pc == FgWaiting(p) || BetweenTests(run[|run| - 1].pc, p))
             && StillFg(run[|run| - 1], p)
    ensures var jobs := run[|run| - 1].table.jobs;
            FgPid(jobs) == p <==> !MarkedFreeSlot(jobs, Slot(jobs, p))
  {
    RunInv(run);
    var s := run[|run| - 1];
    var k := Slot(s.table.jobs, p);
    hide IsRun;
    forall i: nat | i < |s.table.jobs| && s.table.jobs[i].pid != 0 && s.table.jobs[i].state == FG
           ensures s.table.jobs[i].pid == p {
      assert MayBeFg(s, i);
    }
    hide Inv, MayBeFg;
    FirstMarked(s.table.jobs, p, k);
  }

  lemma FirstMarked(jobs: seq<Job>, p: nat, k: nat)
    requires p > 0 && k < |jobs| && jobs[k].pid == p && jobs[k].state == FG
    requires forall i | 0 <= i < k :: jobs[i].pid != 0 ==> jobs[i].state != FG
    ensures FgPid(jobs) == p <==> !MarkedFreeSlot(jobs, k)
  {
    var f := FgSlot(jobs);
    assert f <= k;
  }

  /** Jobs 1 and 2 in the first two slots. */
  function TwoJobs(a: Job, b: Job, next: nat): Table {
    Table(seq(MAXJOBS, _ => NoJob)[0 := a][1 := b], next)
  }

  lemma TwoBackgroundJobs() returns (run: seq<State>)
    ensures IsRun(run) && run[|run| - 1] == State(TwoJobs(Job(1, 1, BG), Job(2, 2, BG), 3),
              map[1 := Running, 2 := Running], false, Off, Idle)
  {
    run := FirstBackgroundJob();
    hide IsRun;
    var s0 := OneChild(BG, Idle);
    var s1 := s0.(pc := Blocked(true));
    Extended(run, s1);
    run := run + [s1];
    SlotIs(s0.table.jobs, 0, 1);
    var s2 := s1.(kids := map[1 := Running, 2 := Running], pc := Forked(2, true));
    assert s1.kids[2 := Running] == s2.kids && EvalStep(s1, s2);
    Extended(run, s2);
    run := run + [s2];
    var s3 := s2.(pc := Masked(2, true));
    Extended(run, s3);
    run := run + [s3];
    var s4 := s3.(table := Added(s3.table, 2, BG), pc := Leaving);
    Extended(run, s4);
    run := run + [s4];
    var s5 := s4.(pc := Idle);
    Extended(run, s5);
    run := run + [s5];
    assert s5.table.jobs == TwoJobs(Job(1, 1, BG), Job(2, 2, BG), 3).jobs;
  }

  lemma PicksFirst() returns (run: seq<State>)
    ensures IsRun(run) && run[|run| - 1] == State(TwoJobs(Job(1, 1, BG), Job(2, 2, BG), 3),
              map[1 := Running, 2 := Running], false, Off, Ready(0, true))
  {
    run := TwoBackgroundJobs();
    var s0 := run[|run| - 1];
    hide IsRun;
    var s1 := s0.(pc := Picked(0, true));
    assert Occupied(s0, 0) && BuiltinStep(s0, s1);
    Extended(run, s1);
    run := run + [s1];
    var s2 := s1.(pc := Ready(0, true));
    assert BuiltinStep(s1, s2);
    Extended(run, s2);
    run := run + [s2];
  }

  lemma PickedJobExits() returns (run: seq<State>)
    ensures IsRun(run)
    ensures run[|run| - 1] == State(TwoJobs(Job(1, 1, BG), Job(2, 2, BG), 3), map[2 := Running], false, Got(1, Gone),
              Ready(0, true))
  {
    run := PicksFirst();
    var s2 := run[|run| - 1];
    hide IsRun, MaxJid;
    var s3 := s2.(kids := map[1 := Zombie, 2 := Running], pending := true);
    assert Exits(s2, s3, 1) by { assert s2.kids[1 := Zombie] == s3.kids; }
    assert KernelStep(s2, s3);
    Extended(run, s3);
    run := run + [s3];
    var s4 := s3.(pending := false, handler := Scanning);
    Extended(run, s4);
    run := run + [s4];
    var s5 := s4.(kids := map[2 := Running], handler := Got(1, Gone));
    assert 1 in s4.kids && s4.kids[1] == Zombie && s4.kids - {1} == s5.kids;
    assert HandlerStep(s4, s5);
    Extended(run, s5);
    run := run + [s5];
  }

  /** After fg has picked job 1, the job ends and is deleted. */
  lemma PickedJobEnds() returns (run: seq<State>)
    ensures IsRun(run) && run[|run| - 1].kids == map[2 := Running] && !run[|run| - 1].pending
            && run[|run| - 1].handler == Off
    ensures run[|run| - 1].pc == Ready(0, true) && run[|run| - 1].table.jobs == TwoJobs(NoJob, Job(2, 2, BG), 3).jobs
  {
    run := PickedJobExits();
    var s5 := run[|run| - 1];
    hide IsRun, MaxJid;
    SlotIs(s5.table.jobs, 1, 0);
    var s6 := s5.(table := Deleted(s5.table, 1), handler := Scanning);
    assert HandlerStep(s5, s6);
    Extended(run, s6);
    run := run + [s6];
    var s7 := s6.(handler := Off);
    assert HandlerStep(s6, s7);
    Extended(run, s7);
    run := run + [s7];
    assert s7.table.jobs == TwoJobs(NoJob, Job(2, 2, BG), 3).jobs;
  }

  /** fg marks the slot it has picked, although it is free now, and returns. */
  lemma MarksFreeSlot() returns (run: seq<State>)
    ensures IsRun(run) && run[|run| - 1].kids == map[2 := Running] && run[|run| - 1].handler == Off
            && run[|run| - 1].pc == Idle
    ensures run[|run| - 1].table.jobs == TwoJobs(NoJob.(state := FG), Job(2, 2, BG), 3).jobs
  {
    run := PickedJobEnds();
    var s0 := run[|run| - 1];
    hide IsRun;
    var s1 := s0.(table := WithState(s0.table, 0, FG), pc := Marked(0, true));
    Extended(run, s1);
    run := run + [s1];
    var s2 := s1.(pc := FgWaiting(0));
    assert Continued(s1.kids, s1.kids, 0) && s2 == s1.(kids := s1.kids, pc := FgWaiting(s1.table.jobs[0].pid));
    assert BuiltinStep(s1, s2);
    Extended(run, s2);
    run := run + [s2];
    var s3 := s2.(pc := Idle);
    assert BuiltinStep(s2, s3);
    Extended(run, s3);
    run := run + [s3];
    assert s3.table.jobs == TwoJobs(NoJob.(state := FG), Job(2, 2, BG), 3).jobs;
  }

  /** The case occurs: fg then brings job 2 forward, and ctrl-C does not find it. */
  lemma FgSignalsLost() returns (run: seq<State>)
    ensures IsRun(run) && run[|run| - 1].pc == FgWaiting(2) && StillFg(run[|run| - 1], 2)
            && FgPid(run[|run| - 1].table.jobs) == 0
  {
    run := MarksFreeSlot();
    var s0 := run[|run| - 1];
    hide IsRun;
    var s1 := s0.(pc := Picked(1, true));
    assert Occupied(s0, 1) && BuiltinStep(s0, s1);
    Extended(run, s1);
    run := run + [s1];
    var s2 := s1.(pc := Ready(1, true));
    assert BuiltinStep(s1, s2);
    Extended(run, s2);
    run := run + [s2];
    var s3 := s2.(table := WithState(s2.table, 1, FG), pc := Marked(1, true));
    Extended(run, s3);
    run := run + [s3];
    var s4 := s3.(pc := FgWaiting(2));
    assert Continued(s3.kids, s3.kids, 2) && s4 == s3.(kids := s3.kids, pc := FgWaiting(s3.table.jobs[1].pid));
    assert BuiltinStep(s3, s4);
    Extended(run, s4);
    run := run + [s4];
    SlotIs(s4.table.jobs, 2, 1);
    FgSlotIs(s4.table.jobs, 0);
  }
}
