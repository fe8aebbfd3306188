/** The shell's signal protocol: the main line, the SIGCHLD handler and the kernel
    as a state machine whose steps interleave at statement granularity. */
module ShellProtocol {
  import opened ShellJobs

  /** A forked child that has not been reaped; news says whether waitpid would
      report it. */
  datatype Child = Running | Stopped(news: bool) | Zombie

  predicate HasNews(c: Child) {
    c == Zombie || c == Stopped(true)
  }

  datatype Report = Gone | Halted

  /** What the SIGCHLD handler is about to do: nothing, the next waitpid, or the
      table update for a report it has just received. */
  datatype Handler = Off | Scanning | Got(pid: nat, report: Report)

  /** Where the main line is: in eval from blocking SIGCHLD to restoring the mask,
      or in the fg and bg commands, which block nothing. */
  datatype Pc =
    | Idle
    | Blocked(bg: bool)
    | Forked(pid: nat, bg: bool)
    | Masked(pid: nat, bg: bool)
    | Waiting(pid: nat)
    | Suspended(pid: nat)
    | Leaving
    | Picked(slot: nat, toFg: bool)
    | Ready(slot: nat, toFg: bool)
    | Marked(slot: nat, toFg: bool)
    | FgWaiting(pid: nat)
    | FgGoing(pid: nat)
    | FgSuspended(pid: nat)

  datatype State = State(table: Table, kids: map<nat, Child>, pending: bool, handler: Handler, pc: Pc)

  predicate Occupied(s: State, i: nat) {
    i < |s.table.jobs| && s.table.jobs[i].pid != 0
  }

  /** SIGCHLD can be delivered. */
  predicate Open(pc: Pc) {
    pc.Idle? || pc.Suspended? || pc.Picked? || pc.Ready? || pc.Marked? || pc.FgWaiting? || pc.FgGoing?
        || pc.FgSuspended?
  }

  function WithState(t: Table, i: nat, state: JobState): Table
    requires i < |t.jobs|
  {
    t.(jobs := t.jobs[i := t.jobs[i].(state := state)])
  }

  ghost predicate Init(s: State) {
    s == State(Table(seq(MAXJOBS, _ => NoJob), 1), map[], false, Off, Idle)
  }

  // ----- steps of eval -----

  ghost predicate EvalStep(s: State, t: State) {
    s.handler == Off &&
    match s.pc
    case Idle =>
      exists bg :: t == s.(pc := Blocked(bg))
    case Blocked(bg) =>
      // fork succeeds and the table has a free slot
      exists pid: nat | pid > 0 :: pid !in s.kids && Slot(s.table.jobs, 0) < |s.table.jobs|
             && t == s.(kids := s.kids[pid := Running], pc := Forked(pid, bg))
    case Forked(pid, bg) =>
      t == s.(pc := Masked(pid, bg))
    case Masked(pid, bg) =>
      t == s.(table := Added(s.table, pid, if bg then BG else FG), pc := if bg then Leaving else Waiting(pid))
    case Waiting(pid) =>
      t == s.(pc := if StillFg(s, pid) then Suspended(pid) else Leaving)
    case Suspended(pid) =>
      // a signal other than SIGCHLD
      t == s.(pc := Waiting(pid))
    case Leaving =>
      t == s.(pc := Idle)
    case _ => false
  }

  predicate StillFg(s: State, pid: nat) {
    pid >= 1 && Slot(s.table.jobs, pid) < |s.table.jobs| && s.table.jobs[Slot(s.table.jobs, pid)].state == FG
  }

  // ----- steps of the fg and bg commands -----

  ghost predicate BuiltinStep(s: State, t: State) {
    s.handler == Off &&
    match s.pc
    case Idle =>
      exists i: nat, toFg :: Occupied(s, i) && t == s.(pc := Picked(i, toFg))
    case Picked(i, toFg) =>
      i < |s.table.jobs| &&
      if s.table.jobs[i].state == ST || (toFg && s.table.jobs[i].state == BG) then t == s.(pc := Ready(i, toFg))
         else t == s.(pc := Idle)
    case Ready(i, toFg) =>
      i < |s.table.jobs| && t == s.(table := WithState(s.table, i, if toFg then FG else BG), pc := Marked(i, toFg))
    case Marked(i, toFg) =>
      // SIGCONT: the child runs again; others may, if the slot has been cleared meanwhile
      i < |s.table.jobs| &&
      exists kids: map<nat, Child> :: Continued(s.kids, kids, s.table.jobs[i].pid)
             && t == s.(kids := kids, pc := if toFg then FgWaiting(s.table.jobs[i].pid) else Idle)
    case FgWaiting(pid) =>
      t == s.(pc := if StillFg(s, pid) then FgGoing(pid) else Idle)
    case FgGoing(pid) =>
      t == s.(pc := FgSuspended(pid))
    case FgSuspended(pid) =>
      t == s.(pc := FgWaiting(pid))
    case _ => false
  }

  /** Some stopped children run again, child p in any case. */
  ghost predicate Continued(kids: map<nat, Child>, kids': map<nat, Child>, p: nat) {
    && kids'.Keys == kids.Keys && (forall q | q in kids ::
         kids'[q] == kids[q] || (kids[q].Stopped? && kids'[q] == Running))
    && (p in kids ==> !kids'[p].Stopped?)
  }

  // ----- steps of the SIGCHLD handler -----

  ghost predicate HandlerStep(s: State, t: State) {
    match s.handler
    case Off =>
      s.pending && Open(s.pc) && t == s.(pending := false, handler := Scanning)
    case Scanning =>
      (exists p | p in s.kids :: HasNews(s.kids[p]) &&
         t == if s.kids[p] == Zombie then s.(kids := s.kids - {p}, handler := Got(p, Gone))
              else s.(kids := s.kids[p := Stopped(false)], handler := Got(p, Halted)))
      || ((forall p | p in s.kids :: !HasNews(s.kids[p])) &&
         t == s.(handler := Off, pc := match s.pc
                                            case Suspended(p) => Waiting(p)
                                            case FgSuspended(p) => FgWaiting(p)
                                            case _ => s.pc))
    case Got(p, Gone) =>
      t == s.(table := Deleted(s.table, p), handler := Scanning)
    case Got(p, Halted) =>
      Slot(s.table.jobs, p) < |s.table.jobs| && t == s.(table := WithState(s.table, Slot(s.table.jobs, p), ST),
            handler := Scanning)
  }

  // ----- steps of the kernel -----

  ghost predicate KernelStep(s: State, t: State) {
    exists p | p in s.kids :: Exits(s, t, p) || Stops(s, t, p) || Continues(s, t, p)
  }

  predicate Exits(s: State, t: State, p: nat)
    requires p in s.kids
  {
    s.kids[p] != Zombie && t == s.(kids := s.kids[p := Zombie], pending := true)
  }

  predicate Stops(s: State, t: State, p: nat)
    requires p in s.kids
  {
    s.kids[p] == Running && t == s.(kids := s.kids[p := Stopped(true)], pending := true)
  }

  predicate Continues(s: State, t: State, p: nat)
    requires p in s.kids
  {
    s.kids[p].Stopped? && (t == s.(kids := s.kids[p := Running])
          || t == s.(kids := s.kids[p := Running], pending := true))
  }

  ghost predicate Next(s: State, t: State) {
    EvalStep(s, t) || BuiltinStep(s, t) || HandlerStep(s, t) || KernelStep(s, t)
  }

  ghost predicate IsRun(run: seq<State>) {
    run != [] && Init(run[0]) && forall i | 0 <= i < |run| - 1 :: Next(run[i], run[i + 1])
  }

  // ----- the invariant -----

  ghost predicate TableOk(s: State) {
    && |s.table.jobs| == MAXJOBS
    && forall i, j | 0 <= i < j < MAXJOBS :: s.table.jobs[i].pid != 0 ==> s.table.jobs[i].pid != s.table.jobs[j].pid
  }

  /** Every occupied slot is for an unreaped child, but for the one the handler is deleting. */
  ghost predicate SlotsOk(s: State) {
    forall i | 0 <= i < |s.table.jobs| :: s.table.jobs[i].pid != 0
           ==> s.table.jobs[i].pid in s.kids || s.handler == Got(s.table.jobs[i].pid, Gone)
  }

  ghost predicate Listed(s: State, p: nat) {
    ListedIn(s.table.jobs, p)
  }

  ghost predicate ListedIn(jobs: seq<Job>, p: nat) {
    exists i | 0 <= i < |jobs| :: jobs[i].pid == p
  }

  lemma AddedLists(t: Table, pid: nat, state: JobState, q: nat)
    requires pid > 0 && Slot(t.jobs, 0) < |t.jobs| && q != 0
    ensures ListedIn(Added(t, pid, state).jobs, q) <==> q == pid || ListedIn(t.jobs, q)
  {
    var i, jobs := Slot(t.jobs, 0), Added(t, pid, state).jobs;
    assert jobs[i].pid == pid;
    if ListedIn(t.jobs, q) {
      var j :| 0 <= j < |t.jobs| && t.jobs[j].pid == q;
      assert jobs[j].pid == q;
    }
  }

  lemma DeletedLists(t: Table, pid: nat, q: nat)
    requires q != 0 && q != pid
    ensures ListedIn(Deleted(t, pid).jobs, q) <==> ListedIn(t.jobs, q)
  {
    if ListedIn(t.jobs, q) {
      var j :| 0 <= j < |t.jobs| && t.jobs[j].pid == q;
      assert Deleted(t, pid).jobs[j].pid == q;
    }
  }

  lemma StateLists(t: Table, i: nat, state: JobState, q: nat)
    requires i < |t.jobs|
    ensures ListedIn(WithState(t, i, state).jobs, q) <==> ListedIn(t.jobs, q)
  {
    if ListedIn(t.jobs, q) {
      var j :| 0 <= j < |t.jobs| && t.jobs[j].pid == q;
      assert WithState(t, i, state).jobs[j].pid == q;
    }
  }

  /** Every unreaped child has a slot, but for the one eval has just forked. */
  ghost predicate KidsOk(s: State) {
    && 0 !in s.kids
    && (forall p | p in s.kids :: if s.pc == Forked(p, true) || s.pc == Forked(p, false) || s.pc == Masked(p, true)
         || s.pc == Masked(p, false) then !Listed(s, p) else Listed(s, p))
    && (match s.pc case Forked(p, _) => p in s.kids && s.kids[p] != Stopped(false) case Masked(p, _) => p in s.kids
         && s.kids[p] != Stopped(false) case _ => true)
    && ((s.pc.Forked? || s.pc.Masked?) ==> Slot(s.table.jobs, 0) < |s.table.jobs|)
  }

  /** News of a child is announced by a pending signal or about to be collected. */
  ghost predicate NewsOk(s: State) {
    (exists p | p in s.kids :: HasNews(s.kids[p])) ==> s.pending || s.handler != Off
  }

  ghost predicate HandlerOk(s: State) {
    && (s.handler != Off ==> Open(s.pc))
    && (match s.handler
        case Got(p, Gone) => p !in s.kids && p != 0 && Listed(s, p)
        case Got(p, Halted) => p in s.kids
        case _ => true)
  }

  /** The slots that may be in the foreground, by where the main line is. */
  ghost predicate MayBeFg(s: State, i: nat)
    requires i < |s.table.jobs|
  {
    match s.pc
    case Waiting(p) => s.table.jobs[i].pid == p
    case Suspended(p) => s.table.jobs[i].pid == p
    case Marked(k, toFg) => toFg && i == k
    case FgWaiting(p) => s.table.jobs[i].pid == p
    case FgGoing(p) => s.table.jobs[i].pid == p
    case FgSuspended(p) => s.table.jobs[i].pid == p
    case _ => false
  }

  ghost predicate ForegroundOk(s: State) {
    && (forall i | 0 <= i < |s.table.jobs| :: s.table.jobs[i].pid != 0 && s.table.jobs[i].state == FG ==> MayBeFg(s, i))
    && ((s.pc.Picked? || s.pc.Ready? || s.pc.Marked?) ==> s.pc.slot < |s.table.jobs|)
  }

  /** In eval's wait: no earlier slot claims the foreground, a reported stop shows in
      the table, and the shell sleeps only while its job is in the foreground. */
  ghost predicate WaitOk(s: State) {
    match s.pc
    case Waiting(p) => EvalWait(s, p)
    case Suspended(p) => EvalWait(s, p) && (s.handler == Off ==> StillFg(s, p))
    case FgWaiting(p) => StopShown(s, p)
    case FgGoing(p) => StopShown(s, p)
    case FgSuspended(p) => StopShown(s, p)
    case _ => true
  }

  /** A reported stop of job p shows in the table as soon as the handler has put it there. */
  ghost predicate StopShown(s: State, p: nat) {
    p in s.kids && s.kids[p] == Stopped(false) && s.handler != Got(p, Halted) ==> !StillFg(s, p)
  }

  ghost predicate EvalWait(s: State, p: nat) {
    && p > 0
    && (StillFg(s, p) ==> forall i | 0 <= i < Slot(s.table.jobs, p) :: s.table.jobs[i].state != FG)
    && StopShown(s, p)
  }

  ghost predicate Inv(s: State) {
    TableOk(s) && SlotsOk(s) && KidsOk(s) && NewsOk(s) && HandlerOk(s) && ForegroundOk(s) && WaitOk(s)
  }

  lemma InitInv(s: State)
    requires Init(s)
    ensures Inv(s)
  {
  }

  lemma KernelKeepsTable(s: State, t: State)
    requires TableOk(s) && SlotsOk(s) && KidsOk(s) && HandlerOk(s) && KernelStep(s, t)
    ensures TableOk(t) && SlotsOk(t)
  {
  }

  lemma KernelKeepsKids(s: State, t: State)
    requires TableOk(s) && SlotsOk(s) && KidsOk(s) && HandlerOk(s) && KernelStep(s, t)
    ensures KidsOk(t) && HandlerOk(t)
  {
  }

  lemma KernelKeepsNews(s: State, t: State)
    requires KidsOk(s) && NewsOk(s) && HandlerOk(s) && KernelStep(s, t)
    ensures NewsOk(t)
  {
  }

  lemma KernelKeepsForeground(s: State, t: State)
    requires TableOk(s) && SlotsOk(s) && KidsOk(s) && HandlerOk(s) && ForegroundOk(s) && KernelStep(s, t)
    ensures ForegroundOk(t)
  {
  }

  lemma KernelKeepsWait(s: State, t: State)
    requires WaitOk(s) && KernelStep(s, t)
    ensures WaitOk(t)
  {
    hide Slot;
  }

  lemma EvalKeepsTable(s: State, t: State)
    requires TableOk(s) && SlotsOk(s) && KidsOk(s) && HandlerOk(s) && EvalStep(s, t)
    ensures TableOk(t) && SlotsOk(t)
  {
  }

  lemma EvalKeepsKids(s: State, t: State)
    requires TableOk(s) && SlotsOk(s) && KidsOk(s) && HandlerOk(s) && EvalStep(s, t)
    ensures KidsOk(t) && HandlerOk(t)
  {
    if s.pc.Masked? {
      forall p | p in s.kids ensures Listed(t, p) <==> p == s.pc.pid || Listed(s, p) {
        AddedLists(s.table, s.pc.pid, if s.pc.bg then BG else FG, p);
      }
    }
    hide ListedIn, Added, Deleted, WithState;
  }

  lemma EvalKeepsNews(s: State, t: State)
    requires KidsOk(s) && NewsOk(s) && HandlerOk(s) && EvalStep(s, t)
    ensures NewsOk(t)
  {
  }

  lemma EvalKeepsForeground(s: State, t: State)
    requires TableOk(s) && SlotsOk(s) && KidsOk(s) && HandlerOk(s) && ForegroundOk(s) && EvalStep(s, t)
    ensures ForegroundOk(t)
  {
  }

  lemma EvalKeepsWait(s: State, t: State)
    requires TableOk(s) && SlotsOk(s) && KidsOk(s) && HandlerOk(s) && ForegroundOk(s) && WaitOk(s) && EvalStep(s, t)
    ensures WaitOk(t)
  {
  }

  lemma BuiltinKeepsTable(s: State, t: State)
    requires TableOk(s) && SlotsOk(s) && KidsOk(s) && HandlerOk(s) && BuiltinStep(s, t)
    ensures TableOk(t) && SlotsOk(t)
  {
  }

  lemma BuiltinKeepsKids(s: State, t: State)
    requires TableOk(s) && SlotsOk(s) && KidsOk(s) && HandlerOk(s) && BuiltinStep(s, t)
    ensures KidsOk(t) && HandlerOk(t)
  {
    hide ListedIn, WithState, StillFg, TableOk, SlotsOk;
    if s.pc.Ready? {
      forall p ensures Listed(t, p) <==> Listed(s, p) {
        StateLists(s.table, s.pc.slot, if s.pc.toFg then FG else BG, p);
      }
    } else {
      assert t.table == s.table;
    }
  }

  lemma BuiltinKeepsNews(s: State, t: State)
    requires KidsOk(s) && NewsOk(s) && HandlerOk(s) && BuiltinStep(s, t)
    ensures NewsOk(t)
  {
  }

  lemma BuiltinKeepsForeground(s: State, t: State)
    requires TableOk(s) && SlotsOk(s) && KidsOk(s) && HandlerOk(s) && ForegroundOk(s) && BuiltinStep(s, t)
    ensures ForegroundOk(t)
  {
  }

  lemma BuiltinKeepsWait(s: State, t: State)
    requires TableOk(s) && SlotsOk(s) && KidsOk(s) && HandlerOk(s) && ForegroundOk(s) && WaitOk(s) && BuiltinStep(s, t)
    ensures WaitOk(t)
  {
  }

  lemma HandlerKeepsTable(s: State, t: State)
    requires TableOk(s) && SlotsOk(s) && KidsOk(s) && HandlerOk(s) && HandlerStep(s, t)
    ensures TableOk(t) && SlotsOk(t)
  {
  }

  lemma HandlerKeepsKids(s: State, t: State)
    requires TableOk(s) && SlotsOk(s) && KidsOk(s) && HandlerOk(s) && HandlerStep(s, t)
    ensures KidsOk(t) && HandlerOk(t)
  {
    hide ListedIn, WithState, Deleted, Slot;
    match s.handler {
      case Got(q, Gone) =>
        forall p | p in s.kids ensures Listed(t, p) <==> Listed(s, p) {
          DeletedLists(s.table, q, p);
        }
      case Got(q, Halted) =>
        forall p | p in s.kids ensures Listed(t, p) <==> Listed(s, p) {
          StateLists(s.table, Slot(s.table.jobs, q), ST, p);
        }
      case _ =>
        assert t.table == s.table;
    }
    hide TableOk, SlotsOk;
  }

  lemma HandlerKeepsNews(s: State, t: State)
    requires KidsOk(s) && NewsOk(s) && HandlerOk(s) && HandlerStep(s, t)
    ensures NewsOk(t)
  {
  }

  lemma HandlerKeepsForeground(s: State, t: State)
    requires TableOk(s) && SlotsOk(s) && KidsOk(s) && HandlerOk(s) && ForegroundOk(s) && HandlerStep(s, t)
    ensures ForegroundOk(t)
  {
  }

  /** Deleting or halting another job leaves a job's slot where it is. */
  lemma SlotKept(t: Table, q: nat, p: nat)
    requires p != 0 && p != q
    ensures Slot(Deleted(t, q).jobs, p) == Slot(t.jobs, p)
    ensures Slot(t.jobs, q) < |t.jobs| ==> Slot(WithState(t, Slot(t.jobs, q), ST).jobs, p) == Slot(t.jobs, p)
  {
    var i, k := Slot(t.jobs, p), Slot(t.jobs, q);
    SlotIs(Deleted(t, q).jobs, p, i);
    if k < |t.jobs| {
      SlotIs(WithState(t, k, ST).jobs, p, i);
    }
  }

  lemma GoneStop(s: State, t: State, q: nat, p: nat)
    requires StopShown(s, p) && s.handler == Got(q, Gone) && q > 0 && q !in s.kids
             && t == s.(table := Deleted(s.table, q), handler := Scanning)
    ensures StopShown(t, p)
  {
    if p != q && p != 0 {
      SlotKept(s.table, q, p);
    }
  }

  lemma HaltedStop(s: State, t: State, q: nat, p: nat)
    requires StopShown(s, p) && s.handler == Got(q, Halted) && Slot(s.table.jobs, q) < |s.table.jobs|
    requires t == s.(table := WithState(s.table, Slot(s.table.jobs, q), ST), handler := Scanning)
    ensures StopShown(t, p)
  {
    if p == q {
      SlotIs(t.table.jobs, q, Slot(s.table.jobs, q));
    } else if p != 0 {
      SlotKept(s.table, q, p);
    }
  }

  lemma GoneWait(s: State, t: State, q: nat, p: nat)
    requires TableOk(s) && EvalWait(s, p) && s.handler == Got(q, Gone) && q > 0 && q !in s.kids
             && t == s.(table := Deleted(s.table, q), handler := Scanning)
    ensures EvalWait(t, p)
  {
    if p != q {
      SlotKept(s.table, q, p);
    } else if Slot(s.table.jobs, q) < |s.table.jobs| {
      SlotIs(t.table.jobs, q, |s.table.jobs|);
    }
  }

  lemma HaltedWait(s: State, t: State, q: nat, p: nat)
    requires TableOk(s) && EvalWait(s, p) && s.handler == Got(q, Halted) && Slot(s.table.jobs, q) < |s.table.jobs|
    requires t == s.(table := WithState(s.table, Slot(s.table.jobs, q), ST), handler := Scanning)
    ensures EvalWait(t, p)
  {
    if p != q {
      SlotKept(s.table, q, p);
    } else {
      SlotIs(t.table.jobs, q, Slot(s.table.jobs, q));
    }
  }

  lemma HandlerKeepsWait(s: State, t: State)
    requires TableOk(s) && HandlerOk(s) && WaitOk(s) && HandlerStep(s, t)
    ensures WaitOk(t)
  {
    if s.pc.Suspended? {
      match s.handler {
        case Got(q, Gone) => GoneWait(s, t, q, s.pc.pid);
        case Got(q, Halted) => HaltedWait(s, t, q, s.pc.pid);
        case _ =>
      }
    } else if s.pc.FgWaiting? || s.pc.FgGoing? || s.pc.FgSuspended? {
      HandlerKeepsStop(s, t, s.pc.pid);
      hide EvalWait, StopShown, HandlerOk;
    }
    hide StillFg, Slot, Deleted, WithState, TableOk;
  }

  lemma HandlerKeepsStop(s: State, t: State, p: nat)
    requires HandlerOk(s) && StopShown(s, p) && HandlerStep(s, t)
    ensures StopShown(t, p)
  {
    match s.handler {
      case Got(q, Gone) => GoneStop(s, t, q, p);
      case Got(q, Halted) => HaltedStop(s, t, q, p);
      case _ =>
    }
    hide Slot, Deleted, WithState;
  }

  lemma NextInv(s: State, t: State)
    requires Inv(s) && Next(s, t)
    ensures Inv(t)
  {
    hide TableOk, SlotsOk, KidsOk, NewsOk, HandlerOk, ForegroundOk, WaitOk, EvalStep, BuiltinStep, HandlerStep,
         KernelStep;
    if EvalStep(s, t) {
      EvalKeepsTable(s, t);
      EvalKeepsKids(s, t);
      EvalKeepsNews(s, t);
      EvalKeepsForeground(s, t);
      EvalKeepsWait(s, t);
    } else if BuiltinStep(s, t) {
      BuiltinKeepsTable(s, t);
      BuiltinKeepsKids(s, t);
      BuiltinKeepsNews(s, t);
      BuiltinKeepsForeground(s, t);
      BuiltinKeepsWait(s, t);
    } else if HandlerStep(s, t) {
      HandlerKeepsTable(s, t);
      HandlerKeepsKids(s, t);
      HandlerKeepsNews(s, t);
      HandlerKeepsForeground(s, t);
      HandlerKeepsWait(s, t);
    } else {
      KernelKeepsTable(s, t);
      KernelKeepsKids(s, t);
      KernelKeepsNews(s, t);
      KernelKeepsForeground(s, t);
      KernelKeepsWait(s, t);
    }
  }

  lemma {:induction false} RunInv(run: seq<State>)
    requires IsRun(run)
    ensures Inv(run[|run| - 1])
  {
    hide Inv, Init, Next;
    var n := |run| - 1;
    if n == 0 {
      InitInv(run[0]);
    } else {
      assert IsRun(run[..n]);
      RunInv(run[..n]);
      assert Next(run[n - 1], run[n]);
      NextInv(run[n - 1], run[n]);
    }
  }

  // ----- what every run keeps -----

  /** While the table is not being updated, the occupied slots are exactly for the
      unreaped children, besides one that eval has just forked. */
  lemma SlotsAreChildren(run: seq<State>, p: nat)
    requires IsRun(run)
    ensures var s := run[|run| - 1];
            s.handler.Off? && p != 0 && !s.pc.Forked? && !s.pc.Masked? ==> (Listed(s, p) <==> p in s.kids)
  {
    RunInv(run);
    hide IsRun, WaitOk, ForegroundOk, NewsOk;
  }

  /** At most one job is in the foreground. */
  lemma OneForeground(run: seq<State>, i: nat, j: nat)
    requires IsRun(run)
    requires var s := run[|run| - 1];
             Occupied(s, i) && Occupied(s, j) && s.table.jobs[i].state == FG && s.table.jobs[j].state == FG
    ensures i == j
  {
    RunInv(run);
    var s := run[|run| - 1];
    assert MayBeFg(s, i) && MayBeFg(s, j);
    hide IsRun, WaitOk, KidsOk, NewsOk, SlotsOk;
  }

  /** The handler always finds the job of a child that has stopped. */
  lemma HandlerFindsJob(run: seq<State>, p: nat)
    requires IsRun(run) && run[|run| - 1].handler == Got(p, Halted)
    ensures Slot(run[|run| - 1].table.jobs, p) < MAXJOBS && p != 0
  {
    RunInv(run);
    var s := run[|run| - 1];
    assert Listed(s, p);
    var i :| 0 <= i < |s.table.jobs| && s.table.jobs[i].pid == p;
    hide IsRun, WaitOk, ForegroundOk, NewsOk;
  }

  /** A sleep that waits for job p can end: p is a child in the foreground that still
      runs, or a SIGCHLD is pending. */
  ghost predicate SleepsSafely(s: State, p: nat) {
    p in s.kids && StillFg(s, p) && (s.kids[p] == Running || s.pending)
  }

  /** The shell never sleeps through the end or a stop of eval's foreground job. */
  lemma NoLostWakeup(run: seq<State>, p: nat)
    requires IsRun(run) && run[|run| - 1].pc == Suspended(p) && run[|run| - 1].handler == Off
    ensures SleepsSafely(run[|run| - 1], p)
  {
    RunInv(run);
    var s := run[|run| - 1];
    hide IsRun;
    assert s.table.jobs[Slot(s.table.jobs, p)].pid == p;
    hide ForegroundOk, TableOk, HandlerOk, Slot;
  }

  /** Ctrl-C and ctrl-Z reach the job that eval waits for. */
  lemma SignalsReachForeground(run: seq<State>, p: nat)
    requires IsRun(run) && (run[|run| - 1].pc == Suspended(p) || run[|run| - 1].pc == Waiting(p))
             && StillFg(run[|run| - 1], p)
    ensures FgPid(run[|run| - 1].table.jobs) == p
  {
    RunInv(run);
    var s := run[|run| - 1];
    FgSlotIs(s.table.jobs, Slot(s.table.jobs, p));
    hide IsRun, ForegroundOk, TableOk, HandlerOk, KidsOk, NewsOk, SlotsOk;
  }
}
