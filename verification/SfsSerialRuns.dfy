/** The main result about concurrent data operations: in every interleaving each operation
    takes effect as a whole at one moment between its call and its return. */
module SfsSerialRuns {
  import opened SfsContents
  import opened SfsRuns
  import opened SfsSerial
  import opened SfsSerialSteps
  import opened SfsSerialOps
  import Effects = SfsEffects
  import Spec = SfsSpec

  // ----- what a thread sees under its locks -----

  lemma NotBusy(st: Sys, t: nat, i: nat)
    requires LocksOk(st) && MemOk(st) && t < |st.pcs| && !st.pcs[t].Moving? && i < LIMIT
             && HoldsFd(st.m.fds, st.pcs[t], i)
    ensures st.m.fds[i] == st.a.fds[i]
  {
    forall u | 0 <= u < |st.pcs| ensures !(st.pcs[u].Moving? && HoldsFd(st.m.fds, st.pcs[u], i)) {
      if u != t {
        assert Exclusive(st.m.fds, st.pcs[t], st.pcs[u]);
      }
    }
    hide HoldsFd, HoldsFile;
  }

  lemma NotBusyFile(st: Sys, t: nat, f: nat)
    requires LocksOk(st) && MemOk(st) && t < |st.pcs| && st.pcs[t].HasFile? && st.pcs[t].f == f && f in st.m.files
    ensures FileIs(st.m.files[f], st.a.inodes[f])
  {
    forall u | 0 <= u < |st.pcs| ensures !(st.pcs[u].Moving? && st.pcs[u].f == f) {
      if u != t {
        assert Exclusive(st.m.fds, st.pcs[t], st.pcs[u]);
        assert HoldsFile(st.pcs[t], f) && (st.pcs[u].Moving? && st.pcs[u].f == f ==> HoldsFile(st.pcs[u], f));
      }
    }
    hide HoldsFd, HoldsFile, FileIs;
  }

  lemma OpenedFile(a: Spec.Afs, fds: seq<Spec.Ofd>, i: int, f: nat)
    requires Spec.Inv(a) && SameOwners(fds, a.fds) && OfFile(fds, i, f)
    ensures f in a.inodes && OfFile(a.fds, i, f)
  {
    hide Spec.DirInv;
  }

  lemma UnderLocks(st: Sys, t: nat)
    requires LocksOk(st) && PcsOk(st) && MemOk(st) && Spec.Inv(st.a) && t < |st.pcs| && st.pcs[t].HasFile?
    ensures Agreed(st.m, st.a, st.pcs[t].call, st.pcs[t].f)
  {
    var p := st.pcs[t];
    assert PcOk(st, p);
    var c, f := p.call, p.f;
    OpenedFile(st.a, st.m.fds, FdOf(c), f);
    NotBusyFile(st, t, f);
    NotBusy(st, t, FdOf(c));
    forall i: nat | i < LIMIT && c.Truncate? && OfFile(st.m.fds, i, f) ensures st.m.fds[i] == st.a.fds[i] {
      NotBusy(st, t, i);
    }
    hide LocksOk, PcsOk, Spec.Inv, FileIs, Busy, BusyFile;
  }

  // ----- every step keeps the invariant -----

  /** The parts of the invariant after a step of thread t from its place to q. */
  lemma Together(init: Spec.Afs, st: Sys, t: nat, st': Sys, q: Pc)
    requires Inv(init, st) == true && t < |st.pcs| && st'.pcs == st.pcs[t := q]
    requires Only(st.m, st.a, st'.m, st'.a, st.pcs[t]) == true && st.hist <= st'.hist && PcOk(st', q) == true
             && NoMore(st.m.fds, st.pcs[t], q) == true
    requires |st'.m.fds| == |st'.a.fds| && st'.m.files.Keys == st'.a.inodes.Keys && st'.m.avail == st'.a.avail
    requires OwnPart(st', st.pcs[t], q, st.m.fds) == true && Spec.Inv(st'.a) == true && Explained(init, st') == true
    ensures Inv(init, st')
  {
    hide LocksOk, PcsOk, MemOk, PcOk, NoMore, OwnPart, Explained, Spec.Inv, HoldsFd, HoldsFile;
    SameOwnersOf(st, st', st.pcs[t]);
    NoMoreLocks(st, t, q, st');
    StepPcs(st, t, st', q);
    StepMem(st, t, st', q);
  }

  lemma SameOwnersOf(st: Sys, st': Sys, p: Pc)
    requires Only(st.m, st.a, st'.m, st'.a, p)
    ensures SameOwners(st.m.fds, st'.m.fds)
  {
  }

  lemma Nothing(m: Mem, a: Spec.Afs, p: Pc)
    requires SameOwners(m.fds, a.fds)
    ensures Only(m, a, m, a, p)
  {
  }

  lemma GoInv(init: Spec.Afs, st: Sys, t: nat, st': Sys)
    requires Inv(init, st) && t < |st.pcs| && Go(st, t, st')
    ensures Inv(init, st')
  {
    var q :| CanGo(st, t, st.pcs[t], q) && st' == st.(pcs := st.pcs[t := q]);
    GoLocks(st, t, st');
    GoKnows(st, t, q);
    Nothing(st.m, st.a, st.pcs[t]);
    hide CanGo, LocksOk, MovingOk, PcOk, Only, Explained, Spec.Inv;
    StepPcs(st, t, st', q);
    GoMem(st, t, st', q);
  }

  lemma GoKnows(st: Sys, t: nat, q: Pc)
    requires PcsOk(st) && MemOk(st) && t < |st.pcs| && CanGo(st, t, st.pcs[t], q)
    ensures PcOk(st.(pcs := st.pcs[t := q]), q) && !st.pcs[t].Moving? && !q.Moving?
  {
    assert PcOk(st, st.pcs[t]);
    hide PcsOk, FdFree, FileFree, MovingOk, Busy, BusyFile;
  }

  lemma GoMem(st: Sys, t: nat, st': Sys, q: Pc)
    requires MemOk(st) && t < |st.pcs| && st' == st.(pcs := st.pcs[t := q]) && !st.pcs[t].Moving? && !q.Moving?
    ensures MemOk(st')
  {
    forall i: nat | i < LIMIT ensures Busy(st', i) || st.m.fds[i] == st.a.fds[i] {
      if Busy(st, i) {
        var u :| 0 <= u < |st.pcs| && st.pcs[u].Moving? && HoldsFd(st.m.fds, st.pcs[u], i);
        assert st'.pcs[u] == st.pcs[u];
      }
    }
    forall f | f in st.m.files ensures BusyFile(st', f) || FileIs(st.m.files[f], st.a.inodes[f]) {
      if BusyFile(st, f) {
        var u :| 0 <= u < |st.pcs| && st.pcs[u].Moving? && st.pcs[u].f == f;
        assert st'.pcs[u] == st.pcs[u];
      }
    }
    hide HoldsFd, FileIs, Busy, BusyFile;
  }

  // ----- answering -----

  /** The reply is right, and only the answering thread's descriptor has changed, alike on both sides. */
  ghost predicate Answered(st: Sys, t: nat, reply: Reply, m': Mem, a': Spec.Afs)
    requires t < |st.pcs|
  {
    var p := st.pcs[t];
    && m' == st.m.(fds := m'.fds) && a' == st.a.(fds := a'.fds) && Only(st.m, st.a, m', a', p)
    && forall i: nat | i < |m'.fds| && HoldsFd(st.m.fds, p, i) :: m'.fds[i] == a'.fds[i]
  }

  lemma AnswerHere(st: Sys, t: nat, reply: Reply, m': Mem)
    requires LocksOk(st) && PcsOk(st) && MemOk(st) && Spec.Inv(st.a) && t < |st.pcs| && Answers(st, t, reply, m')
             && st.pcs[t].HasFile?
    ensures var r := Step(st.a, st.pcs[t].call); r.1 == reply && Answered(st, t, reply, m', r.0)
  {
    UnderLocks(st, t);
    AnswerOnly(st.m, st.a, st.pcs[t], reply, m');
    hide LocksOk, PcsOk, MemOk, Spec.Inv, Step, AnswersHere, Only, Agreed, HoldsFd;
  }

  lemma AnswerOnly(m: Mem, a: Spec.Afs, p: Pc, reply: Reply, m': Mem)
    requires p.HasFile? && Agreed(m, a, p.call, p.f) && AnswersHere(m, p.call, p.f, reply, m')
    ensures var r := Step(a, p.call);
            && r.1 == reply && m' == m.(fds := m'.fds) && r.0 == a.(fds := r.0.fds) && |m'.fds| == |r.0.fds|
            && Only(m, a, m', r.0, p)
            && forall i: nat | i < |m'.fds| && HoldsFd(m.fds, p, i) :: m'.fds[i] == r.0.fds[i]
  {
    AnswerRight(m, a, p.call, p.f, reply, m');
    hide AnswersHere, FileIs, Step, Spec.Inv;
    assert p.call.Truncate? || HoldsFd(m.fds, p, FdOf(p.call));
  }

  lemma AnswerEarly(st: Sys, t: nat, reply: Reply, m': Mem)
    requires LocksOk(st) && PcsOk(st) && MemOk(st) && Spec.Inv(st.a) && t < |st.pcs| && Answers(st, t, reply, m')
             && !st.pcs[t].HasFile?
    ensures var r := Step(st.a, st.pcs[t].call); r.1 == reply && Answered(st, t, reply, m', r.0)
  {
    var p := st.pcs[t];
    var c := p.call;
    assert PcOk(st, p);
    Nothing(st.m, st.a, p);
    if p.HasFd? {
      NotBusy(st, t, c.fd);
      GetposRight(st.a, c);
    } else if !Live(st.m.fds, FdOf(c)) {
      BadFdRight(st.a, c);
    } else {
      TooLongRight(st.a, c);
    }
    hide LocksOk, PcsOk, MemOk, Spec.Inv, Step, Only;
  }

  lemma AnswerOwn(st: Sys, t: nat, st': Sys, reply: Reply, q: Pc)
    requires LocksOk(st) && PcsOk(st) && MemOk(st) && Spec.Inv(st.a) && t < |st.pcs| && !st.pcs[t].Moving?
             && q.Returned?
    requires Answered(st, t, reply, st'.m, st'.a)
    ensures |st'.m.fds| == |st'.a.fds| && st'.m.files.Keys == st'.a.inodes.Keys && OwnPart(st', st.pcs[t], q, st.m.fds)
            && st'.m.avail == st'.a.avail
    ensures NoMore(st.m.fds, st.pcs[t], q)
  {
    assert PcOk(st, st.pcs[t]);
    forall f | f in st'.m.files && HoldsFile(st.pcs[t], f) ensures FileIs(st'.m.files[f], st'.a.inodes[f]) {
      NotBusyFile(st, t, f);
    }
    hide LocksOk, PcsOk, Spec.Inv, FileIs, Busy, BusyFile, MovingOk;
  }

  lemma AnswerInv(init: Spec.Afs, st: Sys, t: nat, st': Sys)
    requires Inv(init, st) && t < |st.pcs| && Answer(st, t, st')
    ensures Inv(init, st')
  {
    var reply, m' :|
      && Answers(st, t, reply, m') && TakesEffect(st, st.pcs[t].call, st') && st'.m == m'
      && st'.pcs == st.pcs[t := Returned(st.pcs[t].call, st.pcs[t].from, |st.hist|, reply)];
    hide LocksOk, PcsOk, MemOk, Answers, Step, Spec.Inv, Explained, Answered;
    AnswerRights(st, t, reply, m');
    FromBefore(st, t);
    AnswerDone(init, st, t, st', reply, st.pcs[t].call, st.pcs[t].from);
  }

  lemma AnswerRights(st: Sys, t: nat, reply: Reply, m': Mem)
    requires LocksOk(st) && PcsOk(st) && MemOk(st) && Spec.Inv(st.a) == true && t < |st.pcs|
             && Answers(st, t, reply, m') == true
    ensures Spec.Inv(st.a)
    ensures var r := Step(st.a, st.pcs[t].call); r.1 == reply && Answered(st, t, reply, m', r.0)
    ensures !st.pcs[t].Moving? && !st.pcs[t].Idle? && !st.pcs[t].Returned?
  {
    if st.pcs[t].HasFile? {
      AnswerHere(st, t, reply, m');
    } else {
      AnswerEarly(st, t, reply, m');
    }
    hide LocksOk, PcsOk, MemOk, Step, Spec.Inv, Answered, AnswersHere;
  }

  lemma AnswerDone(init: Spec.Afs, st: Sys, t: nat, st': Sys, reply: Reply, c: Call, from: nat)
    requires Inv(init, st) == true && t < |st.pcs| && !st.pcs[t].Moving? && from <= |st.hist|
    requires TakesEffect(st, c, st') && st'.hist == st.hist + [(c, reply)]
             && Answered(st, t, reply, st'.m, st'.a) == true
    requires st'.pcs == st.pcs[t := Returned(c, from, |st.hist|, reply)]
    ensures Inv(init, st')
  {
    var q := Returned(c, from, |st.hist|, reply);
    hide Step, Spec.Inv, MovingOk, Explained, LocksOk, MemOk, PcsOk, Only, OwnPart, NoMore;
    EffectExplained(init, st, c, st');
    AnswerOwn(st, t, st', reply, q);
    assert PcOk(st', q);
    hide Inv, PcOk, TakesEffect;
    Together(init, st, t, st', q);
  }

  lemma FromBefore(st: Sys, t: nat)
    requires PcsOk(st) && t < |st.pcs| && !st.pcs[t].Idle?
    ensures st.pcs[t].from <= |st.hist|
  {
    assert PcOk(st, st.pcs[t]);
    hide MovingOk;
  }

  // ----- beginning -----

  /** The operation has taken effect: memory, abstract state and reply fit together. */
  ghost predicate Begun(m: Mem, a: Spec.Afs, p: Pc, m': Mem, a': Spec.Afs, reply: Reply, q: Pc) {
    && q.Moving? && MovingOk(m', a', q) && reply == FinalReply(m', a', q)
    && m'.avail == a'.avail && Only(m, a, m', a', p)
  }

  /** Of the memory, only file f and the number of free blocks differ. */
  ghost predicate MemFrame(m: Mem, m': Mem, f: nat) {
    m'.fds == m.fds && m'.files.Keys == m.files.Keys && forall g | g in m.files && g != f :: m'.files[g] == m.files[g]
  }

  /** Of the abstract state, only file f and descriptors under the locks of p differ. */
  ghost predicate AbsFrame(m: Mem, a: Spec.Afs, a': Spec.Afs, p: Pc, f: nat) {
    && a'.inodes.Keys == a.inodes.Keys && (forall g | g in a.inodes && g != f :: a'.inodes[g] == a.inodes[g])
    && SameOwners(a.fds, a'.fds) && forall i | 0 <= i < |a.fds| && !HoldsFd(m.fds, p, i) :: a'.fds[i] == a.fds[i]
  }

  lemma BeginOnly(m: Mem, a: Spec.Afs, p: Pc, m': Mem, a': Spec.Afs)
    requires p.HasFile? && SameOwners(m.fds, a.fds) && MemFrame(m, m', p.f) && AbsFrame(m, a, a', p, p.f)
    ensures Only(m, a, m', a', p)
  {
    hide HoldsFd;
  }

  lemma WrittenFrame(m: Mem, a: Spec.Afs, p: Pc, n: nat)
    requires p.HasFile? && p.call.Write? && Agreed(m, a, p.call, p.f) && a.fds[p.call.fd].pos <= |a.inodes[p.f].data|
             && n <= a.avail
    ensures AbsFrame(m, a, Written(a, p.call.fd, p.f, p.call.buf, n), p, p.f)
  {
    hide Spec.Inv, FileIs, Spec.Overwrite;
  }

  lemma ClampFrame(m: Mem, a: Spec.Afs, p: Pc, a': Spec.Afs)
    requires p.HasFile? && p.call.Truncate? && SameOwners(m.fds, a.fds) && p.f in a.inodes && p.f in a'.inodes
    requires a'.inodes == a.inodes[p.f := a'.inodes[p.f]] && a'.fds == Spec.Clamp(a.fds, p.f, p.call.length)
    ensures AbsFrame(m, a, a', p, p.f)
  {
    ClampOwners(a.fds, p.f, p.call.length);
    forall i: nat | i < |a.fds| && !HoldsFd(m.fds, p, i) ensures a'.fds[i] == a.fds[i] {
      OwnersOfFile(m.fds, a.fds, i, p.f);
    }
    hide SameOwners, Spec.Clamp;
  }

  lemma BeginRead(m: Mem, a: Spec.Afs, p: Pc, q: Pc)
    requires p.HasFile? && p.call.Read? && Agreed(m, a, p.call, p.f)
    requires q.Moving? && q.call == p.call && q.f == p.f && q.done == 0 && q.got == []
    ensures var r := Step(a, p.call); Begun(m, a, p, m, r.0, r.1, q)
  {
    ReadBegins(m, a, p.call, p.f, q);
    hide Step, MovingOk, FileIs, Spec.Inv;
    assert AbsFrame(m, a, Step(a, p.call).0, p, p.f) && MemFrame(m, m, p.f);
    BeginOnly(m, a, p, m, Step(a, p.call).0);
    hide Only, AbsFrame, MemFrame;
  }

  lemma BeginWritten(m: Mem, a: Spec.Afs, p: Pc, junk: seq<Byte>, n: nat, q: Pc)
    requires p.HasFile? && p.call.Write? && Agreed(m, a, p.call, p.f)
    requires m.fds[p.call.fd].pos + |p.call.buf| <= Spec.SFS_MAX_FILE_SIZE && |p.call.buf| > 0
    requires n == Lacks(|m.files[p.f].raw|, m.fds[p.call.fd].pos + |p.call.buf|) <= m.avail
             && |junk| == n * BLOCK_DATA_SIZE
    requires q.Moving? && q.call == p.call && q.f == p.f && q.done == 0
    ensures var r := Step(a, p.call); Begun(m, a, p, Grown(m, p.f, junk, n), r.0, r.1, q)
  {
    WriteBegins(m, a, p.call, p.f, junk, n, q);
    WrittenFrame(m, a, p, n);
    GrownFrame(m, p.f, junk, n);
    hide Step, MovingOk, FileIs, Spec.Inv, Lacks, Spec.Overwrite, AbsFrame, MemFrame, Grown, Only, SameOwners;
    BeginOnly(m, a, p, Grown(m, p.f, junk, n), Step(a, p.call).0);
  }

  lemma BeginWrite(m: Mem, a: Spec.Afs, p: Pc, m': Mem, q: Pc)
    requires p.HasFile? && p.call.Write? && Agreed(m, a, p.call, p.f) && Begins(m, p.call, p.f, m')
    requires q.Moving? && q.call == p.call && q.f == p.f && q.done == 0
    ensures var r := Step(a, p.call); Begun(m, a, p, m', r.0, r.1, q)
  {
    var n := Lacks(|m.files[p.f].raw|, m.fds[p.call.fd].pos + |p.call.buf|);
    var junk: seq<Byte> :| |junk| == n * BLOCK_DATA_SIZE && m' == Grown(m, p.f, junk, n);
    BeginWritten(m, a, p, junk, n, q);
    hide Step, Begun, FileIs, Spec.Inv, Lacks, SameOwners, Grown;
  }

  lemma GrownFrame(m: Mem, f: nat, junk: seq<Byte>, n: nat)
    requires f in m.files && n <= m.avail
    ensures MemFrame(m, Grown(m, f, junk, n), f) && Grown(m, f, junk, n).avail == m.avail - n
  {
  }

  lemma ClampOwners(fds: seq<Spec.Ofd>, f: nat, length: nat)
    ensures SameOwners(fds, Spec.Clamp(fds, f, length))
    ensures forall i | 0 <= i < |fds| && !OfFile(fds, i, f) :: Spec.Clamp(fds, f, length)[i] == fds[i]
  {
  }

  lemma OwnersOfFile(fds: seq<Spec.Ofd>, fds': seq<Spec.Ofd>, i: int, f: nat)
    requires SameOwners(fds, fds')
    ensures OfFile(fds, i, f) == OfFile(fds', i, f)
  {
  }

  lemma BeginLonger(m: Mem, a: Spec.Afs, p: Pc, junk: seq<Byte>, n: nat, q: Pc)
    requires p.HasFile? && p.call.Truncate? && Agreed(m, a, p.call, p.f) && p.call.length != m.files[p.f].size
    requires Spec.BlocksFor(p.call.length) * BLOCK_DATA_SIZE >= |m.files[p.f].raw|
    requires n == Lacks(|m.files[p.f].raw|, p.call.length) <= m.avail && |junk| == n * BLOCK_DATA_SIZE
    requires q.Moving? && q.call == p.call && q.f == p.f && q.done == 0
    ensures var r := Step(a, p.call); Begun(m, a, p, Grown(m, p.f, junk, n), r.0, r.1, q)
  {
    GrowBegins(m, a, p.call, p.f, junk, n, q);
    GrownFrame(m, p.f, junk, n);
    hide Step, MovingOk, FileIs, Spec.Inv, Lacks, Spec.Resize, Spec.Clamp, Spec.BlocksFor, MemFrame, AbsFrame, Grown,
         Only, SameOwners;
    ClampFrame(m, a, p, Step(a, p.call).0);
    BeginOnly(m, a, p, Grown(m, p.f, junk, n), Step(a, p.call).0);
  }

  lemma BeginShorter(m: Mem, a: Spec.Afs, p: Pc, m': Mem, q: Pc)
    requires p.HasFile? && p.call.Truncate? && Agreed(m, a, p.call, p.f) && Begins(m, p.call, p.f, m')
    requires Spec.BlocksFor(p.call.length) * BLOCK_DATA_SIZE < |m.files[p.f].raw|
    requires q.Moving? && q.call == p.call && q.f == p.f && q.done == 0
    ensures var r := Step(a, p.call); Begun(m, a, p, m', r.0, r.1, q)
  {
    CutBegins(m, a, p.call, p.f, m', q);
    assert MemFrame(m, m', p.f);
    hide Step, MovingOk, FileIs, Spec.Inv, Spec.Resize, Spec.Clamp, Spec.BlocksFor, MemFrame, AbsFrame, Only,
         SameOwners, Begins;
    ClampFrame(m, a, p, Step(a, p.call).0);
    BeginOnly(m, a, p, m', Step(a, p.call).0);
  }

  lemma BeginTruncate(m: Mem, a: Spec.Afs, p: Pc, m': Mem, q: Pc)
    requires p.HasFile? && p.call.Truncate? && Agreed(m, a, p.call, p.f) && Begins(m, p.call, p.f, m')
    requires q.Moving? && q.call == p.call && q.f == p.f && q.done == 0
    ensures var r := Step(a, p.call); Begun(m, a, p, m', r.0, r.1, q)
  {
    var length := p.call.length;
    if Spec.BlocksFor(length) * BLOCK_DATA_SIZE < |m.files[p.f].raw| {
      BeginShorter(m, a, p, m', q);
    } else {
      var n := Lacks(|m.files[p.f].raw|, length);
      var junk: seq<Byte> :| |junk| == n * BLOCK_DATA_SIZE && m' == Grown(m, p.f, junk, n);
      BeginLonger(m, a, p, junk, n, q);
    }
    hide Step, Begun, FileIs, Spec.Inv, Lacks, SameOwners, Grown;
  }

  lemma MovingHolds(st: Sys, p: Pc, q: Pc)
    requires p.HasFile? || p.Moving?
    requires (q.Moving? && q.call == p.call && q.f == p.f) || q.Returned?
    ensures NoMore(st.m.fds, p, q)
  {
  }

  lemma MovingPart(st': Sys, p: Pc, q: Pc, fds: seq<Spec.Ofd>)
    requires (p.HasFile? || p.Moving?) && q.Moving? && q.call == p.call && q.f == p.f && SameOwners(fds, st'.m.fds)
    requires |st'.m.fds| == |st'.a.fds| && st'.m.files.Keys == st'.a.inodes.Keys
    ensures OwnPart(st', p, q, fds)
  {
    forall i: nat | i < |st'.m.fds| && HoldsFd(fds, p, i) ensures HoldsFd(st'.m.fds, q, i) {
      SameHolds(fds, st'.m.fds, p, i);
    }
  }

  lemma KeysOn(m: Mem, a: Spec.Afs, m': Mem, a': Spec.Afs, p: Pc)
    requires Only(m, a, m', a', p) && m.files.Keys == a.inodes.Keys
    ensures |m'.fds| == |a'.fds| && m'.files.Keys == a'.inodes.Keys && SameOwners(m.fds, m'.fds)
  {
    hide HoldsFd, HoldsFile;
  }

  lemma BeginInv(init: Spec.Afs, st: Sys, t: nat, st': Sys)
    requires Inv(init, st) && t < |st.pcs| && Begin(st, t, st')
    ensures Inv(init, st')
  {
    var p := st.pcs[t];
    var q := Moving(p.call, p.from, p.f, |st.hist|, 0, []);
    UnderLocks(st, t);
    if p.call.Read? {
      BeginRead(st.m, st.a, p, q);
    } else if p.call.Write? {
      BeginWrite(st.m, st.a, p, st'.m, q);
    } else {
      BeginTruncate(st.m, st.a, p, st'.m, q);
    }
    FromBefore(st, t);
    KeysEqual(st);
    hide LocksOk, PcsOk, MemOk, Begins, Agreed, Begun, Step, Spec.Inv, Explained;
    BeginDone(init, st, t, st', p, q);
  }

  lemma KeysEqual(st: Sys)
    requires MemOk(st)
    ensures st.m.files.Keys == st.a.inodes.Keys && SameOwners(st.m.fds, st.a.fds)
  {
  }

  lemma BeginDone(init: Spec.Afs, st: Sys, t: nat, st': Sys, p: Pc, q: Pc)
    requires Inv(init, st) == true && t < |st.pcs| && p == st.pcs[t] && p.HasFile? && p.from <= |st.hist|
             && st.m.files.Keys == st.a.inodes.Keys
    requires q == Moving(p.call, p.from, p.f, |st.hist|, 0, []) && st'.pcs == st.pcs[t := q]
    requires TakesEffect(st, p.call, st') && Begun(st.m, st.a, p, st'.m, st'.a, st'.hist[|st.hist|].1, q)
    ensures Inv(init, st')
  {
    hide Step, Spec.Inv, MovingOk, Explained, LocksOk, MemOk, PcsOk, Only, OwnPart, NoMore, FinalReply, SameOwners;
    EffectExplained(init, st, p.call, st');
    KeysOn(st.m, st.a, st'.m, st'.a, p);
    MovingHolds(st, p, q);
    MovingPart(st', p, q, st.m.fds);
    assert PcOk(st', q);
    hide Inv, PcOk, TakesEffect;
    Together(init, st, t, st', q);
  }

  // ----- moving -----

  /** Moving bytes changes neither the operation's extent nor its reply. */
  lemma MoveKeeps(m: Mem, a: Spec.Afs, p: Pc, m': Mem, p': Pc)
    requires p.Moving? && MovingOk(m, a, p) && p'.Moving? && MovingOk(m', a, p') && p'.call == p.call && p'.f == p.f
    requires if p.call.Read? then m' == m else true
    ensures FinalReply(m', a, p') == FinalReply(m, a, p)
  {
    hide MovingOk;
  }

  lemma FileOnly(m: Mem, a: Spec.Afs, p: Pc, m': Mem)
    requires p.Moving? && SameOwners(m.fds, a.fds) && p.f in m.files && p.f in m'.files
             && m' == m.(files := m.files[p.f := m'.files[p.f]])
    ensures Only(m, a, m', a, p)
  {
    hide HoldsFd;
  }

  /** Bytes have been moved: from p to q, with the rest still to do. */
  ghost predicate Moved(m: Mem, a: Spec.Afs, p: Pc, m': Mem, q: Pc) {
    && p.Moving? && q.Moving? && q == p.(done := q.done, got := q.got)
    && MovingOk(m, a, p) && MovingOk(m', a, q) && Only(m, a, m', a, p) && m'.avail == m.avail
    && (p.call.Read? ==> m' == m)
  }

  lemma MovedRead(m: Mem, a: Spec.Afs, p: Pc, n: nat)
    requires p.Moving? && MovingOk(m, a, p) && SameOwners(m.fds, a.fds) && p.call.Read?
             && p.done + n <= Length(m, p.call, p.f)
    ensures var from := m.fds[p.call.fd].pos + p.done;
            from + n <= |m.files[p.f].raw| && Moved(m, a, p, m,
                  p.(done := p.done + n, got := p.got + m.files[p.f].raw[from..from + n]))
  {
    MoveRead(m, a, p, n);
    Nothing(m, a, p);
    hide Only, SameOwners, FileIs;
  }

  lemma MovedWrite(m: Mem, a: Spec.Afs, p: Pc, n: nat)
    requires p.Moving? && MovingOk(m, a, p) && SameOwners(m.fds, a.fds) && p.call.Write? && p.done + n <= |p.call.buf|
    ensures var file, from := m.files[p.f], m.fds[p.call.fd].pos + p.done;
            && from + n <= |file.raw|
            && Moved(m, a, p, m.(files := m.files[p.f := File(Splice(file.raw, from, p.call.buf[p.done..p.done + n]),
                       file.size)]), p.(done := p.done + n))
  {
    MoveWrite(m, a, p, n);
    var file, from := m.files[p.f], m.fds[p.call.fd].pos + p.done;
    FileOnly(m, a, p, m.(files := m.files[p.f := File(Splice(file.raw, from, p.call.buf[p.done..p.done + n]),
                file.size)]));
    hide Only, SameOwners, Splice, MovingOk;
  }

  lemma MovedTruncate(m: Mem, a: Spec.Afs, p: Pc, n: nat)
    requires p.Moving? && MovingOk(m, a, p) && SameOwners(m.fds, a.fds) && p.call.Truncate?
             && p.done + n <= Length(m, p.call, p.f)
    ensures var file, from := m.files[p.f], Start(m, p.call, p.f) + p.done;
            && from + n <= |file.raw|
            && Moved(m, a, p, m.(files := m.files[p.f := File(Splice(file.raw, from, Zeros(n)), file.size)]),
                 p.(done := p.done + n))
  {
    MoveTruncate(m, a, p, n);
    var file, from := m.files[p.f], Start(m, p.call, p.f) + p.done;
    FileOnly(m, a, p, m.(files := m.files[p.f := File(Splice(file.raw, from, Zeros(n)), file.size)]));
    hide Only, SameOwners, Splice, MovingOk;
  }

  lemma MovedBy(st: Sys, t: nat, n: nat, st': Sys) returns (q: Pc)
    requires t < |st.pcs| && st.pcs[t].Moving? && MovingOk(st.m, st.a, st.pcs[t])
             && SameOwners(st.m.fds, st.a.fds) == true && MoveBy(st, t, n, st')
    ensures Moved(st.m, st.a, st.pcs[t], st'.m, q) && st' == st.(pcs := st.pcs[t := q], m := st'.m)
  {
    hide Moved, Splice, SameOwners, ReadMoving, WriteMoving, TruncateMoving, Only, FileIs;
    var p := st.pcs[t];
    if p.call.Read? {
      MovedRead(st.m, st.a, p, n);
      q := st'.pcs[t];
    } else if p.call.Write? {
      MovedWrite(st.m, st.a, p, n);
      q := p.(done := p.done + n);
    } else {
      MovedTruncate(st.m, st.a, p, n);
      q := p.(done := p.done + n);
    }
  }

  lemma Explaining(st: Sys, t: nat)
    requires PcsOk(st) && t < |st.pcs| && st.pcs[t].Moving?
    ensures var p := st.pcs[t];
            MovingOk(st.m, st.a, p) && p.from <= p.at < |st.hist|
            && st.hist[p.at] == (p.call, FinalReply(st.m, st.a, p))
  {
    assert PcOk(st, st.pcs[t]);
    hide MovingOk, FinalReply;
  }

  lemma MoveInv(init: Spec.Afs, st: Sys, t: nat, st': Sys)
    requires Inv(init, st) && t < |st.pcs| && Move(st, t, st')
    ensures Inv(init, st')
  {
    var n: nat :| MoveBy(st, t, n, st');
    Explaining(st, t);
    AvailEqual(st);
    hide LocksOk, PcsOk, MemOk, Moved, MovingOk, Explained, Spec.Inv, FinalReply, SameOwners;
    var q := MovedBy(st, t, n, st');
    hide Move, MoveBy;
    MoveDone(init, st, t, st', st.pcs[t], q);
  }

  lemma MoveDone(init: Spec.Afs, st: Sys, t: nat, st': Sys, p: Pc, q: Pc)
    requires Inv(init, st) == true && t < |st.pcs| && p == st.pcs[t] && st'.pcs == st.pcs[t := q] && st'.a == st.a
             && st'.hist == st.hist
    requires Moved(st.m, st.a, p, st'.m, q) && st.m.avail == st.a.avail && st.m.files.Keys == st.a.inodes.Keys
    requires p.from <= p.at < |st.hist| && st.hist[p.at] == (p.call, FinalReply(st.m, st.a, p))
    ensures Inv(init, st')
  {
    hide MovingOk, Explained, LocksOk, MemOk, PcsOk, Only, OwnPart, NoMore, FinalReply, SameOwners, Spec.Inv;
    MoveKeeps(st.m, st.a, p, st'.m, q);
    KeysOn(st.m, st.a, st'.m, st'.a, p);
    MovingHolds(st, p, q);
    MovingPart(st', p, q, st.m.fds);
    SameExplained(init, st, st');
    assert PcOk(st', q);
    hide PcOk, Inv;
    Together(init, st, t, st', q);
  }

  lemma AvailEqual(st: Sys)
    requires MemOk(st)
    ensures st.m.avail == st.a.avail && st.m.files.Keys == st.a.inodes.Keys && SameOwners(st.m.fds, st.a.fds)
  {
  }

  lemma SameExplained(init: Spec.Afs, st: Sys, st': Sys)
    requires Explained(init, st) && st'.a == st.a && st'.hist == st.hist
    ensures Explained(init, st')
  {
  }

  // ----- finishing -----

  /** The operation is over: file and descriptors under its locks show the abstract state. */
  ghost predicate Finished(m: Mem, a: Spec.Afs, p: Pc, m': Mem)
    requires p.Moving?
  {
    && p.f in m.files && p.f in m'.files && p.f in a.inodes && m'.avail == m.avail
    && m'.files == m.files[p.f := m'.files[p.f]] && FileIs(m'.files[p.f], a.inodes[p.f])
    && |m'.fds| == |m.fds| == |a.fds|
    && forall i: nat | i < |m.fds| :: m'.fds[i] == if HoldsFd(m.fds, p, i) then a.fds[i] else m.fds[i]
  }

  lemma FinishedRead(m: Mem, a: Spec.Afs, p: Pc)
    requires p.Moving? && MovingOk(m, a, p) && p.call.Read? && p.done == Length(m, p.call, p.f)
    ensures Finished(m, a, p, Stored(m, p.call, p.f)) && Reply(p.done, p.got, 0, "") == FinalReply(m, a, p)
  {
    FinishRead(m, a, p);
    hide ReadMoving, FileIs;
  }

  lemma FinishedWrite(m: Mem, a: Spec.Afs, p: Pc)
    requires p.Moving? && MovingOk(m, a, p) && p.call.Write? && p.done == |p.call.buf|
    ensures Finished(m, a, p, Stored(m, p.call, p.f)) && Code(p.done) == FinalReply(m, a, p)
  {
    FinishWrite(m, a, p);
    hide WriteMoving, FileIs;
  }

  lemma FinishedTruncate(m: Mem, a: Spec.Afs, p: Pc)
    requires p.Moving? && MovingOk(m, a, p) && p.call.Truncate? && p.done == Length(m, p.call, p.f)
             && SameOwners(m.fds, a.fds)
    ensures Finished(m, a, p, Stored(m, p.call, p.f)) && Code(0) == FinalReply(m, a, p)
  {
    FinishTruncate(m, a, p);
    hide TruncateMoving, FileIs, SameOwners, Spec.Clamp;
  }

  lemma FinishedOk(m: Mem, a: Spec.Afs, p: Pc)
    requires p.Moving? && MovingOk(m, a, p) && SameOwners(m.fds, a.fds) && p.done == Length(m, p.call, p.f)
    ensures Finished(m, a, p, Stored(m, p.call, p.f))
    ensures FinalReply(m, a, p) == if p.call.Read? then Reply(p.done, p.got, 0, "")
            else if p.call.Write? then Code(p.done) else Code(0)
  {
    if p.call.Read? {
      FinishedRead(m, a, p);
    } else if p.call.Write? {
      FinishedWrite(m, a, p);
    } else {
      FinishedTruncate(m, a, p);
    }
    hide Finished, Stored, FinalReply, SameOwners, ReadMoving, WriteMoving, TruncateMoving;
  }

  lemma FinishOnly(m: Mem, a: Spec.Afs, p: Pc, m': Mem)
    requires p.Moving? && Finished(m, a, p, m') && SameOwners(m.fds, a.fds)
    ensures Only(m, a, m', a, p)
  {
    hide HoldsFd, FileIs;
  }

  lemma FinishPart(st': Sys, m: Mem, p: Pc, q: Pc)
    requires p.Moving? && Finished(m, st'.a, p, st'.m) && q.Returned? && st'.m.files.Keys == st'.a.inodes.Keys
    ensures OwnPart(st', p, q, m.fds)
  {
    hide HoldsFd, FileIs;
  }

  lemma FinishInv(init: Spec.Afs, st: Sys, t: nat, st': Sys)
    requires Inv(init, st) && t < |st.pcs| && Finish(st, t, st')
    ensures Inv(init, st')
  {
    var p := st.pcs[t];
    Explaining(st, t);
    AvailEqual(st);
    hide LocksOk, PcsOk, MemOk, Finished, MovingOk, Explained, Spec.Inv, FinalReply, SameOwners, Stored, Length;
    FinishedOk(st.m, st.a, p);
    var q := Returned(p.call, p.from, p.at, FinalReply(st.m, st.a, p));
    assert st' == st.(pcs := st.pcs[t := q], m := Stored(st.m, p.call, p.f));
    hide Finish;
    FinishDone(init, st, t, st', p, q);
  }

  lemma FinishDone(init: Spec.Afs, st: Sys, t: nat, st': Sys, p: Pc, q: Pc)
    requires Inv(init, st) == true && t < |st.pcs| && p == st.pcs[t] && p.Moving? && st'.pcs == st.pcs[t := q]
             && st'.a == st.a && st'.hist == st.hist
    requires Finished(st.m, st.a, p, st'.m) && st.m.avail == st.a.avail && st.m.files.Keys == st.a.inodes.Keys
             && SameOwners(st.m.fds, st.a.fds)
    requires p.from <= p.at < |st.hist| && q.Returned? && q.from == p.from && q.at == p.at
             && st.hist[p.at] == (q.call, q.reply)
    ensures Inv(init, st')
  {
    hide MovingOk, Explained, LocksOk, MemOk, PcsOk, Only, OwnPart, NoMore, FinalReply, SameOwners, Spec.Inv, HoldsFd,
         FileIs;
    FinishOnly(st.m, st.a, p, st'.m);
    KeysOn(st.m, st.a, st'.m, st'.a, p);
    MovingHolds(st, p, q);
    FinishPart(st', st.m, p, q);
    SameExplained(init, st, st');
    assert PcOk(st', q);
    hide PcOk, Inv, Finished;
    Together(init, st, t, st', q);
  }

  lemma NextInv(init: Spec.Afs, st: Sys, t: nat, st': Sys)
    requires Inv(init, st) && Next(st, t, st')
    ensures Inv(init, st')
  {
    hide Inv, Go, Answer, Begin, Move, Finish;
    if Go(st, t, st') {
      GoInv(init, st, t, st');
    } else if Answer(st, t, st') {
      AnswerInv(init, st, t, st');
    } else if Begin(st, t, st') {
      BeginInv(init, st, t, st');
    } else if Move(st, t, st') {
      MoveInv(init, st, t, st');
    } else {
      FinishInv(init, st, t, st');
    }
  }

  // ----- runs -----

  /** All threads idle, memory showing the abstract state, nothing recorded. */
  ghost predicate Ready(st: Sys) {
    && (forall t | 0 <= t < |st.pcs| :: st.pcs[t] == Idle) && st.hist == [] && Spec.Inv(st.a)
    && Shows(st.m, st.a)
  }

  /** Memory shows the abstract state everywhere. */
  ghost predicate Shows(m: Mem, a: Spec.Afs) {
    && m.fds == a.fds && |m.fds| == LIMIT && m.files.Keys == a.inodes.Keys && m.avail == a.avail
    && forall f | f in m.files :: FileIs(m.files[f], a.inodes[f])
  }

  /** A run in which thread order[i] makes the i-th step. */
  ghost predicate IsRun(run: seq<Sys>, order: seq<nat>) {
    && |run| == |order| + 1 && Ready(run[0])
    && forall i | 0 <= i < |order| :: Next(run[i], order[i], run[i + 1])
  }

  lemma ReadyInv(st: Sys)
    requires Ready(st)
    ensures Inv(st.a, st)
  {
    hide Spec.Inv, FileIs;
    assert Calls([]) == [] && Replies([]) == [];
  }

  lemma {:induction false} RunInv(run: seq<Sys>, order: seq<nat>, n: nat)
    requires IsRun(run, order) && n < |run|
    ensures Inv(run[0].a, run[n])
  {
    hide Inv, Next, Ready;
    if n == 0 {
      ReadyInv(run[0]);
    } else {
      RunInv(run, order, n - 1);
      assert Next(run[n - 1], order[n - 1], run[n]);
      NextInv(run[0].a, run[n - 1], order[n - 1], run[n]);
    }
  }

  // ----- the main results -----

  /** At any moment of any interleaving there is an order of the operations that have
      taken effect, in which they give, one whole operation after the other, the
      recorded replies; and each thread that returns gives the reply recorded for it,
      at a place after all that were recorded when it was called. */
  lemma Serial(run: seq<Sys>, order: seq<nat>, n: nat)
    requires IsRun(run, order) && n < |run|
    ensures Spec.Inv(run[0].a) && Run(run[0].a, Calls(run[n].hist)) == (run[n].a, Replies(run[n].hist))
    ensures forall t | 0 <= t < |run[n].pcs| && run[n].pcs[t].Returned? ::
              var p := run[n].pcs[t]; p.from <= p.at < |run[n].hist| && run[n].hist[p.at] == (p.call, p.reply)
  {
    RunInv(run, order, n);
    forall t | 0 <= t < |run[n].pcs| && run[n].pcs[t].Returned?
      ensures var p := run[n].pcs[t]; p.from <= p.at < |run[n].hist| && run[n].hist[p.at] == (p.call, p.reply)
    {
      assert PcOk(run[n], run[n].pcs[t]);
    }
    hide IsRun, LocksOk, MemOk, Run, Spec.Inv, MovingOk;
  }

  /** With nothing under way, memory is what the operations in that order have made of it. */
  lemma QuietMemory(run: seq<Sys>, order: seq<nat>, n: nat)
    requires IsRun(run, order) && n < |run| && forall t | 0 <= t < |run[n].pcs| :: !run[n].pcs[t].Moving?
    ensures Spec.Inv(run[0].a) && Shows(run[n].m, Run(run[0].a, Calls(run[n].hist)).0)
  {
    Serial(run, order, n);
    RunInv(run, order, n);
    var st := run[n];
    assert forall i: nat | i < LIMIT :: !Busy(st, i);
    assert forall f | f in st.m.files :: !BusyFile(st, f);
    hide IsRun, LocksOk, PcsOk, Run, Spec.Inv, FileIs, HoldsFd;
  }

  /** Each reply that a thread gives is right for the state in which its operation took
      effect: it reads, writes, moves or cuts what it should. */
  lemma RepliesRight(run: seq<Sys>, order: seq<nat>, n: nat, k: nat)
    requires IsRun(run, order) && n < |run| && k < |run[n].hist|
    ensures Spec.Inv(run[0].a)
    ensures var calls := Calls(run[n].hist);
            Effects.Does(Run(run[0].a, calls[..k]).0, calls[k], Run(run[0].a, calls[..k + 1]).0, run[n].hist[k].1)
  {
    hide IsRun, Run, Spec.Inv, Effects.Does;
    Serial(run, order, n);
    Effects.RunDoes(run[0].a, Calls(run[n].hist), k);
    assert Replies(run[n].hist)[k] == run[n].hist[k].1;
  }

  lemma NextGrows(st: Sys, t: nat, st': Sys)
    requires Next(st, t, st')
    ensures st.hist <= st'.hist && |st'.pcs| == |st.pcs|
  {
    hide CanGo, Answers, Begins, Step, Stored, Length, Start, Spec.Inv;
  }

  lemma {:induction false} HistoryGrows(run: seq<Sys>, order: seq<nat>, i: nat, j: nat)
    requires IsRun(run, order) && i <= j < |run|
    ensures run[i].hist <= run[j].hist
  {
    hide Next, Ready;
    if i < j {
      HistoryGrows(run, order, i, j - 1);
      assert Next(run[j - 1], order[j - 1], run[j]);
      NextGrows(run[j - 1], order[j - 1], run[j]);
    }
  }

  /** The order respects real time: an operation that has returned precedes every one
      that is called later. */
  lemma RealTime(run: seq<Sys>, order: seq<nat>, i: nat, j: nat, t: nat, u: nat)
    requires IsRun(run, order) && i <= j < |run| - 1 && t < |run[i].pcs| && run[i].pcs[t].Returned?
    requires u < |run[j].pcs| && u < |run[j + 1].pcs| && order[j] == u && run[j].pcs[u].Idle?
             && run[j + 1].pcs[u].Called?
    ensures run[i].pcs[t].at < run[j + 1].pcs[u].from
  {
    Serial(run, order, i);
    HistoryGrows(run, order, i, j);
    assert Next(run[j], order[j], run[j + 1]);
    hide IsRun, Step, Run, Spec.Inv, Stored, Answers, Begins;
  }
}
