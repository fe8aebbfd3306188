/** What every interleaving of data operations keeps: who has which lock, and how the
    shared memory stands to the abstract file system while operations are under way. */
module SfsSerialSteps {
  import opened SfsContents
  import opened SfsRuns
  import opened SfsSerial
  import Spec = SfsSpec
  import Proofs = SfsSpecProofs

  // ----- memory and abstract state -----

  ghost predicate FileIs(file: File, ino: Spec.Inode) {
    |file.raw| == BLOCK_DATA_SIZE * ino.blocks && file.size == |ino.data| <= |file.raw|
        && file.raw[..file.size] == ino.data
  }

  ghost predicate SameOwners(fds: seq<Spec.Ofd>, fds': seq<Spec.Ofd>) {
    |fds| == |fds'|
        && forall i | 0 <= i < |fds| :: fds[i].At? == fds'[i].At? && (fds[i].At? ==> fds[i].fid == fds'[i].fid)
  }

  /** An operation that has taken effect: what it has still to do makes the file and
      the descriptors those of the abstract state. */
  ghost predicate MovingOk(m: Mem, a: Spec.Afs, p: Pc)
    requires p.Moving?
  {
    && DataCall(p.call) && OfFile(m.fds, FdOf(p.call), p.f) && p.f in m.files && p.f in a.inodes && |m.fds| == |a.fds|
    && p.done <= Length(m, p.call, p.f)
    && match p.call
       case Read(fd, _) => ReadMoving(m, a, p, fd)
       case Write(fd, buf) => WriteMoving(m, a, p, fd, buf)
       case Truncate(_, length) => TruncateMoving(m, a, p, length)
       case _ => false
  }

  ghost predicate ReadMoving(m: Mem, a: Spec.Afs, p: Pc, fd: int)
    requires p.Moving? && DataCall(p.call) && OfFile(m.fds, FdOf(p.call), p.f) && p.f in m.files && p.f in a.inodes
             && |m.fds| == |a.fds| && p.call.Read? && p.call.fd == fd
    requires p.done <= Length(m, p.call, p.f)
  {
    var pos, file, n := m.fds[fd].pos, m.files[p.f], Length(m, p.call, p.f);
    && FileIs(file, a.inodes[p.f]) && a.fds[fd] == Spec.At(p.f, pos + n)
    && p.got == file.raw[pos..pos + p.done]
  }

  ghost predicate WriteMoving(m: Mem, a: Spec.Afs, p: Pc, fd: int, buf: seq<Byte>)
    requires p.Moving? && DataCall(p.call) && OfFile(m.fds, FdOf(p.call), p.f) && p.f in m.files && p.f in a.inodes
             && |m.fds| == |a.fds| && p.call == Write(fd, buf)
    requires p.done <= |buf|
  {
    var pos, file, ino := m.fds[fd].pos, m.files[p.f], a.inodes[p.f];
    && |file.raw| == BLOCK_DATA_SIZE * ino.blocks && pos <= file.size <= |file.raw| && pos + |buf| <= |file.raw|
    && file.raw[pos..pos + p.done] == buf[..p.done] && ino.data == Spec.Overwrite(file.raw[..file.size], pos, buf)
    && a.fds[fd] == Spec.At(p.f, pos + |buf|)
  }

  ghost predicate TruncateMoving(m: Mem, a: Spec.Afs, p: Pc, length: nat)
    requires p.Moving? && p.f in m.files && p.f in a.inodes && |m.fds| == |a.fds|
  {
    var file, ino := m.files[p.f], a.inodes[p.f];
    && |file.raw| == BLOCK_DATA_SIZE * ino.blocks && length <= |file.raw| && length != file.size
    && (if length > file.size then
          file.size + p.done <= length && file.raw[file.size..file.size + p.done] == Zeros(p.done)
              && ino.data == file.raw[..file.size] + Zeros(length - file.size)
        else ino.data == file.raw[..length])
    && forall i | 0 <= i < |m.fds| && OfFile(m.fds, i, p.f) :: TruncatedFd(m.fds[i], a.fds[i], file.size, length)
  }

  predicate TruncatedFd(o: Spec.Ofd, o': Spec.Ofd, size: nat, length: nat)
    requires o.At?
  {
    o.pos <= size && o' == if o.pos > length then Spec.At(o.fid, length) else o
  }

  // ----- the invariant -----

  ghost predicate Exclusive(fds: seq<Spec.Ofd>, p: Pc, q: Pc) {
    (forall i :: !(HoldsFd(fds, p, i) && HoldsFd(fds, q, i))) && (forall f :: !(HoldsFile(p, f) && HoldsFile(q, f)))
  }

  ghost predicate LocksOk(st: Sys) {
    forall t, u | 0 <= t < |st.pcs| && 0 <= u < |st.pcs| && t != u :: Exclusive(st.m.fds, st.pcs[t], st.pcs[u])
  }

  ghost predicate PcOk(st: Sys, p: Pc) {
    match p
    case Idle => true
    case Called(c, from) => DataCall(c) && from <= |st.hist|
    case HasFd(c, from, f) => DataCall(c) && !c.Truncate? && from <= |st.hist| && OfFile(st.m.fds, FdOf(c), f)
    case Gather(c, from, f, i) => c.Truncate? && c.length <= Spec.SFS_MAX_FILE_SIZE && i <= LIMIT && from <= |st.hist|
         && OfFile(st.m.fds, c.fd, f)
    case HasFile(c, from, f) => DataCall(c) && !c.Getpos? && from <= |st.hist| && OfFile(st.m.fds, FdOf(c), f)
         && (c.Truncate? ==> c.length <= Spec.SFS_MAX_FILE_SIZE)
    case Moving(c, from, f, at, _, _) => MovingOk(st.m, st.a, p) && from <= at < |st.hist| && st.hist[at].0 == c
         && ReplyOk(st, p)
    case Returned(c, from, at, reply) => from <= at < |st.hist| && st.hist[at] == (c, reply)
  }

  /** The recorded reply is the one the thread will give. */
  ghost predicate ReplyOk(st: Sys, p: Pc)
    requires p.Moving? && MovingOk(st.m, st.a, p) && p.at < |st.hist|
  {
    st.hist[p.at].1 == FinalReply(st.m, st.a, p)
  }

  ghost function FinalReply(m: Mem, a: Spec.Afs, p: Pc): Reply
    requires p.Moving? && MovingOk(m, a, p)
  {
    match p.call
    case Read(fd, _) =>
      var pos, n := m.fds[fd].pos, Length(m, p.call, p.f);
      Reply(n, m.files[p.f].raw[pos..pos + n], 0, "")
    case Write(_, buf) => Code(|buf|)
    case _ => Code(0)
  }

  ghost predicate PcsOk(st: Sys) {
    forall t | 0 <= t < |st.pcs| :: PcOk(st, st.pcs[t])
  }

  ghost predicate Busy(st: Sys, i: int) {
    exists t | 0 <= t < |st.pcs| :: st.pcs[t].Moving? && HoldsFd(st.m.fds, st.pcs[t], i)
  }

  ghost predicate BusyFile(st: Sys, f: nat) {
    exists t | 0 <= t < |st.pcs| :: st.pcs[t].Moving? && st.pcs[t].f == f
  }

  /** Where no operation is under way, memory shows the abstract state. */
  ghost predicate MemOk(st: Sys) {
    && SameOwners(st.m.fds, st.a.fds) && |st.m.fds| == LIMIT && st.m.files.Keys == st.a.inodes.Keys
    && st.m.avail == st.a.avail
    && (forall i | 0 <= i < LIMIT :: Busy(st, i) || st.m.fds[i] == st.a.fds[i])
    && (forall f | f in st.m.files :: BusyFile(st, f) || FileIs(st.m.files[f], st.a.inodes[f]))
  }

  function Calls(hist: seq<(Call, Reply)>): (calls: seq<Call>)
    ensures |calls| == |hist|
  {
    seq(|hist|, i requires 0 <= i < |hist| => hist[i].0)
  }

  function Replies(hist: seq<(Call, Reply)>): (replies: seq<Reply>)
    ensures |replies| == |hist|
  {
    seq(|hist|, i requires 0 <= i < |hist| => hist[i].1)
  }

  /** The recorded operations, one after the other, give the recorded replies. */
  ghost predicate Explained(init: Spec.Afs, st: Sys) {
    Spec.Inv(init) && Run(init, Calls(st.hist)) == (st.a, Replies(st.hist))
  }

  ghost predicate Inv(init: Spec.Afs, st: Sys) {
    LocksOk(st) && PcsOk(st) && MemOk(st) && Spec.Inv(st.a) && Explained(init, st)
  }

  // ----- bookkeeping -----

  lemma RunOne(init: Spec.Afs, calls: seq<Call>, call: Call)
    requires Spec.Inv(init)
    ensures var r := Run(init, calls); var s := Step(r.0, call); Run(init, calls + [call]) == (s.0, r.1 + [s.1])
  {
    hide Step, Spec.Inv;
    assert (calls + [call])[..|calls|] == calls;
  }

  lemma EffectExplained(init: Spec.Afs, st: Sys, call: Call, st': Sys)
    requires Explained(init, st) && TakesEffect(st, call, st')
    ensures Explained(init, st') && Spec.Inv(st'.a)
  {
    hide Step, Spec.Inv, Run;
    RunOne(init, Calls(st.hist), call);
    assert Calls(st'.hist) == Calls(st.hist) + [call];
    assert Replies(st'.hist) == Replies(st.hist) + [Step(st.a, call).1];
    StepInv(st.a, call);
  }

  // ----- locks -----

  ghost predicate NoMore(fds: seq<Spec.Ofd>, p: Pc, q: Pc) {
    (forall i :: HoldsFd(fds, q, i) ==> HoldsFd(fds, p, i)) && (forall f :: HoldsFile(q, f) ==> HoldsFile(p, f))
  }

  lemma SameHolds(fds: seq<Spec.Ofd>, fds': seq<Spec.Ofd>, p: Pc, i: int)
    requires SameOwners(fds, fds')
    ensures HoldsFd(fds', p, i) == HoldsFd(fds, p, i)
  {
  }

  /** Steps that take no lock. */
  lemma NoMoreLocks(st: Sys, t: nat, q: Pc, st': Sys)
    requires LocksOk(st) && t < |st.pcs| && st'.pcs == st.pcs[t := q] && SameOwners(st.m.fds, st'.m.fds)
             && NoMore(st.m.fds, st.pcs[t], q)
    ensures LocksOk(st')
  {
    forall x, y | 0 <= x < |st.pcs| && 0 <= y < |st.pcs| && x != y
           ensures Exclusive(st'.m.fds, st'.pcs[x], st'.pcs[y]) {
      assert Exclusive(st.m.fds, st.pcs[x], st.pcs[y]);
      forall i: int ensures HoldsFd(st'.m.fds, st'.pcs[x], i) ==> HoldsFd(st.m.fds, st.pcs[x], i) {
        SameHolds(st.m.fds, st'.m.fds, st'.pcs[x], i);
      }
      forall i: int ensures HoldsFd(st'.m.fds, st'.pcs[y], i) ==> HoldsFd(st.m.fds, st.pcs[y], i) {
        SameHolds(st.m.fds, st'.m.fds, st'.pcs[y], i);
      }
      hide HoldsFd, HoldsFile, SameOwners;
    }
    hide Exclusive, SameOwners, NoMore;
  }

  lemma GoHolds(st: Sys, t: nat, u: nat, q: Pc)
    requires LocksOk(st) && |st.m.fds| == LIMIT && t < |st.pcs| && u < |st.pcs| && t != u && PcOk(st, st.pcs[t])
             && CanGo(st, t, st.pcs[t], q)
    ensures Exclusive(st.m.fds, q, st.pcs[u])
  {
    assert Exclusive(st.m.fds, st.pcs[t], st.pcs[u]);
    forall i: int ensures HoldsFd(st.m.fds, q, i) ==>
             HoldsFd(st.m.fds, st.pcs[t], i) || !HoldsFd(st.m.fds, st.pcs[u], i) {
      GoHoldsFd(st, t, u, q, i);
    }
    forall f: nat ensures HoldsFile(q, f) ==> HoldsFile(st.pcs[t], f) || !HoldsFile(st.pcs[u], f) {
    }
    hide HoldsFd, HoldsFile, LocksOk, CanGo, PcOk;
  }

  lemma GoHoldsFd(st: Sys, t: nat, u: nat, q: Pc, i: int)
    requires t < |st.pcs| && u < |st.pcs| && t != u && PcOk(st, st.pcs[t]) && CanGo(st, t, st.pcs[t], q)
             && |st.m.fds| == LIMIT
    ensures HoldsFd(st.m.fds, q, i) ==> HoldsFd(st.m.fds, st.pcs[t], i) || !HoldsFd(st.m.fds, st.pcs[u], i)
  {
    hide FileFree;
  }

  lemma GoLocks(st: Sys, t: nat, st': Sys)
    requires LocksOk(st) && PcsOk(st) && |st.m.fds| == LIMIT && t < |st.pcs| && Go(st, t, st')
    ensures LocksOk(st')
  {
    var q :| CanGo(st, t, st.pcs[t], q) && st' == st.(pcs := st.pcs[t := q]);
    assert PcOk(st, st.pcs[t]);
    hide CanGo, PcOk;
    forall u | 0 <= u < |st.pcs| && u != t ensures Exclusive(st.m.fds, q, st.pcs[u])
           && Exclusive(st.m.fds, st.pcs[u], q) {
      GoHolds(st, t, u, q);
      hide HoldsFd, HoldsFile;
    }
    hide Exclusive, PcsOk;
  }

  // ----- what a step leaves alone -----

  /** Only what p holds the locks of has changed, besides the number of free blocks. */
  ghost predicate Only(m: Mem, a: Spec.Afs, m': Mem, a': Spec.Afs, p: Pc) {
    && SameOwners(m.fds, m'.fds) && SameOwners(a.fds, a'.fds) && SameOwners(m.fds, a.fds)
    && m'.files.Keys == m.files.Keys && a'.inodes.Keys == a.inodes.Keys
    && (forall i | 0 <= i < |m.fds| && !HoldsFd(m.fds, p, i) :: m'.fds[i] == m.fds[i] && a'.fds[i] == a.fds[i])
    && (forall f | f in m.files && !HoldsFile(p, f) :: m'.files[f] == m.files[f])
    && (forall f | f in a.inodes && !HoldsFile(p, f) :: a'.inodes[f] == a.inodes[f])
  }

  /** An operation under way is not disturbed by changes elsewhere. */
  lemma MovingSame(m: Mem, a: Spec.Afs, m': Mem, a': Spec.Afs, p: Pc)
    requires p.Moving? && MovingOk(m, a, p) && SameOwners(m.fds, m'.fds) && SameOwners(a.fds, a'.fds)
             && SameOwners(m.fds, a.fds)
    requires p.f in m'.files && p.f in a'.inodes && m'.files[p.f] == m.files[p.f] && a'.inodes[p.f] == a.inodes[p.f]
    requires forall i | 0 <= i < |m.fds| && HoldsFd(m.fds, p, i) :: m'.fds[i] == m.fds[i] && a'.fds[i] == a.fds[i]
    ensures MovingOk(m', a', p) && m'.fds[FdOf(p.call)] == m.fds[FdOf(p.call)]
            && Length(m', p.call, p.f) == Length(m, p.call, p.f)
  {
    var fd := FdOf(p.call);
    assert HoldsFd(m.fds, p, fd);
    hide FileIs, Spec.Overwrite;
    if p.call.Truncate? {
      forall i | 0 <= i < |m'.fds| && OfFile(m'.fds, i, p.f) ensures m'.fds[i] == m.fds[i] && a'.fds[i] == a.fds[i] {
        assert HoldsFd(m.fds, p, i);
      }
    }
    hide SameOwners;
  }

  /** Other threads' knowledge survives a step. */
  lemma OthersOk(st: Sys, t: nat, st': Sys, u: nat)
    requires LocksOk(st) && PcsOk(st) && t < |st.pcs| && u < |st.pcs| && t != u
    requires Only(st.m, st.a, st'.m, st'.a, st.pcs[t]) && st.hist <= st'.hist
    ensures PcOk(st', st.pcs[u])
  {
    var p := st.pcs[u];
    assert PcOk(st, p) && Exclusive(st.m.fds, st.pcs[t], p);
    if p.Moving? {
      assert HoldsFile(p, p.f);
      forall i | 0 <= i < |st.m.fds| && HoldsFd(st.m.fds, p, i) ensures !HoldsFd(st.m.fds, st.pcs[t], i) {
      }
      MovingSame(st.m, st.a, st'.m, st'.a, p);
    }
    hide LocksOk, PcsOk, MovingOk, HoldsFd, HoldsFile;
  }

  lemma StepPcs(st: Sys, t: nat, st': Sys, q: Pc)
    requires LocksOk(st) && PcsOk(st) && t < |st.pcs| && st'.pcs == st.pcs[t := q]
    requires Only(st.m, st.a, st'.m, st'.a, st.pcs[t]) && st.hist <= st'.hist && PcOk(st', q)
    ensures PcsOk(st')
  {
    forall u | 0 <= u < |st.pcs| && u != t ensures PcOk(st', st.pcs[u]) {
      OthersOk(st, t, st', u);
    }
    hide PcOk, Only, LocksOk;
  }

  /** What the thread held shows the abstract state, or is still under way. */
  ghost predicate OwnPart(st': Sys, p: Pc, q: Pc, fds: seq<Spec.Ofd>)
    requires |st'.m.fds| == |st'.a.fds| && st'.m.files.Keys == st'.a.inodes.Keys
  {
    && (forall i | 0 <= i < |st'.m.fds| && HoldsFd(fds, p, i) ::
         (q.Moving? && HoldsFd(st'.m.fds, q, i)) || st'.m.fds[i] == st'.a.fds[i])
    && (forall f | f in st'.m.files && HoldsFile(p, f) ::
         (q.Moving? && q.f == f) || FileIs(st'.m.files[f], st'.a.inodes[f]))
  }

  lemma StepMem(st: Sys, t: nat, st': Sys, q: Pc)
    requires MemOk(st) && t < |st.pcs| && st'.pcs == st.pcs[t := q] && Only(st.m, st.a, st'.m, st'.a, st.pcs[t])
    requires st'.m.avail == st'.a.avail && OwnPart(st', st.pcs[t], q, st.m.fds)
    ensures MemOk(st')
  {
    var p := st.pcs[t];
    forall i | 0 <= i < LIMIT ensures Busy(st', i) || st'.m.fds[i] == st'.a.fds[i] {
      BusyOn(st, t, st', q, i);
    }
    forall f | f in st'.m.files ensures BusyFile(st', f) || FileIs(st'.m.files[f], st'.a.inodes[f]) {
      BusyFileOn(st, t, st', q, f);
    }
    hide Only, OwnPart, Busy, BusyFile, FileIs;
    assert SameOwners(st'.m.fds, st'.a.fds) by { OwnersOn(st, st', p); }
  }

  lemma OwnersOn(st: Sys, st': Sys, p: Pc)
    requires Only(st.m, st.a, st'.m, st'.a, p)
    ensures SameOwners(st'.m.fds, st'.a.fds)
  {
    hide HoldsFd, HoldsFile;
  }

  lemma BusyOn(st: Sys, t: nat, st': Sys, q: Pc, i: nat)
    requires MemOk(st) && t < |st.pcs| && st'.pcs == st.pcs[t := q] && Only(st.m, st.a, st'.m, st'.a, st.pcs[t])
             && i < LIMIT
    requires OwnPart(st', st.pcs[t], q, st.m.fds)
    ensures Busy(st', i) || st'.m.fds[i] == st'.a.fds[i]
  {
    hide FileIs, BusyFile, HoldsFile;
    if HoldsFd(st.m.fds, st.pcs[t], i) {
      if q.Moving? && HoldsFd(st'.m.fds, q, i) {
        assert st'.pcs[t] == q;
      }
    } else if Busy(st, i) {
      var u :| 0 <= u < |st.pcs| && st.pcs[u].Moving? && HoldsFd(st.m.fds, st.pcs[u], i);
      assert st'.pcs[u] == st.pcs[u];
      SameHolds(st.m.fds, st'.m.fds, st.pcs[u], i);
    }
    hide HoldsFd, SameOwners;
  }

  lemma BusyFileOn(st: Sys, t: nat, st': Sys, q: Pc, f: nat)
    requires MemOk(st) && t < |st.pcs| && st'.pcs == st.pcs[t := q] && Only(st.m, st.a, st'.m, st'.a, st.pcs[t])
             && f in st'.m.files
    requires OwnPart(st', st.pcs[t], q, st.m.fds)
    ensures BusyFile(st', f) || FileIs(st'.m.files[f], st'.a.inodes[f])
  {
    hide FileIs, Busy, HoldsFd, SameOwners;
    if HoldsFile(st.pcs[t], f) {
      if q.Moving? && q.f == f {
        assert st'.pcs[t] == q;
      }
    } else if BusyFile(st, f) {
      var u :| 0 <= u < |st.pcs| && st.pcs[u].Moving? && st.pcs[u].f == f;
      assert st'.pcs[u] == st.pcs[u];
    }
  }
}
