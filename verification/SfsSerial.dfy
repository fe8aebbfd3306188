/** Reading, writing, seeking and truncating by any number of threads at once: every
    interleaving answers like some order of whole operations. */
module SfsSerial {
  import opened SfsContents
  import opened SfsRuns
  import Spec = SfsSpec
  import Proofs = SfsSpecProofs

  const LIMIT: nat := Spec.OPEN_FILE_LIMIT

  /** All bytes of a file's blocks, and its size. */
  datatype File = File(raw: seq<Byte>, size: nat)

  /** The memory the threads share: positions, files, and the number of free blocks. */
  datatype Mem = Mem(fds: seq<Spec.Ofd>, files: map<nat, File>, avail: nat)

  /** Where a thread is.  `from` is the number of operations that had taken effect when it
      was called; `at` is its own number once it has taken effect.  Moving threads copy or
      clear bytes, done of them so far, and have read got. */
  datatype Pc =
    | Idle
    | Called(call: Call, from: nat)
    | HasFd(call: Call, from: nat, f: nat)
    | Gather(call: Call, from: nat, f: nat, i: nat)
    | HasFile(call: Call, from: nat, f: nat)
    | Moving(call: Call, from: nat, f: nat, at: nat, done: nat, got: seq<Byte>)
    | Returned(call: Call, from: nat, at: nat, reply: Reply)

  /** a and hist are bookkeeping: the operations that have taken effect, in order, with
      the replies the abstract file system gives, and its state after them. */
  datatype Sys = Sys(m: Mem, pcs: seq<Pc>, a: Spec.Afs, hist: seq<(Call, Reply)>)

  predicate DataCall(c: Call) {
    c.Read? || c.Write? || c.Truncate? || c.Seek? || c.Getpos? || c.Fstat?
  }

  function FdOf(c: Call): int
    requires DataCall(c)
  {
    match c
    case Read(fd, _) => fd
    case Write(fd, _) => fd
    case Truncate(fd, _) => fd
    case Seek(fd, _) => fd
    case Getpos(fd) => fd
    case Fstat(fd) => fd
  }

  predicate OfFile(fds: seq<Spec.Ofd>, i: int, f: nat) {
    0 <= i < |fds| && fds[i].At? && fds[i].fid == f
  }

  predicate Live(fds: seq<Spec.Ofd>, fd: int) {
    0 <= fd < |fds| && fds[fd].At?
  }

  // ----- locks -----

  /** The thread holds the lock of descriptor i. */
  predicate HoldsFd(fds: seq<Spec.Ofd>, p: Pc, i: int) {
    match p
    case HasFd(c, _, _) => DataCall(c) && i == FdOf(c)
    case Gather(_, _, f, n) => i < n && OfFile(fds, i, f)
    case HasFile(c, _, f) => DataCall(c) && if c.Truncate? then OfFile(fds, i, f) else i == FdOf(c)
    case Moving(c, _, f, _, _, _) => DataCall(c) && if c.Truncate? then OfFile(fds, i, f) else i == FdOf(c)
    case _ => false
  }

  predicate HoldsFile(p: Pc, f: nat) {
    (p.HasFile? || p.Moving?) && p.f == f
  }

  ghost predicate FdFree(st: Sys, t: nat, i: int) {
    forall u | 0 <= u < |st.pcs| && u != t :: !HoldsFd(st.m.fds, st.pcs[u], i)
  }

  ghost predicate FileFree(st: Sys, t: nat, f: nat) {
    forall u | 0 <= u < |st.pcs| && u != t :: !HoldsFile(st.pcs[u], f)
  }

  // ----- steps that only take locks -----

  ghost predicate CanGo(st: Sys, t: nat, p: Pc, q: Pc) {
    match p
    case Idle => q.Called? && DataCall(q.call) && q.from == |st.hist|
    case Called(c, from) =>
      && DataCall(c) && Live(st.m.fds, FdOf(c))
      && if c.Truncate? then c.length <= Spec.SFS_MAX_FILE_SIZE && q == Gather(c, from, st.m.fds[FdOf(c)].fid, 0)
         else FdFree(st, t, FdOf(c)) && q == HasFd(c, from, st.m.fds[FdOf(c)].fid)
    case HasFd(c, from, f) => !c.Getpos? && FileFree(st, t, f) && q == HasFile(c, from, f)
    case Gather(c, from, f, i) =>
      if i == LIMIT then FileFree(st, t, f) && q == HasFile(c, from, f)
      else (OfFile(st.m.fds, i, f) ==> FdFree(st, t, i)) && q == Gather(c, from, f, i + 1)
    case Returned(_, _, _, _) => q == Idle
    case _ => false
  }

  ghost predicate Go(st: Sys, t: nat, st': Sys)
    requires t < |st.pcs|
  {
    exists q :: CanGo(st, t, st.pcs[t], q) && st' == st.(pcs := st.pcs[t := q])
  }

  // ----- taking effect -----

  /** The bookkeeping when an operation takes effect. */
  ghost predicate TakesEffect(st: Sys, call: Call, st': Sys) {
    && Spec.Inv(st.a)
    && st'.a == Step(st.a, call).0 && st'.hist == st.hist + [(call, Step(st.a, call).1)]
  }

  /** Operations that are over as soon as they take effect; to is where a seek goes. */
  ghost predicate Answer(st: Sys, t: nat, st': Sys)
    requires t < |st.pcs|
  {
    exists reply, m' ::
      && Answers(st, t, reply, m') && TakesEffect(st, st.pcs[t].call, st') && st'.m == m'
      && st'.pcs == st.pcs[t := Returned(st.pcs[t].call, st.pcs[t].from, |st.hist|, reply)]
  }

  /** The reply as the code computes it, and the memory after it. */
  ghost predicate Answers(st: Sys, t: nat, reply: Reply, m': Mem)
    requires t < |st.pcs|
  {
    match st.pcs[t]
    case Called(c, _) =>
      && DataCall(c) && m' == st.m
      && if !Live(st.m.fds, FdOf(c)) then reply == BadFd(c)
         && (0 <= FdOf(c) < |st.m.fds| && !c.Truncate? ==> FdFree(st, t, FdOf(c)))
         else c.Truncate? && c.length > Spec.SFS_MAX_FILE_SIZE && reply == Code(-Spec.EFBIG)
    case HasFd(c, _, f) => c.Getpos? && Live(st.m.fds, c.fd) && m' == st.m && reply == Code(st.m.fds[c.fd].pos)
    case HasFile(c, _, f) => f in st.m.files && DataCall(c) && Live(st.m.fds, FdOf(c))
         && AnswersHere(st.m, c, f, reply, m')
    case _ => false
  }

  function BadFd(c: Call): Reply {
    Code(-Spec.EBADF)
  }

  /** Blocks that a file of n bytes in its blocks lacks for size bytes. */
  function Lacks(n: nat, size: nat): nat {
    if Spec.BlocksFor(size) * BLOCK_DATA_SIZE > n then Spec.BlocksFor(size) - n / BLOCK_DATA_SIZE else 0
  }

  predicate AnswersHere(m: Mem, c: Call, f: nat, reply: Reply, m': Mem)
    requires f in m.files && DataCall(c) && Live(m.fds, FdOf(c))
  {
    var fd, pos, file := FdOf(c), m.fds[FdOf(c)].pos, m.files[f];
    match c
    case Fstat(_) => m' == m && reply == Code(file.size)
    case Seek(_, delta) =>
      var to := if pos + delta < 0 then 0 else Spec.Min(pos + delta, file.size);
      m' == m.(fds := m.fds[fd := Spec.At(f, to)]) && reply == Code(to)
    case Write(_, buf) =>
      && m' == m
      && if pos + |buf| > Spec.SFS_MAX_FILE_SIZE then reply == Code(-Spec.EFBIG)
         else if |buf| == 0 then reply == Code(0)
         else Lacks(|file.raw|, pos + |buf|) > m.avail && reply == Code(-Spec.ENOSPC)
    case Truncate(_, length) =>
      && m' == m
      && if length == file.size then reply == Code(0)
         else Lacks(|file.raw|, length) > m.avail && reply == Code(-Spec.ENOSPC)
    case _ => false
  }

  /** Operations that take effect and then move bytes.  Blocks that a file takes hold
      whatever was in them. */
  ghost predicate Begin(st: Sys, t: nat, st': Sys)
    requires t < |st.pcs|
  {
    && st.pcs[t].HasFile? && st.pcs[t].f in st.m.files && DataCall(st.pcs[t].call)
    && Live(st.m.fds, FdOf(st.pcs[t].call))
    && TakesEffect(st, st.pcs[t].call, st')
    && st'.pcs == st.pcs[t := Moving(st.pcs[t].call, st.pcs[t].from, st.pcs[t].f, |st.hist|, 0, [])]
    && Begins(st.m, st.pcs[t].call, st.pcs[t].f, st'.m)
  }

  ghost predicate Begins(m: Mem, c: Call, f: nat, m': Mem)
    requires f in m.files && DataCall(c) && Live(m.fds, FdOf(c))
  {
    var pos, file := m.fds[FdOf(c)].pos, m.files[f];
    match c
    case Read(_, _) => m' == m
    case Write(_, buf) =>
      && pos + |buf| <= Spec.SFS_MAX_FILE_SIZE && |buf| > 0 && Grows(m, f, Lacks(|file.raw|, pos + |buf|), m')
    case Truncate(_, length) =>
      && length != file.size
      && if Spec.BlocksFor(length) * BLOCK_DATA_SIZE < |file.raw| then
           m' == m.(files := m.files[f := File(file.raw[..Spec.BlocksFor(length) * BLOCK_DATA_SIZE], file.size)],
                    avail := m.avail + |file.raw| / BLOCK_DATA_SIZE - Spec.BlocksFor(length))
         else Grows(m, f, Lacks(|file.raw|, length), m')
    case _ => false
  }

  /** File f takes n blocks from the free ones. */
  ghost predicate Grows(m: Mem, f: nat, n: nat, m': Mem)
    requires f in m.files
  {
    n <= m.avail && exists junk: seq<Byte> :: |junk| == n * BLOCK_DATA_SIZE && m' == Grown(m, f, junk, n)
  }

  function Grown(m: Mem, f: nat, junk: seq<Byte>, n: nat): Mem
    requires f in m.files && n <= m.avail
  {
    m.(files := m.files[f := File(m.files[f].raw + junk, m.files[f].size)], avail := m.avail - n)
  }

  // ----- moving bytes -----

  /** How many bytes the operation moves. */
  function Length(m: Mem, c: Call, f: nat): int
    requires f in m.files && DataCall(c) && Live(m.fds, FdOf(c))
  {
    match c
    case Read(fd, len) => Spec.Min(m.files[f].size - m.fds[fd].pos, len)
    case Write(_, buf) => |buf|
    case Truncate(_, length) => if length > m.files[f].size then length - m.files[f].size else |m.files[f].raw| - length
    case _ => 0
  }

  /** Where in the file they are. */
  function Start(m: Mem, c: Call, f: nat): nat
    requires f in m.files && DataCall(c) && Live(m.fds, FdOf(c))
  {
    match c
    case Truncate(_, length) => if length > m.files[f].size then m.files[f].size else length
    case _ => m.fds[FdOf(c)].pos
  }

  /** The next n bytes of the operation are moved. */
  ghost predicate Move(st: Sys, t: nat, st': Sys)
    requires t < |st.pcs|
  {
    && st.pcs[t].Moving? && st.pcs[t].f in st.m.files && DataCall(st.pcs[t].call)
    && Live(st.m.fds, FdOf(st.pcs[t].call))
    && exists n: nat :: MoveBy(st, t, n, st')
  }

  ghost predicate MoveBy(st: Sys, t: nat, n: nat, st': Sys)
    requires t < |st.pcs| && st.pcs[t].Moving? && st.pcs[t].f in st.m.files && DataCall(st.pcs[t].call)
             && Live(st.m.fds, FdOf(st.pcs[t].call))
  {
    var p, c, f := st.pcs[t], st.pcs[t].call, st.pcs[t].f;
    var file, from := st.m.files[f], Start(st.m, c, f) + p.done;
    && p.done + n <= Length(st.m, c, f) && from + n <= |file.raw|
    && (if c.Read? then st' == st.(pcs := st.pcs[t := p.(done := p.done + n, got := p.got + file.raw[from..from + n])])
        else (c.Write? ==> p.done + n <= |c.buf|) &&
             var x := if c.Write? then c.buf[p.done..p.done + n] else Zeros(n);
             st' == st.(m := st.m.(files := st.m.files[f := File(Splice(file.raw, from, x), file.size)]),
                        pcs := st.pcs[t := p.(done := p.done + n)]))
  }

  /** The last stores, before the locks are released. */
  ghost predicate Finish(st: Sys, t: nat, st': Sys)
    requires t < |st.pcs|
  {
    && st.pcs[t].Moving? && st.pcs[t].f in st.m.files && DataCall(st.pcs[t].call)
    && Live(st.m.fds, FdOf(st.pcs[t].call))
    && var p, c, f := st.pcs[t], st.pcs[t].call, st.pcs[t].f;
       var file, fd := st.m.files[f], FdOf(c);
       && p.done == Length(st.m, c, f)
       && st' == st.(pcs := st.pcs[t := Returned(c, p.from, p.at, if c.Read? then Reply(p.done, p.got, 0, "")
                else if c.Write? then Code(p.done) else Code(0))], m := Stored(st.m, c, f))
  }

  function Stored(m: Mem, c: Call, f: nat): Mem
    requires f in m.files && DataCall(c) && Live(m.fds, FdOf(c))
  {
    var file, fd := m.files[f], FdOf(c);
    match c
    case Read(_, _) => if Length(m, c, f) < 0 then m
         else m.(fds := m.fds[fd := Spec.At(f, m.fds[fd].pos + Length(m, c, f))])
    case Write(_, buf) =>
      var end := m.fds[fd].pos + |buf|;
      m.(files := m.files[f := File(file.raw, if end > file.size then end else file.size)],
            fds := m.fds[fd := Spec.At(f, end)])
    case Truncate(_, length) =>
      m.(files := m.files[f := File(file.raw, length)], fds := if length < file.size then Spec.Clamp(m.fds, f, length)
            else m.fds)
    case _ => m
  }

  ghost predicate Next(st: Sys, t: nat, st': Sys) {
    t < |st.pcs| && (Go(st, t, st') || Answer(st, t, st') || Begin(st, t, st') || Move(st, t, st')
          || Finish(st, t, st'))
  }
}
