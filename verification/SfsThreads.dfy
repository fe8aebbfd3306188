/** Any number of threads in the file system, interleaved at lock boundaries: who
    holds which lock, what each step does to blocks and tables, and what all
    interleavings keep. */
module SfsThreads {
  import opened SfsChains
  import opened SfsRep

  /** A slot of openFileTable: reference count and file. */
  datatype Entry = NoEntry | Entry(refs: nat, fid: nat)

  /** Where a thread is.  A name with Want is waiting for a lock. */
  datatype Pc =
    | Idle
    // read, write, seek, fstat, getpos: a descriptor lock, then a file lock
    | WantFd(fd: nat)
    | HoldFd(fd: nat, e: nat)
    | HoldFile(fd: nat, e: nat)
    | Flying(fd: nat, e: nat)
    | DoneFd(fd: nat, e: nat)
    // close: the table, then a descriptor lock
    | WantTable(fd: nat, closing: bool)
    | TableClose(fd: nat)
    | CloseFd(fd: nat)
    // truncate: the table, all descriptor locks of the file, the file lock
    | Trunc(e: nat, i: nat)
    | TruncFile(e: nat)
    | TruncFlying(e: nat)
    // open, remove, rename: directory and table
    | WantDir
    | Dir
    | Names
    | NamesWant(e: nat)
    | NamesPeek(e: nat)
    | NamesUnlink(e: nat)
    | NamesFlying
    | Publish(fd: nat, e: nat)
    // list: directory and table, shared
    | ListWantDir
    | ListDir
    | Listing
    | ListWant(e: nat)
    | ListPeek(e: nat)

  /** h are the block headers and s their owners; dir is the set of files in the
      directory; next is the first unused file number. */
  datatype Sys = Sys(h: seq<Hdr>, s: Store, descs: seq<Desc>, files: seq<Entry>, dir: set<nat>, next: nat, pcs: seq<Pc>)

  // ----- who holds which lock -----

  predicate DirWrite(p: Pc) {
    p.Dir? || p.Names? || p.NamesWant? || p.NamesPeek? || p.NamesUnlink? || p.NamesFlying? || p.Publish?
  }

  predicate DirRead(p: Pc) {
    p.ListDir? || p.Listing? || p.ListWant? || p.ListPeek?
  }

  predicate TableWrite(p: Pc) {
    || p.TableClose? || p.CloseFd? || p.Trunc? || p.TruncFile? || p.TruncFlying?
    || p.Names? || p.NamesWant? || p.NamesPeek? || p.NamesUnlink? || p.NamesFlying? || p.Publish?
  }

  predicate TableRead(p: Pc) {
    p.Listing? || p.ListWant? || p.ListPeek?
  }

  predicate IsDescOf(descs: seq<Desc>, fd: nat, e: nat) {
    fd < |descs| && descs[fd].Desc? && descs[fd].file == e
  }

  predicate FdLock(descs: seq<Desc>, p: Pc, fd: nat) {
    match p
    case HoldFd(f, _) => f == fd
    case HoldFile(f, _) => f == fd
    case Flying(f, _) => f == fd
    case DoneFd(f, _) => f == fd
    case CloseFd(f) => f == fd
    case Trunc(e, i) => fd < i && IsDescOf(descs, fd, e)
    case TruncFile(e) => IsDescOf(descs, fd, e)
    case TruncFlying(e) => IsDescOf(descs, fd, e)
    case _ => false
  }

  predicate FileLock(p: Pc, e: nat) {
    match p
    case HoldFile(_, f) => f == e
    case Flying(_, f) => f == e
    case TruncFile(f) => f == e
    case TruncFlying(f) => f == e
    case NamesPeek(f) => f == e
    case ListPeek(f) => f == e
    case _ => false
  }

  /** Two threads' locks do not exclude each other. */
  ghost predicate Compatible(descs: seq<Desc>, p: Pc, q: Pc) {
    && !(DirWrite(p) && (DirWrite(q) || DirRead(q)))
    && !(TableWrite(p) && (TableWrite(q) || TableRead(q)))
    && (forall fd :: !(FdLock(descs, p, fd) && FdLock(descs, q, fd)))
    && (forall e :: !(FileLock(p, e) && FileLock(q, e)))
  }

  // ----- acquiring and releasing locks -----

  ghost predicate FdFree(st: Sys, t: nat, fd: nat) {
    forall u | 0 <= u < |st.pcs| && u != t :: !FdLock(st.descs, st.pcs[u], fd)
  }

  ghost predicate FileFree(st: Sys, t: nat, e: nat) {
    forall u | 0 <= u < |st.pcs| && u != t :: !FileLock(st.pcs[u], e)
  }

  ghost predicate TableFree(st: Sys, t: nat) {
    forall u | 0 <= u < |st.pcs| && u != t :: !TableWrite(st.pcs[u]) && !TableRead(st.pcs[u])
  }

  ghost predicate DirFree(st: Sys, t: nat) {
    forall u | 0 <= u < |st.pcs| && u != t :: !DirWrite(st.pcs[u]) && !DirRead(st.pcs[u])
  }

  predicate IsEntry(st: Sys, e: nat) {
    e < |st.files| && st.files[e].Entry?
  }

  /** Steps that change nothing but where the thread is, with the guards of the
      locks they acquire. */
  ghost predicate CanGo(st: Sys, t: nat, p: Pc, q: Pc) {
    match p
    case Idle =>
      || (q.WantFd? && q.fd < LIMIT) || (q.WantTable? && q.fd < LIMIT) || q == WantDir || q == ListWantDir
    case WantFd(fd) =>
      FdFree(st, t, fd) && fd < |st.descs| &&
      if st.descs[fd].NoDesc? then q == Idle
      else q == HoldFd(fd, st.descs[fd].file) || q == DoneFd(fd, st.descs[fd].file)
    case HoldFd(fd, e) => FileFree(st, t, e) && q == HoldFile(fd, e)
    case HoldFile(fd, e) => q == DoneFd(fd, e)
    case DoneFd(_, _) => q == Idle
    case WantTable(fd, closing) =>
      TableFree(st, t) && fd < |st.descs| &&
      if closing then q == TableClose(fd)
      else if st.descs[fd].NoDesc? then q == Idle else q == Trunc(st.descs[fd].file, 0) || q == Idle
    case TableClose(fd) => FdFree(st, t, fd) && q == CloseFd(fd)
    case Trunc(e, i) =>
      if i == LIMIT then FileFree(st, t, e) && q == TruncFile(e)
      else q == Trunc(e, i + 1) && (IsDescOf(st.descs, i, e) ==> FdFree(st, t, i))
    case TruncFile(_) => q == Idle
    case WantDir => DirFree(st, t) && q == Dir
    case Dir => TableFree(st, t) && q == Names
    case Names =>
      || q == Idle || (q.NamesWant? && IsEntry(st, q.e))
      || (q.NamesUnlink? && IsEntry(st, q.e) && st.files[q.e].fid in st.dir)
    case NamesWant(e) => FileFree(st, t, e) && q == NamesPeek(e)
    case NamesPeek(_) => q == Names
    case ListWantDir => (forall u | 0 <= u < |st.pcs| && u != t :: !DirWrite(st.pcs[u])) && q == ListDir
    case ListDir => (forall u | 0 <= u < |st.pcs| && u != t :: !TableWrite(st.pcs[u])) && q == Listing
    case Listing => q == Idle || (q.ListWant? && IsEntry(st, q.e))
    case ListWant(e) => FileFree(st, t, e) && q == ListPeek(e)
    case ListPeek(_) => q == Listing
    case _ => false
  }

  ghost predicate Go(st: Sys, t: nat, st': Sys)
    requires t < |st.pcs|
  {
    exists q :: CanGo(st, t, st.pcs[t], q) && st' == st.(pcs := st.pcs[t := q])
  }

  // ----- steps on blocks -----

  /** The chain of a thread that has taken blocks and not linked them yet. */
  function FlightOf(t: nat, p: Pc): Owner {
    Flight(t, if p.NamesFlying? then DirTag else FileTag)
  }

  predicate IsFlying(p: Pc) {
    p.Flying? || p.TruncFlying? || p.NamesFlying?
  }

  /** allocateBlocks takes n blocks off the free list. */
  ghost function TakeBlocks(s: Store, n: nat, o: Owner): Store
    requires FreeList in s.lists && n <= |s.lists[FreeList]|
  {
    Rename(Split(s, FreeList, n, Transit(FreeTag), true), Transit(FreeTag), o)
  }

  /** Where a thread is after taking blocks. */
  predicate TakesOff(p: Pc, q: Pc) {
    match p
    case HoldFile(fd, e) => q == Flying(fd, e)
    case TruncFile(e) => q == TruncFlying(e)
    case Names => q == NamesFlying
    case _ => false
  }

  ghost predicate Take(st: Sys, t: nat, st': Sys)
    requires t < |st.pcs|
  {
    exists q, n: nat :: TakeAs(st, t, q, n, st')
  }

  ghost predicate TakeAs(st: Sys, t: nat, q: Pc, n: nat, st': Sys)
    requires t < |st.pcs|
  {
    && TakesOff(st.pcs[t], q) && FreeList in st.s.lists && 0 < n <= |st.s.lists[FreeList]|
    && InRange(st.s.lists[FreeList], |st.h|)
    && st' == st.(h := AllocHdrs(st.h, st.s.lists[FreeList], n, TagOf(FlightOf(t, q))),
         s := TakeBlocks(st.s, n, FlightOf(t, q)), pcs := st.pcs[t := q])
  }

  /** Where a thread's chain in flight belongs. */
  function Target(st: Sys, p: Pc): Owner {
    match p
    case Flying(_, e) => if IsEntry(st, e) then FileChain(st.files[e].fid) else Nobody
    case TruncFlying(e) => if IsEntry(st, e) then FileChain(st.files[e].fid) else Nobody
    case _ => DirChain
  }

  ghost predicate Link(st: Sys, t: nat, st': Sys)
    requires t < |st.pcs|
  {
    var p := st.pcs[t];
    var o, f := Target(st, p), FlightOf(t, p);
    && IsFlying(p) && o in st.s.lists && f in st.s.lists && o != f
    && InRange(st.s.lists[o], |st.h|) && InRange(st.s.lists[f], |st.h|)
    && st' == st.(h := Attach(st.h, st.s.lists[o], st.s.lists[f]), s := Merge(st.s, o, f, false),
                  pcs := st.pcs[t := match p
                                     case Flying(fd, e) => HoldFile(fd, e)
                                     case TruncFlying(e) => TruncFile(e)
                                     case _ => Names])
  }

  /** freeBlocks on the tail of the truncated file. */
  ghost predicate Cut(st: Sys, t: nat, st': Sys)
    requires t < |st.pcs|
  {
    && st.pcs[t].TruncFile? && IsEntry(st, st.pcs[t].e)
    && exists k: nat :: CutAs(st, FileChain(st.files[st.pcs[t].e].fid), k, st')
  }

  ghost predicate CutAs(st: Sys, o: Owner, k: nat, st': Sys) {
    && o.FileChain? && o in st.s.lists && FreeList in st.s.lists && k < |st.s.lists[o]|
    && InRange(st.s.lists[o], |st.h|) && InRange(st.s.lists[FreeList], |st.h|)
    && st' == st.(h := FreeHdrs(st.h, st.s.lists[o], k, st.s.lists[FreeList]), s := FreeStore(st.s, o, k))
  }

  // ----- steps on the tables -----

  /** The blocks of a file that nothing refers to any more. */
  ghost function Released(st: Sys, f: nat): Sys
    requires FileChain(f) in st.s.lists && FreeList in st.s.lists && InRange(st.s.lists[FileChain(f)], |st.h|)
             && InRange(st.s.lists[FreeList], |st.h|)
  {
    var o := FileChain(f);
    if st.s.lists[o] == [] then st.(s := Drop(st.s, o))
    else st.(h := FreeHdrs(st.h, st.s.lists[o], 0, st.s.lists[FreeList]), s := Drop(FreeStore(st.s, o, 0), o))
  }

  ghost predicate Releasable(st: Sys, f: nat) {
    FileChain(f) in st.s.lists && FreeList in st.s.lists && InRange(st.s.lists[FileChain(f)], |st.h|)
        && InRange(st.s.lists[FreeList], |st.h|)
  }

  ghost predicate Close(st: Sys, t: nat, st': Sys)
    requires t < |st.pcs|
  {
    && st.pcs[t].CloseFd? && st.pcs[t].fd < |st.descs|
    && var fd := st.pcs[t].fd;
       if st.descs[fd].NoDesc? then st' == st.(pcs := st.pcs[t := Idle])
       else
         var e := st.descs[fd].file;
         IsEntry(st, e) && st.files[e].refs > 0 &&
         var a := st.(descs := st.descs[fd := NoDesc], pcs := st.pcs[t := Idle]);
         if st.files[e].refs > 1 then st' == a.(files := st.files[e := st.files[e].(refs := st.files[e].refs - 1)])
         else
           var b := a.(files := st.files[e := NoEntry]);
           if st.files[e].fid in st.dir then st' == b
           else Releasable(b, st.files[e].fid) && st' == Released(b, st.files[e].fid)
  }

  /** A new empty file in the directory. */
  ghost predicate Create(st: Sys, t: nat, st': Sys)
    requires t < |st.pcs|
  {
    st.pcs[t].Names? && st' == st.(s := AddEmpty(st.s, FileChain(st.next)), dir := st.dir + {st.next},
          next := st.next + 1)
  }

  /** Count one more descriptor for a file of the directory; it is not visible yet. */
  ghost predicate Enter(st: Sys, t: nat, st': Sys)
    requires t < |st.pcs|
  {
    && st.pcs[t].Names?
    && exists fd: nat, e: nat, f: nat :: EnterAs(st, t, fd, e, f, st')
  }

  ghost predicate EnterAs(st: Sys, t: nat, fd: nat, e: nat, f: nat, st': Sys)
    requires t < |st.pcs|
  {
    && fd < |st.descs| && st.descs[fd].NoDesc? && f in st.dir && e < |st.files|
    && (if st.files[e].Entry? then st.files[e].fid == f else NotOpen(st, f))
    && st' == st.(files := st.files[e := Entry(if st.files[e].Entry? then st.files[e].refs + 1 else 1, f)],
         pcs := st.pcs[t := Publish(fd, e)])
  }

  ghost predicate PublishFd(st: Sys, t: nat, st': Sys)
    requires t < |st.pcs|
  {
    && st.pcs[t].Publish? && st.pcs[t].fd < |st.descs| && FdFree(st, t, st.pcs[t].fd)
    && st' == st.(descs := st.descs[st.pcs[t].fd := Desc(st.pcs[t].e, 0)], pcs := st.pcs[t := Idle])
  }

  ghost predicate NotOpen(st: Sys, f: nat) {
    forall e | 0 <= e < |st.files| :: st.files[e].Entry? ==> st.files[e].fid != f
  }

  /** Remove a name: an open file keeps its blocks, any other loses them. */
  ghost predicate Unlink(st: Sys, t: nat, st': Sys)
    requires t < |st.pcs|
  {
    || (st.pcs[t].NamesUnlink? && IsEntry(st, st.pcs[t].e) && FileFree(st, t, st.pcs[t].e)
        && st' == st.(dir := st.dir - {st.files[st.pcs[t].e].fid}, pcs := st.pcs[t := Names]))
    || (st.pcs[t].Names? && exists f ::
         f in st.dir && NotOpen(st, f) && Releasable(st, f) && st' == Released(st.(dir := st.dir - {f}), f))
  }

  ghost predicate Step(st: Sys, t: nat, st': Sys) {
    t < |st.pcs| && (Go(st, t, st') || Take(st, t, st') || Link(st, t, st') || Cut(st, t, st') || Close(st, t, st')
          || Create(st, t, st') || Enter(st, t, st') || PublishFd(st, t, st') || Unlink(st, t, st'))
  }

  // ----- invariants -----

  ghost predicate LocksOk(st: Sys) {
    forall t, u | 0 <= t < |st.pcs| && 0 <= u < |st.pcs| && t != u :: Compatible(st.descs, st.pcs[t], st.pcs[u])
  }

  /** What a thread knows about the tables from where it is. */
  predicate PcOk(st: Sys, p: Pc) {
    match p
    case WantFd(fd) => fd < LIMIT
    case HoldFd(fd, e) => IsDescOf(st.descs, fd, e) && IsEntry(st, e)
    case HoldFile(fd, e) => IsDescOf(st.descs, fd, e) && IsEntry(st, e)
    case Flying(fd, e) => IsDescOf(st.descs, fd, e) && IsEntry(st, e)
    case DoneFd(fd, e) => IsDescOf(st.descs, fd, e) && IsEntry(st, e)
    case WantTable(fd, _) => fd < LIMIT
    case TableClose(fd) => fd < LIMIT
    case CloseFd(fd) => fd < LIMIT
    case Trunc(e, i) => i <= LIMIT && IsEntry(st, e)
    case TruncFile(e) => IsEntry(st, e)
    case TruncFlying(e) => IsEntry(st, e)
    case NamesWant(e) => IsEntry(st, e)
    case NamesPeek(e) => IsEntry(st, e)
    case NamesUnlink(e) => IsEntry(st, e) && st.files[e].fid in st.dir
    case Publish(fd, e) => fd < |st.descs| && st.descs[fd].NoDesc? && IsEntry(st, e)
    case ListWant(e) => IsEntry(st, e)
    case ListPeek(e) => IsEntry(st, e)
    case _ => true
  }

  ghost predicate PcsOk(st: Sys) {
    forall t | 0 <= t < |st.pcs| :: PcOk(st, st.pcs[t])
  }

  ghost predicate Publishing(pcs: seq<Pc>, e: nat) {
    exists t | 0 <= t < |pcs| :: pcs[t].Publish? && pcs[t].e == e
  }

  /** Reference counts are the numbers of descriptors, counting the one about to be
      published; open files have different numbers. */
  ghost predicate TablesOk(st: Sys) {
    && |st.descs| == |st.files| == LIMIT
    && (forall fd | 0 <= fd < LIMIT :: st.descs[fd].Desc? ==> IsEntry(st, st.descs[fd].file))
    && (forall e | 0 <= e < LIMIT :: st.files[e].Entry? ==> EntryRefs(st, e))
    && (forall e, f | 0 <= e < f < LIMIT :: st.files[e].Entry? && st.files[f].Entry?
         ==> st.files[e].fid != st.files[f].fid)
    && (forall e | 0 <= e < LIMIT :: st.files[e].Entry? ==> st.files[e].fid < st.next)
    && (forall f | f in st.dir :: f < st.next)
  }

  ghost predicate EntryRefs(st: Sys, e: nat)
    requires e < |st.files| && st.files[e].Entry?
  {
    st.files[e].refs == Refs(st.descs, e) + (if Publishing(st.pcs, e) then 1 else 0) > 0
  }

  ghost predicate Known(st: Sys, f: nat) {
    f in st.dir || exists e | 0 <= e < |st.files| :: st.files[e].Entry? && st.files[e].fid == f
  }

  ghost predicate OwnerOk(st: Sys, o: Owner) {
    match o
    case FreeList => true
    case DirChain => true
    case FileChain(f) => Known(st, f)
    case Flight(t, _) => t < |st.pcs| && IsFlying(st.pcs[t]) && o == FlightOf(t, st.pcs[t])
    case _ => false
  }

  /** Every block is in the free list, the directory, the chain of a file that the
      directory or the open-file table knows, or the chain one thread has in flight. */
  ghost predicate ChainsOk(st: Sys) {
    StoreOk(st.h, st.s) && Owned(st)
  }

  ghost predicate Owned(st: Sys) {
    && FreeList in st.s.lists && DirChain in st.s.lists
    && (forall o | o in st.s.lists :: OwnerOk(st, o))
    && (forall f | Known(st, f) :: FileChain(f) in st.s.lists)
    && (forall t | 0 <= t < |st.pcs| && IsFlying(st.pcs[t]) ::
         FlightOf(t, st.pcs[t]) in st.s.lists && st.s.lists[FlightOf(t, st.pcs[t])] != [])
  }

  ghost predicate Inv(st: Sys) {
    LocksOk(st) && PcsOk(st) && TablesOk(st) && ChainsOk(st)
  }
}
