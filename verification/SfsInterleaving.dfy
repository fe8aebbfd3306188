/** All interleavings: what every reachable state of the threads satisfies, what
    other threads cannot do to a thread that holds a lock, and that some thread
    with an unfinished operation can always go on. */
module SfsInterleaving {
  import opened SfsChains
  import opened SfsRep
  import opened SfsThreads
  import opened SfsThreadLocks
  import opened SfsThreadChains

  // ----- every step keeps the invariant -----

  lemma DataLocks(st: Sys, t: nat, st': Sys)
    requires Inv(st) && t < |st.pcs| && (Take(st, t, st') || Link(st, t, st') || Cut(st, t, st') || Create(st, t, st'))
    ensures LocksOk(st') && PcsOk(st') && TablesOk(st')
  {
    var q := st'.pcs[t];
    assert PcOk(st, st.pcs[t]);
    DataQuiet(st, t, st');
    hide Take, Link, Cut, Create, LocksOk, PcsOk, TablesOk, ChainsOk;
    NoMoreLocks(st, t, st', q);
    SameTables(st, st', t, q);
    QuietTables(st, st', t, q);
  }

  /** Steps on blocks: the thread's locks and knowledge stay, the tables too. */
  lemma DataQuiet(st: Sys, t: nat, st': Sys)
    requires TablesOk(st) && t < |st.pcs| && PcOk(st, st.pcs[t])
             && (Take(st, t, st') || Link(st, t, st') || Cut(st, t, st') || Create(st, t, st'))
    ensures |st'.pcs| == |st.pcs| && st'.pcs == st.pcs[t := st'.pcs[t]] && NoMore(st.descs, st.pcs[t], st'.pcs[t])
    ensures !st.pcs[t].Publish? && !st'.pcs[t].Publish? && PcOk(st', st'.pcs[t])
    ensures st'.descs == st.descs && st'.files == st.files && st.dir <= st'.dir && st.next <= st'.next
            && forall f | f in st'.dir :: f < st'.next
  {
    hide EntryRefs, FlightOf, TakeBlocks, AllocHdrs, FreeHdrs, FreeStore;
  }

  lemma TableSteps(st: Sys, t: nat, st': Sys)
    requires Inv(st) && t < |st.pcs| && (Close(st, t, st') || Enter(st, t, st') || PublishFd(st, t, st')
               || Unlink(st, t, st'))
    ensures LocksOk(st') && PcsOk(st') && TablesOk(st')
  {
    hide LocksOk, PcsOk, TablesOk, ChainsOk, Released;
    if Close(st, t, st') {
      CloseKnows(st, t, st');
      CloseKeepsTables(st, t, st');
      CloseLocks(st, t, st');
    } else if Enter(st, t, st') {
      EnterLocks(st, t, st');
      EnterKnows(st, t, st');
      EnterTables(st, t, st');
    } else if PublishFd(st, t, st') {
      PublishKnows(st, t, st');
      PublishTables(st, t, st');
      DescLocks(st, t, st', st.pcs[t].fd, Desc(st.pcs[t].e, 0));
    } else {
      UnlinkKnows(st, t, st');
      UnlinkRest(st, t, st');
    }
  }

  lemma CloseLocks(st: Sys, t: nat, st': Sys)
    requires LocksOk(st) && t < |st.pcs| && Close(st, t, st')
    ensures LocksOk(st')
  {
    CloseTables(st, t, st');
    var fd := st.pcs[t].fd;
    assert fd < |st.descs|;
    hide Close, LocksOk;
    if st.descs[fd].NoDesc? {
      assert st.descs[fd := NoDesc] == st.descs;
    }
    DescLocks(st, t, st', fd, NoDesc);
  }

  lemma UnlinkRest(st: Sys, t: nat, st': Sys)
    requires LocksOk(st) && TablesOk(st) && t < |st.pcs| && Unlink(st, t, st')
    ensures LocksOk(st') && TablesOk(st')
  {
    hide LocksOk, TablesOk, EntryRefs, NotOpen, FileFree;
    assert st'.pcs == st.pcs[t := Names] && NoMore(st.descs, st.pcs[t], Names);
    NoMoreLocks(st, t, st', Names);
    UnlinkDir(st, t, st');
    QuietTables(st, st', t, Names);
  }

  lemma UnlinkDir(st: Sys, t: nat, st': Sys)
    requires TablesOk(st) && t < |st.pcs| && Unlink(st, t, st')
    ensures st'.descs == st.descs && st'.files == st.files && st'.next == st.next
            && forall f | f in st'.dir :: f < st'.next
  {
    hide EntryRefs;
  }

  lemma StepInv(st: Sys, t: nat, st': Sys)
    requires Inv(st) && Step(st, t, st')
    ensures Inv(st')
  {
    hide LocksOk, PcsOk, TablesOk, ChainsOk, Go, Take, Link, Cut, Close, Create, Enter, PublishFd, Unlink;
    if Go(st, t, st') {
      SizeOk(st);
      GoLocks(st, t, st');
      GoKnows(st, t, st');
      GoTables(st, t, st');
      GoChains(st, t, st');
    } else if Take(st, t, st') || Link(st, t, st') || Cut(st, t, st') || Create(st, t, st') {
      DataLocks(st, t, st');
      if Take(st, t, st') {
        TakeChains(st, t, st');
      } else if Link(st, t, st') {
        LinkChains(st, t, st');
      } else if Cut(st, t, st') {
        CutChains(st, t, st');
      } else {
        CreateChains(st, t, st');
      }
    } else {
      TableSteps(st, t, st');
      if Close(st, t, st') {
        CloseChains(st, t, st');
      } else if Enter(st, t, st') {
        EnterChains(st, t, st');
      } else if PublishFd(st, t, st') {
        PublishChains(st, t, st');
      } else {
        UnlinkChains(st, t, st');
      }
    }
  }

  lemma SizeOk(st: Sys)
    requires TablesOk(st)
    ensures |st.descs| == LIMIT
  {
  }

  lemma GoTables(st: Sys, t: nat, st': Sys)
    requires TablesOk(st) && t < |st.pcs| && Go(st, t, st')
    ensures TablesOk(st')
  {
    var q :| CanGo(st, t, st.pcs[t], q) && st' == st.(pcs := st.pcs[t := q]);
    QuietTables(st, st', t, q);
  }

  lemma PublishChains(st: Sys, t: nat, st': Sys)
    requires ChainsOk(st) && t < |st.pcs| && PublishFd(st, t, st')
    ensures ChainsOk(st')
  {
    hide ChainsOk, FdFree;
    SameKnown(st, st');
    QuietChains(st, st', t, Idle);
  }

  // ----- runs -----

  /** A mounted file system with nothing open and all threads idle. */
  ghost predicate Start(st: Sys) {
    && |st.descs| == |st.files| == LIMIT && (forall i | 0 <= i < LIMIT :: st.descs[i].NoDesc? && st.files[i].NoEntry?)
    && (forall t | 0 <= t < |st.pcs| :: st.pcs[t] == Idle)
    && StoreOk(st.h, st.s) && (forall f | f in st.dir :: f < st.next && FileChain(f) in st.s.lists)
    && forall o | o in st.s.lists :: o == FreeList || o == DirChain || (o.FileChain? && o.fid in st.dir)
  }

  /** A run in which thread order[i] makes the i-th step. */
  ghost predicate IsRun(run: seq<Sys>, order: seq<nat>) {
    && |run| == |order| + 1 && Start(run[0])
    && forall i | 0 <= i < |order| :: Step(run[i], order[i], run[i + 1])
  }

  lemma StartInv(st: Sys)
    requires Start(st)
    ensures Inv(st)
  {
    forall f ensures Known(st, f) <==> f in st.dir {
    }
    hide StoreOk, Refs;
    assert LocksOk(st) && PcsOk(st) && TablesOk(st);
    assert Owned(st);
  }

  lemma {:induction false} RunInv(run: seq<Sys>, order: seq<nat>)
    requires IsRun(run, order)
    ensures Inv(run[|order|])
  {
    hide Inv, Step, Start;
    var n := |order|;
    if n == 0 {
      StartInv(run[0]);
    } else {
      RunInv(run[..n], order[..n - 1]);
      assert Step(run[n - 1], order[n - 1], run[n]);
      StepInv(run[n - 1], order[n - 1], run[n]);
    }
  }

  /** Ownership, at any moment of any interleaving: every block but the superblock is
      in exactly one place of exactly one list, and that is the free list, the
      directory, the chain of a known file, or the chain one thread has in flight. */
  lemma BlocksOwned(run: seq<Sys>, order: seq<nat>, b: BlockId)
    requires IsRun(run, order) && 0 < b < |run[|order|].h|
    ensures var st := run[|order|];
            && StoreOk(st.h, st.s) && st.s.owner[b] in st.s.lists && OwnerOk(st, st.s.owner[b])
            && b in st.s.lists[st.s.owner[b]]
            && forall o | o in st.s.lists && b in st.s.lists[o] :: o == st.s.owner[b]
  {
    var st := run[|order|];
    RunInv(run, order);
    hide LocksOk, PcsOk, TablesOk, IsRun;
    forall o | o in st.s.lists && b in st.s.lists[o] ensures o == st.s.owner[b] {
      assert OwnedBy(st.s, o);
    }
  }

  // ----- what a lock protects -----

  /** A step of one thread leaves the others where they are. */
  lemma OthersStay(st: Sys, u: nat, st': Sys, t: nat)
    requires Step(st, u, st') && t < |st.pcs| && t != u
    ensures |st'.pcs| == |st.pcs| && st'.pcs[t] == st.pcs[t]
  {
    hide Inv, CanGo, TakeBlocks, AllocHdrs, FreeHdrs, FreeStore;
  }

  /** The thread holds the lock of a live descriptor. */
  predicate UsesFd(p: Pc) {
    p.HoldFd? || p.HoldFile? || p.Flying? || p.DoneFd?
  }

  /** While a thread holds the lock of a live descriptor, no step of another thread
      frees that descriptor or the open file behind it, although reading and
      writing never take the table lock. */
  lemma DescriptorProtected(st: Sys, u: nat, st': Sys, t: nat)
    requires Inv(st) && Step(st, u, st') && t < |st.pcs| && t != u && UsesFd(st.pcs[t])
    ensures var fd, e := st.pcs[t].fd, st.pcs[t].e;
            IsDescOf(st.descs, fd, e) && IsDescOf(st'.descs, fd, e) && IsEntry(st, e) && IsEntry(st', e)
                && st'.files[e].fid == st.files[e].fid
  {
    StepInv(st, u, st');
    OthersStay(st, u, st', t);
    assert PcOk(st, st.pcs[t]) && PcOk(st', st'.pcs[t]);
    hide LocksOk, ChainsOk;
    SameFid(st, u, st', st.pcs[t].e);
  }

  lemma SameFid(st: Sys, u: nat, st': Sys, e: nat)
    requires Inv(st) && Step(st, u, st') && IsEntry(st, e) && IsEntry(st', e)
    ensures st'.files[e].fid == st.files[e].fid
  {
    hide Inv, CanGo, TakeBlocks, AllocHdrs, FreeHdrs, FreeStore, FdFree, FileFree;
  }

  /** No lock of a thread is taken by another one while it holds it. */
  lemma Exclusive(run: seq<Sys>, order: seq<nat>, t: nat, u: nat)
    requires IsRun(run, order) && t < |run[|order|].pcs| && u < |run[|order|].pcs| && t != u
    ensures Compatible(run[|order|].descs, run[|order|].pcs[t], run[|order|].pcs[u])
  {
    RunInv(run, order);
    hide PcsOk, TablesOk, ChainsOk, IsRun, Compatible;
  }

  // ----- the chain under a file lock -----

  /** The lists a step of thread u may change. */
  ghost predicate Touches(st: Sys, u: nat, st': Sys, o: Owner) {
    || o == FreeList
    || (u < |st.pcs| && IsFlying(st.pcs[u]) && (o == Target(st, st.pcs[u]) || o == FlightOf(u, st.pcs[u])))
    || (o.Flight? && o.thread == u)
    || (u < |st.pcs| && st.pcs[u].TruncFile? && IsEntry(st, st.pcs[u].e) && o == FileChain(st.files[st.pcs[u].e].fid))
    || (o.FileChain? && !Known(st', o.fid))
  }

  lemma UntouchedList(st: Sys, u: nat, st': Sys, o: Owner)
    requires Inv(st) && Step(st, u, st') && o in st.s.lists && !Touches(st, u, st', o)
    ensures o in st'.s.lists && st'.s.lists[o] == st.s.lists[o]
  {
    hide LocksOk, PcsOk, StoreOk, EntryRefs, AllocHdrs, FreeHdrs, FdFree, FileFree, CanGo;
    NoTransits(st);
    if Take(st, u, st') {
      var q, n: nat :| TakeAs(st, u, q, n, st');
      TakeLists(st.s, n, FlightOf(u, q));
      hide TakeBlocks;
    } else if Link(st, u, st') {
      MergeLists(st.s, Target(st, st.pcs[u]), FlightOf(u, st.pcs[u]), false);
      hide Merge;
    } else if Cut(st, u, st') {
      var k: nat :| CutAs(st, FileChain(st.files[st.pcs[u].e].fid), k, st');
      FreeLists(st.s, FileChain(st.files[st.pcs[u].e].fid), k);
      hide FreeStore;
    } else if Create(st, u, st') {
      NotOwner(st, FileChain(st.next));
    } else if Close(st, u, st') {
      CloseTouches(st, u, st', o);
    } else if Unlink(st, u, st') {
      UnlinkTouches(st, u, st', o);
    }
  }

  lemma ReleasedTouches(b: Sys, f: nat, o: Owner)
    requires Orphaned(b, f) && Releasable(b, f) && o in b.s.lists && o != FreeList && o != FileChain(f)
    ensures o in Released(b, f).s.lists && Released(b, f).s.lists[o] == b.s.lists[o]
    ensures !Known(Released(b, f), f)
  {
    OrphanTransits(b, f);
    ReleaseLists(b.s, f);
    SameKnown(b, Released(b, f));
    hide FreeStore, FreeHdrs, Drop, Known;
  }

  lemma StillUnknown(b: Sys, f: nat)
    requires Orphaned(b, f) && Releasable(b, f)
    ensures !Known(Released(b, f), f)
  {
    SameKnown(b, Released(b, f));
    hide FreeStore, FreeHdrs, Drop, Known;
  }

  lemma CloseTouches(st: Sys, u: nat, st': Sys, o: Owner)
    requires Inv(st) && u < |st.pcs| && Close(st, u, st') && o in st.s.lists && o != FreeList
             && (o.FileChain? ==> Known(st', o.fid))
    ensures o in st'.s.lists && st'.s.lists[o] == st.s.lists[o]
  {
    hide LocksOk, PcsOk, TablesOk, Owned, StoreOk, Known, Released;
    var fd := st.pcs[u].fd;
    if st.descs[fd].Desc? && st.files[st.descs[fd].file].refs == 1 && st.files[st.descs[fd].file].fid !in st.dir {
      var e := st.descs[fd].file;
      var f := st.files[e].fid;
      var b := st.(descs := st.descs[fd := NoDesc], pcs := st.pcs[u := Idle], files := st.files[e := NoEntry]);
      EntryGone(st, u, e, b);
      StillUnknown(b, f);
      ReleasedTouches(b, f, o);
    }
  }

  lemma UnlinkTouches(st: Sys, u: nat, st': Sys, o: Owner)
    requires Inv(st) && u < |st.pcs| && Unlink(st, u, st') && o in st.s.lists && o != FreeList
             && (o.FileChain? ==> Known(st', o.fid))
    ensures o in st'.s.lists && st'.s.lists[o] == st.s.lists[o]
  {
    hide LocksOk, PcsOk, TablesOk, Owned, StoreOk, Known, Released, FileFree;
    if st.pcs[u].Names? {
      var f :| f in st.dir && NotOpen(st, f) && Releasable(st, f) && st' == Released(st.(dir := st.dir - {f}), f);
      var b := st.(dir := st.dir - {f});
      NameGone(st, f, b);
      StillUnknown(b, f);
      ReleasedTouches(b, f, o);
    }
  }

  /** While a thread holds the lock of an open file, no step of another thread
      changes the file's chain, or any header in it. */
  lemma ChainProtected(st: Sys, u: nat, st': Sys, t: nat, e: nat)
    requires Inv(st) && Step(st, u, st') && t < |st.pcs| && t != u && FileLock(st.pcs[t], e)
    ensures IsEntry(st, e) && FileChain(st.files[e].fid) in st.s.lists && StoreOk(st.h, st.s)
            && InRange(st.s.lists[FileChain(st.files[e].fid)], |st.h|)
    ensures var o := FileChain(st.files[e].fid);
            && |st'.h| == |st.h| && o in st'.s.lists && st'.s.lists[o] == st.s.lists[o]
            && forall i | 0 <= i < |st.s.lists[o]| :: st'.h[st.s.lists[o][i]] == st.h[st.s.lists[o][i]]
  {
    StepInv(st, u, st');
    OthersStay(st, u, st', t);
    assert PcOk(st, st.pcs[t]) && PcOk(st', st'.pcs[t]) && Compatible(st.descs, st.pcs[t], st.pcs[u]);
    SameFid(st, u, st', e);
    var o := FileChain(st.files[e].fid);
    assert Known(st, o.fid) && Known(st', o.fid);
    NotTouched(st, u, st', t, e);
    UntouchedList(st, u, st', o);
    SameSize(st, u, st');
    hide LocksOk, PcsOk, TablesOk, Owned, Step, Known, FileLock, Touches;
    SameHeaders(st.h, st'.h, st.s.lists[o], FileTag);
  }

  lemma NotTouched(st: Sys, u: nat, st': Sys, t: nat, e: nat)
    requires Inv(st) && u < |st.pcs| && t < |st.pcs| && t != u && FileLock(st.pcs[t], e) && IsEntry(st, e)
             && Known(st', st.files[e].fid)
    ensures !Touches(st, u, st', FileChain(st.files[e].fid))
  {
    assert Compatible(st.descs, st.pcs[t], st.pcs[u]) && PcOk(st, st.pcs[u]);
    hide LocksOk, PcsOk, ChainsOk, Known, FdLock, EntryRefs;
  }

  /** A list's headers are determined by the list. */
  lemma SameHeaders(h: seq<Hdr>, h': seq<Hdr>, c: seq<BlockId>, t: Tag)
    requires Linked(h, c, t) && Linked(h', c, t)
    ensures forall i | 0 <= i < |c| :: h'[c[i]] == h[c[i]]
  {
    forall i | 0 <= i < |c| ensures h'[c[i]] == h[c[i]] {
      LinkedAt(h, c, t, i);
      LinkedAt(h', c, t, i);
    }
  }

  lemma SameSize(st: Sys, u: nat, st': Sys)
    requires Step(st, u, st')
    ensures |st'.h| == |st.h|
  {
    hide CanGo, TakeBlocks, FreeStore, FdFree, FileFree;
  }
}
