/** Steps of the threads keep the locks exclusive, the threads' knowledge right and
    the open-file tables consistent. */
module SfsThreadLocks {
  import opened SfsChains
  import opened SfsRep
  import opened SfsThreads

  // ----- mutual exclusion -----

  lemma GoModes(st: Sys, t: nat, u: nat, q: Pc)
    requires t < |st.pcs| && u < |st.pcs| && t != u && CanGo(st, t, st.pcs[t], q)
    ensures var p, r := st.pcs[t], st.pcs[u];
            && (DirWrite(q) ==> DirWrite(p) || (!DirWrite(r) && !DirRead(r)))
               && (DirRead(q) ==> DirRead(p) || !DirWrite(r))
            && (TableWrite(q) ==> TableWrite(p) || (!TableWrite(r) && !TableRead(r)))
               && (TableRead(q) ==> TableRead(p) || !TableWrite(r))
  {
    hide FdLock, FileLock, IsDescOf;
  }

  lemma GoFdLock(st: Sys, t: nat, u: nat, q: Pc, fd: nat)
    requires t < |st.pcs| && u < |st.pcs| && t != u && |st.descs| == LIMIT && CanGo(st, t, st.pcs[t], q)
    ensures FdLock(st.descs, q, fd) ==> FdLock(st.descs, st.pcs[t], fd) || !FdLock(st.descs, st.pcs[u], fd)
  {
    hide FileLock, DirFree, TableFree, DirWrite, DirRead, TableWrite, TableRead;
  }

  lemma GoFileLock(st: Sys, t: nat, u: nat, q: Pc, e: nat)
    requires t < |st.pcs| && u < |st.pcs| && t != u && CanGo(st, t, st.pcs[t], q)
    ensures FileLock(q, e) ==> FileLock(st.pcs[t], e) || !FileLock(st.pcs[u], e)
  {
    hide FdLock, DirFree, TableFree, DirWrite, DirRead, TableWrite, TableRead;
  }

  lemma GoLocks(st: Sys, t: nat, st': Sys)
    requires LocksOk(st) && |st.descs| == LIMIT && t < |st.pcs| && Go(st, t, st')
    ensures LocksOk(st')
  {
    var q :| CanGo(st, t, st.pcs[t], q) && st' == st.(pcs := st.pcs[t := q]);
    hide CanGo, FdLock, FileLock, DirWrite, DirRead, TableWrite, TableRead;
    forall u | 0 <= u < |st.pcs| && u != t ensures Compatible(st.descs, q, st.pcs[u])
           && Compatible(st.descs, st.pcs[u], q) {
      assert Compatible(st.descs, st.pcs[t], st.pcs[u]) && Compatible(st.descs, st.pcs[u], st.pcs[t]);
      GoModes(st, t, u, q);
      forall fd: nat ensures FdLock(st.descs, q, fd) ==> !FdLock(st.descs, st.pcs[u], fd) {
        GoFdLock(st, t, u, q, fd);
      }
      forall e: nat ensures FileLock(q, e) ==> !FileLock(st.pcs[u], e) {
        GoFileLock(st, t, u, q, e);
      }
    }
    hide Compatible;
  }

  /** q holds no lock that p does not. */
  ghost predicate NoMore(descs: seq<Desc>, p: Pc, q: Pc) {
    && (DirWrite(q) ==> DirWrite(p)) && (DirRead(q) ==> DirRead(p)) && (TableWrite(q) ==> TableWrite(p))
       && (TableRead(q) ==> TableRead(p))
    && (forall fd :: FdLock(descs, q, fd) ==> FdLock(descs, p, fd))
    && (forall e :: FileLock(q, e) ==> FileLock(p, e))
  }

  lemma NoMoreLocks(st: Sys, t: nat, st': Sys, q: Pc)
    requires LocksOk(st) && t < |st.pcs| && NoMore(st.descs, st.pcs[t], q) && st'.pcs == st.pcs[t := q]
             && st'.descs == st.descs
    ensures LocksOk(st')
  {
    hide FdLock, FileLock, DirWrite, DirRead, TableWrite, TableRead;
    forall u | 0 <= u < |st.pcs| && u != t ensures Compatible(st.descs, q, st.pcs[u])
           && Compatible(st.descs, st.pcs[u], q) {
      assert Compatible(st.descs, st.pcs[t], st.pcs[u]) && Compatible(st.descs, st.pcs[u], st.pcs[t]);
    }
    hide Compatible, NoMore;
  }

  /** A descriptor changes hands only under the table lock, which keeps truncation away. */
  lemma DescLocks(st: Sys, t: nat, st': Sys, fd: nat, d: Desc)
    requires LocksOk(st) && t < |st.pcs| && TableWrite(st.pcs[t]) && fd < |st.descs|
    requires st'.pcs == st.pcs[t := Idle] && st'.descs == st.descs[fd := d]
    ensures LocksOk(st')
  {
    forall u | 0 <= u < |st.pcs| && u != t ensures !TableWrite(st.pcs[u]) {
      assert Compatible(st.descs, st.pcs[t], st.pcs[u]);
    }
    forall u, v | 0 <= u < |st.pcs| && 0 <= v < |st.pcs| && u != v
           ensures Compatible(st'.descs, st'.pcs[u], st'.pcs[v]) {
      DescCompatible(st, t, st', u, v);
    }
    hide Compatible, TableWrite;
  }

  lemma DescCompatible(st: Sys, t: nat, st': Sys, u: nat, v: nat)
    requires LocksOk(st) && t < |st.pcs| && |st'.pcs| == |st.pcs| && u < |st.pcs| && v < |st.pcs| && u != v
             && |st'.descs| == |st.descs|
    requires st'.pcs[t] == Idle && (u != t ==> st'.pcs[u] == st.pcs[u] && !TableWrite(st.pcs[u]))
             && (v != t ==> st'.pcs[v] == st.pcs[v] && !TableWrite(st.pcs[v]))
    ensures Compatible(st'.descs, st'.pcs[u], st'.pcs[v])
  {
    assert Compatible(st.descs, st.pcs[u], st.pcs[v]);
    forall fd: nat ensures FdLock(st'.descs, st'.pcs[u], fd) ==> FdLock(st.descs, st.pcs[u], fd) {
    }
    forall fd: nat ensures FdLock(st'.descs, st'.pcs[v], fd) ==> FdLock(st.descs, st.pcs[v], fd) {
    }
    hide LocksOk, FdLock;
  }

  // ----- what threads know -----

  lemma SameTables(st: Sys, st': Sys, t: nat, q: Pc)
    requires PcsOk(st) && t < |st.pcs| && st'.pcs == st.pcs[t := q] && st'.descs == st.descs && st'.files == st.files
             && st.dir <= st'.dir && PcOk(st', q)
    ensures PcsOk(st')
  {
    forall u | 0 <= u < |st.pcs| && u != t ensures PcOk(st', st.pcs[u]) {
      assert PcOk(st, st.pcs[u]);
    }
    hide PcOk;
  }

  lemma GoKnows(st: Sys, t: nat, st': Sys)
    requires PcsOk(st) && TablesOk(st) && t < |st.pcs| && Go(st, t, st')
    ensures PcsOk(st')
  {
    var q :| CanGo(st, t, st.pcs[t], q) && st' == st.(pcs := st.pcs[t := q]);
    assert PcOk(st, st.pcs[t]);
    GoOwn(st, t, q);
    assert PcOk(st', q);
    hide CanGo, TablesOk, PcOk;
    SameTables(st, st', t, q);
  }

  lemma GoOwn(st: Sys, t: nat, q: Pc)
    requires TablesOk(st) && t < |st.pcs| && PcOk(st, st.pcs[t]) && CanGo(st, t, st.pcs[t], q)
    ensures PcOk(st, q)
  {
    hide EntryRefs, FdFree, FileFree, DirFree, TableFree, DirWrite, DirRead, TableWrite, TableRead;
  }

  lemma RefsTwo(descs: seq<Desc>, i: nat, j: nat, e: nat)
    requires i < |descs| && j < |descs| && i != j && IsDescOf(descs, i, e) && IsDescOf(descs, j, e)
    ensures Refs(descs, e) >= 2
  {
    RefsUpdate(descs, i, NoDesc, e);
    var d := descs[i := NoDesc];
    RefsPositive(d, j);
  }

  lemma NoRefs(descs: seq<Desc>, e: nat)
    requires forall fd | 0 <= fd < |descs| && descs[fd].Desc? :: descs[fd].file != e
    ensures Refs(descs, e) == 0
  {
    if Refs(descs, e) > 0 {
      var i := RefsWitness(descs, e);
    }
  }

  /** While a thread holds the lock of a live descriptor, closing another one does
      not remove the file's entry. */
  lemma CloseSeen(st: Sys, t: nat, st': Sys, u: nat)
    requires LocksOk(st) && PcsOk(st) && TablesOk(st) && t < |st.pcs| && Close(st, t, st') && u < |st.pcs| && u != t
    ensures PcOk(st', st.pcs[u])
  {
    assert Compatible(st.descs, st.pcs[t], st.pcs[u]) && PcOk(st, st.pcs[u]);
    var fd := st.pcs[t].fd;
    var p := st.pcs[u];
    if st.descs[fd].Desc? {
      var e := st.descs[fd].file;
      assert EntryRefs(st, e);
      if (p.HoldFd? || p.HoldFile? || p.Flying? || p.DoneFd?) {
        assert FdLock(st.descs, p, p.fd) && FdLock(st.descs, st.pcs[t], fd);
        if p.e == e {
          RefsTwo(st.descs, fd, p.fd, e);
        }
      }
      CloseTables(st, t, st');
    }
    hide Close, LocksOk, PcsOk, TablesOk, Refs;
  }

  /** What close does to the tables. */
  lemma CloseTables(st: Sys, t: nat, st': Sys)
    requires t < |st.pcs| && Close(st, t, st')
    ensures st'.pcs == st.pcs[t := Idle] && st'.dir == st.dir && st'.next == st.next
    ensures var fd := st.pcs[t].fd;
            if st.descs[fd].NoDesc? then st' == st.(pcs := st.pcs[t := Idle])
            else
              var e := st.descs[fd].file;
              && IsEntry(st, e) && st.files[e].refs > 0 && st'.descs == st.descs[fd := NoDesc]
              && st'.files == st.files[e := if st.files[e].refs > 1 then st.files[e].(refs := st.files[e].refs - 1)
                   else NoEntry]
  {
  }

  lemma CloseKnows(st: Sys, t: nat, st': Sys)
    requires LocksOk(st) && PcsOk(st) && TablesOk(st) && t < |st.pcs| && Close(st, t, st')
    ensures PcsOk(st')
  {
    CloseTables(st, t, st');
    forall u | 0 <= u < |st.pcs| ensures PcOk(st', st'.pcs[u]) {
      if u != t {
        CloseSeen(st, t, st', u);
      }
    }
    hide Close, LocksOk, TablesOk, PcOk;
  }

  lemma EnterKnows(st: Sys, t: nat, st': Sys)
    requires PcsOk(st) && TablesOk(st) && t < |st.pcs| && Enter(st, t, st')
    ensures PcsOk(st')
  {
    var fd, e, f :| EnterAs(st, t, fd, e, f, st');
    forall u | 0 <= u < |st.pcs| && u != t ensures PcOk(st', st.pcs[u]) {
      assert PcOk(st, st.pcs[u]);
    }
    assert PcOk(st', Publish(fd, e));
    hide PcOk, NotOpen, EntryRefs;
  }

  lemma PublishKnows(st: Sys, t: nat, st': Sys)
    requires LocksOk(st) && PcsOk(st) && TablesOk(st) && t < |st.pcs| && PublishFd(st, t, st')
    ensures PcsOk(st')
  {
    assert PcOk(st, st.pcs[t]);
    forall u | 0 <= u < |st.pcs| && u != t ensures PcOk(st', st.pcs[u]) {
      assert PcOk(st, st.pcs[u]) && Compatible(st.descs, st.pcs[t], st.pcs[u]);
    }
    hide PcOk, LocksOk, TablesOk, FdFree;
  }

  lemma UnlinkKnows(st: Sys, t: nat, st': Sys)
    requires LocksOk(st) && PcsOk(st) && t < |st.pcs| && Unlink(st, t, st')
    ensures PcsOk(st')
  {
    forall u | 0 <= u < |st.pcs| && u != t ensures PcOk(st', st.pcs[u]) {
      assert PcOk(st, st.pcs[u]) && Compatible(st.descs, st.pcs[t], st.pcs[u]);
    }
    hide PcOk, LocksOk, NotOpen, Releasable, FileFree;
  }

  // ----- the tables -----

  /** Nobody else is about to publish a descriptor. */
  lemma OnePublisher(st: Sys, t: nat, e: nat)
    requires LocksOk(st) && t < |st.pcs| && TableWrite(st.pcs[t])
    ensures Publishing(st.pcs, e) <==> st.pcs[t].Publish? && st.pcs[t].e == e
  {
    forall u | 0 <= u < |st.pcs| && u != t ensures !st.pcs[u].Publish? {
      assert Compatible(st.descs, st.pcs[t], st.pcs[u]);
    }
  }

  lemma SamePublishing(pcs: seq<Pc>, t: nat, q: Pc, e: nat)
    requires t < |pcs| && !pcs[t].Publish? && !q.Publish?
    ensures Publishing(pcs[t := q], e) <==> Publishing(pcs, e)
  {
    if Publishing(pcs, e) {
      var u :| 0 <= u < |pcs| && pcs[u].Publish? && pcs[u].e == e;
      assert pcs[t := q][u].Publish?;
    }
    if Publishing(pcs[t := q], e) {
      var u :| 0 <= u < |pcs| && pcs[t := q][u].Publish? && pcs[t := q][u].e == e;
      assert pcs[u].Publish?;
    }
  }

  /** Steps that leave the tables alone. */
  lemma QuietTables(st: Sys, st': Sys, t: nat, q: Pc)
    requires TablesOk(st) && t < |st.pcs| && !st.pcs[t].Publish? && !q.Publish? && st'.pcs == st.pcs[t := q]
    requires st'.descs == st.descs && st'.files == st.files && st.next <= st'.next
             && forall f | f in st'.dir :: f < st'.next
    ensures TablesOk(st')
  {
    forall e | 0 <= e < LIMIT && st.files[e].Entry? ensures EntryRefs(st', e) {
      assert EntryRefs(st, e);
      SamePublishing(st.pcs, t, q, e);
    }
    hide EntryRefs;
  }

  lemma EnterTables(st: Sys, t: nat, st': Sys)
    requires LocksOk(st) && TablesOk(st) && t < |st.pcs| && Enter(st, t, st')
    ensures TablesOk(st')
  {
    var fd, e, f :| EnterAs(st, t, fd, e, f, st');
    EnterLocks(st, t, st');
    forall x | 0 <= x < LIMIT && st'.files[x].Entry? ensures EntryRefs(st', x) {
      OnePublisher(st, t, x);
      OnePublisher(st', t, x);
      if x != e || st.files[x].Entry? {
        assert EntryRefs(st, x);
      } else {
        NoRefs(st.descs, x);
      }
    }
    hide EntryRefs, LocksOk, Publishing;
  }

  lemma EnterLocks(st: Sys, t: nat, st': Sys)
    requires LocksOk(st) && t < |st.pcs| && Enter(st, t, st')
    ensures LocksOk(st') && TableWrite(st.pcs[t]) && TableWrite(st'.pcs[t])
  {
    var fd, e, f :| EnterAs(st, t, fd, e, f, st');
    NoMoreLocks(st, t, st', Publish(fd, e));
  }

  lemma PublishTables(st: Sys, t: nat, st': Sys)
    requires LocksOk(st) && PcsOk(st) && TablesOk(st) && t < |st.pcs| && PublishFd(st, t, st')
    ensures TablesOk(st')
  {
    assert PcOk(st, st.pcs[t]);
    var fd, e := st.pcs[t].fd, st.pcs[t].e;
    forall x | 0 <= x < LIMIT && st'.files[x].Entry? ensures EntryRefs(st', x) {
      assert EntryRefs(st, x);
      OnePublisher(st, t, x);
      NonePublishes(st, t, st', x);
      RefsUpdate(st.descs, fd, Desc(e, 0), x);
    }
    hide EntryRefs, LocksOk, PcsOk, Publishing, FdFree, Refs;
  }

  /** After the publisher or closer has finished nobody is publishing. */
  lemma NonePublishes(st: Sys, t: nat, st': Sys, e: nat)
    requires LocksOk(st) && t < |st.pcs| && TableWrite(st.pcs[t]) && st'.pcs == st.pcs[t := Idle]
    ensures !Publishing(st'.pcs, e)
  {
    forall u | 0 <= u < |st'.pcs| ensures !st'.pcs[u].Publish? {
      if u != t {
        assert Compatible(st.descs, st.pcs[t], st.pcs[u]);
      }
    }
  }

  lemma CloseKeepsTables(st: Sys, t: nat, st': Sys)
    requires LocksOk(st) && PcsOk(st) && TablesOk(st) && t < |st.pcs| && Close(st, t, st')
    ensures TablesOk(st')
  {
    CloseTables(st, t, st');
    var fd := st.pcs[t].fd;
    assert fd < |st.descs|;
    forall x | 0 <= x < LIMIT && st'.files[x].Entry? ensures EntryRefs(st', x) {
      CloseRefs(st, t, st', x);
    }
    forall i | 0 <= i < LIMIT && st'.descs[i].Desc? ensures IsEntry(st', st'.descs[i].file) {
      CloseDescs(st, t, st', i);
    }
    hide EntryRefs, LocksOk, PcsOk, Publishing, Refs, Close;
  }

  lemma CloseRefs(st: Sys, t: nat, st': Sys, x: nat)
    requires LocksOk(st) && TablesOk(st) && t < |st.pcs| && Close(st, t, st') && x < LIMIT && st'.files[x].Entry?
    ensures EntryRefs(st', x)
  {
    CloseTables(st, t, st');
    assert EntryRefs(st, x);
    OnePublisher(st, t, x);
    NonePublishes(st, t, st', x);
    RefsUpdate(st.descs, st.pcs[t].fd, NoDesc, x);
    hide LocksOk, Publishing, Refs, Close;
  }

  lemma CloseDescs(st: Sys, t: nat, st': Sys, i: nat)
    requires LocksOk(st) && TablesOk(st) && t < |st.pcs| && Close(st, t, st') && i < LIMIT && st'.descs[i].Desc?
    ensures IsEntry(st', st'.descs[i].file)
  {
    CloseTables(st, t, st');
    var fd := st.pcs[t].fd;
    if st.descs[fd].Desc? && i != fd && st.descs[i].file == st.descs[fd].file {
      var e := st.descs[fd].file;
      assert EntryRefs(st, e);
      RefsTwo(st.descs, fd, i, e);
    }
    hide LocksOk, Publishing, Refs, Close;
  }
}
