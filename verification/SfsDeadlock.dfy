/** Deadlock freedom: every thread acquires its locks in one global order, so some
    thread with an unfinished operation can always go on. */
module SfsDeadlock {
  import opened SfsChains
  import opened SfsRep
  import opened SfsThreads
  import opened SfsThreadLocks
  import opened SfsThreadChains
  import opened SfsInterleaving

  /** The global order: the directory, the table, the descriptors by number, files.
      The allocation lock comes last and is held within single steps only. */
  const TOP: nat := 3 + LIMIT

  function FdRank(fd: nat): nat {
    2 + fd
  }

  const FILE_RANK: nat := 2 + LIMIT

  /** Rank of the lock the thread waits for next, or TOP if it waits for none. */
  function Wanted(st: Sys, p: Pc): nat {
    match p
    case WantDir => 0
    case ListWantDir => 0
    case Dir => 1
    case ListDir => 1
    case WantTable(_, _) => 1
    case WantFd(fd) => FdRank(fd)
    case TableClose(fd) => FdRank(fd)
    case Publish(fd, _) => FdRank(fd)
    case Trunc(e, i) => if i >= LIMIT then FILE_RANK else if IsDescOf(st.descs, i, e) then FdRank(i) else TOP
    case HoldFd(_, _) => FILE_RANK
    case NamesWant(_) => FILE_RANK
    case NamesUnlink(_) => FILE_RANK
    case ListWant(_) => FILE_RANK
    case _ => TOP
  }

  /** The thread holds a lock of that rank. */
  ghost predicate HoldsRank(st: Sys, p: Pc, r: nat) {
    || (r == 0 && (DirWrite(p) || DirRead(p)))
    || (r == 1 && (TableWrite(p) || TableRead(p)))
    || (2 <= r < 2 + LIMIT && FdLock(st.descs, p, r - 2))
    || (r == FILE_RANK && exists e :: FileLock(p, e))
  }

  /** All acquisitions respect the order: what a thread waits for ranks above all it holds. */
  lemma InOrder(st: Sys, p: Pc, r: nat)
    requires PcOk(st, p) && |st.descs| == LIMIT && HoldsRank(st, p, r)
    ensures r < Wanted(st, p) && p != Idle
  {
  }

  /** The thread can make a step that does not leave it waiting where it is. */
  ghost predicate CanStep(st: Sys, t: nat) {
    exists st' :: Step(st, t, st')
  }

  /** Someone else holds a lock of the rank the thread waits for. */
  ghost predicate Blocked(st: Sys, t: nat, u: nat)
    requires t < |st.pcs|
  {
    u < |st.pcs| && u != t && HoldsRank(st, st.pcs[u], Wanted(st, st.pcs[t]))
  }

  lemma Goes(st: Sys, t: nat, q: Pc)
    requires t < |st.pcs| && CanGo(st, t, st.pcs[t], q)
    ensures CanStep(st, t)
  {
    assert Go(st, t, st.(pcs := st.pcs[t := q]));
    assert Step(st, t, st.(pcs := st.pcs[t := q]));
  }

  // ----- threads that wait for nothing -----

  lemma Links(st: Sys, t: nat)
    requires Inv(st) && t < |st.pcs| && IsFlying(st.pcs[t])
    ensures CanStep(st, t)
  {
    var p := st.pcs[t];
    assert PcOk(st, p);
    var o, f := Target(st, p), FlightOf(t, p);
    TargetKnown(st, t);
    hide LocksOk, PcsOk, TablesOk, Owned;
    ListInRange(st.h, st.s, o);
    ListInRange(st.h, st.s, f);
    hide StoreOk;
    var q := match p case Flying(fd, e) => HoldFile(fd, e) case TruncFlying(e) => TruncFile(e) case _ => Names;
    var st' := st.(h := Attach(st.h, st.s.lists[o], st.s.lists[f]), s := Merge(st.s, o, f, false),
          pcs := st.pcs[t := q]);
    assert Link(st, t, st');
    assert Step(st, t, st');
  }

  lemma TargetKnown(st: Sys, t: nat)
    requires Owned(st) && t < |st.pcs| && IsFlying(st.pcs[t]) && PcOk(st, st.pcs[t])
    ensures Target(st, st.pcs[t]) in st.s.lists && FlightOf(t, st.pcs[t]) in st.s.lists
            && Target(st, st.pcs[t]) != FlightOf(t, st.pcs[t])
  {
    var p := st.pcs[t];
    if !p.NamesFlying? {
      assert Known(st, st.files[p.e].fid);
    }
    hide OwnerOk;
  }

  lemma Closes(st: Sys, t: nat)
    requires Inv(st) && t < |st.pcs| && st.pcs[t].CloseFd?
    ensures CanStep(st, t)
  {
    assert PcOk(st, st.pcs[t]);
    var fd := st.pcs[t].fd;
    var a := st.(descs := st.descs[fd := NoDesc], pcs := st.pcs[t := Idle]);
    var st';
    if st.descs[fd].NoDesc? {
      st' := st.(pcs := st.pcs[t := Idle]);
    } else {
      var e := st.descs[fd].file;
      assert EntryRefs(st, e) && IsEntry(st, e);
      assert Known(st, st.files[e].fid);
      hide LocksOk, PcsOk, TablesOk;
      if st.files[e].refs > 1 {
        st' := a.(files := st.files[e := st.files[e].(refs := st.files[e].refs - 1)]);
      } else {
        var b := a.(files := st.files[e := NoEntry]);
        if st.files[e].fid in st.dir {
          st' := b;
        } else {
          ListInRange(st.h, st.s, FileChain(st.files[e].fid));
          ListInRange(st.h, st.s, FreeList);
          st' := Released(b, st.files[e].fid);
        }
      }
    }
    hide Inv, Released;
    assert Close(st, t, st');
    assert Step(st, t, st');
  }

  // ----- threads that wait -----

  lemma FdHolder(st: Sys, t: nat, fd: nat) returns (u: nat)
    requires fd < LIMIT
    ensures FdFree(st, t, fd) || (u < |st.pcs| && u != t && HoldsRank(st, st.pcs[u], FdRank(fd)))
  {
    u := 0;
    if !FdFree(st, t, fd) {
      u :| 0 <= u < |st.pcs| && u != t && FdLock(st.descs, st.pcs[u], fd);
    }
  }

  lemma FileHolder(st: Sys, t: nat, e: nat) returns (u: nat)
    ensures FileFree(st, t, e) || (u < |st.pcs| && u != t && HoldsRank(st, st.pcs[u], FILE_RANK))
  {
    u := 0;
    if !FileFree(st, t, e) {
      u :| 0 <= u < |st.pcs| && u != t && FileLock(st.pcs[u], e);
    }
  }

  lemma TableHolder(st: Sys, t: nat) returns (u: nat)
    ensures TableFree(st, t) || (u < |st.pcs| && u != t && HoldsRank(st, st.pcs[u], 1))
  {
    u := 0;
    if !TableFree(st, t) {
      u :| 0 <= u < |st.pcs| && u != t && (TableWrite(st.pcs[u]) || TableRead(st.pcs[u]));
    }
  }

  lemma DirHolder(st: Sys, t: nat) returns (u: nat)
    ensures DirFree(st, t) || (u < |st.pcs| && u != t && HoldsRank(st, st.pcs[u], 0))
  {
    u := 0;
    if !DirFree(st, t) {
      u :| 0 <= u < |st.pcs| && u != t && (DirWrite(st.pcs[u]) || DirRead(st.pcs[u]));
    }
  }

  /** A thread that waits for a descriptor's lock. */
  lemma WaitsFd(st: Sys, t: nat) returns (u: nat)
    requires Inv(st) && t < |st.pcs| && (st.pcs[t].WantFd? || st.pcs[t].TableClose? || st.pcs[t].Publish?
               || (st.pcs[t].Trunc? && st.pcs[t].i < LIMIT))
    ensures CanStep(st, t) || Blocked(st, t, u)
  {
    var p := st.pcs[t];
    assert PcOk(st, p) && |st.descs| == LIMIT;
    var fd := if p.Trunc? then p.i else p.fd;
    u := FdHolder(st, t, fd);
    hide Inv, FdFree, HoldsRank, Step, PcOk;
    if p.Trunc? && !IsDescOf(st.descs, fd, p.e) {
      Goes(st, t, Trunc(p.e, p.i + 1));
    } else if FdFree(st, t, fd) {
      match p
      case WantFd(_) => Goes(st, t, if st.descs[fd].NoDesc? then Idle else DoneFd(fd, st.descs[fd].file));
      case TableClose(_) => Goes(st, t, CloseFd(fd));
      case Trunc(e, i) => Goes(st, t, Trunc(e, i + 1));
      case Publish(_, e) => Publishes(st, t);
    }
  }

  lemma Publishes(st: Sys, t: nat)
    requires t < |st.pcs| && st.pcs[t].Publish? && st.pcs[t].fd < |st.descs| && FdFree(st, t, st.pcs[t].fd)
    ensures CanStep(st, t)
  {
    hide FdFree;
    var st' := st.(descs := st.descs[st.pcs[t].fd := Desc(st.pcs[t].e, 0)], pcs := st.pcs[t := Idle]);
    assert PublishFd(st, t, st');
    assert Step(st, t, st');
  }

  /** A thread that waits for an open file's lock. */
  lemma WaitsFile(st: Sys, t: nat) returns (u: nat)
    requires Inv(st) && t < |st.pcs| && (st.pcs[t].HoldFd? || st.pcs[t].NamesWant? || st.pcs[t].NamesUnlink?
               || st.pcs[t].ListWant? || (st.pcs[t].Trunc? && st.pcs[t].i == LIMIT))
    ensures CanStep(st, t) || Blocked(st, t, u)
  {
    var p := st.pcs[t];
    assert PcOk(st, p);
    u := FileHolder(st, t, p.e);
    hide Inv, FileFree, HoldsRank, Step;
    if FileFree(st, t, p.e) {
      match p
      case HoldFd(fd, e) => Goes(st, t, HoldFile(fd, e));
      case NamesWant(e) => Goes(st, t, NamesPeek(e));
      case ListWant(e) => Goes(st, t, ListPeek(e));
      case Trunc(e, i) => Goes(st, t, TruncFile(e));
      case NamesUnlink(_) => Unlinks(st, t);
    }
  }

  lemma Unlinks(st: Sys, t: nat)
    requires t < |st.pcs| && st.pcs[t].NamesUnlink? && IsEntry(st, st.pcs[t].e) && FileFree(st, t, st.pcs[t].e)
    ensures CanStep(st, t)
  {
    hide FileFree;
    var st' := st.(dir := st.dir - {st.files[st.pcs[t].e].fid}, pcs := st.pcs[t := Names]);
    assert Unlink(st, t, st');
    assert Step(st, t, st');
  }

  /** A thread that waits for the directory or the table. */
  lemma WaitsGlobal(st: Sys, t: nat) returns (u: nat)
    requires Inv(st) && t < |st.pcs| && Wanted(st, st.pcs[t]) <= 1
    ensures CanStep(st, t) || Blocked(st, t, u)
  {
    var p := st.pcs[t];
    assert PcOk(st, p) && |st.descs| == LIMIT;
    if Wanted(st, p) == 0 {
      u := DirHolder(st, t);
      hide Inv, HoldsRank, Step;
      if DirFree(st, t) {
        Goes(st, t, if p.WantDir? then Dir else ListDir);
      }
    } else {
      u := TableHolder(st, t);
      hide Inv, HoldsRank, Step;
      if TableFree(st, t) {
        Goes(st, t, match p case Dir => Names case ListDir => Listing
                    case WantTable(fd, closing) => if closing then TableClose(fd) else Idle case _ => Idle);
      }
    }
  }

  /** A waiting thread can go on unless another one holds a lock of the rank it waits for. */
  lemma Waits(st: Sys, t: nat) returns (u: nat)
    requires Inv(st) && t < |st.pcs| && Wanted(st, st.pcs[t]) < TOP
    ensures CanStep(st, t) || Blocked(st, t, u)
  {
    var p := st.pcs[t];
    assert PcOk(st, p);
    hide Inv, HoldsRank, CanStep;
    if Wanted(st, p) <= 1 {
      u := WaitsGlobal(st, t);
    } else if p.WantFd? || p.TableClose? || p.Publish? || (p.Trunc? && p.i < LIMIT) {
      u := WaitsFd(st, t);
    } else {
      u := WaitsFile(st, t);
    }
  }

  /** A thread in the middle of an operation that waits for no lock can go on. */
  lemma Runs(st: Sys, t: nat)
    requires Inv(st) && t < |st.pcs| && st.pcs[t] != Idle && Wanted(st, st.pcs[t]) >= TOP
    ensures CanStep(st, t)
  {
    var p := st.pcs[t];
    assert PcOk(st, p);
    hide Inv, CanStep;
    match p
    case Trunc(e, i) => Goes(st, t, Trunc(e, i + 1));
    case HoldFile(fd, e) => Goes(st, t, DoneFd(fd, e));
    case DoneFd(_, _) => Goes(st, t, Idle);
    case CloseFd(_) => Closes(st, t);
    case TruncFile(_) => Goes(st, t, Idle);
    case Names => Goes(st, t, Idle);
    case NamesPeek(_) => Goes(st, t, Names);
    case Listing => Goes(st, t, Idle);
    case ListPeek(_) => Goes(st, t, Listing);
    case _ => Links(st, t);
  }

  // ----- the main result -----

  /** Follow the chain of waiting: each blocker waits for a higher rank. */
  lemma {:induction false} SomeoneSteps(st: Sys, t: nat) returns (v: nat)
    requires Inv(st) && t < |st.pcs| && st.pcs[t] != Idle
    ensures v < |st.pcs| && st.pcs[v] != Idle && CanStep(st, v)
    decreases if Wanted(st, st.pcs[t]) < TOP then TOP - Wanted(st, st.pcs[t]) else 0
  {
    if Wanted(st, st.pcs[t]) >= TOP {
      Runs(st, t);
      v := t;
    } else {
      var u := Waits(st, t);
      if CanStep(st, t) {
        v := t;
      } else {
        assert PcOk(st, st.pcs[u]) && |st.descs| == LIMIT;
        InOrder(st, st.pcs[u], Wanted(st, st.pcs[t]));
        v := SomeoneSteps(st, u);
      }
    }
  }

  /** No deadlock: in every reachable state with an unfinished operation, some thread
      in the middle of an operation can make a step. */
  lemma NoDeadlock(run: seq<Sys>, order: seq<nat>, t: nat)
    requires IsRun(run, order) && t < |run[|order|].pcs| && run[|order|].pcs[t] != Idle
    ensures exists v: nat, st' :: v < |run[|order|].pcs| && run[|order|].pcs[v] != Idle && Step(run[|order|], v, st')
  {
    var st := run[|order|];
    RunInv(run, order);
    var v := SomeoneSteps(st, t);
    hide IsRun, Inv, Step;
    var st' :| Step(st, v, st');
  }
}
