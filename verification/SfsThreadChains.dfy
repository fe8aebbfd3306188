/** Steps of the threads keep every block in exactly one chain, including those
    that some thread has taken and not linked yet. */
module SfsThreadChains {
  import opened SfsChains
  import opened SfsRep
  import opened SfsThreads
  import opened SfsThreadLocks

  // ----- the store -----

  lemma TakeOk(h: seq<Hdr>, s: Store, n: nat, o: Owner)
    requires StoreOk(h, s) && n <= |s.lists[FreeList]| && o !in s.lists && o.Flight? && Transit(FreeTag) !in s.lists
    ensures InRange(s.lists[FreeList], |h|) && StoreOk(AllocHdrs(h, s.lists[FreeList], n, TagOf(o)),
              TakeBlocks(s, n, o))
  {
    hide Split, Rename, Retag, CutAt;
    SplitOk(h, s, FreeList, n, Transit(FreeTag), true);
    var s1 := Split(s, FreeList, n, Transit(FreeTag), true);
    SplitLists(s, FreeList, n, Transit(FreeTag), true);
    RetagOk(CutAt(h, s.lists[FreeList], n), s1, Transit(FreeTag), o);
  }

  lemma TakeLists(s: Store, n: nat, o: Owner)
    requires FreeList in s.lists && n <= |s.lists[FreeList]| && Transit(FreeTag) !in s.lists && o.Flight?
    ensures TakeBlocks(s, n, o).lists == s.lists[FreeList := s.lists[FreeList][n..]][o := s.lists[FreeList][..n]]
  {
  }

  lemma LinkOk(h: seq<Hdr>, s: Store, o: Owner, f: Owner)
    requires StoreOk(h, s) && o in s.lists && f in s.lists && o != f && f.Flight? && TagOf(f) == TagOf(o)
    ensures InRange(s.lists[o], |h|) && InRange(s.lists[f], |h|)
            && StoreOk(Attach(h, s.lists[o], s.lists[f]), Merge(s, o, f, false))
    ensures Merge(s, o, f, false).lists == (s.lists - {f})[o := s.lists[o] + s.lists[f]]
  {
    MergeOk(h, s, o, f, false);
    MergeLists(s, o, f, false);
  }

  lemma ReleaseOk(h: seq<Hdr>, s: Store, f: nat)
    requires StoreOk(h, s) && FileChain(f) in s.lists && Transit(FreeTag) !in s.lists && Transit(FileTag) !in s.lists
    ensures var o := FileChain(f); InRange(s.lists[o], |h|) && InRange(s.lists[FreeList], |h|)
    ensures s.lists[FileChain(f)] == [] ==> StoreOk(h, Drop(s, FileChain(f)))
    ensures s.lists[FileChain(f)] != [] ==> StoreOk(FreeHdrs(h, s.lists[FileChain(f)], 0, s.lists[FreeList]),
              Drop(FreeStore(s, FileChain(f), 0), FileChain(f)))
  {
    hide FreeStore, FreeHdrs, Linked, OwnedBy;
    var o := FileChain(f);
    FreeOk(h, s, o, 0);
    FreeLists(s, o, 0);
    hide StoreOk;
    if s.lists[o] == [] {
      DropOk(h, s, o);
    } else {
      DropOk(FreeHdrs(h, s.lists[o], 0, s.lists[FreeList]), FreeStore(s, o, 0), o);
    }
  }

  lemma ReleaseLists(s: Store, f: nat)
    requires FreeList in s.lists && FileChain(f) in s.lists && Transit(FreeTag) !in s.lists
             && Transit(FileTag) !in s.lists
    ensures var o := FileChain(f);
            var s' := if s.lists[o] == [] then Drop(s, o) else Drop(FreeStore(s, o, 0), o);
            s'.lists == (s.lists - {o})[FreeList := s.lists[o] + s.lists[FreeList]]
  {
    hide FreeStore;
    FreeLists(s, FileChain(f), 0);
    assert s.lists[FileChain(f)] == [] ==> s.lists[FileChain(f)] + s.lists[FreeList] == s.lists[FreeList];
  }

  // ----- owners -----

  lemma NotOwner(st: Sys, o: Owner)
    requires Owned(st) && !OwnerOk(st, o)
    ensures o !in st.s.lists
  {
  }

  lemma NoTransits(st: Sys)
    requires Owned(st)
    ensures Transit(FreeTag) !in st.s.lists && Transit(FileTag) !in st.s.lists
  {
    NotOwner(st, Transit(FreeTag));
    NotOwner(st, Transit(FileTag));
  }

  /** Nothing but the position of a thread that flies neither before nor after. */
  lemma QuietChains(st: Sys, st': Sys, t: nat, q: Pc)
    requires ChainsOk(st) && t < |st.pcs| && !IsFlying(st.pcs[t]) && !IsFlying(q) && st'.pcs == st.pcs[t := q]
    requires st'.h == st.h && st'.s == st.s && forall f :: Known(st', f) <==> Known(st, f)
    ensures ChainsOk(st')
  {
    hide StoreOk, Known;
    forall o | o in st'.s.lists ensures OwnerOk(st', o) {
      assert OwnerOk(st, o);
    }
  }

  lemma SameKnown(st: Sys, st': Sys)
    requires st'.dir == st.dir && st'.files == st.files
    ensures forall f :: Known(st', f) <==> Known(st, f)
  {
  }

  lemma TakeChains(st: Sys, t: nat, st': Sys)
    requires ChainsOk(st) && t < |st.pcs| && Take(st, t, st')
    ensures ChainsOk(st')
  {
    hide StoreOk, Owned, TakeAs;
    var q, n: nat :| TakeAs(st, t, q, n, st');
    TakeStore(st, t, q, n, st');
    TakeOwned(st, t, q, n, st');
  }

  lemma TakeStore(st: Sys, t: nat, q: Pc, n: nat, st': Sys)
    requires ChainsOk(st) && t < |st.pcs| && TakeAs(st, t, q, n, st')
    ensures StoreOk(st'.h, st'.s)
  {
    hide StoreOk, Owned, TakeBlocks, AllocHdrs;
    NoTransits(st);
    NotFlying(st, t, FlightOf(t, q));
    TakeOk(st.h, st.s, n, FlightOf(t, q));
  }

  lemma NotFlying(st: Sys, t: nat, o: Owner)
    requires Owned(st) && t < |st.pcs| && !IsFlying(st.pcs[t]) && o.Flight? && o.thread == t
    ensures o !in st.s.lists
  {
    NotOwner(st, o);
  }

  lemma TakeOwned(st: Sys, t: nat, q: Pc, n: nat, st': Sys)
    requires Owned(st) && t < |st.pcs| && TakeAs(st, t, q, n, st')
    ensures Owned(st')
  {
    var o := FlightOf(t, q);
    NoTransits(st);
    TakeLists(st.s, n, o);
    SameKnown(st, st');
    hide Known, TakeBlocks, AllocHdrs;
    forall p | p in st'.s.lists ensures OwnerOk(st', p) {
      if p != o {
        assert OwnerOk(st, p);
      }
    }
  }

  lemma LinkChains(st: Sys, t: nat, st': Sys)
    requires ChainsOk(st) && t < |st.pcs| && Link(st, t, st')
    ensures ChainsOk(st')
  {
    hide StoreOk, Owned, Merge, Attach;
    var p := st.pcs[t];
    LinkTags(st, p, t);
    LinkOk(st.h, st.s, Target(st, p), FlightOf(t, p));
    LinkOwned(st, t, st');
  }

  lemma LinkTags(st: Sys, p: Pc, t: nat)
    requires Owned(st) && IsFlying(p) && Target(st, p) in st.s.lists
    ensures TagOf(Target(st, p)) == TagOf(FlightOf(t, p))
  {
    assert OwnerOk(st, Target(st, p));
  }

  lemma LinkOwned(st: Sys, t: nat, st': Sys)
    requires Owned(st) && t < |st.pcs| && Link(st, t, st')
    ensures Owned(st')
  {
    var p := st.pcs[t];
    MergeLists(st.s, Target(st, p), FlightOf(t, p), false);
    SameKnown(st, st');
    hide Known, Merge, Attach;
    forall x | x in st'.s.lists ensures OwnerOk(st', x) {
      assert OwnerOk(st, x);
    }
  }

  lemma CutChains(st: Sys, t: nat, st': Sys)
    requires ChainsOk(st) && t < |st.pcs| && Cut(st, t, st')
    ensures ChainsOk(st')
  {
    hide StoreOk, Owned, FreeStore, FreeHdrs, CutAs;
    var o := FileChain(st.files[st.pcs[t].e].fid);
    var k: nat :| CutAs(st, o, k, st');
    CutStore(st, o, k, st');
    CutOwned(st, o, k, st');
  }

  lemma CutStore(st: Sys, o: Owner, k: nat, st': Sys)
    requires ChainsOk(st) && CutAs(st, o, k, st')
    ensures StoreOk(st'.h, st'.s)
  {
    hide Owned, Linked, OwnedBy, FreeStore, FreeHdrs, Partition;
    NoTransits(st);
    FreeOk(st.h, st.s, o, k);
  }

  lemma CutOwned(st: Sys, o: Owner, k: nat, st': Sys)
    requires Owned(st) && CutAs(st, o, k, st')
    ensures Owned(st')
  {
    NoTransits(st);
    FreeLists(st.s, o, k);
    SameKnown(st, st');
    hide Known, FreeStore, FreeHdrs;
    forall x | x in st'.s.lists ensures OwnerOk(st', x) {
      assert OwnerOk(st, x);
    }
  }

  lemma CreateChains(st: Sys, t: nat, st': Sys)
    requires ChainsOk(st) && TablesOk(st) && t < |st.pcs| && Create(st, t, st')
    ensures ChainsOk(st')
  {
    var o := FileChain(st.next);
    hide StoreOk, EntryRefs;
    NotOwner(st, o);
    AddEmptyOk(st.h, st.s, o);
    forall f ensures Known(st', f) <==> Known(st, f) || f == st.next {
    }
    hide Known;
    forall x | x in st'.s.lists ensures OwnerOk(st', x) {
      if x != o {
        assert OwnerOk(st, x);
      }
    }
  }

  lemma EnterChains(st: Sys, t: nat, st': Sys)
    requires ChainsOk(st) && t < |st.pcs| && Enter(st, t, st')
    ensures ChainsOk(st')
  {
    hide StoreOk, Owned;
    var fd, e, f :| EnterAs(st, t, fd, e, f, st');
    forall g ensures Known(st', g) <==> Known(st, g) {
      if Known(st, g) && g !in st.dir {
        var i :| 0 <= i < |st.files| && st.files[i].Entry? && st.files[i].fid == g;
        assert st'.files[i].Entry? && st'.files[i].fid == g;
      }
      if Known(st', g) && g !in st.dir {
        var i :| 0 <= i < |st'.files| && st'.files[i].Entry? && st'.files[i].fid == g;
        assert st.files[i].Entry? && st.files[i].fid == g;
      }
    }
    QuietChains(st, st', t, Publish(fd, e));
  }

  // ----- files that go -----

  /** Like Owned, but nothing knows file f any more, apart from its chain. */
  ghost predicate Orphaned(st: Sys, f: nat) {
    && FreeList in st.s.lists && DirChain in st.s.lists
    && !Known(st, f) && FileChain(f) in st.s.lists
    && (forall o | o in st.s.lists :: o == FileChain(f) || OwnerOk(st, o))
    && (forall g | Known(st, g) :: FileChain(g) in st.s.lists)
    && (forall t | 0 <= t < |st.pcs| && IsFlying(st.pcs[t]) ::
         FlightOf(t, st.pcs[t]) in st.s.lists && st.s.lists[FlightOf(t, st.pcs[t])] != [])
  }

  lemma OrphanTransits(st: Sys, f: nat)
    requires Orphaned(st, f)
    ensures Transit(FreeTag) !in st.s.lists && Transit(FileTag) !in st.s.lists
  {
    assert !OwnerOk(st, Transit(FreeTag)) && !OwnerOk(st, Transit(FileTag));
    hide Known;
  }

  lemma ReleasedChains(st: Sys, f: nat)
    requires StoreOk(st.h, st.s) && Orphaned(st, f) && Releasable(st, f)
    ensures ChainsOk(Released(st, f))
  {
    hide StoreOk, Orphaned, FreeStore, FreeHdrs, Owned, Drop;
    OrphanTransits(st, f);
    ReleaseOk(st.h, st.s, f);
    ReleasedOwned(st, f);
  }

  lemma ReleasedOwned(st: Sys, f: nat)
    requires Orphaned(st, f) && Releasable(st, f)
    ensures Owned(Released(st, f))
  {
    var st' := Released(st, f);
    OrphanTransits(st, f);
    ReleaseLists(st.s, f);
    SameKnown(st, st');
    hide Known, FreeStore, FreeHdrs, Drop;
    forall x | x in st'.s.lists ensures OwnerOk(st', x) {
      assert x != FileChain(f) ==> OwnerOk(st, x);
    }
  }

  lemma CloseChains(st: Sys, t: nat, st': Sys)
    requires ChainsOk(st) && TablesOk(st) && t < |st.pcs| && Close(st, t, st')
    ensures ChainsOk(st')
  {
    hide StoreOk, Owned, EntryRefs, Known, Released;
    CloseTables(st, t, st');
    var fd := st.pcs[t].fd;
    if st.descs[fd].NoDesc? || st.files[st.descs[fd].file].refs > 1 || st.files[st.descs[fd].file].fid in st.dir {
      CloseKnown(st, t, st');
      QuietChains(st, st', t, Idle);
    } else {
      var e := st.descs[fd].file;
      var b := st.(descs := st.descs[fd := NoDesc], pcs := st.pcs[t := Idle], files := st.files[e := NoEntry]);
      EntryGone(st, t, e, b);
      ReleasedChains(b, st.files[e].fid);
    }
  }

  lemma CloseKnown(st: Sys, t: nat, st': Sys)
    requires TablesOk(st) && t < |st.pcs| && Close(st, t, st')
    requires var fd := st.pcs[t].fd;
             st.descs[fd].NoDesc? || st.files[st.descs[fd].file].refs > 1 || st.files[st.descs[fd].file].fid in st.dir
    ensures forall g :: Known(st', g) <==> Known(st, g)
  {
    CloseTables(st, t, st');
    hide EntryRefs, Close;
    forall g ensures Known(st', g) <==> Known(st, g) {
      if Known(st, g) && g !in st.dir {
        var i :| 0 <= i < |st.files| && st.files[i].Entry? && st.files[i].fid == g;
        assert st'.files[i].Entry? && st'.files[i].fid == g;
      }
      if Known(st', g) && g !in st.dir {
        var i :| 0 <= i < |st'.files| && st'.files[i].Entry? && st'.files[i].fid == g;
        assert st.files[i].Entry? && st.files[i].fid == g;
      }
    }
  }

  lemma EntryGone(st: Sys, t: nat, e: nat, b: Sys)
    requires Owned(st) && TablesOk(st) && t < |st.pcs| && !IsFlying(st.pcs[t]) && IsEntry(st, e)
             && st.files[e].fid !in st.dir
    requires b.s == st.s && b.dir == st.dir && b.pcs == st.pcs[t := Idle] && b.files == st.files[e := NoEntry]
    ensures Orphaned(b, st.files[e].fid)
  {
    var f := st.files[e].fid;
    hide EntryRefs;
    forall g ensures Known(b, g) <==> Known(st, g) && g != f {
      if Known(st, g) && g !in st.dir && g != f {
        var i :| 0 <= i < |st.files| && st.files[i].Entry? && st.files[i].fid == g;
        assert b.files[i].Entry? && b.files[i].fid == g;
      }
      if Known(b, g) && g !in st.dir {
        var i :| 0 <= i < |b.files| && b.files[i].Entry? && b.files[i].fid == g;
        assert st.files[i].Entry? && st.files[i].fid == g;
      }
    }
    assert Known(st, f);
    hide Known, TablesOk;
    forall o | o in b.s.lists ensures o == FileChain(f) || OwnerOk(b, o) {
      assert OwnerOk(st, o);
    }
  }

  lemma NameGone(st: Sys, f: nat, b: Sys)
    requires Owned(st) && f in st.dir && NotOpen(st, f) && b == st.(dir := st.dir - {f})
    ensures Orphaned(b, f)
  {
    forall g ensures Known(b, g) <==> Known(st, g) && g != f {
      if Known(st, g) && g !in st.dir {
        var i :| 0 <= i < |st.files| && st.files[i].Entry? && st.files[i].fid == g;
        assert b.files[i].Entry? && b.files[i].fid == g;
      }
      if Known(b, g) && g !in b.dir {
        var i :| 0 <= i < |b.files| && b.files[i].Entry? && b.files[i].fid == g;
        assert st.files[i].Entry? && st.files[i].fid == g;
      }
    }
    assert Known(st, f);
    hide Known, NotOpen;
    forall o | o in b.s.lists ensures o == FileChain(f) || OwnerOk(b, o) {
      assert OwnerOk(st, o);
    }
  }

  lemma UnlinkChains(st: Sys, t: nat, st': Sys)
    requires ChainsOk(st) && t < |st.pcs| && Unlink(st, t, st')
    ensures ChainsOk(st')
  {
    hide StoreOk, Owned, Known, Released, FileFree;
    if st.pcs[t].NamesUnlink? {
      UnlinkedKnown(st, st.pcs[t].e, st');
      QuietChains(st, st', t, Names);
    } else {
      var f :| f in st.dir && NotOpen(st, f) && Releasable(st, f) && st' == Released(st.(dir := st.dir - {f}), f);
      NameGone(st, f, st.(dir := st.dir - {f}));
      ReleasedChains(st.(dir := st.dir - {f}), f);
    }
  }

  lemma UnlinkedKnown(st: Sys, e: nat, st': Sys)
    requires IsEntry(st, e) && st'.dir == st.dir - {st.files[e].fid} && st'.files == st.files
    ensures forall g :: Known(st', g) <==> Known(st, g)
  {
    forall g ensures Known(st', g) <==> Known(st, g) {
      if g == st.files[e].fid {
        assert st'.files[e].Entry? && st'.files[e].fid == g;
      }
    }
  }

  lemma GoChains(st: Sys, t: nat, st': Sys)
    requires ChainsOk(st) && t < |st.pcs| && Go(st, t, st')
    ensures ChainsOk(st')
  {
    hide StoreOk, Owned;
    var q :| CanGo(st, t, st.pcs[t], q) && st' == st.(pcs := st.pcs[t := q]);
    SameKnown(st, st');
    QuietChains(st, st', t, q);
  }
}
