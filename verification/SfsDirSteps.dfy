/** How opening, closing, creating and unlinking files carry the representation along. */
module SfsDirSteps {
  import opened SfsChains
  import opened SfsContents
  import opened SfsRep
  import opened SfsRepSteps
  import opened SfsFileSteps
  import opened SfsOpSteps
  import Spec = SfsSpec
  import Proofs = SfsSpecProofs

  // ----- slots and open files -----

  /** Occupied slots are recognised by their first block, and their names compare as C strings. */
  lemma SlotEntry(h: seq<Hdr>, s: Store, ents: seq<seq<DirEntry>>, a: Spec.Afs, k: nat)
    requires StoreOk(h, s) && DirRep(ents, s.lists, a) && k < |a.dir|
    ensures var e := EntryAt(ents, s.lists[DirChain], k);
            && EntryRep(e, a.dir[k], s.lists, a.inodes)
            && (e.first != 0 <==> a.dir[k].Used?)
            && (a.dir[k].Used? ==> CStr(e.name) == a.dir[k].name)
  {
    hide Linked;
    var e := EntryAt(ents, s.lists[DirChain], k);
    assert EntryRep(e, a.dir[k], s.lists, a.inodes);
    if a.dir[k].Used? {
      CStrPad(a.dir[k].name);
      assert OwnedBy(s, FileChain(a.dir[k].fid));
    }
  }

  /** An open file points at a slot exactly if it is the slot's file. */
  lemma OpenAtSlot(c: State, l: Lists, a: Spec.Afs, k: nat, t: nat)
    requires DirRep(c.ents, l, a) && TabRep(c.files, c.descs, c.fid, c.at, l, a) && Spec.Inv(a)
    requires k < |a.dir| && a.dir[k].Used? && t < LIMIT && c.files[t].OpenFile?
    ensures c.files[t].diskFile == SlotRef(l[DirChain], k) <==> c.fid[t] == a.dir[k].fid
    ensures c.fid[t] == a.dir[k].fid ==> c.at[t] == k && !c.files[t].unlinked
  {
    assert OpenRep(c.files[t], Refs(c.descs, t), c.fid[t], c.at[t], l, a);
    if !c.files[t].unlinked && c.files[t].diskFile == SlotRef(l[DirChain], k) {
      SlotRefInjective(l[DirChain], |c.ents|, c.at[t], k);
    }
    if c.fid[t] == a.dir[k].fid {
      assert Spec.InDir(a.dir, c.fid[t]);
    }
  }

  /** A file is open in the abstract state exactly if some open-file entry is its own. */
  lemma OpenIff(c: State, l: Lists, a: Spec.Afs, f: nat)
    requires TabRep(c.files, c.descs, c.fid, c.at, l, a)
    ensures Spec.IsOpen(a.fds, f) <==> exists t | 0 <= t < LIMIT :: c.files[t].OpenFile? && c.fid[t] == f
  {
    if Spec.IsOpen(a.fds, f) {
      var i :| 0 <= i < |a.fds| && a.fds[i].At? && a.fds[i].fid == f;
      assert DescRep(c.descs[i], a.fds[i], c.files, c.fid);
    }
    if t :| 0 <= t < LIMIT && c.files[t].OpenFile? && c.fid[t] == f {
      assert OpenRep(c.files[t], Refs(c.descs, t), c.fid[t], c.at[t], l, a);
      var i := RefsWitness(c.descs, t);
      assert DescRep(c.descs[i], a.fds[i], c.files, c.fid);
    }
  }

  // ----- removing a file -----

  /** The lists once file f has given all its blocks back. */
  function Removed(l: Lists, f: nat): Lists
    requires FreeList in l && FileChain(f) in l
  {
    Freed(l, FileChain(f), 0) - {FileChain(f)}
  }

  lemma RemovedKeeps(c: State, l: Lists, l': Lists, f: nat, a: Spec.Afs)
    requires Rep(c, l', a) && FreeList in l && FileChain(f) in l && (l' == l || l' == Removed(l, f))
    ensures KeepsChains(l, l', a.inodes)
  {
    hide DirRep, TabRep, Spec.Inv;
  }

  lemma ForgetFiles(data: seq<seq<Byte>>, l: Lists, a: Spec.Afs, f: nat)
    requires FilesRep(data, l, a) && f in a.inodes && FileChain(f) in l
    ensures FilesRep(data, Removed(l, f), a.(inodes := a.inodes - {f}, avail := a.avail + a.inodes[f].blocks))
  {
    assert InodeRep(data, l[FileChain(f)], a.inodes[f]);
    forall g | g in a.inodes && g != f ensures FileChain(g) in l
           && InodeRep(data, Removed(l, f)[FileChain(g)], a.inodes[g]) {
      assert InodeRep(data, l[FileChain(g)], a.inodes[g]);
    }
  }

  lemma ForgetDir(ents: seq<seq<DirEntry>>, l: Lists, a: Spec.Afs, f: nat, avail: nat)
    requires DirRep(ents, l, a) && FreeList in l && f in a.inodes && FileChain(f) in l && !Spec.InDir(a.dir, f)
    ensures DirRep(ents, Removed(l, f), a.(inodes := a.inodes - {f}, avail := avail))
  {
    var a' := a.(inodes := a.inodes - {f}, avail := avail);
    forall k | 0 <= k < |a.dir| ensures EntryRep(EntryAt(ents, l[DirChain], k), a.dir[k], Removed(l, f), a'.inodes) {
      assert EntryRep(EntryAt(ents, l[DirChain], k), a.dir[k], l, a.inodes);
    }
  }

  lemma ForgetTab(c: State, l: Lists, a: Spec.Afs, f: nat, avail: nat)
    requires TabRep(c.files, c.descs, c.fid, c.at, l, a) && FreeList in l && f in a.inodes && FileChain(f) in l
             && !Spec.IsOpen(a.fds, f)
    ensures TabRep(c.files, c.descs, c.fid, c.at, Removed(l, f), a.(inodes := a.inodes - {f}, avail := avail))
  {
    var a' := a.(inodes := a.inodes - {f}, avail := avail);
    OpenIff(c, l, a, f);
    forall t | 0 <= t < LIMIT && c.files[t].OpenFile?
           ensures OpenRep(c.files[t], Refs(c.descs, t), c.fid[t], c.at[t], Removed(l, f), a') {
      assert OpenRep(c.files[t], Refs(c.descs, t), c.fid[t], c.at[t], l, a);
    }
  }

  /** A file that is neither in the directory nor open can go. */
  lemma ForgetFile(c: State, l: Lists, a: Spec.Afs, f: nat)
    requires FilesRep(c.data, l, a) && DirRep(c.ents, l, a) && TabRep(c.files, c.descs, c.fid, c.at, l, a)
    requires FreeList in l && f in a.inodes && FileChain(f) in l && !Spec.InDir(a.dir, f) && !Spec.IsOpen(a.fds, f)
    ensures var a' := a.(inodes := a.inodes - {f}, avail := a.avail + a.inodes[f].blocks);
            var l' := Removed(l, f);
            FilesRep(c.data, l', a') && DirRep(c.ents, l', a') && TabRep(c.files, c.descs, c.fid, c.at, l', a')
  {
    hide FilesRep, DirRep, TabRep;
    ForgetFiles(c.data, l, a, f);
    ForgetDir(c.ents, l, a, f, a.avail + a.inodes[f].blocks);
    ForgetTab(c, l, a, f, a.avail + a.inodes[f].blocks);
  }

  // ----- close -----

  /** The open-file entry after one descriptor less. */
  function Released(x: OpenFile): OpenFile
    requires x.OpenFile?
  {
    if x.refCount > 1 then x.(refCount := x.refCount - 1) else NoFile
  }

  /** The tables after descriptor fd is gone. */
  lemma CloseTab(c: State, l: Lists, a: Spec.Afs, fd: nat, d: Desc)
    requires TabRep(c.files, c.descs, c.fid, c.at, l, a) && Handle(c, a, fd, d)
    ensures var x := c.files[d.file]; var fds := a.fds[fd := Spec.Shut];
            && x.refCount > 0
            && TabRep(c.files[d.file := Released(x)], c.descs[fd := NoDesc], c.fid, c.at, l, a.(fds := fds))
            && (Spec.IsOpen(fds, c.fid[d.file]) <==> x.refCount > 1)
  {
    var t, x, fds := d.file, c.files[d.file], a.fds[fd := Spec.Shut];
    var files', descs', a' := c.files[t := Released(x)], c.descs[fd := NoDesc], a.(fds := fds);
    RefsUpdate(c.descs, fd, NoDesc, t);
    RefsPositive(c.descs, fd);
    assert OpenRep(x, Refs(c.descs, t), c.fid[t], c.at[t], l, a);
    forall i | 0 <= i < LIMIT ensures DescRep(descs'[i], fds[i], files', c.fid) {
      assert DescRep(c.descs[i], a.fds[i], c.files, c.fid);
      if descs'[i].Desc? && descs'[i].file == t {
        RefsPositive(descs', i);
      }
    }
    forall u | 0 <= u < LIMIT && files'[u].OpenFile?
           ensures OpenRep(files'[u], Refs(descs', u), c.fid[u], c.at[u], l, a') {
      RefsUpdate(c.descs, fd, NoDesc, u);
      assert OpenRep(c.files[u], Refs(c.descs, u), c.fid[u], c.at[u], l, a);
    }
    OpenIff(c.(files := files', descs := descs'), l, a', c.fid[t]);
  }

  lemma HandleOpen(c: State, l: Lists, a: Spec.Afs, fd: nat, d: Desc)
    requires Rep(c, l, a) && Handle(c, a, fd, d)
    ensures var x, f := c.files[d.file], c.fid[d.file];
            FreeList in l && FileChain(f) in l && (x.unlinked <==> !Spec.InDir(a.dir, f))
  {
    hide DirRep, Spec.Inv;
    assert OpenRep(c.files[d.file], Refs(c.descs, d.file), c.fid[d.file], c.at[d.file], l, a);
  }

  /** Closing: the blocks of an unlinked file go with its last descriptor. */
  lemma CloseOk(c: State, l: Lists, a: Spec.Afs, fd: nat, d: Desc)
    requires Rep(c, l, a) && Handle(c, a, fd, d)
    ensures var x, f := c.files[d.file], c.fid[d.file];
            var c' := c.(files := c.files[d.file := Released(x)], descs := c.descs[fd := NoDesc]);
            && FreeList in l && FileChain(f) in l && x.refCount > 0
            && Rep(c', if x.refCount == 1 && x.unlinked then Removed(l, f) else l, Spec.Close(a, fd))
            && Spec.Close(a, fd).mounted == a.mounted
  {
    hide FilesRep, DirRep, TabRep, Spec.Inv;
    var x, f := c.files[d.file], c.fid[d.file];
    HandleOpen(c, l, a, fd, d);
    CloseTab(c, l, a, fd, d);
    Proofs.CloseInv(a, fd);
    var a1 := a.(fds := a.fds[fd := Spec.Shut]);
    FdsIrrelevant(c.data, c.ents, l, a, a1);
    var c' := c.(files := c.files[d.file := Released(x)], descs := c.descs[fd := NoDesc]);
    if x.refCount == 1 && x.unlinked {
      ForgetFile(c', l, a1, f);
    }
  }

  // ----- slots -----

  function SlotSet(c: State, l: Lists, k: nat, e: DirEntry): State
    requires DirChain in l && DirShape(c.ents, l[DirChain]) && k < ENTRIES * (|l[DirChain]| + 1)
  {
    var r := SlotRef(l[DirChain], k);
    c.(ents := PutEntry(c.ents, r.block, r.index, e))
  }

  /** Slot k of the directory gets entry e and abstract content slot; files it does not mention stay as they are. */
  lemma SlotDir(ents: seq<seq<DirEntry>>, l: Lists, a: Spec.Afs, k: nat, e: DirEntry, slot: Spec.Slot, l': Lists,
          inodes': map<nat, Spec.Inode>, a': Spec.Afs)
    requires DirRep(ents, l, a) && k < |a.dir| && EntryRep(e, slot, l', inodes')
    requires DirChain in l' && l'[DirChain] == l[DirChain] && a'.dir == a.dir[k := slot] && a'.inodes == inodes'
    requires forall f | f in a.inodes :: f in inodes' && inodes'[f] == a.inodes[f]
    requires forall f | f in a.inodes && FileChain(f) in l :: FileChain(f) in l' && l'[FileChain(f)] == l[FileChain(f)]
    ensures var r := SlotRef(l[DirChain], k);
            DirRep(PutEntry(ents, r.block, r.index, e), l', a')
  {
    var r := SlotRef(l[DirChain], k);
    var ents' := PutEntry(ents, r.block, r.index, e);
    PutEntryAt(ents, l[DirChain], k, e, k);
    forall j | 0 <= j < |a'.dir| ensures EntryRep(EntryAt(ents', l[DirChain], j), a'.dir[j], l', a'.inodes) {
      PutEntryAt(ents, l[DirChain], k, e, j);
      assert EntryRep(EntryAt(ents, l[DirChain], j), a.dir[j], l, a.inodes);
    }
  }

  /** The open-file table when slot k is cleared: the slot's file, if open, keeps a private copy of its entry. */
  function FilesAfterUnlink(files: seq<OpenFile>, t: nat, e: DirEntry): seq<OpenFile> {
    if t < |files| && files[t].OpenFile?
       then files[t := files[t].(unlinkedFile := e, diskFile := Private, unlinked := true)] else files
  }

  lemma UnlinkOther(x: OpenFile, refs: nat, f: nat, j: nat, l: Lists, a: Spec.Afs, k: nat)
    requires DirChain in l && |a.dir| == ENTRIES * (|l[DirChain]| + 1)
    requires OpenRep(x, refs, f, j, l, a) && k < |a.dir| && a.dir[k].Used? && a.dir[k].fid != f
    ensures OpenRep(x, refs, f, j, l, a.(dir := a.dir[k := Spec.Empty]))
  {
    var dir := a.dir[k := Spec.Empty];
    if Spec.InDir(dir, f) {
      var i :| 0 <= i < |dir| && dir[i].Used? && dir[i].fid == f;
      assert a.dir[i].Used? && a.dir[i].fid == f;
    }
  }

  lemma UnlinkTab(c: State, l: Lists, a: Spec.Afs, k: nat, t: nat, e: DirEntry)
    requires TabRep(c.files, c.descs, c.fid, c.at, l, a) && k < |a.dir| && a.dir[k].Used?
             && Spec.DirInv(a.dir, a.inodes)
    requires FileChain(a.dir[k].fid) in l && EntryData(e, l[FileChain(a.dir[k].fid)], |a.inodes[a.dir[k].fid].data|)
    requires t <= LIMIT && (t < LIMIT ==> c.files[t].OpenFile? && c.fid[t] == a.dir[k].fid)
    requires t == LIMIT ==> forall u | 0 <= u < LIMIT :: c.files[u].OpenFile? ==> c.fid[u] != a.dir[k].fid
    ensures TabRep(FilesAfterUnlink(c.files, t, e), c.descs, c.fid, c.at, l, a.(dir := a.dir[k := Spec.Empty]))
  {
    var a1, files' := a.(dir := a.dir[k := Spec.Empty]), FilesAfterUnlink(c.files, t, e);
    forall i | 0 <= i < LIMIT ensures DescRep(c.descs[i], a1.fds[i], files', c.fid) {
      assert DescRep(c.descs[i], a.fds[i], c.files, c.fid);
    }
    forall u | 0 <= u < LIMIT && files'[u].OpenFile?
           ensures OpenRep(files'[u], Refs(c.descs, u), c.fid[u], c.at[u], l, a1) {
      assert OpenRep(c.files[u], Refs(c.descs, u), c.fid[u], c.at[u], l, a);
      if u != t {
        UnlinkOther(c.files[u], Refs(c.descs, u), c.fid[u], c.at[u], l, a, k);
      } else {
        NotInDir(a, k);
      }
    }
  }

  lemma NotInDir(a: Spec.Afs, k: nat)
    requires Spec.DirInv(a.dir, a.inodes) && k < |a.dir| && a.dir[k].Used?
    ensures !Spec.InDir(a.dir[k := Spec.Empty], a.dir[k].fid)
  {
  }

  /** The state after unlinkDirectoryEntry on slot k, whose open file is t (LIMIT if none). */
  function AfterUnlink(c: State, l: Lists, k: nat, t: nat): State
    requires DirChain in l && DirShape(c.ents, l[DirChain]) && k < ENTRIES * (|l[DirChain]| + 1)
  {
    SlotSet(c, l, k, ZeroEntry()).(files := FilesAfterUnlink(c.files, t, EntryAt(c.ents, l[DirChain], k)))
  }

  lemma UnlinkOk(c: State, l: Lists, a: Spec.Afs, k: nat, t: nat)
    requires Rep(c, l, a) && k < |a.dir| && a.dir[k].Used?
    requires t <= LIMIT && (t < LIMIT ==> c.files[t].OpenFile? && c.fid[t] == a.dir[k].fid)
    requires t == LIMIT ==> forall u | 0 <= u < LIMIT :: c.files[u].OpenFile? ==> c.fid[u] != a.dir[k].fid
    ensures FreeList in l && DirChain in l && FileChain(a.dir[k].fid) in l && a.dir[k].fid in a.inodes
    ensures Rep(AfterUnlink(c, l, k, t), if t < LIMIT then l else Removed(l, a.dir[k].fid), Spec.Unlink(a, k))
    ensures Spec.Unlink(a, k).mounted == a.mounted
  {
    hide FilesRep, DirRep, TabRep, Spec.InDir;
    SlotFacts(c, l, a, k);
    var a1, f, c1 := a.(dir := a.dir[k := Spec.Empty]), a.dir[k].fid, AfterUnlink(c, l, k, t);
    SlotDir(c.ents, l, a, k, ZeroEntry(), Spec.Empty, l, a.inodes, a1);
    UnlinkTab(c, l, a, k, t, EntryAt(c.ents, l[DirChain], k));
    UnlinkFiles(c.data, l, a, a1);
    OpenIff(c, l, a, f);
    Proofs.UnlinkInv(a, k);
    NotInDir(a, k);
    if t == LIMIT {
      ForgetFile(c1, l, a1, f);
    }
  }

  lemma SlotFacts(c: State, l: Lists, a: Spec.Afs, k: nat)
    requires Rep(c, l, a) && k < |a.dir|
    ensures FreeList in l && DirChain in l && DirShape(c.ents, l[DirChain]) && |a.dir| == ENTRIES * (|l[DirChain]| + 1)
    ensures |c.files| == |c.descs| == |c.fid| == |c.at| == |a.fds| == LIMIT
    ensures EntryRep(EntryAt(c.ents, l[DirChain], k), a.dir[k], l, a.inodes)
  {
    hide Spec.Inv;
  }

  lemma UnlinkFiles(data: seq<seq<Byte>>, l: Lists, a: Spec.Afs, a1: Spec.Afs)
    requires FilesRep(data, l, a) && a1.inodes == a.inodes && a1.avail == a.avail
    ensures FilesRep(data, l, a1)
  {
  }

  // ----- new entries -----

  /** Slot k names a new empty file that is not open yet. */
  ghost function Named(a: Spec.Afs, k: nat, name: Spec.CString): Spec.Afs
    requires k < |a.dir|
  {
    a.(dir := a.dir[k := Spec.Used(name, a.next)], inodes := a.inodes[a.next := Spec.Inode([], 0)], next := a.next + 1)
  }

  lemma NamedInv(a: Spec.Afs, k: nat, name: Spec.CString)
    requires Spec.Inv(a) && k < |a.dir| && a.dir[k].Empty?
    requires Spec.GoodName(name) && forall j | 0 <= j < |a.dir| :: a.dir[j].Used? ==> a.dir[j].name != name
    ensures Spec.Inv(Named(a, k, name))
  {
    var b := Named(a, k, name);
    assert b.dir[k].Used? && b.dir[k].fid == a.next;
    forall g | g in b.inodes ensures Proofs.Kept(b, g) {
      if g != a.next {
        assert Proofs.Kept(a, g);
        if Spec.InDir(a.dir, g) {
          var j :| 0 <= j < |a.dir| && a.dir[j].Used? && a.dir[j].fid == g;
          assert b.dir[j].Used? && b.dir[j].fid == g;
        }
      }
    }
  }

  function NewEntry(name: Spec.CString): DirEntry
    requires |name| < Spec.SFS_FILE_NAME_SIZE_LIMIT
  {
    DirEntry(EMPTY_FILE_BLOCK, 0, PadName(name))
  }

  lemma NamedFiles(data: seq<seq<Byte>>, l: Lists, a: Spec.Afs, k: nat, name: Spec.CString)
    requires FilesRep(data, l, a) && k < |a.dir| && FileChain(a.next) !in l
    ensures FilesRep(data, l[FileChain(a.next) := []], Named(a, k, name))
  {
    var b, l' := Named(a, k, name), l[FileChain(a.next) := []];
    forall f | f in b.inodes ensures FileChain(f) in l' && InodeRep(data, l'[FileChain(f)], b.inodes[f]) {
      if f != a.next {
        assert InodeRep(data, l[FileChain(f)], a.inodes[f]);
      }
    }
  }

  lemma NamedTab(c: State, l: Lists, a: Spec.Afs, k: nat, name: Spec.CString)
    requires TabRep(c.files, c.descs, c.fid, c.at, l, a) && k < |a.dir| && a.dir[k].Empty? && a.next !in a.inodes
    ensures TabRep(c.files, c.descs, c.fid, c.at, l[FileChain(a.next) := []], Named(a, k, name))
  {
    var b, l' := Named(a, k, name), l[FileChain(a.next) := []];
    forall u | 0 <= u < LIMIT && c.files[u].OpenFile?
           ensures OpenRep(c.files[u], Refs(c.descs, u), c.fid[u], c.at[u], l', b) {
      assert OpenRep(c.files[u], Refs(c.descs, u), c.fid[u], c.at[u], l, a);
      if Spec.InDir(b.dir, c.fid[u]) {
        var j :| 0 <= j < |b.dir| && b.dir[j].Used? && b.dir[j].fid == c.fid[u];
        assert a.dir[j].Used? && a.dir[j].fid == c.fid[u];
      }
    }
  }

  lemma NamedOk(c: State, l: Lists, a: Spec.Afs, k: nat, name: Spec.CString)
    requires Rep(c, l, a) && k < |a.dir| && a.dir[k].Empty?
    requires Spec.GoodName(name) && forall j | 0 <= j < |a.dir| :: a.dir[j].Used? ==> a.dir[j].name != name
    ensures DirChain in l && DirShape(c.ents, l[DirChain]) && k < ENTRIES * (|l[DirChain]| + 1)
            && FileChain(a.next) !in l
    ensures Rep(SlotSet(c, l, k, NewEntry(name)), l[FileChain(a.next) := []], Named(a, k, name))
  {
    NextUnused(c.data, l, a);
    NamedFiles(c.data, l, a, k, name);
    NamedTab(c, l, a, k, name);
    NamedInv(a, k, name);
    var b, l' := Named(a, k, name), l[FileChain(a.next) := []];
    SlotDir(c.ents, l, a, k, NewEntry(name), Spec.Used(name, a.next), l', b.inodes, b);
    hide FilesRep, TabRep, Spec.Inv;
  }

  lemma NextUnused(data: seq<seq<Byte>>, l: Lists, a: Spec.Afs)
    requires FilesRep(data, l, a) && Spec.Inv(a)
    ensures a.next !in a.inodes && FileChain(a.next) !in l
  {
  }

  // ----- open -----

  /** No descriptor refers to an unused open-file slot. */
  lemma UnusedRefs(c: State, l: Lists, a: Spec.Afs, t: nat)
    requires TabRep(c.files, c.descs, c.fid, c.at, l, a) && t < LIMIT && c.files[t].NoFile?
    ensures Refs(c.descs, t) == 0
  {
    if Refs(c.descs, t) > 0 {
      var i := RefsWitness(c.descs, t);
    }
  }

  /** The tables after descriptor fd is opened on open file t, which is entered as x. */
  lemma OpenTab(c: State, l: Lists, a: Spec.Afs, fd: nat, t: nat, x: OpenFile, f: nat, k: nat)
    requires TabRep(c.files, c.descs, c.fid, c.at, l, a) && fd < LIMIT && t < LIMIT && c.descs[fd].NoDesc?
    requires OpenRep(x, Refs(c.descs, t) + 1, f, k, l, a)
    requires c.files[t].OpenFile? ==> c.fid[t] == f && c.at[t] == k
    requires forall u | 0 <= u < LIMIT && u != t && c.files[u].OpenFile? :: c.fid[u] != f
    ensures TabRep(c.files[t := x], c.descs[fd := Desc(t, 0)], c.fid[t := f], c.at[t := k], l,
              a.(fds := a.fds[fd := Spec.At(f, 0)]))
  {
    var files', descs', a' := c.files[t := x], c.descs[fd := Desc(t, 0)], a.(fds := a.fds[fd := Spec.At(f, 0)]);
    forall i | 0 <= i < LIMIT ensures DescRep(descs'[i], a'.fds[i], files', c.fid[t := f]) {
      assert DescRep(c.descs[i], a.fds[i], c.files, c.fid);
    }
    forall u | 0 <= u < LIMIT && files'[u].OpenFile?
           ensures OpenRep(files'[u], Refs(descs', u), c.fid[t := f][u], c.at[t := k][u], l, a') {
      RefsUpdate(c.descs, fd, Desc(t, 0), u);
      if u != t {
        assert OpenRep(c.files[u], Refs(c.descs, u), c.fid[u], c.at[u], l, a);
      }
    }
  }

  /** The open-file entry t once slot k has one more descriptor. */
  function Opened(x: OpenFile, r: EntryRef): OpenFile {
    if x.OpenFile? then x.(refCount := x.refCount + 1) else OpenFile(1, false, r, ZeroEntry())
  }

  /** addOpenFileEntry on slot k, using open-file slot t and descriptor fd. */
  lemma AddOpenOk(c: State, l: Lists, a: Spec.Afs, k: nat, fd: nat, t: nat)
    requires Rep(c, l, a) && k < |a.dir| && a.dir[k].Used? && fd < LIMIT && t < LIMIT && c.descs[fd].NoDesc?
             && a.mounted
    requires c.files[t].OpenFile? ==> c.fid[t] == a.dir[k].fid
    requires c.files[t].NoFile? ==> forall u | 0 <= u < LIMIT :: c.files[u].OpenFile? ==> c.fid[u] != a.dir[k].fid
    ensures DirChain in l && k < ENTRIES * (|l[DirChain]| + 1)
    ensures var f := a.dir[k].fid;
            Rep(c.(files := c.files[t := Opened(c.files[t], SlotRef(l[DirChain], k))],
                    descs := c.descs[fd := Desc(t, 0)], fid := c.fid[t := f], at := c.at[t := k]), l,
                a.(fds := a.fds[fd := Spec.At(f, 0)]))
  {
    hide FilesRep, DirRep, TabRep;
    SlotFacts(c, l, a, k);
    var f := a.dir[k].fid;
    var a' := a.(fds := a.fds[fd := Spec.At(f, 0)]);
    FreeDesc(c, l, a, fd);
    Proofs.ReopenInv(a, k, fd);
    FdsIrrelevant(c.data, c.ents, l, a, a');
    OpenedRep(c, l, a, k, t);
    OpenTab(c, l, a, fd, t, Opened(c.files[t], SlotRef(l[DirChain], k)), f, k);
  }

  lemma FreeDesc(c: State, l: Lists, a: Spec.Afs, fd: nat)
    requires TabRep(c.files, c.descs, c.fid, c.at, l, a) && fd < LIMIT
    ensures a.fds[fd].Shut? <==> c.descs[fd].NoDesc?
  {
    assert DescRep(c.descs[fd], a.fds[fd], c.files, c.fid);
  }

  lemma OpenedRep(c: State, l: Lists, a: Spec.Afs, k: nat, t: nat)
    requires Rep(c, l, a) && k < |a.dir| && a.dir[k].Used? && t < LIMIT
    requires c.files[t].OpenFile? ==> c.fid[t] == a.dir[k].fid
    requires c.files[t].NoFile? ==> forall u | 0 <= u < LIMIT :: c.files[u].OpenFile? ==> c.fid[u] != a.dir[k].fid
    ensures DirChain in l && |a.dir| == ENTRIES * (|l[DirChain]| + 1)
    ensures OpenRep(Opened(c.files[t], SlotRef(l[DirChain], k)), Refs(c.descs, t) + 1, a.dir[k].fid, k, l, a)
    ensures c.files[t].OpenFile? ==> c.at[t] == k
    ensures forall u | 0 <= u < LIMIT && u != t && c.files[u].OpenFile? :: c.fid[u] != a.dir[k].fid
  {
    assert EntryRep(EntryAt(c.ents, l[DirChain], k), a.dir[k], l, a.inodes);
    hide FilesRep, DirRep;
    if c.files[t].OpenFile? {
      OpenAtSlot(c, l, a, k, t);
      assert OpenRep(c.files[t], Refs(c.descs, t), c.fid[t], c.at[t], l, a);
    } else {
      UnusedRefs(c, l, a, t);
    }
  }

  // ----- a larger directory -----

  function EmptyEntries(): seq<DirEntry> {
    seq(ENTRIES, _ => ZeroEntry())
  }

  /** The directory after block id joins its chain. */
  lemma ExpandDir(ents: seq<seq<DirEntry>>, l: Lists, a: Spec.Afs, id: BlockId, l': Lists)
    requires DirRep(ents, l, a) && a.avail > 0 && 0 < id < |ents| && id !in l[DirChain]
    requires DirChain in l' && l'[DirChain] == l[DirChain] + [id]
    requires forall f :: FileChain(f) in l ==> FileChain(f) in l' && l'[FileChain(f)] == l[FileChain(f)]
    ensures DirRep(ents[id := EmptyEntries()], l', Spec.Expand(a))
  {
    var dirs, ents', a' := l[DirChain], ents[id := EmptyEntries()], Spec.Expand(a);
    assert DirShape(ents', dirs + [id]);
    forall k | 0 <= k < |a'.dir| ensures EntryRep(EntryAt(ents', dirs + [id], k), a'.dir[k], l', a'.inodes) {
      if k < |a.dir| {
        assert EntryRep(EntryAt(ents, dirs, k), a.dir[k], l, a.inodes);
        assert DirBlock(dirs + [id], k / ENTRIES) == DirBlock(dirs, k / ENTRIES) != id;
      } else {
        assert k / ENTRIES == |dirs| + 1;
      }
    }
  }

  lemma ExpandTab(c: State, l: Lists, a: Spec.Afs, id: BlockId, l': Lists)
    requires TabRep(c.files, c.descs, c.fid, c.at, l, a) && a.avail > 0
    requires DirChain in l' && l'[DirChain] == l[DirChain] + [id]
    requires forall f :: FileChain(f) in l ==> FileChain(f) in l' && l'[FileChain(f)] == l[FileChain(f)]
    ensures TabRep(c.files, c.descs, c.fid, c.at, l', Spec.Expand(a))
  {
    var a' := Spec.Expand(a);
    forall u | 0 <= u < LIMIT && c.files[u].OpenFile?
           ensures OpenRep(c.files[u], Refs(c.descs, u), c.fid[u], c.at[u], l', a') {
      assert OpenRep(c.files[u], Refs(c.descs, u), c.fid[u], c.at[u], l, a);
      if Spec.InDir(a'.dir, c.fid[u]) {
        var j :| 0 <= j < |a'.dir| && a'.dir[j].Used? && a'.dir[j].fid == c.fid[u];
        assert a.dir[j].Used? && a.dir[j].fid == c.fid[u];
      }
    }
  }

  /** The lists after the first free block joins the directory. */
  function Expanded(l: Lists): Lists
    requires FreeList in l && DirChain in l && l[FreeList] != []
  {
    l[FreeList := l[FreeList][1..]][DirChain := l[DirChain] + [l[FreeList][0]]]
  }

  lemma ExpandFiles(data: seq<seq<Byte>>, l: Lists, a: Spec.Afs)
    requires FilesRep(data, l, a) && a.avail > 0
    ensures l[FreeList] != [] && FilesRep(data, Expanded(l), Spec.Expand(a))
  {
    forall f | f in a.inodes ensures InodeRep(data, l[FileChain(f)], a.inodes[f]) {
    }
  }

  lemma ExpandOk(h: seq<Hdr>, s: Store, c: State, a: Spec.Afs)
    requires StoreOk(h, s) && Rep(c, s.lists, a) && |c.ents| == |h| && a.avail > 0
    ensures FreeList in s.lists && DirChain in s.lists && s.lists[FreeList] != [] && s.lists[FreeList][0] < |c.ents|
    ensures var id := s.lists[FreeList][0];
            Rep(c.(ents := c.ents[id := EmptyEntries()]), Expanded(s.lists), Spec.Expand(a)) && Spec.Inv(Spec.Expand(a))
  {
    hide Linked, Spec.Inv;
    var l := s.lists;
    ExpandFiles(c.data, l, a);
    assert OwnedBy(s, FreeList);
    var id := l[FreeList][0];
    OwnersDisjoint(s, |h|, FreeList, DirChain);
    assert id !in l[DirChain];
    Proofs.ExpandInv(a);
    hide FilesRep, DirRep, TabRep, StoreOk;
    ExpandDir(c.ents, l, a, id, Expanded(l));
    ExpandTab(c, l, a, id, Expanded(l));
  }

  // ----- rename -----

  /** Slot j of a file gets a new name. */
  ghost function Relabelled(a: Spec.Afs, j: nat, name: Spec.CString): Spec.Afs
    requires j < |a.dir| && a.dir[j].Used?
  {
    a.(dir := a.dir[j := Spec.Used(name, a.dir[j].fid)])
  }

  lemma RelabelTab(c: State, l: Lists, a: Spec.Afs, j: nat, name: Spec.CString)
    requires TabRep(c.files, c.descs, c.fid, c.at, l, a) && j < |a.dir| && a.dir[j].Used?
    ensures TabRep(c.files, c.descs, c.fid, c.at, l, Relabelled(a, j, name))
  {
    var b := Relabelled(a, j, name);
    forall u | 0 <= u < LIMIT && c.files[u].OpenFile?
           ensures OpenRep(c.files[u], Refs(c.descs, u), c.fid[u], c.at[u], l, b) {
      assert OpenRep(c.files[u], Refs(c.descs, u), c.fid[u], c.at[u], l, a);
      if Spec.InDir(b.dir, c.fid[u]) {
        var i :| 0 <= i < |b.dir| && b.dir[i].Used? && b.dir[i].fid == c.fid[u];
        assert a.dir[i].Used? && a.dir[i].fid == c.fid[u];
      }
    }
  }

  lemma RelabelOk(c: State, l: Lists, a: Spec.Afs, j: nat, name: Spec.CString)
    requires Rep(c, l, a) && j < |a.dir| && a.dir[j].Used? && Spec.GoodName(name)
    requires forall i | 0 <= i < |a.dir| :: a.dir[i].Used? ==> a.dir[i].name != name
    ensures DirChain in l && DirShape(c.ents, l[DirChain]) && j < ENTRIES * (|l[DirChain]| + 1)
    ensures Rep(SlotSet(c, l, j, EntryAt(c.ents, l[DirChain], j).(name := PadName(name))), l, Relabelled(a, j, name))
  {
    hide FilesRep, DirRep, TabRep;
    SlotFacts(c, l, a, j);
    var b := Relabelled(a, j, name);
    Proofs.RelabelInv(a, j, name);
    UnlinkFiles(c.data, l, a, b);
    RelabelTab(c, l, a, j, name);
    SlotDir(c.ents, l, a, j, EntryAt(c.ents, l[DirChain], j).(name := PadName(name)), b.dir[j], l, a.inodes, b);
  }

  // ----- searching -----

  lemma FindIs(dir: seq<Spec.Slot>, name: Spec.CString, k: nat)
    requires k <= |dir| && (k < |dir| ==> dir[k].Used? && dir[k].name == name)
    requires forall j | 0 <= j < k :: dir[j].Used? ==> dir[j].name != name
    ensures Spec.Find(dir, name) == k
  {
  }

  lemma FirstEmptyIs(dir: seq<Spec.Slot>, k: nat)
    requires k <= |dir| && (k < |dir| ==> dir[k].Empty?)
    requires forall j | 0 <= j < k :: dir[j].Used?
    ensures Spec.FirstEmpty(dir) == k
  {
  }

  lemma FreeFdIs(fds: seq<Spec.Ofd>, i: nat)
    requires i <= |fds| && (i < |fds| ==> fds[i].Shut?)
    requires forall j | 0 <= j < i :: fds[j].At?
    ensures Spec.FreeFd(fds) == i
  {
  }

  lemma NextUsedIs(dir: seq<Spec.Slot>, from: nat, k: nat)
    requires k < |dir| ==> from <= k && dir[k].Used?
    requires k <= |dir| && forall j | from <= j < k :: dir[j].Empty?
    ensures Spec.NextUsed(dir, from) == k
  {
  }

  /** Slot j of the i-th directory block. */
  lemma SlotOfBlock(ents: seq<seq<DirEntry>>, dirs: seq<BlockId>, i: nat, j: nat)
    requires DirShape(ents, dirs) && i <= |dirs| && j < ENTRIES
    ensures var k := ENTRIES * i + j;
            && k < ENTRIES * (|dirs| + 1) && SlotRef(dirs, k) == OnDisk(DirBlock(dirs, i), j)
            && EntryAt(ents, dirs, k) == ents[DirBlock(dirs, i)][j]
  {
  }

  lemma DirShapeOf(ents: seq<seq<DirEntry>>, l: Lists, a: Spec.Afs)
    requires DirRep(ents, l, a)
    ensures DirChain in l && DirShape(ents, l[DirChain]) && |a.dir| == ENTRIES * (|l[DirChain]| + 1)
  {
  }

  /** The first n slots do not hold name; es is the first empty one among them, which
      empty points to, or there is none. */
  ghost predicate Scanned(dir: seq<Spec.Slot>, dirs: seq<BlockId>, name: Spec.CString, n: nat, empty: EntryRef,
          es: nat) {
    && n <= |dir| == ENTRIES * (|dirs| + 1)
    && (forall k | 0 <= k < n :: dir[k].Used? ==> dir[k].name != name)
    && (forall k | 0 <= k < n && k < es :: dir[k].Used?)
    && if empty == Private then es == |dir| else es < n && dir[es].Empty? && empty == SlotRef(dirs, es)
  }

  lemma FoundAt(ents: seq<seq<DirEntry>>, dirs: seq<BlockId>, dir: seq<Spec.Slot>, name: Spec.CString, i: nat, hit: nat,
          empty: EntryRef, es: nat)
    requires DirShape(ents, dirs) && i <= |dirs| && hit < ENTRIES
    requires Scanned(dir, dirs, name, ENTRIES * i, empty, es)
    requires dir[ENTRIES * i + hit].Used? && dir[ENTRIES * i + hit].name == name
    requires forall k | ENTRIES * i <= k < ENTRIES * i + hit :: dir[k].Used? ==> dir[k].name != name
    ensures Spec.Find(dir, name) == ENTRIES * i + hit < |dir|
    ensures SlotRef(dirs, ENTRIES * i + hit) == OnDisk(DirBlock(dirs, i), hit)
  {
    SlotOfBlock(ents, dirs, i, hit);
    FindIs(dir, name, ENTRIES * i + hit);
  }

  lemma ScannedStep(ents: seq<seq<DirEntry>>, dirs: seq<BlockId>, dir: seq<Spec.Slot>, name: Spec.CString, i: nat,
          e: nat, empty: EntryRef, es: nat)
    returns (es': nat)
    requires DirShape(ents, dirs) && i <= |dirs| && e <= ENTRIES
    requires Scanned(dir, dirs, name, ENTRIES * i, empty, es)
    requires forall k | ENTRIES * i <= k < ENTRIES * i + ENTRIES :: dir[k].Used? ==> dir[k].name != name
    requires forall k | ENTRIES * i <= k < ENTRIES * i + e :: dir[k].Used?
    requires e < ENTRIES ==> dir[ENTRIES * i + e].Empty?
    ensures Scanned(dir, dirs, name, ENTRIES * (i + 1), if empty == Private && e < ENTRIES
              then OnDisk(DirBlock(dirs, i), e) else empty, es')
  {
    es' := es;
    if empty == Private && e < ENTRIES {
      SlotOfBlock(ents, dirs, i, e);
      es' := ENTRIES * i + e;
    }
  }

  /** What the code sees of a slot: whether it is occupied, and its name as a C string. */
  ghost predicate Shows(e: DirEntry, slot: Spec.Slot) {
    && (e.first != 0 <==> slot.Used?)
    && (slot.Used? ==> CStr(e.name) == slot.name)
  }

  lemma BlockShows(h: seq<Hdr>, s: Store, ents: seq<seq<DirEntry>>, a: Spec.Afs, i: nat)
    requires StoreOk(h, s) && DirRep(ents, s.lists, a) && i <= |s.lists[DirChain]|
    ensures var b := DirBlock(s.lists[DirChain], i);
            && b < |ents| && |ents[b]| == ENTRIES && |a.dir| >= ENTRIES * i + ENTRIES
            && forall j | 0 <= j < ENTRIES :: Shows(ents[b][j], a.dir[ENTRIES * i + j])
  {
    DirShapeOf(ents, s.lists, a);
    var dirs := s.lists[DirChain];
    assert InRange(dirs, |ents|) && DirBlock(dirs, i) < |ents|;
    hide StoreOk, DirRep;
    forall j | 0 <= j < ENTRIES ensures Shows(ents[DirBlock(dirs, i)][j], a.dir[ENTRIES * i + j]) {
      SlotOfBlock(ents, dirs, i, j);
      SlotEntry(h, s, ents, a, ENTRIES * i + j);
    }
  }

  lemma ScannedNone(dir: seq<Spec.Slot>, dirs: seq<BlockId>, name: Spec.CString)
    requires |dir| == ENTRIES * (|dirs| + 1)
    ensures Scanned(dir, dirs, name, 0, Private, |dir|)
  {
  }

  lemma ScannedAll(dir: seq<Spec.Slot>, dirs: seq<BlockId>, name: Spec.CString, empty: EntryRef, es: nat)
    requires Scanned(dir, dirs, name, ENTRIES * (|dirs| + 1), empty, es)
    ensures Spec.Find(dir, name) == |dir|
    ensures var k := Spec.FirstEmpty(dir); empty == if k < |dir| then SlotRef(dirs, k) else Private
  {
    FindIs(dir, name, |dir|);
    FirstEmptyIs(dir, es);
  }

  lemma TableShape(c: State, l: Lists, a: Spec.Afs)
    requires Rep(c, l, a)
    ensures |c.files| == |c.descs| == |c.fid| == |c.at| == |a.fds| == LIMIT
  {
    hide FilesRep, DirRep, Spec.Inv;
  }

  lemma FreeFdOk(c: State, l: Lists, a: Spec.Afs, fd: nat)
    requires Rep(c, l, a) && |c.descs| == LIMIT && fd <= LIMIT && (fd < LIMIT ==> c.descs[fd].NoDesc?)
    requires forall i | 0 <= i < fd :: c.descs[i].Desc?
    ensures Spec.FreeFd(a.fds) == fd
  {
    hide FilesRep, DirRep, Spec.Inv;
    forall i | 0 <= i < LIMIT ensures a.fds[i].Shut? <==> c.descs[i].NoDesc? {
      FreeDesc(c, l, a, i);
    }
    FreeFdIs(a.fds, fd);
  }

  /** The open files of slot k are those that point to it. */
  lemma OpenSlots(c: State, l: Lists, a: Spec.Afs, k: nat)
    requires Rep(c, l, a) && k < |a.dir| && a.dir[k].Used?
    ensures DirChain in l && k < ENTRIES * (|l[DirChain]| + 1) && |c.files| == |c.fid| == LIMIT
    ensures forall u | 0 <= u < LIMIT ::
              c.files[u].OpenFile? ==> (c.files[u].diskFile == SlotRef(l[DirChain], k) <==> c.fid[u] == a.dir[k].fid)
  {
    hide FilesRep, Spec.Inv;
    DirShapeOf(c.ents, l, a);
    forall u | 0 <= u < LIMIT && c.files[u].OpenFile? ensures c.files[u].diskFile == SlotRef(l[DirChain], k)
           <==> c.fid[u] == a.dir[k].fid {
      OpenAtSlot(c, l, a, k, u);
    }
  }

  /** A free descriptor leaves an open-file slot free. */
  lemma SomeFileFree(c: State, l: Lists, a: Spec.Afs, fd: nat)
    requires Rep(c, l, a) && fd < LIMIT == |c.descs| && c.descs[fd].NoDesc?
    ensures |c.files| == LIMIT && exists u | 0 <= u < LIMIT :: c.files[u].NoFile?
  {
    hide FilesRep, DirRep, Spec.Inv;
    forall t | 0 <= t < LIMIT && c.files[t].OpenFile? ensures Refs(c.descs, t) > 0 {
      assert OpenRep(c.files[t], Refs(c.descs, t), c.fid[t], c.at[t], l, a);
    }
    OpenFileSlotFree(c.files, c.descs, fd);
  }

  lemma SlotRefOk(ents: seq<seq<DirEntry>>, dirs: seq<BlockId>, k: nat)
    requires DirShape(ents, dirs) && k < ENTRIES * (|dirs| + 1)
    ensures RefOk(SlotRef(dirs, k), ents) && EntryAt(ents, dirs,
              k) == (var r := SlotRef(dirs, k); ents[r.block][r.index])
  {
  }

  /** After the target of a rename is gone, its name is free and the source still in place. */
  lemma UnlinkedSlots(a: Spec.Afs, from: Spec.CString, to: Spec.CString)
    requires Spec.Inv(a) && from != to && Spec.Find(a.dir, from) < |a.dir|
    ensures var j, k := Spec.Find(a.dir, from), Spec.Find(a.dir, to);
            var b := if k < |a.dir| then Spec.Unlink(a, k) else a;
            && j < |b.dir| && b.dir[j] == a.dir[j] && b.dir[j].Used?
            && forall i | 0 <= i < |b.dir| :: b.dir[i].Used? ==> b.dir[i].name != to
  {
  }

  // ----- mounting -----

  lemma NothingOpen(c: State, l: Lists, a: Spec.Afs)
    requires Rep(c, l, a) && |c.descs| == LIMIT && forall i | 0 <= i < LIMIT :: c.descs[i].NoDesc?
    ensures |c.files| == LIMIT && forall t | 0 <= t < LIMIT :: c.files[t].NoFile?
    ensures forall i | 0 <= i < |a.fds| :: a.fds[i].Shut?
  {
    hide FilesRep, DirRep, Spec.Inv;
    forall i | 0 <= i < LIMIT ensures a.fds[i].Shut? {
      FreeDesc(c, l, a, i);
    }
    forall t | 0 <= t < LIMIT && c.files[t].OpenFile? ensures false {
      assert OpenRep(c.files[t], Refs(c.descs, t), c.fid[t], c.at[t], l, a);
      var i := RefsWitness(c.descs, t);
    }
  }

  lemma UnmountOk(c: State, l: Lists, a: Spec.Afs)
    requires Rep(c, l, a) && forall i | 0 <= i < |a.fds| :: a.fds[i].Shut?
    ensures Rep(c, l, a.(mounted := false))
  {
    var b := a.(mounted := false);
    FdsIrrelevant(c.data, c.ents, l, a, b);
    UnmountTab(c, l, a);
    hide FilesRep, DirRep, TabRep;
  }

  lemma UnmountTab(c: State, l: Lists, a: Spec.Afs)
    requires TabRep(c.files, c.descs, c.fid, c.at, l, a)
    ensures TabRep(c.files, c.descs, c.fid, c.at, l, a.(mounted := false))
  {
    forall t | 0 <= t < LIMIT && c.files[t].OpenFile?
           ensures OpenRep(c.files[t], Refs(c.descs, t), c.fid[t], c.at[t], l, a.(mounted := false)) {
      assert OpenRep(c.files[t], Refs(c.descs, t), c.fid[t], c.at[t], l, a);
    }
  }

  lemma FreshRep(n: nat, c: State)
    requires n > 1 && |c.data| == |c.ents| == n && Full(c.data) && forall b | 0 <= b < n :: c.ents[b] == EmptyEntries()
    requires |c.files| == |c.descs| == |c.fid| == |c.at| == LIMIT
    requires forall i | 0 <= i < LIMIT :: c.files[i].NoFile? && c.descs[i].NoDesc?
    ensures Rep(c, Formatted(n).lists, Spec.Fresh(n - 1)) && Spec.Fresh(n - 1).mounted
  {
  }
}
