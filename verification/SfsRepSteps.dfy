/** How each kind of update of blocks and tables carries the representation along. */
module SfsRepSteps {
  import opened SfsChains
  import opened SfsContents
  import opened SfsRep
  import Spec = SfsSpec

  // ----- the entry behind an open file -----

  ghost predicate RefOk(r: EntryRef, ents: seq<seq<DirEntry>>) {
    r.OnDisk? ==> r.block < |ents| && r.index < |ents[r.block]|
  }

  function EntryOf(ents: seq<seq<DirEntry>>, x: OpenFile): DirEntry
    requires x.OpenFile? && RefOk(x.diskFile, ents)
  {
    if x.diskFile.OnDisk? then ents[x.diskFile.block][x.diskFile.index] else x.unlinkedFile
  }

  lemma OpenEntry(ents: seq<seq<DirEntry>>, files: seq<OpenFile>, descs: seq<Desc>, fid: seq<nat>, at: seq<nat>,
          l: Lists, a: Spec.Afs, t: nat)
    requires DirRep(ents, l, a) && TabRep(files, descs, fid, at, l, a) && t < |files| && files[t].OpenFile?
    ensures fid[t] in a.inodes && FileChain(fid[t]) in l && RefOk(files[t].diskFile, ents)
    ensures EntryData(EntryOf(ents, files[t]), l[FileChain(fid[t])], |a.inodes[fid[t]].data|)
  {
    assert OpenRep(files[t], Refs(descs, t), fid[t], at[t], l, a);
    if !files[t].unlinked {
      assert EntryRep(EntryAt(ents, l[DirChain], at[t]), a.dir[at[t]], l, a.inodes);
    }
  }

  /** ents after e is stored through the entry pointer of x. */
  function EntsWith(ents: seq<seq<DirEntry>>, x: OpenFile, e: DirEntry): seq<seq<DirEntry>>
    requires x.OpenFile? && RefOk(x.diskFile, ents)
  {
    if x.diskFile.OnDisk? then PutEntry(ents, x.diskFile.block, x.diskFile.index, e) else ents
  }

  function FileWith(x: OpenFile, e: DirEntry): OpenFile
    requires x.OpenFile?
  {
    if x.diskFile.OnDisk? then x else x.(unlinkedFile := e)
  }

  // ----- position changes -----

  lemma MoveRep(files: seq<OpenFile>, descs: seq<Desc>, fid: seq<nat>, at: seq<nat>, l: Lists, a: Spec.Afs, fd: nat,
          p: nat)
    requires TabRep(files, descs, fid, at, l, a) && fd < LIMIT && descs[fd].Desc?
    ensures a.fds[fd].At?
    ensures TabRep(files, descs[fd := descs[fd].(currPos := p)], fid, at, l,
              a.(fds := a.fds[fd := a.fds[fd].(pos := p)]))
  {
    var d := descs[fd].(currPos := p);
    assert DescRep(descs[fd], a.fds[fd], files, fid);
    var a' := a.(fds := a.fds[fd := a.fds[fd].(pos := p)]);
    forall t | 0 <= t < LIMIT && files[t].OpenFile?
           ensures OpenRep(files[t], Refs(descs[fd := d], t), fid[t], at[t], l, a') {
      RefsUpdate(descs, fd, d, t);
      assert OpenRep(files[t], Refs(descs, t), fid[t], at[t], l, a);
    }
  }

  // ----- changing one open file -----

  /** l' and inodes' differ from l and inodes at file f only. */
  ghost predicate OnlyFile(l: Lists, l': Lists, inodes: map<nat, Spec.Inode>, inodes': map<nat, Spec.Inode>, f: nat) {
    && DirChain in l && DirChain in l' && l'[DirChain] == l[DirChain]
    && inodes'.Keys == inodes.Keys
    && FileChain(f) in l'
    && forall g | g in inodes && g != f ::
         inodes'[g] == inodes[g] && FileChain(g) in l && FileChain(g) in l' && l'[FileChain(g)] == l[FileChain(g)]
  }

  lemma ChangeDirRep(ents: seq<seq<DirEntry>>, l: Lists, a: Spec.Afs, l': Lists, a': Spec.Afs, f: nat, x: OpenFile,
          k: nat, e: DirEntry)
    requires DirRep(ents, l, a) && Spec.DirInv(a.dir, a.inodes) && a'.dir == a.dir
             && OnlyFile(l, l', a.inodes, a'.inodes, f)
    requires f in a.inodes && x.OpenFile? && RefOk(x.diskFile, ents)
    requires if x.unlinked then x.diskFile == Private && !Spec.InDir(a.dir, f)
             else k < |a.dir| && a.dir[k].Used? && a.dir[k].fid == f && x.diskFile == SlotRef(l[DirChain], k)
    requires EntryData(e, l'[FileChain(f)], |a'.inodes[f].data|)
    requires !x.unlinked ==> e.name == EntryAt(ents, l[DirChain], k).name
    ensures DirRep(EntsWith(ents, x, e), l', a')
  {
    var dirs, ents' := l[DirChain], EntsWith(ents, x, e);
    forall j | 0 <= j < |a.dir|
      ensures DirShape(ents', dirs) && EntryRep(EntryAt(ents', dirs, j), a'.dir[j], l', a'.inodes)
    {
      assert EntryRep(EntryAt(ents, dirs, j), a.dir[j], l, a.inodes);
      if !x.unlinked {
        PutEntryAt(ents, dirs, k, e, j);
      }
    }
    assert |a.dir| > 0;
  }

  lemma ChangeTabRep(files: seq<OpenFile>, descs: seq<Desc>, fid: seq<nat>, at: seq<nat>, l: Lists, a: Spec.Afs,
          l': Lists, a': Spec.Afs, t: nat, e: DirEntry)
    requires TabRep(files, descs, fid, at, l, a) && a'.dir == a.dir && a'.fds == a.fds && t < LIMIT
             && files[t].OpenFile?
    requires OnlyFile(l, l', a.inodes, a'.inodes, fid[t])
    requires EntryData(e, l'[FileChain(fid[t])], |a'.inodes[fid[t]].data|)
    ensures TabRep(files[t := FileWith(files[t], e)], descs, fid, at, l', a')
  {
    var files' := files[t := FileWith(files[t], e)];
    forall i | 0 <= i < LIMIT ensures DescRep(descs[i], a'.fds[i], files', fid) {
      assert DescRep(descs[i], a.fds[i], files, fid);
    }
    forall u | 0 <= u < LIMIT && files'[u].OpenFile? ensures OpenRep(files'[u], Refs(descs, u), fid[u], at[u], l', a') {
      assert OpenRep(files[u], Refs(descs, u), fid[u], at[u], l, a);
    }
  }

  /** Clamping the positions of a file's descriptors. */
  lemma ClampRep(files: seq<OpenFile>, descs: seq<Desc>, descs': seq<Desc>, fid: seq<nat>, at: seq<nat>, l: Lists,
          a: Spec.Afs, t: nat, length: nat)
    requires TabRep(files, descs, fid, at, l, a) && t < LIMIT && files[t].OpenFile?
    requires descs' == ClampDescs(descs, t, length)
    ensures TabRep(files, descs', fid, at, l, a.(fds := Spec.Clamp(a.fds, fid[t], length)))
  {
    var a' := a.(fds := Spec.Clamp(a.fds, fid[t], length));
    forall i | 0 <= i < LIMIT ensures DescRep(descs'[i], a'.fds[i], files, fid) {
      assert DescRep(descs[i], a.fds[i], files, fid);
      if descs[i].Desc? && descs[i].file != t && fid[descs[i].file] == fid[t] {
        assert false;
      }
    }
    forall u | 0 <= u < LIMIT && files[u].OpenFile? ensures OpenRep(files[u], Refs(descs', u), fid[u], at[u], l, a') {
      RefsSame(descs, descs', u);
      assert OpenRep(files[u], Refs(descs, u), fid[u], at[u], l, a);
    }
  }

  function ClampDescs(descs: seq<Desc>, t: nat, length: nat): (r: seq<Desc>)
    ensures |r| == |descs|
  {
    seq(|descs|, i requires 0 <= i < |descs| =>
      if descs[i].Desc? && descs[i].file == t && descs[i].currPos > length then Desc(t, length) else descs[i])
  }

  lemma {:induction false} RefsSame(descs: seq<Desc>, descs': seq<Desc>, t: nat)
    requires |descs'| == |descs|
    requires forall i | 0 <= i < |descs| ::
               descs'[i].Desc? == descs[i].Desc? && (descs[i].Desc? ==> descs'[i].file == descs[i].file)
    ensures Refs(descs', t) == Refs(descs, t)
  {
    if descs != [] {
      RefsSame(descs[..|descs| - 1], descs'[..|descs| - 1], t);
    }
  }

  /** FilesRep and DirRep do not look at descriptors. */
  lemma FdsIrrelevant(data: seq<seq<Byte>>, ents: seq<seq<DirEntry>>, l: Lists, a: Spec.Afs, a': Spec.Afs)
    requires FilesRep(data, l, a) && DirRep(ents, l, a)
    requires a'.dir == a.dir && a'.inodes == a.inodes && a'.avail == a.avail
    ensures FilesRep(data, l, a') && DirRep(ents, l, a')
  {
    forall k | 0 <= k < |a'.dir| ensures EntryRep(EntryAt(ents, l[DirChain], k), a'.dir[k], l, a'.inodes) {
      assert EntryRep(EntryAt(ents, l[DirChain], k), a.dir[k], l, a.inodes);
    }
  }
}
