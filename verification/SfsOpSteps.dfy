/** Each operation of the file system, at the level of values: the representation
    relation carries over from the old blocks, tables and abstract state to the new. */
module SfsOpSteps {
  import opened SfsChains
  import opened SfsContents
  import opened SfsRep
  import opened SfsRepSteps
  import opened SfsFileSteps
  import Spec = SfsSpec
  import Proofs = SfsSpecProofs

  /** The parts of the concrete state other than headers. */
  datatype State = State(data: seq<seq<Byte>>, ents: seq<seq<DirEntry>>, files: seq<OpenFile>, descs: seq<Desc>,
        fid: seq<nat>, at: seq<nat>)

  ghost predicate Rep(c: State, l: Lists, a: Spec.Afs) {
    && FilesRep(c.data, l, a)
    && DirRep(c.ents, l, a)
    && TabRep(c.files, c.descs, c.fid, c.at, l, a)
    && Spec.Inv(a)
  }

  /** Blocks a file owns, computed from its entry. */
  function AllocatedBlocks(e: DirEntry): nat {
    if e.first == EMPTY_FILE_BLOCK then 0
    else if e.size == 0 then 1
    else Spec.BlocksFor(e.size)
  }

  lemma AllocatedBlocksOk(e: DirEntry, c: seq<BlockId>, n: nat, ino: Spec.Inode)
    requires EntryData(e, c, |ino.data|) && InRange(c, n) && n <= EMPTY_FILE_BLOCK && Spec.GoodInode(ino)
             && |c| == ino.blocks
    ensures AllocatedBlocks(e) == |c|
  {
    if c != [] {
      assert c[0] < n;
    }
  }

  // ----- write and ftruncate -----

  lemma OnlyFileOk(l: Lists, l': Lists, data: seq<seq<Byte>>, a: Spec.Afs, f: nat, ino: Spec.Inode)
    requires FilesRep(data, l, a) && f in a.inodes && l'.Keys == l.Keys
    requires forall o | o in l && o != FreeList && o != FileChain(f) :: l'[o] == l[o]
    ensures OnlyFile(l, l', a.inodes, a.inodes[f := ino], f)
  {
  }

  /** File f of open file t, after its blocks and its entry have changed. */
  lemma FileRep(c: State, l: Lists, a: Spec.Afs, data': seq<seq<Byte>>, l': Lists, t: nat, ino: Spec.Inode, avail: nat,
          e: DirEntry, all: seq<BlockId>)
    requires Rep(c, l, a) && t < LIMIT && c.files[t].OpenFile? && c.fid[t] in a.inodes
    requires |data'| == |c.data| && Full(data')
    requires l'.Keys == l.Keys && forall o | o in l && o != FreeList && o != FileChain(c.fid[t]) :: l'[o] == l[o]
    requires Apart(l, a.inodes, c.fid[t], all) && forall b | 0 <= b < |data'| && b !in all :: data'[b] == c.data[b]
    requires FreeList in l' && avail == |l'[FreeList]| && FileChain(c.fid[t]) in l'
             && InodeRep(data', l'[FileChain(c.fid[t])], ino)
    requires EntryData(e, l'[FileChain(c.fid[t])], |ino.data|)
    requires RefOk(c.files[t].diskFile, c.ents) && e.name == EntryOf(c.ents, c.files[t]).name
    ensures var a' := a.(inodes := a.inodes[c.fid[t] := ino], avail := avail);
            && FilesRep(data', l', a')
            && DirRep(EntsWith(c.ents, c.files[t], e), l', a')
            && TabRep(c.files[t := FileWith(c.files[t], e)], c.descs, c.fid, c.at, l', a')
  {
    var f, x := c.fid[t], c.files[t];
    var a' := a.(inodes := a.inodes[f := ino], avail := avail);
    OnlyFileOk(l, l', c.data, a, f, ino);
    FilesChange(c.data, l, a, data', l', a', f, all);
    hide FilesRep;
    assert OpenRep(x, Refs(c.descs, t), f, c.at[t], l, a);
    assert !x.unlinked ==> EntryOf(c.ents, x) == EntryAt(c.ents, l[DirChain], c.at[t]);
    ChangeDirRep(c.ents, l, a, l', a', f, x, c.at[t], e);
    ChangeTabRep(c.files, c.descs, c.fid, c.at, l, a, l', a', t, e);
  }

  /** d is live descriptor fd. */
  ghost predicate Handle(c: State, a: Spec.Afs, fd: int, d: Desc) {
    && 0 <= fd < LIMIT && |a.fds| == |c.descs| == |c.files| == |c.fid| == |c.at| == LIMIT
    && d == c.descs[fd] && d.Desc? && d.file < LIMIT && c.files[d.file].OpenFile?
    && a.fds[fd] == Spec.At(c.fid[d.file], d.currPos)
    && c.fid[d.file] in a.inodes && d.currPos <= |a.inodes[c.fid[d.file]].data|
  }

  lemma HandleOk(c: State, l: Lists, a: Spec.Afs, fd: nat)
    requires Rep(c, l, a) && fd < LIMIT
    ensures |a.fds| == |c.descs| == LIMIT
    ensures c.descs[fd].NoDesc? ==> !Spec.ValidFd(a, fd)
    ensures c.descs[fd].Desc? ==> Handle(c, a, fd, c.descs[fd]) && Spec.ValidFd(a, fd)
  {
    hide FilesRep, DirRep;
    assert DescRep(c.descs[fd], a.fds[fd], c.files, c.fid);
  }

  /** What a live descriptor leads to: its file's entry, and the chain with its contents. */
  lemma HandleFile(h: seq<Hdr>, s: Store, c: State, a: Spec.Afs, fd: int, d: Desc)
    requires StoreOk(h, s) && Rep(c, s.lists, a) && Handle(c, a, fd, d)
             && |c.data| == |h| == |c.ents| <= EMPTY_FILE_BLOCK
    ensures var f, x := c.fid[d.file], c.files[d.file];
            && FileChain(f) in s.lists && RefOk(x.diskFile, c.ents)
            && EntryData(EntryOf(c.ents, x), s.lists[FileChain(f)], |a.inodes[f].data|)
            && Linked(h, s.lists[FileChain(f)], FileTag) && Full(c.data)
            && InodeRep(c.data, s.lists[FileChain(f)], a.inodes[f])
            && AllocatedBlocks(EntryOf(c.ents, x)) == a.inodes[f].blocks
  {
    hide Linked;
    OpenEntry(c.ents, c.files, c.descs, c.fid, c.at, s.lists, a, d.file);
    var f := c.fid[d.file];
    LinkedInRange(h, s.lists[FileChain(f)], FileTag);
    AllocatedBlocksOk(EntryOf(c.ents, c.files[d.file]), s.lists[FileChain(f)], |h|, a.inodes[f]);
  }

  /** Lists other than the file chains and the two permanent ones do not exist. */
  lemma NoTransit(c: State, l: Lists, a: Spec.Afs, t: Tag)
    requires Rep(c, l, a)
    ensures Transit(t) !in l && FreeList in l && DirChain in l && a.avail == |l[FreeList]|
  {
    hide DirRep, TabRep, Spec.Inv;
  }

  lemma MoveOk(c: State, l: Lists, a: Spec.Afs, fd: nat, d: Desc, p: nat)
    requires Rep(c, l, a) && Handle(c, a, fd, d) && p <= |a.inodes[c.fid[d.file]].data|
    ensures Rep(c.(descs := c.descs[fd := d.(currPos := p)]), l, a.(fds := a.fds[fd := Spec.At(c.fid[d.file], p)]))
  {
    hide FilesRep, DirRep, TabRep, Spec.Inv;
    var a' := a.(fds := a.fds[fd := a.fds[fd].(pos := p)]);
    MoveRep(c.files, c.descs, c.fid, c.at, l, a, fd, p);
    Proofs.MoveInv(a, fd, p);
    FdsIrrelevant(c.data, c.ents, l, a, a');
  }

  /** The state after the entry of open file t becomes e and the data area data'. */
  function WithEntry(c: State, data': seq<seq<Byte>>, t: nat, e: DirEntry): State
    requires t < |c.files| && c.files[t].OpenFile? && RefOk(c.files[t].diskFile, c.ents)
  {
    c.(data := data', ents := EntsWith(c.ents, c.files[t], e), files := c.files[t := FileWith(c.files[t], e)])
  }

  /** The entry after a write that ends at end and gives an empty file the first block b. */
  function WrittenEntry(e: DirEntry, b: BlockId, end: nat): DirEntry {
    e.(first := if e.first == EMPTY_FILE_BLOCK then b else e.first, size := if end > e.size then end else e.size)
  }

  lemma WrittenEntryOk(e: DirEntry, chain: seq<BlockId>, new_: seq<BlockId>, m: nat, data: seq<Byte>, pos: nat,
          buf: seq<Byte>)
    requires EntryData(e, chain, |data|) && pos <= |data| && chain + new_ != []
    requires InRange(chain, m) && m <= EMPTY_FILE_BLOCK
    ensures EntryData(WrittenEntry(e, Head(chain + new_), pos + |buf|), chain + new_, |Spec.Overwrite(data, pos, buf)|)
  {
  }

  /** The abstract state after a write that takes n more blocks. */
  ghost function Written(a: Spec.Afs, fd: nat, f: nat, pos: nat, buf: seq<Byte>, n: nat): Spec.Afs
    requires f in a.inodes && pos <= |a.inodes[f].data| && n <= a.avail && fd < |a.fds|
  {
    a.(inodes := a.inodes[f := Spec.Inode(Spec.Overwrite(a.inodes[f].data, pos, buf), a.inodes[f].blocks + n)],
       avail := a.avail - n, fds := a.fds[fd := Spec.At(f, pos + |buf|)])
  }

  ghost predicate WriteFits(a: Spec.Afs, f: nat, pos: nat, buf: seq<Byte>, n: nat)
    requires f in a.inodes
  {
    var ino, end := a.inodes[f], pos + |buf|;
    && pos <= |ino.data| && buf != [] && end <= Spec.SFS_MAX_FILE_SIZE && n <= a.avail
    && ino.blocks + n == if Spec.BlocksFor(end) > ino.blocks then Spec.BlocksFor(end) else ino.blocks
  }

  lemma WrittenIsWrite(a: Spec.Afs, fd: nat, f: nat, pos: nat, buf: seq<Byte>, n: nat)
    requires Spec.Inv(a) && fd < |a.fds| && a.fds[fd] == Spec.At(f, pos) && WriteFits(a, f, pos, buf, n)
    ensures Spec.Write(a, fd, buf) == (Written(a, fd, f, pos, buf, n), |buf|)
  {
    hide Spec.Overwrite;
  }

  /** The part of a write that concerns the file. */
  lemma WriteFile(h: seq<Hdr>, s: Store, c: State, a: Spec.Afs, t: nat, pos: nat, buf: seq<Byte>, n: nat,
          data': seq<seq<Byte>>)
    requires StoreOk(h, s) && Rep(c, s.lists, a) && |c.data| == |h| == |c.ents| <= EMPTY_FILE_BLOCK
    requires t < LIMIT == |c.files| == |c.fid| == |c.at| && c.files[t].OpenFile? && c.fid[t] in a.inodes
             && WriteFits(a, c.fid[t], pos, buf, n)
    requires RefOk(c.files[t].diskFile, c.ents) && FreeList in s.lists && FileChain(c.fid[t]) in s.lists
             && n <= |s.lists[FreeList]|
    requires EntryData(EntryOf(c.ents, c.files[t]), s.lists[FileChain(c.fid[t])], |a.inodes[c.fid[t]].data|)
    requires Patched(data', c.data, s.lists[FileChain(c.fid[t])] + s.lists[FreeList][..n], pos, buf)
    ensures var f, all := c.fid[t], s.lists[FileChain(c.fid[t])] + s.lists[FreeList][..n];
            var c' := WithEntry(c, data', t, WrittenEntry(EntryOf(c.ents, c.files[t]), Head(all), pos + |buf|));
            var a' := a.(inodes := a.inodes[f := Spec.Inode(Spec.Overwrite(a.inodes[f].data, pos, buf),
                      a.inodes[f].blocks + n)], avail := a.avail - n);
            var l' := Grown(s.lists, f, n);
            FilesRep(c'.data, l', a') && DirRep(c'.ents, l', a') && TabRep(c'.files, c'.descs, c'.fid, c'.at, l', a')
  {
    hide StoreOk, FilesRep, DirRep, TabRep, Spec.Inv, Spec.Overwrite, FileBytes, Patched;
    var l, f := s.lists, c.fid[t];
    var chain, new_, ino := l[FileChain(f)], l[FreeList][..n], a.inodes[f];
    NewInode(h, s, c, a, f, pos, buf, n, data');
    WrittenEntryOk(EntryOf(c.ents, c.files[t]), chain, new_, |h|, ino.data, pos, buf);
    FileRep(c, l, a, data', Grown(l, f, n), t, Spec.Inode(Spec.Overwrite(ino.data, pos, buf), ino.blocks + n),
          a.avail - n,
            WrittenEntry(EntryOf(c.ents, c.files[t]), Head(chain + new_), pos + |buf|), chain + new_);
  }

  /** The file's blocks and contents after buf is written at pos, with n more blocks. */
  lemma NewInode(h: seq<Hdr>, s: Store, c: State, a: Spec.Afs, f: nat, pos: nat, buf: seq<Byte>, n: nat,
          data': seq<seq<Byte>>)
    requires StoreOk(h, s) && Rep(c, s.lists, a) && |c.data| == |h|
    requires f in a.inodes && WriteFits(a, f, pos, buf, n) && FreeList in s.lists && FileChain(f) in s.lists
             && n <= |s.lists[FreeList]|
    requires Patched(data', c.data, s.lists[FileChain(f)] + s.lists[FreeList][..n], pos, buf)
    ensures var all := s.lists[FileChain(f)] + s.lists[FreeList][..n];
            && |data'| == |c.data| && Full(data') && a.avail == |s.lists[FreeList]|
            && (forall b | 0 <= b < |data'| && b !in all :: data'[b] == c.data[b])
            && Apart(s.lists, a.inodes, f, all) && InRange(s.lists[FileChain(f)], |h|) && all != []
            && InodeRep(data', all, Spec.Inode(Spec.Overwrite(a.inodes[f].data, pos, buf), a.inodes[f].blocks + n))
  {
    hide DirRep, TabRep, Spec.Inv, Spec.Overwrite, Linked, FilesRep;
    var chain, new_, ino := s.lists[FileChain(f)], s.lists[FreeList][..n], a.inodes[f];
    FreeAndChain(h, s, c, a, f, n);
    ApartOk(h, s, a.inodes, f, chain + new_);
    SomeBlock(pos + |buf|);
    WrittenInode(c.data, data', chain, new_, ino, pos, buf);
    PatchedFacts(data', c.data, chain + new_, pos, buf);
  }

  lemma SomeBlock(n: nat)
    ensures n > 0 ==> Spec.BlocksFor(n) > 0
  {
  }

  lemma FreeAndChain(h: seq<Hdr>, s: Store, c: State, a: Spec.Afs, f: nat, n: nat)
    requires StoreOk(h, s) && Rep(c, s.lists, a) && |c.data| == |h| && f in a.inodes && FileChain(f) in s.lists
             && n <= |s.lists[FreeList]|
    ensures a.avail == |s.lists[FreeList]| && Full(c.data) && InRange(s.lists[FreeList][..n], |h|)
            && InRange(s.lists[FileChain(f)], |h|)
    ensures InodeRep(c.data, s.lists[FileChain(f)], a.inodes[f])
    ensures forall x | x in s.lists[FileChain(f)] + s.lists[FreeList][..n] ::
            x in s.lists[FileChain(f)] || x in s.lists[FreeList]
  {
    hide DirRep, TabRep, Spec.Inv;
    assert OwnedBy(s, FreeList) && OwnedBy(s, FileChain(f));
  }

  lemma PatchedFacts(data: seq<seq<Byte>>, was: seq<seq<Byte>>, c: seq<BlockId>, p: nat, x: seq<Byte>)
    requires Patched(data, was, c, p, x)
    ensures |data| == |was| && Full(data) && forall b | 0 <= b < |was| && b !in c :: data[b] == was[b]
  {
  }

  lemma WriteOk(h: seq<Hdr>, s: Store, c: State, a: Spec.Afs, fd: nat, d: Desc, buf: seq<Byte>, n: nat,
          data': seq<seq<Byte>>)
    requires StoreOk(h, s) && Rep(c, s.lists, a) && Handle(c, a, fd, d)
             && |c.data| == |h| == |c.ents| <= EMPTY_FILE_BLOCK
    requires WriteFits(a, c.fid[d.file], d.currPos, buf, n)
    requires FreeList in s.lists && FileChain(c.fid[d.file]) in s.lists && n <= |s.lists[FreeList]|
    requires Patched(data', c.data, s.lists[FileChain(c.fid[d.file])] + s.lists[FreeList][..n], d.currPos, buf)
    ensures RefOk(c.files[d.file].diskFile, c.ents)
    ensures var e, all := EntryOf(c.ents, c.files[d.file]), s.lists[FileChain(c.fid[d.file])] + s.lists[FreeList][..n];
            var c' := WithEntry(c, data', d.file, WrittenEntry(e, Head(all), d.currPos + |buf|));
            && Rep(c'.(descs := c.descs[fd := d.(currPos := d.currPos + |buf|)]), Grown(s.lists, c.fid[d.file], n),
                 Spec.Write(a, fd, buf).0)
            && Spec.Write(a, fd, buf).1 == |buf|
  {
    hide StoreOk, FilesRep, DirRep, TabRep, Spec.Write, Spec.Inv, Spec.Overwrite, Patched, EntryData, InodeRep, Linked;
    var l, f, t, end := s.lists, c.fid[d.file], d.file, d.currPos + |buf|;
    HandleFile(h, s, c, a, fd, d);
    WriteFile(h, s, c, a, t, d.currPos, buf, n, data');
    WrittenIsWrite(a, fd, f, d.currPos, buf, n);
    Proofs.WriteInv(a, fd, buf);
    var a2 := Written(a, fd, f, d.currPos, buf, n);
    var a1 := a2.(fds := a.fds);
    var e := WrittenEntry(EntryOf(c.ents, c.files[t]), Head(l[FileChain(f)] + l[FreeList][..n]), end);
    var c1 := WithEntry(c, data', t, e);
    MoveRep(c1.files, c.descs, c.fid, c.at, Grown(l, f, n), a1, fd, end);
    FdsIrrelevant(data', c1.ents, Grown(l, f, n), a1, a2);
  }

  /** Growing a file by ftruncate is writing zeros behind its end. */
  lemma GrowOk(h: seq<Hdr>, s: Store, c: State, a: Spec.Afs, fd: nat, d: Desc, length: nat, n: nat,
          data': seq<seq<Byte>>)
    requires StoreOk(h, s) && Rep(c, s.lists, a) && Handle(c, a, fd, d)
             && |c.data| == |h| == |c.ents| <= EMPTY_FILE_BLOCK
    requires var ino := a.inodes[c.fid[d.file]];
             |ino.data| < length <= Spec.SFS_MAX_FILE_SIZE && n <= a.avail && ino.blocks + n == Spec.BlocksFor(length)
    requires FreeList in s.lists && FileChain(c.fid[d.file]) in s.lists && n <= |s.lists[FreeList]|
    requires var old_ := |a.inodes[c.fid[d.file]].data|;
             Patched(data', c.data, s.lists[FileChain(c.fid[d.file])] + s.lists[FreeList][..n], old_,
                   Zeros(length - old_))
    ensures RefOk(c.files[d.file].diskFile, c.ents)
    ensures var e, all := EntryOf(c.ents, c.files[d.file]), s.lists[FileChain(c.fid[d.file])] + s.lists[FreeList][..n];
            && Rep(WithEntry(c, data', d.file, WrittenEntry(e, Head(all), length)), Grown(s.lists, c.fid[d.file], n),
                 Spec.Truncate(a, fd, length).0)
            && Spec.Truncate(a, fd, length).1 == 0 && Spec.Truncate(a, fd, length).0.mounted == a.mounted
  {
    hide StoreOk, FilesRep, DirRep, TabRep, Spec.Inv, Spec.Overwrite, Spec.Resize, Patched, EntryData, InodeRep, Linked;
    var f := c.fid[d.file];
    var ino := a.inodes[f];
    var z := Zeros(length - |ino.data|);
    HandleFile(h, s, c, a, fd, d);
    WriteFile(h, s, c, a, d.file, |ino.data|, z, n, data');
    ResizeByWrite(ino.data, length);
    ClampNone(c, s.lists, a, f, length);
    Proofs.TruncateInv(a, fd, length);
  }

  lemma ClampNone(c: State, l: Lists, a: Spec.Afs, f: nat, length: nat)
    requires Rep(c, l, a) && f in a.inodes && length >= |a.inodes[f].data|
    ensures Spec.Clamp(a.fds, f, length) == a.fds
  {
    hide FilesRep, DirRep, TabRep;
  }

  /** The entry after the file is cut to length. */
  function ShrunkEntry(e: DirEntry, blocks: nat, length: nat): DirEntry {
    e.(first := if blocks == 0 then EMPTY_FILE_BLOCK else e.first, size := length)
  }

  /** The file's blocks and contents after it is cut to length, in k blocks. */
  lemma CutInode(h: seq<Hdr>, s: Store, c: State, a: Spec.Afs, f: nat, length: nat, k: nat, data': seq<seq<Byte>>)
    requires StoreOk(h, s) && Rep(c, s.lists, a) && |c.data| == |h|
    requires f in a.inodes && FreeList in s.lists && FileChain(f) in s.lists && k <= |s.lists[FileChain(f)]|
    requires length <= |a.inodes[f].data| && length <= BLOCK_DATA_SIZE * k
    requires Patched(data', c.data, s.lists[FileChain(f)][..k], length, Zeros(BLOCK_DATA_SIZE * k - length))
    ensures var all := s.lists[FileChain(f)][..k];
            && |data'| == |c.data| && Full(data') && a.avail == |s.lists[FreeList]|
            && (forall b | 0 <= b < |data'| && b !in all :: data'[b] == c.data[b])
            && Apart(s.lists, a.inodes, f, all)
            && InodeRep(data', all, Spec.Inode(a.inodes[f].data[..length], k))
  {
    hide DirRep, TabRep, Spec.Inv, Linked, FilesRep;
    var all := s.lists[FileChain(f)][..k];
    FreeAndChain(h, s, c, a, f, 0);
    ApartOk(h, s, a.inodes, f, all);
    ShrunkInode(c.data, data', s.lists[FileChain(f)], k, a.inodes[f], length, Zeros(BLOCK_DATA_SIZE * k - length));
    PatchedFacts(data', c.data, all, length, Zeros(BLOCK_DATA_SIZE * k - length));
  }

  lemma FreedAll(l: Lists, o: Owner)
    requires FreeList in l && o in l && o != FreeList
    ensures Freed(l, o, |l[o]|) == l
  {
    assert l[o][..|l[o]|] == l[o] && l[o][|l[o]|..] + l[FreeList] == l[FreeList];
  }

  lemma FreedChain(l: Lists, o: Owner, k: nat)
    requires FreeList in l && o in l && o != FreeList && k <= |l[o]|
    ensures o in Freed(l, o, k) && Freed(l, o, k)[o] == l[o][..k]
  {
  }

  lemma ShrinkOk(h: seq<Hdr>, s: Store, c: State, a: Spec.Afs, fd: nat, d: Desc, length: nat, data': seq<seq<Byte>>)
    requires StoreOk(h, s) && Rep(c, s.lists, a) && Handle(c, a, fd, d)
             && |c.data| == |h| == |c.ents| <= EMPTY_FILE_BLOCK
    requires length < |a.inodes[c.fid[d.file]].data|
    requires FreeList in s.lists && FileChain(c.fid[d.file]) in s.lists
             && Spec.BlocksFor(length) <= |s.lists[FileChain(c.fid[d.file])]|
    requires var k := Spec.BlocksFor(length);
             Patched(data', c.data, s.lists[FileChain(c.fid[d.file])][..k], length, Zeros(BLOCK_DATA_SIZE * k - length))
    ensures RefOk(c.files[d.file].diskFile, c.ents)
    ensures var e, k := EntryOf(c.ents, c.files[d.file]), Spec.BlocksFor(length);
            var c' := WithEntry(c, data', d.file, ShrunkEntry(e, k, length));
            && Rep(c'.(descs := ClampDescs(c.descs, d.file, length)), Freed(s.lists, FileChain(c.fid[d.file]), k),
                 Spec.Truncate(a, fd, length).0)
            && Spec.Truncate(a, fd, length).1 == 0 && Spec.Truncate(a, fd, length).0.mounted == a.mounted
  {
    hide StoreOk, FilesRep, DirRep, TabRep, Spec.Inv, Patched, FileBytes, Linked;
    var l, f, t, k := s.lists, c.fid[d.file], d.file, Spec.BlocksFor(length);
    var chain, ino := l[FileChain(f)], a.inodes[f];
    HandleFile(h, s, c, a, fd, d);
    CutInode(h, s, c, a, f, length, k, data');
    var ino', e := Spec.Inode(ino.data[..length], k), ShrunkEntry(EntryOf(c.ents, c.files[t]), k, length);
    var l' := Freed(l, FileChain(f), k);
    assert InodeRep(c.data, chain, ino);
    FileRep(c, l, a, data', l', t, ino', a.avail + (ino.blocks - k), e, chain[..k]);
    var a1 := a.(inodes := a.inodes[f := ino'], avail := a.avail + (ino.blocks - k));
    var c1 := WithEntry(c, data', t, e);
    ClampRep(c1.files, c.descs, ClampDescs(c.descs, t, length), c.fid, c.at, l', a1, t, length);
    Truncated(a, fd, f, length);
    Proofs.TruncateInv(a, fd, length);
    FdsIrrelevant(data', c1.ents, l', a1, Spec.Truncate(a, fd, length).0);
  }

  lemma Truncated(a: Spec.Afs, fd: nat, f: nat, length: nat)
    requires Spec.Inv(a) && fd < |a.fds| && a.fds[fd].At? && a.fds[fd].fid == f && length < |a.inodes[f].data|
    ensures var ino, k := a.inodes[f], Spec.BlocksFor(length);
            && k <= ino.blocks
            && Spec.Truncate(a, fd, length) == (a.(inodes := a.inodes[f := Spec.Inode(ino.data[..length], k)],
                   fds := Spec.Clamp(a.fds, f, length), avail := a.avail + (ino.blocks - k)), 0)
  {
    assert Spec.GoodInode(a.inodes[f]);
    Proofs.BlocksMonotone(length, |a.inodes[f].data|);
  }

  /** The blocks a write covers. */
  lemma WriteSpan(a: Spec.Afs, f: nat, pos: nat, buf: seq<Byte>, n: nat, c: seq<BlockId>, new_: seq<BlockId>,
          data: seq<seq<Byte>>)
    requires f in a.inodes && WriteFits(a, f, pos, buf, n) && |c| == a.inodes[f].blocks && |new_| == n
    requires Full(data) && InodeRep(data, c, a.inodes[f])
    ensures pos <= BLOCK_DATA_SIZE * |c| && pos + |buf| <= BLOCK_DATA_SIZE * |c + new_|
    ensures n > 0 ==> pos + |buf| > BLOCK_DATA_SIZE * |c|
  {
    FileBytesLen(data, c);
  }

  lemma GrowthNeeds(c: State, l: Lists, a: Spec.Afs, f: nat, length: nat)
    requires Rep(c, l, a) && f in a.inodes && length > |a.inodes[f].data|
    ensures Spec.BlocksFor(length) >= a.inodes[f].blocks
  {
    hide FilesRep, DirRep, TabRep;
    assert Spec.GoodInode(a.inodes[f]);
    Proofs.BlocksMonotone(|a.inodes[f].data|, length);
  }

  lemma CutLists(h: seq<Hdr>, s: Store, c: State, a: Spec.Afs, fd: nat, d: Desc, length: nat)
    requires StoreOk(h, s) && Rep(c, s.lists, a) && Handle(c, a, fd, d) && |c.data| == |h|
    requires length < |a.inodes[c.fid[d.file]].data| && FileChain(c.fid[d.file]) in s.lists
    ensures FreeList in s.lists && Transit(FileTag) !in s.lists && Transit(FreeTag) !in s.lists
    ensures Spec.BlocksFor(length) <= |s.lists[FileChain(c.fid[d.file])]| == a.inodes[c.fid[d.file]].blocks
            && Full(c.data)
  {
    hide DirRep, TabRep, FileBytes;
    Truncated(a, fd, c.fid[d.file], length);
  }
}
