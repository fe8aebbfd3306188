/** The baseline file system: descriptors cache the first block of their file and
    the block of their position instead of walking the chain at every transfer. */
module SfsBaseline {
  import opened SfsChains
  import opened SfsContents
  import opened SfsTransfer
  import opened SfsRep
  import opened SfsRepSteps
  import opened SfsFileSteps
  import opened SfsOpSteps
  import opened SfsDirSteps
  import opened SfsCached
  import opened SfsDisk
  import Spec = SfsSpec
  import Proofs = SfsSpecProofs

  /** Opening in the baseline: the directory is extended before the descriptors are counted. */
  ghost function OpenSpec(a: Spec.Afs, name: Spec.CString): (Spec.Afs, int) {
    if Spec.NameError(a, name) < 0 then (a, Spec.NameError(a, name))
    else
      var k, fd, empty := Spec.Find(a.dir, name), Spec.FreeFd(a.fds), Spec.FirstEmpty(a.dir);
      if k < |a.dir| then
        if fd == |a.fds| then (a, -Spec.EMFILE) else (a.(fds := a.fds[fd := Spec.At(a.dir[k].fid, 0)]), fd)
      else if empty == |a.dir| && a.avail == 0 then (a, -Spec.ENOSPC)
      else
        var b := if empty < |a.dir| then a else Spec.Expand(a);
        if fd == |a.fds| then (b, -Spec.EMFILE) else (Spec.Create(b, empty, name, fd), fd)
  }

  class Baseline {
    const disk: Disk
    /** startBlock and currBlock of the descriptors, by number. */
    var starts: seq<BlockId>
    var currs: seq<BlockId>

    ghost function Repr(): set<object>
      reads disk
    {
      disk.Repr() + {this}
    }

    ghost predicate Valid()
      reads this, disk, disk.Repr()
    {
      && disk.Valid()
      && Coherent(disk.a.fds, disk.store.lists, starts, currs) == true
    }

    /** A mounted file system with nothing open. */
    constructor (d: Disk)
      requires d.Valid() && forall i | 0 <= i < |d.a.fds| :: d.a.fds[i].Shut?
      ensures Valid() && disk == d
    {
      hide StoreOk, FilesRep, DirRep, TabRep, Spec.Inv;
      TableShape(d.Cells(), d.store.lists, d.a);
      disk := d;
      starts, currs := seq(LIMIT, _ => 0), seq(LIMIT, _ => 0);
    }

    // ----- reading -----

    method Read(fd: int, len: nat) returns (r: int, buf: seq<Byte>)
      requires Valid()
      modifies Repr()
      ensures Valid() && Spec.Inv(old(disk.a)) && (disk.a, r, buf) == Spec.Read(old(disk.a), fd, len)
    {
      hide StoreOk, FilesRep, DirRep, TabRep, Spec.Inv, FileBytes, Coherent;
      var d := disk.Descriptor(fd);
      if d.NoDesc? {
        r, buf := -Spec.EBADF, [];
      } else {
        r, buf := ReadFile(fd, d, len);
      }
    }

    method ReadFile(fd: nat, d: Desc, len: nat) returns (r: int, buf: seq<Byte>)
      requires Valid() && Handle(disk.Cells(), disk.a, fd, d)
      modifies Repr()
      ensures Valid() && Spec.Inv(old(disk.a)) && (disk.a, r, buf) == Spec.Read(old(disk.a), fd, len)
    {
      hide StoreOk, FilesRep, DirRep, TabRep, Spec.Inv, FileBytes, Coherent, Full, Linked;
      var _, e, f, c := disk.FileOf(fd, d);
      r := Spec.Min(e.size - d.currPos, len);
      if r == 0 {
        ReadNothing(disk.a, fd, len);
        buf := [];
      } else {
        buf := ReadCached(fd, d, r, c);
      }
    }

    static lemma ReadNothing(a: Spec.Afs, fd: nat, len: nat)
      requires Spec.Inv(a) && Spec.ValidFd(a, fd) && Spec.Min(|a.inodes[a.fds[fd].fid].data| - a.fds[fd].pos, len) == 0
      ensures Spec.Read(a, fd, len) == (a, 0, [])
    {
      var f, pos := a.fds[fd].fid, a.fds[fd].pos;
      assert a.fds[fd := Spec.At(f, pos + 0)] == a.fds;
      assert a.inodes[f].data[pos..pos + 0] == [];
    }

    /** Descriptor fd goes to pos, whose block is b. */
    method MoveTo(fd: nat, d: Desc, pos: nat, b: BlockId)
      requires disk.Valid() && Handle(disk.Cells(), disk.a, fd, d) && pos <= |disk.a.inodes[disk.fid[d.file]].data|
               && fd < |currs|
      requires Coherent(disk.a.fds[fd := Spec.At(disk.fid[d.file], pos)], disk.store.lists, starts,
                 currs[fd := b]) == true
      modifies Repr()
      ensures Valid() && disk.a == old(disk.a).(fds := old(disk.a).fds[fd := Spec.At(old(disk.fid)[d.file], pos)])
    {
      hide StoreOk, FilesRep, DirRep, TabRep, Spec.Inv, Coherent;
      currs := currs[fd := b];
      disk.MoveTo(fd, d, pos);
    }

    method ReadCached(fd: nat, d: Desc, len: nat, ghost c: seq<BlockId>) returns (buf: seq<Byte>)
      requires Valid() && Handle(disk.Cells(), disk.a, fd, d) && FileChain(disk.fid[d.file]) in disk.store.lists
      requires c == disk.store.lists[FileChain(disk.fid[d.file])] && Linked(disk.hdr.view, c, FileTag)
      requires Full(disk.data.view) && InodeRep(disk.data.view, c, disk.a.inodes[disk.fid[d.file]])
      requires len > 0 && d.currPos + len <= |disk.a.inodes[disk.fid[d.file]].data|
      modifies Repr()
      ensures Valid() && buf == old(disk.a.inodes[disk.fid[d.file]].data)[d.currPos..d.currPos + len]
      ensures disk.a == old(disk.a).(fds := old(disk.a).fds[fd := Spec.At(old(disk.fid)[d.file], d.currPos + len)])
    {
      hide StoreOk, FilesRep, DirRep, TabRep, Spec.Inv, Linked, Coherent;
      ghost var f, ino := disk.fid[d.file], disk.a.inodes[disk.fid[d.file]];
      CachedBefore(disk.hdr.view, disk.store, disk.Cells(), disk.a, fd, d, starts, currs);
      MoveCoherent(disk.a.fds, disk.store.lists, starts, currs, fd, f, d.currPos + len);
      FileBytesLen(disk.data.view, c);
      PrefixSlice(ino.data, FileBytes(disk.data.view, c), d.currPos, d.currPos + len);
      hide FileBytes;
      var start := currs[fd];
      var block;
      buf, block := disk.CopyOut(start, d.currPos, len, c);
      MoveTo(fd, d, d.currPos + len, block);
    }

    method Fstat(fd: int) returns (r: int)
      requires Valid()
      ensures Spec.Inv(disk.a) && r == Spec.Fstat(disk.a, fd)
    {
      hide StoreOk, Rep, Spec.Fstat;
      r := disk.Fstat(fd);
    }

    // ----- writing -----

    /** Every descriptor of open file t gets b as its first block, and as its
        current one: always, or if it has none. */
    method AdoptFirst(t: nat, b: BlockId, always: bool)
      requires disk.descs.Valid() && |disk.descs.view| == |starts| == |currs| == LIMIT
      requires !always ==> forall i | 0 <= i < LIMIT ::
                 disk.descs.view[i].Desc? && disk.descs.view[i].file == t ==> currs[i] == 0
      modifies `starts, `currs
      ensures starts == Adopted(disk.descs.view, t, b, old(starts))
      ensures currs == Adopted(disk.descs.view, t, b, old(currs))
    {
      ghost var descs, starts0, currs0 := disk.descs.view, starts, currs;
      var i: nat := 0;
      while i < LIMIT
        invariant i <= LIMIT && |starts| == |currs| == LIMIT
        invariant forall j | 0 <= j < LIMIT :: starts[j] == if j < i then Adopted(descs, t, b, starts0)[j]
                  else starts0[j]
        invariant forall j | 0 <= j < LIMIT :: currs[j] == if j < i then Adopted(descs, t, b, currs0)[j] else currs0[j]
      {
        var d := disk.descs.Get(i);
        if d.Desc? && d.file == t {
          starts := starts[i := b];
          if always || currs[i] == 0 {
            currs := currs[i := b];
          }
        }
        i := i + 1;
      }
      assert starts == Adopted(descs, t, b, starts0) && currs == Adopted(descs, t, b, currs0);
    }

    method Write(fd: int, buf: seq<Byte>) returns (r: int)
      requires Valid()
      modifies Repr()
      ensures Valid() && Spec.Inv(old(disk.a)) && (disk.a, r) == Spec.Write(old(disk.a), fd, buf)
    {
      hide StoreOk, FilesRep, DirRep, TabRep, Spec.Inv, FileBytes, Coherent;
      var d := disk.Descriptor(fd);
      if d.NoDesc? {
        return -Spec.EBADF;
      }
      if |buf| > Spec.SFS_MAX_FILE_SIZE - d.currPos {
        return -Spec.EFBIG;
      }
      if |buf| == 0 {
        return 0;
      }
      r := WriteBytes(fd, d, buf);
    }

    method WriteBytes(fd: nat, d: Desc, buf: seq<Byte>) returns (r: int)
      requires Valid() && Handle(disk.Cells(), disk.a, fd, d) && buf != []
               && d.currPos + |buf| <= Spec.SFS_MAX_FILE_SIZE
      modifies Repr()
      ensures Valid() && Spec.Inv(old(disk.a)) && (disk.a, r) == Spec.Write(old(disk.a), fd, buf)
    {
      hide StoreOk, FilesRep, DirRep, TabRep, Spec.Inv, FileBytes, Spec.Overwrite, Linked, Patched, Coherent, Full,
           AllocatedBlocks;
      var x, e, f, c := disk.FileOf(fd, d);
      NoTransit(disk.Cells(), disk.store.lists, disk.a, FileTag);
      NoTransit(disk.Cells(), disk.store.lists, disk.a, FreeTag);
      ghost var h, s, end := disk.hdr.view, disk.store, d.currPos + |buf|;
      ghost var n := if Spec.BlocksFor(end) > disk.a.inodes[f].blocks then Spec.BlocksFor(end) - disk.a.inodes[f].blocks
                else 0;
      var newHead, ok := disk.Reserve(AllocatedBlocks(e), d.currPos + |buf|);
      if ok {
        PutWrite(fd, d, x, e, buf, newHead, h, s, n);
        r := |buf|;
      } else {
        r := -Spec.ENOSPC;
      }
    }

    ghost predicate BuffersOk()
      reads this, disk, disk.Repr()
    {
      && disk.ListsOk() && disk.data.Valid() && |disk.data.view| == |disk.hdr.view| <= EMPTY_FILE_BLOCK
      && Full(disk.data.view)
      && disk.descs.Valid() && |disk.descs.view| == |starts| == |currs| == LIMIT
    }

    /** The reserved blocks become the file of an open file without any, and buf is copied there. */
    method TransferFirst(t: nat, pos: nat, buf: seq<Byte>, newHead: BlockId, ghost o: Owner, ghost new_: seq<BlockId>)
      returns (last: BlockId)
      requires BuffersOk() && o.FileChain? && o in disk.store.lists && disk.store.lists[o] == []
      requires Transit(FileTag) in disk.store.lists && new_ == disk.store.lists[Transit(FileTag)] && new_ != []
               && newHead == new_[0]
      requires buf != [] && pos == 0 && |buf| <= BLOCK_DATA_SIZE * |new_|
      requires forall i | 0 <= i < LIMIT :: disk.descs.view[i].Desc? && disk.descs.view[i].file == t ==> currs[i] == 0
      modifies disk`store, disk.hdr, disk.hdr.cells, disk.data, disk.data.cells, `starts, `currs
      ensures disk.ListsOk() && disk.data.Valid() && disk.store.lists == Completed(old(disk.store).lists, o, new_)
      ensures Patched(disk.data.view, old(disk.data.view), new_, pos, buf)
      ensures starts == Adopted(disk.descs.view, t, newHead, old(starts))
      ensures currs == Adopted(disk.descs.view, t, newHead, old(currs))
      ensures last == BlockAt(new_, pos + |buf|)
    {
      hide StoreOk, Linked, Patched, Full, Adopted;
      AdoptedEmpty(disk.hdr.view, disk.store, o, new_);
      AdoptFirst(t, newHead, false);
      disk.Adopt(o, new_);
      last := disk.CopyIn(newHead, pos, buf, 0, o, new_);
    }

    /** The copying of sfs_write, from the cached block on. */
    method TransferIn(fd: nat, t: nat, pos: nat, first: BlockId, buf: seq<Byte>, newHead: BlockId, ghost o: Owner,
            ghost c: seq<BlockId>, ghost new_: seq<BlockId>)
      returns (first': BlockId, last: BlockId)
      requires BuffersOk() && fd < LIMIT && o.FileChain? && o in disk.store.lists && c == disk.store.lists[o]
      requires first == if c == [] then EMPTY_FILE_BLOCK else c[0]
      requires if newHead == 0 then new_ == [] && Transit(FileTag) !in disk.store.lists
               else Transit(FileTag) in disk.store.lists && new_ == disk.store.lists[Transit(FileTag)] && new_ != []
                    && newHead == new_[0]
      requires buf != [] && pos <= BLOCK_DATA_SIZE * |c| && pos + |buf| <= BLOCK_DATA_SIZE * |c + new_|
      requires newHead != 0 ==> pos + |buf| > BLOCK_DATA_SIZE * |c|
      requires CachedFile(disk.descs.view, currs, fd, Desc(t, pos), c) == true
      modifies disk`store, disk.hdr, disk.hdr.cells, disk.data, disk.data.cells, `starts, `currs
      ensures disk.ListsOk() && disk.data.Valid() && disk.store.lists == Completed(old(disk.store).lists, o, c + new_)
      ensures Patched(disk.data.view, old(disk.data.view), c + new_, pos, buf) && first' == Head(c + new_)
      ensures starts == GrownCache(disk.descs.view, t, c, new_, old(starts))
      ensures currs == GrownCache(disk.descs.view, t, c, new_, old(currs))
      ensures last == BlockAt(c + new_, pos + |buf|)
    {
      hide StoreOk, Linked, Patched, IndexFor, Full, Adopted, Completed;
      TransferFacts(disk.hdr.view, disk.store, o, c, new_);
      var curr := currs[fd];
      if curr == 0 {
        first' := newHead;
        assert c + new_ == new_;
        last := TransferFirst(t, pos, buf, newHead, o, new_);
      } else {
        first' := first;
        last := disk.CopyIn(curr, pos, buf, newHead, o, c + new_);
      }
    }

    /** The caches are brought up to date and the bytes of buf copied; nothing is recorded yet. */
    method MoveIn(fd: nat, d: Desc, x: OpenFile, e: DirEntry, buf: seq<Byte>, newHead: BlockId, ghost h: seq<Hdr>,
            ghost s: Store, ghost n: nat, ghost f: nat) returns (first: BlockId)
      requires disk.Reserved(fd, d, x, e, buf, h, s, n) && disk.ListsOk() && Transit(FileTag) !in s.lists
      requires newHead == (if n == 0 then 0 else s.lists[FreeList][0])
      requires disk.store.lists == if n == 0 then s.lists else Allocated(s.lists, n, FileTag)
      requires Coherent(disk.a.fds, s.lists, starts, currs) == true
      requires f == disk.fid[d.file]
      modifies disk`store, disk.hdr, disk.hdr.cells, disk.data, disk.data.cells, `starts, `currs
      ensures disk.ListsOk() && disk.data.Valid() && FreeList in s.lists && n <= |s.lists[FreeList]|
              && FileChain(f) in s.lists
      ensures var all := s.lists[FileChain(f)] + s.lists[FreeList][..n];
              Patched(disk.data.view, old(disk.data.view), all, d.currPos, buf) == true && first == Head(all)
      ensures disk.store.lists == Grown(s.lists, f, n)
      ensures Spec.Inv(disk.a) && Coherent(Spec.Write(disk.a, fd, buf).0.fds, disk.store.lists, starts, currs) == true
    {
      hide StoreOk, FilesRep, DirRep, TabRep, Spec.Inv, FileBytes, Spec.Overwrite, Linked, Patched, Coherent,
           GrownCache, CachedFile, Adopted, Spec.Write, BlockAt, Grown, Full;
      ghost var cells := disk.Cells();
      HandleFile(h, s, cells, disk.a, fd, d);
      ListInRange(h, s, FreeList);
      GrownByWrite(s.lists, f, n);
      ghost var c, new_ := s.lists[FileChain(f)], s.lists[FreeList][..n];
      WriteSpan(disk.a, f, d.currPos, buf, n, c, new_, disk.data.view);
      CachedBefore(h, s, cells, disk.a, fd, d, starts, currs);
      WriteCoherent(h, s, cells, disk.a, fd, d, buf, n, starts, currs);
      var last;
      first, last := TransferIn(fd, d.file, d.currPos, e.first, buf, newHead, FileChain(f), c, new_);
      currs := currs[fd := last];
    }

    method PutWrite(fd: nat, d: Desc, x: OpenFile, e: DirEntry, buf: seq<Byte>, newHead: BlockId, ghost h: seq<Hdr>,
            ghost s: Store, ghost n: nat)
      requires disk.Reserved(fd, d, x, e, buf, h, s, n) && disk.ListsOk() && Transit(FileTag) !in s.lists
      requires newHead == (if n == 0 then 0 else s.lists[FreeList][0])
      requires disk.store.lists == if n == 0 then s.lists else Allocated(s.lists, n, FileTag)
      requires Coherent(disk.a.fds, s.lists, starts, currs) == true
      modifies Repr()
      ensures Valid() && Spec.Inv(old(disk.a)) && disk.a == Spec.Write(old(disk.a), fd, buf).0
              && |buf| == Spec.Write(old(disk.a), fd, buf).1
    {
      hide StoreOk, FilesRep, DirRep, TabRep, Spec.Inv, FileBytes, Spec.Overwrite, Linked, Patched, Coherent,
           Spec.Write, Grown, Full, Allocated, Head;
      ghost var cells := disk.Cells();
      var first := MoveIn(fd, d, x, e, buf, newHead, h, s, n, disk.fid[d.file]);
      RecordWrite(fd, d, x, e, buf, first, h, s, n, cells);
    }

    method RecordWrite(fd: nat, d: Desc, x: OpenFile, e: DirEntry, buf: seq<Byte>, first: BlockId, ghost h: seq<Hdr>,
            ghost s: Store, ghost n: nat, ghost was: State)
      requires disk.BuffersOk() && disk.ListsOk() && disk.a.mounted == disk.mounted && |h| == |disk.hdr.view|
      requires was == disk.Cells().(data := was.data) && |was.data| == |disk.data.view|
      requires Handle(was, disk.a, fd, d) && x == disk.files.view[d.file]
      requires StoreOk(h, s) == true && Rep(was, s.lists, disk.a) == true
               && WriteFits(disk.a, disk.fid[d.file], d.currPos, buf, n)
      requires FreeList in s.lists && n <= |s.lists[FreeList]| && FileChain(disk.fid[d.file]) in s.lists
      requires RefOk(x.diskFile, disk.ents.view) && e == EntryOf(disk.ents.view, x)
      requires var all := s.lists[FileChain(disk.fid[d.file])] + s.lists[FreeList][..n];
               Patched(disk.data.view, was.data, all, d.currPos, buf) == true && first == Head(all)
      requires disk.store.lists == Grown(s.lists, disk.fid[d.file], n)
      requires Spec.Inv(disk.a) && Coherent(Spec.Write(disk.a, fd, buf).0.fds, disk.store.lists, starts, currs) == true
      modifies disk`a, disk.ents, disk.ents.cells, disk.files, disk.files.cells, disk.descs, disk.descs.cells
      ensures Valid() && Spec.Inv(old(disk.a)) && disk.a == Spec.Write(old(disk.a), fd, buf).0
              && |buf| == Spec.Write(old(disk.a), fd, buf).1
    {
      hide StoreOk, FilesRep, DirRep, TabRep, Spec.Inv, FileBytes, Spec.Overwrite, Linked, Patched, Coherent,
           Spec.Write, Grown;
      disk.RecordWrite(fd, d, x, e, buf, first, h, s, n, was);
    }

    // ----- ftruncate -----

    method Ftruncate(fd: int, length: nat) returns (r: int)
      requires Valid()
      modifies Repr()
      ensures Valid() && Spec.Inv(old(disk.a)) && (disk.a, r) == Spec.Truncate(old(disk.a), fd, length)
    {
      hide StoreOk, FilesRep, DirRep, TabRep, Spec.Inv, FileBytes, Spec.Resize, Spec.Clamp, Linked, Coherent;
      var d := disk.Descriptor(fd);
      if d.NoDesc? {
        return -Spec.EBADF;
      }
      if length > Spec.SFS_MAX_FILE_SIZE {
        return -Spec.EFBIG;
      }
      r := Resize(fd, d, length);
    }

    method Resize(fd: nat, d: Desc, length: nat) returns (r: int)
      requires Valid() && Handle(disk.Cells(), disk.a, fd, d) && length <= Spec.SFS_MAX_FILE_SIZE
      modifies Repr()
      ensures Valid() && Spec.Inv(old(disk.a)) && (disk.a, r) == Spec.Truncate(old(disk.a), fd, length)
    {
      hide StoreOk, FilesRep, DirRep, TabRep, Spec.Inv, FileBytes, Spec.Resize, Spec.Clamp, Linked, Coherent;
      var x, e, f, c := disk.FileOf(fd, d);
      if length == e.size {
        r := 0;
      } else if length > e.size {
        r := GrowTo(fd, d, x, e, length, c);
      } else {
        ShrinkTo(fd, d, x, e, length, c);
        r := 0;
      }
    }

    method GrowTo(fd: nat, d: Desc, x: OpenFile, e: DirEntry, length: nat, ghost c: seq<BlockId>) returns (r: int)
      requires Valid() && Handle(disk.Cells(), disk.a, fd, d) && x == disk.files.view[d.file]
               && RefOk(x.diskFile, disk.ents.view) && e == EntryOf(disk.ents.view, x)
      requires FileChain(disk.fid[d.file]) in disk.store.lists && c == disk.store.lists[FileChain(disk.fid[d.file])]
      requires EntryData(e, c, |disk.a.inodes[disk.fid[d.file]].data|)
               && AllocatedBlocks(e) == disk.a.inodes[disk.fid[d.file]].blocks == |c|
      requires e.size < length <= Spec.SFS_MAX_FILE_SIZE
      modifies Repr()
      ensures Valid() && Spec.Inv(old(disk.a)) && (disk.a, r) == Spec.Truncate(old(disk.a), fd, length)
    {
      hide StoreOk, FilesRep, DirRep, TabRep, Spec.Inv, FileBytes, Spec.Resize, Spec.Clamp, Linked, Coherent;
      NoTransit(disk.Cells(), disk.store.lists, disk.a, FileTag);
      NoTransit(disk.Cells(), disk.store.lists, disk.a, FreeTag);
      GrowthNeeds(disk.Cells(), disk.store.lists, disk.a, disk.fid[d.file], length);
      ghost var h, s, f := disk.hdr.view, disk.store, disk.fid[d.file];
      var oldBlocks, newBlocks, newHead := AllocatedBlocks(e), Spec.BlocksFor(length), 0;
      ghost var n := newBlocks - oldBlocks;
      if newBlocks > oldBlocks {
        newHead := disk.AllocateBlocks(newBlocks - oldBlocks, FileTag);
      }
      ListInRange(h, s, FreeList);
      if newBlocks > oldBlocks && newHead == 0 {
        r := -Spec.ENOSPC;
      } else {
        FinishGrow(fd, d, x, e, length, newHead, h, s, n, c);
        r := 0;
      }
    }

    /** Append the reserved blocks to the file; the first ones it gets are its first block everywhere. */
    method ExtendChain(t: nat, first: BlockId, oldBlocks: nat, newHead: BlockId, ghost o: Owner, ghost c: seq<BlockId>,
            ghost new_: seq<BlockId>) returns (first': BlockId)
      requires BuffersOk() && o.FileChain? && o in disk.store.lists && c == disk.store.lists[o] && |c| == oldBlocks
               && (c != [] ==> first == c[0])
      requires if newHead == 0 then new_ == [] && Transit(FileTag) !in disk.store.lists && c != []
               else Transit(FileTag) in disk.store.lists && new_ == disk.store.lists[Transit(FileTag)] && new_ != []
                    && newHead == new_[0]
      modifies disk`store, disk.hdr, disk.hdr.cells, `starts, `currs
      ensures BuffersOk() && first' == Head(c + new_) && |disk.hdr.view| == |old(disk.hdr.view)|
      ensures disk.store.lists == if newHead == 0 then old(disk.store).lists
              else Attached(old(disk.store).lists, o, Transit(FileTag))
      ensures starts == GrownCache(disk.descs.view, t, c, new_, old(starts))
      ensures currs == GrownCache(disk.descs.view, t, c, new_, old(currs))
    {
      hide StoreOk, Linked, Full, Adopted, Attached;
      first' := first;
      if newHead != 0 {
        first' := disk.ExtendChain(first, oldBlocks, newHead, o, c, new_);
        if oldBlocks == 0 {
          AdoptFirst(t, newHead, true);
        }
      }
      assert newHead == 0 ==> c + new_ == c;
    }

    /** The reserved blocks are attached and the new bytes cleared; nothing is recorded yet. */
    method AttachAndClear(fd: nat, d: Desc, x: OpenFile, e: DirEntry, length: nat, newHead: BlockId, ghost h: seq<Hdr>,
            ghost s: Store, ghost n: nat, ghost f: nat, ghost c: seq<BlockId>) returns (first: BlockId)
      requires disk.BuffersOk() && disk.ListsOk() && disk.a.mounted == disk.mounted
               && Handle(disk.Cells(), disk.a, fd, d) && x == disk.files.view[d.file]
      requires StoreOk(h, s) == true && Rep(disk.Cells(), s.lists, disk.a) == true && |h| == |disk.hdr.view|
      requires RefOk(x.diskFile, disk.ents.view) && e == EntryOf(disk.ents.view, x)
      requires FreeList in s.lists && n <= |s.lists[FreeList]| && n <= disk.a.avail
               && FileChain(disk.fid[d.file]) in s.lists && c == s.lists[FileChain(disk.fid[d.file])]
      requires EntryData(e, c, |disk.a.inodes[disk.fid[d.file]].data|)
      requires e.size < length <= Spec.SFS_MAX_FILE_SIZE && |c| == disk.a.inodes[disk.fid[d.file]].blocks
               && |c| + n == Spec.BlocksFor(length)
      requires Transit(FileTag) !in s.lists
      requires newHead == (if n == 0 then 0 else s.lists[FreeList][0]) && (newHead == 0 <==> n == 0)
      requires disk.store.lists == if n == 0 then s.lists else Allocated(s.lists, n, FileTag)
      requires Coherent(disk.a.fds, s.lists, starts, currs) == true
      requires f == disk.fid[d.file]
      modifies disk`store, disk.hdr, disk.hdr.cells, disk.data, disk.data.cells, `starts, `currs
      ensures disk.ListsOk() && disk.data.Valid() && |disk.hdr.view| == |h|
      ensures Patched(disk.data.view, old(disk.data.view), c + s.lists[FreeList][..n], e.size,
                Zeros(length - e.size)) == true && first == Head(c + s.lists[FreeList][..n])
      ensures disk.store.lists == Grown(s.lists, f, n)
      ensures Spec.Inv(disk.a) && Coherent(Spec.Truncate(disk.a, fd, length).0.fds, disk.store.lists, starts,
                currs) == true
    {
      hide StoreOk, FilesRep, DirRep, TabRep, Spec.Inv, FileBytes, Spec.Resize, Spec.Clamp, Linked, Patched,
           Spec.Truncate, Coherent, GrownCache, Grown, Full, Attached, Zeros, Head, Spec.BlocksFor;
      ghost var was, new_ := disk.Cells(), s.lists[FreeList][..n];
      GrownByWrite(s.lists, f, n);
      HandleFile(h, s, was, disk.a, fd, d);
      GrowthCoherent(h, s, was, disk.a, fd, d, length, n, starts, currs);
      first := ExtendChain(d.file, e.first, AllocatedBlocks(e), newHead, FileChain(f), c, new_);
      GrownChain(s.lists, f, n);
      ListLinked(disk.hdr.view, disk.store, FileChain(f));
      disk.ZeroFileRange(first, e.size, length, c + new_);
    }

    method FinishGrow(fd: nat, d: Desc, x: OpenFile, e: DirEntry, length: nat, newHead: BlockId, ghost h: seq<Hdr>,
            ghost s: Store, ghost n: nat, ghost c: seq<BlockId>)
      requires disk.BuffersOk() && disk.ListsOk() && disk.a.mounted == disk.mounted
               && Handle(disk.Cells(), disk.a, fd, d) && x == disk.files.view[d.file]
      requires StoreOk(h, s) == true && Rep(disk.Cells(), s.lists, disk.a) == true && |h| == |disk.hdr.view|
      requires RefOk(x.diskFile, disk.ents.view) && e == EntryOf(disk.ents.view, x)
      requires FreeList in s.lists && n <= |s.lists[FreeList]| && n <= disk.a.avail
               && FileChain(disk.fid[d.file]) in s.lists && c == s.lists[FileChain(disk.fid[d.file])]
      requires EntryData(e, c, |disk.a.inodes[disk.fid[d.file]].data|)
      requires e.size < length <= Spec.SFS_MAX_FILE_SIZE && |c| == disk.a.inodes[disk.fid[d.file]].blocks
               && |c| + n == Spec.BlocksFor(length)
      requires Transit(FileTag) !in s.lists
      requires newHead == (if n == 0 then 0 else s.lists[FreeList][0]) && (newHead == 0 <==> n == 0)
      requires disk.store.lists == if n == 0 then s.lists else Allocated(s.lists, n, FileTag)
      requires Coherent(disk.a.fds, s.lists, starts, currs) == true
      modifies Repr()
      ensures Valid() && Spec.Inv(old(disk.a)) && (disk.a, 0) == Spec.Truncate(old(disk.a), fd, length)
    {
      hide StoreOk, FilesRep, DirRep, TabRep, Spec.Inv, FileBytes, Linked, Patched, Spec.Truncate, Coherent, Grown,
           Full, Allocated, Head, Zeros, Spec.BlocksFor;
      ghost var was := disk.Cells();
      var first := AttachAndClear(fd, d, x, e, length, newHead, h, s, n, disk.fid[d.file], c);
      RecordGrow(fd, d, x, e, length, first, h, s, n, was);
    }

    method RecordGrow(ghost fd: nat, d: Desc, x: OpenFile, e: DirEntry, length: nat, first: BlockId, ghost h: seq<Hdr>,
            ghost s: Store, ghost n: nat, ghost was: State)
      requires disk.BuffersOk() && disk.ListsOk() && disk.a.mounted == disk.mounted && |h| == |disk.hdr.view|
      requires was == disk.Cells().(data := was.data) && |was.data| == |disk.data.view|
      requires Handle(was, disk.a, fd, d) && x == disk.files.view[d.file]
      requires StoreOk(h, s) == true && Rep(was, s.lists, disk.a) == true
      requires e.size < length <= Spec.SFS_MAX_FILE_SIZE && e.size == |disk.a.inodes[disk.fid[d.file]].data|
      requires n <= disk.a.avail && disk.a.inodes[disk.fid[d.file]].blocks + n == Spec.BlocksFor(length)
      requires FreeList in s.lists && n <= |s.lists[FreeList]| && FileChain(disk.fid[d.file]) in s.lists
      requires RefOk(x.diskFile, disk.ents.view) && e == EntryOf(disk.ents.view, x)
      requires var all := s.lists[FileChain(disk.fid[d.file])] + s.lists[FreeList][..n];
               Patched(disk.data.view, was.data, all, e.size, Zeros(length - e.size)) == true && first == Head(all)
      requires disk.store.lists == Grown(s.lists, disk.fid[d.file], n)
      requires Spec.Inv(disk.a) && Coherent(Spec.Truncate(disk.a, fd, length).0.fds, disk.store.lists, starts,
                 currs) == true
      modifies disk`a, disk.ents, disk.ents.cells, disk.files, disk.files.cells
      ensures Valid() && Spec.Inv(old(disk.a)) && (disk.a, 0) == Spec.Truncate(old(disk.a), fd, length)
    {
      hide StoreOk, FilesRep, DirRep, TabRep, Spec.Inv, FileBytes, Linked, Patched, Spec.Truncate, Coherent, Grown;
      disk.RecordGrow(fd, d, x, e, length, first, h, s, n, was);
    }

    /** The last loop of sfs_ftruncate: descriptors of open file t at or beyond length
        are put there, and their block is looked up again in what is left of the chain. */
    method ClampAll(t: nat, length: nat, first: BlockId, ghost c: seq<BlockId>)
      requires disk.descs.Valid() && |disk.descs.view| == |currs| == LIMIT
      requires disk.hdr.Valid() && Linked(disk.hdr.view, c, FileTag) && first == Head(c)
               && length <= BLOCK_DATA_SIZE * |c|
      modifies disk.descs, disk.descs.cells, `currs
      ensures disk.descs.Valid() && disk.descs.view == ClampDescs(old(disk.descs.view), t, length)
      ensures currs == Recomputed(old(disk.descs.view), t, length, c, old(currs))
    {
      hide Linked;
      ghost var was, currs0 := disk.descs.view, currs;
      var i: nat := 0;
      while i < LIMIT
        invariant i <= LIMIT && disk.descs.Valid() && |disk.descs.view| == |currs| == LIMIT
        invariant forall j | 0 <= j < LIMIT :: disk.descs.view[j] == if j < i then ClampDescs(was, t, length)[j]
                  else was[j]
        invariant forall j | 0 <= j < LIMIT :: currs[j] == if j < i then Recomputed(was, t, length, c, currs0)[j]
                  else currs0[j]
      {
        var d := disk.descs.Get(i);
        if d.Desc? && d.file == t && d.currPos >= length {
          if d.currPos > length {
            disk.descs.Put(i, d.(currPos := length));
          }
          var b := disk.BlockForPosition(first, length, c);
          currs := currs[i := b];
        }
        i := i + 1;
      }
      assert disk.descs.view == ClampDescs(was, t, length) && currs == Recomputed(was, t, length, c, currs0);
    }

    /** No descriptor of open file t has a first block any more. */
    method DropFirst(t: nat)
      requires disk.descs.Valid() && |disk.descs.view| == |starts| == LIMIT
      modifies `starts
      ensures starts == Adopted(disk.descs.view, t, 0, old(starts))
    {
      ghost var starts0 := starts;
      var i: nat := 0;
      while i < LIMIT
        invariant i <= LIMIT && |starts| == LIMIT
        invariant forall j | 0 <= j < LIMIT :: starts[j] == if j < i then Adopted(disk.descs.view, t, 0, starts0)[j]
                  else starts0[j]
      {
        var d := disk.descs.Get(i);
        if d.Desc? && d.file == t {
          starts := starts[i := 0];
        }
        i := i + 1;
      }
      assert starts == Adopted(disk.descs.view, t, 0, starts0);
    }

    method ShrinkTo(fd: nat, d: Desc, x: OpenFile, e: DirEntry, length: nat, ghost c: seq<BlockId>)
      requires Valid() && Handle(disk.Cells(), disk.a, fd, d) && x == disk.files.view[d.file]
               && RefOk(x.diskFile, disk.ents.view) && e == EntryOf(disk.ents.view, x)
      requires FileChain(disk.fid[d.file]) in disk.store.lists && c == disk.store.lists[FileChain(disk.fid[d.file])]
      requires EntryData(e, c, |disk.a.inodes[disk.fid[d.file]].data|)
               && AllocatedBlocks(e) == disk.a.inodes[disk.fid[d.file]].blocks == |c|
      requires length < e.size
      modifies Repr()
      ensures Valid() && Spec.Inv(old(disk.a)) && (disk.a, 0) == Spec.Truncate(old(disk.a), fd, length)
    {
      hide StoreOk, FilesRep, DirRep, TabRep, Spec.Inv, FileBytes, Spec.Resize, Spec.Clamp, Linked, Patched,
           Spec.Truncate, Coherent, Recomputed, Adopted, Freed;
      ghost var h, s, was, f := disk.hdr.view, disk.store, disk.Cells(), disk.fid[d.file];
      var newBlocks := Spec.BlocksFor(length);
      CutLists(h, s, was, disk.a, fd, d, length);
      ShrinkCoherent(h, s, was, disk.a, fd, d, length, starts, currs);
      var first := disk.CutChain(e, newBlocks, FileChain(f), c);
      if newBlocks == 0 {
        first := 0;
        DropFirst(d.file);
      }
      disk.ZeroFileRange(first, length, newBlocks * BLOCK_DATA_SIZE, c[..newBlocks]);
      RecordShrink(fd, d, x, e, length, first, h, s, was);
    }

    method RecordShrink(ghost fd: nat, d: Desc, x: OpenFile, e: DirEntry, length: nat, first: BlockId,
            ghost h: seq<Hdr>, ghost s: Store, ghost was: State)
      requires disk.BuffersOk() && disk.ListsOk() && disk.a.mounted == disk.mounted && |h| == |disk.hdr.view|
      requires was == disk.Cells().(data := was.data) && |was.data| == |disk.data.view|
      requires Handle(was, disk.a, fd, d) && x == disk.files.view[d.file]
      requires StoreOk(h, s) == true && Rep(was, s.lists, disk.a) == true
      requires length < |disk.a.inodes[disk.fid[d.file]].data|
      requires FreeList in s.lists && FileChain(disk.fid[d.file]) in s.lists
               && Spec.BlocksFor(length) <= |s.lists[FileChain(disk.fid[d.file])]|
      requires RefOk(x.diskFile, disk.ents.view) && e == EntryOf(disk.ents.view, x)
      requires var c := s.lists[FileChain(disk.fid[d.file])][..Spec.BlocksFor(length)];
               && Patched(disk.data.view, was.data, c, length, Zeros(BLOCK_DATA_SIZE * |c| - length)) == true
               && Linked(disk.hdr.view, c, FileTag) == true && first == Head(c)
               && |currs| == |disk.descs.view|
               && Spec.Inv(disk.a) && Coherent(Spec.Truncate(disk.a, fd, length).0.fds, disk.store.lists, starts,
                    Recomputed(disk.descs.view, d.file, length, c, currs)) == true
      requires disk.store.lists == Freed(s.lists, FileChain(disk.fid[d.file]), Spec.BlocksFor(length))
      modifies disk`a, disk.ents, disk.ents.cells, disk.files, disk.files.cells, disk.descs, disk.descs.cells, `currs
      ensures Valid() && Spec.Inv(old(disk.a)) && (disk.a, 0) == Spec.Truncate(old(disk.a), fd, length)
    {
      hide StoreOk, FilesRep, DirRep, TabRep, Spec.Inv, FileBytes, Linked, Patched, Spec.Truncate, Coherent, Recomputed,
           Freed;
      ShrinkOk(h, s, was, disk.a, fd, d, length, disk.data.view);
      disk.StoreEntry(d.file, x, ShrunkEntry(e, Spec.BlocksFor(length), length));
      ClampAll(d.file, length, first, s.lists[FileChain(disk.fid[d.file])][..Spec.BlocksFor(length)]);
      disk.a := Spec.Truncate(disk.a, fd, length).0;
    }

    // ----- opening, closing and removing -----

    method AddOpenFileEntry(r: EntryRef, ghost k: nat) returns (result: int)
      requires Valid() && disk.mounted && k < |disk.a.dir| && disk.a.dir[k].Used? && DirChain in disk.store.lists
      requires k < ENTRIES * (|disk.store.lists[DirChain]| + 1) && r == SlotRef(disk.store.lists[DirChain], k)
      modifies disk`a, disk`fid, disk`at, disk.files, disk.files.cells, disk.descs, disk.descs.cells, `starts, `currs
      ensures Valid()
      ensures var fd := Spec.FreeFd(old(disk.a).fds);
              if fd == |old(disk.a).fds| then result == -Spec.EMFILE && disk.a == old(disk.a)
              else result == fd && disk.a == old(disk.a).(fds := old(disk.a).fds[fd := Spec.At(old(disk.a).dir[k].fid,
                         0)])
    {
      hide StoreOk, FilesRep, DirRep, TabRep, Spec.Inv, Coherent, Linked, FileBytes;
      TableShape(disk.Cells(), disk.store.lists, disk.a);
      ghost var fds := disk.a.fds;
      result := disk.AddOpenFileEntry(r, k);
      if result >= 0 {
        CacheFirst(result, fds);
      }
    }

    /** The cached pointers of a new descriptor. */
    method CacheFirst(fd: nat, ghost fds: seq<Spec.Ofd>)
      requires disk.Valid() && fd < LIMIT == |disk.a.fds| == |fds| && disk.a.fds[fd].At? && disk.a.fds[fd].pos == 0
      requires disk.a.fds == fds[fd := disk.a.fds[fd]] && Coherent(fds, disk.store.lists, starts, currs) == true
      modifies `starts, `currs
      ensures Valid()
    {
      hide StoreOk, FilesRep, DirRep, TabRep, Spec.Inv, Coherent, Linked, FileBytes;
      var d := disk.Descriptor(fd);
      var _, e, f, c := disk.FileOf(fd, d);
      ListInRange(disk.hdr.view, disk.store, FileChain(f));
      CoherentFor(fds, disk.store.lists, starts, currs, fd);
      OpenCoherent(fds, disk.store.lists, starts, currs, fd, f);
      var first := if e.first == EMPTY_FILE_BLOCK then 0 else e.first;
      starts := starts[fd := first];
      currs := currs[fd := first];
    }

    /** Put a new name into slot k and open it; without a free descriptor the slot is cleared again. */
    method CreateFile(name: Spec.CString, r: EntryRef, ghost k: nat) returns (result: int)
      requires Valid() && disk.mounted && Spec.GoodName(name) && k < |disk.a.dir| && disk.a.dir[k].Empty?
               && DirChain in disk.store.lists
      requires k < ENTRIES * (|disk.store.lists[DirChain]| + 1) && r == SlotRef(disk.store.lists[DirChain], k)
      requires forall j | 0 <= j < |disk.a.dir| :: disk.a.dir[j].Used? ==> disk.a.dir[j].name != name
      modifies Repr()
      ensures Valid()
      ensures var fd := Spec.FreeFd(old(disk.a).fds);
              if fd == |old(disk.a).fds| then result == -Spec.EMFILE && disk.a == old(disk.a)
              else result == fd && disk.a == Spec.Create(old(disk.a), k, name, fd)
    {
      hide StoreOk, FilesRep, DirRep, TabRep, Spec.Inv, Coherent, Linked, KeepsChains, Spec.Unlink;
      ghost var a0, l := disk.a, disk.store.lists;
      NamedKeeps(disk.Cells(), l, a0, k, name);
      disk.NameSlot(name, r, k);
      KeptCoherent(a0.fds, l, disk.a.fds, disk.store.lists, disk.a.inodes, starts, currs);
      result := AddOpenFileEntry(r, k);
      if result < 0 {
        Withdraw(r, k, a0, name);
      }
    }

    method Withdraw(r: EntryRef, ghost k: nat, ghost a0: Spec.Afs, ghost name: Spec.CString)
      requires Valid() && DirChain in disk.store.lists && Spec.Inv(a0) && k < |a0.dir| && a0.dir[k].Empty?
               && disk.a == Named(a0, k, name)
      requires k < ENTRIES * (|disk.store.lists[DirChain]| + 1) && r == SlotRef(disk.store.lists[DirChain], k)
      modifies Repr()
      ensures Valid() && disk.a == a0
    {
      hide StoreOk, FilesRep, DirRep, TabRep, Spec.Inv, Coherent, Linked, KeepsChains, Spec.Unlink;
      ghost var l := disk.store.lists;
      UnlinkNamed(a0, k, name);
      disk.UnlinkDirectoryEntry(r, k);
      LiveFds(a0);
      TableShape(disk.Cells(), disk.store.lists, disk.a);
      ForgetNumber(disk.Cells(), disk.store.lists, disk.a, a0);
      KeptCoherent(a0.fds, l, a0.fds, disk.store.lists, a0.inodes, starts, currs);
      disk.a := a0;
    }

    method Open(name: Spec.CString) returns (r: int)
      requires Valid()
      modifies Repr()
      ensures Valid() && (disk.a, r) == OpenSpec(old(disk.a), name)
    {
      hide StoreOk, FilesRep, DirRep, TabRep, Spec.Inv, Linked, Coherent;
      if name == "" {
        return -Spec.EINVAL;
      }
      if |name| + 1 > Spec.SFS_FILE_NAME_SIZE_LIMIT {
        return -Spec.ENAMETOOLONG;
      }
      if !disk.mounted {
        return -Spec.ENOMEDIUM;
      }
      r := OpenName(name);
    }

    method OpenName(name: Spec.CString) returns (r: int)
      requires Valid() && disk.mounted && Spec.GoodName(name)
      modifies Repr()
      ensures Valid() && (disk.a, r) == OpenSpec(old(disk.a), name)
    {
      hide StoreOk, FilesRep, DirRep, TabRep, Spec.Inv, Linked, Coherent;
      var found, entry, empty, last := disk.FindDirectoryEntry(name);
      if found {
        r := AddOpenFileEntry(entry, Spec.Find(disk.a.dir, name));
      } else if empty != Private {
        r := CreateFile(name, empty, Spec.FirstEmpty(disk.a.dir));
      } else {
        r := ExpandAndCreate(name, last);
      }
    }

    method ExpandAndCreate(name: Spec.CString, last: BlockId) returns (r: int)
      requires Valid() && disk.mounted && Spec.GoodName(name) && DirChain in disk.store.lists
      requires last == (var dirs := disk.store.lists[DirChain]; if dirs == [] then 0 else dirs[|dirs| - 1])
      requires Spec.Find(disk.a.dir, name) == |disk.a.dir| && Spec.FirstEmpty(disk.a.dir) == |disk.a.dir|
      modifies Repr()
      ensures Valid() && (disk.a, r) == OpenSpec(old(disk.a), name)
    {
      hide StoreOk, FilesRep, DirRep, TabRep, Spec.Inv, Linked, Coherent, KeepsChains;
      ghost var a0, l := disk.a, disk.store.lists;
      LiveFds(a0);
      var entry, ok := disk.ExpandDirectory(last);
      KeptCoherent(a0.fds, l, disk.a.fds, disk.store.lists, disk.a.inodes, starts, currs);
      if ok {
        r := CreateFile(name, entry, |a0.dir|);
      } else {
        r := -Spec.ENOSPC;
      }
    }

    method Close(fd: int)
      requires Valid()
      modifies Repr()
      ensures Valid() && Spec.Inv(old(disk.a)) && disk.a == Spec.Close(old(disk.a), fd)
    {
      hide StoreOk, FilesRep, DirRep, TabRep, Spec.Inv, Linked, Coherent, KeepsChains, Spec.Close;
      ghost var a0, l := disk.a, disk.store.lists;
      disk.Close(fd);
      ClosedFds(a0, fd);
      KeptCoherent(a0.fds, l, disk.a.fds, disk.store.lists, disk.a.inodes, starts, currs);
    }

    method Remove(name: Spec.CString) returns (r: int)
      requires Valid()
      modifies Repr()
      ensures Valid() && Spec.Inv(old(disk.a)) && (disk.a, r) == Spec.Remove(old(disk.a), name)
    {
      hide StoreOk, FilesRep, DirRep, TabRep, Spec.Inv, Linked, Coherent, KeepsChains, Spec.Remove;
      ghost var a0, l := disk.a, disk.store.lists;
      r := disk.Remove(name);
      RemovedFds(a0, name);
      KeptCoherent(a0.fds, l, disk.a.fds, disk.store.lists, disk.a.inodes, starts, currs);
    }

    method List(cookie: nat, space: nat) returns (cookie': nat, status: int, name: Spec.CString)
      requires Valid()
      ensures (cookie', status, name) == Spec.List(disk.a, cookie, space)
    {
      hide StoreOk, Rep, Spec.List, Coherent;
      cookie', status, name := disk.List(cookie, space);
    }
  }

  // ----- what the directory operations do to descriptors -----

  lemma NamedKeeps(c: State, l: Lists, a: Spec.Afs, k: nat, name: Spec.CString)
    requires Rep(c, l, a) && k < |a.dir|
    ensures Spec.Inv(a) && |a.fds| == LIMIT && forall i | 0 <= i < LIMIT ::
              a.fds[i].At? ==> a.fds[i].fid in Named(a, k, name).inodes
  {
    hide FilesRep, DirRep, TabRep;
  }

  lemma ClosedFds(a: Spec.Afs, fd: int)
    requires Spec.Inv(a)
    ensures var b := Spec.Close(a, fd);
            |b.fds| == LIMIT && forall i | 0 <= i < LIMIT ::
                b.fds[i].At? ==> b.fds[i] == a.fds[i] && b.fds[i].fid in b.inodes
  {
    Proofs.CloseInv(a, fd);
    hide Spec.DirInv;
  }

  lemma RemovedFds(a: Spec.Afs, name: Spec.CString)
    requires Spec.Inv(a)
    ensures var b := Spec.Remove(a, name).0;
            |b.fds| == LIMIT && forall i | 0 <= i < LIMIT ::
                b.fds[i].At? ==> b.fds[i] == a.fds[i] && b.fds[i].fid in b.inodes
  {
    Proofs.RemoveInv(a, name);
    hide Spec.DirInv;
  }

  /** Unlinking a file just created, which nobody has open, leaves no trace of it. */
  lemma UnlinkNamed(a: Spec.Afs, k: nat, name: Spec.CString)
    requires Spec.Inv(a) && k < |a.dir| && a.dir[k].Empty?
    ensures var b := Named(a, k, name);
            b.dir[k].Used? && b.dir[k].fid in b.inodes && Spec.Unlink(b, k) == a.(next := a.next + 1)
  {
    var b := Named(a, k, name);
    assert b.dir[k := Spec.Empty] == a.dir;
    assert a.next !in a.inodes && !Spec.InDir(a.dir, a.next) && !Spec.IsOpen(a.fds, a.next);
    assert b.inodes - {a.next} == a.inodes;
  }

  lemma LiveFds(a: Spec.Afs)
    requires Spec.Inv(a)
    ensures |a.fds| == LIMIT && forall i | 0 <= i < LIMIT :: a.fds[i].At? ==> a.fds[i].fid in a.inodes
  {
  }
}
