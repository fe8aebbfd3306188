/** The block-level file system: an image of linked blocks, the two open-file
    tables, and the operations that update them in place. */
module SfsDisk {
  import opened SfsChains
  import opened SfsContents
  import opened SfsTransfer
  import opened SfsRep
  import opened SfsRepSteps
  import opened SfsFileSteps
  import opened SfsOpSteps
  import opened SfsDirSteps
  import opened Buffers
  import Effects = SfsEffects
  import Spec = SfsSpec
  import Proofs = SfsSpecProofs

  class Disk {
    var mounted: bool
    var freelist: BlockId
    var rootdir: BlockId
    const hdr: Buffer<Hdr>
    const data: Buffer<seq<Byte>>
    const ents: Buffer<seq<DirEntry>>
    const files: Buffer<OpenFile>
    const descs: Buffer<Desc>

    ghost var store: Store
    ghost var fid: seq<nat>
    ghost var at: seq<nat>
    /** The abstract file system this image and its tables stand for. */
    ghost var a: Spec.Afs

    ghost function Repr(): set<object>
      reads this
    {
      {this, hdr, hdr.cells, data, data.cells, ents, ents.cells, files, files.cells, descs, descs.cells}
    }

    ghost predicate BuffersOk()
      reads this, Repr()
    {
      && hdr.Valid() && data.Valid() && ents.Valid() && files.Valid() && descs.Valid()
      && |hdr.view| == |data.view| == |ents.view| <= EMPTY_FILE_BLOCK
    }

    ghost predicate Valid()
      reads this, Repr()
    {
      Consistent() == true
    }

    ghost function Cells(): State
      reads this, data, ents, files, descs
    {
      State(data.view, ents.view, files.view, descs.view, fid, at)
    }

    /** The image is well formed and stands for a. */
    ghost predicate Consistent()
      reads this, Repr()
    {
      && BuffersOk() && ListsOk()
      && Rep(Cells(), store.lists, a) == true
      && a.mounted == mounted
    }

    /** The lists in the headers are those of store, and the superblock points at two of them.
        (Compared with true, StoreOk stays one fact in proofs.) */
    ghost predicate ListsOk()
      reads this, hdr, hdr.cells
    {
      && hdr.Valid()
      && StoreOk(hdr.view, store) == true
      && freelist == Head(store.lists[FreeList])
      && rootdir == Head(store.lists[DirChain])
    }

    method PutNext(b: BlockId, v: BlockId)
      requires hdr.Valid() && b < |hdr.view|
      modifies hdr, hdr.cells
      ensures hdr.Valid() && hdr.view == SetNext(old(hdr.view), b, v)
    {
      var h := hdr.Get(b);
      hdr.Put(b, h.(next := v));
    }

    method PutPrev(b: BlockId, v: BlockId)
      requires hdr.Valid() && b < |hdr.view|
      modifies hdr, hdr.cells
      ensures hdr.Valid() && hdr.view == SetPrev(old(hdr.view), b, v)
    {
      var h := hdr.Get(b);
      hdr.Put(b, h.(prev := v));
    }

    method SetBlockType(b: BlockId, t: Tag)
      requires hdr.Valid() && b < |hdr.view|
      modifies hdr, hdr.cells
      ensures hdr.Valid() && hdr.view == SetTag(old(hdr.view), b, t)
    {
      var h := hdr.Get(b);
      hdr.Put(b, h.(tag := t));
    }

    /** The n-th block of the free list, or 0 if it is shorter. */
    method NthFree(n: nat) returns (last: BlockId)
      requires ListsOk() && freelist != 0 && n > 0
      ensures var free := store.lists[FreeList]; last == if n <= |free| then free[n - 1] else 0
    {
      ghost var free := store.lists[FreeList];
      last := freelist;
      var i := 1;
      while i < n
        invariant 1 <= i <= n && i <= |free| && last == free[i - 1]
      {
        LinkedAt(hdr.view, free, FreeTag, i - 1);
        var h := hdr.Get(last);
        if h.next == 0 {
          return 0;
        }
        last := h.next;
        i := i + 1;
      }
    }

    /** Cut the free list behind block `last`, its n-th one. */
    method DetachFront(n: nat, last: BlockId)
      requires ListsOk() && 0 < n <= |store.lists[FreeList]| && last == store.lists[FreeList][n - 1]
      modifies this`freelist, hdr, hdr.cells
      ensures InRange(store.lists[FreeList], |old(hdr.view)|)
      ensures hdr.Valid() && hdr.view == CutAt(old(hdr.view), store.lists[FreeList], n)
      ensures freelist == Head(store.lists[FreeList][n..])
    {
      ghost var h, free := hdr.view, store.lists[FreeList];
      LinkedAt(h, free, FreeTag, n - 1);
      var lastHdr := hdr.Get(last);
      var nextFree := lastHdr.next;
      if nextFree != 0 {
        PutPrev(nextFree, 0);
        PutNext(last, 0);
      }
      freelist := nextFree;
    }

    method TakeFront(n: nat, last: BlockId, t: Tag)
      requires ListsOk() && t != FreeTag && Transit(t) !in store.lists && Transit(FreeTag) !in store.lists
      requires 0 < n <= |store.lists[FreeList]| && last == store.lists[FreeList][n - 1]
      modifies this`freelist, this`store, hdr, hdr.cells
      ensures ListsOk()
      ensures store.lists == Allocated(old(store).lists, n, t)
    {
      assert FreeList in store.lists;
      hide StoreOk, Linked, CutAt, Retag, InRange;
      ghost var h, free := hdr.view, store.lists[FreeList];
      AllocSteps(h, store, n);
      var first := freelist;
      DetachFront(n, last);
      RetagChain(first, t, free[..n], FreeTag);
      store := AllocateResult(h, store, n, t);
      assert StoreOk(hdr.view, store) == true;
      assert freelist == Head(store.lists[FreeList]);
      assert rootdir == Head(store.lists[DirChain]);
    }

    /** Take n blocks off the free list and tag them t; 0 if there are fewer. */
    method AllocateBlocks(n: nat, t: Tag) returns (first: BlockId)
      requires ListsOk() && t != FreeTag && Transit(t) !in store.lists && Transit(FreeTag) !in store.lists
      modifies this`freelist, this`store, hdr, hdr.cells
      ensures ListsOk()
      ensures var free := old(store).lists[FreeList];
              if 0 < n <= |free| then first == free[0] && store.lists == Allocated(old(store).lists, n, t)
              else first == 0 && hdr.view == old(hdr.view) && store == old(store)
    {
      if freelist == 0 || n == 0 {
        return 0;
      }
      first := freelist;
      var last := NthFree(n);
      if last == 0 {
        return 0;
      }
      TakeFront(n, last, t);
    }

    /** The loop at the end of allocateBlocks: walk a chain, setting each type. */
    method RetagChain(first: BlockId, t: Tag, ghost c: seq<BlockId>, ghost was: Tag)
      requires hdr.Valid() && c != [] && first == c[0] && Linked(hdr.view, c, was)
      modifies hdr, hdr.cells
      ensures hdr.Valid() && hdr.view == Retag(old(hdr.view), c, t)
    {
      ghost var h := hdr.view;
      assert Retag(h, c[..0], t) == h;
      var b := first;
      ghost var i := 0;
      while b != 0
        invariant i <= |c| && b == if i == |c| then 0 else c[i]
        invariant hdr.Valid() && hdr.view == Retag(h, c[..i], t)
        decreases |c| - i
      {
        RetagStep(h, c, i, was, t);
        SetBlockType(b, t);
        var x := hdr.Get(b);
        b := x.next;
        i := i + 1;
      }
      assert c[..i] == c;
    }

    /** The loop of freeBlocks: retag a chain as free and return its last block. */
    method MarkFree(first: BlockId, ghost c: seq<BlockId>) returns (last: BlockId)
      requires hdr.Valid() && c != [] && first == c[0] && Linked(hdr.view, c, FileTag)
      modifies hdr, hdr.cells
      ensures hdr.Valid() && hdr.view == Retag(old(hdr.view), c, FreeTag) && last == c[|c| - 1]
    {
      ghost var h := hdr.view;
      last := first;
      ghost var i := 0;
      while true
        invariant hdr.Valid() && i < |c| && last == c[i] && hdr.view == Retag(h, c[..i], FreeTag)
        decreases |c| - i
      {
        RetagStep(h, c, i, FileTag, FreeTag);
        assert hdr.view[last].tag != FreeTag;
        SetBlockType(last, FreeTag);
        var x := hdr.Get(last);
        if x.next == 0 {
          break;
        }
        last := x.next;
        i := i + 1;
      }
      assert c[..i + 1] == c;
    }

    method Unhook(first: BlockId, ghost c: seq<BlockId>, ghost k: nat)
      requires hdr.Valid() && Linked(hdr.view, c, FileTag) && k < |c| && first == c[k]
      modifies hdr, hdr.cells
      ensures InRange(c, |old(hdr.view)|) && hdr.Valid() && hdr.view == CutAt(old(hdr.view), c, k)
    {
      ghost var h := hdr.view;
      LinkedNoDup(h, c, FileTag);
      assert h[c[k]].prev == PrevIn(c, k);
      var x := hdr.Get(first);
      if x.prev != 0 {
        PutNext(x.prev, 0);
        PutPrev(first, 0);
      }
    }

    /** Put the chain from first to last before the free list. */
    method PushFree(first: BlockId, last: BlockId, ghost c: seq<BlockId>, ghost free: seq<BlockId>)
      requires c != [] && first == c[0] && last == c[|c| - 1] && freelist == Head(free)
      requires hdr.Valid() && Linked(hdr.view, c, FreeTag) && InRange(free, |hdr.view|)
      modifies this`freelist, hdr, hdr.cells
      ensures InRange(c, |old(hdr.view)|) && hdr.Valid() && hdr.view == Attach(old(hdr.view), c, free)
              && freelist == Head(c + free)
    {
      ghost var h := hdr.view;
      assert h[c[|c| - 1]].next == NextIn(c, |c| - 1);
      PutNext(last, freelist);
      if freelist != 0 {
        PutPrev(freelist, last);
      }
      freelist := first;
    }

    /** Move c[k..] of file chain o to the free list. */
    method FreeBlocks(first: BlockId, ghost o: Owner, ghost k: nat)
      requires ListsOk() && o.FileChain? && o in store.lists && Transit(FileTag) !in store.lists
               && Transit(FreeTag) !in store.lists
      requires k < |store.lists[o]| && first == store.lists[o][k]
      modifies this`freelist, this`store, hdr, hdr.cells
      ensures ListsOk() && |hdr.view| == |old(hdr.view)|
      ensures store.lists == Freed(old(store).lists, o, k)
    {
      assert FreeList in store.lists;
      hide StoreOk, Linked, CutAt, Retag, Attach, InRange;
      ghost var h, c, free := hdr.view, store.lists[o], store.lists[FreeList];
      FreeSteps(h, store, o, k);
      Unhook(first, c, k);
      var last := MarkFree(first, c[k..]);
      PushFree(first, last, c[k..], free);
      store := FreeResult(h, store, o, k);
      assert StoreOk(hdr.view, store) == true;
      assert freelist == Head(store.lists[FreeList]);
      assert rootdir == Head(store.lists[DirChain]);
    }

    // ----- walking and copying file data -----

    method FileBlockAt(first: BlockId, index: nat, ghost c: seq<BlockId>) returns (b: BlockId)
      requires hdr.Valid() && Linked(hdr.view, c, FileTag) && index < |c| && first == c[0]
      ensures b == c[index]
    {
      b := first;
      var left: nat := index;
      while left > 0
        invariant left <= index && b == c[index - left]
      {
        LinkedAt(hdr.view, c, FileTag, index - left);
        var x := hdr.Get(b);
        b := x.next;
        left := left - 1;
      }
    }

    /** The block a transfer at this position starts in: at a block boundary,
        the block before it. */
    method BlockForPosition(first: BlockId, position: nat, ghost c: seq<BlockId>) returns (b: BlockId)
      requires hdr.Valid() && Linked(hdr.view, c, FileTag) && first == Head(c)
      requires c != [] ==> position <= BLOCK_DATA_SIZE * |c|
      ensures b == if c == [] then 0 else c[IndexFor(position)]
    {
      if first == 0 {
        return 0;
      }
      var index := position / BLOCK_DATA_SIZE;
      if position != 0 && position % BLOCK_DATA_SIZE == 0 {
        index := index - 1;
      }
      b := FileBlockAt(first, index, c);
    }

    /** memcpy or memset into the data area of block b. */
    method PutBytes(b: BlockId, o: nat, x: seq<Byte>)
      requires data.Valid() && b < |data.view| && o + |x| <= |data.view[b]|
      modifies data, data.cells
      ensures data.Valid() && data.view == old(data.view)[b := Splice(old(data.view)[b], o, x)]
    {
      var d := data.Get(b);
      data.Put(b, Splice(d, o, x));
    }

    /** One step of a transfer: x goes to offset o of the chain's i-th block,
        right behind the bytes already written from position p on. */
    method WriteStep(b: BlockId, o: nat, x: seq<Byte>, ghost was: seq<seq<Byte>>, ghost c: seq<BlockId>, ghost i: nat,
            ghost p: nat, ghost done: seq<Byte>)
      requires InRange(c, |data.view|) && NoDup(c) && i < |c| && b == c[i] && o + |x| <= BLOCK_DATA_SIZE
      requires BLOCK_DATA_SIZE * i + o == p + |done| && data.Valid() && Patched(data.view, was, c, p, done)
      modifies data, data.cells
      ensures data.Valid() && Patched(data.view, was, c, p, done + x)
    {
      WriteChunk(data.view, c, i, o, x);
      SpliceTwice(FileBytes(was, c), p, done, x);
      PutBytes(b, o, x);
    }

    method ZeroFileRange(first: BlockId, begin: nat, end: nat, ghost c: seq<BlockId>)
      requires hdr.Valid() && Linked(hdr.view, c, FileTag) && first == Head(c) && data.Valid()
               && |data.view| == |hdr.view| && Full(data.view)
      requires begin <= end <= BLOCK_DATA_SIZE * |c|
      modifies data, data.cells
      ensures data.Valid() && Patched(data.view, old(data.view), c, begin, Zeros(end - begin))
    {
      hide Patched, Linked, Full;
      ghost var was := data.view;
      LinkedInRange(hdr.view, c, FileTag);
      PatchedNone(was, c, begin);
      if begin < end {
        LinkedNoDup(hdr.view, c, FileTag);
        ghost var i: nat := begin / BLOCK_DATA_SIZE;
        var block := FileBlockAt(first, begin / BLOCK_DATA_SIZE, c);
        var offset: nat := begin % BLOCK_DATA_SIZE;
        var at: nat := begin;
        while at < end
          invariant begin <= at <= end
          invariant at < end ==>
                      i < |c| && block == c[i] && offset < BLOCK_DATA_SIZE && BLOCK_DATA_SIZE * i + offset == at
          invariant data.Valid() && Patched(data.view, was, c, begin, Zeros(at - begin))
        {
          var chunk := if BLOCK_DATA_SIZE - offset < end - at then BLOCK_DATA_SIZE - offset else end - at;
          WriteStep(block, offset, Zeros(chunk), was, c, i, begin, Zeros(at - begin));
          assert Zeros(at - begin) + Zeros(chunk) == Zeros(at + chunk - begin);
          at := at + chunk;
          if at < end {
            LinkedAt(hdr.view, c, FileTag, i);
            var x := hdr.Get(block);
            block := x.next;
            offset := 0;
            i := i + 1;
          }
        }
      }
    }

    /** The copying loop of sfs_read: len bytes from position pos, and the block it ends in. */
    method CopyOut(start: BlockId, pos: nat, len: nat, ghost c: seq<BlockId>) returns (buf: seq<Byte>, block: BlockId)
      requires hdr.Valid() && Linked(hdr.view, c, FileTag) && data.Valid() && |data.view| == |hdr.view|
               && Full(data.view)
      requires len > 0 && pos + len <= BLOCK_DATA_SIZE * |c| && start == c[IndexFor(pos)]
      ensures |FileBytes(data.view, c)| == BLOCK_DATA_SIZE * |c|
      ensures buf == FileBytes(data.view, c)[pos..pos + len]
      ensures IndexFor(pos + len) < |c| && block == c[IndexFor(pos + len)]
    {
      hide Linked, FileBytes, InRange, RoundUp, IndexFor;
      LinkedInRange(hdr.view, c, FileTag);
      ghost var f := FileBytes(data.view, c);
      FileBytesLen(data.view, c);
      buf := [];
      ghost var i: nat := IndexFor(pos);
      block := start;
      TransferStart(pos, len);
      var blockPos: nat := pos % BLOCK_DATA_SIZE;
      var chunk: nat := Spec.Min(RoundUp(pos) - pos, len);
      while true
        invariant i < |c| && block == c[i] && TransferAt(i, blockPos, chunk, pos, |buf|, len)
        invariant buf == f[pos..pos + |buf|]
        decreases |c| - i
      {
        ghost var done := |buf|;
        if chunk > 0 {
          ReadChunk(data.view, c, i, blockPos, chunk);
          LinkedAt(hdr.view, c, FileTag, i);
          var d := data.Get(block);
          NextSlice(f, pos, pos + done, pos + done + chunk);
          buf := buf + d[blockPos..blockPos + chunk];
        }
        if |buf| == len {
          TransferEnd(i, blockPos, chunk, pos, done, len);
          break;
        }
        TransferNext(i, blockPos, chunk, pos, done, len, |c|);
        blockPos := 0;
        chunk := Spec.Min(BLOCK_DATA_SIZE, len - |buf|);
        LinkedAt(hdr.view, c, FileTag, i);
        var x := hdr.Get(block);
        block := x.next;
        i := i + 1;
      }
    }

    /** Link the chain starting at newHead behind block tail, the last one of o. */
    method AttachFresh(tail: BlockId, newHead: BlockId, ghost o: Owner)
      requires ListsOk() && o.FileChain? && o in store.lists && Transit(FileTag) in store.lists
      requires store.lists[o] != [] && store.lists[Transit(FileTag)] != []
      requires tail == store.lists[o][|store.lists[o]| - 1] && newHead == store.lists[Transit(FileTag)][0]
      modifies this`store, hdr, hdr.cells
      ensures ListsOk() && store.lists == Attached(old(store).lists, o, Transit(FileTag))
    {
      ghost var h := hdr.view;
      ghost var s' := AttachResult(h, store, o, FileTag);
      PutNext(tail, newHead);
      PutPrev(newHead, tail);
      store := s';
    }

    /** Step of the copying loop of sfs_write from the i-th block to the next,
        linking the pending chain when the file's own blocks end here. */
    method NextForWrite(block: BlockId, pending: BlockId, ghost o: Owner, ghost all: seq<BlockId>, ghost i: nat)
      returns (next: BlockId, pending': BlockId)
      requires ListsOk() && Pending(store.lists, o, all, pending)
      requires i < |store.lists[o]| && i + 1 < |all| && block == all[i]
      modifies this`store, hdr, hdr.cells
      ensures ListsOk() && Pending(store.lists, o, all, pending')
      ensures next == all[i + 1] && i + 1 < |store.lists[o]|
      ensures if pending' == pending then store.lists == old(store).lists
              else pending' == 0 && store.lists == Completed(old(store).lists, o, all)
    {
      assert hdr.view[all[i]].next == NextIn(store.lists[o], i);
      var x := hdr.Get(block);
      next, pending' := x.next, pending;
      if next == 0 {
        next := pending;
        AttachFresh(block, pending, o);
        pending' := 0;
      }
    }

    /** The next chunk of left, which may be empty, goes to the chain's i-th block. */
    method CopyChunk(block: BlockId, blockPos: nat, left: seq<Byte>, chunk: nat, ghost was: seq<seq<Byte>>,
            ghost c: seq<BlockId>, ghost i: nat, ghost pos: nat, ghost done: seq<Byte>)
      requires InRange(c, |data.view|) && NoDup(c) && data.Valid() && Patched(data.view, was, c, pos, done) && i < |c|
               && block == c[i]
      requires chunk <= |left| && (chunk > 0 ==>
                 BLOCK_DATA_SIZE * i + blockPos == pos + |done| && blockPos + chunk <= BLOCK_DATA_SIZE)
      modifies data, data.cells
      ensures data.Valid() && Patched(data.view, was, c, pos, done + left[..chunk]) && |data.view| == |old(data.view)|
    {
      hide Patched, InRange, NoDup;
      if chunk > 0 {
        WriteStep(block, blockPos, left[..chunk], was, c, i, pos, done);
        PatchedLength(data.view, was, c, pos, done + left[..chunk]);
      } else {
        assert done + left[..chunk] == done;
      }
      PatchedLength(old(data.view), was, c, pos, done);
    }

    /** The copying loop of sfs_write.  The chain of o becomes all: it is that
        already, or the blocks in transit complete it when the loop reaches its end.
        The result is the block it ends in. */
    method CopyIn(start: BlockId, pos: nat, buf: seq<Byte>, newHead: BlockId, ghost o: Owner, ghost all: seq<BlockId>)
      returns (block: BlockId)
      requires ListsOk() && data.Valid() && |data.view| == |hdr.view| && Full(data.view)
      requires Pending(store.lists, o, all, newHead) && InRange(all, |hdr.view|) && NoDup(all)
      requires buf != [] && IndexFor(pos) < |store.lists[o]| && start == all[IndexFor(pos)]
      requires pos + |buf| <= BLOCK_DATA_SIZE * |all|
               && (newHead != 0 ==> pos + |buf| > BLOCK_DATA_SIZE * |store.lists[o]|)
      modifies this`store, hdr, hdr.cells, data, data.cells
      ensures ListsOk() && store.lists == Completed(old(store).lists, o, all)
      ensures newHead == 0 ==> store.lists == old(store).lists
      ensures data.Valid() && Patched(data.view, old(data.view), all, pos, buf)
      ensures IndexFor(pos + |buf|) < |all| && block == all[IndexFor(pos + |buf|)]
    {
      hide StoreOk, Patched, RoundUp, InRange, Full, NoDup, IndexFor, TransferAt;
      ghost var l, was := store.lists, data.view;
      PatchedNone(was, all, pos);
      assert newHead == 0 ==> Completed(l, o, all) == l;
      hide Completed;
      ghost var i: nat, done: seq<Byte> := IndexFor(pos), [];
      var pending, left := newHead, buf;
      block := start;
      TransferStart(pos, |buf|);
      var blockPos: nat := pos % BLOCK_DATA_SIZE;
      var chunk: nat := Spec.Min(RoundUp(pos) - pos, |left|);
      while true
        invariant ListsOk() && Pending(store.lists, o, all, pending) && i < |store.lists[o]|
        invariant if pending == newHead then store.lists == l else pending == 0 && store.lists == Completed(l, o, all)
        invariant block == all[i] && done + left == buf && TransferAt(i, blockPos, chunk, pos, |done|, |buf|) == true
        invariant data.Valid() && Patched(data.view, was, all, pos, done)
        decreases |all| - i
      {
        TransferFits(i, blockPos, chunk, pos, |done|, |buf|);
        CopyChunk(block, blockPos, left, chunk, was, all, i, pos, done);
        done, left := done + left[..chunk], left[chunk..];
        if left == [] {
          TransferEnd(i, blockPos, chunk, pos, |done| - chunk, |buf|);
          break;
        }
        TransferNext(i, blockPos, chunk, pos, |done| - chunk, |buf|, |all|);
        blockPos := 0;
        chunk := Spec.Min(BLOCK_DATA_SIZE, |left|);
        block, pending := NextForWrite(block, pending, o, all, i);
        i := i + 1;
      }
      assert done == buf;
    }

    // ----- descriptors -----

    /** The entry pointed to by an open file. */
    method LoadEntry(x: OpenFile) returns (e: DirEntry)
      requires ents.Valid() && x.OpenFile? && RefOk(x.diskFile, ents.view)
      ensures e == EntryOf(ents.view, x)
    {
      match x.diskFile
      case OnDisk(b, i) =>
        var es := ents.Get(b);
        e := es[i];
      case Private =>
        e := x.unlinkedFile;
    }

    method StoreEntry(t: nat, x: OpenFile, e: DirEntry)
      requires ents.Valid() && files.Valid() && t < |files.view| && x == files.view[t] && x.OpenFile?
               && RefOk(x.diskFile, ents.view)
      modifies ents, ents.cells, files, files.cells
      ensures ents.Valid() && ents.view == EntsWith(old(ents.view), x, e)
      ensures files.Valid() && files.view == old(files.view)[t := FileWith(x, e)]
    {
      match x.diskFile
      case OnDisk(b, i) =>
        var es := ents.Get(b);
        ents.Put(b, es[i := e]);
      case Private =>
        files.Put(t, x.(unlinkedFile := e));
    }

    /** The live descriptor fd, if any (lockDescriptor). */
    method Descriptor(fd: int) returns (d: Desc)
      requires Valid()
      ensures d.Desc? <==> Spec.ValidFd(a, fd)
      ensures d.Desc? ==> Handle(Cells(), a, fd, d)
    {
      hide StoreOk, FilesRep, DirRep, TabRep, Spec.Inv;
      HandleOk(Cells(), store.lists, a, 0);
      if fd < 0 || fd >= LIMIT {
        return NoDesc;
      }
      HandleOk(Cells(), store.lists, a, fd);
      d := descs.Get(fd);
    }

    method Getpos(fd: int) returns (r: int)
      requires Valid()
      ensures r == Spec.Getpos(a, fd)
    {
      hide StoreOk, Rep;
      var d := Descriptor(fd);
      if d.NoDesc? {
        return -Spec.EBADF;
      }
      r := d.currPos;
    }

    /** The open file of a live descriptor, its entry and, as ghosts, its number and chain. */
    method FileOf(ghost fd: int, d: Desc) returns (x: OpenFile, e: DirEntry, ghost f: nat, ghost c: seq<BlockId>)
      requires Valid() && Handle(Cells(), a, fd, d)
      ensures f == fid[d.file] && FileChain(f) in store.lists && c == store.lists[FileChain(f)]
      ensures x == files.view[d.file] && RefOk(x.diskFile, ents.view) && e == EntryOf(ents.view, x)
      ensures EntryData(e, c, |a.inodes[f].data|) && AllocatedBlocks(e) == a.inodes[f].blocks
      ensures Linked(hdr.view, c, FileTag) && Full(data.view) && InodeRep(data.view, c, a.inodes[f])
    {
      hide StoreOk, Rep;
      HandleFile(hdr.view, store, Cells(), a, fd, d);
      f := fid[d.file];
      c := store.lists[FileChain(f)];
      x := files.Get(d.file);
      e := LoadEntry(x);
    }

    method Fstat(fd: int) returns (r: int)
      requires Valid()
      ensures Spec.Inv(a) && r == Spec.Fstat(a, fd)
    {
      hide StoreOk, FilesRep, DirRep, TabRep, Spec.Inv, Linked, FileBytes;
      var d := Descriptor(fd);
      if d.NoDesc? {
        return -Spec.EBADF;
      }
      var _, e, _, _ := FileOf(fd, d);
      r := e.size;
    }

    method MoveTo(fd: nat, d: Desc, p: nat)
      requires Valid() && Handle(Cells(), a, fd, d) && p <= |a.inodes[fid[d.file]].data|
      modifies this`a, descs, descs.cells
      ensures Valid() && a == old(a).(fds := old(a).fds[fd := Spec.At(fid[d.file], p)])
    {
      hide StoreOk, Rep;
      MoveOk(Cells(), store.lists, a, fd, d, p);
      descs.Put(fd, d.(currPos := p));
      a := a.(fds := a.fds[fd := Spec.At(fid[d.file], p)]);
    }

    method Seek(fd: int, delta: int) returns (r: int)
      requires Valid()
      modifies this`a, descs, descs.cells
      ensures Valid() && Spec.Inv(old(a)) && (a, r) == Spec.Seek(old(a), fd, delta)
    {
      hide StoreOk, FilesRep, DirRep, TabRep, Spec.Inv, Linked, FileBytes;
      var d := Descriptor(fd);
      if d.NoDesc? {
        return -Spec.EBADF;
      }
      var _, e, _, _ := FileOf(fd, d);
      var position := d.currPos;
      if delta < 0 {
        var distance := -(delta + 1) + 1;
        position := if distance > position then 0 else position - distance;
      } else {
        var distance := delta;
        position := if distance > e.size - position then e.size else position + distance;
      }
      MoveTo(fd, d, position);
      r := position;
    }

    method Read(fd: int, len: nat) returns (r: int, buf: seq<Byte>)
      requires Valid()
      modifies this`a, descs, descs.cells
      ensures Valid() && Spec.Inv(old(a)) && (a, r, buf) == Spec.Read(old(a), fd, len)
      ensures Effects.Reads(old(a), a, fd, len, r, buf) == true
    {
      hide StoreOk, FilesRep, DirRep, TabRep, Spec.Inv, FileBytes, Effects.Reads;
      var d := Descriptor(fd);
      Effects.ReadEffect(a, fd, len);
      if d.NoDesc? {
        return -Spec.EBADF, [];
      }
      var _, e, f, c := FileOf(fd, d);
      var toRead := Spec.Min(e.size - d.currPos, len);
      buf := [];
      if toRead > 0 {
        buf := ReadAt(e.first, d.currPos, toRead, c, a.inodes[f]);
      }
      assert buf == a.inodes[f].data[d.currPos..d.currPos + toRead];
      MoveTo(fd, d, d.currPos + toRead);
      r := toRead;
    }

    method ReadAt(first: BlockId, pos: nat, len: nat, ghost c: seq<BlockId>, ghost ino: Spec.Inode)
      returns (buf: seq<Byte>)
      requires hdr.Valid() && Linked(hdr.view, c, FileTag) && data.Valid() && |data.view| == |hdr.view|
               && Full(data.view)
      requires InodeRep(data.view, c, ino) && len > 0 && pos + len <= |ino.data| && (c != [] ==> first == c[0])
      ensures buf == ino.data[pos..pos + len]
    {
      hide Linked;
      FileBytesLen(data.view, c);
      PrefixSlice(ino.data, FileBytes(data.view, c), pos, pos + len);
      var start := BlockForPosition(first, pos, c);
      var last;
      buf, last := CopyOut(start, pos, len, c);
    }

    /** Blocks for a file of alloc blocks to reach position end, taken off the
        free list; ok is false, and nothing changes, if there are too few. */
    method Reserve(alloc: nat, end: nat) returns (newHead: BlockId, ok: bool)
      requires ListsOk() && Transit(FileTag) !in store.lists && Transit(FreeTag) !in store.lists
      modifies this`freelist, this`store, hdr, hdr.cells
      ensures ListsOk()
      ensures var n := if Spec.BlocksFor(end) > alloc then Spec.BlocksFor(end) - alloc else 0;
              var free := old(store).lists[FreeList];
              && ok == (n <= |free|)
              && (n == 0 || !ok ==> newHead == 0 && store == old(store) && hdr.view == old(hdr.view))
              && (n > 0 && ok ==> newHead == free[0] && store.lists == Allocated(old(store).lists, n, FileTag))
    {
      hide RoundUp, Spec.BlocksFor, Allocated, StoreOk;
      FreePositive(hdr.view, store);
      newHead, ok := 0, true;
      ExtraBlocks(alloc, end);
      if end > alloc * BLOCK_DATA_SIZE {
        var extra := (RoundUp(end) - alloc * BLOCK_DATA_SIZE) / BLOCK_DATA_SIZE;
        newHead := AllocateBlocks(extra, FileTag);
        ok := newHead != 0;
      }
    }

    /** The reserved blocks are the whole chain of an empty file: no header changes. */
    ghost method Adopt(o: Owner, new_: seq<BlockId>)
      requires ListsOk() && o.FileChain? && o in store.lists && store.lists[o] == []
      requires Transit(FileTag) in store.lists && new_ == store.lists[Transit(FileTag)]
      modifies this`store
      ensures ListsOk() && store.lists == Completed(old(store).lists, o, new_)
    {
      assert FreeList in store.lists && DirChain in store.lists;
      hide StoreOk;
      ghost var s' := AttachResult(hdr.view, store, o, FileTag);
      assert [] + new_ == new_;
      store := s';
      assert StoreOk(hdr.view, store) == true;
    }

    /** Copy buf to position pos of the file with chain c, which takes the
        reserved blocks as well; the result is the file's first block. */
    method TransferIn(first: BlockId, pos: nat, buf: seq<Byte>, newHead: BlockId, ghost o: Owner, ghost c: seq<BlockId>,
            ghost new_: seq<BlockId>) returns (first': BlockId)
      requires ListsOk() && data.Valid() && |data.view| == |hdr.view| <= EMPTY_FILE_BLOCK && Full(data.view)
      requires o.FileChain? && o in store.lists && c == store.lists[o]
      requires first == if c == [] then EMPTY_FILE_BLOCK else c[0]
      requires if newHead == 0 then new_ == [] && Transit(FileTag) !in store.lists
               else Transit(FileTag) in store.lists && new_ == store.lists[Transit(FileTag)] && new_ != []
                    && newHead == new_[0]
      requires buf != [] && pos <= BLOCK_DATA_SIZE * |c| && pos + |buf| <= BLOCK_DATA_SIZE * |c + new_|
      requires newHead != 0 ==> pos + |buf| > BLOCK_DATA_SIZE * |c|
      modifies this`store, hdr, hdr.cells, data, data.cells
      ensures ListsOk() && data.Valid() && store.lists == Completed(old(store).lists, o, c + new_)
      ensures Patched(data.view, old(data.view), c + new_, pos, buf) && first' == Head(c + new_)
    {
      hide StoreOk, Linked, Patched;
      TransferFacts(hdr.view, store, o, c, new_);
      if first == EMPTY_FILE_BLOCK {
        first' := newHead;
        Adopt(o, new_);
        assert c + new_ == new_;
        var _ := CopyIn(newHead, pos, buf, 0, o, new_);
      } else {
        first' := first;
        var start := BlockForPosition(first, pos, c);
        var _ := CopyIn(start, pos, buf, newHead, o, c + new_);
      }
    }
    method Write(fd: int, buf: seq<Byte>) returns (r: int)
      requires Valid()
      modifies Repr()
      ensures Valid() && Spec.Inv(old(a)) && (a, r) == Spec.Write(old(a), fd, buf)
    {
      hide StoreOk, FilesRep, DirRep, TabRep, Spec.Inv, FileBytes;
      var d := Descriptor(fd);
      if d.NoDesc? {
        return -Spec.EBADF;
      }
      if |buf| > Spec.SFS_MAX_FILE_SIZE - d.currPos {
        return -Spec.EFBIG;
      }
      if |buf| == 0 {
        return 0;
      }
      r := WriteBytes(fd, d, buf);
    }

    method WriteBytes(fd: nat, d: Desc, buf: seq<Byte>) returns (r: int)
      requires Valid() && Handle(Cells(), a, fd, d) && buf != [] && d.currPos + |buf| <= Spec.SFS_MAX_FILE_SIZE
      modifies Repr()
      ensures Valid() && Spec.Inv(old(a)) && (a, r) == Spec.Write(old(a), fd, buf)
    {
      hide StoreOk, FilesRep, DirRep, TabRep, Spec.Inv, FileBytes, Spec.Overwrite, Linked, Patched;
      var x, e, f, c := FileOf(fd, d);
      NoTransit(Cells(), store.lists, a, FileTag);
      NoTransit(Cells(), store.lists, a, FreeTag);
      ghost var h, s, end := hdr.view, store, d.currPos + |buf|;
      ghost var n := if Spec.BlocksFor(end) > a.inodes[f].blocks then Spec.BlocksFor(end) - a.inodes[f].blocks else 0;
      var newHead, ok := Reserve(AllocatedBlocks(e), d.currPos + |buf|);
      if ok {
        PutWrite(fd, d, x, e, buf, newHead, h, s, n);
        r := |buf|;
      } else {
        r := -Spec.ENOSPC;
      }
    }

    /** What is known between reserving n blocks, from newHead on, and using
        them: h and s are the headers and lists before that. */
    ghost predicate Reserved(fd: int, d: Desc, x: OpenFile, e: DirEntry, buf: seq<Byte>, h: seq<Hdr>, s: Store, n: nat)
      reads this, Repr()
    {
      && BuffersOk() && a.mounted == mounted && Handle(Cells(), a, fd, d) && x == files.view[d.file]
      && StoreOk(h, s) == true && Rep(Cells(), s.lists, a) == true && |h| == |hdr.view|
      && WriteFits(a, fid[d.file], d.currPos, buf, n)
      && FreeList in s.lists && n <= |s.lists[FreeList]| && FileChain(fid[d.file]) in s.lists
      && RefOk(x.diskFile, ents.view) && e == EntryOf(ents.view, x)
    }

    /** The rest of sfs_write once the blocks have been reserved. */
    method PutWrite(fd: nat, d: Desc, x: OpenFile, e: DirEntry, buf: seq<Byte>, newHead: BlockId, ghost h: seq<Hdr>,
            ghost s: Store, ghost n: nat)
      requires Reserved(fd, d, x, e, buf, h, s, n) && ListsOk()
      requires Transit(FileTag) !in s.lists
      requires newHead == (if n == 0 then 0 else s.lists[FreeList][0])
      requires store.lists == if n == 0 then s.lists else Allocated(s.lists, n, FileTag)
      modifies Repr()
      ensures Valid() && Spec.Inv(old(a)) && a == Spec.Write(old(a), fd, buf).0
              && |buf| == Spec.Write(old(a), fd, buf).1
    {
      hide StoreOk, FilesRep, DirRep, TabRep, Spec.Inv, FileBytes, Spec.Overwrite, Linked, Patched;
      ghost var cells, f := Cells(), fid[d.file];
      HandleFile(h, s, cells, a, fd, d);
      ListInRange(h, s, FreeList);
      GrownByWrite(s.lists, f, n);
      ghost var c, new_ := s.lists[FileChain(f)], s.lists[FreeList][..n];
      WriteSpan(a, f, d.currPos, buf, n, c, new_, data.view);
      var first := TransferIn(e.first, d.currPos, buf, newHead, FileChain(f), c, new_);
      RecordWrite(fd, d, x, e, buf, first, h, s, n, cells);
    }

    method RecordWrite(fd: nat, d: Desc, x: OpenFile, e: DirEntry, buf: seq<Byte>, first: BlockId, ghost h: seq<Hdr>,
            ghost s: Store, ghost n: nat, ghost was: State)
      requires BuffersOk() && ListsOk() && a.mounted == mounted && |h| == |hdr.view|
      requires was == Cells().(data := was.data) && |was.data| == |data.view|
      requires Handle(was, a, fd, d) && x == files.view[d.file]
      requires StoreOk(h, s) == true && Rep(was, s.lists, a) == true && WriteFits(a, fid[d.file], d.currPos, buf, n)
      requires FreeList in s.lists && n <= |s.lists[FreeList]| && FileChain(fid[d.file]) in s.lists
      requires RefOk(x.diskFile, ents.view) && e == EntryOf(ents.view, x)
      requires var all := s.lists[FileChain(fid[d.file])] + s.lists[FreeList][..n];
               Patched(data.view, was.data, all, d.currPos, buf) == true && first == Head(all)
      requires store.lists == Grown(s.lists, fid[d.file], n)
      modifies this`a, ents, ents.cells, files, files.cells, descs, descs.cells
      ensures Valid() && Spec.Inv(old(a)) && a == Spec.Write(old(a), fd, buf).0
              && |buf| == Spec.Write(old(a), fd, buf).1
    {
      hide StoreOk, FilesRep, DirRep, TabRep, Spec.Inv, FileBytes, Spec.Overwrite, Linked, Patched;
      WriteOk(h, s, was, a, fd, d, buf, n, data.view);
      StoreEntry(d.file, x, WrittenEntry(e, first, d.currPos + |buf|));
      descs.Put(fd, d.(currPos := d.currPos + |buf|));
      a := Spec.Write(a, fd, buf).0;
    }

    // ----- ftruncate -----

    method Ftruncate(fd: int, length: nat) returns (r: int)
      requires Valid()
      modifies Repr()
      ensures Valid() && Spec.Inv(old(a)) && (a, r) == Spec.Truncate(old(a), fd, length)
    {
      hide StoreOk, FilesRep, DirRep, TabRep, Spec.Inv, FileBytes, Spec.Resize, Spec.Clamp, Linked;
      var d := Descriptor(fd);
      if d.NoDesc? {
        return -Spec.EBADF;
      }
      if length > Spec.SFS_MAX_FILE_SIZE {
        return -Spec.EFBIG;
      }
      r := Resize(fd, d, length);
    }

    method Resize(fd: nat, d: Desc, length: nat) returns (r: int)
      requires Valid() && Handle(Cells(), a, fd, d) && length <= Spec.SFS_MAX_FILE_SIZE
      modifies Repr()
      ensures Valid() && Spec.Inv(old(a)) && (a, r) == Spec.Truncate(old(a), fd, length)
    {
      hide StoreOk, FilesRep, DirRep, TabRep, Spec.Inv, FileBytes, Spec.Resize, Spec.Clamp, Linked;
      var x, e, f, c := FileOf(fd, d);
      if length == e.size {
        r := 0;
      } else if length > e.size {
        r := GrowTo(fd, d, x, e, length, c);
      } else {
        ShrinkTo(fd, d, x, e, length, c);
        r := 0;
      }
    }

    /** Append the chain starting at newHead to a file of oldBlocks blocks. */
    method ExtendChain(first: BlockId, oldBlocks: nat, newHead: BlockId, ghost o: Owner, ghost c: seq<BlockId>,
            ghost new_: seq<BlockId>) returns (first': BlockId)
      requires ListsOk() && o.FileChain? && o in store.lists && Transit(FileTag) in store.lists
      requires c == store.lists[o] && |c| == oldBlocks && new_ == store.lists[Transit(FileTag)] && new_ != []
      requires newHead == new_[0] && (c != [] ==> first == c[0])
      modifies this`store, hdr, hdr.cells
      ensures ListsOk() && store.lists == Attached(old(store).lists, o, Transit(FileTag))
      ensures first' == Head(c + new_) && |hdr.view| == |old(hdr.view)|
    {
      hide StoreOk, Linked;
      if oldBlocks == 0 {
        Adopt(o, new_);
        assert c + new_ == new_;
        first' := newHead;
      } else {
        ListLinked(hdr.view, store, o);
        var tail := FileBlockAt(first, oldBlocks - 1, c);
        AttachFresh(tail, newHead, o);
        first' := first;
      }
    }

    method GrowTo(fd: nat, d: Desc, x: OpenFile, e: DirEntry, length: nat, ghost c: seq<BlockId>) returns (r: int)
      requires Valid() && Handle(Cells(), a, fd, d) && x == files.view[d.file] && RefOk(x.diskFile, ents.view)
               && e == EntryOf(ents.view, x)
      requires FileChain(fid[d.file]) in store.lists && c == store.lists[FileChain(fid[d.file])]
      requires EntryData(e, c, |a.inodes[fid[d.file]].data|)
               && AllocatedBlocks(e) == a.inodes[fid[d.file]].blocks == |c|
      requires e.size < length <= Spec.SFS_MAX_FILE_SIZE
      modifies Repr()
      ensures Valid() && Spec.Inv(old(a)) && (a, r) == Spec.Truncate(old(a), fd, length)
    {
      hide StoreOk, FilesRep, DirRep, TabRep, Spec.Inv, FileBytes, Spec.Resize, Spec.Clamp, Linked;
      NoTransit(Cells(), store.lists, a, FileTag);
      NoTransit(Cells(), store.lists, a, FreeTag);
      GrowthNeeds(Cells(), store.lists, a, fid[d.file], length);
      ghost var h, s, f := hdr.view, store, fid[d.file];
      var oldBlocks, newBlocks, newHead := AllocatedBlocks(e), Spec.BlocksFor(length), 0;
      ghost var n := newBlocks - oldBlocks;
      if newBlocks > oldBlocks {
        newHead := AllocateBlocks(newBlocks - oldBlocks, FileTag);
      }
      ListInRange(h, s, FreeList);
      if newBlocks > oldBlocks && newHead == 0 {
        r := -Spec.ENOSPC;
      } else {
        FinishGrow(fd, d, x, e, length, newHead, h, s, n, c);
        r := 0;
      }
    }

    method FinishGrow(fd: nat, d: Desc, x: OpenFile, e: DirEntry, length: nat, newHead: BlockId, ghost h: seq<Hdr>,
            ghost s: Store, ghost n: nat, ghost c: seq<BlockId>)
      requires BuffersOk() && ListsOk() && a.mounted == mounted && Handle(Cells(), a, fd, d) && x == files.view[d.file]
      requires StoreOk(h, s) == true && Rep(Cells(), s.lists, a) == true && |h| == |hdr.view|
      requires RefOk(x.diskFile, ents.view) && e == EntryOf(ents.view, x)
      requires FreeList in s.lists && n <= |s.lists[FreeList]| && n <= a.avail && FileChain(fid[d.file]) in s.lists
               && c == s.lists[FileChain(fid[d.file])]
      requires EntryData(e, c, |a.inodes[fid[d.file]].data|)
      requires e.size < length <= Spec.SFS_MAX_FILE_SIZE && |c| == a.inodes[fid[d.file]].blocks
               && |c| + n == Spec.BlocksFor(length)
      requires Transit(FileTag) !in s.lists
      requires newHead == (if n == 0 then 0 else s.lists[FreeList][0]) && (newHead == 0 <==> n == 0)
      requires store.lists == if n == 0 then s.lists else Allocated(s.lists, n, FileTag)
      modifies Repr()
      ensures Valid() && Spec.Inv(old(a)) && (a, 0) == Spec.Truncate(old(a), fd, length)
    {
      hide StoreOk, FilesRep, DirRep, TabRep, Spec.Inv, FileBytes, Spec.Resize, Spec.Clamp, Linked, Patched,
           Spec.Truncate;
      ghost var was, f, new_ := Cells(), fid[d.file], s.lists[FreeList][..n];
      GrownByWrite(s.lists, f, n);
      HandleFile(h, s, was, a, fd, d);
      var first := e.first;
      if newHead != 0 {
        first := ExtendChain(first, AllocatedBlocks(e), newHead, FileChain(f), c, new_);
      } else {
        assert c + new_ == c;
      }
      ListLinked(hdr.view, store, FileChain(f));
      assert store.lists[FileChain(f)] == c + new_;
      ZeroFileRange(first, e.size, length, c + new_);
      RecordGrow(fd, d, x, e, length, first, h, s, n, was);
    }

    method RecordGrow(ghost fd: nat, d: Desc, x: OpenFile, e: DirEntry, length: nat, first: BlockId, ghost h: seq<Hdr>,
            ghost s: Store, ghost n: nat, ghost was: State)
      requires BuffersOk() && ListsOk() && a.mounted == mounted && |h| == |hdr.view|
      requires was == Cells().(data := was.data) && |was.data| == |data.view|
      requires Handle(was, a, fd, d) && x == files.view[d.file]
      requires StoreOk(h, s) == true && Rep(was, s.lists, a) == true
      requires e.size < length <= Spec.SFS_MAX_FILE_SIZE && e.size == |a.inodes[fid[d.file]].data|
      requires n <= a.avail && a.inodes[fid[d.file]].blocks + n == Spec.BlocksFor(length)
      requires FreeList in s.lists && n <= |s.lists[FreeList]| && FileChain(fid[d.file]) in s.lists
      requires RefOk(x.diskFile, ents.view) && e == EntryOf(ents.view, x)
      requires var all := s.lists[FileChain(fid[d.file])] + s.lists[FreeList][..n];
               Patched(data.view, was.data, all, e.size, Zeros(length - e.size)) == true && first == Head(all)
      requires store.lists == Grown(s.lists, fid[d.file], n)
      modifies this`a, ents, ents.cells, files, files.cells
      ensures Valid() && Spec.Inv(old(a)) && (a, 0) == Spec.Truncate(old(a), fd, length)
    {
      hide StoreOk, FilesRep, DirRep, TabRep, Spec.Inv, FileBytes, Linked, Patched, Spec.Truncate;
      GrowOk(h, s, was, a, fd, d, length, n, data.view);
      StoreEntry(d.file, x, WrittenEntry(e, first, length));
      a := Spec.Truncate(a, fd, length).0;
    }

    method ShrinkTo(fd: nat, d: Desc, x: OpenFile, e: DirEntry, length: nat, ghost c: seq<BlockId>)
      requires Valid() && Handle(Cells(), a, fd, d) && x == files.view[d.file] && RefOk(x.diskFile, ents.view)
               && e == EntryOf(ents.view, x)
      requires FileChain(fid[d.file]) in store.lists && c == store.lists[FileChain(fid[d.file])]
      requires EntryData(e, c, |a.inodes[fid[d.file]].data|)
               && AllocatedBlocks(e) == a.inodes[fid[d.file]].blocks == |c|
      requires length < e.size
      modifies Repr()
      ensures Valid() && Spec.Inv(old(a)) && (a, 0) == Spec.Truncate(old(a), fd, length)
    {
      hide StoreOk, FilesRep, DirRep, TabRep, Spec.Inv, FileBytes, Spec.Resize, Spec.Clamp, Linked, Patched,
           Spec.Truncate;
      ghost var h, s, was, f := hdr.view, store, Cells(), fid[d.file];
      var newBlocks := Spec.BlocksFor(length);
      CutLists(h, s, was, a, fd, d, length);
      var first := CutChain(e, newBlocks, FileChain(f), c);
      ZeroFileRange(if newBlocks == 0 then 0 else first, length, newBlocks * BLOCK_DATA_SIZE, c[..newBlocks]);
      RecordShrink(fd, d, x, e, length, h, s, was);
    }

    method RecordShrink(ghost fd: nat, d: Desc, x: OpenFile, e: DirEntry, length: nat, ghost h: seq<Hdr>,
            ghost s: Store, ghost was: State)
      requires BuffersOk() && ListsOk() && a.mounted == mounted && |h| == |hdr.view|
      requires was == Cells().(data := was.data) && |was.data| == |data.view|
      requires Handle(was, a, fd, d) && x == files.view[d.file]
      requires StoreOk(h, s) == true && Rep(was, s.lists, a) == true
      requires length < |a.inodes[fid[d.file]].data|
      requires FreeList in s.lists && FileChain(fid[d.file]) in s.lists
               && Spec.BlocksFor(length) <= |s.lists[FileChain(fid[d.file])]|
      requires RefOk(x.diskFile, ents.view) && e == EntryOf(ents.view, x)
      requires var k := Spec.BlocksFor(length);
               Patched(data.view, was.data, s.lists[FileChain(fid[d.file])][..k], length,
                     Zeros(BLOCK_DATA_SIZE * k - length)) == true
      requires store.lists == Freed(s.lists, FileChain(fid[d.file]), Spec.BlocksFor(length))
      modifies this`a, ents, ents.cells, files, files.cells, descs, descs.cells
      ensures Valid() && Spec.Inv(old(a)) && (a, 0) == Spec.Truncate(old(a), fd, length)
    {
      hide StoreOk, FilesRep, DirRep, TabRep, Spec.Inv, FileBytes, Linked, Patched, Spec.Truncate;
      ShrinkOk(h, s, was, a, fd, d, length, data.view);
      StoreEntry(d.file, x, ShrunkEntry(e, Spec.BlocksFor(length), length));
      ClampAll(d.file, length);
      a := Spec.Truncate(a, fd, length).0;
    }

    /** Give back the blocks of chain c behind the first newBlocks. */
    method CutChain(e: DirEntry, newBlocks: nat, ghost o: Owner, ghost c: seq<BlockId>) returns (first: BlockId)
      requires ListsOk() && o.FileChain? && o in store.lists && c == store.lists[o]
               && newBlocks <= |c| == AllocatedBlocks(e)
      requires Transit(FileTag) !in store.lists && Transit(FreeTag) !in store.lists && (c != [] ==> e.first == c[0])
      modifies this`freelist, this`store, hdr, hdr.cells
      ensures ListsOk() && store.lists == Freed(old(store).lists, o, newBlocks) && |hdr.view| == |old(hdr.view)|
      ensures newBlocks > 0 ==> first == c[0]
      ensures Linked(hdr.view, c[..newBlocks], FileTag)
    {
      assert FreeList in store.lists;
      hide StoreOk, Linked, Freed;
      first := e.first;
      FreedAll(store.lists, o);
      FreedChain(store.lists, o, newBlocks);
      ListLinked(hdr.view, store, o);
      if newBlocks < AllocatedBlocks(e) {
        if newBlocks == 0 {
          FreeBlocks(first, o, 0);
        } else {
          var tail := FileBlockAt(first, newBlocks - 1, c);
          LinkedAt(hdr.view, c, FileTag, newBlocks - 1);
          var t := hdr.Get(tail);
          FreeBlocks(t.next, o, newBlocks);
        }
      } else {
        assert c[..newBlocks] == c;
      }
      ListLinked(hdr.view, store, o);
    }

    /** The last loop of sfs_ftruncate: no descriptor of file t stays beyond length. */
    method ClampAll(t: nat, length: nat)
      requires descs.Valid() && |descs.view| == LIMIT
      modifies descs, descs.cells
      ensures descs.Valid() && descs.view == ClampDescs(old(descs.view), t, length)
    {
      ghost var was := descs.view;
      var i := 0;
      while i < LIMIT
        invariant i <= LIMIT && descs.Valid() && |descs.view| == LIMIT
        invariant forall j | 0 <= j < LIMIT :: descs.view[j] == if j < i then ClampDescs(was, t, length)[j] else was[j]
      {
        var d := descs.Get(i);
        if d.Desc? && d.file == t && d.currPos > length {
          descs.Put(i, d.(currPos := length));
        }
        i := i + 1;
      }
      assert descs.view == ClampDescs(was, t, length);
    }

    // ----- the directory -----

    /** The open-file slot whose entry pointer is r, or LIMIT. */
    method FindOpenFile(r: EntryRef) returns (t: nat)
      requires files.Valid() && |files.view| == LIMIT
      ensures t <= LIMIT && (t < LIMIT ==> files.view[t].OpenFile? && files.view[t].diskFile == r)
      ensures forall u | 0 <= u < t :: files.view[u].OpenFile? ==> files.view[u].diskFile != r
    {
      t := 0;
      while t < LIMIT
        invariant t <= LIMIT
        invariant forall u | 0 <= u < t :: files.view[u].OpenFile? ==> files.view[u].diskFile != r
      {
        var x := files.Get(t);
        if x.OpenFile? && x.diskFile == r {
          return;
        }
        t := t + 1;
      }
    }

    ghost predicate DirOk()
      reads this, Repr()
    {
      && ents.Valid() && hdr.Valid() && StoreOk(hdr.view, store) == true && DirRep(ents.view, store.lists, a) == true
      && rootdir == Head(store.lists[DirChain])
    }

    /** The first of the entries that is occupied and named name, and the first unoccupied one. */
    method ScanEntries(es: seq<DirEntry>, name: Spec.CString, ghost slots: seq<Spec.Slot>)
      returns (hit: nat, empty: nat)
      requires |es| == |slots| == ENTRIES && forall j | 0 <= j < ENTRIES :: Shows(es[j], slots[j])
      ensures hit <= ENTRIES && empty <= ENTRIES
      ensures hit < ENTRIES ==> slots[hit].Used? && slots[hit].name == name
      ensures forall j | 0 <= j < hit :: slots[j].Used? ==> slots[j].name != name
      ensures hit == ENTRIES ==> forall j | 0 <= j < empty :: slots[j].Used?
      ensures hit == ENTRIES && empty < ENTRIES ==> slots[empty].Empty?
    {
      hit, empty := 0, ENTRIES;
      while hit < ENTRIES
        invariant hit <= ENTRIES && empty <= ENTRIES
        invariant forall j | 0 <= j < hit :: slots[j].Used? ==> slots[j].name != name
        invariant forall j | 0 <= j < hit && j < empty :: slots[j].Used?
        invariant empty < ENTRIES ==> empty < hit && slots[empty].Empty?
      {
        assert Shows(es[hit], slots[hit]);
        if es[hit].first != 0 && CStr(es[hit].name) == name {
          return;
        }
        if empty == ENTRIES && es[hit].first == 0 {
          empty := hit;
        }
        hit := hit + 1;
      }
    }

    /** The search of the i-th directory block, b. */
    method ScanBlock(b: BlockId, name: Spec.CString, ghost i: nat) returns (hit: nat, empty: nat)
      requires DirOk() && DirChain in store.lists && i <= |store.lists[DirChain]|
               && b == DirBlock(store.lists[DirChain], i)
      requires |a.dir| == ENTRIES * (|store.lists[DirChain]| + 1)
      ensures hit <= ENTRIES && empty <= ENTRIES
      ensures hit < ENTRIES ==> a.dir[ENTRIES * i + hit].Used? && a.dir[ENTRIES * i + hit].name == name
      ensures forall k | ENTRIES * i <= k < ENTRIES * i + hit :: a.dir[k].Used? ==> a.dir[k].name != name
      ensures hit == ENTRIES ==> forall k | ENTRIES * i <= k < ENTRIES * i + empty :: a.dir[k].Used?
      ensures hit == ENTRIES && empty < ENTRIES ==> a.dir[ENTRIES * i + empty].Empty?
    {
      hide StoreOk, DirRep;
      BlockShows(hdr.view, store, ents.view, a, i);
      var es := ents.Get(b);
      ghost var slots := a.dir[ENTRIES * i..ENTRIES * i + ENTRIES];
      hit, empty := ScanEntries(es, name, slots);
      assert forall k | ENTRIES * i <= k < ENTRIES * i + ENTRIES :: a.dir[k] == slots[k - ENTRIES * i];
    }

    /** The search of the i-th directory block after those before it: either
        the entry is found, or one more block is known not to hold it. */
    method SearchBlock(b: BlockId, name: Spec.CString, empty: EntryRef, ghost i: nat, ghost es: nat)
      returns (found: bool, entry: EntryRef, empty': EntryRef, ghost es': nat)
      requires DirOk() && DirChain in store.lists && i <= |store.lists[DirChain]|
               && b == DirBlock(store.lists[DirChain], i)
      requires Scanned(a.dir, store.lists[DirChain], name, ENTRIES * i, empty, es) == true
      ensures var k := Spec.Find(a.dir, name);
              found ==> k < |a.dir| && entry == SlotRef(store.lists[DirChain], k)
      ensures !found ==> Scanned(a.dir, store.lists[DirChain], name, ENTRIES * (i + 1), empty', es') == true
    {
      hide StoreOk, DirRep, Scanned;
      ghost var dirs, dir := store.lists[DirChain], a.dir;
      DirShapeOf(ents.view, store.lists, a);
      var hit, e := ScanBlock(b, name, i);
      found, entry, empty' := hit < ENTRIES, OnDisk(b, hit), if empty == Private && e < ENTRIES then OnDisk(b, e)
          else empty;
      if found {
        FoundAt(ents.view, dirs, dir, name, i, hit, empty, es);
        es' := es;
      } else {
        es' := ScannedStep(ents.view, dirs, dir, name, i, e, empty, es);
      }
    }

    method NextBlock(b: BlockId, ghost c: seq<BlockId>, ghost i: nat, ghost t: Tag) returns (next: BlockId)
      requires hdr.Valid() && Linked(hdr.view, c, t) == true && i < |c| && b == c[i]
      ensures next == NextIn(c, i)
    {
      LinkedAt(hdr.view, c, t, i);
      var x := hdr.Get(b);
      next := x.next;
    }

    /** Search the superblock and the directory chain for name. */
    method FindDirectoryEntry(name: Spec.CString) returns (found: bool, entry: EntryRef, empty: EntryRef, last: BlockId)
      requires DirOk()
      ensures DirChain in store.lists && |a.dir| == ENTRIES * (|store.lists[DirChain]| + 1)
      ensures var k := Spec.Find(a.dir, name);
              found == (k < |a.dir|) && (found ==> entry == SlotRef(store.lists[DirChain], k))
      ensures var k := Spec.FirstEmpty(a.dir);
              !found ==> empty == if k < |a.dir| then SlotRef(store.lists[DirChain], k) else Private
      ensures !found ==> last == (var dirs := store.lists[DirChain]; if dirs == [] then 0 else dirs[|dirs| - 1])
    {
      hide StoreOk, DirRep, Linked, DirShape, Scanned;
      DirShapeOf(ents.view, store.lists, a);
      ghost var dirs, dir := store.lists[DirChain], a.dir;
      ListLinked(hdr.view, store, DirChain);
      ScannedNone(dir, dirs, name);
      last := 0;
      ghost var es: nat;
      found, entry, empty, es := SearchBlock(0, name, Private, 0, |dir|);
      if !found {
        found, entry, empty, last, es := SearchChain(name, empty, es);
        if !found {
          ScannedAll(dir, dirs, name, empty, es);
        }
      }
    }

    /** The search of the directory chain after the superblock. */
    method SearchChain(name: Spec.CString, first: EntryRef, ghost firstEs: nat)
      returns (found: bool, entry: EntryRef, empty: EntryRef, last: BlockId, ghost es: nat)
      requires DirOk() && DirChain in store.lists && Linked(hdr.view, store.lists[DirChain], DirTag) == true
      requires Scanned(a.dir, store.lists[DirChain], name, ENTRIES, first, firstEs) == true
      ensures found ==>
                Spec.Find(a.dir, name) < |a.dir| == ENTRIES * (|store.lists[DirChain]| + 1)
                && entry == SlotRef(store.lists[DirChain], Spec.Find(a.dir, name))
      ensures !found ==>
                Scanned(a.dir, store.lists[DirChain], name, ENTRIES * (|store.lists[DirChain]| + 1), empty, es) == true
      ensures !found ==> last == (var dirs := store.lists[DirChain]; if dirs == [] then 0 else dirs[|dirs| - 1])
    {
      hide StoreOk, DirRep, Linked, DirShape, Scanned;
      DirShapeOf(ents.view, store.lists, a);
      ghost var dirs, dir := store.lists[DirChain], a.dir;
      LinkedInRange(hdr.view, dirs, DirTag);
      found, entry, empty, last, es := false, Private, first, 0, firstEs;
      var id: BlockId := rootdir;
      ghost var i: nat := 0;
      while id != 0 && !found
        invariant i <= |dirs| && id == (if i == |dirs| then 0 else dirs[i])
                  && last == (if i == 0 then 0 else dirs[i - 1])
        invariant found ==> Spec.Find(dir, name) < |dir| && entry == SlotRef(dirs, Spec.Find(dir, name))
        invariant !found ==> Scanned(dir, dirs, name, ENTRIES * (i + 1), empty, es) == true
        decreases |dirs| - i
      {
        last := id;
        found, entry, empty, es := SearchBlock(id, name, empty, i + 1, es);
        id := NextBlock(id, dirs, i, DirTag);
        i := i + 1;
      }
    }

    // ----- opening and closing -----

    /** The lowest unused descriptor, or LIMIT. */
    method FreeDescriptor() returns (fd: nat)
      requires descs.Valid() && |descs.view| == LIMIT
      ensures fd <= LIMIT && (fd < LIMIT ==> descs.view[fd].NoDesc?)
      ensures forall i | 0 <= i < fd :: descs.view[i].Desc?
    {
      fd := 0;
      while fd < LIMIT
        invariant fd <= LIMIT && forall i | 0 <= i < fd :: descs.view[i].Desc?
      {
        var d := descs.Get(fd);
        if d.NoDesc? {
          return;
        }
        fd := fd + 1;
      }
    }

    /** The lowest unused open-file slot; there is one. */
    method FreeOpenFile() returns (t: nat)
      requires files.Valid() && |files.view| == LIMIT && exists u | 0 <= u < LIMIT :: files.view[u].NoFile?
      ensures t < LIMIT && files.view[t].NoFile?
    {
      t := 0;
      while true
        invariant t < LIMIT && forall u | 0 <= u < t :: files.view[u].OpenFile?
        decreases LIMIT - t
      {
        var x := files.Get(t);
        if x.NoFile? {
          return;
        }
        t := t + 1;
      }
    }

    /** Open slot k, which r points to. */
    method AddOpenFileEntry(r: EntryRef, ghost k: nat) returns (result: int)
      requires Valid() && mounted && k < |a.dir| && a.dir[k].Used? && DirChain in store.lists
      requires k < ENTRIES * (|store.lists[DirChain]| + 1) && r == SlotRef(store.lists[DirChain], k)
      modifies this`a, this`fid, this`at, files, files.cells, descs, descs.cells
      ensures Valid()
      ensures var fd := Spec.FreeFd(old(a).fds);
              if fd == |old(a).fds| then result == -Spec.EMFILE && a == old(a)
              else result == fd && a == old(a).(fds := old(a).fds[fd := Spec.At(old(a).dir[k].fid, 0)])
    {
      hide StoreOk, FilesRep, DirRep, TabRep, Spec.Inv;
      TableShape(Cells(), store.lists, a);
      var fd := FreeDescriptor();
      FreeFdOk(Cells(), store.lists, a, fd);
      if fd == LIMIT {
        result := -Spec.EMFILE;
      } else {
        var t := OpenFileFor(r, k, fd);
        EnterOpen(r, k, fd, t);
        result := fd;
      }
    }

    /** The open-file slot for directory slot k: its own, or an unused one. */
    method OpenFileFor(r: EntryRef, ghost k: nat, ghost fd: nat) returns (t: nat)
      requires Valid() && k < |a.dir| && a.dir[k].Used? && DirChain in store.lists
               && fd < LIMIT == |descs.view| == |files.view| == |fid| && descs.view[fd].NoDesc?
      requires k < ENTRIES * (|store.lists[DirChain]| + 1) && r == SlotRef(store.lists[DirChain], k)
      ensures t < LIMIT && (files.view[t].OpenFile? ==> fid[t] == a.dir[k].fid)
      ensures files.view[t].NoFile? ==> forall u | 0 <= u < LIMIT :: files.view[u].OpenFile? ==> fid[u] != a.dir[k].fid
    {
      hide StoreOk, FilesRep, DirRep, TabRep, Spec.Inv;
      t := FindOpenFile(r);
      OpenSlots(Cells(), store.lists, a, k);
      if t == LIMIT {
        SomeFileFree(Cells(), store.lists, a, fd);
        t := FreeOpenFile();
      }
    }

    method EnterOpen(r: EntryRef, ghost k: nat, fd: nat, t: nat)
      requires Valid() && mounted && k < |a.dir| && a.dir[k].Used? && DirChain in store.lists
      requires k < ENTRIES * (|store.lists[DirChain]| + 1) && r == SlotRef(store.lists[DirChain], k)
      requires fd < LIMIT && t < LIMIT == |files.view| == |descs.view| == |fid| == |at| == |a.fds|
               && descs.view[fd].NoDesc?
      requires files.view[t].OpenFile? ==> fid[t] == a.dir[k].fid
      requires files.view[t].NoFile? ==> forall u | 0 <= u < LIMIT :: files.view[u].OpenFile? ==> fid[u] != a.dir[k].fid
      modifies this`a, this`fid, this`at, files, files.cells, descs, descs.cells
      ensures Valid() && a == old(a).(fds := old(a).fds[fd := Spec.At(old(a).dir[k].fid, 0)])
    {
      hide StoreOk, Rep, Opened;
      ghost var f := a.dir[k].fid;
      AddOpenOk(Cells(), store.lists, a, k, fd, t);
      var x := files.Get(t);
      files.Put(t, Opened(x, r));
      descs.Put(fd, Desc(t, 0));
      fid, at := fid[t := f], at[t := k];
      a := a.(fds := a.fds[fd := Spec.At(f, 0)]);
    }

    method Close(fd: int)
      requires Valid()
      modifies Repr()
      ensures Valid() && Spec.Inv(old(a)) && a == Spec.Close(old(a), fd)
      ensures KeepsChains(old(store).lists, store.lists, a.inodes)
    {
      hide StoreOk, FilesRep, DirRep, TabRep, Spec.Inv, Linked, FileBytes;
      var d := Descriptor(fd);
      if d.Desc? {
        CloseLive(fd, d);
      }
    }

    method CloseLive(fd: nat, d: Desc)
      requires Valid() && Handle(Cells(), a, fd, d)
      modifies Repr()
      ensures Valid() && Spec.Inv(old(a)) && a == Spec.Close(old(a), fd)
      ensures KeepsChains(old(store).lists, store.lists, a.inodes)
    {
      hide StoreOk, FilesRep, DirRep, TabRep, Spec.Inv, Linked, FileBytes, Spec.Close, Removed, KeepsChains;
      var x, e, f, c := FileOf(fd, d);
      NoTransit(Cells(), store.lists, a, FileTag);
      NoTransit(Cells(), store.lists, a, FreeTag);
      ghost var l := store.lists;
      if x.refCount == 1 && x.unlinked {
        ReleaseBlocks(e.first, f, c);
      }
      RecordClose(fd, d, x, l);
      RemovedKeeps(Cells(), l, store.lists, f, a);
    }

    method RecordClose(fd: nat, d: Desc, x: OpenFile, ghost l: Lists)
      requires BuffersOk() && ListsOk() && a.mounted == mounted && Handle(Cells(), a, fd, d) && x == files.view[d.file]
      requires Rep(Cells(), l, a) == true && FreeList in l && FileChain(fid[d.file]) in l
      requires store.lists == if x.refCount == 1 && x.unlinked then Removed(l, fid[d.file]) else l
      modifies this`a, files, files.cells, descs, descs.cells
      ensures Valid() && Spec.Inv(old(a)) && a == Spec.Close(old(a), fd)
    {
      hide StoreOk, FilesRep, DirRep, TabRep, Spec.Inv, Spec.Close;
      CloseOk(Cells(), l, a, fd, d);
      ghost var a' := Spec.Close(a, fd);
      descs.Put(fd, NoDesc);
      files.Put(d.file, Released(x));
      a := a';
    }

    /** Free all blocks of file f, which then has no chain any more. */
    method ReleaseBlocks(first: BlockId, ghost f: nat, ghost c: seq<BlockId>)
      requires ListsOk() && FileChain(f) in store.lists && c == store.lists[FileChain(f)] && FreeList in store.lists
      requires first == (if c == [] then EMPTY_FILE_BLOCK else c[0]) && |hdr.view| <= EMPTY_FILE_BLOCK
      requires Transit(FileTag) !in store.lists && Transit(FreeTag) !in store.lists
      modifies this`freelist, this`store, hdr, hdr.cells
      ensures ListsOk() && store.lists == Removed(old(store).lists, f) && |hdr.view| == |old(hdr.view)|
    {
      assert DirChain in store.lists;
      hide StoreOk;
      ListInRange(hdr.view, store, FileChain(f));
      if first != EMPTY_FILE_BLOCK {
        FreeBlocks(first, FileChain(f), 0);
      } else {
        FreedAll(store.lists, FileChain(f));
      }
      DropOk(hdr.view, store, FileChain(f));
      store := Drop(store, FileChain(f));
      assert StoreOk(hdr.view, store) == true;
    }

    // ----- removing and renaming -----

    /** Overwrite the entry r points to. */
    method PutSlot(r: EntryRef, e: DirEntry)
      requires ents.Valid() && r.OnDisk? && RefOk(r, ents.view)
      modifies ents, ents.cells
      ensures ents.Valid() && ents.view == PutEntry(old(ents.view), r.block, r.index, e)
    {
      var es := ents.Get(r.block);
      ents.Put(r.block, es[r.index := e]);
    }

    method UnlinkDirectoryEntry(r: EntryRef, ghost k: nat)
      requires Valid() && k < |a.dir| && a.dir[k].Used? && DirChain in store.lists
      requires k < ENTRIES * (|store.lists[DirChain]| + 1) && r == SlotRef(store.lists[DirChain], k)
      modifies Repr()
      ensures Valid() && Spec.Inv(old(a)) && old(a).dir[k].fid in old(a).inodes && a == Spec.Unlink(old(a), k)
      ensures DirChain in store.lists && store.lists[DirChain] == old(store).lists[DirChain]
      ensures KeepsChains(old(store).lists, store.lists, a.inodes)
    {
      hide StoreOk, FilesRep, DirRep, TabRep, Spec.Inv, Linked, Spec.Unlink, KeepsChains;
      ghost var l, f := store.lists, a.dir[k].fid;
      SlotFacts(Cells(), l, a, k);
      NoTransit(Cells(), l, a, FileTag);
      NoTransit(Cells(), l, a, FreeTag);
      SlotRefOk(ents.view, l[DirChain], k);
      OpenSlots(Cells(), l, a, k);
      var t := FindOpenFile(r);
      var e := LoadSlot(r);
      if t == LIMIT {
        ReleaseBlocks(e.first, f, l[FileChain(f)]);
      }
      RecordUnlink(r, k, t, e, l);
      RemovedKeeps(Cells(), l, store.lists, f, a);
    }

    method LoadSlot(r: EntryRef) returns (e: DirEntry)
      requires ents.Valid() && r.OnDisk? && RefOk(r, ents.view)
      ensures e == ents.view[r.block][r.index]
    {
      var es := ents.Get(r.block);
      e := es[r.index];
    }

    /** Open file t, if there is one, keeps a copy of its entry of its own. */
    method KeepPrivately(t: nat, e: DirEntry)
      requires files.Valid() && |files.view| == LIMIT && t <= LIMIT && (t < LIMIT ==> files.view[t].OpenFile?)
      modifies files, files.cells
      ensures files.Valid() && files.view == FilesAfterUnlink(old(files.view), t, e)
    {
      if t < LIMIT {
        var x := files.Get(t);
        files.Put(t, x.(unlinkedFile := e, diskFile := Private, unlinked := true));
      }
    }

    /** The table and slot updates of unlinkDirectoryEntry; l are the lists before it. */
    method RecordUnlink(r: EntryRef, ghost k: nat, t: nat, e: DirEntry, ghost l: Lists)
      requires BuffersOk() && ListsOk() && a.mounted == mounted && k < |a.dir| && a.dir[k].Used?
      requires Rep(Cells(), l, a) == true && DirChain in l && DirShape(ents.view, l[DirChain])
               && k < ENTRIES * (|l[DirChain]| + 1)
      requires r == SlotRef(l[DirChain], k) && RefOk(r, ents.view) && e == EntryAt(ents.view, l[DirChain], k)
      requires t <= LIMIT == |files.view| == |fid| && (t < LIMIT ==> files.view[t].OpenFile? && fid[t] == a.dir[k].fid)
      requires t == LIMIT ==> forall u | 0 <= u < LIMIT :: files.view[u].OpenFile? ==> fid[u] != a.dir[k].fid
      requires FreeList in l && FileChain(a.dir[k].fid) in l && store.lists == if t < LIMIT then l
               else Removed(l, a.dir[k].fid)
      modifies this`a, files, files.cells, ents, ents.cells
      ensures Valid() && Spec.Inv(old(a)) && old(a).dir[k].fid in old(a).inodes && a == Spec.Unlink(old(a), k)
      ensures DirChain in store.lists && store.lists[DirChain] == l[DirChain]
    {
      hide StoreOk, FilesRep, DirRep, TabRep, Spec.Inv, Linked, Spec.Unlink;
      UnlinkOk(Cells(), l, a, k, t);
      KeepPrivately(t, e);
      PutSlot(r, ZeroEntry());
      a := Spec.Unlink(a, k);
    }

    method Remove(name: Spec.CString) returns (r: int)
      requires Valid()
      modifies Repr()
      ensures Valid() && Spec.Inv(old(a)) && (a, r) == Spec.Remove(old(a), name)
      ensures KeepsChains(old(store).lists, store.lists, a.inodes)
    {
      hide StoreOk, FilesRep, DirRep, TabRep, Spec.Inv, Linked, Spec.Unlink;
      if name == "" {
        return -Spec.EINVAL;
      }
      if |name| + 1 > Spec.SFS_FILE_NAME_SIZE_LIMIT {
        return -Spec.ENAMETOOLONG;
      }
      if !mounted {
        return -Spec.ENOMEDIUM;
      }
      var found, entry, _, _ := FindDirectoryEntry(name);
      if found {
        UnlinkDirectoryEntry(entry, Spec.Find(a.dir, name));
        r := 0;
      } else {
        r := -Spec.ENOENT;
      }
    }

    method Rename(from: Spec.CString, to: Spec.CString) returns (r: int)
      requires Valid()
      modifies Repr()
      ensures Valid() && Spec.Inv(old(a)) && (a, r) == Spec.Rename(old(a), from, to)
    {
      hide StoreOk, FilesRep, DirRep, TabRep, Spec.Inv, Linked, Spec.Unlink;
      if from == "" || to == "" {
        return -Spec.EINVAL;
      }
      if |from| + 1 > Spec.SFS_FILE_NAME_SIZE_LIMIT || |to| + 1 > Spec.SFS_FILE_NAME_SIZE_LIMIT {
        return -Spec.ENAMETOOLONG;
      }
      if !mounted {
        return -Spec.ENOMEDIUM;
      }
      r := RenameEntry(from, to);
    }

    method RenameEntry(from: Spec.CString, to: Spec.CString) returns (r: int)
      requires Valid() && mounted && Spec.GoodName(from) && Spec.GoodName(to)
      modifies Repr()
      ensures Valid() && Spec.Inv(old(a)) && (a, r) == Spec.Rename(old(a), from, to)
    {
      hide StoreOk, FilesRep, DirRep, TabRep, Spec.Inv, Linked, Spec.Unlink;
      var found, entry, _, _ := FindDirectoryEntry(from);
      if !found {
        r := -Spec.ENOENT;
      } else if from == to {
        r := 0;
      } else {
        ghost var a0, j := a, Spec.Find(a.dir, from);
        var found', entry', _, _ := FindDirectoryEntry(to);
        if found' {
          UnlinkDirectoryEntry(entry', Spec.Find(a.dir, to));
        }
        UnlinkedSlots(a0, from, to);
        Relabel(entry, j, to);
        r := 0;
      }
    }

    method Relabel(r: EntryRef, ghost j: nat, name: Spec.CString)
      requires Valid() && Spec.GoodName(name) && j < |a.dir| && a.dir[j].Used? && DirChain in store.lists
      requires j < ENTRIES * (|store.lists[DirChain]| + 1) && r == SlotRef(store.lists[DirChain], j)
      requires forall i | 0 <= i < |a.dir| :: a.dir[i].Used? ==> a.dir[i].name != name
      modifies this`a, ents, ents.cells
      ensures Valid() && a == Relabelled(old(a), j, name)
    {
      hide StoreOk, FilesRep, DirRep, TabRep, Spec.Inv, Linked;
      SlotFacts(Cells(), store.lists, a, j);
      SlotRefOk(ents.view, store.lists[DirChain], j);
      RelabelOk(Cells(), store.lists, a, j, name);
      var e := LoadSlot(r);
      PutSlot(r, e.(name := PadName(name)));
      a := Relabelled(a, j, name);
    }

    // ----- creating -----

    method ExpandDirectory(last: BlockId) returns (entry: EntryRef, ok: bool)
      requires Valid() && DirChain in store.lists
      requires last == (var dirs := store.lists[DirChain]; if dirs == [] then 0 else dirs[|dirs| - 1])
      modifies Repr()
      ensures Valid() && ok == (old(a).avail > 0) && (if ok then old(a).avail > 0 && a == Spec.Expand(old(a))
                else a == old(a))
      ensures ok ==>
                |old(a).dir| < |a.dir| && DirChain in store.lists && |a.dir| == ENTRIES * (|store.lists[DirChain]| + 1)
                && entry == SlotRef(store.lists[DirChain], |old(a).dir|)
      ensures fid == old(fid) && at == old(at) && mounted == old(mounted)
      ensures KeepsChains(old(store).lists, store.lists, a.inodes)
    {
      hide StoreOk, FilesRep, DirRep, TabRep, Spec.Inv, Linked;
      NoTransit(Cells(), store.lists, a, DirTag);
      NoTransit(Cells(), store.lists, a, FreeTag);
      ghost var h, s, cells := hdr.view, store, Cells();
      var id := AllocateBlocks(1, DirTag);
      entry, ok := OnDisk(id, 0), id != 0;
      ListInRange(h, s, FreeList);
      if ok {
        ExpandOk(h, s, cells, a);
        LinkDirBlock(id, last, s);
        RecordExpand(id, s, cells);
      }
    }

    /** Hook block id behind the last directory block. */
    method LinkDirBlock(id: BlockId, last: BlockId, ghost s: Store)
      requires ListsOk() && FreeList in s.lists && s.lists[FreeList] != [] && DirChain in s.lists
               && Transit(DirTag) !in s.lists
      requires store.lists == Allocated(s.lists, 1, DirTag) && id == s.lists[FreeList][0] && id < |hdr.view|
      requires last == (var dirs := s.lists[DirChain]; if dirs == [] then 0 else dirs[|dirs| - 1])
      modifies this`rootdir, this`store, hdr, hdr.cells
      ensures ListsOk() && store.lists == Expanded(s.lists) && |hdr.view| == |old(hdr.view)|
    {
      hide StoreOk;
      ghost var h, dirs := hdr.view, s.lists[DirChain];
      assert s.lists[FreeList][..1] == [id];
      ListInRange(h, store, DirChain);
      LoneBlock(h, store, Transit(DirTag), id);
      ghost var s' := AttachResult(h, store, DirChain, DirTag);
      PutPrev(id, last);
      PutNext(id, 0);
      if last == 0 {
        rootdir := id;
      } else {
        PutNext(last, id);
      }
      assert hdr.view == Attach(h, dirs, [id]);
      store := s';
      assert StoreOk(hdr.view, store) == true;
    }

    method RecordExpand(id: BlockId, ghost s: Store, ghost was: State)
      requires BuffersOk() && ListsOk() && a.mounted == mounted && a.avail > 0 && was == Cells() && id < |ents.view|
      requires FreeList in s.lists && s.lists[FreeList] != [] && DirChain in s.lists && id == s.lists[FreeList][0]
      requires Rep(was.(ents := was.ents[id := EmptyEntries()]), Expanded(s.lists), Spec.Expand(a)) == true
      requires store.lists == Expanded(s.lists)
      modifies this`a, ents, ents.cells
      ensures Valid() && a == Spec.Expand(old(a))
      ensures |old(a).dir| < |a.dir| && |a.dir| == ENTRIES * (|store.lists[DirChain]| + 1)
      ensures OnDisk(id, 0) == SlotRef(store.lists[DirChain], |old(a).dir|)
    {
      hide StoreOk, FilesRep, TabRep, Spec.Inv, Linked;
      ents.Put(id, EmptyEntries());
      a := Spec.Expand(a);
      DirShapeOf(ents.view, store.lists, a);
      hide DirRep;
    }

    method CreateFile(name: Spec.CString, r: EntryRef, ghost k: nat) returns (fd: int)
      requires Valid() && mounted && Spec.GoodName(name) && k < |a.dir| && a.dir[k].Empty? && DirChain in store.lists
      requires k < ENTRIES * (|store.lists[DirChain]| + 1) && r == SlotRef(store.lists[DirChain], k)
      requires forall j | 0 <= j < |a.dir| :: a.dir[j].Used? ==> a.dir[j].name != name
      requires Spec.FreeFd(a.fds) < |a.fds|
      modifies Repr()
      ensures Valid() && fd == Spec.FreeFd(old(a).fds) && a == Spec.Create(old(a), k, name, fd)
    {
      hide StoreOk, FilesRep, DirRep, TabRep, Spec.Inv, Linked;
      NameSlot(name, r, k);
      fd := AddOpenFileEntry(r, k);
    }

    method NameSlot(name: Spec.CString, r: EntryRef, ghost k: nat)
      requires Valid() && Spec.GoodName(name) && k < |a.dir| && a.dir[k].Empty? && DirChain in store.lists
      requires k < ENTRIES * (|store.lists[DirChain]| + 1) && r == SlotRef(store.lists[DirChain], k)
      requires forall j | 0 <= j < |a.dir| :: a.dir[j].Used? ==> a.dir[j].name != name
      modifies this`a, this`store, ents, ents.cells
      ensures Valid() && a == Named(old(a), k, name) && DirChain in store.lists
              && store.lists[DirChain] == old(store).lists[DirChain]
      ensures KeepsChains(old(store).lists, store.lists, a.inodes)
    {
      hide StoreOk, FilesRep, DirRep, TabRep, Spec.Inv, Linked;
      NamedOk(Cells(), store.lists, a, k, name);
      SlotRefOk(ents.view, store.lists[DirChain], k);
      ghost var l, f := store.lists, a.next;
      AddEmptyOk(hdr.view, store, FileChain(f));
      NoTransit(Cells(), store.lists, a, FileTag);
      PutSlot(r, NewEntry(name));
      store := AddEmpty(store, FileChain(f));
      a := Named(a, k, name);
      assert StoreOk(hdr.view, store) == true;
    }

    method Open(name: Spec.CString) returns (r: int)
      requires Valid()
      modifies Repr()
      ensures Valid() && (a, r) == Spec.Open(old(a), name)
    {
      hide StoreOk, FilesRep, DirRep, TabRep, Spec.Inv, Linked;
      if name == "" {
        return -Spec.EINVAL;
      }
      if |name| + 1 > Spec.SFS_FILE_NAME_SIZE_LIMIT {
        return -Spec.ENAMETOOLONG;
      }
      if !mounted {
        return -Spec.ENOMEDIUM;
      }
      r := OpenName(name);
    }

    method OpenName(name: Spec.CString) returns (r: int)
      requires Valid() && mounted && Spec.GoodName(name)
      modifies Repr()
      ensures Valid() && (a, r) == Spec.Open(old(a), name)
    {
      hide StoreOk, FilesRep, DirRep, TabRep, Spec.Inv, Linked;
      var found, entry, empty, last := FindDirectoryEntry(name);
      if found {
        r := AddOpenFileEntry(entry, Spec.Find(a.dir, name));
      } else {
        var full := DescriptorsFull();
        if full {
          r := -Spec.EMFILE;
        } else {
          r := CreateName(name, empty, last);
        }
      }
    }

    method DescriptorsFull() returns (full: bool)
      requires Valid()
      ensures full == (Spec.FreeFd(a.fds) == |a.fds|)
    {
      hide StoreOk, FilesRep, DirRep, TabRep, Spec.Inv;
      TableShape(Cells(), store.lists, a);
      var fd := FreeDescriptor();
      FreeFdOk(Cells(), store.lists, a, fd);
      full := fd == LIMIT;
    }

    method CreateName(name: Spec.CString, empty: EntryRef, last: BlockId) returns (r: int)
      requires Valid() && mounted && Spec.GoodName(name) && DirChain in store.lists
               && |a.dir| == ENTRIES * (|store.lists[DirChain]| + 1)
      requires Spec.Find(a.dir, name) == |a.dir| && Spec.FreeFd(a.fds) < |a.fds|
      requires empty == var k := Spec.FirstEmpty(a.dir); if k < |a.dir| then SlotRef(store.lists[DirChain], k)
               else Private
      requires last == (var dirs := store.lists[DirChain]; if dirs == [] then 0 else dirs[|dirs| - 1])
      modifies Repr()
      ensures Valid() && (a, r) == Spec.Open(old(a), name)
    {
      hide StoreOk, FilesRep, DirRep, TabRep, Spec.Inv, Linked;
      if empty != Private {
        r := CreateFile(name, empty, Spec.FirstEmpty(a.dir));
      } else {
        ghost var k := |a.dir|;
        var entry, ok := ExpandDirectory(last);
        if ok {
          r := CreateFile(name, entry, k);
        } else {
          r := -Spec.ENOSPC;
        }
      }
    }

    // ----- listing -----

    /** The first slot of the i-th directory block, b, that is occupied and not before cookie. */
    method ListBlock(b: BlockId, slot: nat, cookie: nat, ghost i: nat) returns (j: nat, name: Spec.CString)
      requires DirOk() && DirChain in store.lists && i <= |store.lists[DirChain]|
               && b == DirBlock(store.lists[DirChain], i)
      requires slot == ENTRIES * i && |a.dir| == ENTRIES * (|store.lists[DirChain]| + 1)
      ensures j <= ENTRIES && (j < ENTRIES ==>
                slot + j >= cookie && a.dir[slot + j].Used? && name == a.dir[slot + j].name)
      ensures forall k | slot <= k < slot + j && k >= cookie :: a.dir[k].Empty?
    {
      hide StoreOk, DirRep;
      BlockShows(hdr.view, store, ents.view, a, i);
      var es := ents.Get(b);
      ghost var dir := a.dir;
      assert forall q | 0 <= q < ENTRIES :: Shows(es[q], dir[slot + q]);
      j, name := 0, "";
      while j < ENTRIES
        invariant j <= ENTRIES && forall k | slot <= k < slot + j && k >= cookie :: dir[k].Empty?
      {
        assert Shows(es[j], dir[slot + j]);
        if slot + j >= cookie && es[j].first != 0 {
          name := CStr(es[j].name);
          return;
        }
        j := j + 1;
      }
    }

    /** The first slot that is occupied and not before cookie. */
    method NextSlot(cookie: nat) returns (found: bool, k: nat, name: Spec.CString)
      requires DirOk()
      ensures found == (Spec.NextUsed(a.dir, cookie) < |a.dir|)
      ensures found ==> k == Spec.NextUsed(a.dir, cookie) && name == a.dir[k].name
    {
      hide StoreOk, DirRep, Linked, DirShape;
      DirShapeOf(ents.view, store.lists, a);
      ghost var dirs, dir := store.lists[DirChain], a.dir;
      ListLinked(hdr.view, store, DirChain);
      LinkedInRange(hdr.view, dirs, DirTag);
      var j: nat;
      j, name := ListBlock(0, 0, cookie, 0);
      k, found := j, j < ENTRIES;
      var id: BlockId, slot: nat := rootdir, ENTRIES;
      ghost var i: nat := 0;
      while id != 0 && !found
        invariant i <= |dirs| && id == (if i == |dirs| then 0 else dirs[i]) && slot == ENTRIES * (i + 1)
        invariant found ==>
                    k < |dir| && k >= cookie && dir[k].Used? && name == dir[k].name
                    && forall q | cookie <= q < k :: dir[q].Empty?
        invariant !found ==> forall q | cookie <= q < slot :: dir[q].Empty?
        decreases |dirs| - i
      {
        j, name := ListBlock(id, slot, cookie, i + 1);
        k, found := slot + j, j < ENTRIES;
        slot := slot + ENTRIES;
        id := NextBlock(id, dirs, i, DirTag);
        i := i + 1;
      }
      NextUsedIs(dir, cookie, if found then k else if cookie <= |dir| then |dir| else Spec.NextUsed(dir, cookie));
    }

    method List(cookie: nat, space: nat) returns (cookie': nat, status: int, name: Spec.CString)
      requires Valid()
      ensures (cookie', status, name) == Spec.List(a, cookie, space)
      ensures Effects.Lists(a, cookie, space, cookie', status, name) == true
    {
      hide StoreOk, FilesRep, DirRep, TabRep, Spec.Inv, Linked, Effects.Lists;
      Effects.ListEffect(a, cookie, space);
      if space == 0 {
        return 0, -Spec.EINVAL, "";
      }
      if !mounted {
        return 0, -Spec.ENOMEDIUM, "";
      }
      cookie', status, name := ListFrom(cookie, space);
    }

    method ListFrom(cookie: nat, space: nat) returns (cookie': nat, status: int, name: Spec.CString)
      requires Valid() && mounted && space > 0
      ensures (cookie', status, name) == Spec.List(a, cookie, space)
    {
      hide StoreOk, FilesRep, DirRep, TabRep, Spec.Inv, Linked;
      var found, k, n := NextSlot(cookie);
      cookie', status, name := 0, 1, "";
      if found {
        if |n| + 1 > space {
          status := -Spec.ENAMETOOLONG;
        } else {
          cookie', status, name := k + 1, 0, n;
        }
      }
    }

    // ----- mounting -----

    /** Whether a descriptor is live; if none is, no open file remains. */
    method HasOpenFiles() returns (open: bool)
      requires Valid()
      ensures open <==> exists i | 0 <= i < |a.fds| :: a.fds[i].At?
      ensures !open ==> forall t | 0 <= t < |files.view| :: files.view[t].NoFile?
    {
      hide StoreOk, FilesRep, DirRep, TabRep, Spec.Inv;
      TableShape(Cells(), store.lists, a);
      var i := 0;
      while i < LIMIT
        invariant i <= LIMIT && forall j | 0 <= j < i :: descs.view[j].NoDesc?
      {
        var d := descs.Get(i);
        if d.Desc? {
          HandleOk(Cells(), store.lists, a, i);
          return true;
        }
        i := i + 1;
      }
      NothingOpen(Cells(), store.lists, a);
      i := 0;
      while i < LIMIT
      {
        var x := files.Get(i);
        assert x == NoFile;
        i := i + 1;
      }
      open := false;
    }

    method Unmount() returns (r: int)
      requires Valid()
      modifies this`a, this`mounted
      ensures Valid() && (a, r) == Spec.Unmount(old(a))
    {
      hide StoreOk, FilesRep, DirRep, TabRep, Spec.Inv, Linked;
      if !mounted {
        return 0;
      }
      var open := HasOpenFiles();
      if open {
        return -Spec.EBUSY;
      }
      UnmountOk(Cells(), store.lists, a);
      mounted := false;
      a := a.(mounted := false);
      r := 0;
    }

    ghost predicate IsBlank(n: nat)
      reads this, Repr()
    {
      && hdr.Valid() && data.Valid() && ents.Valid() && files.Valid() && descs.Valid()
      && |hdr.view| == |data.view| == |ents.view| == n && |files.view| == |descs.view| == LIMIT
      && Full(data.view) && (forall b | 0 <= b < n :: ents.view[b] == EmptyEntries())
      && forall i | 0 <= i < LIMIT :: files.view[i].NoFile? && descs.view[i].NoDesc?
    }

    /** An image of n zeroed blocks, as ftruncate leaves it, and empty tables. */
    constructor Blank(n: nat)
      ensures IsBlank(n) && fresh(Repr())
    {
      hdr := new Buffer(n, Hdr(Other, 0, 0));
      data := new Buffer(n, Zeros(BLOCK_DATA_SIZE));
      ents := new Buffer(n, EmptyEntries());
      files := new Buffer(LIMIT, NoFile);
      descs := new Buffer(LIMIT, NoDesc);
      mounted, freelist, rootdir := false, 0, 0;
    }

    /** An existing image mapped into memory, and empty tables. */
    constructor Load(h: seq<Hdr>, bytes: seq<seq<Byte>>, entries: seq<seq<DirEntry>>)
      requires |h| == |bytes| == |entries| <= EMPTY_FILE_BLOCK
      ensures BuffersOk() && fresh(Repr()) && hdr.view == h
      ensures Cells() == State(bytes, entries, seq(LIMIT, _ => NoFile), seq(LIMIT, _ => NoDesc), fid, at)
    {
      hdr := new Buffer.FromSeq(h);
      data := new Buffer.FromSeq(bytes);
      ents := new Buffer.FromSeq(entries);
      files := new Buffer(LIMIT, NoFile);
      descs := new Buffer(LIMIT, NoDesc);
      mounted, freelist, rootdir := false, 0, 0;
    }

    /** sfs_format on a blank image. */
    method Format(n: nat)
      requires IsBlank(n) && 1 < n <= EMPTY_FILE_BLOCK
      modifies Repr()
      ensures Valid() && a == Spec.Fresh(n - 1)
    {
      hide StoreOk, FilesRep, DirRep, TabRep, Spec.Inv, Full, Formatted, FormattedHdr, EmptyEntries, Spec.Fresh;
      FormatHeaders(n);
      ghost var c := Cells().(fid := seq(LIMIT, _ => 0), at := seq(LIMIT, _ => 0));
      FreshRep(n, c);
      FormattedOk(hdr.view);
      FormattedLists(n);
      Install(1, 0, Formatted(n), c, Spec.Fresh(n - 1));
    }

    /** Make an image with this free list and directory the mounted one. */
    method Install(free: BlockId, dirs: BlockId, ghost s: Store, ghost c: State, ghost b: Spec.Afs)
      requires BuffersOk() && c == Cells().(fid := c.fid, at := c.at)
      requires StoreOk(hdr.view, s) == true && Rep(c, s.lists, b) == true && b.mounted
      requires FreeList in s.lists && DirChain in s.lists && free == Head(s.lists[FreeList])
               && dirs == Head(s.lists[DirChain])
      modifies this
      ensures Valid() && a == b
    {
      hide StoreOk, FilesRep, DirRep, TabRep, Spec.Inv;
      mounted, freelist, rootdir := true, free, dirs;
      store, fid, at, a := s, c.fid, c.at, b;
    }

    method FormatHeaders(n: nat)
      requires hdr.Valid() && |hdr.view| == n > 1
      modifies hdr, hdr.cells
      ensures hdr.Valid() && |hdr.view| == n && forall b | 1 <= b < n :: hdr.view[b] == FormattedHdr(b, n)
    {
      var i := 1;
      while i < n
        invariant 1 <= i <= n && hdr.Valid() && |hdr.view| == n
        invariant forall b | 1 <= b < i :: hdr.view[b] == FormattedHdr(b, n)
      {
        SetBlockType(i, FreeTag);
        PutPrev(i, i - 1);
        PutNext(i, if i + 1 == n then 0 else i + 1);
        i := i + 1;
      }
    }
  }
}
