/** Block pointers cached in descriptors: when they agree with the chains, and how
    each change of positions and chains has to change them. */
module SfsCached {
  import opened SfsChains
  import opened SfsContents
  import opened SfsTransfer
  import opened SfsRep
  import opened SfsRepSteps
  import opened SfsFileSteps
  import opened SfsOpSteps
  import Spec = SfsSpec

  /** The block of chain c for a position, 0 if the file has none. */
  function BlockAt(c: seq<BlockId>, pos: nat): BlockId {
    if IndexFor(pos) < |c| then c[IndexFor(pos)] else 0
  }

  ghost predicate CachedFor(c: seq<BlockId>, pos: nat, start: BlockId, curr: BlockId) {
    start == Head(c) && curr == BlockAt(c, pos)
  }

  /** startBlock and currBlock of every descriptor are what walking its file's chain yields. */
  ghost predicate Coherent(fds: seq<Spec.Ofd>, l: Lists, starts: seq<BlockId>, currs: seq<BlockId>) {
    && |fds| == |starts| == |currs| == LIMIT
    && forall i | 0 <= i < LIMIT :: CoherentAt(fds[i], l, starts[i], currs[i])
  }

  ghost predicate CoherentAt(o: Spec.Ofd, l: Lists, start: BlockId, curr: BlockId) {
    o.At? ==> FileChain(o.fid) in l && CachedFor(l[FileChain(o.fid)], o.pos, start, curr)
  }

  lemma CoherentFor(fds: seq<Spec.Ofd>, l: Lists, starts: seq<BlockId>, currs: seq<BlockId>, i: nat)
    requires Coherent(fds, l, starts, currs) && i < LIMIT
    ensures |fds| == |starts| == |currs| == LIMIT && CoherentAt(fds[i], l, starts[i], currs[i])
  {
  }

  // ----- positions and chains -----

  /** Every position of a file with blocks has a block. */
  lemma Covered(h: seq<Hdr>, s: Store, c: State, a: Spec.Afs, f: nat, pos: nat)
    requires StoreOk(h, s) && Rep(c, s.lists, a) && f in a.inodes && pos <= |a.inodes[f].data|
    ensures FileChain(f) in s.lists && InRange(s.lists[FileChain(f)], |h|)
            && pos <= BLOCK_DATA_SIZE * |s.lists[FileChain(f)]|
    ensures s.lists[FileChain(f)] != [] ==> IndexFor(pos) < |s.lists[FileChain(f)]|
    ensures BlockAt(s.lists[FileChain(f)], pos) == 0 <==> s.lists[FileChain(f)] == []
  {
    var l := s.lists[FileChain(f)];
    assert InodeRep(c.data, l, a.inodes[f]);
    hide Spec.Inv, DirRep, TabRep;
    FileBytesLen(c.data, l);
    ListInRange(h, s, FileChain(f));
    hide StoreOk, Rep;
  }

  /** Blocks appended to a chain that has some do not move positions. */
  lemma AppendKeepsBlock(c: seq<BlockId>, new_: seq<BlockId>, pos: nat)
    requires c != [] && pos <= BLOCK_DATA_SIZE * |c|
    ensures Head(c + new_) == Head(c) && BlockAt(c + new_, pos) == BlockAt(c, pos)
  {
  }

  lemma CutKeepsBlock(c: seq<BlockId>, k: nat, pos: nat)
    requires k <= |c| && pos <= BLOCK_DATA_SIZE * k
    ensures k > 0 ==> Head(c[..k]) == Head(c) && BlockAt(c[..k], pos) == BlockAt(c, pos)
    ensures k == 0 ==> Head(c[..k]) == 0 && BlockAt(c[..k], pos) == 0
  {
  }

  /** Which descriptors are those of open file t. */
  lemma DescsOf(c: State, l: Lists, a: Spec.Afs, t: nat, i: nat)
    requires Rep(c, l, a) && t < LIMIT == |c.files| && c.files[t].OpenFile? && i < LIMIT
    ensures |c.descs| == |a.fds| == |c.fid| == LIMIT
    ensures (c.descs[i].Desc? && c.descs[i].file == t) <==> (a.fds[i].At? && a.fds[i].fid == c.fid[t])
    ensures c.descs[i].Desc? ==> a.fds[i].At? && a.fds[i].pos == c.descs[i].currPos
    ensures a.fds[i].At? ==> a.fds[i].fid in a.inodes && a.fds[i].pos <= |a.inodes[a.fds[i].fid].data|
  {
    hide FilesRep, DirRep;
    assert DescRep(c.descs[i], a.fds[i], c.files, c.fid);
  }

  // ----- moving, opening, closing -----

  lemma MoveCoherent(fds: seq<Spec.Ofd>, l: Lists, starts: seq<BlockId>, currs: seq<BlockId>, fd: nat, f: nat, p: nat)
    requires Coherent(fds, l, starts, currs) && fd < LIMIT && fds[fd].At? && fds[fd].fid == f
    ensures FileChain(f) in l && Coherent(fds[fd := Spec.At(f, p)], l, starts, currs[fd := BlockAt(l[FileChain(f)], p)])
  {
    CoherentFor(fds, l, starts, currs, fd);
  }

  lemma OpenCoherent(fds: seq<Spec.Ofd>, l: Lists, starts: seq<BlockId>, currs: seq<BlockId>, fd: nat, f: nat)
    requires Coherent(fds, l, starts, currs) && fd < LIMIT && FileChain(f) in l
    ensures Coherent(fds[fd := Spec.At(f, 0)], l, starts[fd := Head(l[FileChain(f)])],
              currs[fd := Head(l[FileChain(f)])])
  {
  }

  /** Nothing to do where positions and the chains of the files that stay are kept. */
  lemma KeptCoherent(fds: seq<Spec.Ofd>, l: Lists, fds': seq<Spec.Ofd>, l': Lists, inodes': map<nat, Spec.Inode>,
          starts: seq<BlockId>, currs: seq<BlockId>)
    requires Coherent(fds, l, starts, currs) && KeepsChains(l, l', inodes') && |fds'| == LIMIT
    requires forall i | 0 <= i < LIMIT :: fds'[i].At? ==> fds'[i] == fds[i] && fds'[i].fid in inodes'
    ensures Coherent(fds', l', starts, currs)
  {
    forall i | 0 <= i < LIMIT ensures CoherentAt(fds'[i], l', starts[i], currs[i]) {
      CoherentFor(fds, l, starts, currs, i);
    }
  }

  // ----- growing and cutting a file -----

  /** cs with b for the descriptors of open file t. */
  function Adopted(descs: seq<Desc>, t: nat, b: BlockId, cs: seq<BlockId>): (r: seq<BlockId>)
    requires |descs| == |cs|
    ensures |r| == |cs|
  {
    seq(|cs|, i requires 0 <= i < |cs| => if descs[i].Desc? && descs[i].file == t then b else cs[i])
  }

  /** Currs after the file of open file t has been cut to length, in chain c. */
  function Recomputed(descs: seq<Desc>, t: nat, length: nat, c: seq<BlockId>, cs: seq<BlockId>): (r: seq<BlockId>)
    requires |descs| == |cs|
    ensures |r| == |cs|
  {
    seq(|cs|, i requires 0 <= i < |cs| => if descs[i].Desc? && descs[i].file == t && descs[i].currPos >= length
          then BlockAt(c, length) else cs[i])
  }

  ghost predicate CachedFile(descs: seq<Desc>, currs: seq<BlockId>, fd: nat, d: Desc, c: seq<BlockId>) {
    && |descs| == |currs| == LIMIT && fd < LIMIT && d.Desc?
    && (currs[fd] == 0 <==> c == []) && (c != [] ==> IndexFor(d.currPos) < |c| && currs[fd] == c[IndexFor(d.currPos)])
    && (c == [] ==> forall i | 0 <= i < LIMIT :: descs[i].Desc? && descs[i].file == d.file ==> currs[i] == 0)
  }

  /** A cache of block pointers once the file of open file t, with chain c, has got the blocks new_. */
  function GrownCache(descs: seq<Desc>, t: nat, c: seq<BlockId>, new_: seq<BlockId>,
          cs: seq<BlockId>): (r: seq<BlockId>)
    requires |descs| == |cs|
    ensures |r| == |cs|
  {
    if c == [] then Adopted(descs, t, Head(c + new_), cs) else cs
  }

  lemma AdoptedEmpty(h: seq<Hdr>, s: Store, o: Owner, new_: seq<BlockId>)
    requires StoreOk(h, s) && o.FileChain? && o in s.lists && s.lists[o] == [] && Transit(FileTag) in s.lists
             && new_ == s.lists[Transit(FileTag)]
    ensures InRange(new_, |h|) && NoDup(new_)
  {
    hide StoreOk;
    TransferFacts(h, s, o, [], new_);
    assert [] + new_ == new_;
  }

  /** What the pointers cached for descriptor fd and its fellows say about the file. */
  lemma CachedBefore(h: seq<Hdr>, s: Store, c: State, a: Spec.Afs, fd: nat, d: Desc, starts: seq<BlockId>,
          currs: seq<BlockId>)
    requires StoreOk(h, s) && Rep(c, s.lists, a) && Handle(c, a, fd, d) && Coherent(a.fds, s.lists, starts, currs)
    ensures FileChain(c.fid[d.file]) in s.lists && |starts| == |currs| == LIMIT
            && CachedFile(c.descs, currs, fd, d, s.lists[FileChain(c.fid[d.file])])
  {
    hide StoreOk, Rep;
    var f := c.fid[d.file];
    CoherentFor(a.fds, s.lists, starts, currs, fd);
    Covered(h, s, c, a, f, d.currPos);
    forall i | 0 <= i < LIMIT ensures c.descs[i].Desc? && c.descs[i].file == d.file && s.lists[FileChain(f)] == []
           ==> currs[i] == 0 {
      CoherentFor(a.fds, s.lists, starts, currs, i);
      DescsOf(c, s.lists, a, d.file, i);
    }
  }

  /** The file of open file t takes n more blocks. */
  lemma GrowCoherent(h: seq<Hdr>, s: Store, c: State, a: Spec.Afs, t: nat, n: nat, starts: seq<BlockId>,
          currs: seq<BlockId>)
    requires StoreOk(h, s) && Rep(c, s.lists, a) && t < LIMIT == |c.files| == |c.fid| == |c.descs|
             && c.files[t].OpenFile?
    requires Coherent(a.fds, s.lists, starts, currs)
    requires FreeList in s.lists && n <= |s.lists[FreeList]| && FileChain(c.fid[t]) in s.lists
    ensures |starts| == |currs| == |c.descs|
    ensures var f := c.fid[t];
            var chain, new_ := s.lists[FileChain(f)], s.lists[FreeList][..n];
            Coherent(a.fds, Grown(s.lists, f, n), GrownCache(c.descs, t, chain, new_, starts),
                  GrownCache(c.descs, t, chain, new_, currs))
  {
    hide StoreOk, Rep;
    var l, f := s.lists, c.fid[t];
    var chain, new_ := l[FileChain(f)], l[FreeList][..n];
    forall i | 0 <= i < LIMIT
      ensures CoherentAt(a.fds[i], Grown(l, f, n), GrownCache(c.descs, t, chain, new_, starts)[i],
                GrownCache(c.descs, t, chain, new_, currs)[i])
    {
      CoherentFor(a.fds, l, starts, currs, i);
      DescsOf(c, l, a, t, i);
      if a.fds[i].At? && a.fds[i].fid == f {
        Covered(h, s, c, a, f, a.fds[i].pos);
        if chain != [] {
          AppendKeepsBlock(chain, new_, a.fds[i].pos);
        }
      }
    }
    hide CoherentAt;
  }

  /** The caches after a write that takes n more blocks. */
  lemma WriteCoherent(h: seq<Hdr>, s: Store, c: State, a: Spec.Afs, fd: nat, d: Desc, buf: seq<Byte>, n: nat,
          starts: seq<BlockId>, currs: seq<BlockId>)
    requires StoreOk(h, s) && Rep(c, s.lists, a) && Handle(c, a, fd, d) && Coherent(a.fds, s.lists, starts, currs)
    requires FreeList in s.lists && n <= |s.lists[FreeList]| && FileChain(c.fid[d.file]) in s.lists
             && WriteFits(a, c.fid[d.file], d.currPos, buf, n)
    ensures |starts| == |currs| == |c.descs| && Spec.Inv(a) && fd < |c.descs|
    ensures var f := c.fid[d.file];
            var chain, new_ := s.lists[FileChain(f)], s.lists[FreeList][..n];
            Coherent(Spec.Write(a, fd, buf).0.fds, Grown(s.lists, f, n),
                  GrownCache(c.descs, d.file, chain, new_, starts),
                     GrownCache(c.descs, d.file, chain, new_, currs)[fd := BlockAt(chain + new_, d.currPos + |buf|)])
  {
    hide StoreOk, FilesRep, DirRep, TabRep, Spec.Inv, Coherent, Spec.Overwrite, GrownCache;
    var f := c.fid[d.file];
    var chain, new_ := s.lists[FileChain(f)], s.lists[FreeList][..n];
    GrowCoherent(h, s, c, a, d.file, n, starts, currs);
    CoherentFor(a.fds, s.lists, starts, currs, fd);
    MoveCoherent(a.fds, Grown(s.lists, f, n), GrownCache(c.descs, d.file, chain, new_, starts),
          GrownCache(c.descs, d.file, chain, new_, currs), fd, f, d.currPos + |buf|);
    WrittenIsWrite(a, fd, f, d.currPos, buf, n);
  }

  /** The file of open file t is cut to length. */
  lemma CutCoherent(h: seq<Hdr>, s: Store, c: State, a: Spec.Afs, t: nat, length: nat, starts: seq<BlockId>,
          currs: seq<BlockId>)
    requires StoreOk(h, s) && Rep(c, s.lists, a) && t < LIMIT == |c.files| == |c.fid| == |c.descs|
             && c.files[t].OpenFile?
    requires Coherent(a.fds, s.lists, starts, currs)
    requires FreeList in s.lists && FileChain(c.fid[t]) in s.lists
             && Spec.BlocksFor(length) <= |s.lists[FileChain(c.fid[t])]|
    ensures |starts| == |currs| == |c.descs|
    ensures var f, k := c.fid[t], Spec.BlocksFor(length);
            var chain := s.lists[FileChain(f)][..k];
            Coherent(Spec.Clamp(a.fds, f, length), Freed(s.lists, FileChain(f), k), if k == 0
                  then Adopted(c.descs, t, 0, starts) else starts,
                     Recomputed(c.descs, t, length, chain, currs))
  {
    hide StoreOk, Rep;
    var l, f, k := s.lists, c.fid[t], Spec.BlocksFor(length);
    var chain := l[FileChain(f)];
    forall i | 0 <= i < LIMIT
      ensures CoherentAt(Spec.Clamp(a.fds, f, length)[i], Freed(l, FileChain(f), k), if k == 0
                then Adopted(c.descs, t, 0, starts)[i] else starts[i],
                         Recomputed(c.descs, t, length, chain[..k], currs)[i])
    {
      CoherentFor(a.fds, l, starts, currs, i);
      DescsOf(c, l, a, t, i);
      if a.fds[i].At? && a.fds[i].fid == f {
        CutKeepsBlock(chain, k, length);
        if a.fds[i].pos < length {
          CutKeepsBlock(chain, k, a.fds[i].pos);
        }
      }
    }
    hide CoherentAt;
  }

  /** The caches after ftruncate to more than the file had. */
  lemma GrowthCoherent(h: seq<Hdr>, s: Store, c: State, a: Spec.Afs, fd: nat, d: Desc, length: nat, n: nat,
          starts: seq<BlockId>, currs: seq<BlockId>)
    requires StoreOk(h, s) && Rep(c, s.lists, a) && Handle(c, a, fd, d) && Coherent(a.fds, s.lists, starts, currs)
    requires FreeList in s.lists && n <= |s.lists[FreeList]| && FileChain(c.fid[d.file]) in s.lists
             && length > |a.inodes[c.fid[d.file]].data|
    ensures |starts| == |currs| == |c.descs| && Spec.Inv(a)
    ensures var chain, new_ := s.lists[FileChain(c.fid[d.file])], s.lists[FreeList][..n];
            Coherent(Spec.Truncate(a, fd, length).0.fds, Grown(s.lists, c.fid[d.file], n),
                  GrownCache(c.descs, d.file, chain, new_, starts),
                     GrownCache(c.descs, d.file, chain, new_, currs))
  {
    hide StoreOk, FilesRep, DirRep, TabRep, Spec.Inv, Coherent, GrownCache, Spec.Resize;
    GrowCoherent(h, s, c, a, d.file, n, starts, currs);
    ClampNone(c, s.lists, a, c.fid[d.file], length);
  }

  /** The caches after ftruncate to less. */
  lemma ShrinkCoherent(h: seq<Hdr>, s: Store, c: State, a: Spec.Afs, fd: nat, d: Desc, length: nat,
          starts: seq<BlockId>, currs: seq<BlockId>)
    requires StoreOk(h, s) && Rep(c, s.lists, a) && Handle(c, a, fd, d) && Coherent(a.fds, s.lists, starts, currs)
             && |c.data| == |h|
    requires FreeList in s.lists && FileChain(c.fid[d.file]) in s.lists && length < |a.inodes[c.fid[d.file]].data|
    ensures |starts| == |currs| == |c.descs| && Spec.Inv(a)
            && Spec.BlocksFor(length) <= |s.lists[FileChain(c.fid[d.file])]|
    ensures var f, k := c.fid[d.file], Spec.BlocksFor(length);
            Coherent(Spec.Truncate(a, fd, length).0.fds, Freed(s.lists, FileChain(f), k), if k == 0
                  then Adopted(c.descs, d.file, 0, starts) else starts,
                     Recomputed(c.descs, d.file, length, s.lists[FileChain(f)][..k], currs))
  {
    hide StoreOk, FilesRep, DirRep, TabRep, Spec.Inv, Coherent, Adopted, Recomputed, Spec.Truncate;
    CutLists(h, s, c, a, fd, d, length);
    Truncated(a, fd, c.fid[d.file], length);
    CutCoherent(h, s, c, a, d.file, length, starts, currs);
  }

  /** File numbers are only names: the next one may be taken back. */
  lemma ForgetNumber(c: State, l: Lists, a: Spec.Afs, a': Spec.Afs)
    requires Rep(c, l, a) && Spec.Inv(a') && a == a'.(next := a.next)
    ensures Rep(c, l, a')
  {
    hide Spec.Inv;
    FdsIrrelevant(c.data, c.ents, l, a, a');
    hide FilesRep, DirRep;
    forall t | 0 <= t < LIMIT && c.files[t].OpenFile?
           ensures OpenRep(c.files[t], Refs(c.descs, t), c.fid[t], c.at[t], l, a') {
      assert OpenRep(c.files[t], Refs(c.descs, t), c.fid[t], c.at[t], l, a);
    }
  }
}
