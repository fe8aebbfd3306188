/** Growing, shrinking and overwriting one file keeps the contents of all others. */
module SfsFileSteps {
  import opened SfsChains
  import opened SfsContents
  import opened SfsRep
  import Spec = SfsSpec

  /** File f takes the first n free blocks. */
  function Grown(l: Lists, f: nat, n: nat): Lists
    requires FreeList in l && FileChain(f) in l && n <= |l[FreeList]|
  {
    l[FreeList := l[FreeList][n..]][FileChain(f) := l[FileChain(f)] + l[FreeList][..n]]
  }

  lemma GrownChain(l: Lists, f: nat, n: nat)
    requires FreeList in l && FileChain(f) in l && n <= |l[FreeList]|
    ensures FileChain(f) in Grown(l, f, n) && Grown(l, f, n)[FileChain(f)] == l[FileChain(f)] + l[FreeList][..n]
  {
  }

  lemma GrownByWrite(l: Lists, f: nat, n: nat)
    requires FreeList in l && FileChain(f) in l && n <= |l[FreeList]| && Transit(FileTag) !in l
    ensures Completed(Allocated(l, n, FileTag), FileChain(f), l[FileChain(f)] + l[FreeList][..n]) == Grown(l, f, n)
    ensures Attached(Allocated(l, n, FileTag), FileChain(f), Transit(FileTag)) == Grown(l, f, n)
    ensures n == 0 ==> Grown(l, f, n) == l
  {
    assert l[FileChain(f)] + [] == l[FileChain(f)];
  }

  /** Files that are still there have the chains they had. */
  ghost predicate KeepsChains(l: Lists, l': Lists, inodes': map<nat, Spec.Inode>) {
    forall f | f in inodes' && FileChain(f) in l :: FileChain(f) in l' && l'[FileChain(f)] == l[FileChain(f)]
  }

  /** Blocks of the other files are not among those of list `all`. */
  ghost predicate Apart(l: Lists, inodes: map<nat, Spec.Inode>, f: nat, all: seq<BlockId>) {
    forall g | g in inodes && g != f && FileChain(g) in l :: forall i | 0 <= i < |l[FileChain(g)]| ::
           l[FileChain(g)][i] !in all
  }

  lemma ApartOk(h: seq<Hdr>, s: Store, inodes: map<nat, Spec.Inode>, f: nat, all: seq<BlockId>)
    requires StoreOk(h, s) && FileChain(f) in s.lists
    requires forall x | x in all :: x in s.lists[FileChain(f)] || x in s.lists[FreeList]
    ensures Apart(s.lists, inodes, f, all)
  {
    hide Linked;
    forall g, i | g in inodes && g != f && FileChain(g) in s.lists && 0 <= i < |s.lists[FileChain(g)]|
      ensures s.lists[FileChain(g)][i] !in all
    {
      OwnersDisjoint(s, |h|, FileChain(g), FileChain(f));
      OwnersDisjoint(s, |h|, FileChain(g), FreeList);
    }
  }

  /** A file's new blocks, in place of its old ones, and a new free list. */
  lemma FilesChange(data: seq<seq<Byte>>, l: Lists, a: Spec.Afs, data': seq<seq<Byte>>, l': Lists, a': Spec.Afs, f: nat,
          all: seq<BlockId>)
    requires FilesRep(data, l, a) && f in a.inodes && |data'| == |data| && Full(data')
    requires l'.Keys == l.Keys && forall o | o in l && o != FreeList && o != FileChain(f) :: l'[o] == l[o]
    requires Apart(l, a.inodes, f, all) && forall b | 0 <= b < |data| && b !in all :: data'[b] == data[b]
    requires a'.inodes.Keys == a.inodes.Keys && forall g | g in a.inodes && g != f :: a'.inodes[g] == a.inodes[g]
    requires a'.avail == |l'[FreeList]| && InodeRep(data', l'[FileChain(f)], a'.inodes[f])
    ensures FilesRep(data', l', a')
  {
    forall g | g in a'.inodes ensures FileChain(g) in l' && InodeRep(data', l'[FileChain(g)], a'.inodes[g]) {
      if g != f {
        var c := l[FileChain(g)];
        assert InodeRep(data, c, a.inodes[g]);
        FileBytesSame(data, data', c);
      }
    }
  }

  /** Contents after buf is written at pos over the file's chain c and n new blocks. */
  lemma WrittenInode(data: seq<seq<Byte>>, data': seq<seq<Byte>>, c: seq<BlockId>, new_: seq<BlockId>, ino: Spec.Inode,
          pos: nat, buf: seq<Byte>)
    requires Full(data) && InodeRep(data, c, ino) && InRange(new_, |data|) && pos <= |ino.data|
    requires Patched(data', data, c + new_, pos, buf)
    ensures InodeRep(data', c + new_, Spec.Inode(Spec.Overwrite(ino.data, pos, buf), ino.blocks + |new_|))
  {
    FileBytesConcat(data, c, new_);
    var f, f' := FileBytes(data, c + new_), FileBytes(data', c + new_);
    var r := Spec.Overwrite(ino.data, pos, buf);
    assert ino.data <= f;
    assert |r| <= |f'|;
    forall i | 0 <= i < |r| ensures r[i] == f'[i] {
    }
  }

  /** Contents after the file is cut to length, with its last block zeroed behind. */
  lemma ShrunkInode(data: seq<seq<Byte>>, data': seq<seq<Byte>>, c: seq<BlockId>, k: nat, ino: Spec.Inode, length: nat,
          z: seq<Byte>)
    requires Full(data) && InodeRep(data, c, ino) && k <= |c| && length <= |ino.data| && length <= BLOCK_DATA_SIZE * k
    requires Patched(data', data, c[..k], length, z)
    ensures InodeRep(data', c[..k], Spec.Inode(ino.data[..length], k))
  {
    FileBytesConcat(data, c[..k], c[k..]);
    assert c == c[..k] + c[k..];
    FileBytesLen(data, c[..k]);
    var f, f' := FileBytes(data, c[..k]), FileBytes(data', c[..k]);
    assert forall i | 0 <= i < length :: ino.data[i] == f[i];
    forall i | 0 <= i < length ensures f'[i] == ino.data[i] {
    }
  }

  lemma ResizeByWrite(data: seq<Byte>, length: nat)
    requires length >= |data|
    ensures Spec.Resize(data, length) == Spec.Overwrite(data, |data|, Zeros(length - |data|))
  {
  }
}
