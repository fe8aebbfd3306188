/** Every operation keeps the abstract file system well formed. */
module SfsSpecProofs {
  import opened SfsContents
  import opened SfsSpec

  /** What Inv says of one file. */
  ghost predicate Kept(a: Afs, f: nat)
    requires f in a.inodes
  {
    f < a.next && GoodInode(a.inodes[f]) && (InDir(a.dir, f) || IsOpen(a.fds, f))
  }

  lemma KeptFd(a: Afs, fds: seq<Ofd>, f: nat)
    requires Inv(a) && f in a.inodes && |fds| == |a.fds|
    requires forall i | 0 <= i < |fds| :: a.fds[i].At? && a.fds[i].fid == f ==> fds[i].At? && fds[i].fid == f
    ensures InDir(a.dir, f) || IsOpen(fds, f)
  {
    if !InDir(a.dir, f) {
      assert IsOpen(a.fds, f);
      var i :| 0 <= i < |a.fds| && a.fds[i].At? && a.fds[i].fid == f;
      assert fds[i].At?;
    }
  }

  lemma MoveInv(a: Afs, fd: nat, p: nat)
    requires Inv(a) && fd < |a.fds| && a.fds[fd].At? && p <= |a.inodes[a.fds[fd].fid].data|
    ensures Inv(a.(fds := a.fds[fd := a.fds[fd].(pos := p)]))
  {
    var fds := a.fds[fd := a.fds[fd].(pos := p)];
    forall f | f in a.inodes ensures InDir(a.dir, f) || IsOpen(fds, f) {
      KeptFd(a, fds, f);
    }
  }

  /** File f gets new contents, and descriptors of f new positions inside them. */
  lemma ChangeInv(a: Afs, f: nat, ino: Inode, fds: seq<Ofd>, avail: nat)
    requires Inv(a) && f in a.inodes && GoodInode(ino) && |fds| == |a.fds|
    requires forall i | 0 <= i < |fds| :: a.fds[i].At? == fds[i].At? && (fds[i].At? ==> fds[i].fid == a.fds[i].fid)
    requires forall i | 0 <= i < |fds| :: fds[i].At? ==> if fds[i].fid == f then fds[i].pos <= |ino.data|
             else fds[i] == a.fds[i]
    ensures Inv(a.(inodes := a.inodes[f := ino], fds := fds, avail := avail))
  {
    var b := a.(inodes := a.inodes[f := ino], fds := fds, avail := avail);
    forall g | g in b.inodes ensures InDir(b.dir, g) || IsOpen(b.fds, g) {
      KeptFd(a, fds, g);
    }
  }

  lemma WriteInv(a: Afs, fd: int, buf: seq<Byte>)
    requires Inv(a)
    ensures Inv(Write(a, fd, buf).0)
  {
    if ValidFd(a, fd) {
      var At(f, pos) := a.fds[fd];
      var Inode(data, blocks) := a.inodes[f];
      var end := pos + |buf|;
      var blocks' := if BlocksFor(end) > blocks then BlocksFor(end) else blocks;
      if end <= SFS_MAX_FILE_SIZE && buf != [] && blocks' - blocks <= a.avail {
        WrittenFileInv(a, fd, buf, blocks');
      }
    }
    hide Inv, Overwrite;
  }

  lemma WrittenFileInv(a: Afs, fd: nat, buf: seq<Byte>, blocks': nat)
    requires Inv(a) && ValidFd(a, fd) && buf != [] && a.fds[fd].pos + |buf| <= SFS_MAX_FILE_SIZE
    requires var ino := a.inodes[a.fds[fd].fid];
             blocks' - ino.blocks <= a.avail && blocks' == if BlocksFor(a.fds[fd].pos + |buf|) > ino.blocks
                 then BlocksFor(a.fds[fd].pos + |buf|) else ino.blocks
    ensures var f, pos := a.fds[fd].fid, a.fds[fd].pos;
            var ino := a.inodes[f];
            Inv(a.(inodes := a.inodes[f := Inode(Overwrite(ino.data, pos, buf), blocks')],
                    fds := a.fds[fd := At(f, pos + |buf|)], avail := a.avail - (blocks' - ino.blocks)))
  {
    var f, pos := a.fds[fd].fid, a.fds[fd].pos;
    var data := a.inodes[f].data;
    assert GoodInode(a.inodes[f]);
    OverwriteLen(data, pos, buf);
    BlocksMonotone(|data|, pos + |buf|);
    hide Overwrite, DirInv, InDir, IsOpen, BlocksFor;
    ChangeInv(a, f, Inode(Overwrite(data, pos, buf), blocks'), a.fds[fd := At(f, pos + |buf|)],
          a.avail - (blocks' - a.inodes[f].blocks));
  }

  lemma OverwriteLen(data: seq<Byte>, pos: nat, buf: seq<Byte>)
    requires pos <= |data|
    ensures |Overwrite(data, pos, buf)| == if pos + |buf| > |data| then pos + |buf| else |data|
  {
  }

  lemma BlocksMonotone(m: nat, n: nat)
    ensures m <= n ==> BlocksFor(m) <= BlocksFor(n)
    ensures n <= m ==> BlocksFor(n) <= BlocksFor(m)
    ensures n > 0 ==> BlocksFor(n) >= 1
  {
  }

  lemma TruncateInv(a: Afs, fd: int, length: nat)
    requires Inv(a)
    ensures Inv(Truncate(a, fd, length).0)
  {
    if ValidFd(a, fd) && length <= SFS_MAX_FILE_SIZE {
      var f := a.fds[fd].fid;
      var Inode(data, blocks) := a.inodes[f];
      if length != |data| && BlocksFor(length) - blocks <= a.avail {
        BlocksMonotone(0, length);
        ChangeInv(a, f, Inode(Resize(data, length), BlocksFor(length)), Clamp(a.fds, f, length),
              a.avail - (BlocksFor(length) - blocks));
      }
    }
  }

  lemma ReleaseInv(a: Afs, f: nat)
    requires f in a.inodes && DirInv(a.dir, a.inodes) && FdInv(a.fds, a.inodes)
    requires forall g | g in a.inodes && g != f :: Kept(a, g)
    requires f < a.next && GoodInode(a.inodes[f]) && (!a.mounted ==> forall i | 0 <= i < |a.fds| :: a.fds[i].Shut?)
    ensures Inv(Release(a, f))
  {
    var b := Release(a, f);
    forall g | g in b.inodes ensures Kept(b, g) {
      if g != f {
        assert Kept(a, g);
      }
    }
  }

  lemma CloseInv(a: Afs, fd: int)
    requires Inv(a)
    ensures Inv(Close(a, fd))
  {
    if ValidFd(a, fd) {
      var f, fds := a.fds[fd].fid, a.fds[fd := Shut];
      var b := a.(fds := fds);
      forall g | g in a.inodes && g != f ensures Kept(b, g) {
        KeptFd(a, fds, g);
      }
      ReleaseInv(b, f);
    }
  }

  lemma UnlinkInv(a: Afs, k: nat)
    requires Inv(a) && k < |a.dir| && a.dir[k].Used?
    ensures Inv(Unlink(a, k))
  {
    var f, dir := a.dir[k].fid, a.dir[k := Empty];
    var b := a.(dir := dir);
    forall g | g in a.inodes && g != f ensures Kept(b, g) {
      if InDir(a.dir, g) {
        var j :| 0 <= j < |a.dir| && a.dir[j].Used? && a.dir[j].fid == g;
        assert dir[j].Used? && dir[j].fid == g;
      }
    }
    ReleaseInv(b, f);
  }

  lemma CreateInv(a: Afs, k: nat, name: CString, fd: nat)
    requires Inv(a) && k < |a.dir| && a.dir[k].Empty? && fd < |a.fds| && a.fds[fd].Shut? && a.mounted
    requires GoodName(name) && forall j | 0 <= j < |a.dir| :: a.dir[j].Used? ==> a.dir[j].name != name
    ensures Inv(Create(a, k, name, fd))
  {
    var b := Create(a, k, name, fd);
    assert b.dir[k].Used? && b.dir[k].fid == a.next;
    forall g | g in b.inodes ensures Kept(b, g) {
      if g != a.next {
        assert Kept(a, g);
        KeptFd(a, b.fds, g);
        if InDir(a.dir, g) {
          var j :| 0 <= j < |a.dir| && a.dir[j].Used? && a.dir[j].fid == g;
          assert b.dir[j].Used? && b.dir[j].fid == g;
        }
      }
    }
  }

  lemma ExpandInv(a: Afs)
    requires Inv(a) && a.avail > 0
    ensures Inv(Expand(a))
  {
    var b := Expand(a);
    forall g | g in b.inodes ensures Kept(b, g) {
      if InDir(a.dir, g) {
        var j :| 0 <= j < |a.dir| && a.dir[j].Used? && a.dir[j].fid == g;
        assert b.dir[j].Used? && b.dir[j].fid == g;
      }
    }
  }

  lemma OpenInv(a: Afs, name: CString)
    requires Inv(a)
    ensures Inv(Open(a, name).0)
  {
    hide Inv;
    if NameError(a, name) == 0 {
      var k, fd := Find(a.dir, name), FreeFd(a.fds);
      if fd < |a.fds| {
        if k < |a.dir| {
          ReopenInv(a, k, fd);
        } else if FirstEmpty(a.dir) < |a.dir| {
          CreateInv(a, FirstEmpty(a.dir), name, fd);
        } else if a.avail > 0 {
          ExpandInv(a);
          CreateInv(Expand(a), |a.dir|, name, fd);
        }
      }
    }
  }

  lemma ReopenInv(a: Afs, k: nat, fd: nat)
    requires Inv(a) && k < |a.dir| && a.dir[k].Used? && fd < |a.fds| && a.fds[fd].Shut? && a.mounted
    ensures Inv(a.(fds := a.fds[fd := At(a.dir[k].fid, 0)]))
  {
    var fds := a.fds[fd := At(a.dir[k].fid, 0)];
    forall f | f in a.inodes ensures InDir(a.dir, f) || IsOpen(fds, f) {
      KeptFd(a, fds, f);
    }
  }

  /** Slot j of a file gets a new, unused name. */
  lemma RelabelInv(a: Afs, j: nat, name: CString)
    requires Inv(a) && j < |a.dir| && a.dir[j].Used? && GoodName(name)
    requires forall i | 0 <= i < |a.dir| :: a.dir[i].Used? ==> a.dir[i].name != name
    ensures Inv(a.(dir := a.dir[j := Used(name, a.dir[j].fid)]))
  {
    var b := a.(dir := a.dir[j := Used(name, a.dir[j].fid)]);
    forall g | g in b.inodes ensures Kept(b, g) {
      if InDir(a.dir, g) {
        var i :| 0 <= i < |a.dir| && a.dir[i].Used? && a.dir[i].fid == g;
        assert b.dir[i].Used? && b.dir[i].fid == g;
      }
    }
  }

  lemma RemoveInv(a: Afs, name: CString)
    requires Inv(a)
    ensures Inv(Remove(a, name).0)
  {
    if NameError(a, name) == 0 && Find(a.dir, name) < |a.dir| {
      UnlinkInv(a, Find(a.dir, name));
    }
  }

  lemma RenameInv(a: Afs, from: CString, to: CString)
    requires Inv(a)
    ensures Inv(Rename(a, from, to).0)
  {
    if NameError(a, from) == 0 && NameError(a, to) == 0 {
      var j, k := Find(a.dir, from), Find(a.dir, to);
      if j < |a.dir| && from != to {
        var b := if k < |a.dir| then Unlink(a, k) else a;
        if k < |a.dir| {
          UnlinkInv(a, k);
        }
        assert j != k && b.dir[j] == a.dir[j];
        RelabelInv(b, j, to);
      }
    }
  }

  lemma SeekInv(a: Afs, fd: int, delta: int)
    requires Inv(a)
    ensures Inv(Seek(a, fd, delta).0)
  {
    if ValidFd(a, fd) {
      var to := Seek(a, fd, delta).1;
      MoveInv(a, fd, to);
    }
  }

  lemma ReadInv(a: Afs, fd: int, len: nat)
    requires Inv(a)
    ensures Inv(Read(a, fd, len).0)
  {
    if ValidFd(a, fd) {
      MoveInv(a, fd, a.fds[fd].pos + Read(a, fd, len).1);
    }
  }
}
