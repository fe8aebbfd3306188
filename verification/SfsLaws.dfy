/** Laws of the abstract file system, for every state its operations can reach. */
module SfsLaws {
  import opened SfsContents
  import opened SfsRuns
  import Spec = SfsSpec
  import Proofs = SfsSpecProofs

  /** A call that reports an error has changed nothing. */
  lemma FailureChangesNothing(a: Spec.Afs, call: Call)
    requires Spec.Inv(a) && Step(a, call).1.code < 0
    ensures Step(a, call).0 == a
  {
    if call.Read? {
      ReadCode(a, call.fd, call.len);
    }
    hide Spec.Inv, Spec.InDir, Spec.IsOpen, Spec.Release, Spec.Unlink, Spec.Create, Spec.Expand, Spec.Clamp,
         Spec.Overwrite;
  }

  lemma ReadCode(a: Spec.Afs, fd: int, len: nat)
    requires Spec.Inv(a)
    ensures if Spec.ValidFd(a, fd) then Spec.Read(a, fd, len).1 >= 0 else Spec.Read(a, fd, len).0 == a
  {
  }

  // ----- bytes -----

  /** Byte i after writing buf at pos. */
  lemma OverwriteAt(data: seq<Byte>, pos: nat, buf: seq<Byte>, i: nat)
    requires pos <= |data|
    ensures |Spec.Overwrite(data, pos, buf)| == (if pos + |buf| > |data| then pos + |buf| else |data|)
    ensures i < |Spec.Overwrite(data, pos, buf)| ==> Spec.Overwrite(data, pos, buf)[i] == if pos <= i < pos + |buf|
            then buf[i - pos] else data[i]
  {
  }

  /** Seeking back over what was written and reading gives it back, and leaves
      the state as the write left it. */
  lemma WriteReadBack(a: Spec.Afs, fd: int, buf: seq<Byte>)
    requires Spec.Inv(a) && Spec.Write(a, fd, buf).1 >= 0
    ensures Spec.Write(a, fd, buf).1 == |buf|
    ensures var b := Spec.Write(a, fd, buf).0;
            && Spec.Inv(b) && Spec.Inv(Spec.Seek(b, fd, -|buf|).0)
            && Spec.Read(Spec.Seek(b, fd, -|buf|).0, fd, |buf|) == (b, |buf|, buf)
  {
    Proofs.WriteInv(a, fd, buf);
    var b := Spec.Write(a, fd, buf).0;
    Proofs.SeekInv(b, fd, -|buf|);
    ReadBack(a, fd, buf);
    hide Spec.Inv, Spec.Seek, Spec.Read;
  }

  lemma ReadBack(a: Spec.Afs, fd: int, buf: seq<Byte>)
    requires Spec.Inv(a) && Spec.Write(a, fd, buf).1 >= 0 && Spec.Inv(Spec.Write(a, fd, buf).0)
             && Spec.Inv(Spec.Seek(Spec.Write(a, fd, buf).0, fd, -|buf|).0)
    ensures var b := Spec.Write(a, fd, buf).0; Spec.Read(Spec.Seek(b, fd, -|buf|).0, fd, |buf|) == (b, |buf|, buf)
  {
    hide Spec.Inv, Spec.Write;
    WrittenState(a, fd, buf);
    var f, pos := a.fds[fd].fid, a.fds[fd].pos;
    var b := Spec.Write(a, fd, buf).0;
    var s := Spec.Seek(b, fd, -|buf|).0;
    assert s == b.(fds := b.fds[fd := Spec.At(f, pos)]);
    assert s.fds[fd := Spec.At(f, pos + |buf|)] == b.fds;
  }

  lemma WrittenState(a: Spec.Afs, fd: int, buf: seq<Byte>)
    requires Spec.Inv(a) && Spec.Write(a, fd, buf).1 >= 0
    ensures Spec.ValidFd(a, fd) && Spec.ValidFd(Spec.Write(a, fd, buf).0, fd)
    ensures var b, f, pos := Spec.Write(a, fd, buf).0, a.fds[fd].fid, a.fds[fd].pos;
            && f in b.inodes && b.fds[fd] == Spec.At(f, pos + |buf|)
            && |b.inodes[f].data| >= pos + |buf| && b.inodes[f].data[pos..pos + |buf|] == buf
  {
  }

  // ----- what a call leaves alone -----

  /** The file whose bytes the call may change. */
  ghost function Target(a: Spec.Afs, call: Call): int {
    match call
    case Write(fd, _) => if Spec.ValidFd(a, fd) then a.fds[fd].fid else -1
    case Truncate(fd, _) => if Spec.ValidFd(a, fd) then a.fds[fd].fid else -1
    case _ => -1
  }

  /** Every other file keeps its bytes and blocks as long as it exists, and exists
      as long as the directory or a descriptor refers to it. */
  lemma OtherFilesUntouched(a: Spec.Afs, call: Call, f: nat)
    requires Spec.Inv(a) && f in a.inodes && f != Target(a, call)
    ensures var b := Step(a, call).0;
            if f in b.inodes then b.inodes[f] == a.inodes[f] else !Spec.InDir(b.dir, f) && !Spec.IsOpen(b.fds, f)
  {
    hide Spec.InDir, Spec.IsOpen, Spec.Clamp, Spec.Overwrite, Spec.DirInv, Spec.FdInv, Spec.Resize, Spec.GoodInode,
         Spec.Seek, Spec.Read, Spec.List;
    match call {
      case Rename(from, to) =>
        RenameUntouched(a, from, to, f);
      case Read(fd, len) =>
        assert Spec.Read(a, fd, len).0.inodes == a.inodes by { MovesOnly(a, fd, len, 0); }
      case Seek(fd, delta) =>
        assert Spec.Seek(a, fd, delta).0.inodes == a.inodes by { MovesOnly(a, fd, 0, delta); }
      case _ =>
    }
  }

  lemma MovesOnly(a: Spec.Afs, fd: int, len: nat, delta: int)
    requires Spec.Inv(a)
    ensures Spec.Seek(a, fd, delta).0.inodes == a.inodes == Spec.Read(a, fd, len).0.inodes
    ensures Spec.Seek(a, fd, delta).0.dir == a.dir == Spec.Read(a, fd, len).0.dir
    ensures Spec.Seek(a, fd, delta).0.avail == a.avail == Spec.Read(a, fd, len).0.avail
  {
  }

  lemma RenameUntouched(a: Spec.Afs, from: Spec.CString, to: Spec.CString, f: nat)
    requires Spec.Inv(a) && f in a.inodes
    ensures var b := Spec.Rename(a, from, to).0;
            if f in b.inodes then b.inodes[f] == a.inodes[f] else !Spec.InDir(b.dir, f) && !Spec.IsOpen(b.fds, f)
  {
  }
}
