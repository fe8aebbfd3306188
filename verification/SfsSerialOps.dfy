/** Each data operation by itself: from the memory it finds under its locks to the
    memory it leaves, it does what the abstract operation says. */
module SfsSerialOps {
  import opened SfsContents
  import opened SfsRuns
  import opened SfsSerial
  import opened SfsSerialSteps
  import Spec = SfsSpec
  import Proofs = SfsSpecProofs

  /** Under the operation's locks memory shows the abstract state. */
  ghost predicate Agreed(m: Mem, a: Spec.Afs, c: Call, f: nat) {
    && Spec.Inv(a) && DataCall(c) && OfFile(m.fds, FdOf(c), f) && |m.fds| == |a.fds| == LIMIT
    && m.fds[FdOf(c)] == a.fds[FdOf(c)]
    && f in m.files && f in a.inodes && FileIs(m.files[f], a.inodes[f]) && m.avail == a.avail
    && SameOwners(m.fds, a.fds) && m.files.Keys == a.inodes.Keys
    && (c.Truncate? ==> c.length <= Spec.SFS_MAX_FILE_SIZE && forall i | 0 <= i < LIMIT && OfFile(m.fds, i, f) ::
         m.fds[i] == a.fds[i])
  }

  lemma LacksIs(n: nat, blocks: nat, size: nat)
    requires n == BLOCK_DATA_SIZE * blocks
    ensures Lacks(n, size) == if Spec.BlocksFor(size) > blocks then Spec.BlocksFor(size) - blocks else 0
  {
    hide Spec.BlocksFor;
  }

  /** What the invariant says about the file and the position. */
  lemma GoodFile(a: Spec.Afs, fd: nat, f: nat)
    requires Spec.Inv(a) && fd < |a.fds| && a.fds[fd].At? && a.fds[fd].fid == f
    ensures f in a.inodes && Spec.GoodInode(a.inodes[f]) && a.fds[fd].pos <= |a.inodes[f].data|
    ensures forall i | 0 <= i < |a.fds| && OfFile(a.fds, i, f) :: a.fds[i].pos <= |a.inodes[f].data|
  {
    hide Spec.DirInv;
  }

  // ----- operations that only answer -----

  lemma AnswerRight(m: Mem, a: Spec.Afs, c: Call, f: nat, reply: Reply, m': Mem)
    requires Agreed(m, a, c, f) && AnswersHere(m, c, f, reply, m')
    ensures Step(a, c).1 == reply
    ensures Step(a, c).0 == a.(fds := Step(a, c).0.fds) && m' == m.(fds := m'.fds)
    ensures |m'.fds| == |Step(a, c).0.fds| == LIMIT && m'.fds[FdOf(c)] == Step(a, c).0.fds[FdOf(c)]
            && OfFile(m'.fds, FdOf(c), f)
    ensures forall i | 0 <= i < LIMIT && i != FdOf(c) :: m'.fds[i] == m.fds[i] && Step(a, c).0.fds[i] == a.fds[i]
    ensures c.Truncate? ==> m' == m && Step(a, c).0 == a
  {
    hide Spec.BlocksFor, Spec.Clamp, Spec.Resize, Spec.Overwrite, Lacks, Spec.DirInv;
    GoodFile(a, FdOf(c), f);
    var file, ino := m.files[f], a.inodes[f];
    LacksIs(|file.raw|, ino.blocks, if c.Write? then m.fds[c.fd].pos + |c.buf| else if c.Truncate? then c.length
          else 0);
    hide Spec.Inv, SameOwners;
  }

  lemma BadFdRight(a: Spec.Afs, c: Call)
    requires Spec.Inv(a) && DataCall(c) && !Live(a.fds, FdOf(c))
    ensures if c.Read? then Step(a, c) == (a, Code(-Spec.EBADF)) else Step(a, c) == (a, BadFd(c))
  {
    hide Spec.Inv;
  }

  lemma TooLongRight(a: Spec.Afs, c: Call)
    requires Spec.Inv(a) && c.Truncate? && Live(a.fds, c.fd) && c.length > Spec.SFS_MAX_FILE_SIZE
    ensures Step(a, c) == (a, Code(-Spec.EFBIG))
  {
    hide Spec.Inv;
  }

  lemma GetposRight(a: Spec.Afs, c: Call)
    requires Spec.Inv(a) && c.Getpos? && Live(a.fds, c.fd)
    ensures Step(a, c) == (a, Code(a.fds[c.fd].pos))
  {
    hide Spec.Inv;
  }

  // ----- operations that go on to move bytes -----

  lemma ReadBegins(m: Mem, a: Spec.Afs, c: Call, f: nat, p: Pc)
    requires Agreed(m, a, c, f) && c.Read? && p.Moving? && p.call == c && p.f == f && p.done == 0 && p.got == []
    ensures var r := Step(a, c);
            && Length(m, c, f) >= 0 && r.0 == a.(fds := a.fds[c.fd := Spec.At(f, m.fds[c.fd].pos + Length(m, c, f))])
            && MovingOk(m, r.0, p)
            && m.fds[c.fd].pos + Length(m, c, f) <= |m.files[f].raw|
            && r.1 == Reply(Length(m, c, f), m.files[f].raw[m.fds[c.fd].pos..m.fds[c.fd].pos + Length(m, c, f)], 0, "")
  {
    GoodFile(a, c.fd, f);
    hide Spec.Inv, SameOwners;
    var file, pos, n := m.files[f], m.fds[c.fd].pos, Length(m, c, f);
    assert file.raw[..file.size][pos..pos + n] == file.raw[pos..pos + n];
  }

  /** The abstract state after a write that takes n more blocks. */
  ghost function Written(a: Spec.Afs, fd: nat, f: nat, buf: seq<Byte>, n: nat): Spec.Afs
    requires fd < |a.fds| && a.fds[fd].At? && f in a.inodes && a.fds[fd].pos <= |a.inodes[f].data| && n <= a.avail
  {
    var pos, ino := a.fds[fd].pos, a.inodes[f];
    a.(inodes := a.inodes[f := Spec.Inode(Spec.Overwrite(ino.data, pos, buf), ino.blocks + n)],
       fds := a.fds[fd := Spec.At(f, pos + |buf|)], avail := a.avail - n)
  }

  lemma WriteStep(m: Mem, a: Spec.Afs, c: Call, f: nat, n: nat)
    requires Agreed(m, a, c, f) && c.Write? && m.fds[c.fd].pos + |c.buf| <= Spec.SFS_MAX_FILE_SIZE && |c.buf| > 0
    requires n == Lacks(|m.files[f].raw|, m.fds[c.fd].pos + |c.buf|) <= m.avail
    ensures c.fd >= 0 && a.fds[c.fd].pos <= |a.inodes[f].data|
            && Step(a, c) == (Written(a, c.fd, f, c.buf, n), Code(|c.buf|))
    ensures a.fds[c.fd].pos + |c.buf| <= BLOCK_DATA_SIZE * (a.inodes[f].blocks + n)
  {
    GoodFile(a, c.fd, f);
    LacksIs(|m.files[f].raw|, a.inodes[f].blocks, m.fds[c.fd].pos + |c.buf|);
    hide Spec.Inv, SameOwners, Lacks, Spec.Overwrite, FileIs;
    assert |m.files[f].raw| == BLOCK_DATA_SIZE * a.inodes[f].blocks by { FileLength(m.files[f], a.inodes[f]); }
  }

  lemma FileLength(file: File, ino: Spec.Inode)
    requires FileIs(file, ino)
    ensures |file.raw| == BLOCK_DATA_SIZE * ino.blocks && file.size == |ino.data|
  {
  }

  lemma WriteBegins(m: Mem, a: Spec.Afs, c: Call, f: nat, junk: seq<Byte>, n: nat, p: Pc)
    requires Agreed(m, a, c, f) && c.Write? && p.Moving? && p.call == c && p.f == f && p.done == 0
    requires m.fds[c.fd].pos + |c.buf| <= Spec.SFS_MAX_FILE_SIZE && |c.buf| > 0
    requires n == Lacks(|m.files[f].raw|, m.fds[c.fd].pos + |c.buf|) <= m.avail && |junk| == n * BLOCK_DATA_SIZE
    ensures c.fd >= 0 && a.fds[c.fd].pos <= |a.inodes[f].data|
            && Step(a, c) == (Written(a, c.fd, f, c.buf, n), Code(|c.buf|))
    ensures MovingOk(Grown(m, f, junk, n), Written(a, c.fd, f, c.buf, n), p)
  {
    hide Lacks, Spec.Overwrite, Step, Spec.BlocksFor, Spec.GoodInode, Spec.DirInv;
    WriteStep(m, a, c, f, n);
    var file := m.files[f];
    hide Spec.Inv, SameOwners;
    assert (file.raw + junk)[..file.size] == file.raw[..file.size];
  }

  /** The abstract state after ftruncate, with n more blocks. */
  ghost function Longer(a: Spec.Afs, f: nat, length: nat, n: nat): Spec.Afs
    requires f in a.inodes && n <= a.avail
  {
    a.(inodes := a.inodes[f := Spec.Inode(Spec.Resize(a.inodes[f].data, length), a.inodes[f].blocks + n)],
       fds := Spec.Clamp(a.fds, f, length), avail := a.avail - n)
  }

  lemma GrowStep(m: Mem, a: Spec.Afs, c: Call, f: nat, n: nat)
    requires Agreed(m, a, c, f) && c.Truncate? && c.length != m.files[f].size
    requires Spec.BlocksFor(c.length) * BLOCK_DATA_SIZE >= |m.files[f].raw|
             && n == Lacks(|m.files[f].raw|, c.length) <= m.avail
    ensures Step(a, c) == (Longer(a, f, c.length, n), Code(0)) && c.length <= BLOCK_DATA_SIZE * (a.inodes[f].blocks + n)
  {
    GoodFile(a, c.fd, f);
    FileLength(m.files[f], a.inodes[f]);
    LacksIs(|m.files[f].raw|, a.inodes[f].blocks, c.length);
    hide Spec.Inv, SameOwners, Lacks, Spec.Resize, Spec.Clamp, FileIs;
  }

  lemma GrowBegins(m: Mem, a: Spec.Afs, c: Call, f: nat, junk: seq<Byte>, n: nat, p: Pc)
    requires Agreed(m, a, c, f) && c.Truncate? && p.Moving? && p.call == c && p.f == f && p.done == 0
             && c.length != m.files[f].size
    requires Spec.BlocksFor(c.length) * BLOCK_DATA_SIZE >= |m.files[f].raw|
    requires n == Lacks(|m.files[f].raw|, c.length) <= m.avail && |junk| == n * BLOCK_DATA_SIZE
    ensures Step(a, c) == (Longer(a, f, c.length, n), Code(0))
            && MovingOk(Grown(m, f, junk, n), Longer(a, f, c.length, n), p)
  {
    hide Lacks, Step, Spec.BlocksFor, Spec.GoodInode, Spec.DirInv;
    GrowStep(m, a, c, f, n);
    GoodFile(a, c.fd, f);
    var file := m.files[f];
    hide Spec.Inv;
    assert (file.raw + junk)[..file.size] == file.raw[..file.size];
    if c.length < file.size {
      assert (file.raw + junk)[..c.length] == file.raw[..file.size][..c.length];
    }
  }

  lemma CutShorter(ino: Spec.Inode, length: nat)
    requires Spec.GoodInode(ino) && Spec.BlocksFor(length) < ino.blocks
    ensures length <= |ino.data|
  {
    Proofs.BlocksMonotone(|ino.data|, length);
  }

  lemma CutBegins(m: Mem, a: Spec.Afs, c: Call, f: nat, m': Mem, p: Pc)
    requires Agreed(m, a, c, f) && c.Truncate? && p.Moving? && p.call == c && p.f == f && p.done == 0
             && c.length != m.files[f].size
    requires Spec.BlocksFor(c.length) * BLOCK_DATA_SIZE < |m.files[f].raw| && Begins(m, c, f, m')
    ensures var r, ino, k := Step(a, c), a.inodes[f], Spec.BlocksFor(c.length);
            && k <= ino.blocks
            && r.0 == a.(inodes := a.inodes[f := Spec.Inode(Spec.Resize(ino.data, c.length), k)],
                 fds := Spec.Clamp(a.fds, f, c.length), avail := a.avail + (ino.blocks - k))
            && r.1 == Code(0) && MovingOk(m', r.0, p) && m'.avail == r.0.avail
  {
    GoodFile(a, c.fd, f);
    var file, ino, k := m.files[f], a.inodes[f], Spec.BlocksFor(c.length);
    FileLength(file, ino);
    CutShorter(ino, c.length);
    hide Spec.Inv, SameOwners;
    assert c.length < file.size;
    assert file.raw[..k * BLOCK_DATA_SIZE][..c.length] == file.raw[..file.size][..c.length];
  }

  // ----- moving bytes -----

  lemma SpliceAt(raw: seq<Byte>, from: nat, x: seq<Byte>, i: nat)
    requires from + |x| <= |raw| && i < |raw|
    ensures Splice(raw, from, x)[i] == if from <= i < from + |x| then x[i - from] else raw[i]
  {
  }

  /** Writing more of buf into place does not change what the file will be. */
  lemma OverwriteSame(raw: seq<Byte>, size: nat, pos: nat, buf: seq<Byte>, done: nat, n: nat)
    requires pos <= size <= |raw| && pos + |buf| <= |raw| && done + n <= |buf| && raw[pos..pos + done] == buf[..done]
    ensures var raw' := Splice(raw, pos + done, buf[done..done + n]);
            && raw'[pos..pos + done + n] == buf[..done + n]
            && Spec.Overwrite(raw'[..size], pos, buf) == Spec.Overwrite(raw[..size], pos, buf)
  {
    var raw' := Splice(raw, pos + done, buf[done..done + n]);
    forall i | 0 <= i < |raw| ensures raw'[i] == if pos + done <= i < pos + done + n then buf[i - pos] else raw[i] {
      SpliceAt(raw, pos + done, buf[done..done + n], i);
    }
    hide Splice;
    assert raw'[..size][..pos] == raw[..size][..pos];
    assert pos + |buf| < size ==> raw'[..size][pos + |buf|..] == raw[..size][pos + |buf|..];
    forall i | 0 <= i < done + n ensures raw'[pos + i] == buf[i] {
      assert i < done ==> raw[pos..pos + done][i] == buf[..done][i];
    }
  }

  lemma ZeroedMore(raw: seq<Byte>, size: nat, done: nat, n: nat)
    requires size + done + n <= |raw| && raw[size..size + done] == Zeros(done)
    ensures var raw' := Splice(raw, size + done, Zeros(n));
            raw'[size..size + done + n] == Zeros(done + n) && raw'[..size] == raw[..size]
  {
    var raw' := Splice(raw, size + done, Zeros(n));
    forall i | 0 <= i < |raw| ensures raw'[i] == if size + done <= i < size + done + n then 0 else raw[i] {
      SpliceAt(raw, size + done, Zeros(n), i);
    }
    hide Splice;
    var z := raw'[size..size + done + n];
    forall i | 0 <= i < |z| ensures z[i] == Zeros(done + n)[i] {
      assert i < done ==> raw[size..size + done][i] == Zeros(done)[i];
    }
  }

  lemma MoveRead(m: Mem, a: Spec.Afs, p: Pc, n: nat)
    requires p.Moving? && MovingOk(m, a, p) && p.call.Read? && p.done + n <= Length(m, p.call, p.f)
    ensures var from := m.fds[p.call.fd].pos + p.done;
            from + n <= |m.files[p.f].raw| && MovingOk(m, a,
                  p.(done := p.done + n, got := p.got + m.files[p.f].raw[from..from + n]))
  {
    NextSlice(m.files[p.f].raw, m.fds[p.call.fd].pos, m.fds[p.call.fd].pos + p.done, m.fds[p.call.fd].pos + p.done + n);
  }

  lemma MoveWrite(m: Mem, a: Spec.Afs, p: Pc, n: nat)
    requires p.Moving? && MovingOk(m, a, p) && p.call.Write? && p.done + n <= |p.call.buf|
    ensures var file, from := m.files[p.f], m.fds[p.call.fd].pos + p.done;
            && from + n <= |file.raw|
            && MovingOk(m.(files := m.files[p.f := File(Splice(file.raw, from, p.call.buf[p.done..p.done + n]),
                       file.size)]), a, p.(done := p.done + n))
  {
    var file := m.files[p.f];
    OverwriteSame(file.raw, file.size, m.fds[p.call.fd].pos, p.call.buf, p.done, n);
    hide Spec.Overwrite, Splice;
  }

  lemma MoveTruncate(m: Mem, a: Spec.Afs, p: Pc, n: nat)
    requires p.Moving? && MovingOk(m, a, p) && p.call.Truncate? && p.done + n <= Length(m, p.call, p.f)
    ensures var file, from := m.files[p.f], Start(m, p.call, p.f) + p.done;
            && from + n <= |file.raw|
            && MovingOk(m.(files := m.files[p.f := File(Splice(file.raw, from, Zeros(n)), file.size)]), a,
                 p.(done := p.done + n))
  {
    var file, length := m.files[p.f], p.call.length;
    if length > file.size {
      ZeroedMore(file.raw, file.size, p.done, n);
    } else {
      var raw' := Splice(file.raw, length + p.done, Zeros(n));
      assert raw'[..length] == file.raw[..length];
    }
    hide Splice;
  }

  // ----- the last stores -----

  lemma FinishRead(m: Mem, a: Spec.Afs, p: Pc)
    requires p.Moving? && MovingOk(m, a, p) && p.call.Read? && p.done == Length(m, p.call, p.f)
    ensures var m', pos := Stored(m, p.call, p.f), m.fds[p.call.fd].pos;
            && m'.files == m.files && m'.fds == m.fds[p.call.fd := a.fds[p.call.fd]]
            && FileIs(m.files[p.f], a.inodes[p.f])
            && pos + p.done <= |m.files[p.f].raw| && p.got == m.files[p.f].raw[pos..pos + p.done]
  {
  }

  lemma FinishWrite(m: Mem, a: Spec.Afs, p: Pc)
    requires p.Moving? && MovingOk(m, a, p) && p.call.Write? && p.done == |p.call.buf|
    ensures var m' := Stored(m, p.call, p.f);
            && m'.files == m.files[p.f := m'.files[p.f]] && m'.fds == m.fds[p.call.fd := a.fds[p.call.fd]]
            && FileIs(m'.files[p.f], a.inodes[p.f])
  {
    var file, pos, buf := m.files[p.f], m.fds[p.call.fd].pos, p.call.buf;
    var end := pos + |buf|;
    var size := if end > file.size then end else file.size;
    var r := Spec.Overwrite(file.raw[..file.size], pos, buf);
    assert |r| == size;
    forall i | 0 <= i < size ensures r[i] == file.raw[i] {
      if pos <= i < end {
        assert file.raw[pos..end][i - pos] == buf[..p.done][i - pos];
      }
    }
    hide Spec.Overwrite;
  }

  lemma FinishTruncate(m: Mem, a: Spec.Afs, p: Pc)
    requires p.Moving? && MovingOk(m, a, p) && p.call.Truncate? && p.done == Length(m, p.call, p.f)
             && SameOwners(m.fds, a.fds)
    ensures var m' := Stored(m, p.call, p.f);
            && m'.files == m.files[p.f := m'.files[p.f]] && FileIs(m'.files[p.f], a.inodes[p.f]) && |m'.fds| == |m.fds|
            && forall i | 0 <= i < |m.fds| :: m'.fds[i] == if OfFile(m.fds, i, p.f) then a.fds[i] else m.fds[i]
  {
    var file, length := m.files[p.f], p.call.length;
    if length > file.size {
      assert file.raw[..length] == file.raw[..file.size] + file.raw[file.size..length];
    }
    forall i | 0 <= i < |m.fds| && OfFile(m.fds, i, p.f) ensures TruncatedFd(m.fds[i], a.fds[i], file.size, length) {
    }
  }
}
