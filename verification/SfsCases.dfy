/** Runs from a formatted image that reach the cases the general theorems single out:
    a file that the checker takes for lost, and an opening that the two
    implementations answer differently. */
module SfsCases {
  import opened SfsContents
  import opened SfsDirSteps
  import opened SfsRuns
  import opened SfsBaseline
  import opened SfsBaselineRuns
  import opened SfsImage
  import Spec = SfsSpec
  import Proofs = SfsSpecProofs

  lemma FreshInv(n: nat)
    ensures Spec.Inv(Spec.Fresh(n)) && Spec.Fresh(n).mounted
  {
  }

  lemma RunMore(a: Spec.Afs, calls: seq<Call>, call: Call)
    requires Spec.Inv(a)
    ensures Run(a, calls + [call]).0 == Step(Run(a, calls).0, call).0
  {
    hide Step, Spec.Inv;
    assert (calls + [call])[..|calls|] == calls;
  }

  // ----- many openings -----

  /** The k-th of a sequence of different names. */
  function Name(k: nat): (s: Spec.CString)
    ensures |s| == k + 1
  {
    seq(k + 1, _ => 'a')
  }

  /** The first names, one for each slot of the superblock, then the first one again. */
  function NameFor(i: nat): Spec.CString {
    if i < Spec.DIR_ENTRIES_PER_BLOCK then Name(i) else Name(0)
  }

  function Opens(m: nat): (calls: seq<Call>)
    ensures |calls| == m
  {
    seq(m, i requires 0 <= i < m => Open(NameFor(i)))
  }

  function DirAfter(m: nat): (dir: seq<Spec.Slot>)
    ensures |dir| == Spec.DIR_ENTRIES_PER_BLOCK
  {
    seq(Spec.DIR_ENTRIES_PER_BLOCK, k requires 0 <= k < Spec.DIR_ENTRIES_PER_BLOCK => if k < m
          then Spec.Used(Name(k), k) else Spec.Empty)
  }

  function FdsAfter(m: nat): (fds: seq<Spec.Ofd>)
    ensures |fds| == Spec.OPEN_FILE_LIMIT
  {
    seq(Spec.OPEN_FILE_LIMIT, i requires 0 <= i < Spec.OPEN_FILE_LIMIT =>
      if i < m then Spec.At(if i < Spec.DIR_ENTRIES_PER_BLOCK then i else 0, 0) else Spec.Shut)
  }

  function NewFile(f: nat): Spec.Inode {
    Spec.Inode([], 0)
  }

  function FilesAfter(files: nat): map<nat, Spec.Inode> {
    map f: nat | f < files :: NewFile(f)
  }

  /** A formatted image after the first m openings. */
  function After(n: nat, m: nat): Spec.Afs {
    var files := Spec.Min(m, Spec.DIR_ENTRIES_PER_BLOCK);
    Spec.Afs(true, DirAfter(m), FilesAfter(files), FdsAfter(m), n, files)
  }

  lemma FoundFirst(m: nat)
    requires m > 0
    ensures Spec.Find(DirAfter(m), Name(0)) == 0
  {
    FindIs(DirAfter(m), Name(0), 0);
  }

  lemma NotFound(m: nat)
    ensures Spec.Find(DirAfter(m), Name(Spec.Min(m, Spec.DIR_ENTRIES_PER_BLOCK))) == Spec.DIR_ENTRIES_PER_BLOCK
  {
    FindIs(DirAfter(m), Name(Spec.Min(m, Spec.DIR_ENTRIES_PER_BLOCK)), Spec.DIR_ENTRIES_PER_BLOCK);
  }

  lemma FreeAfter(m: nat)
    ensures Spec.FreeFd(FdsAfter(m)) == Spec.Min(m, Spec.OPEN_FILE_LIMIT)
    ensures Spec.FirstEmpty(DirAfter(m)) == Spec.Min(m, Spec.DIR_ENTRIES_PER_BLOCK)
  {
    FreeFdIs(FdsAfter(m), Spec.Min(m, Spec.OPEN_FILE_LIMIT));
    FirstEmptyIs(DirAfter(m), Spec.Min(m, Spec.DIR_ENTRIES_PER_BLOCK));
  }

  lemma OpenStep(n: nat, m: nat)
    requires m < Spec.OPEN_FILE_LIMIT
    ensures Spec.Open(After(n, m), NameFor(m)) == (After(n, m + 1), m)
  {
    FreeAfter(m);
    hide Spec.Find, Spec.FreeFd, Spec.FirstEmpty;
    if m < Spec.DIR_ENTRIES_PER_BLOCK {
      NotFound(m);
      assert DirAfter(m)[m := Spec.Used(Name(m), m)] == DirAfter(m + 1);
      assert FdsAfter(m)[m := Spec.At(m, 0)] == FdsAfter(m + 1);
      assert FilesAfter(m)[m := NewFile(m)] == FilesAfter(m + 1);
    } else {
      FoundFirst(m);
      assert DirAfter(m) == DirAfter(m + 1);
      assert FdsAfter(m)[m := Spec.At(0, 0)] == FdsAfter(m + 1);
    }
  }

  lemma {:induction false} OpensReach(n: nat, m: nat)
    requires m <= Spec.OPEN_FILE_LIMIT
    ensures Spec.Inv(Spec.Fresh(n)) && Run(Spec.Fresh(n), Opens(m)).0 == After(n, m)
  {
    FreshInv(n);
    if m == 0 {
      assert After(n, 0) == Spec.Fresh(n);
    } else {
      OpensReach(n, m - 1);
      OpenStep(n, m - 1);
      hide Spec.Inv, Spec.Open, After, Spec.Fresh;
      assert Opens(m) == Opens(m - 1) + [Open(NameFor(m - 1))];
      RunMore(Spec.Fresh(n), Opens(m - 1), Open(NameFor(m - 1)));
    }
  }

  // ----- blocks that look lost -----

  /** A file is open as descriptor 0, holds one byte, and has no name any more. */
  lemma Orphaned(n: nat)
    requires n > 0 && Spec.Inv(After(n, 1))
    ensures var b := Spec.Write(After(n, 1), 0, [0]).0;
            Spec.Inv(b) && !NoOrphanBlocks(Spec.Remove(b, Name(0)).0)
  {
    var a := After(n, 1);
    Proofs.WriteInv(a, 0, [0]);
    var b := Spec.Write(a, 0, [0]).0;
    assert b.inodes[0].blocks == 1;
    FoundFirst(1);
    assert Spec.IsOpen(b.fds, 0) by { assert b.fds[0].At?; }
    var c := Spec.Remove(b, Name(0)).0;
    assert !Spec.InDir(c.dir, 0);
  }

  /** The case occurs: open, write a byte, remove. */
  lemma OrphanReached(n: nat)
    requires n > 0
    ensures Spec.Inv(Spec.Fresh(n))
            && !NoOrphanBlocks(Run(Spec.Fresh(n), [Open(Name(0)), Write(0, [0]), Remove(Name(0))]).0)
  {
    OpensReach(n, 1);
    assert Opens(1) == [Open(Name(0))];
    ThreeCalls(Spec.Fresh(n), Open(Name(0)), 0, [0], Name(0));
    Orphaned(n);
    hide Run, Spec.Inv, Spec.Open, Spec.Write, Spec.Remove, NoOrphanBlocks, Spec.Fresh, After, Name;
  }

  lemma ThreeCalls(a: Spec.Afs, call: Call, fd: int, buf: seq<Byte>, name: Spec.CString)
    requires Spec.Inv(a)
    ensures Spec.Inv(Run(a, [call]).0) && Spec.Inv(Spec.Write(Run(a, [call]).0, fd, buf).0)
    ensures Run(a, [call, Write(fd, buf), Remove(name)]).0 == Spec.Remove(Spec.Write(Run(a, [call]).0, fd, buf).0,
              name).0
  {
    hide Run, Spec.Inv, Spec.Write, Spec.Remove, Spec.Open;
    RunMore(a, [call], Write(fd, buf));
    RunMore(a, [call, Write(fd, buf)], Remove(name));
    Proofs.WriteInv(Run(a, [call]).0, fd, buf);
    assert [call] + [Write(fd, buf)] == [call, Write(fd, buf)];
    assert [call, Write(fd, buf)] + [Remove(name)] == [call, Write(fd, buf), Remove(name)];
  }

  // ----- an opening that is answered differently -----

  lemma {:induction false} OpensRoomy(n: nat, m: nat)
    requires m <= Spec.OPEN_FILE_LIMIT
    ensures Spec.Inv(Spec.Fresh(n)) && AlwaysRoomy(Spec.Fresh(n), Opens(m), m)
  {
    FreshInv(n);
    forall i | 0 <= i < m ensures Roomy(Run(Spec.Fresh(n), Opens(m)[..i]).0, Opens(m)[i].name) {
      OpensReach(n, i);
      FreeAfter(i);
      assert Opens(m)[..i] == Opens(i);
    }
    hide Spec.Inv, Roomy;
  }

  lemma FullAfter(n: nat)
    ensures var a, name := After(n, Spec.OPEN_FILE_LIMIT), Name(Spec.DIR_ENTRIES_PER_BLOCK);
            !Roomy(a, name) && Spec.Open(a, name) == (a, -Spec.EMFILE)
            && OpenSpec(a, name) == if n == 0 then (a, -Spec.ENOSPC) else (Spec.Expand(a), -Spec.EMFILE)
  {
    FreeAfter(Spec.OPEN_FILE_LIMIT);
    NotFound(Spec.OPEN_FILE_LIMIT);
  }

  /** The case occurs: with all descriptors and all slots taken, one new name more.  The
      baseline then reports the lack of space, or grows the directory for nothing. */
  lemma DifferenceReached(n: nat)
    ensures var a, calls, last := Spec.Fresh(n), Opens(Spec.OPEN_FILE_LIMIT), Open(Name(Spec.DIR_ENTRIES_PER_BLOCK));
            && Spec.Inv(a) && BaselineRun(a, calls) == Run(a, calls)
            && BaselineRun(a, calls + [last]) != Run(a, calls + [last])
  {
    var a, calls, last := Spec.Fresh(n), Opens(Spec.OPEN_FILE_LIMIT), Open(Name(Spec.DIR_ENTRIES_PER_BLOCK));
    OpensReach(n, Spec.OPEN_FILE_LIMIT);
    OpensRoomy(n, Spec.OPEN_FILE_LIMIT);
    FullAfter(n);
    RunsAgree(a, calls, |calls|);
    assert calls[..|calls|] == calls;
    hide Spec.Inv, Roomy, Run, BaselineRun, Spec.Fresh, After, AlwaysRoomy, Opens;
    OneMore(a, calls, last);
  }
}
