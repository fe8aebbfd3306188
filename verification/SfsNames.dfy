/** The directory as a map from names to files: what open, remove and rename do to it. */
module SfsNames {
  import opened SfsContents
  import opened SfsRuns
  import Spec = SfsSpec
  import Proofs = SfsSpecProofs

  ghost function Names(dir: seq<Spec.Slot>): map<Spec.CString, nat> {
    map n | n in (set k | 0 <= k < |dir| && dir[k].Used? :: dir[k].name) :: dir[Spec.Find(dir, n)].fid
  }

  ghost predicate Unique(dir: seq<Spec.Slot>) {
    forall j, k | 0 <= j < k < |dir| :: dir[j].Used? && dir[k].Used? ==> dir[j].name != dir[k].name
  }

  lemma NameAt(dir: seq<Spec.Slot>, k: nat)
    requires Unique(dir) && k < |dir| && dir[k].Used?
    ensures dir[k].name in Names(dir) && Names(dir)[dir[k].name] == dir[k].fid
  {
  }

  lemma NameFound(dir: seq<Spec.Slot>, name: Spec.CString)
    ensures name in Names(dir) <==> Spec.Find(dir, name) < |dir|
    ensures name in Names(dir) ==> Names(dir)[name] == dir[Spec.Find(dir, name)].fid
  {
  }

  /** A map that has exactly the used slots is the names of the directory. */
  lemma NamesAre(dir: seq<Spec.Slot>, m: map<Spec.CString, nat>)
    requires Unique(dir)
    requires forall k | 0 <= k < |dir| :: dir[k].Used? ==> dir[k].name in m && m[dir[k].name] == dir[k].fid
    requires forall n | n in m :: exists k | 0 <= k < |dir| :: dir[k].Used? && dir[k].name == n
    ensures Names(dir) == m
  {
    forall n | n in m ensures n in Names(dir) && Names(dir)[n] == m[n] {
      var k :| 0 <= k < |dir| && dir[k].Used? && dir[k].name == n;
      NameAt(dir, k);
    }
    forall n | n in Names(dir) ensures n in m {
      NameFound(dir, n);
    }
  }

  lemma ClearSlot(dir: seq<Spec.Slot>, k: nat)
    requires Unique(dir) && k < |dir| && dir[k].Used?
    ensures Unique(dir[k := Spec.Empty]) && Names(dir[k := Spec.Empty]) == Names(dir) - {dir[k].name}
  {
    var d, m := dir[k := Spec.Empty], Names(dir) - {dir[k].name};
    forall j | 0 <= j < |d| && d[j].Used? ensures d[j].name in m && m[d[j].name] == d[j].fid {
      NameAt(dir, j);
    }
    forall n | n in m ensures exists j | 0 <= j < |d| :: d[j].Used? && d[j].name == n {
      NameFound(dir, n);
      assert d[Spec.Find(dir, n)].Used?;
    }
    NamesAre(d, m);
  }

  lemma FillSlot(dir: seq<Spec.Slot>, k: nat, name: Spec.CString, f: nat)
    requires Unique(dir) && k < |dir| && dir[k].Empty? && name !in Names(dir)
    ensures Unique(dir[k := Spec.Used(name, f)]) && Names(dir[k := Spec.Used(name, f)]) == Names(dir)[name := f]
  {
    var d, m := dir[k := Spec.Used(name, f)], Names(dir)[name := f];
    forall j | 0 <= j < |dir| && dir[j].Used? ensures dir[j].name in Names(dir) && Names(dir)[dir[j].name] == dir[j].fid
           && d[j] == dir[j] {
      NameAt(dir, j);
    }
    forall n | n in m ensures exists j | 0 <= j < |d| :: d[j].Used? && d[j].name == n {
      if n == name {
        assert d[k].Used?;
      } else {
        NameFound(dir, n);
        assert d[Spec.Find(dir, n)].Used?;
      }
    }
    hide Names;
    assert forall j | 0 <= j < |d| && d[j].Used? :: d[j].name in m && m[d[j].name] == d[j].fid;
    NamesAre(d, m);
  }

  lemma GrowSlots(dir: seq<Spec.Slot>, n: nat)
    requires Unique(dir)
    ensures Unique(dir + seq(n, _ => Spec.Empty)) && Names(dir + seq(n, _ => Spec.Empty)) == Names(dir)
  {
    var d := dir + seq(n, _ => Spec.Empty);
    forall j | 0 <= j < |d| && d[j].Used? ensures d[j].name in Names(dir) && Names(dir)[d[j].name] == d[j].fid {
      NameAt(dir, j);
    }
    forall m | m in Names(dir) ensures exists j | 0 <= j < |d| :: d[j].Used? && d[j].name == m {
      NameFound(dir, m);
      assert d[Spec.Find(dir, m)].Used?;
    }
    NamesAre(d, Names(dir));
  }

  // ----- operations -----

  /** Removing succeeds exactly on names in the directory, and takes only the name. */
  lemma RemoveNames(a: Spec.Afs, name: Spec.CString)
    requires Spec.Inv(a) && Spec.NameError(a, name) == 0
    ensures var (b, r) := Spec.Remove(a, name);
            && r == (if name in Names(a.dir) then 0 else -Spec.ENOENT)
            && Names(b.dir) == Names(a.dir) - {name} && b.fds == a.fds
            && forall i | 0 <= i < |a.fds| && a.fds[i].At? ::
               a.fds[i].fid in b.inodes && b.inodes[a.fds[i].fid] == a.inodes[a.fds[i].fid]
  {
    NameFound(a.dir, name);
    if name in Names(a.dir) {
      ClearSlot(a.dir, Spec.Find(a.dir, name));
    }
    hide Names, Spec.Find;
  }

  /** Renaming rebinds the new name to the old name's file in one step. */
  lemma RenameNames(a: Spec.Afs, from: Spec.CString, to: Spec.CString)
    requires Spec.Inv(a) && Spec.NameError(a, from) == 0 && Spec.NameError(a, to) == 0
    ensures var (b, r) := Spec.Rename(a, from, to);
            && r == (if from in Names(a.dir) then 0 else -Spec.ENOENT)
            && b.fds == a.fds
            && Names(b.dir) == if from in Names(a.dir) then (Names(a.dir) - {from})[to := Names(a.dir)[from]]
               else Names(a.dir)
  {
    hide Names, Spec.Find, Spec.InDir, Spec.IsOpen;
    NameFound(a.dir, from);
    NameFound(a.dir, to);
    var j, k := Spec.Find(a.dir, from), Spec.Find(a.dir, to);
    if j < |a.dir| && from != to {
      var d := if k < |a.dir| then a.dir[k := Spec.Empty] else a.dir;
      RenameSlots(a.dir, j, k, to);
      assert Spec.Rename(a, from, to).0.dir == d[j := Spec.Used(to, a.dir[j].fid)];
    }
    hide Spec.Inv;
  }

  lemma RenameSlots(dir: seq<Spec.Slot>, j: nat, k: nat, to: Spec.CString)
    requires Unique(dir) && j < |dir| && dir[j].Used? && dir[j].name != to && k == Spec.Find(dir, to)
    ensures var d := if k < |dir| then dir[k := Spec.Empty] else dir;
            Names(d[j := Spec.Used(to, dir[j].fid)]) == (Names(dir) - {dir[j].name})[to := dir[j].fid]
  {
    hide Names, Unique;
    FreeName(dir, j, k, to);
    var d := if k < |dir| then dir[k := Spec.Empty] else dir;
    ClearSlot(d, j);
    var e := d[j := Spec.Empty];
    FillSlot(e, j, to, dir[j].fid);
    assert e[j := Spec.Used(to, dir[j].fid)] == d[j := Spec.Used(to, dir[j].fid)];
    assert (Names(dir) - {to} - {dir[j].name})[to := dir[j].fid] == (Names(dir) - {dir[j].name})[to := dir[j].fid];
  }

  lemma FreeName(dir: seq<Spec.Slot>, j: nat, k: nat, to: Spec.CString)
    requires Unique(dir) && j < |dir| && dir[j].Used? && dir[j].name != to && k == Spec.Find(dir, to)
    ensures var d := if k < |dir| then dir[k := Spec.Empty] else dir;
            Unique(d) && Names(d) == Names(dir) - {to} && d[j] == dir[j]
  {
    NameFound(dir, to);
    if k < |dir| {
      ClearSlot(dir, k);
    }
    hide Names, Unique;
  }

  /** Opening binds a new name to a new empty file, and an old one to its file. */
  lemma OpenNames(a: Spec.Afs, name: Spec.CString)
    requires Spec.Inv(a) && Spec.Open(a, name).1 >= 0
    ensures var (b, fd) := Spec.Open(a, name);
            && fd < |a.fds| && a.fds[fd].Shut? && (forall i | 0 <= i < fd :: a.fds[i].At?)
            && if name in Names(a.dir) then
                 Names(b.dir) == Names(a.dir) && b.inodes == a.inodes
                     && b.fds == a.fds[fd := Spec.At(Names(a.dir)[name], 0)]
               else
                 && a.next !in a.inodes && Names(b.dir) == Names(a.dir)[name := a.next]
                 && b.inodes == a.inodes[a.next := Spec.Inode([], 0)] && b.fds == a.fds[fd := Spec.At(a.next, 0)]
  {
    NameFound(a.dir, name);
    if name !in Names(a.dir) {
      var k := Spec.FirstEmpty(a.dir);
      if k < |a.dir| {
        FillSlot(a.dir, k, name, a.next);
      } else {
        GrowSlots(a.dir, Spec.DIR_ENTRIES_PER_BLOCK);
        FillSlot(a.dir + seq(Spec.DIR_ENTRIES_PER_BLOCK, _ => Spec.Empty), k, name, a.next);
      }
    }
    hide Names, Spec.Find, Spec.FirstEmpty, Spec.FreeFd, Spec.InDir, Spec.IsOpen, Spec.DirInv, Spec.FdInv,
         Spec.GoodInode;
  }
}
