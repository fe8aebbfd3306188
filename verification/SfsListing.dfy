/** Two consequences of the directory's discipline: a listing that other calls
    interrupt is still stable, and blocks are never lost. */
module SfsListing {
  import opened SfsContents
  import opened SfsRuns
  import Spec = SfsSpec
  import Proofs = SfsSpecProofs

  // ----- stable listing -----

  /** One reported file: its slot, its number and its name when it was reported. */
  datatype Found = Found(slot: nat, fid: nat, name: Spec.CString)

  /** sfs_list until it reports the end, with a name buffer of 24 bytes and the calls
      between[0], between[1], ... by others after each report. */
  ghost function Listing(a: Spec.Afs, cookie: nat, between: seq<seq<Call>>): seq<Found>
    requires Spec.Inv(a)
    decreases |between|, |a.dir| - cookie
  {
    var (next, status, name) := Spec.List(a, cookie, Spec.SFS_FILE_NAME_SIZE_LIMIT);
    if status != 0 then []
    else
      var found := Found(next - 1, a.dir[next - 1].fid, name);
      [found] + if between == [] then Listing(a, next, between) else Listing(Run(a, between[0]).0, next, between[1..])
  }

  /** Slot k holds file f whenever the listing calls sfs_list. */
  ghost predicate HeldThroughout(a: Spec.Afs, cookie: nat, between: seq<seq<Call>>, k: nat, f: nat)
    requires Spec.Inv(a)
    decreases |between|, |a.dir| - cookie
  {
    var (next, status, name) := Spec.List(a, cookie, Spec.SFS_FILE_NAME_SIZE_LIMIT);
    && k < |a.dir| && a.dir[k].Used? && a.dir[k].fid == f
    && (status == 0 ==> if between == [] then HeldThroughout(a, next, between, k, f)
         else HeldThroughout(Run(a, between[0]).0, next, between[1..], k, f))
  }

  /** On a mounted disk the 24-byte buffer fits every name: a call reports the first
      used slot from the cookie on, or the end. */
  lemma ListReports(a: Spec.Afs, cookie: nat)
    requires Spec.Inv(a) && a.mounted
    ensures var (next, status, name) := Spec.List(a, cookie, Spec.SFS_FILE_NAME_SIZE_LIMIT);
            if status == 0 then
              cookie < next <= |a.dir| && a.dir[next - 1].Used? && a.dir[next - 1].name == name
                  && forall j | cookie <= j < next - 1 :: a.dir[j].Empty?
            else
              status == 1 && forall j | cookie <= j < |a.dir| :: a.dir[j].Empty?
  {
    hide Spec.InDir, Spec.IsOpen, Spec.FdInv, Spec.GoodInode, Spec.NextUsed;
  }

  ghost predicate Increasing(l: seq<Found>, from: nat) {
    (forall i | 0 <= i < |l| :: from <= l[i].slot) && forall i, j | 0 <= i < j < |l| :: l[i].slot < l[j].slot
  }

  lemma Prepend(x: Found, l: seq<Found>, from: nat)
    requires Increasing(l, x.slot + 1) && from <= x.slot
    ensures Increasing([x] + l, from)
  {
  }

  /** The slots come in increasing order. */
  lemma {:induction false} ListingIncreases(a: Spec.Afs, cookie: nat, between: seq<seq<Call>>)
    requires Spec.Inv(a) && a.mounted
    ensures Increasing(Listing(a, cookie, between), cookie)
    decreases |between|, |a.dir| - cookie
  {
    hide Spec.Inv, Run, Increasing, Listing;
    var x, b, more := ListingUnfold(a, cookie, between);
    if Listing(a, cookie, between) == [] {
      NoneIncreasing(cookie);
    } else {
      ListingIncreases(b, x.slot + 1, more);
      Prepend(x, Listing(b, x.slot + 1, more), cookie);
    }
  }

  /** A listing that reports anything is one report and the rest of the listing. */
  lemma ListingUnfold(a: Spec.Afs, cookie: nat, between: seq<seq<Call>>)
    returns (x: Found, b: Spec.Afs, more: seq<seq<Call>>)
    requires Spec.Inv(a) && a.mounted
    ensures Listing(a, cookie, between) != [] ==>
              && Spec.Inv(b) && b.mounted && cookie <= x.slot
              && Listing(a, cookie, between) == [x] + Listing(b, x.slot + 1, more)
              && (|more| < |between| || (more == between && b == a && x.slot < |a.dir|))
  {
    ListReports(a, cookie);
    var (next, status, name) := Spec.List(a, cookie, Spec.SFS_FILE_NAME_SIZE_LIMIT);
    hide Spec.Inv, Spec.List, Run;
    x, b, more := Found(0, 0, ""), a, between;
    if status == 0 {
      x := Found(next - 1, a.dir[next - 1].fid, name);
      if between != [] {
        RunMounted(a, between[0]);
        b, more := Run(a, between[0]).0, between[1..];
      }
    }
  }

  lemma NoneIncreasing(from: nat)
    ensures Increasing([], from)
  {
  }

  /** A file that stays in its slot is reported. */
  lemma {:induction false} ListingReports(a: Spec.Afs, cookie: nat, between: seq<seq<Call>>, k: nat, f: nat)
    returns (i: nat)
    requires Spec.Inv(a) && a.mounted && cookie <= k && HeldThroughout(a, cookie, between, k, f)
    ensures i < |Listing(a, cookie, between)| && Listing(a, cookie, between)[i].slot == k
            && Listing(a, cookie, between)[i].fid == f
    decreases |between|, |a.dir| - cookie
  {
    ListReports(a, cookie);
    hide Spec.Inv, Spec.List, Run;
    var (next, status, name) := Spec.List(a, cookie, Spec.SFS_FILE_NAME_SIZE_LIMIT);
    if next - 1 == k {
      i := 0;
    } else if between == [] {
      i := ListingReports(a, next, between, k, f);
      i := i + 1;
    } else {
      RunMounted(a, between[0]);
      i := ListingReports(Run(a, between[0]).0, next, between[1..], k, f);
      i := i + 1;
    }
  }

  /** Whatever others do meanwhile, a listing reports each file that stays in its
      slot exactly once. */
  lemma ListingStable(a: Spec.Afs, between: seq<seq<Call>>, k: nat, f: nat)
    requires Spec.Inv(a) && a.mounted && HeldThroughout(a, 0, between, k, f)
    ensures var l := Listing(a, 0, between);
            exists i | 0 <= i < |l| :: l[i].slot == k && l[i].fid == f
                   && forall j | 0 <= j < |l| && j != i :: l[j].slot != k
  {
    hide Listing, HeldThroughout, Spec.Inv;
    ListingIncreases(a, 0, between);
    var i := ListingReports(a, 0, between, k, f);
    assert Listing(a, 0, between)[i].slot == k;
  }

  /** A call that reports no file, at the end or for another reason, leaves a cookie from
      which listing again reports the whole directory. */
  lemma ListingAgain(a: Spec.Afs, cookie: nat, space: nat, between: seq<seq<Call>>, k: nat, f: nat)
    requires Spec.Inv(a) && a.mounted && Spec.List(a, cookie, space).1 != 0 && HeldThroughout(a, 0, between, k, f)
    ensures var l := Listing(a, Spec.List(a, cookie, space).0, between);
            exists i | 0 <= i < |l| :: l[i].slot == k && l[i].fid == f
                   && forall j | 0 <= j < |l| && j != i :: l[j].slot != k
  {
    ListingStable(a, between, k, f);
    hide Listing, HeldThroughout, Spec.Inv;
  }

  /** A file keeps its slot until it is removed or replaced: no call moves it. */
  lemma SlotsStay(a: Spec.Afs, call: Call, k: nat)
    requires Spec.Inv(a) && k < |a.dir| && a.dir[k].Used?
    ensures Stays(a.dir, Step(a, call).0.dir, k)
  {
    hide Spec.Inv, Stays, Spec.List, Spec.Read, Spec.Write, Spec.Truncate, Spec.Seek, Spec.Open, Spec.Remove,
         Spec.Rename, Spec.Close;
    match call {
      case Open(name) => OpenStays(a, name, k);
      case Rename(from, to) => RenameStays(a, from, to, k);
      case Remove(name) => RemoveStays(a, name, k);
      case Read(_, _) => DirKept(a, call); SameStays(a, k);
      case Write(_, _) => DirKept(a, call); SameStays(a, k);
      case Truncate(_, _) => DirKept(a, call); SameStays(a, k);
      case Seek(_, _) => DirKept(a, call); SameStays(a, k);
      case Close(_) => DirKept(a, call); SameStays(a, k);
      case _ => SameStays(a, k);
    }
  }

  /** The directory has not shrunk, and the file of slot k is in no other slot. */
  ghost predicate Stays(dir: seq<Spec.Slot>, now: seq<Spec.Slot>, k: nat)
    requires k < |dir| && dir[k].Used?
  {
    |now| >= |dir| && forall j | 0 <= j < |now| && now[j].Used? && now[j].fid == dir[k].fid :: j == k
  }

  lemma SameStays(a: Spec.Afs, k: nat)
    requires Spec.Inv(a) && k < |a.dir| && a.dir[k].Used?
    ensures Stays(a.dir, a.dir, k)
  {
  }

  lemma OpenStays(a: Spec.Afs, name: Spec.CString, k: nat)
    requires Spec.Inv(a) && k < |a.dir| && a.dir[k].Used?
    ensures Stays(a.dir, Spec.Open(a, name).0.dir, k)
  {
    assert a.dir[k].fid < a.next;
    hide Spec.FdInv, Spec.InDir, Spec.IsOpen, Spec.GoodName, Spec.GoodInode;
  }

  lemma RemoveStays(a: Spec.Afs, name: Spec.CString, k: nat)
    requires Spec.Inv(a) && k < |a.dir| && a.dir[k].Used?
    ensures Stays(a.dir, Spec.Remove(a, name).0.dir, k)
  {
    hide Spec.FdInv, Spec.InDir, Spec.IsOpen, Spec.GoodName, Spec.GoodInode;
  }

  lemma RenameStays(a: Spec.Afs, from: Spec.CString, to: Spec.CString, k: nat)
    requires Spec.Inv(a) && k < |a.dir| && a.dir[k].Used?
    ensures Stays(a.dir, Spec.Rename(a, from, to).0.dir, k)
  {
    var i, j := Spec.Find(a.dir, from), Spec.Find(a.dir, to);
    hide Spec.FdInv, Spec.InDir, Spec.IsOpen, Spec.GoodName, Spec.GoodInode, Spec.Find;
    var b := Spec.Rename(a, from, to).0;
    if b != a {
      var d := if j < |a.dir| then a.dir[j := Spec.Empty] else a.dir;
      assert b.dir == d[i := Spec.Used(to, a.dir[i].fid)];
      hide Spec.Rename;
    }
  }

  lemma DirKept(a: Spec.Afs, call: Call)
    requires Spec.Inv(a) && (call.Read? || call.Write? || call.Truncate? || call.Seek? || call.Close?)
    ensures Step(a, call).0.dir == a.dir
  {
    hide Spec.InDir, Spec.IsOpen, Spec.Clamp, Spec.Overwrite, Spec.Resize, Spec.DirInv, Spec.GoodInode;
  }

  // ----- conservation of blocks -----

  /** Blocks of the files below number n. */
  function FileBlocks(inodes: map<nat, Spec.Inode>, n: nat): nat {
    if n == 0 then 0 else FileBlocks(inodes, n - 1) + if n - 1 in inodes then inodes[n - 1].blocks else 0
  }

  /** Free blocks, directory blocks behind the superblock, and blocks of files. */
  function AllBlocks(a: Spec.Afs): int {
    a.avail + |a.dir| / Spec.DIR_ENTRIES_PER_BLOCK - 1 + FileBlocks(a.inodes, a.next)
  }

  lemma {:induction false} FileBlocksSet(inodes: map<nat, Spec.Inode>, f: nat, ino: Spec.Inode, n: nat)
    requires f < n
    ensures FileBlocks(inodes[f := ino], n) == FileBlocks(inodes, n) - (if f in inodes then inodes[f].blocks
              else 0) + ino.blocks
  {
    if f == n - 1 {
      FileBlocksAgree(inodes[f := ino], inodes, f);
    } else {
      FileBlocksSet(inodes, f, ino, n - 1);
    }
  }

  lemma {:induction false} FileBlocksGone(inodes: map<nat, Spec.Inode>, f: nat, n: nat)
    requires f < n && f in inodes
    ensures FileBlocks(inodes - {f}, n) == FileBlocks(inodes, n) - inodes[f].blocks
  {
    if f == n - 1 {
      FileBlocksAgree(inodes - {f}, inodes, f);
    } else {
      FileBlocksGone(inodes, f, n - 1);
    }
  }

  lemma {:induction false} FileBlocksAgree(i: map<nat, Spec.Inode>, j: map<nat, Spec.Inode>, n: nat)
    requires forall f | 0 <= f < n :: (f in i <==> f in j) && (f in i ==> i[f] == j[f])
    ensures FileBlocks(i, n) == FileBlocks(j, n)
  {
    if n > 0 {
      FileBlocksAgree(i, j, n - 1);
    }
  }

  lemma ReleaseConserves(a: Spec.Afs, f: nat)
    requires f in a.inodes && f < a.next
    ensures AllBlocks(Spec.Release(a, f)) == AllBlocks(a)
    ensures Spec.Release(a, f).dir == a.dir && Spec.Release(a, f).next == a.next
  {
    FileBlocksGone(a.inodes, f, a.next);
    hide FileBlocks, Spec.InDir, Spec.IsOpen;
  }

  lemma CreateConserves(a: Spec.Afs, k: nat, name: Spec.CString, fd: nat)
    requires k < |a.dir| && fd < |a.fds| && a.next !in a.inodes
    ensures AllBlocks(Spec.Create(a, k, name, fd)) == AllBlocks(a)
  {
    FileBlocksSet(a.inodes, a.next, Spec.Inode([], 0), a.next + 1);
  }

  lemma OpenConserves(a: Spec.Afs, name: Spec.CString)
    requires Spec.Inv(a)
    ensures AllBlocks(Spec.Open(a, name).0) == AllBlocks(a)
  {
    var k, fd, e := Spec.Find(a.dir, name), Spec.FreeFd(a.fds), Spec.FirstEmpty(a.dir);
    assert a.next !in a.inodes;
    hide Spec.Find, Spec.FreeFd, Spec.FirstEmpty, Spec.Create, Spec.DirInv, Spec.FdInv, Spec.InDir, Spec.IsOpen,
         Spec.GoodInode;
    if fd < |a.fds| && k == |a.dir| {
      if e < |a.dir| {
        CreateConserves(a, e, name, fd);
      } else if a.avail > 0 {
        assert AllBlocks(Spec.Expand(a)) == AllBlocks(a);
        CreateConserves(Spec.Expand(a), |a.dir|, name, fd);
      }
    }
    hide AllBlocks;
  }

  lemma WriteConserves(a: Spec.Afs, fd: int, buf: seq<Byte>, length: nat)
    requires Spec.Inv(a)
    ensures AllBlocks(Spec.Write(a, fd, buf).0) == AllBlocks(a) == AllBlocks(Spec.Truncate(a, fd, length).0)
  {
    if Spec.ValidFd(a, fd) {
      var f := a.fds[fd].fid;
      var b, c := Spec.Write(a, fd, buf).0, Spec.Truncate(a, fd, length).0;
      if b != a {
        FileBlocksSet(a.inodes, f, b.inodes[f], a.next);
      }
      if c != a {
        FileBlocksSet(a.inodes, f, c.inodes[f], a.next);
      }
    }
    hide FileBlocks, Spec.InDir, Spec.IsOpen, Spec.Clamp, Spec.Overwrite, Spec.Resize, Spec.DirInv, Spec.GoodInode;
  }

  lemma UnlinkConserves(a: Spec.Afs, from: Spec.CString, to: Spec.CString)
    requires Spec.Inv(a)
    ensures AllBlocks(Spec.Remove(a, from).0) == AllBlocks(a) == AllBlocks(Spec.Rename(a, from, to).0)
  {
    hide FileBlocks, Spec.InDir, Spec.IsOpen, Spec.Find, Spec.Release;
    var j, k := Spec.Find(a.dir, from), Spec.Find(a.dir, to);
    if j < |a.dir| {
      ReleaseConserves(a.(dir := a.dir[j := Spec.Empty]), a.dir[j].fid);
    }
    if k < |a.dir| {
      ReleaseConserves(a.(dir := a.dir[k := Spec.Empty]), a.dir[k].fid);
    }
  }

  lemma CloseConserves(a: Spec.Afs, fd: int, len: nat, delta: int)
    requires Spec.Inv(a)
    ensures AllBlocks(Spec.Close(a, fd)) == AllBlocks(a) == AllBlocks(Spec.Read(a, fd, len).0) == AllBlocks(Spec.Seek(a,
                fd, delta).0)
  {
    hide FileBlocks, Spec.InDir, Spec.IsOpen, Spec.Release;
    if Spec.ValidFd(a, fd) {
      ReleaseConserves(a.(fds := a.fds[fd := Spec.Shut]), a.fds[fd].fid);
    }
  }

  lemma StepConserves(a: Spec.Afs, call: Call)
    requires Spec.Inv(a)
    ensures AllBlocks(Step(a, call).0) == AllBlocks(a)
  {
    hide AllBlocks, Spec.Inv, Spec.Open, Spec.Close, Spec.Read, Spec.Write, Spec.Truncate, Spec.Seek, Spec.Remove,
         Spec.Rename, Spec.List;
    match call {
      case Open(name) => OpenConserves(a, name);
      case Close(fd) => CloseConserves(a, fd, 0, 0);
      case Read(fd, len) => CloseConserves(a, fd, len, 0);
      case Write(fd, buf) => WriteConserves(a, fd, buf, 0);
      case Truncate(fd, length) => WriteConserves(a, fd, [], length);
      case Seek(fd, delta) => CloseConserves(a, fd, 0, delta);
      case Remove(name) => UnlinkConserves(a, name, name);
      case Rename(from, to) => UnlinkConserves(a, from, to);
      case _ =>
    }
  }

  /** No run loses or invents a block. */
  lemma {:induction false} RunConserves(n: nat, calls: seq<Call>)
    ensures Spec.Inv(Spec.Fresh(n)) && AllBlocks(Run(Spec.Fresh(n), calls).0) == n
  {
    hide Step, Spec.Inv;
    assert Spec.Inv(Spec.Fresh(n)) by { FreshInv(n); }
    if calls != [] {
      RunConserves(n, calls[..|calls| - 1]);
      StepConserves(Run(Spec.Fresh(n), calls[..|calls| - 1]).0, calls[|calls| - 1]);
    }
    hide AllBlocks;
  }

  lemma FreshInv(n: nat)
    ensures Spec.Inv(Spec.Fresh(n))
  {
  }
}
