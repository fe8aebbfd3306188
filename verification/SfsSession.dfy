/** Whole runs: any sequence of calls on a formatted or mounted image, unmounting,
    checking and mounting again. */
module SfsSession {
  import opened SfsChains
  import opened SfsContents
  import opened SfsRep
  import opened SfsOpSteps
  import opened SfsFsck
  import opened SfsImage
  import opened SfsDisk
  import opened SfsRuns
  import Effects = SfsEffects
  import Spec = SfsSpec

  method Perform(d: Disk, call: Call) returns (r: Reply)
    requires d.Valid()
    modifies d.Repr()
    ensures d.Valid() && Spec.Inv(old(d.a)) && (d.a, r) == Step(old(d.a), call)
    ensures Effects.Does(old(d.a), call, d.a, r) == true
  {
    hide Effects.Does;
    hide Spec.Inv, Spec.Open, Spec.Close, Spec.Read, Spec.Write, Spec.Truncate, Spec.Seek, Spec.Remove, Spec.Rename,
         Spec.List;
    hide Rep, StoreOk;
    InvOf(d);
    Effects.StepDoes(d.a, call);
    var code;
    match call
    case Open(name) => code := d.Open(name); r := Code(code);
    case Close(fd) => d.Close(fd); r := Code(0);
    case Read(fd, len) => var buf; code, buf := d.Read(fd, len); r := Reply(code, buf, 0, "");
    case Write(fd, buf) => code := d.Write(fd, buf); r := Code(code);
    case Truncate(fd, length) => code := d.Ftruncate(fd, length); r := Code(code);
    case Seek(fd, delta) => code := d.Seek(fd, delta); r := Code(code);
    case Getpos(fd) => code := d.Getpos(fd); r := Code(code);
    case Fstat(fd) => code := d.Fstat(fd); r := Code(code);
    case Remove(name) => code := d.Remove(name); r := Code(code);
    case Rename(from, to) => code := d.Rename(from, to); r := Code(code);
    case List(cookie, space) =>
      var next, name;
      next, code, name := d.List(cookie, space);
      r := Reply(code, [], next, name);
  }

  lemma InvOf(d: Disk)
    requires d.Valid()
    ensures Spec.Inv(d.a)
  {
  }

  /** Any run of the block-level code is the run of the abstract file system. */
  method PerformAll(d: Disk, calls: seq<Call>) returns (replies: seq<Reply>)
    requires d.Valid()
    modifies d.Repr()
    ensures d.Valid() && Spec.Inv(old(d.a)) && (d.a, replies) == Run(old(d.a), calls)
  {
    hide Step, Spec.Inv, Rep, StoreOk;
    InvOf(d);
    ghost var a := d.a;
    replies := [];
    var i: nat := 0;
    assert calls[..0] == [];
    while i < |calls|
      invariant i <= |calls| && d.Valid() && (d.a, replies) == Run(a, calls[..i])
    {
      assert calls[..i + 1][..i] == calls[..i];
      var r := Perform(d, calls[i]);
      replies := replies + [r];
      i := i + 1;
    }
    assert calls[..i] == calls;
  }

  // ----- checking the image of a disk -----

  /** The disk file as the checker finds it.  Formatting and mounting leave the
      magic number and the size right, and no operation writes them. */
  method Snapshot(d: Disk) returns (img: Image)
    requires d.Valid()
    ensures InUse(d.hdr.view, d.store, d.Cells(), d.a)
    ensures img == ImageOf(d.hdr.view, d.store.lists, d.ents.view) && Shaped(img)
  {
    hide Rep, StoreOk;
    DiskLive(d);
    img := Image(true, true, d.freelist, d.rootdir, d.hdr.cells[..], d.ents.cells[..]);
  }

  lemma DiskLive(d: Disk)
    requires d.Valid()
    ensures InUse(d.hdr.view, d.store, d.Cells(), d.a)
    ensures FreeList in d.store.lists && DirChain in d.store.lists && d.mounted == d.a.mounted
    ensures Shaped(ImageOf(d.hdr.view, d.store.lists, d.ents.view))
  {
    DirFacts(d.hdr.view, d.store, d.Cells(), d.a);
    hide StoreOk, Rep;
  }

  /** The checker accepts the image of a file system in use exactly if no block
      belongs to a file that is open but no longer in the directory. */
  method CheckDisk(d: Disk) returns (status: int)
    requires d.Valid()
    ensures status == 0 <==> NoOrphanBlocks(d.a)
  {
    hide ConsistentImage, Shaped, InUse, NoOrphanBlocks, ImageOf;
    var img := Snapshot(d);
    status := Fsck(img);
    AcceptedIff(d.hdr.view, d.store, d.Cells(), d.a);
  }

  ghost predicate NothingOpen(a: Spec.Afs) {
    forall i | 0 <= i < |a.fds| :: a.fds[i].Shut?
  }

  /** With nothing open there are no orphans. */
  lemma UnmountedRests(a: Spec.Afs)
    requires Spec.Inv(a)
    ensures Spec.Unmount(a).1 == 0 <==> NothingOpen(a)
    ensures NothingOpen(a) ==> NoOrphanBlocks(a.(mounted := false)) && Spec.Unmount(a).0 == a.(mounted := false)
  {
  }

  /** After any run from a formatted image: unmounting succeeds exactly if nothing
      is open, and an image that has been unmounted is accepted by the checker. */
  method WholeRun(n: nat, calls: seq<Call>) returns (unmounted: int, status: int)
    requires 1 < n <= EMPTY_FILE_BLOCK
    ensures Spec.Inv(Spec.Fresh(n - 1))
    ensures unmounted == 0 <==> NothingOpen(Run(Spec.Fresh(n - 1), calls).0)
    ensures unmounted == 0 ==> status == 0
  {
    hide Step, Run, Rep, StoreOk, NoOrphanBlocks, NothingOpen;
    var d := new Disk.Blank(n);
    d.Format(n);
    var replies := PerformAll(d, calls);
    RunMounted(Spec.Fresh(n - 1), calls);
    InvOf(d);
    ghost var a := d.a;
    UnmountedRests(a);
    unmounted := d.Unmount();
    status := CheckDisk(d);
  }

  // ----- mounting -----

  /** sfs_mount on a consistent image with different names. */
  method Mount(img: Image, data: seq<seq<Byte>>, ghost w: Store) returns (d: Disk)
    requires Mountable(img, data, w)
    ensures fresh(d) && fresh(d.Repr()) && d.Valid() && d.a == MountedState(img, data, w)
  {
    MountShape(img, data, w);
    MountHeads(img, data, w);
    MountRep(img, data, w);
    hide Mountable, MountedState, Rep, StoreOk, DirShape;
    d := new Disk.Load(img.hdr, data, img.ents);
    d.Install(img.freelist, img.rootdir, w, MountedTables(img, data), MountedState(img, data, w));
  }

  lemma MountHeads(img: Image, data: seq<seq<Byte>>, w: Store)
    requires Mountable(img, data, w)
    ensures FreeList in w.lists && DirChain in w.lists && img.freelist == Head(w.lists[FreeList])
            && img.rootdir == Head(w.lists[DirChain])
    ensures |data| == |img.hdr| == |img.ents| <= EMPTY_FILE_BLOCK
  {
  }

  /** Unmounting and mounting again keeps every name, byte and block. */
  method Cycle(d: Disk) returns (r: int, e: Disk?)
    requires d.Valid() && d.mounted
    modifies d.Repr()
    ensures d.Valid() && (d.a, r) == Spec.Unmount(old(d.a))
    ensures r != 0 ==> e == null
    ensures r == 0 ==> e != null && e.Valid() && e.mounted && SameFiles(d.a, e.a) && SameFiles(old(d.a), e.a)
  {
    hide Rep, StoreOk, NoOrphanBlocks, NothingOpen, ConsistentImage, InUse, SameFiles, ImageOf, Mountable, MountedState,
         Spec.Unmount;
    InvOf(d);
    UnmountedRests(d.a);
    ghost var a := d.a;
    r := d.Unmount();
    if r != 0 {
      return r, null;
    }
    var img := Snapshot(d);
    AcceptedIff(d.hdr.view, d.store, d.Cells(), d.a);
    ghost var w := TheWitness(img).w;
    RemountSame(d.hdr.view, d.store, d.Cells(), d.a, w);
    MountShape(img, d.data.view, w);
    SameMounted(a, MountedState(img, d.data.view, w));
    e := Mount(img, d.data.cells[..], w);
    DiskLive(e);
  }

  lemma SameMounted(a: Spec.Afs, b: Spec.Afs)
    ensures SameFiles(a.(mounted := false), b) <==> SameFiles(a, b)
  {
    hide SameSlot;
  }
}
