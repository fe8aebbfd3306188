/** Images at rest: what an image without open files looks like to the checker,
    and what a consistent image stands for when it is mounted. */
module SfsImage {
  import opened SfsChains
  import opened SfsContents
  import opened SfsRep
  import opened SfsOpSteps
  import opened SfsFsck
  import Spec = SfsSpec

  // ----- from a mounted image to the checker's view -----

  /** A file in the directory is known to the checker by its slot. */
  ghost function SlotOf(dir: seq<Spec.Slot>, f: nat): (k: nat)
    requires Spec.InDir(dir, f)
    ensures k < |dir| && dir[k].Used? && dir[k].fid == f
  {
    var k :| 0 <= k < |dir| && dir[k].Used? && dir[k].fid == f;
    k
  }

  ghost predicate UniqueFids(dir: seq<Spec.Slot>) {
    forall j, k | 0 <= j < k < |dir| :: dir[j].Used? && dir[k].Used? ==> dir[j].fid != dir[k].fid
  }

  /** Every list is one of the system's, and every file is in the directory. */
  ghost predicate AtRest(l: Lists, dir: seq<Spec.Slot>) {
    && FreeList in l && DirChain in l
    && (forall o | o in l :: o == FreeList || o == DirChain || (o.FileChain? && Spec.InDir(dir, o.fid)))
    && (forall k | 0 <= k < |dir| :: dir[k].Used? ==> FileChain(dir[k].fid) in l)
  }

  ghost function SlotOwner(dir: seq<Spec.Slot>, o: Owner): Owner {
    if o.FileChain? && Spec.InDir(dir, o.fid) then FileChain(SlotOf(dir, o.fid)) else o
  }

  ghost function FidOwner(dir: seq<Spec.Slot>, o: Owner): Owner {
    if o.FileChain? && o.fid < |dir| && dir[o.fid].Used? then FileChain(dir[o.fid].fid) else o
  }

  /** The lists by slot instead of by file number. */
  ghost function Rekey(s: Store, dir: seq<Spec.Slot>): Store
    requires AtRest(s.lists, dir)
  {
    Store(map o | o in (set p | p in s.lists :: SlotOwner(dir, p)) && FidOwner(dir, o) in s.lists ::
          s.lists[FidOwner(dir, o)],
          seq(|s.owner|, b requires 0 <= b < |s.owner| => SlotOwner(dir, s.owner[b])))
  }

  lemma SlotFid(l: Lists, dir: seq<Spec.Slot>, o: Owner)
    requires AtRest(l, dir) && UniqueFids(dir) && o in l
    ensures FidOwner(dir, SlotOwner(dir, o)) == o
  {
  }

  lemma RekeyLists(s: Store, dir: seq<Spec.Slot>)
    requires AtRest(s.lists, dir) && UniqueFids(dir)
    ensures var r := Rekey(s, dir).lists;
            && (forall o | o in s.lists :: SlotOwner(dir, o) in r && r[SlotOwner(dir, o)] == s.lists[o])
            && (forall p | p in r :: FidOwner(dir, p) in s.lists && SlotOwner(dir, FidOwner(dir, p)) == p
                 && r[p] == s.lists[FidOwner(dir, p)])
  {
    hide AtRest, UniqueFids, SlotOwner, FidOwner;
    forall o | o in s.lists ensures FidOwner(dir, SlotOwner(dir, o)) == o {
      SlotFid(s.lists, dir, o);
    }
  }

  lemma RekeyOk(h: seq<Hdr>, s: Store, dir: seq<Spec.Slot>)
    requires StoreOk(h, s) && AtRest(s.lists, dir) && UniqueFids(dir)
    ensures StoreOk(h, Rekey(s, dir))
  {
    hide Linked;
    RekeyLists(s, dir);
    var r := Rekey(s, dir);
    hide AtRest, UniqueFids, Rekey;
    forall p | p in r.lists ensures OwnedBy(r, p) && Linked(h, r.lists[p], TagOf(p)) {
      var o := FidOwner(dir, p);
      assert OwnedBy(s, o) && Linked(h, s.lists[o], TagOf(o)) && r.lists[p] == s.lists[o];
    }
    forall b | 0 < b < |h| ensures r.owner[b] in r.lists && b in r.lists[r.owner[b]] {
      assert s.owner[b] in s.lists;
    }
  }

  // ----- when the checker accepts a file system in use -----

  /** A file that is open but in no directory slot any more owns no block. */
  ghost predicate NoOrphanBlocks(a: Spec.Afs) {
    forall f | f in a.inodes && !Spec.InDir(a.dir, f) :: a.inodes[f].blocks == 0
  }

  ghost function ImageOf(h: seq<Hdr>, l: Lists, ents: seq<seq<DirEntry>>): Image
    requires FreeList in l && DirChain in l
  {
    Image(true, true, Head(l[FreeList]), Head(l[DirChain]), h, ents)
  }

  ghost predicate InUse(h: seq<Hdr>, s: Store, c: State, a: Spec.Afs) {
    StoreOk(h, s) && Rep(c, s.lists, a) && |h| == |c.ents| == |c.data| <= EMPTY_FILE_BLOCK
  }

  /** The lists without those of files in no directory slot. */
  ghost function Named(s: Store, dir: seq<Spec.Slot>): Store {
    s.(lists := map o | o in s.lists && (o.FileChain? ==> Spec.InDir(dir, o.fid)) :: s.lists[o])
  }

  lemma NamedOk(h: seq<Hdr>, s: Store, c: State, a: Spec.Afs)
    requires InUse(h, s, c, a) && NoOrphanBlocks(a)
    ensures var n := Named(s, a.dir);
            StoreOk(h, n) && AtRest(n.lists, a.dir) && UniqueFids(a.dir) && n.lists[DirChain] == s.lists[DirChain]
  {
    var n := Named(s, a.dir);
    assert StoreOk(h, n) by {
      forall o | o in s.lists && o !in n.lists ensures s.lists[o] == [] {
        OrphanList(c, s.lists, a, o);
      }
      NamedStore(h, s, a.dir);
    }
    hide StoreOk, Full, DirRep, TabRep, InodeRep;
  }

  lemma OrphanList(c: State, l: Lists, a: Spec.Afs, o: Owner)
    requires Rep(c, l, a) && NoOrphanBlocks(a) && o in l && o.FileChain? && !Spec.InDir(a.dir, o.fid)
    ensures l[o] == []
  {
    hide DirRep, TabRep, Spec.Inv;
    assert InodeRep(c.data, l[o], a.inodes[o.fid]);
  }

  lemma NamedStore(h: seq<Hdr>, s: Store, dir: seq<Spec.Slot>)
    requires StoreOk(h, s)
    requires forall o | o in s.lists && o !in Named(s, dir).lists :: s.lists[o] == []
    ensures StoreOk(h, Named(s, dir))
  {
    hide Linked, InRange, Spec.InDir;
    var n := Named(s, dir);
    assert FreeList in n.lists && DirChain in n.lists && n.owner == s.owner;
    forall o | o in n.lists ensures o in s.lists && n.lists[o] == s.lists[o] && OwnedBy(n, o) {
      assert OwnedBy(s, o);
    }
    forall b | 0 < b < |h| ensures n.owner[b] in n.lists && b in n.lists[n.owner[b]] {
      NamedBlock(h, s, dir, b);
    }
    hide OwnedBy, Named;
  }

  lemma NamedBlock(h: seq<Hdr>, s: Store, dir: seq<Spec.Slot>, b: BlockId)
    requires StoreOk(h, s) && 0 < b < |h|
    requires forall o | o in s.lists && o !in Named(s, dir).lists :: s.lists[o] == []
    ensures s.owner[b] in Named(s, dir).lists && b in Named(s, dir).lists[s.owner[b]]
  {
    hide Linked, OwnedBy, Spec.InDir;
    assert b in s.lists[s.owner[b]];
  }

  lemma SlotEntryOk(h: seq<Hdr>, s: Store, c: State, a: Spec.Afs, k: nat)
    requires InUse(h, s, c, a) && k < |a.dir| && a.dir[k].Used?
    ensures var dirs := s.lists[DirChain];
            && DirShape(c.ents, dirs) && k < ENTRIES * (|dirs| + 1)
            && FileChain(a.dir[k].fid) in s.lists
            && EntryOk(EntryAt(c.ents, dirs, k), s.lists[FileChain(a.dir[k].fid)])
            && EntryAt(c.ents, dirs, k).first != 0
  {
    var dirs, f := s.lists[DirChain], a.dir[k].fid;
    var e := EntryAt(c.ents, dirs, k);
    assert EntryRep(e, a.dir[k], s.lists, a.inodes);
    assert InodeRep(c.data, s.lists[FileChain(f)], a.inodes[f]);
    assert Spec.GoodInode(a.inodes[f]);
    assert NameEnds(e.name, |a.dir[k].name|);
    hide StoreOk, FilesRep, DirRep, TabRep, Full;
  }

  lemma RekeySlots(s: Store, dir: seq<Spec.Slot>, k: nat)
    requires AtRest(s.lists, dir) && UniqueFids(dir) && k < |dir|
    ensures FileChain(k) in Rekey(s, dir).lists <==> dir[k].Used?
    ensures dir[k].Used? ==> Rekey(s, dir).lists[FileChain(k)] == s.lists[FileChain(dir[k].fid)]
  {
    RekeyLists(s, dir);
    if dir[k].Used? {
      assert SlotOwner(dir, FileChain(dir[k].fid)) == FileChain(k);
    }
  }

  /** Without orphan blocks, the lists by slot are what the checker looks for. */
  lemma RestWitness(h: seq<Hdr>, s: Store, c: State, a: Spec.Afs)
    requires InUse(h, s, c, a) && NoOrphanBlocks(a)
    ensures ConsistentImage(ImageOf(h, s.lists, c.ents))
  {
    hide StoreOk, Linked, EntryOk, Rep, Rekey, DirShape;
    NamedOk(h, s, c, a);
    var n := Named(s, a.dir);
    RekeyOk(h, n, a.dir);
    RekeyHeads(n, a.dir);
    RekeyOwners(n, a.dir);
    DirFacts(h, s, c, a);
    forall k {:trigger FileChain(k)} | 0 <= k < |a.dir|
      ensures var e, r := EntryAt(c.ents, s.lists[DirChain], k), Rekey(n, a.dir);
              if e.first == 0 then FileChain(k) !in r.lists
                 else FileChain(k) in r.lists && EntryOk(e, r.lists[FileChain(k)])
    {
      SlotOk(h, s, c, a, n, k);
    }
    hide Named, AtRest, UniqueFids;
    assert Witness(ImageOf(h, s.lists, c.ents), Rekey(n, a.dir));
  }

  lemma DirFacts(h: seq<Hdr>, s: Store, c: State, a: Spec.Afs)
    requires InUse(h, s, c, a)
    ensures FreeList in s.lists && DirChain in s.lists && DirShape(c.ents, s.lists[DirChain])
    ensures |a.dir| == ENTRIES * (|s.lists[DirChain]| + 1)
  {
  }

  lemma RekeyHeads(s: Store, dir: seq<Spec.Slot>)
    requires AtRest(s.lists, dir) && UniqueFids(dir)
    ensures var r := Rekey(s, dir).lists;
            FreeList in r && DirChain in r && r[FreeList] == s.lists[FreeList] && r[DirChain] == s.lists[DirChain]
  {
    RekeyLists(s, dir);
    assert SlotOwner(dir, FreeList) == FreeList && SlotOwner(dir, DirChain) == DirChain;
  }

  lemma RekeyOwners(s: Store, dir: seq<Spec.Slot>)
    requires AtRest(s.lists, dir) && UniqueFids(dir)
    ensures forall o | o in Rekey(s, dir).lists :: o == FreeList || o == DirChain || (o.FileChain? && o.fid < |dir|)
  {
    RekeyLists(s, dir);
  }

  lemma SlotOk(h: seq<Hdr>, s: Store, c: State, a: Spec.Afs, n: Store, k: nat)
    requires InUse(h, s, c, a) && k < |a.dir| && n == Named(s, a.dir) && AtRest(n.lists, a.dir) && UniqueFids(a.dir)
    ensures DirShape(c.ents, s.lists[DirChain]) && k < ENTRIES * (|s.lists[DirChain]| + 1)
    ensures var e, r := EntryAt(c.ents, s.lists[DirChain], k), Rekey(n, a.dir);
            if e.first == 0 then FileChain(k) !in r.lists
               else FileChain(k) in r.lists && EntryOk(e, r.lists[FileChain(k)])
  {
    RekeySlots(n, a.dir, k);
    assert EntryRep(EntryAt(c.ents, s.lists[DirChain], k), a.dir[k], s.lists, a.inodes);
    if a.dir[k].Used? {
      SlotEntryOk(h, s, c, a, k);
    }
    hide StoreOk, FilesRep, TabRep, Rekey, EntryOk, Spec.Inv;
  }

  /** A witness has no list that the file system does not have under another name. */
  lemma WitnessList(h: seq<Hdr>, s: Store, c: State, a: Spec.Afs, w: Store, o: Owner) returns (p: Owner)
    requires InUse(h, s, c, a) && Witness(ImageOf(h, s.lists, c.ents), w) && o in w.lists && w.lists[o] != []
    ensures p in s.lists && s.lists[p] == w.lists[o] && (p.FileChain? ==> Spec.InDir(a.dir, p.fid))
  {
    var dirs := s.lists[DirChain];
    ListUnique(h, dirs, DirTag, w.lists[DirChain], DirTag);
    if o == DirChain {
      p := o;
    } else if o == FreeList {
      ListUnique(h, s.lists[o], FreeTag, w.lists[o], FreeTag);
      p := o;
    } else {
      var k := o.fid;
      assert FileChain(k) in w.lists;
      assert EntryRep(EntryAt(c.ents, dirs, k), a.dir[k], s.lists, a.inodes);
      SlotEntryOk(h, s, c, a, k);
      p := FileChain(a.dir[k].fid);
      ListUnique(h, s.lists[p], FileTag, w.lists[o], FileTag);
    }
  }

  /** The checker accepts the image of a file system in use exactly if no block
      belongs to a file that is open but unlinked. */
  lemma AcceptedIff(h: seq<Hdr>, s: Store, c: State, a: Spec.Afs)
    requires InUse(h, s, c, a)
    ensures ConsistentImage(ImageOf(h, s.lists, c.ents)) <==> NoOrphanBlocks(a)
  {
    if NoOrphanBlocks(a) {
      RestWitness(h, s, c, a);
    }
    if ConsistentImage(ImageOf(h, s.lists, c.ents)) {
      var w :| Witness(ImageOf(h, s.lists, c.ents), w);
      forall f | f in a.inodes && !Spec.InDir(a.dir, f) ensures a.inodes[f].blocks == 0 {
        OrphanEmpty(h, s, c, a, w, f);
      }
    }
  }

  lemma HeadInRange(h: seq<Hdr>, s: Store, o: Owner)
    requires StoreOk(h, s) && o in s.lists && s.lists[o] != []
    ensures 0 < s.lists[o][0] < |h|
  {
    assert OwnedBy(s, o);
  }

  lemma OneOwner(h: seq<Hdr>, s: Store, o: Owner, p: Owner, b: BlockId)
    requires StoreOk(h, s) && o in s.lists && p in s.lists && b in s.lists[o] && b in s.lists[p]
    ensures o == p
  {
    assert OwnedBy(s, o) && OwnedBy(s, p);
  }

  lemma OrphanEmpty(h: seq<Hdr>, s: Store, c: State, a: Spec.Afs, w: Store, f: nat)
    requires InUse(h, s, c, a) && Witness(ImageOf(h, s.lists, c.ents), w) && f in a.inodes && !Spec.InDir(a.dir, f)
    ensures a.inodes[f].blocks == 0
  {
    assert InodeRep(c.data, s.lists[FileChain(f)], a.inodes[f]);
    var l := s.lists[FileChain(f)];
    if l != [] {
      HeadInRange(h, s, FileChain(f));
      var p := WitnessList(h, s, c, a, w, w.owner[l[0]]);
      OneOwner(h, s, FileChain(f), p, l[0]);
    }
  }

  // ----- what an image stands for when it is mounted -----

  lemma {:induction false} CStrPrefix(field: string, m: nat)
    requires m < |field| && NulAfter(field, m)
    ensures CStr(field) == field[..m]
  {
    if m > 0 {
      CStrPrefix(field[1..], m - 1);
    }
  }

  ghost predicate NulAfter(field: string, m: nat) {
    m < |field| && field[m] == '\0' && forall j | 0 <= j < m :: field[j] != '\0'
  }

  /** A field the checker accepts is a good name, padded. */
  lemma NameFieldOk(field: NameField)
    requires NameOk(field)
    ensures Spec.GoodName(CStr(field)) && PadName(CStr(field)) == field
  {
    var m :| 0 < m < |field| && NameEnds(field, m);
    CStrPrefix(field, m);
    assert field == field[..m] + field[m..];
  }

  ghost predicate UniqueNames(ents: seq<seq<DirEntry>>, dirs: seq<BlockId>)
    requires DirShape(ents, dirs)
  {
    forall j, k | 0 <= j < k < ENTRIES * (|dirs| + 1) ::
      EntryAt(ents, dirs, j).first != 0 && EntryAt(ents, dirs, k).first != 0 ==>
        CStr(EntryAt(ents, dirs, j).name) != CStr(EntryAt(ents, dirs, k).name)
  }

  /** An image mounted with this witness: consistent, with different names, and
      with sizes that fit their 32-bit field. */
  ghost predicate Mountable(img: Image, data: seq<seq<Byte>>, w: Store) {
    && Witness(img, w) && UniqueNames(img.ents, w.lists[DirChain])
    && Full(data) && |data| == |img.hdr| == |img.ents| <= EMPTY_FILE_BLOCK
    && forall k | 0 <= k < ENTRIES * (|w.lists[DirChain]| + 1) ::
         EntryAt(img.ents, w.lists[DirChain], k).first != 0 ==>
           EntryAt(img.ents, w.lists[DirChain], k).size <= Spec.SFS_MAX_FILE_SIZE
  }

  ghost function SlotOfEntry(e: DirEntry, k: nat): Spec.Slot {
    if e.first == 0 then Spec.Empty else Spec.Used(CStr(e.name), k)
  }

  ghost function InodeOf(data: seq<seq<Byte>>, e: DirEntry, c: seq<BlockId>): Spec.Inode
    requires Full(data) && InRange(c, |data|) && e.size <= BLOCK_DATA_SIZE * |c|
  {
    FileBytesLen(data, c);
    Spec.Inode(FileBytes(data, c)[..e.size], |c|)
  }

  lemma MountSlot(img: Image, data: seq<seq<Byte>>, w: Store, k: nat)
    requires Mountable(img, data, w) && k < ENTRIES * (|w.lists[DirChain]| + 1)
    requires EntryAt(img.ents, w.lists[DirChain], k).first != 0
    ensures FileChain(k) in w.lists && EntryOk(EntryAt(img.ents, w.lists[DirChain], k), w.lists[FileChain(k)])
    ensures var e, c := EntryAt(img.ents, w.lists[DirChain], k), w.lists[FileChain(k)];
            InRange(c, |data|) && e.size <= BLOCK_DATA_SIZE * |c|
  {
    assert FileChain(k) == FileChain(k);
    hide EntryAt, UniqueNames;
  }

  ghost function MountedState(img: Image, data: seq<seq<Byte>>, w: Store): Spec.Afs
    requires Mountable(img, data, w)
  {
    var dirs := w.lists[DirChain];
    var n := ENTRIES * (|dirs| + 1);
    Spec.Afs(true,
        seq(n, k requires 0 <= k < n => SlotOfEntry(EntryAt(img.ents, dirs, k), k)),
        map k: nat | k < n && EntryAt(img.ents, dirs, k).first != 0 ::
            (MountSlot(img, data, w, k); InodeOf(data, EntryAt(img.ents, dirs, k), w.lists[FileChain(k)])),
        seq(Spec.OPEN_FILE_LIMIT, _ => Spec.Shut), |w.lists[FreeList]|, n)
  }

  ghost function MountedTables(img: Image, data: seq<seq<Byte>>): State {
    State(data, img.ents, seq(LIMIT, _ => NoFile), seq(LIMIT, _ => NoDesc), seq(LIMIT, _ => 0), seq(LIMIT, _ => 0))
  }

  lemma MountedAt(img: Image, data: seq<seq<Byte>>, w: Store, k: nat)
    requires Mountable(img, data, w) && k < ENTRIES * (|w.lists[DirChain]| + 1)
    ensures var m, e := MountedState(img, data, w), EntryAt(img.ents, w.lists[DirChain], k);
            && m.dir[k] == SlotOfEntry(e, k) && (k in m.inodes <==> e.first != 0)
            && (e.first != 0 ==>
                  && FileChain(k) in w.lists && EntryOk(e, w.lists[FileChain(k)])
                  && InRange(w.lists[FileChain(k)], |data|)
                  && e.size <= BLOCK_DATA_SIZE * |w.lists[FileChain(k)]|
                  && m.inodes[k] == InodeOf(data, e, w.lists[FileChain(k)]))
  {
    var e := EntryAt(img.ents, w.lists[DirChain], k);
    if e.first != 0 {
      MountSlot(img, data, w, k);
    }
    hide EntryOk, InodeOf, UniqueNames, Witness;
  }

  lemma MountedFile(data: seq<seq<Byte>>, e: DirEntry, k: nat, l: Lists, m: Spec.Afs)
    requires Full(data) && FileChain(k) in l && EntryOk(e, l[FileChain(k)]) && InRange(l[FileChain(k)], |data|)
             && |data| <= EMPTY_FILE_BLOCK
    requires e.first != 0 && e.size <= Spec.SFS_MAX_FILE_SIZE && e.size <= BLOCK_DATA_SIZE * |l[FileChain(k)]|
    requires k in m.inodes && m.inodes[k] == InodeOf(data, e, l[FileChain(k)])
    ensures EntryRep(e, SlotOfEntry(e, k), l, m.inodes) && InodeRep(data, l[FileChain(k)], m.inodes[k])
            && Spec.GoodInode(m.inodes[k])
  {
    NameFieldOk(e.name);
    hide NameOk, PadName, CStr, Spec.GoodName;
    FileBytesLen(data, l[FileChain(k)]);
    hide FileBytes, Full;
  }

  lemma MountedSlot(img: Image, data: seq<seq<Byte>>, w: Store, k: nat)
    requires Mountable(img, data, w) && k < ENTRIES * (|w.lists[DirChain]| + 1)
    ensures var m, e := MountedState(img, data, w), EntryAt(img.ents, w.lists[DirChain], k);
            && EntryRep(e, m.dir[k], w.lists, m.inodes)
            && (k in m.inodes ==>
                 FileChain(k) in w.lists && InodeRep(data, w.lists[FileChain(k)], m.inodes[k])
                 && Spec.GoodInode(m.inodes[k]) && m.dir[k] == Spec.Used(CStr(e.name), k))
  {
    MountedAt(img, data, w, k);
    var m, e := MountedState(img, data, w), EntryAt(img.ents, w.lists[DirChain], k);
    assert e.first != 0 ==> e.size <= Spec.SFS_MAX_FILE_SIZE;
    assert |data| <= EMPTY_FILE_BLOCK && Full(data);
    hide MountedState, Mountable, InodeOf, EntryOk, Full, InodeRep, Spec.GoodInode;
    if e.first != 0 {
      MountedFile(data, e, k, w.lists, m);
    }
  }

  lemma MountShape(img: Image, data: seq<seq<Byte>>, w: Store)
    requires Mountable(img, data, w)
    ensures FreeList in w.lists && DirChain in w.lists && DirShape(img.ents, w.lists[DirChain]) && StoreOk(img.hdr, w)
            && Full(data)
    ensures forall o | o in w.lists ::
              o == FreeList || o == DirChain || (o.FileChain? && o.fid < ENTRIES * (|w.lists[DirChain]| + 1))
    ensures var m := MountedState(img, data, w);
            && |m.dir| == m.next == ENTRIES * (|w.lists[DirChain]| + 1) && m.avail == |w.lists[FreeList]| && m.mounted
            && m.fds == seq(LIMIT, _ => Spec.Shut) && forall f | f in m.inodes :: f < m.next
    ensures forall k | 0 <= k < ENTRIES * (|w.lists[DirChain]| + 1)
            && EntryAt(img.ents, w.lists[DirChain], k).first == 0 :: FileChain(k) !in w.lists
  {
    forall o | o in w.lists ensures o == FreeList || o == DirChain
           || (o.FileChain? && o.fid < ENTRIES * (|w.lists[DirChain]| + 1)) {
      if o.FileChain? {
        assert FileChain(o.fid) in w.lists;
      }
    }
    forall k | 0 <= k < ENTRIES * (|w.lists[DirChain]| + 1) && EntryAt(img.ents, w.lists[DirChain], k).first == 0
           ensures FileChain(k) !in w.lists {
      assert FileChain(k) == FileChain(k);
    }
    hide EntryOk, StoreOk, InodeOf, UniqueNames;
  }

  lemma MountedFiles(img: Image, data: seq<seq<Byte>>, w: Store)
    requires Mountable(img, data, w)
    ensures FilesRep(data, w.lists, MountedState(img, data, w)) && DirRep(img.ents, w.lists, MountedState(img, data, w))
  {
    hide InodeRep, EntryRep, Full, Spec.GoodInode, EntryOk, EntryAt, StoreOk, DirShape, Mountable, MountedState;
    MountShape(img, data, w);
    var m := MountedState(img, data, w);
    forall k | 0 <= k < |m.dir| ensures EntryRep(EntryAt(img.ents, w.lists[DirChain], k), m.dir[k], w.lists, m.inodes) {
      MountedSlot(img, data, w, k);
    }
    forall f | f in m.inodes ensures FileChain(f) in w.lists && InodeRep(data, w.lists[FileChain(f)], m.inodes[f]) {
      MountedSlot(img, data, w, f);
    }
    forall o | o in w.lists ensures o == FreeList || o == DirChain || (o.FileChain? && o.fid in m.inodes) {
      if o.FileChain? {
        MountedAt(img, data, w, o.fid);
      }
    }
  }

  lemma MountedNames(img: Image, data: seq<seq<Byte>>, w: Store)
    requires Mountable(img, data, w)
    ensures Spec.DirInv(MountedState(img, data, w).dir, MountedState(img, data, w).inodes)
  {
    hide InodeRep, Full, EntryOk, EntryAt, Witness, StoreOk, DirShape, MountedState, EntryData, Spec.GoodName,
         Spec.GoodInode;
    MountShape(img, data, w);
    var m := MountedState(img, data, w);
    forall k | 0 <= k < |m.dir|
      ensures var e := EntryAt(img.ents, w.lists[DirChain], k);
              m.dir[k] == SlotOfEntry(e, k) && (m.dir[k].Used? ==> Spec.GoodName(m.dir[k].name) && k in m.inodes)
    {
      MountedAt(img, data, w, k);
      MountedSlot(img, data, w, k);
    }
  }

  lemma MountedInv(img: Image, data: seq<seq<Byte>>, w: Store)
    requires Mountable(img, data, w)
    ensures Spec.Inv(MountedState(img, data, w))
  {
    hide InodeRep, Full, Spec.GoodInode, EntryOk, EntryAt, StoreOk, DirShape, Mountable, MountedState, Spec.DirInv,
         CStr, EntryRep;
    MountShape(img, data, w);
    MountedNames(img, data, w);
    var m := MountedState(img, data, w);
    forall f | f in m.inodes ensures Spec.GoodInode(m.inodes[f]) && Spec.InDir(m.dir, f) {
      MountedSlot(img, data, w, f);
      assert m.dir[f].Used? && m.dir[f].fid == f;
    }
  }

  lemma MountedTab(img: Image, data: seq<seq<Byte>>, w: Store)
    requires Mountable(img, data, w)
    ensures var c := MountedTables(img, data); TabRep(c.files, c.descs, c.fid, c.at, w.lists,
              MountedState(img, data, w))
  {
    hide MountedState, Mountable, StoreOk, EntryAt, Full, DirShape;
    MountShape(img, data, w);
  }

  /** Mounting a consistent image with different names gives a file system with
      nothing open, one file for each occupied slot. */
  lemma MountRep(img: Image, data: seq<seq<Byte>>, w: Store)
    requires Mountable(img, data, w)
    ensures Rep(MountedTables(img, data), w.lists, MountedState(img, data, w)) && StoreOk(img.hdr, w)
  {
    hide MountedState, FilesRep, DirRep, Spec.Inv, TabRep;
    MountedFiles(img, data, w);
    MountedInv(img, data, w);
    MountedTab(img, data, w);
  }

  // ----- unmounting and mounting again -----

  /** The same names in the same slots, with the same bytes and blocks. */
  ghost predicate SameFiles(a: Spec.Afs, b: Spec.Afs) {
    && |a.dir| == |b.dir| && a.avail == b.avail
    && forall k | 0 <= k < |a.dir| :: SameSlot(a.dir[k], a.inodes, b.dir[k], b.inodes)
  }

  ghost predicate SameSlot(s: Spec.Slot, i: map<nat, Spec.Inode>, t: Spec.Slot, j: map<nat, Spec.Inode>) {
    match s
    case Empty => t.Empty?
    case Used(name, f) => t.Used? && t.name == name && f in i && t.fid in j && i[f] == j[t.fid]
  }

  lemma WitnessHeadLists(h: seq<Hdr>, s: Store, c: State, a: Spec.Afs, w: Store)
    requires InUse(h, s, c, a) && Witness(ImageOf(h, s.lists, c.ents), w)
    ensures w.lists[FreeList] == s.lists[FreeList] && w.lists[DirChain] == s.lists[DirChain]
            && |a.dir| == ENTRIES * (|w.lists[DirChain]| + 1) && a.avail == |w.lists[FreeList]|
  {
    ListUnique(h, s.lists[DirChain], DirTag, w.lists[DirChain], DirTag);
    ListUnique(h, s.lists[FreeList], FreeTag, w.lists[FreeList], FreeTag);
    hide TabRep, Linked, InodeRep;
  }

  /** The chain of a slot is the same for the checker and for the file system. */
  lemma WitnessSlotList(h: seq<Hdr>, s: Store, c: State, a: Spec.Afs, w: Store, k: nat)
    requires InUse(h, s, c, a) && Witness(ImageOf(h, s.lists, c.ents), w) && k < |a.dir| && a.dir[k].Used?
    ensures FileChain(k) in w.lists && FileChain(a.dir[k].fid) in s.lists
            && w.lists[FileChain(k)] == s.lists[FileChain(a.dir[k].fid)]
  {
    WitnessHeadLists(h, s, c, a, w);
    SlotEntryOk(h, s, c, a, k);
    hide Rep, NameOk, EntryAt;
    assert FileChain(k) in w.lists;
    var f := FileChain(a.dir[k].fid);
    ListUnique(h, s.lists[f], FileTag, w.lists[FileChain(k)], FileTag);
  }

  lemma RemountSlot(h: seq<Hdr>, s: Store, c: State, a: Spec.Afs, w: Store, k: nat)
    requires InUse(h, s, c, a) && Mountable(ImageOf(h, s.lists, c.ents), c.data, w) && k < |a.dir|
    ensures var m := MountedState(ImageOf(h, s.lists, c.ents), c.data, w);
            |m.dir| == |a.dir| && SameSlot(a.dir[k], a.inodes, m.dir[k], m.inodes)
  {
    hide StoreOk, TabRep, Spec.Inv, EntryOk;
    var img := ImageOf(h, s.lists, c.ents);
    WitnessHeadLists(h, s, c, a, w);
    MountShape(img, c.data, w);
    MountedAt(img, c.data, w, k);
    var e := EntryAt(c.ents, s.lists[DirChain], k);
    assert EntryRep(e, a.dir[k], s.lists, a.inodes);
    if a.dir[k].Used? {
      WitnessSlotList(h, s, c, a, w, k);
      SlotEntryOk(h, s, c, a, k);
      CStrPad(a.dir[k].name);
      assert InodeRep(c.data, s.lists[FileChain(a.dir[k].fid)], a.inodes[a.dir[k].fid]);
    }
    hide MountedState, Mountable, FilesRep, DirRep, CStr, PadName, FileBytes, Full, Spec.GoodName;
  }

  /** A file system with no orphan blocks can be mounted again, and is the same. */
  lemma RemountSame(h: seq<Hdr>, s: Store, c: State, a: Spec.Afs, w: Store)
    requires InUse(h, s, c, a) && Witness(ImageOf(h, s.lists, c.ents), w)
    ensures Mountable(ImageOf(h, s.lists, c.ents), c.data, w)
            && SameFiles(a, MountedState(ImageOf(h, s.lists, c.ents), c.data, w))
  {
    hide SameSlot, MountedState;
    RemountMountable(h, s, c, a, w);
    hide InUse, Mountable, Witness, ImageOf;
    var m := MountedState(ImageOf(h, s.lists, c.ents), c.data, w);
    forall k | 0 <= k < |a.dir| ensures |m.dir| == |a.dir| && SameSlot(a.dir[k], a.inodes, m.dir[k], m.inodes) {
      RemountSlot(h, s, c, a, w, k);
    }
    WitnessHeadLists(h, s, c, a, w);
    MountShape(ImageOf(h, s.lists, c.ents), c.data, w);
  }

  lemma RemountMountable(h: seq<Hdr>, s: Store, c: State, a: Spec.Afs, w: Store)
    requires InUse(h, s, c, a) && Witness(ImageOf(h, s.lists, c.ents), w)
    ensures Mountable(ImageOf(h, s.lists, c.ents), c.data, w)
  {
    WitnessHeadLists(h, s, c, a, w);
    var dirs := s.lists[DirChain];
    hide StoreOk, TabRep, EntryOk, PadName, Spec.GoodName, CStr;
    forall k | 0 <= k < |a.dir| && EntryAt(c.ents, dirs, k).first != 0
      ensures a.dir[k].Used? && CStr(EntryAt(c.ents, dirs, k).name) == a.dir[k].name
              && EntryAt(c.ents, dirs, k).size <= Spec.SFS_MAX_FILE_SIZE
    {
      assert EntryRep(EntryAt(c.ents, dirs, k), a.dir[k], s.lists, a.inodes);
      assert Spec.GoodName(a.dir[k].name) && Spec.GoodInode(a.inodes[a.dir[k].fid]);
      NameBack(a.dir[k].name);
    }
    hide EntryAt, Witness, InodeRep, EntryRep;
  }

  lemma NameBack(name: Spec.CString)
    requires Spec.GoodName(name)
    ensures CStr(PadName(name)) == name
  {
    CStrPad(name);
  }
}
