/** What the blocks and tables of a mounted image represent: the relation between
    the concrete state of SfsDisk and the abstract file system of SfsSpec. */
module SfsRep {
  import opened SfsChains
  import opened SfsContents
  import Spec = SfsSpec

  /** A live empty file without a data block has this in place of its first block. */
  const EMPTY_FILE_BLOCK: nat := 0xFFFF_FFFF
  const ENTRIES: nat := Spec.DIR_ENTRIES_PER_BLOCK
  const LIMIT: nat := Spec.OPEN_FILE_LIMIT

  /** The whole 24-character name field of an entry. */
  type NameField = s: string | |s| == Spec.SFS_FILE_NAME_SIZE_LIMIT witness Nuls(Spec.SFS_FILE_NAME_SIZE_LIMIT)

  /** first is 0 in an unused entry. */
  datatype DirEntry = DirEntry(first: BlockId, size: nat, name: NameField)

  /** A pointer to a directory entry: entry index of directory block `block`
      (0 for the superblock), or the private copy inside the open file. */
  datatype EntryRef = OnDisk(block: BlockId, index: nat) | Private

  /** A slot of openFileTable. */
  datatype OpenFile = NoFile | OpenFile(refCount: nat, unlinked: bool, diskFile: EntryRef, unlinkedFile: DirEntry)

  /** A slot of openFileDescTable; file is the index of its open file. */
  datatype Desc = NoDesc | Desc(file: nat, currPos: nat)

  // ----- names -----

  function Nuls(n: nat): (s: string)
    ensures |s| == n
  {
    seq(n, _ => '\0')
  }

  /** The 24-character field for a name. */
  function PadName(name: Spec.CString): (s: string)
    requires |name| < Spec.SFS_FILE_NAME_SIZE_LIMIT
    ensures |s| == Spec.SFS_FILE_NAME_SIZE_LIMIT
  {
    name + Nuls(Spec.SFS_FILE_NAME_SIZE_LIMIT - |name|)
  }

  /** The C string at the start of a field. */
  function CStr(s: string): (r: Spec.CString)
    ensures |r| <= |s|
  {
    if s == [] || s[0] == '\0' then [] else [s[0]] + CStr(s[1..])
  }

  lemma {:induction false} CStrStops(name: Spec.CString, rest: string)
    requires rest != [] && rest[0] == '\0'
    ensures CStr(name + rest) == name
  {
    if name == [] {
      assert name + rest == rest;
    } else {
      assert (name + rest)[1..] == name[1..] + rest;
      CStrStops(name[1..], rest);
    }
  }

  lemma CStrPad(name: Spec.CString)
    requires |name| < Spec.SFS_FILE_NAME_SIZE_LIMIT
    ensures CStr(PadName(name)) == name
  {
    CStrStops(name, Nuls(Spec.SFS_FILE_NAME_SIZE_LIMIT - |name|));
  }

  function ZeroEntry(): DirEntry {
    DirEntry(0, 0, Nuls(Spec.SFS_FILE_NAME_SIZE_LIMIT))
  }

  // ----- directory slots -----

  /** Block i of the directory: the superblock, then the directory chain. */
  function DirBlock(dirs: seq<BlockId>, i: nat): BlockId
    requires i <= |dirs|
  {
    if i == 0 then 0 else dirs[i - 1]
  }

  function SlotRef(dirs: seq<BlockId>, k: nat): EntryRef
    requires k < ENTRIES * (|dirs| + 1)
  {
    OnDisk(DirBlock(dirs, k / ENTRIES), k % ENTRIES)
  }

  ghost predicate DirShape(ents: seq<seq<DirEntry>>, dirs: seq<BlockId>) {
    && |ents| > 0 && InRange(dirs, |ents|) && NoDup(dirs)
    && forall b | 0 <= b < |ents| :: |ents[b]| == ENTRIES
  }

  function EntryAt(ents: seq<seq<DirEntry>>, dirs: seq<BlockId>, k: nat): DirEntry
    requires DirShape(ents, dirs) && k < ENTRIES * (|dirs| + 1)
  {
    ents[DirBlock(dirs, k / ENTRIES)][k % ENTRIES]
  }

  lemma SlotRefInjective(dirs: seq<BlockId>, n: nat, j: nat, k: nat)
    requires InRange(dirs, n) && NoDup(dirs)
    requires j < ENTRIES * (|dirs| + 1) && k < ENTRIES * (|dirs| + 1)
    requires SlotRef(dirs, j) == SlotRef(dirs, k)
    ensures j == k
  {
    assert forall i | 0 <= i < |dirs| :: dirs[i] != 0;
  }

  function PutEntry(ents: seq<seq<DirEntry>>, b: BlockId, j: nat, e: DirEntry): seq<seq<DirEntry>>
    requires b < |ents| && j < |ents[b]|
  {
    ents[b := ents[b][j := e]]
  }

  lemma PutEntryAt(ents: seq<seq<DirEntry>>, dirs: seq<BlockId>, k: nat, e: DirEntry, j: nat)
    requires DirShape(ents, dirs) && k < ENTRIES * (|dirs| + 1) && j < ENTRIES * (|dirs| + 1)
    ensures var r := SlotRef(dirs, k); var ents' := PutEntry(ents, r.block, r.index, e);
            && DirShape(ents', dirs)
            && EntryAt(ents', dirs, j) == if j == k then e else EntryAt(ents, dirs, j)
  {
    if j != k && SlotRef(dirs, j) == SlotRef(dirs, k) {
      SlotRefInjective(dirs, |ents|, j, k);
    }
  }

  // ----- representation -----

  /** The block and size fields of an entry agree with its chain and size. */
  ghost predicate EntryData(e: DirEntry, c: seq<BlockId>, size: nat) {
    && e.size == size
    && e.first == if c == [] then EMPTY_FILE_BLOCK else c[0]
  }

  ghost predicate EntryRep(e: DirEntry, s: Spec.Slot, l: Lists, inodes: map<nat, Spec.Inode>) {
    match s
    case Empty => e.first == 0
    case Used(name, f) =>
      && Spec.GoodName(name) && e.name == PadName(name)
      && f in inodes && FileChain(f) in l
      && EntryData(e, l[FileChain(f)], |inodes[f].data|)
  }

  ghost predicate DirRep(ents: seq<seq<DirEntry>>, l: Lists, a: Spec.Afs) {
    && DirChain in l && DirShape(ents, l[DirChain])
    && |a.dir| == ENTRIES * (|l[DirChain]| + 1)
    && forall k | 0 <= k < |a.dir| :: EntryRep(EntryAt(ents, l[DirChain], k), a.dir[k], l, a.inodes)
  }

  ghost predicate InodeRep(data: seq<seq<Byte>>, c: seq<BlockId>, ino: Spec.Inode) {
    && |c| == ino.blocks && InRange(c, |data|)
    && ino.data <= FileBytes(data, c)
  }

  /** The lists are the free list, the directory chain and one chain per file. */
  ghost predicate FilesRep(data: seq<seq<Byte>>, l: Lists, a: Spec.Afs) {
    && Full(data)
    && FreeList in l && DirChain in l && a.avail == |l[FreeList]|
    && (forall o | o in l :: o == FreeList || o == DirChain || (o.FileChain? && o.fid in a.inodes))
    && (forall f | f in a.inodes :: FileChain(f) in l && InodeRep(data, l[FileChain(f)], a.inodes[f]))
  }

  /** Number of descriptors of open file t. */
  function Refs(descs: seq<Desc>, t: nat): nat {
    if descs == [] then 0
    else Refs(descs[..|descs| - 1], t) + if descs[|descs| - 1].Desc? && descs[|descs| - 1].file == t then 1 else 0
  }

  ghost predicate DescRep(d: Desc, o: Spec.Ofd, files: seq<OpenFile>, fid: seq<nat>)
    requires |files| == |fid|
  {
    match d
    case NoDesc => o == Spec.Shut
    case Desc(t, p) => t < |files| && files[t].OpenFile? && o == Spec.At(fid[t], p)
  }

  /** x is the open-file entry of file f, with refs descriptors; k is f's slot if it has one. */
  ghost predicate OpenRep(x: OpenFile, refs: nat, f: nat, k: nat, l: Lists, a: Spec.Afs)
    requires DirChain in l && |a.dir| == ENTRIES * (|l[DirChain]| + 1)
  {
    && x.OpenFile? && x.refCount == refs > 0
    && f in a.inodes && FileChain(f) in l
    && if x.unlinked then
         x.diskFile == Private && !Spec.InDir(a.dir, f)
             && EntryData(x.unlinkedFile, l[FileChain(f)], |a.inodes[f].data|)
       else
         k < |a.dir| && a.dir[k].Used? && a.dir[k].fid == f && x.diskFile == SlotRef(l[DirChain], k)
  }

  /** fid[t] is the file of open file t, at[t] its slot. */
  ghost predicate TabRep(files: seq<OpenFile>, descs: seq<Desc>, fid: seq<nat>, at: seq<nat>, l: Lists, a: Spec.Afs) {
    && DirChain in l && |a.dir| == ENTRIES * (|l[DirChain]| + 1)
    && |files| == |descs| == |fid| == |at| == |a.fds| == LIMIT
    && (forall i | 0 <= i < LIMIT :: DescRep(descs[i], a.fds[i], files, fid))
    && (forall t | 0 <= t < LIMIT :: files[t].OpenFile? ==> OpenRep(files[t], Refs(descs, t), fid[t], at[t], l, a))
    && (forall t, u | 0 <= t < u < LIMIT :: files[t].OpenFile? && files[u].OpenFile? ==> fid[t] != fid[u])
  }

  // ----- reference counts -----

  lemma {:induction false} RefsUpdate(descs: seq<Desc>, i: nat, d: Desc, t: nat)
    requires i < |descs|
    ensures Refs(descs[i := d], t) + (if descs[i].Desc? && descs[i].file == t then 1 else 0)
         == Refs(descs, t) + (if d.Desc? && d.file == t then 1 else 0)
  {
    var n := |descs| - 1;
    if i < n {
      assert descs[i := d][..n] == descs[..n][i := d];
      RefsUpdate(descs[..n], i, d, t);
    } else {
      assert descs[i := d][..n] == descs[..n];
    }
  }

  /** A counted descriptor exists. */
  lemma {:induction false} RefsWitness(descs: seq<Desc>, t: nat) returns (i: nat)
    requires Refs(descs, t) > 0
    ensures i < |descs| && descs[i].Desc? && descs[i].file == t
  {
    var n := |descs| - 1;
    if descs[n].Desc? && descs[n].file == t {
      i := n;
    } else {
      i := RefsWitness(descs[..n], t);
    }
  }

  lemma {:induction false} RefsPositive(descs: seq<Desc>, i: nat)
    requires i < |descs| && descs[i].Desc?
    ensures Refs(descs, descs[i].file) > 0
  {
    if i < |descs| - 1 {
      RefsPositive(descs[..|descs| - 1], i);
    }
  }

  function Live(descs: seq<Desc>): nat {
    if descs == [] then 0 else Live(descs[..|descs| - 1]) + if descs[|descs| - 1].Desc? then 1 else 0
  }

  function RefsBelow(descs: seq<Desc>, n: nat): nat {
    if n == 0 then 0 else RefsBelow(descs, n - 1) + Refs(descs, n - 1)
  }

  lemma {:induction false} RefsBelowAppend(descs: seq<Desc>, n: nat)
    requires descs != []
    ensures var d := descs[|descs| - 1];
            RefsBelow(descs, n) == RefsBelow(descs[..|descs| - 1], n) + if d.Desc? && d.file < n then 1 else 0
  {
    if n > 0 {
      RefsBelowAppend(descs, n - 1);
    }
  }

  lemma {:induction false} RefsBelowEmpty(n: nat)
    ensures RefsBelow([], n) == 0
  {
    if n > 0 {
      RefsBelowEmpty(n - 1);
    }
  }

  lemma {:induction false} RefsAtMostLive(descs: seq<Desc>, n: nat)
    ensures RefsBelow(descs, n) <= Live(descs)
  {
    if descs == [] {
      RefsBelowEmpty(n);
    } else {
      RefsBelowAppend(descs, n);
      RefsAtMostLive(descs[..|descs| - 1], n);
    }
  }

  lemma {:induction false} RefsAtLeast(descs: seq<Desc>, n: nat)
    requires forall t | 0 <= t < n :: Refs(descs, t) > 0
    ensures RefsBelow(descs, n) >= n
  {
    if n > 0 {
      RefsAtLeast(descs, n - 1);
    }
  }

  lemma {:induction false} LiveBound(descs: seq<Desc>, i: nat)
    requires i < |descs| && descs[i].NoDesc?
    ensures Live(descs) < |descs|
  {
    var n := |descs| - 1;
    if i < n {
      LiveBound(descs[..n], i);
    } else {
      LiveAtMost(descs[..n]);
    }
  }

  lemma {:induction false} LiveAtMost(descs: seq<Desc>)
    ensures Live(descs) <= |descs|
  {
    if descs != [] {
      LiveAtMost(descs[..|descs| - 1]);
    }
  }

  /** While a descriptor is free, so is an open-file slot: each of those in use
      has a descriptor of its own. */
  lemma OpenFileSlotFree(files: seq<OpenFile>, descs: seq<Desc>, i: nat)
    requires |files| == |descs| && i < |descs| && descs[i].NoDesc?
    requires forall t | 0 <= t < |files| :: files[t].OpenFile? ==> Refs(descs, t) > 0
    ensures exists t | 0 <= t < |files| :: files[t].NoFile?
  {
    if forall t | 0 <= t < |files| :: files[t].OpenFile? {
      RefsAtLeast(descs, |files|);
      RefsAtMostLive(descs, |files|);
      LiveBound(descs, i);
    }
  }
}
