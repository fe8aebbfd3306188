/** The abstract file system: named slots, byte-string files and descriptors.
    Each operation is a function of the abstract state; SfsDisk proves that the
    block-level code computes exactly these functions. */
module SfsSpec {
  import opened SfsContents

  const OPEN_FILE_LIMIT: nat := 32
  const DIR_ENTRIES_PER_BLOCK: nat := 15
  const SFS_FILE_NAME_SIZE_LIMIT: nat := 24
  const SFS_MAX_FILE_SIZE: nat := 0xFFFF_FFFF

  const ENOENT := 2
  const EBADF := 9
  const EBUSY := 16
  const EINVAL := 22
  const EMFILE := 24
  const EFBIG := 27
  const ENOSPC := 28
  const ENAMETOOLONG := 36
  const ENOMEDIUM := 123

  /** A C string without its terminator. */
  type CString = s: string | '\0' !in s

  datatype Slot = Empty | Used(name: CString, fid: nat)

  /** A file's bytes and the number of blocks it owns. */
  datatype Inode = Inode(data: seq<Byte>, blocks: nat)

  datatype Ofd = Shut | At(fid: nat, pos: nat)

  /** fid numbers name files for their whole life, beyond renames and unlinking;
      next is the first unused one.  avail counts the free blocks. */
  datatype Afs = Afs(mounted: bool, dir: seq<Slot>, inodes: map<nat, Inode>, fds: seq<Ofd>, avail: nat, next: nat)

  /** Blocks for size bytes: the least b with size <= 500*b. */
  function BlocksFor(size: nat): (b: nat)
    ensures size <= BLOCK_DATA_SIZE * b && (b > 0 ==> BLOCK_DATA_SIZE * (b - 1) < size)
  {
    (size + BLOCK_DATA_SIZE - 1) / BLOCK_DATA_SIZE
  }

  // ----- well-formed abstract states -----

  ghost predicate GoodName(name: string) {
    name != "" && |name| < SFS_FILE_NAME_SIZE_LIMIT && '\0' !in name
  }

  /** An empty file owns no block, or one in images of the older format. */
  ghost predicate GoodInode(ino: Inode) {
    && |ino.data| <= SFS_MAX_FILE_SIZE
    && if ino.data == [] then ino.blocks <= 1 else ino.blocks == BlocksFor(|ino.data|)
  }

  ghost predicate InDir(dir: seq<Slot>, fid: nat) {
    exists k | 0 <= k < |dir| :: dir[k].Used? && dir[k].fid == fid
  }

  ghost predicate IsOpen(fds: seq<Ofd>, fid: nat) {
    exists i | 0 <= i < |fds| :: fds[i].At? && fds[i].fid == fid
  }

  ghost predicate DirInv(dir: seq<Slot>, inodes: map<nat, Inode>) {
    && (forall k | 0 <= k < |dir| :: dir[k].Used? ==> GoodName(dir[k].name) && dir[k].fid in inodes)
    && (forall j, k | 0 <= j < k < |dir| :: dir[j].Used? && dir[k].Used? ==>
          dir[j].name != dir[k].name && dir[j].fid != dir[k].fid)
  }

  ghost predicate FdInv(fds: seq<Ofd>, inodes: map<nat, Inode>) {
    && |fds| == OPEN_FILE_LIMIT
    && forall i | 0 <= i < |fds| :: fds[i].At? ==> fds[i].fid in inodes && fds[i].pos <= |inodes[fds[i].fid].data|
  }

  /** Names are unique, positions lie inside their files, and every file is
      either in the directory or held open. */
  ghost predicate Inv(a: Afs) {
    && DirInv(a.dir, a.inodes)
    && FdInv(a.fds, a.inodes)
    && (forall f | f in a.inodes :: f < a.next && GoodInode(a.inodes[f]) && (InDir(a.dir, f) || IsOpen(a.fds, f)))
    && (!a.mounted ==> forall i | 0 <= i < |a.fds| :: a.fds[i].Shut?)
  }

  // ----- searching -----

  /** First slot holding name, or |dir|. */
  function Find(dir: seq<Slot>, name: CString): (k: nat)
    ensures k <= |dir|
    ensures k < |dir| ==> dir[k].Used? && dir[k].name == name
    ensures forall j | 0 <= j < k :: dir[j].Used? ==> dir[j].name != name
  {
    if dir == [] then 0
    else if dir[|dir| - 1].Used? && dir[|dir| - 1].name == name && Find(dir[..|dir| - 1], name) == |dir| - 1
            then |dir| - 1
    else if Find(dir[..|dir| - 1], name) == |dir| - 1 then |dir|
    else Find(dir[..|dir| - 1], name)
  }

  /** First unused slot, or |dir|. */
  function FirstEmpty(dir: seq<Slot>): (k: nat)
    ensures k <= |dir|
    ensures k < |dir| ==> dir[k].Empty?
    ensures forall j | 0 <= j < k :: dir[j].Used?
  {
    if dir == [] then 0
    else var k := FirstEmpty(dir[..|dir| - 1]);
         if k == |dir| - 1 && dir[k].Used? then |dir| else k
  }

  /** Lowest free descriptor, or |fds|. */
  function FreeFd(fds: seq<Ofd>): (i: nat)
    ensures i <= |fds|
    ensures i < |fds| ==> fds[i].Shut?
    ensures forall j | 0 <= j < i :: fds[j].At?
  {
    if fds == [] then 0
    else var i := FreeFd(fds[..|fds| - 1]);
         if i == |fds| - 1 && fds[i].At? then |fds| else i
  }

  predicate ValidFd(a: Afs, fd: int) {
    0 <= fd < |a.fds| && a.fds[fd].At?
  }

  // ----- operations -----

  function NameError(a: Afs, name: CString): (e: int)
    ensures e <= 0
  {
    if name == "" then -EINVAL
    else if |name| + 1 > SFS_FILE_NAME_SIZE_LIMIT then -ENAMETOOLONG
    else if !a.mounted then -ENOMEDIUM
    else 0
  }

  /** The file disappears with its blocks when nothing refers to it any more. */
  ghost function Release(a: Afs, f: nat): Afs
    requires f in a.inodes
  {
    if InDir(a.dir, f) || IsOpen(a.fds, f) then a
    else a.(inodes := a.inodes - {f}, avail := a.avail + a.inodes[f].blocks)
  }

  ghost function Unlink(a: Afs, k: nat): Afs
    requires k < |a.dir| && a.dir[k].Used? && a.dir[k].fid in a.inodes
  {
    Release(a.(dir := a.dir[k := Empty]), a.dir[k].fid)
  }

  ghost function Create(a: Afs, k: nat, name: CString, fd: nat): Afs
    requires k < |a.dir| && fd < |a.fds|
  {
    a.(dir := a.dir[k := Used(name, a.next)], inodes := a.inodes[a.next := Inode([], 0)],
       fds := a.fds[fd := At(a.next, 0)], next := a.next + 1)
  }

  /** One more directory block of empty slots. */
  ghost function Expand(a: Afs): Afs
    requires a.avail > 0
  {
    a.(dir := a.dir + seq(DIR_ENTRIES_PER_BLOCK, _ => Empty), avail := a.avail - 1)
  }

  ghost function Open(a: Afs, name: CString): (Afs, int) {
    if NameError(a, name) < 0 then (a, NameError(a, name))
    else
      var k, fd := Find(a.dir, name), FreeFd(a.fds);
      if fd == |a.fds| then (a, -EMFILE)
      else if k < |a.dir| then (a.(fds := a.fds[fd := At(a.dir[k].fid, 0)]), fd)
      else if FirstEmpty(a.dir) < |a.dir| then (Create(a, FirstEmpty(a.dir), name, fd), fd)
      else if a.avail == 0 then (a, -ENOSPC)
      else (Create(Expand(a), |a.dir|, name, fd), fd)
  }

  ghost function Close(a: Afs, fd: int): Afs
    requires Inv(a)
  {
    if !ValidFd(a, fd) then a
    else Release(a.(fds := a.fds[fd := Shut]), a.fds[fd].fid)
  }

  function Min(x: int, y: int): int {
    if x <= y then x else y
  }

  /** The bytes from the position on, at most len of them. */
  ghost function Read(a: Afs, fd: int, len: nat): (Afs, int, seq<Byte>)
    requires Inv(a)
  {
    if !ValidFd(a, fd) then (a, -EBADF, [])
    else
      var At(f, pos) := a.fds[fd];
      var n := Min(|a.inodes[f].data| - pos, len);
      (a.(fds := a.fds[fd := At(f, pos + n)]), n, a.inodes[f].data[pos..pos + n])
  }

  /** data with buf over it from pos, longer if buf reaches beyond its end. */
  function Overwrite(data: seq<Byte>, pos: nat, buf: seq<Byte>): seq<Byte>
    requires pos <= |data|
  {
    data[..pos] + buf + if pos + |buf| < |data| then data[pos + |buf|..] else []
  }

  /** All of buf or nothing. */
  ghost function Write(a: Afs, fd: int, buf: seq<Byte>): (Afs, int)
    requires Inv(a)
  {
    if !ValidFd(a, fd) then (a, -EBADF)
    else
      var At(f, pos) := a.fds[fd];
      var Inode(data, blocks) := a.inodes[f];
      var end := pos + |buf|;
      if end > SFS_MAX_FILE_SIZE then (a, -EFBIG)
      else if |buf| == 0 then (a, 0)
      else
        var blocks' := if BlocksFor(end) > blocks then BlocksFor(end) else blocks;
        if blocks' - blocks > a.avail then (a, -ENOSPC)
        else (a.(inodes := a.inodes[f := Inode(Overwrite(data, pos, buf), blocks')],
                 fds := a.fds[fd := At(f, end)],
                 avail := a.avail - (blocks' - blocks)), |buf|)
  }

  /** Every descriptor of file f is at most at length. */
  function Clamp(fds: seq<Ofd>, f: nat, length: nat): (r: seq<Ofd>)
    ensures |r| == |fds|
  {
    seq(|fds|, i requires 0 <= i < |fds| =>
      if fds[i].At? && fds[i].fid == f && fds[i].pos > length then At(f, length) else fds[i])
  }

  function Resize(data: seq<Byte>, length: nat): (r: seq<Byte>)
    ensures |r| == length
  {
    if length <= |data| then data[..length] else data + Zeros(length - |data|)
  }

  ghost function Truncate(a: Afs, fd: int, length: nat): (Afs, int)
    requires Inv(a)
  {
    if !ValidFd(a, fd) then (a, -EBADF)
    else if length > SFS_MAX_FILE_SIZE then (a, -EFBIG)
    else
      var f := a.fds[fd].fid;
      var Inode(data, blocks) := a.inodes[f];
      if length == |data| then (a, 0)
      else if BlocksFor(length) - blocks > a.avail then (a, -ENOSPC)
      else (a.(inodes := a.inodes[f := Inode(Resize(data, length), BlocksFor(length))],
               fds := Clamp(a.fds, f, length),
               avail := a.avail - (BlocksFor(length) - blocks)), 0)
  }

  ghost function Seek(a: Afs, fd: int, delta: int): (Afs, int)
    requires Inv(a)
  {
    if !ValidFd(a, fd) then (a, -EBADF)
    else
      var At(f, pos) := a.fds[fd];
      var to := if pos + delta < 0 then 0 else Min(pos + delta, |a.inodes[f].data|);
      (a.(fds := a.fds[fd := At(f, to)]), to)
  }

  ghost function Getpos(a: Afs, fd: int): int {
    if ValidFd(a, fd) then a.fds[fd].pos else -EBADF
  }

  ghost function Fstat(a: Afs, fd: int): int
    requires Inv(a)
  {
    if ValidFd(a, fd) then |a.inodes[a.fds[fd].fid].data| else -EBADF
  }

  ghost function Remove(a: Afs, name: CString): (Afs, int)
    requires Inv(a)
  {
    if NameError(a, name) < 0 then (a, NameError(a, name))
    else
      var k := Find(a.dir, name);
      if k == |a.dir| then (a, -ENOENT) else (Unlink(a, k), 0)
  }

  ghost function Rename(a: Afs, old_: CString, new_: CString): (Afs, int)
    requires Inv(a)
  {
    if old_ == "" || new_ == "" then (a, -EINVAL)
    else if |old_| + 1 > SFS_FILE_NAME_SIZE_LIMIT || |new_| + 1 > SFS_FILE_NAME_SIZE_LIMIT then (a, -ENAMETOOLONG)
    else if !a.mounted then (a, -ENOMEDIUM)
    else
      var j, k := Find(a.dir, old_), Find(a.dir, new_);
      if j == |a.dir| then (a, -ENOENT)
      else if old_ == new_ then (a, 0)
      else
        var b := if k < |a.dir| then Unlink(a, k) else a;
        (b.(dir := b.dir[j := Used(new_, a.dir[j].fid)]), 0)
  }

  /** First used slot from c on, or |dir|. */
  function NextUsed(dir: seq<Slot>, c: nat): (k: nat)
    ensures k < |dir| ==> c <= k && dir[k].Used?
    ensures forall j | c <= j < k && j < |dir| :: dir[j].Empty?
    ensures k >= |dir| ==> k == |dir|
    decreases |dir| - c
  {
    if c >= |dir| then |dir| else if dir[c].Used? then c else NextUsed(dir, c + 1)
  }

  /** The cookie is the first slot still to be reported; 0 starts a listing. */
  function List(a: Afs, cookie: nat, space: nat): (nat, int, CString) {
    if space == 0 then (0, -EINVAL, "")
    else if !a.mounted then (0, -ENOMEDIUM, "")
    else
      var k := NextUsed(a.dir, cookie);
      if k == |a.dir| then (0, 1, "")
      else if |a.dir[k].name| + 1 > space then (0, -ENAMETOOLONG, "")
      else (k + 1, 0, a.dir[k].name)
  }

  ghost function Unmount(a: Afs): (Afs, int) {
    if !a.mounted then (a, 0)
    else if exists i | 0 <= i < |a.fds| :: a.fds[i].At? then (a, -EBUSY)
    else (a.(mounted := false), 0)
  }

  /** A newly formatted image with avail free blocks. */
  function Fresh(avail: nat): Afs {
    Afs(true, seq(DIR_ENTRIES_PER_BLOCK, _ => Empty), map[], seq(OPEN_FILE_LIMIT, _ => Shut), avail, 0)
  }
}
