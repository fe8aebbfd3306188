/** What each call does to the files, the directory and the descriptors, said without
    the functions that compute it. */
module SfsEffects {
  import opened SfsContents
  import opened SfsSpec
  import Runs = SfsRuns

  predicate OpenFd(a: Afs, fd: int) {
    0 <= fd < |a.fds| && a.fds[fd].At?
  }

  /** Only the position of descriptor fd differs: it is p. */
  ghost predicate OnlyMoves(a: Afs, b: Afs, fd: int, p: nat)
    requires OpenFd(a, fd)
  {
    b == a.(fds := a.fds[fd := At(a.fds[fd].fid, p)])
  }

  // ----- reading and seeking -----

  /** As much as was asked for, or as there is: the bytes from the position on. */
  ghost predicate Reads(a: Afs, b: Afs, fd: int, len: nat, r: int, buf: seq<Byte>) {
    if !OpenFd(a, fd) then b == a && r == -EBADF && buf == []
    else
      && a.fds[fd].fid in a.inodes
      && var pos, data := a.fds[fd].pos, a.inodes[a.fds[fd].fid].data;
         && 0 <= r <= len && pos + r <= |data| && (r == len || pos + r == |data|)
         && buf == data[pos..pos + r] && OnlyMoves(a, b, fd, pos + r)
  }

  lemma ReadEffect(a: Afs, fd: int, len: nat)
    requires Inv(a)
    ensures var (b, r, buf) := Read(a, fd, len); Reads(a, b, fd, len, r, buf)
  {
    hide DirInv, InDir, IsOpen, GoodInode;
  }

  /** The position of the file that is nearest to where delta leads. */
  ghost predicate Seeks(a: Afs, b: Afs, fd: int, delta: int, r: int) {
    if !OpenFd(a, fd) then b == a && r == -EBADF
    else
      && a.fds[fd].fid in a.inodes
      && var goal, size := a.fds[fd].pos + delta, |a.inodes[a.fds[fd].fid].data|;
         && 0 <= r <= size && (r < goal ==> r == size) && (r > goal ==> r == 0)
         && OnlyMoves(a, b, fd, r)
  }

  lemma SeekEffect(a: Afs, fd: int, delta: int)
    requires Inv(a)
    ensures var (b, r) := Seek(a, fd, delta); Seeks(a, b, fd, delta, r)
    ensures var (b, r) := Seek(a, fd, delta); Getpos(b, fd) == r
  {
    hide DirInv, InDir, IsOpen, GoodInode;
  }

  /** The position and the size. */
  ghost predicate Asks(a: Afs, fd: int, position: int, size: int) {
    if !OpenFd(a, fd) then position == size == -EBADF
    else a.fds[fd].fid in a.inodes && position == a.fds[fd].pos && size == |a.inodes[a.fds[fd].fid].data|
  }

  lemma AskEffect(a: Afs, fd: int)
    requires Inv(a)
    ensures Asks(a, fd, Getpos(a, fd), Fstat(a, fd))
  {
    hide DirInv, InDir, IsOpen, GoodInode;
  }

  // ----- writing -----

  /** k is the least number of blocks, but at least least, that hold size bytes. */
  predicate Holds(k: nat, least: nat, size: nat) {
    least <= k && size <= BLOCK_DATA_SIZE * k && (k == least || size > BLOCK_DATA_SIZE * (k - 1))
  }

  /** File f has other contents, and takes its blocks from the free ones or gives them back. */
  ghost predicate OnlyFile(a: Afs, b: Afs, f: nat)
    requires f in a.inodes
  {
    && b.inodes.Keys == a.inodes.Keys && (forall g | g in a.inodes && g != f :: b.inodes[g] == a.inodes[g])
    && b.avail + b.inodes[f].blocks == a.avail + a.inodes[f].blocks
    && b.dir == a.dir && b.mounted == a.mounted && b.next == a.next
  }

  /** All of buf is written, or nothing. */
  ghost predicate Writes(a: Afs, b: Afs, fd: int, buf: seq<Byte>, r: int) {
    if !OpenFd(a, fd) then b == a && r == -EBADF
    else
      && a.fds[fd].fid in a.inodes
      && var f, pos := a.fds[fd].fid, a.fds[fd].pos;
         var end, ino := pos + |buf|, a.inodes[f];
         if end > SFS_MAX_FILE_SIZE then b == a && r == -EFBIG
         else if buf == [] then b == a && r == 0
         else if end > BLOCK_DATA_SIZE * (ino.blocks + a.avail) then b == a && r == -ENOSPC
         else
           && r == |buf| && pos <= |ino.data| && OnlyFile(a, b, f) && b.fds == a.fds[fd := At(f, end)]
           && Holds(b.inodes[f].blocks, ino.blocks, end)
           && |b.inodes[f].data| == (if end > |ino.data| then end else |ino.data|)
           && forall i | 0 <= i < |b.inodes[f].data| ::
                b.inodes[f].data[i] == if pos <= i < end then buf[i - pos] else ino.data[i]
  }

  lemma Suffices(size: nat, blocks: nat)
    ensures BlocksFor(size) <= blocks <==> size <= BLOCK_DATA_SIZE * blocks
  {
  }

  lemma WriteEffect(a: Afs, fd: int, buf: seq<Byte>)
    requires Inv(a)
    ensures var (b, r) := Write(a, fd, buf); Writes(a, b, fd, buf, r)
  {
    hide DirInv, InDir, IsOpen, GoodInode;
    if OpenFd(a, fd) {
      var f, pos := a.fds[fd].fid, a.fds[fd].pos;
      Suffices(pos + |buf|, a.inodes[f].blocks + a.avail);
      Suffices(pos + |buf|, a.inodes[f].blocks);
      hide BlocksFor;
    }
  }

  /** The file gets the given length: a prefix, or zeros behind what was there.
      Descriptors of the file beyond it go to its end. */
  ghost predicate Truncates(a: Afs, b: Afs, fd: int, length: nat, r: int) {
    if !OpenFd(a, fd) then b == a && r == -EBADF
    else if length > SFS_MAX_FILE_SIZE then b == a && r == -EFBIG
    else
      && a.fds[fd].fid in a.inodes
      && var f := a.fds[fd].fid;
         var ino := a.inodes[f];
         if length == |ino.data| then b == a && r == 0
         else if length > BLOCK_DATA_SIZE * (ino.blocks + a.avail) then b == a && r == -ENOSPC
         else
           && r == 0 && OnlyFile(a, b, f) && Holds(b.inodes[f].blocks, 0, length)
           && |b.inodes[f].data| == length && |b.fds| == |a.fds|
           && (forall i | 0 <= i < length ::
                 b.inodes[f].data[i] == if i < |ino.data| then ino.data[i] else 0)
           && forall i | 0 <= i < |a.fds| ::
                b.fds[i] == if a.fds[i].At? && a.fds[i].fid == f && a.fds[i].pos > length then At(f, length)
                            else a.fds[i]
  }

  lemma TruncateEffect(a: Afs, fd: int, length: nat)
    requires Inv(a)
    ensures var (b, r) := Truncate(a, fd, length); Truncates(a, b, fd, length, r)
  {
    hide DirInv, InDir, IsOpen, GoodInode;
    if OpenFd(a, fd) {
      var ino := a.inodes[a.fds[fd].fid];
      Suffices(length, ino.blocks + a.avail);
      hide BlocksFor;
      forall i | 0 <= i < length ensures Resize(ino.data, length)[i] == if i < |ino.data| then ino.data[i] else 0 {
      }
      hide Resize;
    }
  }

  // ----- the directory -----

  /** Slot k holds name. */
  predicate NamedAt(dir: seq<Slot>, k: int, name: CString) {
    0 <= k < |dir| && dir[k].Used? && dir[k].name == name
  }

  predicate Full(fds: seq<Ofd>) {
    forall i | 0 <= i < |fds| :: fds[i].At?
  }

  /** The lowest free descriptor is at the start of file f. */
  predicate Opened(fds: seq<Ofd>, fds': seq<Ofd>, fd: int, f: nat) {
    0 <= fd < |fds| && fds[fd].Shut? && (forall i | 0 <= i < fd :: fds[i].At?) && fds' == fds[fd := At(f, 0)]
  }

  /** File f is new and empty, and its name is in the lowest empty slot k: in a block of
      empty slots taken from the free blocks if there was none. */
  ghost predicate Creates(a: Afs, b: Afs, name: CString, k: int) {
    && 0 <= k < |b.dir| && b.dir[k] == Used(name, a.next)
    && (forall i | 0 <= i < k && i < |a.dir| :: a.dir[i].Used?)
    && (if exists i | 0 <= i < |a.dir| :: a.dir[i].Empty? then
          k < |a.dir| && a.dir[k].Empty? && b.dir == a.dir[k := b.dir[k]] && b.avail == a.avail
        else
          && k == |a.dir| && |b.dir| == |a.dir| + DIR_ENTRIES_PER_BLOCK && b.dir[..k] == a.dir
          && (forall i | k < i < |b.dir| :: b.dir[i].Empty?) && b.avail + 1 == a.avail)
    && a.next !in a.inodes && b.inodes == a.inodes[a.next := Inode([], 0)] && b.next == a.next + 1
    && b.mounted == a.mounted
  }

  ghost predicate Opens(a: Afs, b: Afs, name: CString, r: int) {
    if name == "" then b == a && r == -EINVAL
    else if |name| >= SFS_FILE_NAME_SIZE_LIMIT then b == a && r == -ENAMETOOLONG
    else if !a.mounted then b == a && r == -ENOMEDIUM
    else if Full(a.fds) then b == a && r == -EMFILE
    else if exists k :: NamedAt(a.dir, k, name) then
      exists k :: NamedAt(a.dir, k, name) && b == a.(fds := b.fds) && Opened(a.fds, b.fds, r, a.dir[k].fid)
    else if a.avail == 0 && forall i | 0 <= i < |a.dir| :: a.dir[i].Used? then b == a && r == -ENOSPC
    else
      Opened(a.fds, b.fds, r, a.next) && exists k :: Creates(a, b, name, k)
  }

  lemma OpenEffect(a: Afs, name: CString)
    requires Inv(a)
    ensures var (b, r) := Open(a, name); Opens(a, b, name, r)
  {
    hide DirInv, FdInv, InDir, IsOpen, GoodInode, Find, FirstEmpty, FreeFd;
    var b := Open(a, name).0;
    var k, e, fd := Find(a.dir, name), FirstEmpty(a.dir), FreeFd(a.fds);
    assert k < |a.dir| ==> NamedAt(a.dir, k, name);
    assert (exists j :: NamedAt(a.dir, j, name)) ==> k < |a.dir|;
    assert fd == |a.fds| <==> Full(a.fds);
    assert e < |a.dir| <==> exists i | 0 <= i < |a.dir| :: a.dir[i].Empty?;
    if NameError(a, name) == 0 && fd < |a.fds| && k == |a.dir| && (e < |a.dir| || a.avail > 0) {
      assert a.next !in a.inodes;
      assert Creates(a, b, name, e);
    }
  }

  ghost predicate Named(dir: seq<Slot>, f: nat) {
    exists k | 0 <= k < |dir| :: dir[k].Used? && dir[k].fid == f
  }

  ghost predicate Held(fds: seq<Ofd>, f: nat) {
    exists i | 0 <= i < |fds| :: fds[i].At? && fds[i].fid == f
  }

  /** File f goes exactly if neither a name nor a descriptor refers to it in b, and its
      blocks become free; all other files stay as they are. */
  ghost predicate Collects(a: Afs, b: Afs, f: nat)
    requires f in a.inodes
  {
    if Named(b.dir, f) || Held(b.fds, f) then b.inodes == a.inodes && b.avail == a.avail
    else b.inodes == a.inodes - {f} && b.avail == a.avail + a.inodes[f].blocks
  }

  ghost predicate Closes(a: Afs, b: Afs, fd: int) {
    if !OpenFd(a, fd) then b == a
    else
      && a.fds[fd].fid in a.inodes
      && b.fds == a.fds[fd := Shut] && Collects(a, b, a.fds[fd].fid)
      && b.dir == a.dir && b.mounted == a.mounted && b.next == a.next
  }

  lemma CloseEffect(a: Afs, fd: int)
    requires Inv(a)
    ensures Closes(a, Close(a, fd), fd)
  {
    hide DirInv, GoodInode;
  }

  /** The name's slot becomes empty; its file goes if nothing has it open. */
  ghost predicate Removes(a: Afs, b: Afs, name: CString, r: int) {
    if name == "" then b == a && r == -EINVAL
    else if |name| >= SFS_FILE_NAME_SIZE_LIMIT then b == a && r == -ENAMETOOLONG
    else if !a.mounted then b == a && r == -ENOMEDIUM
    else if forall k :: !NamedAt(a.dir, k, name) then b == a && r == -ENOENT
    else
      && r == 0 && b.fds == a.fds && b.mounted == a.mounted && b.next == a.next
      && exists k :: NamedAt(a.dir, k, name) && b.dir == a.dir[k := Empty] && a.dir[k].fid in a.inodes
                     && Collects(a, b, a.dir[k].fid)
  }

  lemma RemoveEffect(a: Afs, name: CString)
    requires Inv(a)
    ensures var (b, r) := Remove(a, name); Removes(a, b, name, r)
  {
    hide FdInv, GoodInode, Find;
    var k := Find(a.dir, name);
    assert k < |a.dir| ==> NamedAt(a.dir, k, name);
    assert (exists j :: NamedAt(a.dir, j, name)) ==> k < |a.dir|;
    hide DirInv;
  }

  /** The slot of the old name gets the new one; a slot that had it becomes empty, and
      its file goes if nothing has it open. */
  ghost predicate Renames(a: Afs, b: Afs, from: CString, to: CString, r: int) {
    if from == "" || to == "" then b == a && r == -EINVAL
    else if |from| >= SFS_FILE_NAME_SIZE_LIMIT || |to| >= SFS_FILE_NAME_SIZE_LIMIT then b == a && r == -ENAMETOOLONG
    else if !a.mounted then b == a && r == -ENOMEDIUM
    else if forall j :: !NamedAt(a.dir, j, from) then b == a && r == -ENOENT
    else if from == to then b == a && r == 0
    else
      && r == 0 && b.fds == a.fds && b.mounted == a.mounted && b.next == a.next
      && exists j :: NamedAt(a.dir, j, from) && Rebinds(a, b, j, to)
  }

  ghost predicate Rebinds(a: Afs, b: Afs, j: int, to: CString)
    requires 0 <= j < |a.dir| && a.dir[j].Used?
  {
    if forall k :: !NamedAt(a.dir, k, to) then
      b.dir == a.dir[j := Used(to, a.dir[j].fid)] && b.inodes == a.inodes && b.avail == a.avail
    else
      exists k :: NamedAt(a.dir, k, to) && b.dir == a.dir[k := Empty][j := Used(to, a.dir[j].fid)]
                  && a.dir[k].fid in a.inodes && Collects(a, b, a.dir[k].fid)
  }

  lemma RenameEffect(a: Afs, from: CString, to: CString)
    requires Inv(a)
    ensures var (b, r) := Rename(a, from, to); Renames(a, b, from, to, r)
  {
    hide FdInv, GoodInode, Find;
    var (b, r) := Rename(a, from, to);
    var j, k := Find(a.dir, from), Find(a.dir, to);
    assert j < |a.dir| ==> NamedAt(a.dir, j, from);
    assert (exists i :: NamedAt(a.dir, i, from)) ==> j < |a.dir|;
    assert k < |a.dir| ==> NamedAt(a.dir, k, to);
    assert (exists i :: NamedAt(a.dir, i, to)) ==> k < |a.dir|;
    if r == 0 && from != to && k < |a.dir| {
      RenamedOver(a, j, k, to);
    }
    hide DirInv, Unlink;
  }

  lemma RenamedOver(a: Afs, j: nat, k: nat, to: CString)
    requires Inv(a) && j < |a.dir| && k < |a.dir| && a.dir[j].Used? && a.dir[k].Used? && j != k
    ensures a.dir[k].fid in a.inodes
    ensures var c := Unlink(a, k);
            var b := c.(dir := c.dir[j := Used(to, a.dir[j].fid)]);
            b.dir == a.dir[k := Empty][j := Used(to, a.dir[j].fid)] && Collects(a, b, a.dir[k].fid)
  {
    var f, d := a.dir[k].fid, a.dir[k := Empty];
    var e := d[j := Used(to, a.dir[j].fid)];
    assert a.dir[j].fid != f;
    assert !Named(e, f) && !InDir(d, f);
    hide FdInv, GoodInode, DirInv;
  }

  // ----- listing -----

  /** The first used slot from the cookie on, and the cookie behind it; cookie 0 again
      with any other status: at the end, with too little space, or without a disk. */
  ghost predicate Lists(a: Afs, cookie: nat, space: nat, next: nat, status: int, name: CString) {
    && (status != 0 ==> next == 0 && name == "")
    && if space == 0 then status == -EINVAL
       else if !a.mounted then status == -ENOMEDIUM
       else if forall k | cookie <= k < |a.dir| :: a.dir[k].Empty? then status == 1
       else
         exists k :: && FirstFrom(a.dir, cookie, k)
                     && if |a.dir[k].name| < space then status == 0 && name == a.dir[k].name && next == k + 1
                        else status == -ENAMETOOLONG
  }

  predicate FirstFrom(dir: seq<Slot>, cookie: nat, k: int) {
    cookie <= k < |dir| && dir[k].Used? && forall i | cookie <= i < k :: dir[i].Empty?
  }

  lemma ListEffect(a: Afs, cookie: nat, space: nat)
    ensures var (next, status, name) := List(a, cookie, space); Lists(a, cookie, space, next, status, name)
  {
    var k := NextUsed(a.dir, cookie);
    if k < |a.dir| {
      assert FirstFrom(a.dir, cookie, k);
    }
    hide NextUsed;
  }

  /** Status 0 exactly if there is something left to report and its name fits. */
  lemma ListSucceeds(a: Afs, cookie: nat, space: nat)
    ensures List(a, cookie, space).1 == 0 <==>
            a.mounted && exists k :: FirstFrom(a.dir, cookie, k) && |a.dir[k].name| < space
  {
    ListEffect(a, cookie, space);
    forall j, k | FirstFrom(a.dir, cookie, j) && FirstFrom(a.dir, cookie, k) ensures j == k {
    }
    hide List;
  }

  // ----- unmounting -----

  lemma UnmountEffect(a: Afs)
    ensures var (b, r) := Unmount(a);
            if a.mounted && exists i :: OpenFd(a, i) then b == a && r == -EBUSY
            else r == 0 && b == a.(mounted := false)
  {
    forall i | 0 <= i < |a.fds| ensures a.fds[i].At? == OpenFd(a, i) {
    }
  }

  // ----- all calls -----

  /** From a to b: what the call does, and its reply. */
  ghost predicate Does(a: Afs, call: Runs.Call, b: Afs, reply: Runs.Reply) {
    && (!call.Read? ==> reply.buf == []) && (!call.List? ==> reply.cookie == 0 && reply.name == "")
    && match call
       case Open(name) => Opens(a, b, name, reply.code)
       case Close(fd) => Closes(a, b, fd) && reply.code == 0
       case Read(fd, len) => Reads(a, b, fd, len, reply.code, reply.buf)
       case Write(fd, buf) => Writes(a, b, fd, buf, reply.code)
       case Truncate(fd, length) => Truncates(a, b, fd, length, reply.code)
       case Seek(fd, delta) => Seeks(a, b, fd, delta, reply.code)
       case Getpos(fd) => b == a && exists size :: Asks(a, fd, reply.code, size)
       case Fstat(fd) => b == a && exists position :: Asks(a, fd, position, reply.code)
       case Remove(name) => Removes(a, b, name, reply.code)
       case Rename(from, to) => Renames(a, b, from, to, reply.code)
       case List(cookie, space) => b == a && Lists(a, cookie, space, reply.cookie, reply.code, reply.name)
  }

  lemma StepDoes(a: Afs, call: Runs.Call)
    requires Inv(a)
    ensures var (b, reply) := Runs.Step(a, call); Does(a, call, b, reply)
  {
    hide Inv, Open, Close, Read, Write, Truncate, Seek, Getpos, Fstat, Remove, Rename, List, Opens, Closes, Reads,
         Writes, Truncates, Seeks, Asks, Removes, Renames, Lists;
    match call
    case Open(name) => OpenEffect(a, name);
    case Close(fd) => CloseEffect(a, fd);
    case Read(fd, len) => ReadEffect(a, fd, len);
    case Write(fd, buf) => WriteEffect(a, fd, buf);
    case Truncate(fd, length) => TruncateEffect(a, fd, length);
    case Seek(fd, delta) => SeekEffect(a, fd, delta);
    case Getpos(fd) => AskEffect(a, fd);
    case Fstat(fd) => AskEffect(a, fd);
    case Remove(name) => RemoveEffect(a, name);
    case Rename(from, to) => RenameEffect(a, from, to);
    case List(cookie, space) => ListEffect(a, cookie, space);
  }

  /** A run is what its calls do, one after the other, each with its own reply. */
  lemma {:induction false} RunDoes(a: Afs, calls: seq<Runs.Call>, i: nat)
    requires Inv(a) && i < |calls|
    ensures Runs.Run(a, []) == (a, [])
    ensures Does(Runs.Run(a, calls[..i]).0, calls[i], Runs.Run(a, calls[..i + 1]).0, Runs.Run(a, calls).1[i])
  {
    hide Inv, Runs.Step, Does;
    var n := |calls| - 1;
    assert calls[..i + 1][..i] == calls[..i];
    if i < n {
      assert calls[..n][..i] == calls[..i] && calls[..n][..i + 1] == calls[..i + 1];
      RunDoes(a, calls[..n], i);
    } else {
      assert calls[..i + 1] == calls;
      StepDoes(Runs.Run(a, calls[..i]).0, calls[i]);
    }
  }
}
