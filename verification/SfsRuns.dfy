/** Runs of the abstract file system. */
module SfsRuns {
  import opened SfsContents
  import Spec = SfsSpec
  import Proofs = SfsSpecProofs

  datatype Call =
    | Open(name: Spec.CString)
    | Close(fd: int)
    | Read(fd: int, len: nat)
    | Write(fd: int, buf: seq<Byte>)
    | Truncate(fd: int, length: nat)
    | Seek(fd: int, delta: int)
    | Getpos(fd: int)
    | Fstat(fd: int)
    | Remove(name: Spec.CString)
    | Rename(from: Spec.CString, to: Spec.CString)
    | List(cookie: nat, space: nat)

  /** The result code, the bytes read, the cookie and the name, as far as the call has them. */
  datatype Reply = Reply(code: int, buf: seq<Byte>, cookie: nat, name: Spec.CString)

  function Code(r: int): Reply {
    Reply(r, [], 0, "")
  }

  ghost function Step(a: Spec.Afs, call: Call): (Spec.Afs, Reply)
    requires Spec.Inv(a)
  {
    match call
    case Open(name) => var r := Spec.Open(a, name); (r.0, Code(r.1))
    case Close(fd) => (Spec.Close(a, fd), Code(0))
    case Read(fd, len) => var r := Spec.Read(a, fd, len); (r.0, Reply(r.1, r.2, 0, ""))
    case Write(fd, buf) => var r := Spec.Write(a, fd, buf); (r.0, Code(r.1))
    case Truncate(fd, length) => var r := Spec.Truncate(a, fd, length); (r.0, Code(r.1))
    case Seek(fd, delta) => var r := Spec.Seek(a, fd, delta); (r.0, Code(r.1))
    case Getpos(fd) => (a, Code(Spec.Getpos(a, fd)))
    case Fstat(fd) => (a, Code(Spec.Fstat(a, fd)))
    case Remove(name) => var r := Spec.Remove(a, name); (r.0, Code(r.1))
    case Rename(from, to) => var r := Spec.Rename(a, from, to); (r.0, Code(r.1))
    case List(cookie, space) => var r := Spec.List(a, cookie, space); (a, Reply(r.1, [], r.0, r.2))
  }

  lemma StepInv(a: Spec.Afs, call: Call)
    requires Spec.Inv(a)
    ensures Spec.Inv(Step(a, call).0)
  {
    hide Spec.Inv, Spec.Open, Spec.Close, Spec.Read, Spec.Write, Spec.Truncate, Spec.Seek, Spec.Remove, Spec.Rename,
         Spec.List;
    match call
    case Open(name) => Proofs.OpenInv(a, name);
    case Close(fd) => Proofs.CloseInv(a, fd);
    case Read(fd, len) => Proofs.ReadInv(a, fd, len);
    case Write(fd, buf) => Proofs.WriteInv(a, fd, buf);
    case Truncate(fd, length) => Proofs.TruncateInv(a, fd, length);
    case Seek(fd, delta) => Proofs.SeekInv(a, fd, delta);
    case Getpos(_) =>
    case Fstat(_) =>
    case Remove(name) => Proofs.RemoveInv(a, name);
    case Rename(from, to) => Proofs.RenameInv(a, from, to);
    case List(_, _) =>
  }

  /** All replies of a run, and the state it ends in. */
  ghost function Run(a: Spec.Afs, calls: seq<Call>): (r: (Spec.Afs, seq<Reply>))
    requires Spec.Inv(a)
    ensures Spec.Inv(r.0) && |r.1| == |calls|
  {
    if calls == [] then (a, [])
    else
      var before := Run(a, calls[..|calls| - 1]);
      StepInv(before.0, calls[|calls| - 1]);
      var last := Step(before.0, calls[|calls| - 1]);
      (last.0, before.1 + [last.1])
  }

  lemma {:induction false} RunMounted(a: Spec.Afs, calls: seq<Call>)
    requires Spec.Inv(a)
    ensures Run(a, calls).0.mounted == a.mounted
  {
    if calls != [] {
      RunMounted(a, calls[..|calls| - 1]);
      StepMounted(Run(a, calls[..|calls| - 1]).0, calls[|calls| - 1]);
    }
  }

  lemma StepMounted(a: Spec.Afs, call: Call)
    requires Spec.Inv(a)
    ensures Step(a, call).0.mounted == a.mounted
  {
    hide Spec.Inv, Spec.InDir, Spec.IsOpen;
  }
}
