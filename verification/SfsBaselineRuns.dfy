/** Runs of the baseline, and when they are the runs of the file system that
    recomputes the block of every position. */
module SfsBaselineRuns {
  import opened SfsBaseline
  import opened SfsRuns
  import opened SfsChains
  import opened SfsCached
  import Effects = SfsEffects
  import Spec = SfsSpec
  import Proofs = SfsSpecProofs

  /** What the baseline implements. */
  predicate Offered(call: Call) {
    !call.Seek? && !call.Getpos? && !call.Rename?
  }

  ghost function BaselineStep(a: Spec.Afs, call: Call): (Spec.Afs, Reply)
    requires Spec.Inv(a)
  {
    if call.Open? then (OpenSpec(a, call.name).0, Code(OpenSpec(a, call.name).1)) else Step(a, call)
  }

  /** The name is refused or known already, or a descriptor or a directory slot is free. */
  predicate Roomy(a: Spec.Afs, name: Spec.CString) {
    || Spec.NameError(a, name) < 0
    || Spec.Find(a.dir, name) < |a.dir|
    || Spec.FreeFd(a.fds) < |a.fds|
    || Spec.FirstEmpty(a.dir) < |a.dir|
  }

  /** The two implementations open alike except for a new name when descriptors and
      directory slots are all taken: the baseline then extends the directory, or
      reports the lack of space, before it finds that there is no descriptor. */
  lemma OpenAgrees(a: Spec.Afs, name: Spec.CString)
    ensures OpenSpec(a, name) == Spec.Open(a, name) <==> Roomy(a, name)
  {
    if !Roomy(a, name) && a.avail > 0 {
      assert |Spec.Expand(a).dir| > |a.dir|;
    }
  }

  /** In that case the baseline reports the lack of space; or it adds one block of empty
      slots to the directory, and then reports the lack of descriptors. */
  lemma OpenCrowded(a: Spec.Afs, name: Spec.CString)
    requires !Roomy(a, name)
    ensures var (b, r) := OpenSpec(a, name);
            if a.avail == 0 then b == a && r == -Spec.ENOSPC
            else
              && r == -Spec.EMFILE && b == a.(dir := b.dir, avail := a.avail - 1)
              && |b.dir| == |a.dir| + Spec.DIR_ENTRIES_PER_BLOCK && b.dir[..|a.dir|] == a.dir
              && forall i | |a.dir| <= i < |b.dir| :: b.dir[i].Empty?
  {
  }

  lemma BaselineStepInv(a: Spec.Afs, call: Call)
    requires Spec.Inv(a)
    ensures Spec.Inv(BaselineStep(a, call).0)
  {
    if call.Open? {
      if Roomy(a, call.name) {
        OpenAgrees(a, call.name);
        Proofs.OpenInv(a, call.name);
      } else if a.avail > 0 {
        Proofs.ExpandInv(a);
      }
    } else {
      StepInv(a, call);
    }
    hide Spec.Inv;
  }

  ghost function BaselineRun(a: Spec.Afs, calls: seq<Call>): (r: (Spec.Afs, seq<Reply>))
    requires Spec.Inv(a)
    ensures Spec.Inv(r.0) && |r.1| == |calls|
  {
    if calls == [] then (a, [])
    else
      var before := BaselineRun(a, calls[..|calls| - 1]);
      BaselineStepInv(before.0, calls[|calls| - 1]);
      var last := BaselineStep(before.0, calls[|calls| - 1]);
      (last.0, before.1 + [last.1])
  }

  /** Up to the n-th call every opening was roomy. */
  ghost predicate AlwaysRoomy(a: Spec.Afs, calls: seq<Call>, n: nat)
    requires Spec.Inv(a) && n <= |calls|
  {
    forall i | 0 <= i < n :: calls[i].Open? ==> Roomy(Run(a, calls[..i]).0, calls[i].name)
  }

  /** The two runs are the same after each of the first n calls. */
  ghost predicate AgreeUpTo(a: Spec.Afs, calls: seq<Call>, n: nat)
    requires Spec.Inv(a) && n <= |calls|
  {
    forall i | 0 <= i <= n :: BaselineRun(a, calls[..i]) == Run(a, calls[..i])
  }

  /** States and replies of the baseline are those of the other implementation, call by
      call, exactly if no new name is opened with descriptors and slots all taken. */
  lemma {:induction false} RunsAgree(a: Spec.Afs, calls: seq<Call>, n: nat)
    requires Spec.Inv(a) && n <= |calls|
    ensures AgreeUpTo(a, calls, n) <==> AlwaysRoomy(a, calls, n)
  {
    hide Spec.Inv, BaselineStep, Step, Roomy, Run, BaselineRun;
    if n == 0 {
      NoCalls(a, calls);
    } else {
      RunsAgree(a, calls, n - 1);
      if AgreeUpTo(a, calls, n - 1) {
        OneMore(a, calls[..n - 1], calls[n - 1]);
        assert calls[..n - 1] + [calls[n - 1]] == calls[..n];
      }
    }
  }

  lemma NoCalls(a: Spec.Afs, calls: seq<Call>)
    requires Spec.Inv(a)
    ensures BaselineRun(a, calls[..0]) == Run(a, calls[..0])
  {
    hide Spec.Inv;
  }

  lemma Unfold(a: Spec.Afs, calls: seq<Call>, call: Call)
    requires Spec.Inv(a)
    ensures Run(a, calls + [call]) == Extend(Run(a, calls).1, Step(Run(a, calls).0, call))
    ensures BaselineRun(a, calls + [call]) == Extend(BaselineRun(a, calls).1,
              BaselineStep(BaselineRun(a, calls).0, call))
  {
    hide Spec.Inv, BaselineStep, Step;
    assert (calls + [call])[..|calls|] == calls;
  }

  lemma OneMore(a: Spec.Afs, calls: seq<Call>, call: Call)
    requires Spec.Inv(a) && BaselineRun(a, calls) == Run(a, calls)
    ensures BaselineRun(a, calls + [call]) == Run(a, calls + [call])
            <==> (call.Open? ==> Roomy(Run(a, calls).0, call.name))
  {
    Unfold(a, calls, call);
    hide Spec.Inv, BaselineStep, Step, Roomy, Run, BaselineRun, Extend;
    StepsAgree(Run(a, calls).0, call);
    SameLast(Run(a, calls).1, BaselineStep(Run(a, calls).0, call), Step(Run(a, calls).0, call));
  }

  function Extend(rs: seq<Reply>, x: (Spec.Afs, Reply)): (Spec.Afs, seq<Reply>) {
    (x.0, rs + [x.1])
  }

  lemma SameLast(rs: seq<Reply>, x: (Spec.Afs, Reply), y: (Spec.Afs, Reply))
    ensures Extend(rs, x) == Extend(rs, y) <==> x == y
  {
    assert (rs + [x.1])[|rs|] == x.1 && (rs + [y.1])[|rs|] == y.1;
  }

  lemma StepsAgree(a: Spec.Afs, call: Call)
    requires Spec.Inv(a)
    ensures BaselineStep(a, call) == Step(a, call) <==> (call.Open? ==> Roomy(a, call.name))
  {
    if call.Open? {
      OpenAgrees(a, call.name);
    }
    hide Roomy, OpenSpec, Spec.Open, Spec.Inv;
  }

  method DispatchData(b: Baseline, call: Call) returns (r: Reply)
    requires b.Valid() && (call.Read? || call.Write? || call.Truncate? || call.Fstat?)
    modifies b.Repr()
    ensures b.Valid() && Spec.Inv(old(b.disk.a)) && (b.disk.a, r) == BaselineStep(old(b.disk.a), call)
  {
    hide Spec.Inv, OpenSpec, Spec.Close, Spec.Read, Spec.Write, Spec.Truncate, Spec.Remove, Spec.List, Coherent;
    InvOf(b);
    var code;
    match call
    case Read(fd, len) => var buf; code, buf := b.Read(fd, len); r := Reply(code, buf, 0, "");
    case Write(fd, buf) => code := b.Write(fd, buf); r := Code(code);
    case Truncate(fd, length) => code := b.Ftruncate(fd, length); r := Code(code);
    case Fstat(fd) => code := b.Fstat(fd); r := Code(code);
  }

  method Dispatch(b: Baseline, call: Call) returns (r: Reply)
    requires b.Valid() && Offered(call)
    modifies b.Repr()
    ensures b.Valid() && Spec.Inv(old(b.disk.a)) && (b.disk.a, r) == BaselineStep(old(b.disk.a), call)
  {
    hide Spec.Inv, OpenSpec, Spec.Close, Spec.Read, Spec.Write, Spec.Truncate, Spec.Remove, Spec.List, Coherent;
    InvOf(b);
    var code;
    match call
    case Open(name) => code := b.Open(name); r := Code(code);
    case Close(fd) => b.Close(fd); r := Code(0);
    case Remove(name) => code := b.Remove(name); r := Code(code);
    case List(cookie, space) =>
      var next, name;
      next, code, name := b.List(cookie, space);
      r := Reply(code, [], next, name);
    case Read(_, _) => r := DispatchData(b, call);
    case Write(_, _) => r := DispatchData(b, call);
    case Truncate(_, _) => r := DispatchData(b, call);
    case Fstat(_) => r := DispatchData(b, call);
  }

  lemma BaselineDoes(b: Baseline, call: Call)
    requires b.Valid()
    ensures Spec.Inv(b.disk.a) && var (c, r) := BaselineStep(b.disk.a, call);
            ((call.Open? ==> Roomy(b.disk.a, call.name)) ==> Effects.Does(b.disk.a, call, c, r) == true)
  {
    hide BaselineStep, Step, Effects.Does, Roomy;
    InvOf(b);
    hide Spec.Inv;
    StepsAgree(b.disk.a, call);
    Effects.StepDoes(b.disk.a, call);
  }

  lemma InvOf(b: Baseline)
    requires b.Valid()
    ensures Spec.Inv(b.disk.a)
  {
  }

  /** A call, carried out; where the implementations agree it does what it should. */
  method Perform(b: Baseline, call: Call) returns (r: Reply)
    requires b.Valid() && Offered(call)
    modifies b.Repr()
    ensures b.Valid() && Spec.Inv(old(b.disk.a)) && (b.disk.a, r) == BaselineStep(old(b.disk.a), call)
    ensures (call.Open? ==> Roomy(old(b.disk.a), call.name)) ==> Effects.Does(old(b.disk.a), call, b.disk.a, r) == true
  {
    hide Effects.Does, Roomy, Spec.Inv, BaselineStep, Coherent;
    BaselineDoes(b, call);
    r := Dispatch(b, call);
  }

  /** Any run keeps the cached pointers right and computes what BaselineRun says. */
  method PerformAll(b: Baseline, calls: seq<Call>) returns (replies: seq<Reply>)
    requires b.Valid() && forall i | 0 <= i < |calls| :: Offered(calls[i])
    modifies b.Repr()
    ensures b.Valid() && Coherent(b.disk.a.fds, b.disk.store.lists, b.starts, b.currs)
    ensures Spec.Inv(old(b.disk.a)) && (b.disk.a, replies) == BaselineRun(old(b.disk.a), calls)
    ensures AlwaysRoomy(old(b.disk.a), calls, |calls|) ==> (b.disk.a, replies) == Run(old(b.disk.a), calls)
  {
    hide BaselineStep, Spec.Inv, Coherent, AlwaysRoomy;
    InvOf(b);
    ghost var a := b.disk.a;
    replies := [];
    var i: nat := 0;
    assert calls[..0] == [];
    while i < |calls|
      invariant i <= |calls| && b.Valid() && (b.disk.a, replies) == BaselineRun(a, calls[..i])
    {
      assert calls[..i + 1][..i] == calls[..i];
      var r := Perform(b, calls[i]);
      replies := replies + [r];
      i := i + 1;
    }
    assert calls[..i] == calls;
    RunsAgree(a, calls, |calls|);
  }
}
