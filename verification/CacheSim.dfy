/** The cache simulator with relative age counters, which finds exactly the hits,
    misses and evictions of the recency-list simulator. */
module CacheSim {
  import opened Buffers
  import opened CacheLru
  import opened CacheReuse

  datatype Line = Line(valid: bool, tag: nat, counter: nat)

  /** An entry of a trace: the operation and the address. */
  datatype Op = Op(identifier: char, address: nat)

  // ----- one set -----

  ghost predicate HasTag(lines: seq<Line>, t: nat) {
    exists i | 0 <= i < |lines| :: lines[i].valid && lines[i].tag == t
  }

  function ValidLines(lines: seq<Line>): nat {
    if lines == [] then 0 else ValidLines(lines[..|lines| - 1]) + if lines[|lines| - 1].valid then 1 else 0
  }

  ghost predicate LineOk(line: Line, h: seq<nat>) {
    line.tag in h && line.counter == 2 + Since(h, line.tag)
  }

  /** The lines hold the E tags used last, each with the accesses since its last use. */
  ghost predicate Lines(lines: seq<Line>, h: seq<nat>, E: nat) {
    && |lines| == E
    && (forall i | 0 <= i < E :: lines[i].valid ==> LineOk(lines[i], h) && lines[i].tag in Take(Stack(h), E))
    && (forall i, j | 0 <= i < j < E :: lines[i].valid && lines[j].valid ==> lines[i].tag != lines[j].tag)
    && (forall t | t in Take(Stack(h), E) :: HasTag(lines, t))
    && ValidLines(lines) == |Take(Stack(h), E)|
  }

  /** A set is allocated at its first access. */
  ghost predicate SetRep(lines: seq<Line>, h: seq<nat>, E: nat) {
    if lines == [] then h == [] else Lines(lines, h, E)
  }

  function Aged(lines: seq<Line>): (r: seq<Line>)
    ensures |r| == |lines|
  {
    seq(|lines|, i requires 0 <= i < |lines| => if lines[i].valid then lines[i].(counter := lines[i].counter + 1)
          else lines[i])
  }

  /** Line i has just been used for tag t. */
  function Used(lines: seq<Line>, i: nat, t: nat): (r: seq<Line>)
    requires i < |lines|
    ensures |r| == |lines|
  {
    Aged(lines[i := Line(true, t, 1)])
  }

  lemma {:induction false} ValidLinesSet(lines: seq<Line>, i: nat, x: Line)
    requires i < |lines|
    ensures ValidLines(lines[i := x]) == ValidLines(lines) - (if lines[i].valid then 1 else 0) + if x.valid then 1
            else 0
  {
    var n := |lines| - 1;
    if i < n {
      assert lines[i := x][..n] == lines[..n][i := x];
      ValidLinesSet(lines[..n], i, x);
    } else {
      assert lines[i := x][..n] == lines[..n];
    }
  }

  lemma {:induction false} ValidLinesAged(lines: seq<Line>)
    ensures ValidLines(Aged(lines)) == ValidLines(lines)
  {
    if lines != [] {
      assert Aged(lines)[..|lines| - 1] == Aged(lines[..|lines| - 1]);
      ValidLinesAged(lines[..|lines| - 1]);
    }
  }

  lemma {:induction false} ValidLinesFull(lines: seq<Line>)
    ensures ValidLines(lines) <= |lines|
    ensures ValidLines(lines) == |lines| <==> forall i | 0 <= i < |lines| :: lines[i].valid
  {
    if lines != [] {
      ValidLinesFull(lines[..|lines| - 1]);
    }
  }

  lemma SinceStep(h: seq<nat>, t: nat, x: nat)
    requires x in h || x == t
    ensures x in h + [t] && Since(h + [t], x) == if x == t then 0 else 1 + Since(h, x)
  {
    assert (h + [t])[..|h|] == h;
  }

  /** What an access does to the set of resident tags. */
  lemma ResidentStep(h: seq<nat>, t: nat, E: nat, x: nat)
    requires E > 0
    ensures var l, l' := Take(Stack(h), E), Take(Stack(h + [t]), E);
            && (x in l' <==> x == t || (x in l && (t in l || |l| < E || x != l[E - 1])))
            && |l'| == if t in l || |l| == E then |l| else |l| + 1
  {
    TouchIsStack(h, t, E);
    StackDistinct(h);
    var l := Take(Stack(h), E);
    hide Stack;
    assert Distinct(l);
    WithoutElements(l, t, x);
    WithoutDistinct(l, t);
    if t !in l {
      WithoutAbsent(l, t);
      if |l| == E {
        assert ([t] + l)[..E] == [t] + l[..E - 1];
        assert l == l[..E - 1] + [l[E - 1]];
      }
    }
  }

  /** Using line i for t is right if t was there, or the line was unused and t was
      not there, or the line held the tag used longest ago. */
  ghost predicate MayUse(lines: seq<Line>, h: seq<nat>, E: nat, i: nat, t: nat) {
    && Lines(lines, h, E) && i < E
    && var l := Take(Stack(h), E);
       if lines[i].valid && lines[i].tag == t then true
       else t !in l && if lines[i].valid then |l| == E && lines[i].tag == l[E - 1] else |l| < E
  }

  lemma UsedTags(lines: seq<Line>, h: seq<nat>, E: nat, i: nat, t: nat)
    requires MayUse(lines, h, E, i, t)
    ensures var u, l' := Used(lines, i, t), Take(Stack(h + [t]), E);
            && (forall j | 0 <= j < E && u[j].valid :: LineOk(u[j], h + [t]) && u[j].tag in l')
            && (forall x | x in l' :: HasTag(u, x))
  {
    hide Stack, Take, Since;
    var u, l' := Used(lines, i, t), Take(Stack(h + [t]), E);
    forall j | 0 <= j < E && u[j].valid ensures LineOk(u[j], h + [t]) && u[j].tag in l' {
      ResidentStep(h, t, E, u[j].tag);
      SinceStep(h, t, u[j].tag);
    }
    forall x | x in l' ensures HasTag(u, x) {
      ResidentStep(h, t, E, x);
      if x == t {
        assert u[i].valid && u[i].tag == t;
      } else {
        assert HasTag(lines, x);
        var j :| 0 <= j < E && lines[j].valid && lines[j].tag == x;
        assert u[j].valid && u[j].tag == x;
      }
    }
  }

  lemma UseOk(lines: seq<Line>, h: seq<nat>, E: nat, i: nat, t: nat)
    requires MayUse(lines, h, E, i, t)
    ensures Lines(Used(lines, i, t), h + [t], E)
  {
    hide Stack, Take, Since;
    UsedTags(lines, h, E, i, t);
    ValidLinesSet(lines, i, Line(true, t, 1));
    ValidLinesAged(lines[i := Line(true, t, 1)]);
    ResidentStep(h, t, E, t);
    hide LineOk, HasTag, ValidLines;
  }

  /** The largest counter belongs to the tag used longest ago. */
  lemma OldestLine(lines: seq<Line>, h: seq<nat>, E: nat, r: nat, t: nat)
    requires Lines(lines, h, E) && E > 0 && r < E && !HasTag(lines, t)
    requires forall i | 0 <= i < E :: lines[i].valid && lines[i].counter <= lines[r].counter
    ensures MayUse(lines, h, E, r, t) && |Take(Stack(h), E)| == E
  {
    ValidLinesFull(lines);
    var l := Take(Stack(h), E);
    NotResident(lines, h, E, t);
    assert l[E - 1] in l && HasTag(lines, l[E - 1]);
    var j :| 0 <= j < E && lines[j].valid && lines[j].tag == l[E - 1];
    var k :| 0 <= k < |l| && l[k] == lines[r].tag;
    if k < E - 1 {
      StackSorted(h, k, E - 1);
    }
    hide Stack, Since, HasTag;
  }

  lemma NotResident(lines: seq<Line>, h: seq<nat>, E: nat, t: nat)
    requires Lines(lines, h, E)
    ensures HasTag(lines, t) <==> t in Take(Stack(h), E)
  {
    hide Stack, Take, Since;
    if HasTag(lines, t) {
      var i :| 0 <= i < |lines| && lines[i].valid && lines[i].tag == t;
    }
  }

  lemma SpareLine(lines: seq<Line>, h: seq<nat>, E: nat, i: nat, t: nat)
    requires Lines(lines, h, E) && i < E && !lines[i].valid && !HasTag(lines, t)
    ensures MayUse(lines, h, E, i, t) && |Take(Stack(h), E)| < E
  {
    NotResident(lines, h, E, t);
    ValidLinesFull(lines);
    hide Stack, Take, Since, HasTag;
  }

  lemma EmptyLines(E: nat)
    ensures Lines(seq(E, _ => Line(false, 0, 0)), [], E)
  {
    NoneValid(E);
  }

  lemma {:induction false} NoneValid(E: nat)
    ensures ValidLines(seq(E, _ => Line(false, 0, 0))) == 0
  {
    if E > 0 {
      assert seq(E, _ => Line(false, 0, 0))[..E - 1] == seq(E - 1, _ => Line(false, 0, 0));
      NoneValid(E - 1);
    }
  }

  // ----- addresses -----

  function Pow2(n: nat): (r: nat)
    ensures r > 0
  {
    if n == 0 then 1 else 2 * Pow2(n - 1)
  }

  lemma {:induction false} Pow2Adds(m: nat, n: nat)
    ensures Pow2(m + n) == Pow2(m) * Pow2(n) && Pow2(1) == 2
  {
    if n > 0 {
      Pow2Adds(m, n - 1);
    }
  }

  /** Tag, set index and offset are the parts of the address, high bits to low ones. */
  lemma AddressIs(address: nat, s: nat, b: nat)
    ensures var x, S := address / Pow2(b), Pow2(s);
            address == TagOf(x, S) * Pow2(s + b) + SetOf(x, S) * Pow2(b) + address % Pow2(b)
  {
    Pow2Adds(s, b);
    hide Pow2;
    var x, S, B := address / Pow2(b), Pow2(s), Pow2(b);
    BlockParts(x, S);
    hide SetOf, TagOf;
    Distribute(TagOf(x, S), S, SetOf(x, S), B);
    DivMod(address, B);
  }

  lemma DivMod(a: nat, B: nat)
    requires B > 0
    ensures a == a / B * B + a % B
  {
  }

  lemma Distribute(t: nat, S: nat, i: nat, B: nat)
    ensures (t * S + i) * B == t * (S * B) + i * B
  {
    assert t * S * B == t * (S * B);
  }

  /** Block numbers accessed by a trace, in order. */
  function Accesses(trace: seq<Op>, B: nat): seq<nat>
    requires B > 0
  {
    if trace == [] then []
    else
      var op := trace[|trace| - 1];
      var x := op.address / B;
      Accesses(trace[..|trace| - 1], B) + match op.identifier
        case 'M' => [x, x]
        case 'L' => [x]
        case 'S' => [x]
        case _ => []
  }

  lemma {:induction false} AccessesJoin(a: seq<Op>, b: seq<Op>, B: nat)
    requires B > 0
    ensures Accesses(a + b, B) == Accesses(a, B) + Accesses(b, B)
  {
    if b == [] {
      assert a + b == a;
    } else {
      var n := |b| - 1;
      assert (a + b)[..|a + b| - 1] == a + b[..n];
      AccessesJoin(a, b[..n], B);
    }
  }

  /** The operations of one kind on block x. */
  ghost function OpsOn(trace: seq<Op>, c: char, B: nat, x: nat): set<nat>
    requires B > 0
  {
    set i | 0 <= i < |trace| && trace[i].identifier == c && trace[i].address / B == x
  }

  /** All operations of one kind. */
  ghost function Ops(trace: seq<Op>, c: char): set<nat> {
    set i | 0 <= i < |trace| && trace[i].identifier == c
  }

  lemma OpsOnStep(trace: seq<Op>, c: char, B: nat, x: nat, n: nat)
    requires B > 0 && |trace| == n + 1
    ensures |OpsOn(trace, c, B, x)| == |OpsOn(trace[..n], c, B, x)|
              + if trace[n].identifier == c && trace[n].address / B == x then 1 else 0
    ensures |Ops(trace, c)| == |Ops(trace[..n], c)| + if trace[n].identifier == c then 1 else 0
  {
    var r, q := OpsOn(trace[..n], c, B, x), Ops(trace[..n], c);
    assert n !in r && n !in q;
    assert OpsOn(trace, c, B, x) == if trace[n].identifier == c && trace[n].address / B == x then r + {n} else r;
    assert Ops(trace, c) == if trace[n].identifier == c then q + {n} else q;
  }

  /** Each load and store of a block is one access to it, each modification two. */
  lemma {:induction false} AccessTimes(trace: seq<Op>, B: nat, x: nat)
    requires B > 0
    ensures multiset(Accesses(trace, B))[x]
              == |OpsOn(trace, 'L', B, x)| + |OpsOn(trace, 'S', B, x)| + 2 * |OpsOn(trace, 'M', B, x)|
    ensures |Accesses(trace, B)| == |Ops(trace, 'L')| + |Ops(trace, 'S')| + 2 * |Ops(trace, 'M')|
  {
    if trace == [] {
      assert OpsOn(trace, 'L', B, x) == OpsOn(trace, 'S', B, x) == OpsOn(trace, 'M', B, x) == {};
      assert Ops(trace, 'L') == Ops(trace, 'S') == Ops(trace, 'M') == {};
    } else {
      var n := |trace| - 1;
      AccessTimes(trace[..n], B, x);
      OpsOnStep(trace, 'L', B, x, n);
      OpsOnStep(trace, 'S', B, x, n);
      OpsOnStep(trace, 'M', B, x, n);
      hide OpsOn, Ops;
    }
  }

  // ----- the simulator -----

  class Simulator {
    const S: nat
    const E: nat
    const B: nat
    /** Lines of each set, none before its first access. */
    const cache: Buffer<seq<Line>>
    var hits: nat
    var misses: nat
    var evictions: nat
    /** Block numbers of all accesses so far. */
    ghost var blocks: seq<nat>

    ghost predicate Shape()
      reads this, cache, cache.cells
    {
      cache.Valid() && S > 0 && E > 0 && B > 0 && |cache.view| == S
    }

    ghost predicate Valid()
      reads this, cache, cache.cells
    {
      && Shape()
      && (forall k | 0 <= k < S :: SetRep(cache.view[k], OfSet(S, k, blocks), E))
      && Counts(hits, misses, evictions) == Simulate(S, E, blocks).counts
    }

    constructor (s: nat, e: nat, b: nat)
      requires e > 0
      ensures Valid() && blocks == [] && S == Pow2(s) && E == e && B == Pow2(b) && fresh(cache) && fresh(cache.cells)
    {
      S, E, B := Pow2(s), e, Pow2(b);
      cache := new Buffer(Pow2(s), []);
      hits, misses, evictions, blocks := 0, 0, 0, [];
    }

    /** Every valid line of the set grows older by one access. */
    method Update(index: nat)
      requires Shape() && index < S && |cache.view[index]| == E
      modifies cache, cache.cells
      ensures Shape() && cache.view == old(cache.view)[index := Aged(old(cache.view)[index])]
    {
      ghost var all, was := cache.view, cache.view[index];
      ghost var now := was;
      var j: nat := 0;
      while j < E
        invariant j <= E && Shape() && |now| == E && cache.view == all[index := now]
        invariant forall k | 0 <= k < E :: now[k] == if k < j then Aged(was)[k] else was[k]
      {
        var lines := cache.Get(index);
        if lines[j].valid {
          now := lines[j := lines[j].(counter := lines[j].counter + 1)];
          cache.Put(index, lines[j := lines[j].(counter := lines[j].counter + 1)]);
        }
        j := j + 1;
      }
      assert now == Aged(was);
    }

    /** Line i of the set is used for the tag. */
    method Fill(index: nat, i: nat, tag: nat)
      requires Shape() && index < S && |cache.view[index]| == E && i < E
      modifies cache, cache.cells
      ensures Shape() && cache.view == old(cache.view)[index := Used(old(cache.view)[index], i, tag)]
    {
      var lines := cache.Get(index);
      cache.Put(index, lines[i := Line(true, tag, 1)]);
      Update(index);
    }

    method Evict(index: nat, tag: nat, ghost h: seq<nat>)
      requires Shape() && index < S && Lines(cache.view[index], h, E) && !HasTag(cache.view[index], tag)
      requires forall i | 0 <= i < E :: cache.view[index][i].valid
      modifies this`evictions, cache, cache.cells
      ensures Shape() && evictions == old(evictions) + 1 && |Take(Stack(h), E)| == E
      ensures |cache.view| == S && Lines(cache.view[index], h + [tag], E)
              && forall k | 0 <= k < S && k != index :: cache.view[k] == old(cache.view)[k]
    {
      hide Lines, HasTag;
      evictions := evictions + 1;
      var lines := cache.Get(index);
      LinesCount(lines, h, E);
      var replace: nat, max := 0, lines[0].counter;
      var i: nat := 0;
      while i < E
        invariant i <= E && replace < E && max == lines[replace].counter
                  && forall j | 0 <= j < i :: lines[j].counter <= max
      {
        if lines[i].counter > max {
          max := lines[i].counter;
          replace := i;
        }
        i := i + 1;
      }
      OldestLine(lines, h, E, replace, tag);
      UseOk(lines, h, E, replace, tag);
      Fill(index, replace, tag);
    }

    method Insert(index: nat, tag: nat, ghost h: seq<nat>)
      requires Shape() && index < S && Lines(cache.view[index], h, E) && !HasTag(cache.view[index], tag)
      modifies this`misses, this`evictions, cache, cache.cells
      ensures Shape() && misses == old(misses) + 1 && evictions == old(evictions) + if |Take(Stack(h), E)| < E then 0
              else 1
      ensures |cache.view| == S && Lines(cache.view[index], h + [tag], E)
              && forall k | 0 <= k < S && k != index :: cache.view[k] == old(cache.view)[k]
    {
      hide Lines, HasTag;
      misses := misses + 1;
      var lines := cache.Get(index);
      LinesCount(lines, h, E);
      var i: nat := 0;
      while i < E
        invariant i <= E && cache.view == old(cache.view) && Shape() && evictions == old(evictions)
        invariant forall j | 0 <= j < i :: lines[j].valid
      {
        if !lines[i].valid {
          SpareLine(lines, h, E, i, tag);
          UseOk(lines, h, E, i, tag);
          Fill(index, i, tag);
          return;
        }
        i := i + 1;
      }
      Evict(index, tag, h);
    }

    method Manipulate(address: nat)
      requires Valid()
      modifies this`hits, this`misses, this`evictions, this`blocks, cache, cache.cells
      ensures Valid() && blocks == old(blocks) + [address / B]
    {
      hide Lines, HasTag, Stack, Take, Touch, SetOf, TagOf, SetRep, OfSet, Simulate;
      var index, tag := AddressParts(address);
      ghost var h, x := OfSet(S, index, blocks), address / B;
      var lines := cache.Get(index);
      ghost var was, c := cache.view, Simulate(S, E, blocks);
      SimulateIsStack(S, E, blocks, index);
      Appended(blocks, x, S, E);
      SetRepOf(lines, h, E);
      if lines == [] {
        EmptyLines(E);
        cache.Put(index, seq(E, _ => Line(false, 0, 0)));
        NoTags(E, tag);
        NotThere(E, tag);
      } else {
        NotResident(lines, h, E, tag);
        var hit := Lookup(index, tag, h);
        if hit {
          hits := hits + 1;
          SetsAfter(was, cache.view, S, E, blocks, x, index);
          blocks := blocks + [x];
          return;
        }
      }
      Insert(index, tag, h);
      SetsAfter(was, cache.view, S, E, blocks, x, index);
      blocks := blocks + [x];
    }

    /** The line of the tag, if there is one, is used. */
    method Lookup(index: nat, tag: nat, ghost h: seq<nat>) returns (hit: bool)
      requires Shape() && index < S && Lines(cache.view[index], h, E)
      modifies cache, cache.cells
      ensures Shape() && hit == HasTag(old(cache.view)[index], tag)
      ensures !hit ==> cache.view == old(cache.view)
      ensures hit ==>
                Lines(cache.view[index], h + [tag], E) && forall k | 0 <= k < S
                && k != index :: cache.view[k] == old(cache.view)[k]
    {
      hide Lines, HasTag;
      var lines := cache.Get(index);
      LinesCount(lines, h, E);
      var i: nat := 0;
      while i < E
        invariant i <= E && cache.view == old(cache.view) && Shape()
        invariant forall j | 0 <= j < i :: !(lines[j].valid && lines[j].tag == tag)
      {
        if lines[i].valid && lines[i].tag == tag {
          HitLine(lines, h, E, i, tag);
          UseOk(lines, h, E, i, tag);
          Fill(index, i, tag);
          return true;
        }
        i := i + 1;
      }
      NoneHas(lines, tag);
      hit := false;
    }

    /** The whole trace: M is a load and a store, I is not simulated. */
    method Run(trace: seq<Op>)
      requires Valid() && blocks == [] && 2 * |trace| + 2 < 0x1_0000_0000
      modifies this`hits, this`misses, this`evictions, this`blocks, cache, cache.cells
      ensures Valid() && blocks == Accesses(trace, B)
      ensures Counts(hits, misses, evictions) == Simulate(S, E, Accesses(trace, B)).counts
      ensures hits == |Reuses(S, E, blocks)| && misses == evictions + Total(Simulate(S, E, blocks).sets)
      ensures hits + misses == |Ops(trace, 'L')| + |Ops(trace, 'S')| + 2 * |Ops(trace, 'M')|
    {
      hide SetRep, Simulate, OfSet, Reuses, Total, Ops, OpsOn;
      var i: nat := 0;
      assert trace[..0] == [];
      while i < |trace|
        invariant i <= |trace| && Valid() && blocks == Accesses(trace[..i], B)
      {
        assert trace[..i + 1][..i] == trace[..i];
        match trace[i].identifier {
          case 'I' =>
          case 'M' =>
            Manipulate(trace[i].address);
            Manipulate(trace[i].address);
          case 'L' => Manipulate(trace[i].address);
          case 'S' => Manipulate(trace[i].address);
          case _ =>
        }
        i := i + 1;
      }
      assert trace[..i] == trace;
      HitsAreReuses(S, E, blocks);
      MissesStayOrGo(S, E, blocks);
      CountsAddUp(S, E, blocks);
      AccessTimes(trace, B, 0);
    }

    /** Set index and tag of an address, as its bits above the block offset. */
    method AddressParts(address: nat) returns (index: nat, tag: nat)
      requires Shape()
      ensures index < S && index == SetOf(address / B, S) && tag == TagOf(address / B, S)
      ensures address / B == tag * S + index
    {
      BlockParts(address / B, S);
      index := address / B % S;
      tag := address / B / S;
    }
  }

  lemma LinesCount(lines: seq<Line>, h: seq<nat>, E: nat)
    requires Lines(lines, h, E)
    ensures |lines| == E
  {
  }

  lemma NoTags(E: nat, tag: nat)
    ensures !HasTag(seq(E, _ => Line(false, 0, 0)), tag)
  {
  }

  lemma NotThere(E: nat, tag: nat)
    ensures Take(Stack([]), E) == []
  {
  }

  lemma HitLine(lines: seq<Line>, h: seq<nat>, E: nat, i: nat, t: nat)
    requires Lines(lines, h, E) && i < E && lines[i].valid && lines[i].tag == t
    ensures MayUse(lines, h, E, i, t) && t in Take(Stack(h), E) && HasTag(lines, t)
  {
  }

  lemma SetRepOf(lines: seq<Line>, h: seq<nat>, E: nat)
    requires SetRep(lines, h, E)
    ensures if lines == [] then h == [] else Lines(lines, h, E)
  {
  }

  /** After an access to set index, the lines of all sets are right. */
  lemma SetsAfter(was: seq<seq<Line>>, now: seq<seq<Line>>, S: nat, E: nat, blocks: seq<nat>, x: nat, index: nat)
    requires S > 0 && E > 0 && index == SetOf(x, S) && |was| == |now| == S
    requires forall k | 0 <= k < S :: SetRep(was[k], OfSet(S, k, blocks), E)
    requires Lines(now[index], OfSet(S, index, blocks) + [TagOf(x, S)], E)
    requires forall k | 0 <= k < S && k != index :: now[k] == was[k]
    ensures forall k | 0 <= k < S :: SetRep(now[k], OfSet(S, k, blocks + [x]), E)
  {
    Appended(blocks, x, S, E);
    LinesCount(now[index], OfSet(S, index, blocks) + [TagOf(x, S)], E);
    hide OfSet, Lines, SetOf, TagOf;
    forall k | 0 <= k < S ensures SetRep(now[k], OfSet(S, k, blocks + [x]), E) {
      assert SetRep(was[k], OfSet(S, k, blocks), E);
    }
  }

  lemma NoneHas(lines: seq<Line>, t: nat)
    requires forall j | 0 <= j < |lines| :: !(lines[j].valid && lines[j].tag == t)
    ensures !HasTag(lines, t)
  {
  }

  /** One more access. */
  lemma Appended(blocks: seq<nat>, x: nat, S: nat, E: nat)
    requires S > 0
    ensures forall k | 0 <= k < S :: OfSet(S, k, blocks + [x]) == if k == SetOf(x, S)
            then OfSet(S, k, blocks) + [TagOf(x, S)] else OfSet(S, k, blocks)
    ensures Simulate(S, E, blocks + [x]) == Access(Simulate(S, E, blocks), E, SetOf(x, S), TagOf(x, S))
  {
    assert (blocks + [x])[..|blocks|] == blocks;
    hide SetOf, TagOf, Access;
    forall k | 0 <= k < S ensures OfSet(S, k, blocks + [x]) == if k == SetOf(x, S)
           then OfSet(S, k, blocks) + [TagOf(x, S)] else OfSet(S, k, blocks) {
      assert OfSet(S, k, blocks) + [] == OfSet(S, k, blocks);
    }
  }
}
