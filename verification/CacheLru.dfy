/** What a set-associative cache with least-recently-used replacement does: the
    recency-list simulator, and the stack of which its lists are prefixes. */
module CacheLru {

  // ----- the simulator -----

  function Without(l: seq<nat>, t: nat): (r: seq<nat>)
    ensures t !in r && |r| <= |l|
  {
    if l == [] then [] else if l[0] == t then Without(l[1..], t) else [l[0]] + Without(l[1..], t)
  }

  function Take(l: seq<nat>, n: nat): (r: seq<nat>)
    ensures |r| <= n && r <= l
  {
    if |l| <= n then l else l[..n]
  }

  /** An access to t moves it to the front; the last of more than E tags goes. */
  function Touch(l: seq<nat>, t: nat, E: nat): seq<nat> {
    Take([t] + Without(l, t), E)
  }

  datatype Counts = Counts(hits: nat, misses: nat, evictions: nat)

  /** A list for each set, and the counts so far. */
  datatype Lru = Lru(sets: seq<seq<nat>>, counts: Counts)

  function Access(c: Lru, E: nat, set_: nat, tag: nat): (r: Lru)
    requires set_ < |c.sets|
    ensures |r.sets| == |c.sets|
  {
    var l := c.sets[set_];
    Lru(c.sets[set_ := Touch(l, tag, E)],
        if tag in l then c.counts.(hits := c.counts.hits + 1)
        else if |l| < E then c.counts.(misses := c.counts.misses + 1)
        else c.counts.(misses := c.counts.misses + 1, evictions := c.counts.evictions + 1))
  }

  /** The low bits of a block number choose the set, the others are the tag. */
  function SetOf(x: nat, S: nat): (i: nat)
    requires S > 0
    ensures i < S
  {
    x % S
  }

  function TagOf(x: nat, S: nat): nat
    requires S > 0
  {
    x / S
  }

  /** Block numbers (addresses without the offset bits) in the order of access. */
  function Simulate(S: nat, E: nat, blocks: seq<nat>): (r: Lru)
    requires S > 0
    ensures |r.sets| == S
  {
    if blocks == [] then Lru(seq(S, _ => []), Counts(0, 0, 0))
    else
      var x := blocks[|blocks| - 1];
      Access(Simulate(S, E, blocks[..|blocks| - 1]), E, SetOf(x, S), TagOf(x, S))
  }

  // ----- the stack -----

  /** All tags ever used, the most recent first. */
  function Stack(h: seq<nat>): seq<nat> {
    if h == [] then [] else [h[|h| - 1]] + Without(Stack(h[..|h| - 1]), h[|h| - 1])
  }

  /** Accesses since the last one to t. */
  function Since(h: seq<nat>, t: nat): nat
    requires t in h
  {
    if h[|h| - 1] == t then 0 else 1 + Since(h[..|h| - 1], t)
  }

  ghost predicate Distinct(l: seq<nat>) {
    forall i, j | 0 <= i < j < |l| :: l[i] != l[j]
  }

  lemma {:induction false} WithoutElements(l: seq<nat>, t: nat, x: nat)
    ensures x in Without(l, t) <==> x in l && x != t
  {
    if l != [] {
      WithoutElements(l[1..], t, x);
      assert x in l <==> x == l[0] || x in l[1..];
    }
  }

  lemma {:induction false} WithoutAbsent(l: seq<nat>, t: nat)
    requires t !in l
    ensures Without(l, t) == l
  {
    if l != [] {
      WithoutAbsent(l[1..], t);
    }
  }

  lemma {:induction false} WithoutDistinct(l: seq<nat>, t: nat)
    requires Distinct(l)
    ensures Distinct(Without(l, t)) && |Without(l, t)| == if t in l then |l| - 1 else |l|
  {
    if l != [] {
      assert Distinct(l[1..]) && l[0] !in l[1..];
      WithoutDistinct(l[1..], t);
      WithoutElements(l[1..], t, l[0]);
      if l[0] == t {
        WithoutAbsent(l[1..], t);
      }
    }
  }

  /** Removing from a prefix gives a prefix. */
  lemma {:induction false} WithoutPrefix(l: seq<nat>, n: nat, t: nat)
    requires Distinct(l) && n <= |l|
    ensures Without(l[..n], t) <= Without(l, t) && |Without(l[..n], t)| == if t in l[..n] then n - 1 else n
  {
    if n > 0 {
      assert Distinct(l[1..]) && l[..n][1..] == l[1..][..n - 1];
      WithoutPrefix(l[1..], n - 1, t);
      assert forall i | 0 <= i < n - 1 :: l[1..][i] == l[i + 1];
    }
  }

  lemma {:induction false} StackElements(h: seq<nat>, x: nat)
    ensures x in Stack(h) <==> x in h
  {
    if h != [] {
      var n := |h| - 1;
      StackElements(h[..n], x);
      WithoutElements(Stack(h[..n]), h[n], x);
      assert h == h[..n] + [h[n]];
    }
  }

  lemma {:induction false} StackDistinct(h: seq<nat>)
    ensures Distinct(Stack(h))
  {
    if h != [] {
      var n := |h| - 1;
      StackDistinct(h[..n]);
      WithoutDistinct(Stack(h[..n]), h[n]);
    }
  }

  /** The simulator's list is the top of the stack. */
  lemma TouchIsStack(h: seq<nat>, t: nat, E: nat)
    requires E > 0
    ensures Touch(Take(Stack(h), E), t, E) == Take(Stack(h + [t]), E)
  {
    assert (h + [t])[..|h|] == h;
    StackDistinct(h);
    var l := Stack(h);
    if |l| > E {
      WithoutPrefix(l, E, t);
      WithoutDistinct(l, t);
      var a, b := Without(l[..E], t), Without(l, t);
      assert |a| >= E - 1 && a <= b;
      assert ([t] + a)[..E] == ([t] + b)[..E];
    }
  }

  /** Deeper in the stack means longer ago. */
  lemma {:induction false} StackSorted(h: seq<nat>, i: nat, j: nat)
    requires i < j < |Stack(h)|
    ensures Stack(h)[i] in h && Stack(h)[j] in h && Since(h, Stack(h)[i]) < Since(h, Stack(h)[j])
  {
    var n := |h| - 1;
    var l, t := Stack(h[..n]), h[n];
    assert h == h[..n] + [t];
    StackElements(h, Stack(h)[i]);
    StackElements(h, Stack(h)[j]);
    StackDistinct(h);
    assert Stack(h)[0] == t && Stack(h)[j] != t;
    var w := Without(l, t);
    assert Stack(h)[j] == w[j - 1];
    if i > 0 {
      assert Stack(h)[i] == w[i - 1] && Stack(h)[i] != t;
      var x, y := WithoutOrder(l, t, i - 1, j - 1);
      StackSorted(h[..n], x, y);
    }
  }

  /** Removing keeps the order. */
  lemma {:induction false} WithoutOrder(l: seq<nat>, t: nat, i: nat, j: nat) returns (x: nat, y: nat)
    requires i < j < |Without(l, t)|
    ensures x < y < |l| && l[x] == Without(l, t)[i] && l[y] == Without(l, t)[j]
  {
    if l[0] == t {
      x, y := WithoutOrder(l[1..], t, i, j);
      x, y := x + 1, y + 1;
    } else if i == 0 {
      x := 0;
      y := WithoutAt(l[1..], t, j - 1);
      y := y + 1;
    } else {
      x, y := WithoutOrder(l[1..], t, i - 1, j - 1);
      x, y := x + 1, y + 1;
    }
  }

  lemma {:induction false} WithoutAt(l: seq<nat>, t: nat, j: nat) returns (y: nat)
    requires j < |Without(l, t)|
    ensures y < |l| && l[y] == Without(l, t)[j]
  {
    if l[0] == t {
      y := WithoutAt(l[1..], t, j);
      y := y + 1;
    } else if j == 0 {
      y := 0;
    } else {
      y := WithoutAt(l[1..], t, j - 1);
      y := y + 1;
    }
  }

  // ----- inclusion -----

  /** The tags of the accesses to one set. */
  function OfSet(S: nat, set_: nat, blocks: seq<nat>): seq<nat>
    requires S > 0
  {
    if blocks == [] then []
    else
      var x := blocks[|blocks| - 1];
      OfSet(S, set_, blocks[..|blocks| - 1]) + if SetOf(x, S) == set_ then [TagOf(x, S)] else []
  }

  lemma {:induction false} SimulateIsStack(S: nat, E: nat, blocks: seq<nat>, set_: nat)
    requires set_ < S && E > 0
    ensures Simulate(S, E, blocks).sets[set_] == Take(Stack(OfSet(S, set_, blocks)), E)
  {
    if blocks != [] {
      hide SetOf, TagOf, Stack, Touch, Take;
      var before, x := blocks[..|blocks| - 1], blocks[|blocks| - 1];
      var h, t := OfSet(S, set_, before), TagOf(x, S);
      SimulateIsStack(S, E, before, set_);
      TouchIsStack(h, t, E);
      assert h + [] == h;
    }
  }

  /** What E lines hold, E + 1 lines hold as well, after every access. */
  lemma Inclusion(S: nat, E: nat, blocks: seq<nat>, set_: nat, t: nat)
    requires set_ < S && E > 0
    ensures t in Simulate(S, E, blocks).sets[set_] ==> t in Simulate(S, E + 1, blocks).sets[set_]
  {
    SimulateIsStack(S, E, blocks, set_);
    SimulateIsStack(S, E + 1, blocks, set_);
  }

  /** More lines never give fewer hits, on any sequence of accesses. */
  lemma {:induction false} HitsMonotone(S: nat, E: nat, blocks: seq<nat>)
    requires S > 0 && E > 0
    ensures Simulate(S, E, blocks).counts.hits <= Simulate(S, E + 1, blocks).counts.hits
  {
    if blocks != [] {
      var before, x := blocks[..|blocks| - 1], blocks[|blocks| - 1];
      hide SetOf, TagOf, Touch;
      HitsMonotone(S, E, before);
      Inclusion(S, E, before, SetOf(x, S), TagOf(x, S));
    }
  }

  /** Hits and misses add up to the accesses. */
  lemma {:induction false} CountsAddUp(S: nat, E: nat, blocks: seq<nat>)
    requires S > 0
    ensures Simulate(S, E, blocks).counts.hits + Simulate(S, E, blocks).counts.misses == |blocks|
  {
    if blocks != [] {
      CountsAddUp(S, E, blocks[..|blocks| - 1]);
    }
  }
}
