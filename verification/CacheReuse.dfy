/** When an access hits, said of block numbers alone: how many other blocks of the
    same set have been used since the block's last use. */
module CacheReuse {
  import opened CacheLru

  // ----- set and tag of a block -----

  /** Set and tag identify the block, and the set is its number's low part. */
  lemma BlockParts(x: nat, S: nat)
    requires S > 0
    ensures SetOf(x, S) < S && x == TagOf(x, S) * S + SetOf(x, S)
  {
  }

  lemma SameBlock(x: nat, y: nat, S: nat)
    requires S > 0
    ensures SetOf(x, S) == SetOf(y, S) && TagOf(x, S) == TagOf(y, S) <==> x == y
    ensures SetOf(x, S) == SetOf(y, S) <==> x % S == y % S
  {
    BlockParts(x, S);
    BlockParts(y, S);
  }

  lemma Euclid(q: int, r: nat, p: int, s: nat, S: nat)
    requires q * S + r == p * S + s && r < S && s < S
    ensures q == p && r == s
  {
    if q > p {
      AtLeast(q - p, S);
    } else if q < p {
      AtLeast(p - q, S);
    }
  }

  lemma AtLeast(d: nat, S: nat)
    requires d > 0
    ensures d * S >= S
  {
    assert (d - 1) * S >= 0;
  }

  lemma PartsOf(t: nat, i: nat, S: nat)
    requires i < S
    ensures SetOf(t * S + i, S) == i && TagOf(t * S + i, S) == t
  {
    BlockParts(t * S + i, S);
    Euclid(TagOf(t * S + i, S), SetOf(t * S + i, S), t, i, S);
  }

  // ----- depth in the stack -----

  /** The elements after the last t are those that were used more recently. */
  lemma {:induction false} SinceSplits(h: seq<nat>, t: nat, y: nat)
    requires t in h
    ensures Since(h, t) < |h| && h[|h| - 1 - Since(h, t)] == t
    ensures y in h[|h| - Since(h, t)..] <==> y in h && Since(h, y) < Since(h, t)
  {
    var n := |h| - 1;
    assert h == h[..n] + [h[n]];
    if h[n] != t {
      SinceSplits(h[..n], t, y);
      var k := |h| - Since(h, t);
      assert h[k..] == h[..n][k..] + [h[n]];
    }
  }

  /** There is only one last use. */
  lemma OnlyLast(l: seq<nat>, j: nat, k: nat, n: nat)
    requires j < n <= |l| && k < n && l[j] == l[k] && l[j] !in l[j + 1..n] && l[j] !in l[k + 1..n]
    ensures j == k
  {
    Inside(l, j + 1, n);
    Inside(l, k + 1, n);
  }

  lemma Inside(l: seq<nat>, from: nat, to: nat)
    requires from <= to <= |l|
    ensures forall i | from <= i < to :: l[i] in l[from..to]
  {
    forall i | from <= i < to ensures l[i] in l[from..to] {
      assert l[from..to][i - from] == l[i];
    }
  }

  lemma LastUse(h: seq<nat>, t: nat, j: nat)
    requires j < |h| && h[j] == t && t !in h[j + 1..]
    ensures t in h && Since(h, t) == |h| - 1 - j
  {
    SinceSplits(h, t, t);
    var k := |h| - 1 - Since(h, t);
    assert h[k + 1..] == h[|h| - Since(h, t)..];
    OnlyLast(h, j, k, |h|);
  }

  /** In front of t in the stack is what was used since t. */
  lemma AheadIs(h: seq<nat>, p: nat, j: nat, y: nat)
    requires p < |Stack(h)| && j < |h| && h[j] == Stack(h)[p] && h[j] !in h[j + 1..]
    ensures y in Stack(h)[..p] <==> y in h[j + 1..]
  {
    var s, t := Stack(h), h[j];
    LastUse(h, t, j);
    SinceSplits(h, t, y);
    assert h[|h| - Since(h, t)..] == h[j + 1..];
    StackElements(h, y);
    StackDistinct(h);
    if y in s {
      var k :| 0 <= k < |s| && s[k] == y;
      if k < p {
        assert s[..p][k] == y;
        StackSorted(h, k, p);
      } else if p < k {
        StackSorted(h, p, k);
      }
    }
    hide Stack;
  }

  ghost function Elements(l: seq<nat>): set<nat> {
    set y | y in l
  }

  lemma {:induction false} DistinctSize(l: seq<nat>)
    requires Distinct(l)
    ensures |Elements(l)| == |l|
  {
    if l != [] {
      var n := |l| - 1;
      DistinctSize(l[..n]);
      assert Elements(l) == Elements(l[..n]) + {l[n]};
    }
  }

  /** The depth of a tag in the stack is the number of others used since. */
  lemma Depth(h: seq<nat>, j: nat) returns (p: nat)
    requires j < |h| && h[j] !in h[j + 1..]
    ensures p < |Stack(h)| && Stack(h)[p] == h[j] && p == |Elements(h[j + 1..])|
  {
    var s := Stack(h);
    StackElements(h, h[j]);
    StackDistinct(h);
    p :| 0 <= p < |s| && s[p] == h[j];
    forall y: nat ensures y in s[..p] <==> y in h[j + 1..] {
      AheadIs(h, p, j, y);
    }
    hide Stack;
    assert Elements(h[j + 1..]) == Elements(s[..p]);
    DistinctSize(s[..p]);
  }

  /** A tag is among the E used last exactly if fewer than E others were used since. */
  lemma TopOfStack(h: seq<nat>, E: nat, j: nat)
    requires j < |h| && h[j] !in h[j + 1..]
    ensures h[j] in Take(Stack(h), E) <==> |Elements(h[j + 1..])| < E
  {
    var p := Depth(h, j);
    StackDistinct(h);
    hide Stack, Elements;
    InTake(Stack(h), p, E);
  }

  lemma InTake(s: seq<nat>, p: nat, E: nat)
    requires Distinct(s) && p < |s|
    ensures s[p] in Take(s, E) <==> p < E
  {
    if p < E {
      assert Take(s, E)[p] == s[p];
    } else {
      forall k | 0 <= k < |Take(s, E)| ensures Take(s, E)[k] != s[p] {
        assert Take(s, E)[k] == s[k];
      }
    }
  }

  // ----- from the blocks of all sets to the tags of one -----

  lemma {:induction false} OfSetJoin(S: nat, i: nat, a: seq<nat>, b: seq<nat>)
    requires S > 0
    ensures OfSet(S, i, a + b) == OfSet(S, i, a) + OfSet(S, i, b)
  {
    if b == [] {
      assert a + b == a;
    } else {
      var n := |b| - 1;
      assert (a + b)[..|a + b| - 1] == a + b[..n];
      OfSetJoin(S, i, a, b[..n]);
      hide SetOf, TagOf;
    }
  }

  lemma {:induction false} OfSetElements(S: nat, i: nat, bs: seq<nat>, t: nat)
    requires i < S
    ensures t in OfSet(S, i, bs) <==> t * S + i in bs
  {
    if bs != [] {
      var n := |bs| - 1;
      OfSetElements(S, i, bs[..n], t);
      BlockParts(bs[n], S);
      PartsOf(t, i, S);
      assert bs == bs[..n] + [bs[n]];
      hide SetOf, TagOf;
    }
  }

  /** The blocks of x's set among bs. */
  ghost function SameSet(S: nat, bs: seq<nat>, x: nat): set<nat>
    requires S > 0
  {
    set y | y in bs && y % S == x % S
  }

  lemma {:induction false} TagsOfSet(A: set<nat>, S: nat, i: nat)
    requires S > 0 && forall y | y in A :: SetOf(y, S) == i
    ensures |set y | y in A :: TagOf(y, S)| == |A|
  {
    if A != {} {
      var x :| x in A;
      TagsOfSet(A - {x}, S, i);
      forall y | y in A - {x} ensures TagOf(y, S) != TagOf(x, S) {
        SameBlock(x, y, S);
      }
      assert (set y | y in A :: TagOf(y, S)) == (set y | y in A - {x} :: TagOf(y, S)) + {TagOf(x, S)};
    }
  }

  lemma SameSetSize(S: nat, bs: seq<nat>, x: nat)
    requires S > 0
    ensures |Elements(OfSet(S, SetOf(x, S), bs))| == |SameSet(S, bs, x)|
  {
    var i, A := SetOf(x, S), SameSet(S, bs, x);
    forall y | y in A ensures SetOf(y, S) == i {
      SameBlock(x, y, S);
    }
    TagsOfSet(A, S, i);
    var T := set y | y in A :: TagOf(y, S);
    forall t: nat ensures t in OfSet(S, i, bs) <==> t in T {
      OfSetElements(S, i, bs, t);
      PartsOf(t, i, S);
      if t * S + i in bs {
        SameBlock(x, t * S + i, S);
        assert t * S + i in A;
      }
      if t in T {
        var y :| y in A && TagOf(y, S) == t;
        BlockParts(y, S);
      }
    }
    assert Elements(OfSet(S, i, bs)) == T;
  }

  // ----- hits -----

  /** Fewer than E other blocks of its set were used since the last use of blocks[n]. */
  ghost predicate Reused(S: nat, E: nat, blocks: seq<nat>, n: nat)
    requires S > 0 && n < |blocks|
  {
    exists j | 0 <= j < n :: && blocks[j] == blocks[n] && blocks[n] !in blocks[j + 1..n]
                             && |SameSet(S, blocks[j + 1..n], blocks[n])| < E
  }

  lemma {:induction false} LastOf(bs: seq<nat>, x: nat) returns (j: nat)
    requires x in bs
    ensures j < |bs| && bs[j] == x && x !in bs[j + 1..]
  {
    var n := |bs| - 1;
    if bs[n] == x {
      j := n;
    } else {
      assert bs == bs[..n] + [bs[n]];
      j := LastOf(bs[..n], x);
      assert bs[j + 1..] == bs[..n][j + 1..] + [bs[n]];
    }
  }

  /** The accesses to the set of bs[j], split at that access. */
  lemma OfSetAround(S: nat, bs: seq<nat>, j: nat)
    requires S > 0 && j < |bs|
    ensures var i, t := SetOf(bs[j], S), TagOf(bs[j], S);
            OfSet(S, i, bs) == OfSet(S, i, bs[..j]) + [t] + OfSet(S, i, bs[j + 1..])
  {
    var x, i := bs[j], SetOf(bs[j], S);
    assert bs == (bs[..j] + [x]) + bs[j + 1..];
    OfSetJoin(S, i, bs[..j] + [x], bs[j + 1..]);
    OfSetJoin(S, i, bs[..j], [x]);
    assert [x][..0] == [] && OfSet(S, i, [x]) == [TagOf(x, S)];
    hide SetOf, TagOf, OfSet;
  }

  /** With last use at j, the block is resident exactly if its set saw fewer than E others. */
  lemma ResidentAfter(S: nat, E: nat, bs: seq<nat>, j: nat)
    requires S > 0 && E > 0 && j < |bs| && bs[j] !in bs[j + 1..]
    ensures var x := bs[j];
            TagOf(x, S) in Simulate(S, E, bs).sets[SetOf(x, S)] <==> |SameSet(S, bs[j + 1..], x)| < E
  {
    hide SetOf, TagOf, Stack, Simulate, OfSet, SameSet, Elements, Take;
    var x := bs[j];
    var i, t, rest := SetOf(x, S), TagOf(x, S), bs[j + 1..];
    SimulateIsStack(S, E, bs, i);
    BlockParts(x, S);
    var before, after := OfSet(S, i, bs[..j]), OfSet(S, i, rest);
    OfSetAround(S, bs, j);
    var h := OfSet(S, i, bs);
    assert h[|before| + 1..] == after;
    OfSetElements(S, i, rest, t);
    TopOfStack(h, E, |before|);
    SameSetSize(S, rest, x);
  }

  /** An access hits exactly if it reuses its block soon enough. */
  lemma HitIff(S: nat, E: nat, blocks: seq<nat>, n: nat)
    requires S > 0 && E > 0 && n < |blocks|
    ensures var x := blocks[n];
            TagOf(x, S) in Simulate(S, E, blocks[..n]).sets[SetOf(x, S)] <==> Reused(S, E, blocks, n)
  {
    var x, bs := blocks[n], blocks[..n];
    if x in bs {
      var j := LastOf(bs, x);
      ResidentAfter(S, E, bs, j);
      assert bs[j + 1..] == blocks[j + 1..n];
      forall k | 0 <= k < n && blocks[k] == x && x !in blocks[k + 1..n] ensures k == j {
        OnlyLast(blocks, j, k, n);
      }
    } else {
      NeverUsed(S, E, bs, x);
      assert forall k | 0 <= k < n :: bs[k] != x;
    }
    hide SetOf, TagOf, Simulate, SameSet;
  }

  lemma NeverUsed(S: nat, E: nat, bs: seq<nat>, x: nat)
    requires S > 0 && E > 0 && x !in bs
    ensures TagOf(x, S) !in Simulate(S, E, bs).sets[SetOf(x, S)]
  {
    var i, t := SetOf(x, S), TagOf(x, S);
    SimulateIsStack(S, E, bs, i);
    OfSetElements(S, i, bs, t);
    BlockParts(x, S);
    StackElements(OfSet(S, i, bs), t);
  }

  /** The accesses that reuse their block soon enough. */
  ghost function Reuses(S: nat, E: nat, blocks: seq<nat>): set<nat>
    requires S > 0
  {
    set n | 0 <= n < |blocks| && Reused(S, E, blocks, n)
  }

  lemma OneMore(S: nat, E: nat, blocks: seq<nat>, n: nat)
    requires S > 0 && |blocks| == n + 1
    ensures |Reuses(S, E, blocks)| == |Reuses(S, E, blocks[..n])| + if Reused(S, E, blocks, n) then 1 else 0
  {
    forall k | 0 <= k < n ensures Reused(S, E, blocks[..n], k) == Reused(S, E, blocks, k) {
      ReusedBefore(S, E, blocks, n, k);
    }
    hide Reused;
    var r := Reuses(S, E, blocks[..n]);
    assert Reuses(S, E, blocks) == if Reused(S, E, blocks, n) then r + {n} else r;
    assert n !in r;
  }

  /** The hits of a run are these accesses, and no others. */
  lemma {:induction false} HitsAreReuses(S: nat, E: nat, blocks: seq<nat>)
    requires S > 0 && E > 0
    ensures Simulate(S, E, blocks).counts.hits == |Reuses(S, E, blocks)|
  {
    hide Reused, SetOf, TagOf, Touch, Reuses;
    if blocks == [] {
      NoReuses(S, E);
    } else {
      var n := |blocks| - 1;
      HitsAreReuses(S, E, blocks[..n]);
      HitIff(S, E, blocks, n);
      OneMore(S, E, blocks, n);
    }
  }

  lemma NoReuses(S: nat, E: nat)
    requires S > 0
    ensures Reuses(S, E, []) == {}
  {
  }

  lemma ReusedBefore(S: nat, E: nat, blocks: seq<nat>, n: nat, k: nat)
    requires S > 0 && k < n <= |blocks|
    ensures Reused(S, E, blocks[..n], k) == Reused(S, E, blocks, k)
  {
    assert blocks[..n][k] == blocks[k];
    if Reused(S, E, blocks[..n], k) {
      var j :| && 0 <= j < k && blocks[..n][j] == blocks[..n][k] && blocks[..n][k] !in blocks[..n][j + 1..k]
               && |SameSet(S, blocks[..n][j + 1..k], blocks[..n][k])| < E;
      assert blocks[..n][j + 1..k] == blocks[j + 1..k] && blocks[..n][j] == blocks[j];
    }
    if Reused(S, E, blocks, k) {
      var j :| && 0 <= j < k && blocks[j] == blocks[k] && blocks[k] !in blocks[j + 1..k]
               && |SameSet(S, blocks[j + 1..k], blocks[k])| < E;
      assert blocks[..n][j + 1..k] == blocks[j + 1..k] && blocks[..n][j] == blocks[j];
    }
    hide SameSet;
  }

  // ----- evictions -----

  function Total(sets: seq<seq<nat>>): nat {
    if sets == [] then 0 else Total(sets[..|sets| - 1]) + |sets[|sets| - 1]|
  }

  lemma {:induction false} TotalSet(sets: seq<seq<nat>>, i: nat, l: seq<nat>)
    requires i < |sets|
    ensures Total(sets[i := l]) == Total(sets) - |sets[i]| + |l|
  {
    var n := |sets| - 1;
    if i < n {
      assert sets[i := l][..n] == sets[..n][i := l];
      TotalSet(sets[..n], i, l);
    } else {
      assert sets[i := l][..n] == sets[..n];
    }
  }

  lemma {:induction false} TotalEmpty(sets: seq<seq<nat>>)
    requires forall k | 0 <= k < |sets| :: sets[k] == []
    ensures Total(sets) == 0
  {
    if sets != [] {
      TotalEmpty(sets[..|sets| - 1]);
    }
  }

  /** Whatever missed has been evicted or is resident still. */
  lemma {:induction false} MissesStayOrGo(S: nat, E: nat, blocks: seq<nat>)
    requires S > 0 && E > 0
    ensures var r := Simulate(S, E, blocks); r.counts.misses == r.counts.evictions + Total(r.sets)
  {
    if blocks == [] {
      TotalEmpty(Simulate(S, E, blocks).sets);
    } else {
      var n := |blocks| - 1;
      var r, x := Simulate(S, E, blocks[..n]), blocks[n];
      var i, t := SetOf(x, S), TagOf(x, S);
      MissesStayOrGo(S, E, blocks[..n]);
      TotalSet(r.sets, i, Touch(r.sets[i], t, E));
      SimulateIsStack(S, E, blocks[..n], i);
      hide SetOf, TagOf, OfSet;
      TouchSize(OfSet(S, i, blocks[..n]), t, E);
    }
  }

  lemma TouchSize(h: seq<nat>, t: nat, E: nat)
    requires E > 0
    ensures var l := Take(Stack(h), E); |Touch(l, t, E)| == if t in l || |l| == E then |l| else |l| + 1
  {
    StackDistinct(h);
    var l := Take(Stack(h), E);
    hide Stack;
    assert Distinct(l);
    WithoutDistinct(l, t);
  }

  /** A set holds as many blocks as it has been asked for, up to E. */
  lemma SetFill(S: nat, E: nat, blocks: seq<nat>, k: nat)
    requires k < S && E > 0
    ensures var n := |SameSet(S, blocks, k)|; |Simulate(S, E, blocks).sets[k]| == if n < E then n else E
  {
    PartsOf(0, k, S);
    SimulateIsStack(S, E, blocks, k);
    SameSetSize(S, blocks, k);
    hide SetOf, TagOf, Stack, Simulate, OfSet, SameSet;
    var h := OfSet(S, k, blocks);
    StackDistinct(h);
    forall y: nat ensures y in Stack(h) <==> y in h {
      StackElements(h, y);
    }
    assert Elements(Stack(h)) == Elements(h);
    DistinctSize(Stack(h));
  }
}
