/** The client's view of the heap: the payloads of the allocated blocks. */
module MmLive {
  import opened MmBlocks
  import opened MmWords
  import opened MmRings

  /** The payloads in L are the same in both memories. */
  ghost predicate Keeps(m: seq<nat>, m': seq<nat>, L: map<nat, nat>) {
    |m'| == |m| && forall q, x | q in L && q <= x < q + L[q] && x < |m| :: m'[x] == m[x]
  }

  lemma KeepsData(m: seq<nat>, m': seq<nat>, B: Blocks)
    requires SameData(m, m', B)
    ensures Keeps(m, m', Live(B))
  {
  }

  function Elsewhere(L: map<nat, nat>, p: nat, e: nat): map<nat, nat> {
    map q | q in L && (q < p || q >= e) :: L[q]
  }

  lemma LiveAt(B: Blocks, brk: nat, q: nat)
    requires Tiled(B, brk)
    ensures q in Live(B) <==> IsLive(B, q)
    ensures q in Live(B) ==>
              Live(B)[q] == B[q].size - WSIZE && q + B[q].size <= brk && q % DSIZE == 0 && B[q].size >= 2 * DSIZE
  {
    hide Tiled;
    if q in B {
      BlockIs(B, brk, q);
      First(B, brk);
      if q < brk {
        Apart(B, brk, q, brk);
      }
    }
  }

  /** Live payloads are aligned, lie inside the heap and are disjoint. */
  lemma LiveDisjoint(B: Blocks, brk: nat, p: nat, q: nat)
    requires Tiled(B, brk) && p in Live(B) && q in Live(B) && p != q
    ensures PROLOGUE < p && p % DSIZE == 0 && p + Live(B)[p] <= brk
    ensures p + Live(B)[p] + WSIZE <= q || q + Live(B)[q] + WSIZE <= p
  {
    LiveAt(B, brk, p);
    LiveAt(B, brk, q);
    hide Live, Tiled;
    BlockIs(B, brk, p);
    if p < q {
      Apart(B, brk, p, q);
    } else {
      Apart(B, brk, q, p);
    }
  }

  lemma ReplaceLiveAt(B: Blocks, brk: nat, p: nat, e: nat, a: nat, f: bool, q: nat)
    requires CanReplace(B, brk, p, e, a)
    ensures var L, L' := Live(B), Live(Replace(B, p, e, a, f, false));
            && (q in L' <==> (q in L && (q < p || q >= e)) || (f && q == p))
            && (q in L' ==> L'[q] == if q == p then a - WSIZE else L[q])
  {
    hide Replace, Tiled;
    ReplaceTiled(B, brk, p, e, a, f, false);
    Ends(B, brk, p, e);
    ReplaceAt(B, brk, p, e, a, f, false, q);
    hide Live;
    LiveAt(B, brk, q);
    LiveAt(Replace(B, p, e, a, f, false), brk, q);
  }

  /** A new layout takes away the live blocks of the region and adds its own. */
  lemma ReplaceLive(B: Blocks, brk: nat, p: nat, e: nat, a: nat, f: bool)
    requires CanReplace(B, brk, p, e, a)
    ensures Live(Replace(B, p, e, a, f, false)) == (var L := Elsewhere(Live(B), p, e); if f then L[p := a - WSIZE]
              else L)
  {
    hide Replace, Tiled, Live;
    var L, L' := Live(B), Live(Replace(B, p, e, a, f, false));
    forall q: nat ensures (q in L' <==> (q in L && (q < p || q >= e)) || (f && q == p))
           && (q in L' ==> L'[q] == if q == p then a - WSIZE else L[q]) {
      ReplaceLiveAt(B, brk, p, e, a, f, q);
    }
  }

  lemma ReplaceEndLiveAt(B: Blocks, brk: nat, p: nat, a: nat, f: bool, q: nat)
    requires CanReplaceEnd(B, brk, p, a)
    ensures var L, L' := Live(B), Live(ReplaceEnd(B, p, a, f));
            && (q in L' <==> (q in L && q < p) || (f && q == p))
            && (q in L' ==> L'[q] == if q == p then a - WSIZE else L[q])
            && (q in L ==> q < p + a)
  {
    hide ReplaceEnd, Tiled;
    ReplaceEndTiled(B, brk, p, a, f);
    First(B, brk);
    BlockIs(B, brk, p);
    ReplaceEndAt(B, brk, p, a, f, q);
    hide Live;
    LiveAt(B, brk, q);
    LiveAt(ReplaceEnd(B, p, a, f), p + a, q);
  }

  lemma ReplaceEndLive(B: Blocks, brk: nat, p: nat, a: nat, f: bool)
    requires CanReplaceEnd(B, brk, p, a)
    ensures Live(ReplaceEnd(B, p, a, f)) == (var L := Elsewhere(Live(B), p, p + a); if f then L[p := a - WSIZE] else L)
  {
    hide ReplaceEnd, Tiled, Live;
    var L, L' := Live(B), Live(ReplaceEnd(B, p, a, f));
    forall q: nat ensures (q in L' <==> (q in L && q < p) || (f && q == p))
           && (q in L' ==> L'[q] == if q == p then a - WSIZE else L[q]) && (q in L ==> q < p + a) {
      ReplaceEndLiveAt(B, brk, p, a, f, q);
    }
  }

  lemma RelaidKeeps(m: seq<nat>, m': seq<nat>, B: Blocks, brk: nat, p: nat, e: nat)
    requires Tiled(B, brk) && brk <= |m| && p in B && e in B && p < e && Outside(m, m', B, p, e)
    ensures Keeps(m, m', Elsewhere(Live(B), p, e))
  {
    hide Tiled, Outside;
    assert |m'| == |m| by { OutsideLength(m, m', B, p, e); }
    forall q, x | q in Elsewhere(Live(B), p, e) && q <= x < q + Live(B)[q] && x < |m| ensures m'[x] == m[x] {
      LiveAt(B, brk, q);
      RelaidData(m, m', B, brk, p, e, q, x);
    }
  }

  lemma OutsideLength(m: seq<nat>, m': seq<nat>, B: Blocks, p: nat, e: nat)
    requires e in B && Outside(m, m', B, p, e)
    ensures |m'| == |m|
  {
  }

  lemma GrownKeeps(m: seq<nat>, m': seq<nat>, B: Blocks, brk: nat, p: nat, a: nat, f: bool)
    requires CanReplaceEnd(B, brk, p, a) && Grown(m, m', B, p, a, f)
    ensures Keeps(m, m', Elsewhere(Live(B), p, p + a))
  {
    hide Tiled, Marked;
    First(B, brk);
    forall q | q in Elsewhere(Live(B), p, p + a) ensures q + Live(B)[q] + WSIZE <= p {
      LiveAt(B, brk, q);
      GrownApart(B, brk, p, q);
    }
    hide Live, Elsewhere;
  }

  lemma GrownApart(B: Blocks, brk: nat, p: nat, q: nat)
    requires Tiled(B, brk) && p in B && q in B
    ensures q < p ==> q + B[q].size <= p
    ensures q <= brk
  {
    hide Tiled;
    BlockIs(B, brk, q);
    if q < p {
      Apart(B, brk, q, p);
    }
  }

  // ----- adjacency of free blocks -----

  /** If the new layout puts no two free blocks side by side, except around y. */
  ghost predicate Separates(B: Blocks, p: nat, e: nat, a: nat, f: bool, y: nat)
    requires p in B && e in B
  {
    && (f || PrevAlloc(B, p) || y == p) && (p + a < e ==> f || y == p || y == p + a)
    && (B[e].alloc || (f && p + a == e) || y == LastOf(p, e, a))
  }

  lemma ReplaceCoalesced(B: Blocks, brk: nat, p: nat, e: nat, a: nat, f: bool, x: nat, y: nat)
    requires CanReplace(B, brk, p, e, a) && Coalesced(B, x) && (p <= x < e || x !in B) && Separates(B, p, e, a, f, y)
    ensures Coalesced(Replace(B, p, e, a, f, false), y)
  {
    hide Tiled, Replace, Coalesced, Separates;
    var B' := Replace(B, p, e, a, f, false);
    forall q | q in B' && B'[q].prev in B' && q != y && B'[q].prev != y ensures B'[q].alloc || B'[B'[q].prev].alloc {
      CoalescedAt(B, brk, p, e, a, f, x, y, q);
    }
    assert Coalesced(B', y) by { CoalescedIs(B', y); }
  }

  lemma CoalescedIs(B: Blocks, x: nat)
    requires forall q | q in B && B[q].prev in B && q != x && B[q].prev != x :: B[q].alloc || B[B[q].prev].alloc
    ensures Coalesced(B, x)
  {
  }

  lemma PairApart(B: Blocks, x: nat, q: nat)
    requires Coalesced(B, x) && q in B && B[q].prev in B && q != x && B[q].prev != x
    ensures B[q].alloc || PrevAlloc(B, q)
  {
  }

  lemma CoalescedAt(B: Blocks, brk: nat, p: nat, e: nat, a: nat, f: bool, x: nat, y: nat, q: nat)
    requires CanReplace(B, brk, p, e, a) && Coalesced(B, x) && (p <= x < e || x !in B) && Separates(B, p, e, a, f, y)
    requires var B' := Replace(B, p, e, a, f, false); q in B' && B'[q].prev in B' && q != y && B'[q].prev != y
    ensures var B' := Replace(B, p, e, a, f, false); B'[q].alloc || B'[B'[q].prev].alloc
  {
    hide Tiled, Replace, Coalesced;
    var B' := Replace(B, p, e, a, f, false);
    ReplaceAt(B, brk, p, e, a, f, false, q);
    if q == p || q == e || (q == p + a && p + a < e) {
      RelaidNearBlock(B, brk, p, e, a, f, false, q);
    } else {
      RelaidFar(B, brk, p, e, a, f, false, q);
      BlockIs(B, brk, q);
      if q != PROLOGUE {
        if q > e && B[q].prev < e {
          Apart(B, brk, B[q].prev, e);
        }
        PairApart(B, x, q);
      }
    }
  }

  lemma ReplaceEndCoalesced(B: Blocks, brk: nat, p: nat, a: nat, f: bool, y: nat)
    requires CanReplaceEnd(B, brk, p, a) && Coalesced(B, 0) && (f || PrevAlloc(B, p) || y == p)
    ensures Coalesced(ReplaceEnd(B, p, a, f), y)
  {
    hide Tiled, ReplaceEnd, Coalesced;
    var B' := ReplaceEnd(B, p, a, f);
    forall q | q in B' && B'[q].prev in B' && q != y && B'[q].prev != y ensures B'[q].alloc || B'[B'[q].prev].alloc {
      ReplaceEndAt(B, brk, p, a, f, q);
      ReplaceEndAt(B, brk, p, a, f, B'[q].prev);
      BlockIs(B, brk, p);
      if q < p {
        BlockIs(B, brk, q);
        NotZero(B, brk);
        if q != PROLOGUE {
          PairApart(B, 0, q);
        }
      }
    }
    assert Coalesced(B', y) by { CoalescedIs(B', y); }
  }
}
