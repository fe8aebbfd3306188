/** The block structure of the segregated-fit heap: blocks tile the heap from the
    prologue to the epilogue, and every operation relays out one run of blocks. */
module MmBlocks {

  const WSIZE: nat := 4
  const DSIZE: nat := 8
  const CHUNKSIZE: nat := 64
  const CLASSNUM: nat := 12

  /** The list heads come first; block pointers point past the block's header. */
  const LISTS_END: nat := CLASSNUM * WSIZE
  const PROLOGUE: nat := LISTS_END + 2 * WSIZE

  /** prev is the block before this one in memory. */
  datatype Blk = Blk(size: nat, alloc: bool, prev: nat)

  type Blocks = map<nat, Blk>

  // ----- tiling -----

  ghost predicate BlockAt(B: Blocks, brk: nat, p: nat)
    requires p in B
  {
    var b := B[p];
    && PROLOGUE <= p <= brk && p % DSIZE == 0 && b.size % DSIZE == 0
    && (if p == brk then b.size == 0 && b.alloc
        else b.size >= DSIZE && p + b.size in B && B[p + b.size].prev == p)
    && (if p == PROLOGUE then b == Blk(DSIZE, true, 0)
        else b.prev in B && b.prev < p && b.prev + B[b.prev].size == p && (p != brk ==> b.size >= 2 * DSIZE))
  }

  /** Blocks follow one another without gap or overlap, aligned to 8 bytes, from
      the prologue to the epilogue at brk. */
  ghost predicate Tiled(B: Blocks, brk: nat) {
    && PROLOGUE in B && brk in B && PROLOGUE < brk
    && (forall p {:trigger BlockAt(B, brk, p)} | p in B :: BlockAt(B, brk, p))
    && (forall p, q | p in B && q in B && p < q :: p + B[p].size <= q)
  }

  /** The blocks from p up to e become one block of size a, and one more if that
      leaves something. */
  function Replace(B: Blocks, p: nat, e: nat, a: nat, f: bool, g: bool): Blocks
    requires p in B && e in B && p + a <= e
  {
    var kept := map q | q in B && (q < p || q >= e) :: B[q];
    if p + a == e then
      kept[p := Blk(a, f, B[p].prev)][e := B[e].(prev := p)]
    else
      kept[p := Blk(a, f, B[p].prev)][p + a := Blk(e - p - a, g, p)][e := B[e].(prev := p + a)]
  }

  ghost predicate CanReplace(B: Blocks, brk: nat, p: nat, e: nat, a: nat) {
    && Tiled(B, brk) && p in B && e in B && PROLOGUE < p < e
    && 2 * DSIZE <= a && a % DSIZE == 0 && (p + a == e || p + a + 2 * DSIZE <= e)
  }

  /** The last block of the new layout before e. */
  function LastOf(p: nat, e: nat, a: nat): nat {
    if p + a == e then p else p + a
  }

  lemma BlockIs(B: Blocks, brk: nat, p: nat)
    requires Tiled(B, brk) && p in B
    ensures BlockAt(B, brk, p)
  {
    assert BlockAt(B, brk, p);
  }

  lemma Apart(B: Blocks, brk: nat, p: nat, q: nat)
    requires Tiled(B, brk) && p in B && q in B && p < q
    ensures p + B[p].size <= q
  {
  }

  lemma ReplaceAt(B: Blocks, brk: nat, p: nat, e: nat, a: nat, f: bool, g: bool, q: nat)
    requires CanReplace(B, brk, p, e, a)
    ensures var B' := Replace(B, p, e, a, f, g);
            && (q in B' <==> (q in B && (q < p || q >= e)) || q == p || (q == p + a && p + a < e))
            && (q in B' ==> B'[q] == if q == p then Blk(a, f, B[p].prev)
                                     else if q == p + a && p + a < e then Blk(e - p - a, g, p)
                                     else if q == e then B[e].(prev := LastOf(p, e, a)) else B[q])
  {
    hide Tiled;
  }

  lemma ReplaceTiled(B: Blocks, brk: nat, p: nat, e: nat, a: nat, f: bool, g: bool)
    requires CanReplace(B, brk, p, e, a)
    ensures Tiled(Replace(B, p, e, a, f, g), brk)
  {
    hide BlockAt, Replace, Tiled;
    var B' := Replace(B, p, e, a, f, g);
    Ends(B, brk, p, e);
    ReplaceAt(B, brk, p, e, a, f, g, PROLOGUE);
    ReplaceAt(B, brk, p, e, a, f, g, brk);
    forall q | q in B' ensures BlockAt(B', brk, q) {
      ReplaceBlock(B, brk, p, e, a, f, g, q);
    }
    forall q, r | q in B' && r in B' && q < r ensures q + B'[q].size <= r {
      ReplaceApart(B, brk, p, e, a, f, g, q, r);
    }
    assert Tiled(B', brk) by { TiledIs(B', brk); }
  }

  lemma TiledIs(B: Blocks, brk: nat)
    requires PROLOGUE in B && brk in B && PROLOGUE < brk
    requires forall p {:trigger BlockAt(B, brk, p)} | p in B :: BlockAt(B, brk, p)
    requires forall p, q | p in B && q in B && p < q :: p + B[p].size <= q
    ensures Tiled(B, brk)
  {
  }

  lemma Ends(B: Blocks, brk: nat, p: nat, e: nat)
    requires Tiled(B, brk) && p in B && e in B && PROLOGUE < p < e
    ensures PROLOGUE in B && brk in B && p < brk && e <= brk
  {
    BlockIs(B, brk, p);
    BlockIs(B, brk, e);
    hide Tiled;
  }

  lemma ReplaceApart(B: Blocks, brk: nat, p: nat, e: nat, a: nat, f: bool, g: bool, q: nat, r: nat)
    requires CanReplace(B, brk, p, e, a)
    requires q in Replace(B, p, e, a, f, g) && r in Replace(B, p, e, a, f, g) && q < r
    ensures q + Replace(B, p, e, a, f, g)[q].size <= r
  {
    hide Tiled, Replace;
    ReplaceAt(B, brk, p, e, a, f, g, q);
    ReplaceAt(B, brk, p, e, a, f, g, r);
    if q in B && q < p {
      Apart(B, brk, q, p);
    }
    if q in B && r in B {
      Apart(B, brk, q, r);
    }
  }

  lemma ReplaceBlock(B: Blocks, brk: nat, p: nat, e: nat, a: nat, f: bool, g: bool, q: nat)
    requires CanReplace(B, brk, p, e, a) && q in Replace(B, p, e, a, f, g)
    ensures BlockAt(Replace(B, p, e, a, f, g), brk, q)
  {
    hide Tiled, Replace;
    var B' := Replace(B, p, e, a, f, g);
    Ends(B, brk, p, e);
    ReplaceAt(B, brk, p, e, a, f, g, q);
    ReplaceAt(B, brk, p, e, a, f, g, p);
    ReplaceAt(B, brk, p, e, a, f, g, e);
    ReplaceAt(B, brk, p, e, a, f, g, p + a);
    BlockIs(B, brk, p);
    BlockIs(B, brk, e);
    if q in B {
      BlockIs(B, brk, q);
    }
    if q in B && (q < p || q > e) {
      ReplaceFar(B, brk, p, e, a, f, g, q);
    } else if q == p {
      ReplaceAt(B, brk, p, e, a, f, g, B[p].prev);
    } else if q == e && e != brk {
      ReplaceAt(B, brk, p, e, a, f, g, e + B[e].size);
    }
  }

  /** Blocks outside the region keep their neighbours. */
  lemma ReplaceFar(B: Blocks, brk: nat, p: nat, e: nat, a: nat, f: bool, g: bool, q: nat)
    requires CanReplace(B, brk, p, e, a) && q in B && (q < p || q > e)
    ensures q in Replace(B, p, e, a, f, g) && Replace(B, p, e, a, f, g)[q] == B[q]
            && BlockAt(Replace(B, p, e, a, f, g), brk, q)
  {
    hide Tiled, Replace;
    ReplaceAt(B, brk, p, e, a, f, g, q);
    BlockIs(B, brk, q);
    if q != brk {
      var n := q + B[q].size;
      ReplaceAt(B, brk, p, e, a, f, g, n);
      if q < p {
        Apart(B, brk, q, p);
      }
    }
    if q != PROLOGUE {
      ReplaceAt(B, brk, p, e, a, f, g, B[q].prev);
      if q > e {
        BlockIs(B, brk, B[q].prev);
        if B[q].prev < e {
          Apart(B, brk, B[q].prev, e);
        }
      }
    }
  }

  /** Block p lies between prologue and epilogue, and another block follows it. */
  ghost predicate Real(B: Blocks, brk: nat, p: nat) {
    && p in B && PROLOGUE + DSIZE <= p && p % DSIZE == 0 && B[p].size % DSIZE == 0 && 2 * DSIZE <= B[p].size
    && p + B[p].size in B && p + B[p].size <= brk && B[p + B[p].size].prev == p && B[p].prev in B && B[p].prev < p
  }

  lemma RealIs(B: Blocks, brk: nat, p: nat)
    requires Tiled(B, brk) && p in B && p != PROLOGUE && B[p].size != 0
    ensures Real(B, brk, p)
  {
    hide Tiled;
    BlockIs(B, brk, p);
    First(B, brk);
    Apart(B, brk, PROLOGUE, p);
    if p < brk {
      Apart(B, brk, p, brk);
    }
  }

  lemma FreeIsReal(B: Blocks, brk: nat, p: nat)
    requires Tiled(B, brk) && p in B && !B[p].alloc
    ensures Real(B, brk, p)
  {
    hide Tiled;
    BlockIs(B, brk, p);
    RealIs(B, brk, p);
  }

  // ----- growing the heap -----

  /** The blocks from p on become one block of size a, followed by a new epilogue. */
  function ReplaceEnd(B: Blocks, p: nat, a: nat, f: bool): Blocks
    requires p in B
  {
    (map q | q in B && q < p :: B[q])[p := Blk(a, f, B[p].prev)][p + a := Blk(0, true, p)]
  }

  ghost predicate CanReplaceEnd(B: Blocks, brk: nat, p: nat, a: nat) {
    Tiled(B, brk) && p in B && PROLOGUE < p && brk <= p + a && 2 * DSIZE <= a && a % DSIZE == 0
  }

  lemma ReplaceEndAt(B: Blocks, brk: nat, p: nat, a: nat, f: bool, q: nat)
    requires CanReplaceEnd(B, brk, p, a)
    ensures var B' := ReplaceEnd(B, p, a, f);
            && (q in B' <==> (q in B && q < p) || q == p || q == p + a)
            && (q in B' ==> B'[q] == if q == p then Blk(a, f, B[p].prev) else if q == p + a then Blk(0, true, p)
                 else B[q])
  {
    hide Tiled;
  }

  lemma ReplaceEndTiled(B: Blocks, brk: nat, p: nat, a: nat, f: bool)
    requires CanReplaceEnd(B, brk, p, a)
    ensures Tiled(ReplaceEnd(B, p, a, f), p + a)
  {
    hide BlockAt, ReplaceEnd, Tiled;
    var B' := ReplaceEnd(B, p, a, f);
    First(B, brk);
    ReplaceEndAt(B, brk, p, a, f, PROLOGUE);
    ReplaceEndAt(B, brk, p, a, f, p + a);
    forall q | q in B' ensures BlockAt(B', p + a, q) {
      ReplaceEndBlock(B, brk, p, a, f, q);
    }
    forall q, r | q in B' && r in B' && q < r ensures q + B'[q].size <= r {
      ReplaceEndAt(B, brk, p, a, f, q);
      ReplaceEndAt(B, brk, p, a, f, r);
      if q < p {
        Apart(B, brk, q, p);
        if r < p {
          Apart(B, brk, q, r);
        }
      }
    }
    assert Tiled(B', p + a) by { TiledIs(B', p + a); }
  }

  lemma First(B: Blocks, brk: nat)
    requires Tiled(B, brk)
    ensures PROLOGUE in B && brk in B && PROLOGUE < brk
  {
  }

  lemma ReplaceEndBlock(B: Blocks, brk: nat, p: nat, a: nat, f: bool, q: nat)
    requires CanReplaceEnd(B, brk, p, a) && q in ReplaceEnd(B, p, a, f)
    ensures BlockAt(ReplaceEnd(B, p, a, f), p + a, q)
  {
    hide Tiled, ReplaceEnd;
    ReplaceEndAt(B, brk, p, a, f, q);
    ReplaceEndAt(B, brk, p, a, f, p);
    ReplaceEndAt(B, brk, p, a, f, p + a);
    BlockIs(B, brk, p);
    ReplaceEndAt(B, brk, p, a, f, B[p].prev);
    if q < p {
      BlockIs(B, brk, q);
      First(B, brk);
      Apart(B, brk, q, p);
      ReplaceEndAt(B, brk, p, a, f, q + B[q].size);
      if q != PROLOGUE {
        ReplaceEndAt(B, brk, p, a, f, B[q].prev);
      }
    }
  }
}
