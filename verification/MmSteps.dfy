/** The allocator's steps at the level of values: what headers read, and the new
    layouts that placing, merging and growing write. */
module MmSteps {
  import opened MmBlocks
  import opened MmWords
  import opened MmRings
  import opened MmLive
  import opened MmFit

  lemma HeaderWord(m: seq<nat>, B: Blocks, brk: nat, R: Rings, U: set<nat>, bp: nat)
    requires HeapOk(m, B, brk, R, U) && bp in B
    ensures WSIZE <= bp <= |m|
    ensures var w := m[bp - WSIZE];
            w == Pack(B[bp].size, PrevAlloc(B, bp), B[bp].alloc) && GetSize(w) == B[bp].size
            && GetAlloc(w) == B[bp].alloc && GetPrevAlloc(w) == PrevAlloc(B, bp)
  {
    hide Tiled, RingsOk, Filed, Words, PrevAlloc, Pack, GetSize, GetAlloc, GetPrevAlloc;
    BlockIs(B, brk, bp);
    WordsIs(m, B, bp);
    Unpack(B[bp].size, PrevAlloc(B, bp), B[bp].alloc);
  }

  lemma FooterWord(m: seq<nat>, B: Blocks, brk: nat, R: Rings, U: set<nat>, bp: nat)
    requires HeapOk(m, B, brk, R, U) && bp in B && bp != PROLOGUE && !PrevAlloc(B, bp)
    ensures DSIZE <= bp && bp - DSIZE < |m|
    ensures var p := B[bp].prev;
            p in B && p < bp && !B[p].alloc && p + B[p].size == bp && GetSize(m[bp - DSIZE]) == B[p].size
  {
    hide Tiled, RingsOk, Filed, Words, Pack, GetSize;
    BlockIs(B, brk, bp);
    WordsIs(m, B, B[bp].prev);
  }

  lemma UnfiledFree(m: seq<nat>, B: Blocks, brk: nat, R: Rings, U: set<nat>, bp: nat)
    requires HeapOk(m, B, brk, R, U) && bp in U
    ensures bp in B && !B[bp].alloc && U - {bp} < U
  {
    hide Tiled, Words, RingsOk;
  }

  lemma KeepsOn(m: seq<nat>, m1: seq<nat>, m2: seq<nat>, L: map<nat, nat>, L1: map<nat, nat>)
    requires Keeps(m, m1, L) && Keeps(m1, m2, L1) && forall q | q in L :: q in L1 && L1[q] == L[q]
    ensures Keeps(m, m2, L)
  {
  }

  /** Header and footer words for p and the rest of its region up to e. */
  function SplitWords(m: seq<nat>, p: nat, e: nat, a: nat, pa: bool): seq<nat>
    requires WSIZE <= p && DSIZE <= a && p + a + DSIZE <= e <= |m|
  {
    m[p - WSIZE := Pack(a, pa, true)][p + a - WSIZE := Pack(e - p - a, true, false)]
     [e - DSIZE := Pack(e - p - a, true, false)]
  }

  lemma SplitRelaid(m: seq<nat>, B: Blocks, p: nat, e: nat, a: nat)
    requires p in B && e in B && PROLOGUE < p && 2 * DSIZE <= a && p + a + 2 * DSIZE <= e <= |m|
             && (e - p - a) % DSIZE == 0
    requires m[e - WSIZE] == Pack(B[e].size, false, B[e].alloc)
    ensures Relaid(m, SplitWords(m, p, e, a, PrevAlloc(B, p)), B, p, e, a, true, false)
  {
    Unpack(e - p - a, true, false);
    hide Pack, GetSize, PrevAlloc;
  }

  lemma WholeRelaid(m: seq<nat>, B: Blocks, p: nat, e: nat)
    requires p in B && e in B && PROLOGUE < p && p + 2 * DSIZE <= e <= |m|
    ensures Relaid(m, m[p - WSIZE := Pack(e - p, PrevAlloc(B, p), true)][e - WSIZE := Pack(B[e].size, true,
                  B[e].alloc)], B, p, e, e - p, true, false)
  {
    hide Pack, GetSize, PrevAlloc;
  }

  /** One block alone in its region. */
  lemma OneCleared(B: Blocks, brk: nat, U: set<nat>, p: nat)
    requires Tiled(B, brk) && Real(B, brk, p) && (p in U || B[p].alloc)
    ensures Cleared(B, U, p, p + B[p].size)
  {
    hide Tiled;
    forall q | q in B && p <= q < p + B[p].size ensures q == p {
      if p < q {
        Apart(B, brk, p, q);
      }
    }
  }

  lemma NextApart(B: Blocks, brk: nat, x: nat, p: nat)
    requires Tiled(B, brk) && Real(B, brk, p) && Coalesced(B, x) && !B[p].alloc && p != x && p + B[p].size != x
             && B[p].prev != x
    ensures B[p + B[p].size].alloc && PrevAlloc(B, p)
  {
  }

  lemma HeapBlocks(m: seq<nat>, B: Blocks, brk: nat, R: Rings, U: set<nat>)
    requires HeapOk(m, B, brk, R, U)
    ensures Tiled(B, brk) && brk <= |m| && 0 !in B && Words(m, B)
    ensures forall q | q in U :: q in B && !B[q].alloc
  {
    NotZero(B, brk);
    hide Tiled, Words;
  }

  lemma ElsewhereAll(B: Blocks, brk: nat, p: nat)
    requires Tiled(B, brk) && Real(B, brk, p) && !B[p].alloc
    ensures p !in Live(B) && Elsewhere(Live(B), p, p + B[p].size) == Live(B)
  {
    hide Tiled;
    forall q: nat | q in Live(B) ensures q < p || q >= p + B[p].size {
      if p < q {
        Apart(B, brk, p, q);
      }
    }
  }

  lemma SplitFree(m: seq<nat>, B: Blocks, brk: nat, R: Rings, U: set<nat>, bp: nat, asize: nat)
    requires HeapOk(m, B, brk, R, U) && U == {bp} && bp in B && Coalesced(B, 0) && 2 * DSIZE <= asize
             && asize + 2 * DSIZE <= B[bp].size && asize % DSIZE == 0
    ensures Real(B, brk, bp) && bp + B[bp].size <= |m| && bp !in Live(B)
            && Elsewhere(Live(B), bp, bp + B[bp].size) == Live(B)
    ensures Layout(m, SplitWords(m, bp, bp + B[bp].size, asize, PrevAlloc(B, bp)), B, brk, U, bp, bp + B[bp].size,
              asize, true, 0)
    ensures NewlyFree(U, bp, bp + B[bp].size, asize, true, false) == {bp + asize}
  {
    hide HeapOk, Tiled, Words, Live, Elsewhere, Coalesced, Replace, Cleared;
    HeapBlocks(m, B, brk, R, U);
    FreeIsReal(B, brk, bp);
    var e := bp + B[bp].size;
    HeaderWord(m, B, brk, R, U, e);
    SplitRelaid(m, B, bp, e, asize);
    OneCleared(B, brk, U, bp);
    ElsewhereAll(B, brk, bp);
    NextApart(B, brk, 0, bp);
    ReplaceCoalesced(B, brk, bp, e, asize, true, 0, 0);
  }

  lemma TakeFree(m: seq<nat>, B: Blocks, brk: nat, R: Rings, U: set<nat>, bp: nat)
    requires HeapOk(m, B, brk, R, U) && U == {bp} && bp in B && Coalesced(B, 0)
    ensures Real(B, brk, bp) && bp + B[bp].size <= |m| && bp !in Live(B)
            && Elsewhere(Live(B), bp, bp + B[bp].size) == Live(B)
    ensures var e := bp + B[bp].size;
            Layout(m, m[bp - WSIZE := Pack(e - bp, PrevAlloc(B, bp), true)][e - WSIZE := Pack(B[e].size, true,
                      B[e].alloc)], B, brk, U, bp, e, e - bp, true, 0)
    ensures NewlyFree(U, bp, bp + B[bp].size, B[bp].size, true, false) == {}
  {
    hide HeapOk, Tiled, Words, Live, Elsewhere, Coalesced, Replace, Cleared;
    HeapBlocks(m, B, brk, R, U);
    FreeIsReal(B, brk, bp);
    var e := bp + B[bp].size;
    WholeRelaid(m, B, bp, e);
    OneCleared(B, brk, U, bp);
    ElsewhereAll(B, brk, bp);
    ReplaceCoalesced(B, brk, bp, e, B[bp].size, true, 0, 0);
  }

  /** m' shows the blocks from p to e laid out anew, with two free blocks side by
      side at most around y. */
  ghost predicate Layout(m: seq<nat>, m': seq<nat>, B: Blocks, brk: nat, U: set<nat>, p: nat, e: nat, a: nat, f: bool,
          y: nat) {
    && CanReplace(B, brk, p, e, a) && Cleared(B, U, p, e) && Relaid(m, m', B, p, e, a, f, false)
    && Coalesced(Replace(B, p, e, a, f, false), y)
  }

  // ----- merging -----

  lemma KeepsAll(m: seq<nat>, L: map<nat, nat>)
    ensures Keeps(m, m, L)
  {
  }

  /** The neighbours of a block that has just become free: where one of them is
      free as well, the block beyond it is not. */
  lemma Sides(m: seq<nat>, B: Blocks, brk: nat, R: Rings, U: set<nat>, bp: nat)
    requires HeapOk(m, B, brk, R, U) && U == {bp} && Coalesced(B, bp) && bp in B
    ensures Real(B, brk, bp) && !B[bp].alloc && 0 !in B && bp != PROLOGUE && brk <= |m|
    ensures var n := bp + B[bp].size; !B[n].alloc ==> FreeNext(B, brk, U, bp, n)
    ensures !PrevAlloc(B, bp) ==> FreePrev(B, brk, U, bp, B[bp].prev)
  {
    hide HeapOk, Tiled, Words, RingsOk, Filed, Coalesced;
    HeapBlocks(m, B, brk, R, U);
    FreeIsReal(B, brk, bp);
    var n, p := bp + B[bp].size, B[bp].prev;
    if !B[n].alloc {
      FreeIsReal(B, brk, n);
      PairApart(B, bp, n + B[n].size);
    }
    if !PrevAlloc(B, bp) {
      BlockIs(B, brk, bp);
      FreeIsReal(B, brk, p);
      PairApart(B, bp, p);
    }
  }

  ghost predicate FreeNext(B: Blocks, brk: nat, U: set<nat>, bp: nat, n: nat) {
    Real(B, brk, n) && bp < n && IsFree(B, U, n) && B[n].prev == bp && B[n + B[n].size].alloc && n + B[n].size != bp
  }

  ghost predicate FreePrev(B: Blocks, brk: nat, U: set<nat>, bp: nat, p: nat) {
    Real(B, brk, p) && p < bp && IsFree(B, U, p) && PrevAlloc(B, p) && p + B[p].size == bp
  }

  lemma NothingToMerge(m: seq<nat>, B: Blocks, brk: nat, R: Rings, U: set<nat>, bp: nat)
    requires HeapOk(m, B, brk, R, U) && Coalesced(B, bp) && Real(B, brk, bp) && PrevAlloc(B, bp)
             && B[bp + B[bp].size].alloc
    ensures Coalesced(B, 0)
  {
    hide RingsOk, Words, Filed;
    forall q | q in B && B[q].prev == bp ensures q == bp + B[bp].size {
      BlockIs(B, brk, q);
    }
    hide Tiled;
  }

  lemma MergeRelaid(m: seq<nat>, B: Blocks, p: nat, e: nat)
    requires p in B && e in B && PROLOGUE < p && p + 2 * DSIZE <= e <= |m| && (e - p) % DSIZE == 0
    requires m[e - WSIZE] == Pack(B[e].size, false, B[e].alloc) && PrevAlloc(B, p)
    ensures Relaid(m, m[p - WSIZE := Pack(e - p, true, false)][e - DSIZE := Pack(e - p, true, false)], B, p, e, e - p,
              false, false)
  {
    Unpack(e - p, true, false);
    hide Pack, GetSize, PrevAlloc;
  }

  /** The blocks from p to e are free and in no ring, none of them live. */
  ghost predicate Vacant(B: Blocks, U: set<nat>, p: nat, e: nat) {
    Cleared(B, U, p, e) && Elsewhere(Live(B), p, e) == Live(B)
  }

  lemma VacantOne(B: Blocks, brk: nat, U: set<nat>, p: nat)
    requires Tiled(B, brk) && Real(B, brk, p) && !B[p].alloc && p in U
    ensures Vacant(B, U, p, p + B[p].size)
  {
    hide Tiled, Live, Elsewhere, Cleared;
    OneCleared(B, brk, U, p);
    ElsewhereAll(B, brk, p);
  }

  lemma VacantBoth(B: Blocks, U: set<nat>, p: nat, q: nat, e: nat)
    requires Vacant(B, U, p, q) && Vacant(B, U, q, e)
    ensures Vacant(B, U, p, e)
  {
    ElsewhereBoth(Live(B), p, q, e);
    hide Live, Elsewhere;
  }

  lemma ElsewhereBoth(L: map<nat, nat>, p: nat, q: nat, e: nat)
    requires Elsewhere(L, p, q) == L && Elsewhere(L, q, e) == L
    ensures Elsewhere(L, p, e) == L
  {
    forall x | x in L ensures x < p || x >= e {
      assert x in Elsewhere(L, p, q) && x in Elsewhere(L, q, e);
    }
  }

  /** Free blocks side by side become one. */
  lemma MergeRegion(m: seq<nat>, B: Blocks, brk: nat, R: Rings, U: set<nat>, p: nat, e: nat, x: nat)
    requires HeapOk(m, B, brk, R, U) && Coalesced(B, x) && p <= x < e && Vacant(B, U, p, e)
             && forall q | q in U :: p <= q < e
    requires Real(B, brk, p) && PrevAlloc(B, p) && e in B && p + 2 * DSIZE <= e && (e - p) % DSIZE == 0
             && !PrevAlloc(B, e) && B[e].alloc
    ensures e <= |m| && Layout(m, m[p - WSIZE := Pack(e - p, true, false)][e - DSIZE := Pack(e - p, true, false)], B,
              brk, U, p, e, e - p, false, 0)
    ensures NewlyFree(U, p, e, e - p, false, false) == {p} && Elsewhere(Live(B), p, e) == Live(B)
  {
    hide HeapOk, Tiled, Words, Live, Coalesced, Replace, Elsewhere, Cleared;
    HeapBlocks(m, B, brk, R, U);
    HeaderWord(m, B, brk, R, U, e);
    MergeRelaid(m, B, p, e);
    ReplaceCoalesced(B, brk, p, e, e - p, false, x, 0);
  }

  lemma MergeLayout(m: seq<nat>, B: Blocks, brk: nat, R: Rings, U: set<nat>, p: nat, q: nat, e: nat, x: nat)
    requires HeapOk(m, B, brk, R, U) && U == {p, q} && Coalesced(B, x) && (x == p || x == q)
    requires Real(B, brk, p) && Real(B, brk, q) && q == p + B[p].size && e == q + B[q].size && PrevAlloc(B, p)
             && B[e].alloc
    ensures e <= |m| && Layout(m, m[p - WSIZE := Pack(e - p, true, false)][e - DSIZE := Pack(e - p, true, false)], B,
              brk, U, p, e, e - p, false, 0)
    ensures NewlyFree(U, p, e, e - p, false, false) == {p} && Elsewhere(Live(B), p, e) == Live(B)
  {
    hide HeapOk, Tiled, Words, Coalesced, Layout, Vacant;
    HeapBlocks(m, B, brk, R, U);
    VacantOne(B, brk, U, p);
    VacantOne(B, brk, U, q);
    VacantBoth(B, U, p, q, e);
    MergeRegion(m, B, brk, R, U, p, e, x);
  }

  lemma Multiples(x: nat, y: nat, z: nat)
    requires x % DSIZE == 0 && y % DSIZE == 0 && z % DSIZE == 0
    ensures (x + y + z) % DSIZE == 0
  {
  }

  lemma MergeAll(m: seq<nat>, B: Blocks, brk: nat, R: Rings, U: set<nat>, p: nat, bp: nat, n: nat, e: nat)
    requires HeapOk(m, B, brk, R, U) && Coalesced(B, bp) && U == {p, bp, n} && PrevAlloc(B, p)
    requires Real(B, brk, p) && Real(B, brk, bp) && Real(B, brk, n)
    requires bp == p + B[p].size && n == bp + B[bp].size && e == n + B[n].size && B[e].alloc
    ensures e <= |m| && Layout(m, m[p - WSIZE := Pack(e - p, true, false)][e - DSIZE := Pack(e - p, true, false)], B,
              brk, U, p, e, e - p, false, 0)
    ensures NewlyFree(U, p, e, e - p, false, false) == {p} && Elsewhere(Live(B), p, e) == Live(B)
  {
    hide HeapOk, Tiled, Words, Coalesced, Layout, Vacant, Elsewhere, Live, NewlyFree, Pack;
    HeapBlocks(m, B, brk, R, U);
    VacantOne(B, brk, U, p);
    VacantOne(B, brk, U, bp);
    VacantOne(B, brk, U, n);
    VacantBoth(B, U, p, bp, n);
    VacantBoth(B, U, p, n, e);
    Multiples(B[p].size, B[bp].size, B[n].size);
    MergeRegion(m, B, brk, R, U, p, e, bp);
  }

  // ----- growing -----

  ghost predicate EndLayout(m: seq<nat>, m': seq<nat>, B: Blocks, end: nat, U: set<nat>, p: nat, a: nat, f: bool,
          y: nat) {
    && CanReplaceEnd(B, end, p, a) && Cleared(B, U, p, end) && Grown(m, m', B, p, a, f)
    && Coalesced(ReplaceEnd(B, p, a, f), y)
  }

  lemma NewEnd(m: seq<nat>, B: Blocks, brk: nat, R: Rings, U: set<nat>)
    requires HeapOk(m, B, brk, R, U)
    ensures brk in B && PROLOGUE + DSIZE <= brk <= |m|
  {
    hide RingsOk, Words, Filed;
    First(B, brk);
    Apart(B, brk, PROLOGUE, brk);
    BlockIs(B, brk, PROLOGUE);
  }

  /** The old epilogue becomes a free block of the given size. */
  function EndWords(m: seq<nat>, p: nat, a: nat, pa: bool): seq<nat>
    requires WSIZE <= p && DSIZE <= a && p + a <= |m|
  {
    m[p - WSIZE := Pack(a, pa, false)][p + a - DSIZE := Pack(a, pa, false)][p + a - WSIZE := Pack(0, false, true)]
  }

  lemma NewEndLayout(m: seq<nat>, B: Blocks, end: nat, R: Rings, U: set<nat>, size: nat)
    requires HeapOk(m, B, end, R, U) && U == {} && Coalesced(B, 0) && 2 * DSIZE <= size && size % DSIZE == 0
             && end + size <= |m|
    ensures end in B && WSIZE <= end && EndLayout(m, EndWords(m, end, size, PrevAlloc(B, end)), B, end, U, end, size,
              false, end)
    ensures NewlyFree(U, end, end + size, size, false, true) == {end} && Elsewhere(Live(B), end, end + size) == Live(B)
  {
    hide RingsOk, Words, Filed, Tiled, Live, Coalesced, ReplaceEnd, PrevAlloc, Pack, GetSize;
    NewEnd(m, B, end, R, U);
    Unpack(size, PrevAlloc(B, end), false);
    ReplaceEndCoalesced(B, end, end, size, false, end);
    forall q: nat | q in Live(B) ensures q < end {
      LiveAt(B, end, q);
    }
  }

  lemma NewEndBlock(B': Blocks, end: nat, size: nat, B: Blocks)
    requires end in B && B' == ReplaceEnd(B, end, size, false) && size > 0
    ensures end in B' && B'[end].size == size
  {
  }

  lemma UnfiledNotNull(m: seq<nat>, B: Blocks, brk: nat, R: Rings, U: set<nat>, p: nat)
    requires HeapOk(m, B, brk, R, U) && p in B
    ensures p != 0
  {
    NotZero(B, brk);
    hide Tiled;
  }

  // ----- the empty heap -----

  lemma EmptyHeap(m: seq<nat>, B: Blocks, R: Rings)
    requires PROLOGUE + DSIZE <= |m| && B == map[PROLOGUE := Blk(DSIZE, true, 0),
               PROLOGUE + DSIZE := Blk(0, true, PROLOGUE)] && R == seq(CLASSNUM, _ => [])
    requires (forall j | 0 <= j < CLASSNUM :: m[WSIZE * j] == 0)
    requires m[PROLOGUE - WSIZE] == Pack(DSIZE, false, true) && m[PROLOGUE + WSIZE] == Pack(0, true, true)
    ensures HeapOk(m, B, PROLOGUE + DSIZE, R, {}) && Coalesced(B, 0) && Live(B) == map[]
  {
    assert BlockAt(B, PROLOGUE + DSIZE, PROLOGUE) && BlockAt(B, PROLOGUE + DSIZE, PROLOGUE + DSIZE);
    forall i | 0 <= i < CLASSNUM ensures RingOk(m, WSIZE * i, R[i]) {
    }
    hide Pack, GetSize;
  }

  // ----- requests -----

  lemma AdjustedIs(size: nat, asize: nat)
    requires asize == if size <= DSIZE then 2 * DSIZE else DSIZE * ((size + WSIZE + (DSIZE - 1)) / DSIZE)
    ensures asize == Adjusted(size) && asize % DSIZE == 0 && 2 * DSIZE <= asize && size + WSIZE <= asize
    ensures asize > 2 * DSIZE ==> asize < size + WSIZE + DSIZE
  {
  }

  /** Rounding never loses bytes, and goes beyond the request only up to 512. */
  lemma RoundIs(size: nat)
    ensures size <= RoundPayload(size) && (RoundPayload(size) <= size || RoundPayload(size) <= 1024)
  {
  }

  lemma FitIs(B: Blocks, ptr: nat, asize: nat)
    requires BestFit(B, ptr, asize)
    ensures ptr in B && !B[ptr].alloc && asize <= B[ptr].size
  {
  }

  // ----- freeing -----

  lemma NullNotLive(m: seq<nat>, B: Blocks, brk: nat, R: Rings, U: set<nat>)
    requires HeapOk(m, B, brk, R, U)
    ensures 0 !in Live(B) && Live(B) - {0} == Live(B)
  {
    HeapBlocks(m, B, brk, R, U);
    hide HeapOk;
  }

  lemma LiveIsReal(m: seq<nat>, B: Blocks, brk: nat, R: Rings, U: set<nat>, p: nat)
    requires HeapOk(m, B, brk, R, U) && p in Live(B)
    ensures Real(B, brk, p) && B[p].alloc && Live(B)[p] == B[p].size - WSIZE && brk <= |m| && p != 0
  {
    hide RingsOk, Words, Filed, Tiled;
    RealIs(B, brk, p);
  }

  lemma FreeLayout(m: seq<nat>, B: Blocks, brk: nat, R: Rings, U: set<nat>, bp: nat)
    requires HeapOk(m, B, brk, R, U) && U == {} && Coalesced(B, 0) && Real(B, brk, bp) && B[bp].alloc && bp in Live(B)
    ensures var e, pa := bp + B[bp].size, PrevAlloc(B, bp);
            && e <= |m|
            && Layout(m, m[bp - WSIZE := Pack(e - bp, pa, false)][e - DSIZE := Pack(e - bp, pa,
                     false)][e - WSIZE := Pack(B[e].size, false, B[e].alloc)], B, brk, U, bp, e, e - bp, false, bp)
            && NewlyFree(U, bp, e, e - bp, false, false) == {bp} && Elsewhere(Live(B), bp, e) == Live(B) - {bp}
  {
    hide HeapOk, Tiled, Words, Live, Coalesced, Replace, Elsewhere, Cleared;
    HeapBlocks(m, B, brk, R, U);
    var e := bp + B[bp].size;
    FreeRelaid(m, B, bp, e);
    OneCleared(B, brk, U, bp);
    ElsewhereOne(B, brk, bp);
    ReplaceCoalesced(B, brk, bp, e, e - bp, false, 0, bp);
  }

  lemma FreeRelaid(m: seq<nat>, B: Blocks, p: nat, e: nat)
    requires p in B && e in B && PROLOGUE < p && p + 2 * DSIZE <= e <= |m| && (e - p) % DSIZE == 0
    ensures var pa := PrevAlloc(B, p);
            Relaid(m, m[p - WSIZE := Pack(e - p, pa, false)][e - DSIZE := Pack(e - p, pa,
                      false)][e - WSIZE := Pack(B[e].size, false, B[e].alloc)], B, p, e, e - p, false, false)
  {
    Unpack(e - p, PrevAlloc(B, p), false);
    hide Pack, GetSize, PrevAlloc;
  }

  lemma ElsewhereOne(B: Blocks, brk: nat, p: nat)
    requires Tiled(B, brk) && Real(B, brk, p)
    ensures Elsewhere(Live(B), p, p + B[p].size) == Live(B) - {p}
  {
    hide Tiled;
    forall q: nat | q in Live(B) ensures q < p || q == p || q >= p + B[p].size {
      if p < q {
        Apart(B, brk, p, q);
      }
    }
  }
}
