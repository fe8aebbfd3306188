/** Resizing a block: the layouts mm_realloc writes around it, and what becomes of
    its data. */
module MmMoves {
  import opened MmBlocks
  import opened MmWords
  import opened MmRings
  import opened MmLive
  import opened MmSteps

  function Min(x: nat, y: nat): nat {
    if x <= y then x else y
  }

  /** The n cells from q on in m' are those from p on in m. */
  ghost predicate Same(m: seq<nat>, p: nat, m': seq<nat>, q: nat, n: nat) {
    p + n <= |m| && q + n <= |m'| && m'[q..q + n] == m[p..p + n]
  }

  /** Block bp has become block r, of at least n bytes, with its data as far as it
      fits; every other block keeps its data. */
  ghost predicate Resized(m: seq<nat>, L: map<nat, nat>, bp: nat, m': seq<nat>, L': map<nat, nat>, r: nat, n: nat) {
    && bp in L && r in L' && L' == (L - {bp})[r := L'[r]] && L'[r] >= n && (r == bp || r !in L)
    && Keeps(m, m', L - {bp}) && Same(m, bp, m', r, Min(L[bp], L'[r]))
  }

  lemma ResizedOn(m: seq<nat>, L: map<nat, nat>, bp: nat, m1: seq<nat>, m2: seq<nat>, L': map<nat, nat>, r: nat, n: nat)
    requires Resized(m, L, bp, m1, L', r, n) && Keeps(m1, m2, L')
    ensures Resized(m, L, bp, m2, L', r, n)
  {
    KeepsOn(m, m1, m2, L - {bp}, L');
    KeepsSlice(m1, m2, L', r, Min(L[bp], L'[r]));
    hide Keeps;
  }

  lemma KeepsSlice(m: seq<nat>, m': seq<nat>, L: map<nat, nat>, p: nat, n: nat)
    requires Keeps(m, m', L) && p in L && n <= L[p] && p + n <= |m|
    ensures m'[p..p + n] == m[p..p + n]
  {
    forall x | p <= x < p + n ensures m'[x] == m[x] {
    }
  }

  lemma ResizedFrom(m: seq<nat>, L: map<nat, nat>, bp: nat, m1: seq<nat>, m2: seq<nat>, L': map<nat, nat>, r: nat,
          n: nat)
    requires Keeps(m, m1, L) && Resized(m1, L, bp, m2, L', r, n)
    ensures Resized(m, L, bp, m2, L', r, n)
  {
    KeepsLength(m, m1, L);
    KeepsSlice(m, m1, L, bp, Min(L[bp], L'[r]));
    KeepsSome(m, m1, L, bp);
    KeepsOn(m, m1, m2, L - {bp}, L - {bp});
    hide Keeps;
  }

  lemma KeepsLength(m: seq<nat>, m': seq<nat>, L: map<nat, nat>)
    requires Keeps(m, m', L)
    ensures |m'| == |m|
  {
  }

  lemma KeepsSome(m: seq<nat>, m': seq<nat>, L: map<nat, nat>, bp: nat)
    requires Keeps(m, m', L)
    ensures Keeps(m, m', L - {bp})
  {
  }

  // ----- words -----

  /** memmove: n cells from src to dst. */
  function Moved(m: seq<nat>, dst: nat, src: nat, n: nat): seq<nat>
    requires dst + n <= |m| && src + n <= |m|
  {
    m[..dst] + m[src..src + n] + m[dst + n..]
  }

  lemma MovedNone(m: seq<nat>, dst: nat, src: nat)
    requires dst <= |m| && src <= |m|
    ensures Moved(m, dst, src, 0) == m
  {
  }

  /** Copying upwards is right if the target does not begin inside the source. */
  lemma MovedStep(m: seq<nat>, dst: nat, src: nat, i: nat)
    requires dst + i < |m| && src + i < |m| && (dst <= src || src + i < dst)
    ensures Moved(m, dst, src, i)[src + i] == m[src + i]
    ensures Moved(m, dst, src, i + 1) == Moved(m, dst, src, i)[dst + i := m[src + i]]
  {
  }

  /** The header behind the region says whether the block before it is allocated,
      and so does the footer of a free block there. */
  function NextWords(m: seq<nat>, e: nat, size: nat, alloc: bool, flag: bool): seq<nat>
    requires WSIZE <= e <= |m| && (!alloc ==> DSIZE <= size && e + size < |m| + DSIZE)
  {
    var n := m[e - WSIZE := Pack(size, flag, alloc)];
    if alloc then n else n[e + size - DSIZE := Pack(size, flag, false)]
  }

  /** At most data cells of the region differ. */
  ghost predicate Inner(m: seq<nat>, m': seq<nat>, p: nat, e: nat) {
    |m'| == |m| && forall x | 0 <= x < |m| && (x < p || x + DSIZE >= e) :: m'[x] == m[x]
  }

  lemma MovedInner(m: seq<nat>, p: nat, bp: nat, n: nat, e: nat)
    requires p + n <= |m| && bp + n <= |m| && p + n + DSIZE <= e
    ensures Inner(m, Moved(m, p, bp, n), p, e) && Same(m, bp, Moved(m, p, bp, n), p, n)
  {
  }

  // ----- regions with one allocated block -----

  /** Of the blocks from p to e, bp is allocated and the others are free and in no ring. */
  ghost predicate Region(B: Blocks, brk: nat, U: set<nat>, p: nat, e: nat, bp: nat) {
    && Real(B, brk, p) && e in B && p + 2 * DSIZE <= e <= brk && (e - p) % DSIZE == 0
    && Cleared(B, U, p, e) && Elsewhere(Live(B), p, e) == Live(B) - {bp}
    && (forall q | q in U :: p <= q < e) && p <= bp < e && bp in Live(B) && (p == bp || p !in Live(B))
  }

  lemma RegionOne(B: Blocks, brk: nat, bp: nat)
    requires Tiled(B, brk) && Real(B, brk, bp) && B[bp].alloc && bp in Live(B)
    ensures Region(B, brk, {}, bp, bp + B[bp].size, bp)
  {
    hide Tiled, Live, Elsewhere;
    OneCleared(B, brk, {}, bp);
    ElsewhereOne(B, brk, bp);
  }

  lemma ElsewhereJoin(L: map<nat, nat>, p: nat, q: nat, e: nat, X: set<nat>, Y: set<nat>)
    requires Elsewhere(L, p, q) == L - X && Elsewhere(L, q, e) == L - Y && X * Y == {} && p <= q <= e
    requires forall x | x in X :: p <= x < q
    requires forall x | x in Y :: q <= x < e
    ensures Elsewhere(L, p, e) == L - (X + Y)
  {
    forall x | x in L ensures (x < p || x >= e) <==> x !in X + Y {
      assert x in Elsewhere(L, p, q) <==> x in L - X;
      assert x in Elsewhere(L, q, e) <==> x in L - Y;
    }
  }

  /** A free block after the region joins it. */
  lemma RegionNext(B: Blocks, brk: nat, U: set<nat>, p: nat, n: nat, bp: nat)
    requires Tiled(B, brk) && Region(B, brk, U - {n}, p, n, bp) && n in U && Real(B, brk, n) && !B[n].alloc
    ensures Region(B, brk, U, p, n + B[n].size, bp)
  {
    hide Tiled, Live, Elsewhere;
    OneCleared(B, brk, U, n);
    ElsewhereAll(B, brk, n);
    ElsewhereJoin(Live(B), p, n, n + B[n].size, {bp}, {});
    assert {bp} + {} == {bp} && Live(B) - {} == Live(B);
    forall q | q in U ensures p <= q < n + B[n].size {
      assert q == n || q in U - {n};
    }
  }

  /** A free block before the region joins it. */
  lemma RegionPrev(B: Blocks, brk: nat, U: set<nat>, p: nat, e: nat, bp: nat)
    requires Tiled(B, brk) && Region(B, brk, U - {p}, bp, e, bp) && p in U && Real(B, brk, p) && !B[p].alloc
             && p + B[p].size == bp
    ensures Region(B, brk, U, p, e, bp)
  {
    hide Tiled, Live, Elsewhere;
    OneCleared(B, brk, U, p);
    ElsewhereAll(B, brk, p);
    ElsewhereJoin(Live(B), p, bp, e, {}, {bp});
    assert {} + {bp} == {bp} && Live(B) - {} == Live(B);
    forall q | q in U ensures p <= q < e {
      assert q == p || q in U - {p};
    }
  }

  // ----- layouts -----

  ghost predicate Fits(m: seq<nat>, B: Blocks, p: nat, e: nat) {
    && p in B && e in B && PROLOGUE < p && p + 2 * DSIZE <= e <= |m|
    && (!B[e].alloc ==> B[e].size >= 2 * DSIZE && e + B[e].size <= |m| && B[e].size % DSIZE == 0)
  }

  /** The words for a block of size a from p on, and a free rest up to e; fix says
      whether the block at e has to be told that the one before it is free. */
  ghost function SplitResult(m: seq<nat>, B: Blocks, p: nat, e: nat, a: nat, fix: bool): seq<nat>
    requires Fits(m, B, p, e) && 2 * DSIZE <= a && p + a + 2 * DSIZE <= e
  {
    var s := SplitWords(m, p, e, a, PrevAlloc(B, p));
    if fix then NextWords(s, e, B[e].size, B[e].alloc, false) else s
  }

  ghost function WholeResult(m: seq<nat>, B: Blocks, p: nat, e: nat): seq<nat>
    requires Fits(m, B, p, e)
  {
    NextWords(m[p - WSIZE := Pack(e - p, PrevAlloc(B, p), true)], e, B[e].size, B[e].alloc, true)
  }

  lemma SplitMoved(m: seq<nat>, m1: seq<nat>, B: Blocks, p: nat, e: nat, a: nat, fix: bool)
    requires Fits(m, B, p, e) && 2 * DSIZE <= a && p + a + 2 * DSIZE <= e && (e - p - a) % DSIZE == 0
             && Inner(m, m1, p, e)
    requires fix || m[e - WSIZE] == Pack(B[e].size, false, B[e].alloc)
    ensures Fits(m1, B, p, e) && Relaid(m, SplitResult(m1, B, p, e, a, fix), B, p, e, a, true, false)
  {
    Unpack(e - p - a, true, false);
    if !B[e].alloc {
      Unpack(B[e].size, false, false);
    }
    hide Pack, GetSize, PrevAlloc;
  }

  lemma WholeMoved(m: seq<nat>, m1: seq<nat>, B: Blocks, p: nat, e: nat)
    requires Fits(m, B, p, e) && Inner(m, m1, p, e)
    ensures Fits(m1, B, p, e) && Relaid(m, WholeResult(m1, B, p, e), B, p, e, e - p, true, false)
  {
    if !B[e].alloc {
      Unpack(B[e].size, true, false);
    }
    hide Pack, GetSize, PrevAlloc;
  }

  lemma RegionFits(m: seq<nat>, B: Blocks, brk: nat, R: Rings, U: set<nat>, p: nat, e: nat, bp: nat)
    requires HeapOk(m, B, brk, R, U) && Region(B, brk, U, p, e, bp)
    ensures Fits(m, B, p, e) && Tiled(B, brk) && 0 !in B
    ensures GetSize(m[e - WSIZE]) == B[e].size && GetAlloc(m[e - WSIZE]) == B[e].alloc
            && m[e - WSIZE] == Pack(B[e].size, PrevAlloc(B, e), B[e].alloc)
    ensures GetPrevAlloc(m[p - WSIZE]) == PrevAlloc(B, p)
  {
    hide HeapOk, Tiled, Words, GetSize, GetAlloc, GetPrevAlloc, Pack, Live, Elsewhere, Cleared;
    HeaderWord(m, B, brk, R, U, e);
    HeaderWord(m, B, brk, R, U, p);
    HeapBlocks(m, B, brk, R, U);
    BlockIs(B, brk, e);
    if !B[e].alloc {
      FreeIsReal(B, brk, e);
    }
  }

  /** The region becomes an allocated block of size a and a free rest. */
  lemma SplitRegion(m: seq<nat>, m1: seq<nat>, B: Blocks, brk: nat, R: Rings, U: set<nat>, p: nat, e: nat, a: nat,
          bp: nat, fix: bool)
    requires HeapOk(m, B, brk, R, U) && Coalesced(B, 0) && Region(B, brk, U, p, e, bp) && Inner(m, m1, p, e)
    requires 2 * DSIZE <= a && p + a + 2 * DSIZE <= e && a % DSIZE == 0 && (fix || !PrevAlloc(B, e))
    ensures Fits(m1, B, p, e) && Layout(m, SplitResult(m1, B, p, e, a, fix), B, brk, U, p, e, a, true, if B[e].alloc
              then 0 else p + a)
    ensures NewlyFree(U, p, e, a, true, false) == {p + a}
  {
    hide HeapOk, Tiled, Live, Elsewhere, Coalesced, Cleared, Replace, GetSize, GetAlloc, GetPrevAlloc, Pack, PrevAlloc,
         SplitResult, Relaid;
    RegionFits(m, B, brk, R, U, p, e, bp);
    SplitMoved(m, m1, B, p, e, a, fix);
    ReplaceCoalesced(B, brk, p, e, a, true, 0, if B[e].alloc then 0 else p + a);
  }

  /** The region becomes one allocated block. */
  lemma WholeRegion(m: seq<nat>, m1: seq<nat>, B: Blocks, brk: nat, R: Rings, U: set<nat>, p: nat, e: nat, bp: nat)
    requires HeapOk(m, B, brk, R, U) && Coalesced(B, 0) && Region(B, brk, U, p, e, bp) && Inner(m, m1, p, e)
    ensures Fits(m1, B, p, e) && Layout(m, WholeResult(m1, B, p, e), B, brk, U, p, e, e - p, true, 0)
    ensures NewlyFree(U, p, e, e - p, true, false) == {}
  {
    hide HeapOk, Tiled, Live, Elsewhere, Coalesced, Cleared, Replace, GetSize, GetAlloc, GetPrevAlloc, Pack, PrevAlloc,
         WholeResult, Relaid;
    RegionFits(m, B, brk, R, U, p, e, bp);
    WholeMoved(m, m1, B, p, e);
    ReplaceCoalesced(B, brk, p, e, e - p, true, 0, 0);
  }

  /** Of the block's data, what the new block has room for is where it was put. */
  lemma SplitData(m: seq<nat>, m1: seq<nat>, B: Blocks, p: nat, e: nat, a: nat, fix: bool, bp: nat, n: nat)
    requires Fits(m1, B, p, e) && 2 * DSIZE <= a && p + a + 2 * DSIZE <= e && Same(m, bp, m1, p, n) && n + WSIZE <= a
    ensures Same(m, bp, SplitResult(m1, B, p, e, a, fix), p, n)
  {
    var m' := SplitResult(m1, B, p, e, a, fix);
    assert m'[p..p + n] == m1[p..p + n];
    hide PrevAlloc, Pack;
  }

  lemma WholeData(m: seq<nat>, m1: seq<nat>, B: Blocks, p: nat, e: nat, bp: nat, n: nat)
    requires Fits(m1, B, p, e) && Same(m, bp, m1, p, n) && p + n + WSIZE <= e
    ensures Same(m, bp, WholeResult(m1, B, p, e), p, n)
  {
    var m' := WholeResult(m1, B, p, e);
    assert m'[p..p + n] == m1[p..p + n];
    hide PrevAlloc, Pack;
  }

  lemma ResizedNow(m: seq<nat>, L: map<nat, nat>, bp: nat, m': seq<nat>, L': map<nat, nat>, p: nat, a: nat, n: nat)
    requires bp in L && L' == (L - {bp})[p := a - WSIZE] && WSIZE <= a && (p == bp || p !in L) && Keeps(m, m', L - {bp})
    requires Same(m, bp, m', p, Min(L[bp], a - WSIZE)) && n + WSIZE <= a
    ensures Resized(m, L, bp, m', L', p, n)
  {
    hide Keeps, Same;
  }

  lemma SameSelf(m: seq<nat>, p: nat, n: nat)
    requires p + n <= |m|
    ensures Same(m, p, m, p, n)
  {
  }

  lemma InnerSelf(m: seq<nat>, p: nat, e: nat)
    ensures Inner(m, m, p, e)
  {
  }

  lemma Weaken(m: seq<nat>, B: Blocks, brk: nat, R: Rings, U: set<nat>, x: nat)
    requires HeapOk(m, B, brk, R, U) && Coalesced(B, 0)
    ensures Coalesced(B, x)
  {
    HeapBlocks(m, B, brk, R, U);
    hide HeapOk, Tiled, Words;
  }

  // ----- growing at the end of the heap -----

  lemma GrowEnd(m: seq<nat>, B: Blocks, brk: nat, R: Rings, U: set<nat>, p: nat, a: nat, bp: nat)
    requires HeapOk(m, B, brk, R, U) && Coalesced(B, 0) && Region(B, brk, U, p, brk, bp) && brk <= p + a <= |m|
             && a % DSIZE == 0
    ensures WSIZE <= p && EndLayout(m, m[p - WSIZE := Pack(a, PrevAlloc(B, p), true)][p + a - WSIZE := Pack(0, true,
                  true)], B, brk, U, p, a, true, 0)
    ensures NewlyFree(U, p, p + a, a, true, true) == {} && Elsewhere(Live(B), p, p + a) == Live(B) - {bp}
  {
    HeapBlocks(m, B, brk, R, U);
    hide HeapOk, Tiled, Words, Live, Coalesced, Cleared, ReplaceEnd, Pack, PrevAlloc, GetSize;
    ReplaceEndCoalesced(B, brk, p, a, true, 0);
    forall q: nat | q in Live(B) ensures q < brk {
      LiveAt(B, brk, q);
    }
    assert Elsewhere(Live(B), p, p + a) == Elsewhere(Live(B), p, brk);
  }

  lemma LiveRegion(m: seq<nat>, B: Blocks, brk: nat, R: Rings, U: set<nat>, bp: nat)
    requires HeapOk(m, B, brk, R, U) && U == {} && bp in Live(B)
    ensures bp in B && Real(B, brk, bp) && B[bp].alloc && Live(B)[bp] == B[bp].size - WSIZE
            && bp + B[bp].size <= brk <= |m| && bp != 0
    ensures Region(B, brk, U, bp, bp + B[bp].size, bp)
  {
    hide HeapOk, Tiled, Words, Live;
    LiveIsReal(m, B, brk, R, U, bp);
    HeapBlocks(m, B, brk, R, U);
    RegionOne(B, brk, bp);
  }

  /** The region's blocks are out of their rings and bp's data, of which room bytes
      matter, is where block p will have it; the words are otherwise those of m. */
  ghost predicate Prepared(m: seq<nat>, m1: seq<nat>, B: Blocks, brk: nat, R: Rings, U: set<nat>, p: nat, e: nat,
          bp: nat, room: nat) {
    && HeapOk(m, B, brk, R, U) && Coalesced(B, 0) && Region(B, brk, U, p, e, bp)
    && Inner(m, m1, p, e) && Same(m, bp, m1, p, Min(Live(B)[bp], room))
  }

  ghost predicate CanCarve(B: Blocks, p: nat, e: nat, a: nat, fix: bool) {
    && p in B && e in B && 2 * DSIZE <= a && p + a + 2 * DSIZE <= e && a % DSIZE == 0
    && (fix || (B[e].alloc && !PrevAlloc(B, e)))
  }

  lemma CarveReady(m: seq<nat>, m1: seq<nat>, B: Blocks, brk: nat, R: Rings, U: set<nat>, p: nat, e: nat, bp: nat,
          a: nat, fix: bool)
    requires WSIZE <= a && Prepared(m, m1, B, brk, R, U, p, e, bp, a - WSIZE) && CanCarve(B, p, e, a, fix)
    ensures Fits(m1, B, p, e) && GetPrevAlloc(m1[p - WSIZE]) == PrevAlloc(B, p) && GetSize(m1[e - WSIZE]) == B[e].size
            && GetAlloc(m1[e - WSIZE]) == B[e].alloc
    ensures Layout(m, SplitResult(m1, B, p, e, a, fix), B, brk, U, p, e, a, true, if B[e].alloc then 0 else p + a)
    ensures NewlyFree(U, p, e, a, true, false) == {p + a} && Elsewhere(Live(B), p, e) == Live(B) - {bp}
    ensures bp in Live(B) && Same(m, bp, SplitResult(m1, B, p, e, a, fix), p, Min(Live(B)[bp], a - WSIZE))
            && (p == bp || p !in Live(B))
  {
    hide HeapOk, Live, Coalesced, GetSize, GetAlloc, GetPrevAlloc, Pack, Elsewhere, Same, SplitResult, Real, Cleared,
         Layout, NewlyFree;
    RegionFits(m, B, brk, R, U, p, e, bp);
    SplitRegion(m, m1, B, brk, R, U, p, e, a, bp, fix);
    SplitData(m, m1, B, p, e, a, fix, bp, Min(Live(B)[bp], a - WSIZE));
  }

  lemma FillReady(m: seq<nat>, m1: seq<nat>, B: Blocks, brk: nat, R: Rings, U: set<nat>, p: nat, e: nat, bp: nat)
    requires p + WSIZE <= e && Prepared(m, m1, B, brk, R, U, p, e, bp, e - p - WSIZE)
    ensures Fits(m1, B, p, e) && GetPrevAlloc(m1[p - WSIZE]) == PrevAlloc(B, p) && GetSize(m1[e - WSIZE]) == B[e].size
            && GetAlloc(m1[e - WSIZE]) == B[e].alloc
    ensures Layout(m, WholeResult(m1, B, p, e), B, brk, U, p, e, e - p, true, 0)
    ensures NewlyFree(U, p, e, e - p, true, false) == {} && Elsewhere(Live(B), p, e) == Live(B) - {bp}
    ensures bp in Live(B) && Same(m, bp, WholeResult(m1, B, p, e), p, Min(Live(B)[bp], e - p - WSIZE))
            && (p == bp || p !in Live(B))
  {
    hide HeapOk, Live, Coalesced, GetSize, GetAlloc, GetPrevAlloc, Pack, Elsewhere, Same, WholeResult, Real, Cleared,
         Layout, NewlyFree;
    RegionFits(m, B, brk, R, U, p, e, bp);
    WholeRegion(m, m1, B, brk, R, U, p, e, bp);
    WholeData(m, m1, B, p, e, bp, Min(Live(B)[bp], e - p - WSIZE));
  }

  lemma PreparedHeap(m: seq<nat>, m1: seq<nat>, B: Blocks, brk: nat, R: Rings, U: set<nat>, p: nat, e: nat, bp: nat,
          room: nat)
    requires Prepared(m, m1, B, brk, R, U, p, e, bp, room)
    ensures HeapOk(m, B, brk, R, U) && Coalesced(B, 0) && p in B && e in B
  {
    hide HeapOk, Live, Coalesced, Elsewhere;
  }

  /** The block itself is a region. */
  lemma PrepareAlone(m: seq<nat>, B: Blocks, brk: nat, R: Rings, U: set<nat>, bp: nat, room: nat)
    requires HeapOk(m, B, brk, R, U) && Coalesced(B, 0) && U == {} && bp in Live(B)
    ensures Prepared(m, m, B, brk, R, U, bp, bp + B[bp].size, bp, room) && Real(B, brk, bp)
  {
    hide HeapOk, Live, Coalesced, Region, Same, Inner;
    LiveRegion(m, B, brk, R, U, bp);
    InnerSelf(m, bp, bp + B[bp].size);
    SameSelf(m, bp, Min(Live(B)[bp], room));
  }

  ghost predicate Neighbours(B: Blocks, brk: nat, U: set<nat>, bp: nat)
    requires bp in B && bp + B[bp].size in B
  {
    var n := bp + B[bp].size;
    && (!B[n].alloc ==> FreeNext(B, brk, U, bp, n) && n + B[n].size in B && !PrevAlloc(B, n + B[n].size))
    && (!PrevAlloc(B, bp) ==> FreePrev(B, brk, U, bp, B[bp].prev))
  }

  /** Neighbours of a live block that are free, when no two free blocks are adjacent. */
  lemma LiveSides(m: seq<nat>, B: Blocks, brk: nat, R: Rings, U: set<nat>, bp: nat)
    requires HeapOk(m, B, brk, R, U) && Coalesced(B, 0) && U == {} && bp in Live(B)
    ensures bp in B && Real(B, brk, bp) && Live(B)[bp] == B[bp].size - WSIZE && bp != PROLOGUE && bp != 0 && brk <= |m|
    ensures Neighbours(B, brk, U, bp)
  {
    hide HeapOk, Live, Coalesced, Region, Tiled, Words;
    LiveRegion(m, B, brk, R, U, bp);
    HeapBlocks(m, B, brk, R, U);
    var n, p := bp + B[bp].size, B[bp].prev;
    if !B[n].alloc {
      FreeIsReal(B, brk, n);
      PairApart(B, 0, n + B[n].size);
    }
    if !PrevAlloc(B, bp) {
      BlockIs(B, brk, bp);
      FreeIsReal(B, brk, p);
      PairApart(B, 0, p);
    }
  }

  lemma SameLess(m: seq<nat>, p: nat, m': seq<nat>, q: nat, n: nat, k: nat)
    requires Same(m, p, m', q, n) && k <= n
    ensures Same(m, p, m', q, k)
  {
    assert m'[q..q + k] == m'[q..q + n][..k] && m[p..p + k] == m[p..p + n][..k];
  }

  lemma PrepareNext(m: seq<nat>, B: Blocks, brk: nat, R: Rings, bp: nat, n: nat, room: nat)
    requires HeapOk(m, B, brk, R, {n}) && Coalesced(B, 0) && bp in Live(B) && Real(B, brk, bp) && n == bp + B[bp].size
             && Real(B, brk, n) && !B[n].alloc
    ensures Prepared(m, m, B, brk, R, {n}, bp, n + B[n].size, bp, room)
  {
    hide HeapOk, Live, Coalesced, Same, Inner, Tiled, Words;
    HeapBlocks(m, B, brk, R, {n});
    assert B[bp].alloc && Live(B)[bp] == B[bp].size - WSIZE by { LiveIsReal(m, B, brk, R, {n}, bp); }
    RegionOne(B, brk, bp);
    assert {n} - {n} == {};
    RegionNext(B, brk, {n}, bp, n, bp);
    hide Region;
    InnerSelf(m, bp, n + B[n].size);
    SameSelf(m, bp, Min(Live(B)[bp], room));
  }

  lemma PreparePrev(m: seq<nat>, B: Blocks, brk: nat, R: Rings, p: nat, bp: nat, room: nat)
    requires HeapOk(m, B, brk, R, {p}) && Coalesced(B, 0) && bp in Live(B) && Real(B, brk, bp) && Real(B, brk, p)
             && !B[p].alloc && p + B[p].size == bp
    ensures bp + B[bp].size <= brk <= |m| && Prepared(m, Moved(m, p, bp, B[bp].size - WSIZE), B, brk, R, {p}, p,
              bp + B[bp].size, bp, room)
  {
    hide HeapOk, Live, Coalesced, Same, Inner, Tiled, Words, Moved;
    HeapBlocks(m, B, brk, R, {p});
    assert B[bp].alloc && Live(B)[bp] == B[bp].size - WSIZE by { LiveIsReal(m, B, brk, R, {p}, bp); }
    RegionOne(B, brk, bp);
    assert {p} - {p} == {};
    RegionPrev(B, brk, {p}, p, bp + B[bp].size, bp);
    hide Region;
    var n := B[bp].size - WSIZE;
    MovedInner(m, p, bp, n, bp + B[bp].size);
    SameLess(m, bp, Moved(m, p, bp, n), p, n, Min(Live(B)[bp], room));
  }

  lemma PrepareBoth(m: seq<nat>, B: Blocks, brk: nat, R: Rings, p: nat, bp: nat, n: nat, room: nat)
    requires HeapOk(m, B, brk, R, {n, p}) && Coalesced(B, 0) && bp in Live(B) && Real(B, brk, bp) && Real(B, brk, p)
             && !B[p].alloc && p + B[p].size == bp
    requires n == bp + B[bp].size && Real(B, brk, n) && !B[n].alloc
    ensures n + B[n].size <= brk <= |m| && Prepared(m, Moved(m, p, bp, B[bp].size - WSIZE), B, brk, R, {n, p}, p,
              n + B[n].size, bp, room)
  {
    hide HeapOk, Live, Coalesced, Same, Inner, Tiled, Words, Moved;
    HeapBlocks(m, B, brk, R, {n, p});
    assert B[bp].alloc && Live(B)[bp] == B[bp].size - WSIZE by { LiveIsReal(m, B, brk, R, {n, p}, bp); }
    RegionOne(B, brk, bp);
    assert {n} - {n} == {} && {n, p} - {p} == {n};
    RegionNext(B, brk, {n}, bp, n, bp);
    RegionPrev(B, brk, {n, p}, p, n + B[n].size, bp);
    hide Region;
    var k := B[bp].size - WSIZE;
    MovedInner(m, p, bp, k, n + B[n].size);
    SameLess(m, bp, Moved(m, p, bp, k), p, k, Min(Live(B)[bp], room));
  }

  /** The last block, or the last and a free one behind it. */
  ghost predicate AtEnd(B: Blocks, brk: nat, U: set<nat>, bp: nat) {
    && Real(B, brk, bp)
    && var n := bp + B[bp].size;
       if n == brk then U == {} else U == {n} && !B[n].alloc && n + B[n].size == brk
  }

  lemma EndRegion(m: seq<nat>, B: Blocks, brk: nat, R: Rings, U: set<nat>, bp: nat)
    requires HeapOk(m, B, brk, R, U) && bp in Live(B) && AtEnd(B, brk, U, bp)
    ensures Region(B, brk, U, bp, brk, bp) && Live(B)[bp] == B[bp].size - WSIZE && brk <= |m|
  {
    hide HeapOk, Live, Tiled, Words, Region;
    HeapBlocks(m, B, brk, R, U);
    LiveIsReal(m, B, brk, R, U, bp);
    RegionOne(B, brk, bp);
    var n := bp + B[bp].size;
    if n != brk {
      FreeIsReal(B, brk, n);
      assert {n} - {n} == {};
      RegionNext(B, brk, U, bp, n, bp);
    }
  }

  function LongerWords(m: seq<nat>, bp: nat, a: nat, pa: bool): seq<nat>
    requires WSIZE <= bp && WSIZE <= a && bp + a <= |m|
  {
    m[bp - WSIZE := Pack(a, pa, true)][bp + a - WSIZE := Pack(0, true, true)]
  }

  lemma GrowReady(m: seq<nat>, B: Blocks, brk: nat, R: Rings, U: set<nat>, bp: nat, a: nat)
    requires HeapOk(m, B, brk, R, U) && Coalesced(B, 0) && bp in Live(B) && AtEnd(B, brk, U, bp) && brk < bp + a <= |m|
             && a % DSIZE == 0
    ensures WSIZE <= bp && WSIZE <= a
            && EndLayout(m, LongerWords(m, bp, a, PrevAlloc(B, bp)), B, brk, U, bp, a, true, 0)
    ensures NewlyFree(U, bp, bp + a, a, true, true) == {} && Elsewhere(Live(B), bp, bp + a) == Live(B) - {bp}
    ensures Live(B)[bp] == B[bp].size - WSIZE && Live(B)[bp] + WSIZE <= a
    ensures Same(m, bp, LongerWords(m, bp, a, PrevAlloc(B, bp)), bp, Live(B)[bp])
  {
    hide HeapOk, Live, Coalesced, Elsewhere, NewlyFree, Pack, PrevAlloc, EndLayout, Region;
    EndRegion(m, B, brk, R, U, bp);
    GrowEnd(m, B, brk, R, U, bp, a, bp);
    var m', k := LongerWords(m, bp, a, PrevAlloc(B, bp)), Live(B)[bp];
    assert m'[bp..bp + k] == m[bp..bp + k];
  }

  // ----- outcomes -----

  lemma ResizedLess(m: seq<nat>, L: map<nat, nat>, bp: nat, m': seq<nat>, L': map<nat, nat>, r: nat, n: nat, k: nat)
    requires Resized(m, L, bp, m', L', r, n) && k <= n
    ensures Resized(m, L, bp, m', L', r, k)
  {
    hide Keeps, Same;
  }

  lemma ResizedSelf(m: seq<nat>, L: map<nat, nat>, bp: nat, n: nat)
    requires bp in L && n <= L[bp] && bp + L[bp] <= |m|
    ensures Resized(m, L, bp, m, L, bp, n)
  {
    assert L == (L - {bp})[bp := L[bp]];
  }

  /** The epilogue is the only block of size 0. */
  lemma EndIs(m: seq<nat>, B: Blocks, brk: nat, R: Rings, U: set<nat>, q: nat)
    requires HeapOk(m, B, brk, R, U) && q in B
    ensures q + B[q].size <= brk && (B[q].size == 0 <==> q == brk)
  {
    HeapBlocks(m, B, brk, R, U);
    hide HeapOk, Tiled, Words;
    BlockIs(B, brk, q);
    First(B, brk);
    if q < brk {
      Apart(B, brk, q, brk);
    }
  }

  // ----- what resizing gives back -----

  lemma LiveSize(B: Blocks, p: nat)
    requires p in Live(B)
    ensures p in B && B[p].size == Live(B)[p] + WSIZE
  {
  }

  lemma ResizedLive(m: seq<nat>, L: map<nat, nat>, bp: nat, m': seq<nat>, L': map<nat, nat>, r: nat, n: nat)
    requires Resized(m, L, bp, m', L', r, n)
    ensures r in L' && forall q | q in L' && q != r :: q in L
  {
    hide Keeps, Same;
  }

  /** No block begins inside another. */
  lemma InsideLive(m: seq<nat>, B: Blocks, brk: nat, R: Rings, U: set<nat>, p: nat, q: nat)
    requires HeapOk(m, B, brk, R, U) && p in Live(B) && p in B && p < q < p + B[p].size
    ensures q !in Live(B) && q < brk
  {
    EndIs(m, B, brk, R, U, p);
    HeapBlocks(m, B, brk, R, U);
    hide HeapOk, Words;
    if q in B {
      Apart(B, brk, p, q);
      hide Tiled;
    }
  }

  /** What follows a live block and is neither live nor the end is free. */
  lemma BehindFree(m: seq<nat>, B: Blocks, brk: nat, R: Rings, U: set<nat>, p: nat, q: nat)
    requires HeapOk(m, B, brk, R, U) && p in Live(B) && q == p + Live(B)[p] + WSIZE && q !in Live(B) && q < brk
    ensures q in B && !B[q].alloc
  {
    HeapBlocks(m, B, brk, R, U);
    LiveIsReal(m, B, brk, R, U, p);
    hide HeapOk, Words, Tiled;
    BlockIs(B, brk, p);
    if q in B {
      BlockIs(B, brk, q);
    }
  }

  lemma RoundTwice(size: nat)
    ensures RoundPayload(RoundPayload(size)) == RoundPayload(size)
  {
    RoundPayloadIs(size);
    RoundPayloadIs(RoundPayload(size));
    assert LeastClass(size, RoundPayload(size));
    assert LeastClass(RoundPayload(size), RoundPayload(size));
    hide RoundPayload;
  }

  // ----- copying between live blocks -----

  lemma LiveApart(m: seq<nat>, B: Blocks, brk: nat, R: Rings, U: set<nat>, p: nat, q: nat)
    requires HeapOk(m, B, brk, R, U) && p in Live(B) && q in Live(B) && p != q
    ensures p + Live(B)[p] <= brk <= |m| && q + Live(B)[q] <= brk
    ensures p + Live(B)[p] + WSIZE <= q || q + Live(B)[q] + WSIZE <= p
  {
    HeapBlocks(m, B, brk, R, U);
    hide HeapOk, Tiled, Words, Live;
    LiveDisjoint(B, brk, p, q);
    LiveDisjoint(B, brk, q, p);
  }

  /** Writing into a live payload keeps the heap well formed. */
  lemma DataOk(m: seq<nat>, m': seq<nat>, B: Blocks, brk: nat, R: Rings, p: nat)
    requires HeapOk(m, B, brk, R, {}) && p in Live(B) && |m'| == |m|
    requires forall x | 0 <= x < |m| && !(p <= x < p + Live(B)[p]) :: m'[x] == m[x]
    ensures HeapOk(m', B, brk, R, {})
  {
    HeapBlocks(m, B, brk, R, {});
    LiveIsReal(m, B, brk, R, {}, p);
    hide HeapOk, Tiled, Live;
    var e := p + B[p].size;
    DataRelaid(m, m', B, p, e);
    OneCleared(B, brk, {}, p);
    BlockIs(B, brk, p);
    hide Real, BlockAt;
    RelaidOk(m, m', B, brk, R, {}, p, e, B[p].size, true, false);
    ReplaceSame(B, brk, p);
    assert NewlyFree({}, p, e, B[p].size, true, false) == {};
  }

  lemma DataRelaid(m: seq<nat>, m': seq<nat>, B: Blocks, p: nat, e: nat)
    requires p in B && e == p + B[p].size && e in B && B[p].alloc && B[e].prev == p && Words(m, B) && PROLOGUE < p
             && 2 * DSIZE <= B[p].size && |m'| == |m| && e <= |m|
    requires forall x | 0 <= x < |m| && !(p <= x < p + B[p].size - WSIZE) :: m'[x] == m[x]
    ensures Relaid(m, m', B, p, e, B[p].size, true, false)
  {
    WordsIs(m, B, p);
    WordsIs(m, B, e);
    hide Words, Pack, GetSize;
  }

  lemma ReplaceSame(B: Blocks, brk: nat, p: nat)
    requires Tiled(B, brk) && Real(B, brk, p) && B[p].alloc
    ensures Replace(B, p, p + B[p].size, B[p].size, true, false) == B
  {
    var e := p + B[p].size;
    var B' := Replace(B, p, e, B[p].size, true, false);
    forall q: nat ensures (q in B' <==> q in B) && (q in B ==> B'[q] == B[q]) {
      ReplaceAt(B, brk, p, e, B[p].size, true, false, q);
      if q in B && p < q {
        Apart(B, brk, p, q);
      }
    }
    hide Replace, Tiled;
  }

  lemma CopyOk(m: seq<nat>, B: Blocks, brk: nat, R: Rings, ptr: nat, bp: nat, n: nat)
    requires HeapOk(m, B, brk, R, {}) && ptr in Live(B) && bp in Live(B) && ptr != bp && n <= Live(B)[ptr]
             && n <= Live(B)[bp]
    ensures ptr + n <= |m| && bp + n <= |m| && HeapOk(Moved(m, ptr, bp, n), B, brk, R, {})
    ensures Keeps(m, Moved(m, ptr, bp, n), Live(B) - {ptr}) && Same(m, bp, Moved(m, ptr, bp, n), ptr, n)
  {
    hide HeapOk, Live;
    LiveApart(m, B, brk, R, {}, ptr, bp);
    var m' := Moved(m, ptr, bp, n);
    DataOk(m, m', B, brk, R, ptr);
    forall q, x | q in Live(B) - {ptr} && q <= x < q + Live(B)[q] && x < |m| ensures m'[x] == m[x] {
      LiveApart(m, B, brk, R, {}, ptr, q);
    }
  }

  lemma MovedResized(m: seq<nat>, m1: seq<nat>, m2: seq<nat>, m3: seq<nat>, L: map<nat, nat>, L1: map<nat, nat>,
          bp: nat, ptr: nat, n: nat, size: nat)
    requires bp in L && ptr !in L && ptr in L1 && L1 == L[ptr := L1[ptr]] && L[bp] == n < size <= L1[ptr]
             && bp + n <= |m|
    requires Keeps(m, m1, L) && Keeps(m1, m2, L1 - {ptr}) && Same(m1, bp, m2, ptr, n) && Keeps(m2, m3, L1 - {bp})
    ensures Resized(m, L, bp, m3, L1 - {bp}, ptr, size)
  {
    KeepsSlice(m, m1, L, bp, n);
    KeepsLength(m, m1, L);
    KeepsLength(m1, m2, L1 - {ptr});
    KeepsLength(m2, m3, L1 - {bp});
    KeepsSlice(m2, m3, L1 - {bp}, ptr, n);
    KeepsOn(m, m1, m2, L, L1 - {ptr});
    KeepsOn(m, m2, m3, L - {bp}, L1 - {bp});
    hide Keeps;
  }
}
