/** The words of the heap: headers, footers and the rings of free blocks, and how
    a new layout of some blocks shows in them. */
module MmWords {
  import opened MmBlocks

  // ----- header words -----

  function Pack(size: nat, prevAlloc: bool, alloc: bool): nat {
    size + (if prevAlloc then 2 else 0) + if alloc then 1 else 0
  }

  function GetSize(w: nat): nat {
    w / 8 * 8
  }

  predicate GetAlloc(w: nat) {
    w % 2 == 1
  }

  predicate GetPrevAlloc(w: nat) {
    w / 2 % 2 == 1
  }

  lemma Unpack(size: nat, prevAlloc: bool, alloc: bool)
    requires size % DSIZE == 0
    ensures var w := Pack(size, prevAlloc, alloc);
            GetSize(w) == size && GetAlloc(w) == alloc && GetPrevAlloc(w) == prevAlloc
  {
  }

  // ----- size classes -----

  /** Number of significant bits of x, at most n. */
  function Bits(x: nat, n: nat): (c: nat)
    ensures c <= n
  {
    if x == 0 || n == 0 then 0 else 1 + Bits(x / 2, n - 1)
  }

  function Class(size: nat): (i: nat)
    ensures i < CLASSNUM
  {
    if size <= 2 * DSIZE then 0 else Bits((size - WSIZE - 1) / 16, CLASSNUM - 1)
  }

  lemma {:induction false} BitsMonotone(x: nat, y: nat, n: nat)
    requires x <= y
    ensures Bits(x, n) <= Bits(y, n)
  {
    if x != 0 && n != 0 {
      BitsMonotone(x / 2, y / 2, n - 1);
    }
  }

  lemma ClassMonotone(x: nat, y: nat)
    requires x <= y
    ensures Class(x) <= Class(y)
  {
    if 2 * DSIZE < x {
      BitsMonotone((x - WSIZE - 1) / 16, (y - WSIZE - 1) / 16, CLASSNUM - 1);
    }
  }

  function TwoTo(k: nat): nat {
    if k == 0 then 1 else 2 * TwoTo(k - 1)
  }

  lemma {:induction false} BitsAtLeast(x: nat, n: nat, k: nat)
    requires 0 < k <= n
    ensures k <= Bits(x, n) <==> TwoTo(k - 1) <= x
  {
    AtLeastOne(k - 1);
    if k > 1 && x != 0 {
      BitsAtLeast(x / 2, n - 1, k - 1);
    }
  }

  /** The classes begin at 21, 37, 69, ... bytes, each width twice the one before. */
  lemma ClassBegins(size: nat, k: nat)
    requires 0 < k < CLASSNUM
    ensures k <= Class(size) <==> WSIZE + 1 + 16 * TwoTo(k - 1) <= size
  {
    AtLeastOne(k - 1);
    if 2 * DSIZE < size {
      BitsAtLeast((size - WSIZE - 1) / 16, CLASSNUM - 1, k);
    }
    hide Bits;
  }

  lemma {:induction false} AtLeastOne(k: nat)
    ensures TwoTo(k) >= 1
  {
    if k > 0 {
      AtLeastOne(k - 1);
    }
  }

  // ----- request sizes -----

  /** The least of 16, 32, ..., 512 that holds size; size itself if there is none,
      or if it is at most 16. */
  function RoundPayload(size: nat): (r: nat)
    ensures size <= r
  {
    if 16 < size <= 512 then RoundFrom(16, size) else size
  }

  function RoundFrom(rounded: nat, size: nat): (r: nat)
    requires 0 < rounded
    ensures size <= r && rounded <= r && (rounded < r ==> r < 2 * size)
    decreases size - rounded
  {
    if rounded < size then RoundFrom(2 * rounded, size) else rounded
  }

  /** The reusable payload sizes. */
  predicate IsPayloadClass(r: nat) {
    r == 16 || r == 32 || r == 64 || r == 128 || r == 256 || r == 512
  }

  /** Sizes up to 16 and above 512 are kept; between them r is a class that holds
      size, and no smaller class does. */
  ghost predicate LeastClass(size: nat, r: nat) {
    if 16 < size <= 512 then IsPayloadClass(r) && size <= r && forall c: nat | IsPayloadClass(c) && size <= c :: r <= c
    else r == size
  }

  lemma RoundPayloadIs(size: nat)
    ensures forall r: nat :: LeastClass(size, r) <==> r == RoundPayload(size)
  {
    RoundsTo(16, size);
    RoundsTo(32, size);
    RoundsTo(64, size);
    RoundsTo(128, size);
    RoundsTo(256, size);
    RoundsTo(512, size);
    assert IsPayloadClass(16) && IsPayloadClass(32) && IsPayloadClass(64) && IsPayloadClass(128) && IsPayloadClass(256)
           && IsPayloadClass(512);
    hide RoundFrom;
  }

  lemma RoundsTo(rounded: nat, size: nat)
    requires 0 < rounded
    ensures RoundFrom(rounded, size) == if rounded < size then RoundFrom(2 * rounded, size) else rounded
  {
  }

  /** Block size for a rounded payload: header added, aligned to 8, at least 16. */
  function Adjusted(size: nat): (asize: nat)
    ensures asize % DSIZE == 0 && 2 * DSIZE <= asize && size + WSIZE <= asize
    ensures size > DSIZE ==> asize < size + WSIZE + DSIZE
  {
    if size <= DSIZE then 2 * DSIZE else DSIZE * ((size + WSIZE + (DSIZE - 1)) / DSIZE)
  }

  // ----- headers and footers -----

  ghost predicate PrevAlloc(B: Blocks, q: nat)
    requires q in B
  {
    B[q].prev in B && B[B[q].prev].alloc
  }

  ghost predicate WordsAt(m: seq<nat>, B: Blocks, q: nat)
    requires q in B
  {
    && WSIZE <= q <= |m| && m[q - WSIZE] == Pack(B[q].size, PrevAlloc(B, q), B[q].alloc)
    && (!B[q].alloc ==>
         B[q].size >= 2 * DSIZE && q + B[q].size - DSIZE < |m| && GetSize(m[q + B[q].size - DSIZE]) == B[q].size)
  }

  ghost predicate Words(m: seq<nat>, B: Blocks) {
    forall q | q in B :: WordsAt(m, B, q)
  }

  // ----- rings -----

  type Rings = seq<seq<nat>>

  function Before(c: seq<nat>, j: nat): nat
    requires j < |c|
  {
    if j == 0 then c[|c| - 1] else c[j - 1]
  }

  function After(c: seq<nat>, j: nat): nat
    requires j < |c|
  {
    if j + 1 == |c| then c[0] else c[j + 1]
  }

  /** The blocks of c are linked in a ring whose first block the cell h names. */
  ghost predicate RingOk(m: seq<nat>, h: nat, c: seq<nat>) {
    && h < |m| && m[h] == (if c == [] then 0 else c[0])
    && forall j | 0 <= j < |c| :: RingCell(m, c, j)
  }

  ghost predicate RingCell(m: seq<nat>, c: seq<nat>, j: nat)
    requires j < |c|
  {
    0 < c[j] && c[j] + WSIZE < |m| && m[c[j]] == Before(c, j) && m[c[j] + WSIZE] == After(c, j)
  }

  ghost predicate RingsOk(m: seq<nat>, R: Rings) {
    |R| == CLASSNUM && forall i | 0 <= i < CLASSNUM :: RingOk(m, WSIZE * i, R[i])
  }

  ghost predicate Distinct(c: seq<nat>) {
    forall i, j | 0 <= i < j < |c| :: c[i] != c[j]
  }

  ghost predicate IsFree(B: Blocks, U: set<nat>, p: nat) {
    p in B && !B[p].alloc && p !in U
  }

  /** Each free block is once in the ring of its class, except those in U. */
  ghost predicate Filed(B: Blocks, R: Rings, U: set<nat>) {
    && |R| == CLASSNUM
    && (forall i | 0 <= i < CLASSNUM :: Distinct(R[i]))
    && (forall i, p | 0 <= i < CLASSNUM && p in R[i] :: IsFree(B, U, p) && Class(B[p].size) == i)
    && (forall p | p in B && IsFree(B, U, p) :: p in R[Class(B[p].size)])
    && (forall p | p in U :: p in B && !B[p].alloc)
  }

  ghost predicate HeapOk(m: seq<nat>, B: Blocks, brk: nat, R: Rings, U: set<nat>) {
    Tiled(B, brk) && brk <= |m| && Words(m, B) && RingsOk(m, R) && Filed(B, R, U)
  }

  /** No two free blocks are adjacent, except for block x and its neighbours. */
  ghost predicate Coalesced(B: Blocks, x: nat) {
    forall q | q in B && B[q].prev in B && q != x && B[q].prev != x :: B[q].alloc || B[B[q].prev].alloc
  }

  // ----- live payloads -----

  ghost predicate IsLive(B: Blocks, p: nat) {
    p in B && B[p].alloc && p != PROLOGUE && B[p].size != 0
  }

  /** Payload sizes of the allocated blocks. */
  ghost function Live(B: Blocks): map<nat, nat> {
    map p | p in B && IsLive(B, p) && B[p].size >= WSIZE :: B[p].size - WSIZE
  }

  /** The payloads of the blocks live in B are the same in both memories. */
  ghost predicate SameData(m: seq<nat>, m': seq<nat>, B: Blocks) {
    |m'| == |m| && forall p, x | p in B && IsLive(B, p) && p <= x < p + B[p].size - WSIZE && x < |m| :: m'[x] == m[x]
  }

  // ----- one new layout -----

  /** Outside the region only the flags of a free block's footer behind it may differ. */
  ghost predicate Outside(m: seq<nat>, m': seq<nat>, B: Blocks, p: nat, e: nat)
    requires e in B
  {
    && |m'| == |m|
    && forall x | 0 <= x < |m| && (x + WSIZE < p || x >= e) ::
         m'[x] == m[x] || (!B[e].alloc && x == e + B[e].size - DSIZE && GetSize(m'[x]) == B[e].size)
  }

  /** Header, and footer if free, of block q. */
  ghost predicate Marked(m: seq<nat>, q: nat, size: nat, prevAlloc: bool, alloc: bool) {
    && WSIZE <= q && q + size <= |m| + WSIZE && q <= |m| && m[q - WSIZE] == Pack(size, prevAlloc, alloc)
    && (!alloc ==> size >= DSIZE && q + size - DSIZE < |m| && GetSize(m[q + size - DSIZE]) == size)
  }

  function NewlyFree(U: set<nat>, p: nat, e: nat, a: nat, f: bool, g: bool): set<nat> {
    (set q | q in U && (q < p || q >= e)) + (if f then {} else {p}) + if p + a < e && !g then {p + a} else {}
  }

  ghost predicate Relaid(m: seq<nat>, m': seq<nat>, B: Blocks, p: nat, e: nat, a: nat, f: bool, g: bool)
    requires p in B && e in B
  {
    && Outside(m, m', B, p, e)
    && Marked(m', p, a, PrevAlloc(B, p), f)
    && (p + a < e ==> Marked(m', p + a, e - p - a, f, g))
    && WSIZE <= e <= |m'| && m'[e - WSIZE] == Pack(B[e].size, if p + a == e then f else g, B[e].alloc)
  }

  lemma RelaidWords(m: seq<nat>, m': seq<nat>, B: Blocks, brk: nat, p: nat, e: nat, a: nat, f: bool, g: bool, q: nat)
    requires CanReplace(B, brk, p, e, a) && Words(m, B) && brk <= |m| && Relaid(m, m', B, p, e, a, f, g)
    requires q in Replace(B, p, e, a, f, g)
    ensures WordsAt(m', Replace(B, p, e, a, f, g), q)
  {
    hide Tiled, Replace, GetSize, Pack;
    ReplaceAt(B, brk, p, e, a, f, g, q);
    if q == p || q == e || (q == p + a && p + a < e) {
      RelaidNear(m, m', B, brk, p, e, a, f, g, q);
    } else {
      assert WordsAt(m, B, q);
      RelaidFar(B, brk, p, e, a, f, g, q);
    }
  }

  lemma RelaidNear(m: seq<nat>, m': seq<nat>, B: Blocks, brk: nat, p: nat, e: nat, a: nat, f: bool, g: bool, q: nat)
    requires CanReplace(B, brk, p, e, a) && Words(m, B) && brk <= |m| && Relaid(m, m', B, p, e, a, f, g)
    requires q == p || q == e || (q == p + a && p + a < e)
    ensures q in Replace(B, p, e, a, f, g) && WordsAt(m', Replace(B, p, e, a, f, g), q)
  {
    hide Tiled, Replace, GetSize, Pack, Words, PrevAlloc;
    WordsIs(m, B, e);
    RelaidNearBlock(B, brk, p, e, a, f, g, q);
  }

  lemma WordsIs(m: seq<nat>, B: Blocks, q: nat)
    requires Words(m, B) && q in B
    ensures WordsAt(m, B, q)
  {
  }

  lemma RelaidNearBlock(B: Blocks, brk: nat, p: nat, e: nat, a: nat, f: bool, g: bool, q: nat)
    requires CanReplace(B, brk, p, e, a)
    requires q == p || q == e || (q == p + a && p + a < e)
    ensures q in Replace(B, p, e, a, f, g)
    ensures var b := Replace(B, p, e, a, f, g)[q];
            && b.size == (if q == p then a else if q == e then B[e].size else e - p - a)
            && b.alloc == (if q == p then f else if q == e then B[e].alloc else g)
            && (!b.alloc ==> b.size >= 2 * DSIZE)
    ensures PrevAlloc(Replace(B, p, e, a, f, g), q) == (if q == p then PrevAlloc(B, p)
              else if q == e && p + a < e then g else f)
  {
    hide Tiled, Replace;
    ReplaceAt(B, brk, p, e, a, f, g, q);
    ReplaceAt(B, brk, p, e, a, f, g, p);
    ReplaceAt(B, brk, p, e, a, f, g, p + a);
    BlockIs(B, brk, p);
    BlockIs(B, brk, e);
    ReplaceAt(B, brk, p, e, a, f, g, B[p].prev);
  }

  /** Blocks outside the region, and what their headers say of the block before. */
  lemma RelaidFar(B: Blocks, brk: nat, p: nat, e: nat, a: nat, f: bool, g: bool, q: nat)
    requires CanReplace(B, brk, p, e, a) && q in B && (q < p || q > e)
    ensures q in Replace(B, p, e, a, f, g) && Replace(B, p, e, a, f, g)[q] == B[q]
    ensures PrevAlloc(Replace(B, p, e, a, f, g), q) == PrevAlloc(B, q)
    ensures q < p ==> q + B[q].size <= p
    ensures q > e ==> q >= e + B[e].size && q >= e + DSIZE
  {
    hide Tiled, Replace;
    ReplaceAt(B, brk, p, e, a, f, g, q);
    ReplaceFar(B, brk, p, e, a, f, g, q);
    BlockIs(B, brk, q);
    BlockIs(B, brk, e);
    if q < p {
      Apart(B, brk, q, p);
    } else {
      Apart(B, brk, e, q);
    }
    if q != PROLOGUE {
      ReplaceAt(B, brk, p, e, a, f, g, B[q].prev);
      if q > e && B[q].prev < e {
        Apart(B, brk, B[q].prev, e);
      }
      BlockIs(B, brk, B[q].prev);
    } else {
      ReplaceAt(B, brk, p, e, a, f, g, 0);
      NotZero(B, brk);
    }
  }

  lemma NotZero(B: Blocks, brk: nat)
    requires Tiled(B, brk)
    ensures 0 !in B
  {
    if 0 in B {
      BlockIs(B, brk, 0);
    }
    hide Tiled;
  }

  /** The free blocks of the region are in no ring. */
  ghost predicate Cleared(B: Blocks, U: set<nat>, p: nat, e: nat) {
    forall q | q in B && p <= q < e :: B[q].alloc || q in U
  }

  lemma RingCellKept(m: seq<nat>, m': seq<nat>, B: Blocks, brk: nat, U: set<nat>, p: nat, e: nat, q: nat)
    requires Tiled(B, brk) && p in B && e in B && p < e && Outside(m, m', B, p, e) && Cleared(B, U, p, e)
             && IsFree(B, U, q) && q + WSIZE < |m|
    ensures m'[q] == m[q] && m'[q + WSIZE] == m[q + WSIZE]
  {
    hide Tiled, GetSize;
    BlockIs(B, brk, q);
    BlockIs(B, brk, p);
    First(B, brk);
    if q < p {
      Apart(B, brk, q, p);
    } else if q > e {
      Apart(B, brk, e, q);
      BlockIs(B, brk, e);
    }
  }

  lemma RingKept(m: seq<nat>, m': seq<nat>, h: nat, c: seq<nat>)
    requires RingOk(m, h, c) && |m'| == |m| && m'[h] == m[h]
    requires forall j {:trigger c[j]} | 0 <= j < |c| && c[j] + WSIZE < |m| ::
             m'[c[j]] == m[c[j]] && m'[c[j] + WSIZE] == m[c[j] + WSIZE]
    ensures RingOk(m', h, c)
  {
    hide Before, After;
    forall j | 0 <= j < |c| ensures RingCell(m', c, j) {
      assert RingCell(m, c, j);
    }
  }

  lemma RingMember(m: seq<nat>, B: Blocks, R: Rings, U: set<nat>, i: nat, j: nat)
    requires RingsOk(m, R) && Filed(B, R, U) && i < CLASSNUM && j < |R[i]|
    ensures IsFree(B, U, R[i][j]) && Class(B[R[i][j]].size) == i && R[i][j] + WSIZE < |m|
  {
    hide RingsOk, Filed;
    FiledAt(B, R, U, i, j);
    RingHead(m, R, i);
    RingAt(m, WSIZE * i, R[i], j);
  }

  lemma FiledAt(B: Blocks, R: Rings, U: set<nat>, i: nat, j: nat)
    requires Filed(B, R, U) && i < CLASSNUM && j < |R[i]|
    ensures IsFree(B, U, R[i][j]) && Class(B[R[i][j]].size) == i
  {
    hide Class, Distinct;
    assert R[i][j] in R[i];
  }

  lemma RingAt(m: seq<nat>, h: nat, c: seq<nat>, j: nat)
    requires RingOk(m, h, c) && j < |c|
    ensures 0 < c[j] && c[j] + WSIZE < |m| && m[c[j]] == Before(c, j) && m[c[j] + WSIZE] == After(c, j)
  {
    hide Before, After;
    assert RingCell(m, c, j);
  }

  lemma RelaidRings(m: seq<nat>, m': seq<nat>, B: Blocks, brk: nat, R: Rings, U: set<nat>, p: nat, e: nat)
    requires Tiled(B, brk) && RingsOk(m, R) && Filed(B, R, U) && p in B && e in B && PROLOGUE < p < e
    requires Outside(m, m', B, p, e) && Cleared(B, U, p, e)
    ensures RingsOk(m', R)
  {
    hide Tiled, Outside, Cleared, Filed, RingOk, IsFree;
    forall i | 0 <= i < CLASSNUM ensures RingOk(m', WSIZE * i, R[i]) {
      RingHead(m, R, i);
      HeadKept(m, m', B, brk, p, e, WSIZE * i);
      forall j {:trigger R[i][j]} | 0 <= j < |R[i]| && R[i][j] + WSIZE < |m|
             ensures m'[R[i][j]] == m[R[i][j]] && m'[R[i][j] + WSIZE] == m[R[i][j] + WSIZE] {
        RingMember(m, B, R, U, i, j);
        RingCellKept(m, m', B, brk, U, p, e, R[i][j]);
      }
      RingKept(m, m', WSIZE * i, R[i]);
    }
  }

  lemma RingHead(m: seq<nat>, R: Rings, i: nat)
    requires RingsOk(m, R) && i < CLASSNUM
    ensures |R| == CLASSNUM && RingOk(m, WSIZE * i, R[i]) && WSIZE * i < |m|
  {
    assert RingOk(m, WSIZE * i, R[i]);
  }

  lemma HeadKept(m: seq<nat>, m': seq<nat>, B: Blocks, brk: nat, p: nat, e: nat, h: nat)
    requires Tiled(B, brk) && e in B && PROLOGUE < p < e && Outside(m, m', B, p, e) && h < LISTS_END && h < |m|
    ensures |m'| == |m| && m'[h] == m[h]
  {
    hide Tiled, GetSize;
    BlockIs(B, brk, e);
  }

  lemma RelaidFiled(B: Blocks, brk: nat, R: Rings, U: set<nat>, p: nat, e: nat, a: nat, f: bool, g: bool)
    requires CanReplace(B, brk, p, e, a) && Filed(B, R, U) && Cleared(B, U, p, e)
    ensures Filed(Replace(B, p, e, a, f, g), R, NewlyFree(U, p, e, a, f, g))
  {
    hide Tiled, Replace, Class, Distinct;
    var B', U' := Replace(B, p, e, a, f, g), NewlyFree(U, p, e, a, f, g);
    forall q ensures IsFree(B', U', q) <==> IsFree(B, U, q) {
      ReplaceAt(B, brk, p, e, a, f, g, q);
    }
    forall q | IsFree(B, U, q) ensures q in B' && B'[q].size == B[q].size {
      ReplaceAt(B, brk, p, e, a, f, g, q);
    }
    forall q | q in U' ensures q in B' && !B'[q].alloc {
      ReplaceAt(B, brk, p, e, a, f, g, q);
    }
    hide IsFree, NewlyFree;
  }

  /** Laying out a region anew keeps the heap well formed; what becomes free is
      not in a ring yet. */
  lemma RelaidOk(m: seq<nat>, m': seq<nat>, B: Blocks, brk: nat, R: Rings, U: set<nat>, p: nat, e: nat, a: nat, f: bool,
          g: bool)
    requires HeapOk(m, B, brk, R, U) && CanReplace(B, brk, p, e, a) && Cleared(B, U, p, e)
             && Relaid(m, m', B, p, e, a, f, g)
    ensures HeapOk(m', Replace(B, p, e, a, f, g), brk, R, NewlyFree(U, p, e, a, f, g))
  {
    hide Tiled, Replace, NewlyFree, RingsOk, Filed, WordsAt, Cleared;
    ReplaceTiled(B, brk, p, e, a, f, g);
    RelaidRings(m, m', B, brk, R, U, p, e);
    RelaidFiled(B, brk, R, U, p, e, a, f, g);
    forall q | q in Replace(B, p, e, a, f, g) ensures WordsAt(m', Replace(B, p, e, a, f, g), q) {
      RelaidWords(m, m', B, brk, p, e, a, f, g, q);
    }
  }

  /** Blocks outside the region keep their data. */
  lemma RelaidData(m: seq<nat>, m': seq<nat>, B: Blocks, brk: nat, p: nat, e: nat, q: nat, x: nat)
    requires Tiled(B, brk) && p in B && e in B && p < e && Outside(m, m', B, p, e) && IsLive(B, q)
             && q <= x < q + B[q].size - WSIZE && x < |m| && (q < p || q >= e)
    ensures m'[x] == m[x]
  {
    hide Tiled, GetSize;
    BlockIs(B, brk, q);
    BlockIs(B, brk, e);
    if q < p {
      Apart(B, brk, q, p);
    } else if q > e {
      Apart(B, brk, e, q);
    }
  }

  // ----- growing the heap -----

  ghost predicate Grown(m: seq<nat>, m': seq<nat>, B: Blocks, p: nat, a: nat, f: bool)
    requires p in B
  {
    && |m'| == |m| && p + a <= |m|
    && (forall x | 0 <= x && x + WSIZE < p && x < |m| :: m'[x] == m[x])
    && Marked(m', p, a, PrevAlloc(B, p), f) && WSIZE <= p + a && m'[p + a - WSIZE] == Pack(0, f, true)
  }

  lemma GrownWords(m: seq<nat>, m': seq<nat>, B: Blocks, brk: nat, p: nat, a: nat, f: bool, q: nat)
    requires CanReplaceEnd(B, brk, p, a) && Words(m, B) && brk <= |m| && Grown(m, m', B, p, a, f)
    requires q in ReplaceEnd(B, p, a, f)
    ensures WordsAt(m', ReplaceEnd(B, p, a, f), q)
  {
    hide Tiled, ReplaceEnd, GetSize, Pack;
    ReplaceEndAt(B, brk, p, a, f, q);
    ReplaceEndAt(B, brk, p, a, f, p);
    BlockIs(B, brk, p);
    ReplaceEndAt(B, brk, p, a, f, B[p].prev);
    if q < p {
      assert WordsAt(m, B, q);
      Apart(B, brk, q, p);
      BlockIs(B, brk, q);
      ReplaceEndAt(B, brk, p, a, f, B[q].prev);
      NotZero(B, brk);
    }
  }

  lemma GrownRings(m: seq<nat>, m': seq<nat>, B: Blocks, brk: nat, R: Rings, U: set<nat>, p: nat, a: nat, f: bool)
    requires Tiled(B, brk) && RingsOk(m, R) && Filed(B, R, U) && p in B && PROLOGUE < p && brk <= |m|
             && Grown(m, m', B, p, a, f) && Cleared(B, U, p, brk)
    ensures RingsOk(m', R)
  {
    hide Tiled, Cleared, Filed, RingOk, IsFree;
    forall i | 0 <= i < CLASSNUM ensures RingOk(m', WSIZE * i, R[i]) {
      RingHead(m, R, i);
      forall j {:trigger R[i][j]} | 0 <= j < |R[i]| && R[i][j] + WSIZE < |m|
             ensures m'[R[i][j]] == m[R[i][j]] && m'[R[i][j] + WSIZE] == m[R[i][j] + WSIZE] {
        RingMember(m, B, R, U, i, j);
        GrownCell(B, brk, U, p, R[i][j]);
      }
      RingKept(m, m', WSIZE * i, R[i]);
    }
  }

  lemma GrownCell(B: Blocks, brk: nat, U: set<nat>, p: nat, q: nat)
    requires Tiled(B, brk) && p in B && IsFree(B, U, q) && Cleared(B, U, p, brk)
    ensures q + 2 * WSIZE < p
  {
    hide Tiled;
    BlockIs(B, brk, q);
    First(B, brk);
    if q < p {
      Apart(B, brk, q, p);
    }
  }

  lemma GrownFiled(B: Blocks, brk: nat, R: Rings, U: set<nat>, p: nat, a: nat, f: bool)
    requires CanReplaceEnd(B, brk, p, a) && Filed(B, R, U) && Cleared(B, U, p, brk)
    ensures Filed(ReplaceEnd(B, p, a, f), R, NewlyFree(U, p, p + a, a, f, true))
  {
    hide Tiled, ReplaceEnd, Class, Distinct;
    var B', U' := ReplaceEnd(B, p, a, f), NewlyFree(U, p, p + a, a, f, true);
    forall q | q in B ensures q <= brk && (q == brk ==> B[q].alloc) {
      BlockIs(B, brk, q);
    }
    forall q ensures IsFree(B', U', q) <==> IsFree(B, U, q) {
      ReplaceEndAt(B, brk, p, a, f, q);
    }
    forall q | IsFree(B, U, q) ensures q in B' && B'[q].size == B[q].size {
      ReplaceEndAt(B, brk, p, a, f, q);
    }
    forall q | q in U' ensures q in B' && !B'[q].alloc {
      ReplaceEndAt(B, brk, p, a, f, q);
    }
    hide IsFree, NewlyFree;
  }

  /** Likewise for a new layout of the end of the heap. */
  lemma GrownOk(m: seq<nat>, m': seq<nat>, B: Blocks, brk: nat, R: Rings, U: set<nat>, p: nat, a: nat, f: bool)
    requires HeapOk(m, B, brk, R, U) && CanReplaceEnd(B, brk, p, a) && Cleared(B, U, p, brk) && Grown(m, m', B, p, a, f)
    ensures HeapOk(m', ReplaceEnd(B, p, a, f), p + a, R, NewlyFree(U, p, p + a, a, f, true))
  {
    hide Tiled, ReplaceEnd, NewlyFree, RingsOk, Filed, WordsAt, Cleared;
    ReplaceEndTiled(B, brk, p, a, f);
    GrownRings(m, m', B, brk, R, U, p, a, f);
    GrownFiled(B, brk, R, U, p, a, f);
    forall q | q in ReplaceEnd(B, p, a, f) ensures WordsAt(m', ReplaceEnd(B, p, a, f), q) {
      GrownWords(m, m', B, brk, p, a, f, q);
    }
  }
}
