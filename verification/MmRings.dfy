/** The rings of free blocks: putting a block into the ring of its class and
    taking one out changes link cells only, and keeps the heap well formed. */
module MmRings {
  import opened MmBlocks
  import opened MmWords

  // ----- ring cells -----

  /** At most list heads and the link cells of the blocks of c differ. */
  ghost predicate OnlyLinks(m: seq<nat>, m': seq<nat>, c: seq<nat>) {
    |m'| == |m| && forall x | LISTS_END <= x < |m| :: m'[x] == m[x] || IsLink(c, x)
  }

  ghost predicate IsLink(c: seq<nat>, x: nat) {
    exists q | q in c :: x == q || x == q + WSIZE
  }

  ghost predicate AllFree(B: Blocks, c: seq<nat>) {
    forall q | q in c :: q in B && !B[q].alloc
  }

  /** A link cell of a free block is no header, footer or live data. */
  lemma LinkCell(B: Blocks, brk: nat, q: nat, p: nat)
    requires Tiled(B, brk) && q in B && !B[q].alloc && p in B
    ensures p != q ==> p + B[p].size <= q || q + B[q].size <= p
    ensures B[q].size >= 2 * DSIZE && q >= PROLOGUE + DSIZE && (p == q || p >= q + 2 * DSIZE || p + DSIZE <= q)
  {
    hide Tiled;
    BlockIs(B, brk, q);
    First(B, brk);
    BlockIs(B, brk, p);
    Apart(B, brk, PROLOGUE, q);
    if p < q {
      Apart(B, brk, p, q);
    } else if q < p {
      Apart(B, brk, q, p);
    }
  }

  lemma LinksWords(m: seq<nat>, m': seq<nat>, B: Blocks, brk: nat, c: seq<nat>)
    requires Tiled(B, brk) && Words(m, B) && OnlyLinks(m, m', c) && AllFree(B, c)
    ensures Words(m', B)
  {
    hide Tiled, GetSize, Pack, PrevAlloc;
    forall p | p in B ensures WordsAt(m', B, p) {
      assert WordsAt(m, B, p);
      BlockIs(B, brk, p);
      forall q | q in c ensures p - WSIZE != q && p - WSIZE != q + WSIZE
             && (!B[p].alloc ==> p + B[p].size - DSIZE != q && p + B[p].size - DSIZE != q + WSIZE) {
        LinkCell(B, brk, q, p);
      }
    }
  }

  lemma LinksData(m: seq<nat>, m': seq<nat>, B: Blocks, brk: nat, c: seq<nat>)
    requires Tiled(B, brk) && OnlyLinks(m, m', c) && AllFree(B, c)
    ensures SameData(m, m', B)
  {
    hide Tiled;
    forall p, x | p in B && IsLive(B, p) && p <= x < p + B[p].size - WSIZE && x < |m| ensures m'[x] == m[x] {
      BlockIs(B, brk, p);
      forall q | q in c ensures x != q && x != q + WSIZE {
        LinkCell(B, brk, q, p);
      }
    }
  }

  lemma LinksRing(m: seq<nat>, m': seq<nat>, B: Blocks, brk: nat, c: seq<nat>, h: nat, r: seq<nat>)
    requires Tiled(B, brk) && OnlyLinks(m, m', c) && AllFree(B, c) && AllFree(B, r)
    requires RingOk(m, h, r) && m'[h] == m[h] && forall q | q in r :: q !in c
    ensures RingOk(m', h, r)
  {
    hide Tiled, Before, After;
    forall j {:trigger r[j]} | 0 <= j < |r| && r[j] + WSIZE < |m|
           ensures m'[r[j]] == m[r[j]] && m'[r[j] + WSIZE] == m[r[j] + WSIZE] {
      assert r[j] in r;
      BlockIs(B, brk, r[j]);
      forall q | q in c ensures r[j] != q && r[j] != q + WSIZE && r[j] + WSIZE != q {
        LinkCell(B, brk, q, r[j]);
      }
    }
    RingKept(m, m', h, r);
  }

  // ----- putting a block into its ring -----

  ghost predicate Spaced(c: seq<nat>) {
    && (forall i | 0 <= i < |c| :: c[i] >= LISTS_END)
    && forall i, j | 0 <= i < |c| && 0 <= j < |c| && i != j :: c[i] + DSIZE <= c[j] || c[j] + DSIZE <= c[i]
  }

  function InsertFirst(m: seq<nat>, h: nat, bp: nat): seq<nat>
    requires h < |m| && bp + WSIZE < |m|
  {
    m[h := bp][bp := bp][bp + WSIZE := bp]
  }

  function InsertBefore(m: seq<nat>, h: nat, head: nat, last: nat, bp: nat): seq<nat>
    requires h < |m| && bp + WSIZE < |m| && head < |m| && last + WSIZE < |m|
  {
    m[bp + WSIZE := head][bp := last][last + WSIZE := bp][head := bp][h := bp]
  }

  lemma InsertRingFirst(m: seq<nat>, h: nat, bp: nat)
    requires RingOk(m, h, []) && h < LISTS_END <= bp && bp + WSIZE < |m|
    ensures RingOk(InsertFirst(m, h, bp), h, [bp]) && OnlyLinks(m, InsertFirst(m, h, bp), [bp])
  {
    var c := [bp];
    assert c[0] == bp && Before(c, 0) == bp && After(c, 0) == bp;
    assert bp in c;
  }

  lemma InsertRing(m: seq<nat>, h: nat, c: seq<nat>, bp: nat)
    requires RingOk(m, h, c) && c != [] && h < LISTS_END && Spaced([bp] + c) && bp + WSIZE < |m|
    ensures c[0] < |m| && c[|c| - 1] + WSIZE < |m| && m[c[0]] == c[|c| - 1]
    ensures RingOk(InsertBefore(m, h, c[0], c[|c| - 1], bp), h, [bp] + c)
            && OnlyLinks(m, InsertBefore(m, h, c[0], c[|c| - 1], bp), [bp] + c)
  {
    var n := |c|;
    RingAt(m, h, c, 0);
    RingAt(m, h, c, n - 1);
    var d := [bp] + c;
    var m' := InsertBefore(m, h, c[0], c[n - 1], bp);
    assert d[0] == bp && d[1] == c[0] && d[n] == c[n - 1];
    InsertLinks(m, h, c[0], c[n - 1], bp, d);
    assert OnlyLinks(m, m', d);
    hide Before, After, OnlyLinks;
    forall j | 0 <= j < |d| ensures RingCell(m', d, j) {
      InsertCell(m, h, c, bp, j);
    }
  }

  lemma InsertLinks(m: seq<nat>, h: nat, head: nat, last: nat, bp: nat, d: seq<nat>)
    requires h < LISTS_END < |m| && bp + WSIZE < |m| && head < |m| && last + WSIZE < |m| && bp in d && head in d
             && last in d
    ensures OnlyLinks(m, InsertBefore(m, h, head, last, bp), d)
  {
  }

  lemma InsertCell(m: seq<nat>, h: nat, c: seq<nat>, bp: nat, j: nat)
    requires RingOk(m, h, c) && c != [] && h < LISTS_END && Spaced([bp] + c) && bp + WSIZE < |m| && j <= |c|
    requires c[0] < |m| && c[|c| - 1] + WSIZE < |m|
    ensures var d, m' := [bp] + c, InsertBefore(m, h, c[0], c[|c| - 1], bp);
            RingCell(m', d, j)
  {
    var d, n := [bp] + c, |c|;
    assert Far(d[j], d[0], j == 0) && Far(d[j], d[1], j == 1) && Far(d[j], d[n], j == n) && Far(d[0], d[1], false)
           && Far(d[0], d[n], false) && d[j] >= LISTS_END;
    assert d[0] == bp && d[1] == c[0] && d[n] == c[n - 1];
    if j > 0 {
      RingAt(m, h, c, j - 1);
      assert d[j] == c[j - 1] && Before(d, j) == (if j == 1 then bp else Before(c, j - 1)) && After(d, j) == if j == n
             then bp else After(c, j - 1);
    }
    hide Spaced, RingOk;
  }

  ghost predicate Far(x: nat, y: nat, same: bool) {
    same || x + DSIZE <= y || y + DSIZE <= x
  }

  // ----- taking a block out of its ring -----

  function Unlink(m: seq<nat>, h: nat, bp: nat): seq<nat>
    requires h < |m| && bp + WSIZE < |m| && m[bp] + WSIZE < |m| && m[bp + WSIZE] < |m|
  {
    var pv, nx := m[bp], m[bp + WSIZE];
    var n := m[pv + WSIZE := nx][nx := pv];
    if n[h] == bp then n[h := if nx == bp then 0 else nx] else n
  }

  function Without(c: seq<nat>, j: nat): seq<nat>
    requires j < |c|
  {
    c[..j] + c[j + 1..]
  }

  lemma UnlinkRing(m: seq<nat>, h: nat, c: seq<nat>, j: nat)
    requires RingOk(m, h, c) && h < LISTS_END && Spaced(c) && j < |c|
    ensures c[j] + WSIZE < |m| && m[c[j]] == Before(c, j) && m[c[j] + WSIZE] == After(c, j)
            && Before(c, j) + WSIZE < |m| && After(c, j) < |m|
    ensures RingOk(Unlink(m, h, c[j]), h, Without(c, j)) && OnlyLinks(m, Unlink(m, h, c[j]), c)
  {
    UnlinkCells(m, h, c, j);
    var d, m' := Without(c, j), Unlink(m, h, c[j]);
    UnlinkLinks(m, h, c, j);
    hide OnlyLinks, Before, After, Without, Unlink, Spaced;
    UnlinkHead(m, h, c, j);
    forall k | 0 <= k < |d| ensures RingCell(m', d, k) {
      UnlinkCell(m, h, c, j, k);
    }
  }

  lemma UnlinkCells(m: seq<nat>, h: nat, c: seq<nat>, j: nat)
    requires RingOk(m, h, c) && j < |c|
    ensures c[j] + WSIZE < |m| && m[c[j]] == Before(c, j) && m[c[j] + WSIZE] == After(c, j)
            && Before(c, j) + WSIZE < |m| && After(c, j) < |m|
  {
    RingAt(m, h, c, j);
    RingAt(m, h, c, if j == 0 then |c| - 1 else j - 1);
    RingAt(m, h, c, if j + 1 == |c| then 0 else j + 1);
  }

  lemma UnlinkLinks(m: seq<nat>, h: nat, c: seq<nat>, j: nat)
    requires RingOk(m, h, c) && j < |c| && h < LISTS_END && c[j] + WSIZE < |m| && m[c[j]] == Before(c, j)
             && m[c[j] + WSIZE] == After(c, j) && Before(c, j) + WSIZE < |m| && After(c, j) < |m|
    ensures OnlyLinks(m, Unlink(m, h, c[j]), c)
  {
    assert Before(c, j) in c && After(c, j) in c;
    hide RingOk;
  }

  lemma UnlinkHead(m: seq<nat>, h: nat, c: seq<nat>, j: nat)
    requires RingOk(m, h, c) && h < LISTS_END && Spaced(c) && j < |c|
    requires c[j] + WSIZE < |m| && m[c[j]] == Before(c, j) && m[c[j] + WSIZE] == After(c, j)
             && Before(c, j) + WSIZE < |m| && After(c, j) < |m|
    ensures var d, m' := Without(c, j), Unlink(m, h, c[j]);
            |m'| == |m| && m'[h] == (if d == [] then 0 else d[0])
  {
    assert Before(c, j) >= LISTS_END && After(c, j) >= LISTS_END;
    if j > 0 {
      assert Far(c[0], c[j], false);
    }
    if |c| > 1 && j == 0 {
      assert Far(c[0], c[1], false);
    }
    hide Spaced;
  }

  lemma UnlinkCell(m: seq<nat>, h: nat, c: seq<nat>, j: nat, k: nat)
    requires RingOk(m, h, c) && h < LISTS_END && Spaced(c) && j < |c| && k < |c| - 1
    requires c[j] + WSIZE < |m| && m[c[j]] == Before(c, j) && m[c[j] + WSIZE] == After(c, j)
             && Before(c, j) + WSIZE < |m| && After(c, j) < |m|
    ensures var d, m' := Without(c, j), Unlink(m, h, c[j]);
            k < |d| && RingCell(m', d, k)
  {
    hide Spaced, RingOk;
    var d, n := Without(c, j), |c|;
    var o := if k < j then k else k + 1;
    var b, a := if j == 0 then n - 1 else j - 1, if j + 1 == n then 0 else j + 1;
    RingAt(m, h, c, o);
    WithoutAt(c, j, k);
    SpacedAt(c, o, b);
    SpacedAt(c, o, a);
    assert Before(c, j) == c[b] && After(c, j) == c[a];
    hide Without, Before, After;
  }

  lemma SpacedAt(c: seq<nat>, i: nat, j: nat)
    requires Spaced(c) && i < |c| && j < |c|
    ensures Far(c[i], c[j], i == j) && c[i] >= LISTS_END && c[j] >= LISTS_END
  {
  }

  lemma WithoutAt(c: seq<nat>, j: nat, k: nat)
    requires j < |c| && k < |c| - 1
    ensures var d, n := Without(c, j), |c|;
            var o := if k < j then k else k + 1;
            var b, a := if j == 0 then n - 1 else j - 1, if j + 1 == n then 0 else j + 1;
            && |d| == n - 1 && d[k] == c[o]
            && Before(d, k) == (if o == a then c[b] else Before(c, o))
            && After(d, k) == (if o == b then c[a] else After(c, o))
  {
  }

  // ----- the heap -----

  lemma FreeSpaced(B: Blocks, brk: nat, c: seq<nat>)
    requires Tiled(B, brk) && AllFree(B, c) && Distinct(c)
    ensures Spaced(c)
  {
    hide Tiled;
    forall i | 0 <= i < |c| ensures c[i] >= LISTS_END {
      LinkCell(B, brk, c[i], c[i]);
    }
    forall i, j | 0 <= i < |c| && 0 <= j < |c| && i != j ensures c[i] + DSIZE <= c[j] || c[j] + DSIZE <= c[i] {
      LinkCell(B, brk, c[i], c[j]);
    }
  }

  lemma RingFree(B: Blocks, R: Rings, U: set<nat>, i: nat)
    requires Filed(B, R, U) && i < CLASSNUM
    ensures AllFree(B, R[i]) && Distinct(R[i])
    ensures forall q | q in R[i] :: q !in U && Class(B[q].size) == i
  {
    hide Distinct, Class;
    forall q | q in R[i] ensures IsFree(B, U, q) && Class(B[q].size) == i {
      var j :| 0 <= j < |R[i]| && R[i][j] == q;
      FiledAt(B, R, U, i, j);
    }
  }

  /** The other rings keep their links. */
  lemma OtherRings(m: seq<nat>, m': seq<nat>, B: Blocks, brk: nat, R: Rings, U: set<nat>, c: seq<nat>, i: nat, k: nat)
    requires HeapOk(m, B, brk, R, U) && OnlyLinks(m, m', c) && AllFree(B, c) && i < CLASSNUM && k < CLASSNUM && k != i
    requires forall q | q in c :: Class(B[q].size) == i
    requires m'[WSIZE * k] == m[WSIZE * k]
    ensures RingOk(m', WSIZE * k, R[k])
  {
    hide Tiled, Words, RingsOk, Filed, Class, OnlyLinks, Distinct;
    RingHead(m, R, k);
    RingFree(B, R, U, k);
    LinksRing(m, m', B, brk, c, WSIZE * k, R[k]);
  }

  /** Changing one ring, and which of its blocks are unfiled, keeps the rest. */
  lemma RingChanged(m: seq<nat>, m': seq<nat>, B: Blocks, brk: nat, R: Rings, U: set<nat>, c: seq<nat>, i: nat,
          d: seq<nat>, U': set<nat>)
    requires HeapOk(m, B, brk, R, U) && OnlyLinks(m, m', c) && AllFree(B, c) && i < CLASSNUM
    requires forall q | q in c :: Class(B[q].size) == i
    requires forall k | 0 <= k < CLASSNUM && k != i :: m'[WSIZE * k] == m[WSIZE * k]
    requires RingOk(m', WSIZE * i, d) && Filed(B, R[i := d], U')
    ensures HeapOk(m', B, brk, R[i := d], U') && SameData(m, m', B)
  {
    hide Tiled, Words, Filed, Class, OnlyLinks, RingOk, AllFree, SameData;
    forall k | 0 <= k < CLASSNUM && k != i ensures RingOk(m', WSIZE * k, R[k]) {
      OtherRings(m, m', B, brk, R, U, c, i, k);
    }
    LinksWords(m, m', B, brk, c);
    LinksData(m, m', B, brk, c);
    assert |m'| == |m| by { LinksLength(m, m', c); }
  }

  lemma LinksLength(m: seq<nat>, m': seq<nat>, c: seq<nat>)
    requires OnlyLinks(m, m', c)
    ensures |m'| == |m|
  {
  }

  lemma InsertFiled(B: Blocks, R: Rings, U: set<nat>, bp: nat)
    requires Filed(B, R, U) && bp in U
    ensures bp in B && !B[bp].alloc
    ensures var i := Class(B[bp].size); bp !in R[i] && Filed(B, R[i := [bp] + R[i]], U - {bp})
  {
    hide Class;
    var i := Class(B[bp].size);
    var d := [bp] + R[i];
    assert bp in d && forall q | q in R[i] :: q in d;
    assert Distinct(d) by {
      assert Distinct(R[i]);
      forall x, y | 0 <= x < y < |d| ensures d[x] != d[y] {
        assert d[y] == R[i][y - 1] && (x > 0 ==> d[x] == R[i][x - 1]);
        assert d[y] in R[i];
      }
    }
    hide Distinct;
    var R' := R[i := d];
    forall k, p | 0 <= k < CLASSNUM && p in R'[k] ensures IsFree(B, U - {bp}, p) && Class(B[p].size) == k {
      if p != bp {
        RingFree(B, R, U, k);
        assert p in R[k];
      }
    }
    forall p | p in B && IsFree(B, U - {bp}, p) ensures p in R'[Class(B[p].size)] {
      if p != bp {
        assert IsFree(B, U, p);
      }
    }
  }

  function Push(c: seq<nat>, bp: nat): seq<nat> {
    [bp] + c
  }

  ghost predicate CanInsert(m: seq<nat>, h: nat, c: seq<nat>, bp: nat) {
    && h < LISTS_END <= |m| && bp + WSIZE < |m| && m[h] == (if c == [] then 0 else c[0])
    && (c != [] ==>
         0 < c[0] < |m| && c[0] != bp && c[0] != bp + WSIZE && c[|c| - 1] + WSIZE < |m| && m[c[0]] == c[|c| - 1])
  }

  ghost function Inserted(m: seq<nat>, h: nat, c: seq<nat>, bp: nat): seq<nat>
    requires CanInsert(m, h, c, bp)
  {
    if c == [] then InsertFirst(m, h, bp) else InsertBefore(m, h, c[0], c[|c| - 1], bp)
  }

  lemma InsertReady(m: seq<nat>, B: Blocks, brk: nat, R: Rings, U: set<nat>, bp: nat, i: nat)
    requires HeapOk(m, B, brk, R, U) && bp in U && bp in B && i == Class(B[bp].size)
    ensures |R| == CLASSNUM && CanInsert(m, WSIZE * i, R[i], bp) && Spaced(Push(R[i], bp)) && RingOk(m, WSIZE * i, R[i])
    ensures AllFree(B, Push(R[i], bp)) && forall q | q in Push(R[i], bp) :: Class(B[q].size) == i
    ensures Filed(B, R[i := Push(R[i], bp)], U - {bp})
  {
    hide Tiled, Words, RingsOk, Class, RingOk, Distinct, Filed;
    InsertFiled(B, R, U, bp);
    RingFree(B, R, U, i);
    RingHead(m, R, i);
    RingHeadCell(m, WSIZE * i, R[i]);
    FreeInHeap(B, brk, bp);
    RingFree(B, R[i := Push(R[i], bp)], U - {bp}, i);
    FreeSpaced(B, brk, Push(R[i], bp));
    if R[i] != [] {
      assert R[i][0] in R[i];
      SpacedAt(Push(R[i], bp), 0, 1);
    }
  }

  /** insert_node files a free block at the front of the ring of its class. */
  lemma InsertOk(m: seq<nat>, B: Blocks, brk: nat, R: Rings, U: set<nat>, bp: nat, i: nat)
    requires HeapOk(m, B, brk, R, U) && bp in U && bp in B && i == Class(B[bp].size)
    ensures |R| == CLASSNUM && CanInsert(m, WSIZE * i, R[i], bp)
    ensures HeapOk(Inserted(m, WSIZE * i, R[i], bp), B, brk, R[i := Push(R[i], bp)], U - {bp})
    ensures SameData(m, Inserted(m, WSIZE * i, R[i], bp), B)
  {
    hide HeapOk, OnlyLinks, RingOk, SameData, Filed, AllFree, Spaced;
    InsertReady(m, B, brk, R, U, bp, i);
    var c, d, m' := R[i], Push(R[i], bp), Inserted(m, WSIZE * i, R[i], bp);
    if c == [] {
      SpacedAt(d, 0, 0);
      InsertRingFirst(m, WSIZE * i, bp);
      assert d == [bp];
    } else {
      InsertRing(m, WSIZE * i, c, bp);
    }
    InsertHeads(m, WSIZE * i, c, bp, d);
    RingChanged(m, m', B, brk, R, U, d, i, d, U - {bp});
  }

  lemma RingHeadCell(m: seq<nat>, h: nat, c: seq<nat>)
    requires RingOk(m, h, c)
    ensures m[h] == (if c == [] then 0 else c[0])
    ensures c != [] ==> 0 < c[0] < |m| && c[|c| - 1] + WSIZE < |m| && m[c[0]] == c[|c| - 1]
  {
    if c != [] {
      RingAt(m, h, c, 0);
      RingAt(m, h, c, |c| - 1);
    }
  }

  lemma FreeInHeap(B: Blocks, brk: nat, q: nat)
    requires Tiled(B, brk) && q in B && !B[q].alloc
    ensures q + B[q].size <= brk && B[q].size >= 2 * DSIZE && PROLOGUE < q < brk
  {
    hide Tiled;
    BlockIs(B, brk, q);
    First(B, brk);
    Apart(B, brk, q, brk);
  }

  /** Only the head of ring h changes. */
  lemma InsertHeads(m: seq<nat>, h: nat, c: seq<nat>, bp: nat, d: seq<nat>)
    requires Spaced(d) && d == Push(c, bp) && CanInsert(m, h, c, bp)
    ensures forall k | 0 <= k < CLASSNUM && WSIZE * k != h :: Inserted(m, h, c, bp)[WSIZE * k] == m[WSIZE * k]
  {
    SpacedAt(d, 0, 0);
    if c != [] {
      SpacedAt(d, 1, |c|);
      assert d[1] == c[0] && d[|c|] == c[|c| - 1];
    }
    hide Spaced;
  }

  lemma RemoveFiled(B: Blocks, R: Rings, U: set<nat>, i: nat, j: nat)
    requires Filed(B, R, U) && i < CLASSNUM && j < |R[i]|
    ensures Filed(B, R[i := Without(R[i], j)], U + {R[i][j]})
  {
    var c, d := R[i], Without(R[i], j);
    RingFree(B, R, U, i);
    assert Distinct(d) && (forall q | q in d :: q in c && q != c[j]) && forall q | q in c && q != c[j] :: q in d by {
      WithoutDistinct(c, j);
    }
    hide Class, Distinct, Without;
    var R', U' := R[i := d], U + {c[j]};
    forall k, p | 0 <= k < CLASSNUM && p in R'[k] ensures IsFree(B, U', p) && Class(B[p].size) == k {
      RingFree(B, R, U, k);
      assert p in R[k];
    }
    forall p | p in B && IsFree(B, U', p) ensures p in R'[Class(B[p].size)] {
      assert IsFree(B, U, p);
    }
    assert c[j] in c;
  }

  lemma WithoutDistinct(c: seq<nat>, j: nat)
    requires Distinct(c) && j < |c|
    ensures Distinct(Without(c, j))
    ensures forall q :: q in Without(c, j) <==> q in c && q != c[j]
  {
    var d := Without(c, j);
    forall q ensures q in d <==> q in c && q != c[j] {
      if q in d {
        var k :| 0 <= k < |d| && d[k] == q;
        assert c[if k < j then k else k + 1] == q;
      }
      if q in c && q != c[j] {
        var k :| 0 <= k < |c| && c[k] == q;
        assert d[if k < j then k else k - 1] == q;
      }
    }
  }

  ghost predicate CanUnlink(m: seq<nat>, h: nat, bp: nat) {
    h < LISTS_END <= |m| && bp + WSIZE < |m| && m[bp] + WSIZE < |m| && m[bp + WSIZE] < |m|
  }

  /** Where a filed free block is. */
  lemma FindFiled(m: seq<nat>, B: Blocks, brk: nat, R: Rings, U: set<nat>, bp: nat) returns (j: nat)
    requires HeapOk(m, B, brk, R, U) && IsFree(B, U, bp)
    ensures var i := Class(B[bp].size);
            |R| == CLASSNUM && j < |R[i]| && R[i][j] == bp && CanUnlink(m, WSIZE * i, bp) && Spaced(R[i])
            && RingOk(m, WSIZE * i, R[i])
  {
    hide Tiled, Words, RingsOk, Class, RingOk, Distinct;
    var i := Class(B[bp].size);
    assert bp in R[i];
    j :| 0 <= j < |R[i]| && R[i][j] == bp;
    hide Filed;
    RingFree(B, R, U, i);
    FreeSpaced(B, brk, R[i]);
    RingHead(m, R, i);
    UnlinkCells(m, WSIZE * i, R[i], j);
    FreeInHeap(B, brk, bp);
  }

  /** remove_node takes a free block out of its ring. */
  lemma RemoveOk(m: seq<nat>, B: Blocks, brk: nat, R: Rings, U: set<nat>, bp: nat, i: nat, j: nat)
    requires HeapOk(m, B, brk, R, U) && IsFree(B, U, bp) && i == Class(B[bp].size) && |R| == CLASSNUM && j < |R[i]|
             && R[i][j] == bp
    requires CanUnlink(m, WSIZE * i, bp) && Spaced(R[i]) && RingOk(m, WSIZE * i, R[i])
    ensures HeapOk(Unlink(m, WSIZE * i, bp), B, brk, R[i := Without(R[i], j)], U + {bp})
    ensures SameData(m, Unlink(m, WSIZE * i, bp), B)
  {
    hide OnlyLinks, RingOk, SameData, Filed, AllFree, Spaced, Tiled, Words, RingsOk, Class, Without, Distinct;
    RingFree(B, R, U, i);
    UnlinkRing(m, WSIZE * i, R[i], j);
    RemoveFiled(B, R, U, i, j);
    UnlinkOtherHeads(m, WSIZE * i, R[i], j);
    RingChanged(m, Unlink(m, WSIZE * i, bp), B, brk, R, U, R[i], i, Without(R[i], j), U + {bp});
  }

  lemma UnlinkOtherHeads(m: seq<nat>, h: nat, c: seq<nat>, j: nat)
    requires RingOk(m, h, c) && Spaced(c) && j < |c| && CanUnlink(m, h, c[j])
    ensures forall k | 0 <= k < CLASSNUM && WSIZE * k != h :: Unlink(m, h, c[j])[WSIZE * k] == m[WSIZE * k]
  {
    UnlinkCells(m, h, c, j);
    SpacedAt(c, if j == 0 then |c| - 1 else j - 1, if j + 1 == |c| then 0 else j + 1);
    hide Spaced, RingOk;
  }
}
