/** The segregated-fit allocator: one array of words, block pointers as byte
    addresses, and the operations as they update headers, footers and rings. */
module MmHeap {
  import opened MmBlocks
  import opened MmWords
  import opened MmRings
  import opened MmLive
  import opened MmSteps
  import opened MmFit
  import opened MmMoves
  import opened Buffers

  const NULL: nat := 0

  class Heap {
    /** Cell p holds the word at byte address p, for p a multiple of 4. */
    const mem: Buffer<nat>
    var brk: nat
    /** Where the blocks end, at the epilogue: brk, except while the heap is growing. */
    ghost var top: nat
    ghost var B: Blocks
    ghost var R: Rings
    /** Free blocks that are in no ring at the moment. */
    ghost var U: set<nat>

    ghost predicate Valid()
      reads this, mem, mem.cells
    {
      mem.Valid() && HeapOk(mem.view, B, top, R, U) == true && top <= brk <= |mem.view|
    }

    /** Between operations every free block is in its ring and no two are adjacent. */
    ghost predicate Ready()
      reads this, mem, mem.cells
    {
      Valid() && top == brk && U == {} && Coalesced(B, 0) == true
    }

    /** mem_init: the memory for a heap of at most max bytes, still empty. */
    constructor (max: nat)
      ensures mem.Valid() && fresh(mem) && fresh(mem.cells) && |mem.view| == max && brk == 0
    {
      mem := new Buffer(max, 0);
      brk, top, B, R, U := 0, 0, map[], [], {};
    }

    // ----- headers -----

    method Header(bp: nat) returns (w: nat)
      requires Valid() && bp in B
      ensures GetSize(w) == B[bp].size && GetAlloc(w) == B[bp].alloc && GetPrevAlloc(w) == PrevAlloc(B, bp)
    {
      hide HeapOk, GetSize, GetAlloc, GetPrevAlloc, PrevAlloc;
      HeaderWord(mem.view, B, top, R, U, bp);
      w := mem.Get(bp - WSIZE);
    }

    /** The block before bp, from the footer that free blocks have. */
    method PrevBlock(bp: nat) returns (p: nat)
      requires Valid() && bp in B && bp != PROLOGUE && !PrevAlloc(B, bp)
      ensures p == B[bp].prev && p in B && !B[p].alloc && p + B[p].size == bp
    {
      hide HeapOk, GetSize, PrevAlloc;
      FooterWord(mem.view, B, top, R, U, bp);
      var w := mem.Get(bp - DSIZE);
      p := bp - GetSize(w);
    }

    // ----- size classes -----

    method FindIndex(asize: nat) returns (i: nat)
      ensures i == Class(asize)
    {
      if asize <= 2 * DSIZE {
        return 0;
      }
      var index: nat := (asize - WSIZE - 1) / 16;
      var count: nat := 0;
      while index != 0 && count < CLASSNUM - 1
        invariant count <= CLASSNUM - 1 && count + Bits(index, CLASSNUM - 1 - count) == Class(asize)
        decreases CLASSNUM - count
      {
        index := index / 2;
        count := count + 1;
      }
      i := count;
    }

    // ----- rings -----

    method InsertNode(bp: nat)
      requires Valid() && bp in U
      modifies this`R, this`U, mem, mem.cells
      ensures Valid() && U == old(U) - {bp} && Keeps(old(mem.view), mem.view, Live(B)) == true
    {
      hide HeapOk, Keeps, Live, Class;
      ghost var m := mem.view;
      UnfiledFree(m, B, top, R, U, bp);
      var w := Header(bp);
      var index := FindIndex(GetSize(w));
      InsertOk(m, B, top, R, U, bp, index);
      ghost var c := R[index];
      ghost var m' := Inserted(m, WSIZE * index, c, bp);
      KeepsData(m, m', B);
      R, U := R[index := Push(c, bp)], U - {bp};
      var h := WSIZE * index;
      var head := mem.Get(h);
      if head == NULL {
        mem.Put(h, bp);
        mem.Put(bp, bp);
        mem.Put(bp + WSIZE, bp);
        return;
      }
      mem.Put(bp + WSIZE, head);
      var last := mem.Get(head);
      mem.Put(bp, last);
      last := mem.Get(head);
      mem.Put(last + WSIZE, bp);
      mem.Put(head, bp);
      mem.Put(h, bp);
    }

    method RemoveNode(bp: nat)
      requires Valid() && IsFree(B, U, bp)
      modifies this`R, this`U, mem, mem.cells
      ensures Valid() && U == old(U) + {bp} && Keeps(old(mem.view), mem.view, Live(B)) == true
    {
      hide HeapOk, Keeps, Live, Class, RingOk, Spaced;
      ghost var m := mem.view;
      var w := Header(bp);
      var index := FindIndex(GetSize(w));
      ghost var j := FindFiled(m, B, top, R, U, bp);
      var h := WSIZE * index;
      RemoveOk(m, B, top, R, U, bp, index, j);
      KeepsData(m, Unlink(m, h, bp), B);
      R, U := R[index := Without(R[index], j)], U + {bp};
      var curPrev := mem.Get(bp);
      var curNext := mem.Get(bp + WSIZE);
      mem.Put(curPrev + WSIZE, curNext);
      mem.Put(curNext, curPrev);
      var head := mem.Get(h);
      if head == bp {
        mem.Put(h, if curNext == bp then NULL else curNext);
      }
    }

    // ----- placing a block -----

    /** The words now show the blocks from p to e laid out anew; y may still need coalescing. */
    ghost method Relay(m: seq<nat>, p: nat, e: nat, a: nat, f: bool, y: nat)
      requires mem.Valid() && HeapOk(m, B, top, R, U) == true && Layout(m, mem.view, B, top, U, p, e, a, f, y)
               && top <= brk <= |mem.view|
      modifies this`B, this`U
      ensures Valid() && B == Replace(old(B), p, e, a, f, false) && U == NewlyFree(old(U), p, e, a, f, false)
              && Coalesced(B, y) == true
      ensures Keeps(m, mem.view, Elsewhere(Live(old(B)), p, e)) == true
      ensures Live(B) == if f then Elsewhere(Live(old(B)), p, e)[p := a - WSIZE] else Elsewhere(Live(old(B)), p, e)
    {
      hide Keeps, Live, Elsewhere, NewlyFree, Replace, Tiled, Words, RingsOk, Filed, Cleared, Outside, Marked,
           Coalesced;
      RelaidOk(m, mem.view, B, top, R, U, p, e, a, f, false);
      ReplaceLive(B, top, p, e, a, f);
      RelaidKeeps(m, mem.view, B, top, p, e);
      B, U := Replace(B, p, e, a, f, false), NewlyFree(U, p, e, a, f, false);
    }

    /** Allocate asize bytes in the free block bp, splitting it if 16 bytes remain. */
    method Place(bp: nat, asize: nat)
      requires Ready() && bp in B && !B[bp].alloc && 2 * DSIZE <= asize <= B[bp].size && asize % DSIZE == 0
      modifies this`B, this`R, this`U, mem, mem.cells
      ensures Ready()
      ensures Live(B) == old(Live(B))[bp := if old(B[bp].size) - asize >= 2 * DSIZE then asize - WSIZE
                else old(B[bp].size) - WSIZE]
      ensures bp !in old(Live(B)) && Keeps(old(mem.view), mem.view, old(Live(B))) == true
    {
      hide HeapOk, Keeps, Live, Class, Coalesced, GetSize, GetAlloc, GetPrevAlloc;
      var w := Header(bp);
      var csize := GetSize(w);
      RemoveNode(bp);
      ghost var m := mem.view;
      if csize - asize >= 2 * DSIZE {
        PlaceSplit(bp, asize, csize);
        KeepsOn(old(mem.view), m, mem.view, old(Live(B)), old(Live(B)));
        m := mem.view;
        ghost var L := Live(B);
        InsertNode(bp + asize);
        KeepsOn(old(mem.view), m, mem.view, old(Live(B)), L);
      } else {
        PlaceWhole(bp, csize);
        KeepsOn(old(mem.view), m, mem.view, old(Live(B)), old(Live(B)));
      }
    }

    method PlaceSplit(bp: nat, asize: nat, csize: nat)
      requires Valid() && U == {bp} && bp in B && Coalesced(B, 0) == true && 2 * DSIZE <= asize
               && asize + 2 * DSIZE <= csize == B[bp].size && asize % DSIZE == 0
      modifies this`B, this`U, mem, mem.cells
      ensures Valid() && U == {bp + asize} && Coalesced(B, 0) == true
      ensures Live(B) == old(Live(B))[bp := asize - WSIZE] && bp !in old(Live(B))
              && Keeps(old(mem.view), mem.view, old(Live(B))) == true
    {
      hide HeapOk, Keeps, Live, Coalesced, GetSize, GetAlloc, GetPrevAlloc, Pack, Cleared, Relaid;
      ghost var m := mem.view;
      SplitFree(m, B, top, R, U, bp, asize);
      var w := Header(bp);
      mem.Put(bp - WSIZE, Pack(asize, GetPrevAlloc(w), true));
      mem.Put(bp + asize - WSIZE, Pack(csize - asize, true, false));
      mem.Put(bp + csize - DSIZE, Pack(csize - asize, true, false));
      Relay(m, bp, bp + csize, asize, true, 0);
    }

    method PlaceWhole(bp: nat, csize: nat)
      requires Valid() && U == {bp} && bp in B && Coalesced(B, 0) == true && csize == B[bp].size
      modifies this`B, this`U, mem, mem.cells
      ensures Valid() && U == {} && Coalesced(B, 0) == true
      ensures Live(B) == old(Live(B))[bp := csize - WSIZE] && bp !in old(Live(B))
              && Keeps(old(mem.view), mem.view, old(Live(B))) == true
    {
      hide HeapOk, Keeps, Live, Coalesced, GetSize, GetAlloc, GetPrevAlloc, Pack, Cleared, Relaid;
      ghost var m := mem.view;
      TakeFree(m, B, top, R, U, bp);
      var w := Header(bp);
      var n := Header(bp + csize);
      mem.Put(bp - WSIZE, Pack(csize, GetPrevAlloc(w), true));
      mem.Put(bp + csize - WSIZE, Pack(GetSize(n), true, GetAlloc(n)));
      Relay(m, bp, bp + csize, csize, true, 0);
    }

    // ----- coalescing -----

    /** Merge the free block bp, in no ring yet, with its free neighbours. */
    method Coalesce(bp: nat) returns (p: nat)
      requires Valid() && top == brk && U == {bp} && Coalesced(B, bp) == true && bp in B
      modifies this`B, this`R, this`U, mem, mem.cells
      ensures Ready() && p in B && !B[p].alloc && B[p].size >= old(B[bp].size)
      ensures Live(B) == old(Live(B)) && Keeps(old(mem.view), mem.view, old(Live(B))) == true
    {
      hide HeapOk, Keeps, Live, Class, Coalesced, GetSize, GetAlloc, GetPrevAlloc, PrevAlloc, Pack, IsFree;
      ghost var m, L := mem.view, Live(B);
      Sides(m, B, top, R, U, bp);
      KeepsAll(m, L);
      var w := Header(bp);
      var size := GetSize(w);
      var n := Header(bp + size);
      if GetPrevAlloc(w) && GetAlloc(n) {
        NothingToMerge(m, B, top, R, U, bp);
        p := bp;
      } else if GetPrevAlloc(w) && !GetAlloc(n) {
        MergeNext(bp, size, GetSize(n));
        p := bp;
      } else if !GetPrevAlloc(w) && GetAlloc(n) {
        p := MergePrev(bp, size);
      } else {
        p := MergeBoth(bp, size, GetSize(n));
      }
      ghost var m1, L1 := mem.view, Live(B);
      UnfiledFree(m1, B, top, R, U, p);
      InsertNode(p);
      KeepsOn(m, m1, mem.view, L, L1);
    }

    method MergeNext(bp: nat, size: nat, nextSize: nat)
      requires Valid() && U == {bp} && Coalesced(B, bp) == true && bp in B && size == B[bp].size && PrevAlloc(B, bp)
      requires bp + size in B && !B[bp + size].alloc && nextSize == B[bp + size].size
      modifies this`B, this`R, this`U, mem, mem.cells
      ensures Valid() && U == {bp} && Coalesced(B, 0) == true && bp in B && !B[bp].alloc && B[bp].size >= size
      ensures Live(B) == old(Live(B)) && Keeps(old(mem.view), mem.view, old(Live(B))) == true
    {
      hide HeapOk, Keeps, Live, Class, Coalesced, GetSize, GetAlloc, GetPrevAlloc, PrevAlloc, Pack, Elsewhere, Relaid,
           Cleared, NewlyFree;
      ghost var m, L := mem.view, Live(B);
      Sides(m, B, top, R, U, bp);
      RemoveNode(bp + size);
      ghost var m1 := mem.view;
      MergeLayout(m1, B, top, R, U, bp, bp + size, bp + size + nextSize, bp);
      mem.Put(bp - WSIZE, Pack(size + nextSize, true, false));
      mem.Put(bp + size + nextSize - DSIZE, Pack(size + nextSize, true, false));
      Relay(m1, bp, bp + size + nextSize, size + nextSize, false, 0);
      KeepsOn(m, m1, mem.view, L, L);
    }

    method MergePrev(bp: nat, size: nat) returns (p: nat)
      requires Valid() && U == {bp} && Coalesced(B, bp) == true && bp in B && size == B[bp].size && !PrevAlloc(B, bp)
               && bp != PROLOGUE
      requires bp + size in B && B[bp + size].alloc
      modifies this`B, this`R, this`U, mem, mem.cells
      ensures Valid() && U == {p} && Coalesced(B, 0) == true && p in B && !B[p].alloc && B[p].size >= size
      ensures Live(B) == old(Live(B)) && Keeps(old(mem.view), mem.view, old(Live(B))) == true
    {
      hide HeapOk, Keeps, Live, Class, Coalesced, GetSize, GetAlloc, GetPrevAlloc, PrevAlloc, Pack, Elsewhere, Relaid,
           Cleared, NewlyFree;
      ghost var m, L := mem.view, Live(B);
      Sides(m, B, top, R, U, bp);
      p := PrevBlock(bp);
      RemoveNode(p);
      ghost var m1 := mem.view;
      MergeLayout(m1, B, top, R, U, p, bp, bp + size, bp);
      var w := Header(p);
      var all := size + GetSize(w);
      mem.Put(bp + size - DSIZE, Pack(all, GetPrevAlloc(w), false));
      mem.Put(p - WSIZE, Pack(all, GetPrevAlloc(w), false));
      ghost var m2: seq<nat> := m1[p - WSIZE := Pack(all, true, false)];
      m2 := m2[bp + size - DSIZE := Pack(all, true, false)];
      assert mem.view == m2;
      Relay(m1, p, bp + size, all, false, 0);
      KeepsOn(m, m1, mem.view, L, L);
    }

    method MergeBoth(bp: nat, size: nat, nextSize: nat) returns (p: nat)
      requires Valid() && U == {bp} && Coalesced(B, bp) == true && bp in B && size == B[bp].size && !PrevAlloc(B, bp)
               && bp != PROLOGUE
      requires bp + size in B && !B[bp + size].alloc && nextSize == B[bp + size].size
      modifies this`B, this`R, this`U, mem, mem.cells
      ensures Valid() && U == {p} && Coalesced(B, 0) == true && p in B && !B[p].alloc && B[p].size >= size
      ensures Live(B) == old(Live(B)) && Keeps(old(mem.view), mem.view, old(Live(B))) == true
    {
      hide HeapOk, Keeps, Live, Class, Coalesced, GetSize, GetAlloc, GetPrevAlloc, PrevAlloc, Pack, Elsewhere, Relaid,
           Cleared, NewlyFree;
      ghost var m, L := mem.view, Live(B);
      Sides(m, B, top, R, U, bp);
      p := PrevBlock(bp);
      RemoveNode(p);
      ghost var m1 := mem.view;
      RemoveNode(bp + size);
      ghost var m2 := mem.view;
      KeepsOn(m, m1, m2, L, L);
      MergeAll(m2, B, top, R, U, p, bp, bp + size, bp + size + nextSize);
      var w := Header(p);
      var all := size + (GetSize(w) + nextSize);
      mem.Put(p - WSIZE, Pack(all, GetPrevAlloc(w), false));
      mem.Put(bp + size + nextSize - DSIZE, Pack(all, GetPrevAlloc(w), false));
      Relay(m2, p, bp + size + nextSize, all, false, 0);
      KeepsOn(m, m2, mem.view, L, L);
    }

    // ----- growing the heap -----

    /** The heap's end moves up by incr bytes if the memory suffices. */
    method Sbrk(incr: nat) returns (ok: bool)
      requires mem.Valid()
      modifies this`brk
      ensures ok <==> old(brk) + incr <= |mem.view|
      ensures brk == if ok then old(brk) + incr else old(brk)
    {
      ok := brk + incr <= mem.cells.Length;
      if ok {
        brk := brk + incr;
      }
    }

    /** The words now show the blocks from p on as one block and a new epilogue. */
    ghost method RelayEnd(m: seq<nat>, p: nat, a: nat, f: bool, y: nat)
      requires mem.Valid() && HeapOk(m, B, top, R, U) == true && EndLayout(m, mem.view, B, top, U, p, a, f, y)
               && brk == p + a
      modifies this`B, this`U, this`top
      ensures Valid() && top == brk && B == ReplaceEnd(old(B), p, a, f) && U == NewlyFree(old(U), p, p + a, a, f, true)
              && Coalesced(B, y) == true
      ensures Keeps(m, mem.view, Elsewhere(Live(old(B)), p, p + a)) == true
      ensures Live(B) == if f then Elsewhere(Live(old(B)), p, p + a)[p := a - WSIZE]
              else Elsewhere(Live(old(B)), p, p + a)
    {
      hide Keeps, Live, Elsewhere, NewlyFree, ReplaceEnd, Tiled, Words, RingsOk, Filed, Cleared, Marked, Coalesced;
      GrownOk(m, mem.view, B, top, R, U, p, a, f);
      ReplaceEndLive(B, top, p, a, f);
      GrownKeeps(m, mem.view, B, top, p, a, f);
      B, U, top := ReplaceEnd(B, p, a, f), NewlyFree(U, p, p + a, a, f, true), p + a;
    }

    /** A free block of at least the given number of words at the end of the heap. */
    method ExtendHeap(words: nat) returns (bp: nat)
      requires Ready() && words >= 3
      modifies this`brk, this`top, this`B, this`R, this`U, mem, mem.cells
      ensures Ready()
      ensures bp == NULL <==> old(brk) + (words + words % 2) * WSIZE > |old(mem.view)|
      ensures bp == NULL ==> B == old(B) && brk == old(brk) && mem.view == old(mem.view)
      ensures bp != NULL ==> brk == old(brk) + (words + words % 2) * WSIZE
      ensures bp != NULL ==> bp in B && !B[bp].alloc && B[bp].size >= words * WSIZE
      ensures Live(B) == old(Live(B)) && Keeps(old(mem.view), mem.view, old(Live(B))) == true
    {
      hide HeapOk, Keeps, Live, Coalesced, GetSize, GetAlloc, GetPrevAlloc, PrevAlloc, Pack, Elsewhere, Cleared,
           NewlyFree, Grown, ReplaceEnd;
      ghost var m, L, end := mem.view, Live(B), top;
      KeepsAll(m, L);
      var size := if words % 2 != 0 then (words + 1) * WSIZE else words * WSIZE;
      bp := brk;
      NewEnd(m, B, top, R, U);
      var w := Header(bp);
      var ok := Sbrk(size);
      if !ok {
        return NULL;
      }
      NewEndLayout(m, B, end, R, U, size);
      mem.Put(bp - WSIZE, Pack(size, GetPrevAlloc(w), false));
      mem.Put(bp + size - DSIZE, Pack(size, GetPrevAlloc(w), false));
      mem.Put(bp + size - WSIZE, Pack(0, false, true));
      RelayEnd(m, bp, size, false, bp);
      ghost var m1 := mem.view;
      NewEndBlock(B, end, size, old(B));
      var p := Coalesce(bp);
      KeepsOn(m, m1, mem.view, L, L);
      UnfiledNotNull(mem.view, B, top, R, U, p);
      bp := p;
    }

    // ----- searching -----

    /** The smallest fitting block of one ring, if any. */
    method ScanRing(index: nat, asize: nat) returns (ptr: nat)
      requires Valid() && index < CLASSNUM && |R| == CLASSNUM && R[index] != [] && U == {}
      ensures ptr == NULL ==> forall q | q in R[index] :: q in B && B[q].size < asize
      ensures ptr != NULL ==> ptr in R[index] && BestIn(B, R[index], ptr, asize) == true
    {
      hide HeapOk, BestIn, RingOk, GetSize, GetAlloc, GetPrevAlloc;
      ghost var c := R[index];
      RingLayout(mem.view, B, top, R, U, index);
      var head := mem.Get(WSIZE * index);
      var bp := head;
      var minSize: nat := 0;
      ptr := NULL;
      ghost var j: nat := 0;
      var more := true;
      while more
        invariant if more then j < |c| && bp == c[j] else j == |c|
        invariant ScanDone(B, c, j, asize, ptr) == true && (ptr != NULL ==> ptr in B && minSize == B[ptr].size)
        decreases |c| - j, more
      {
        RingNext(mem.view, B, top, R, U, index, j);
        ScanStep(B, c, j, asize, ptr);
        var w := Header(bp);
        if asize <= GetSize(w) && ptr == NULL {
          ptr := bp;
          minSize := GetSize(w);
        } else if asize <= GetSize(w) && ptr != NULL {
          if GetSize(w) < minSize {
            ptr := bp;
            minSize := GetSize(w);
          }
        }
        bp := mem.Get(bp + WSIZE);
        more := bp != head;
        j := j + 1;
      }
      ScanEnd(B, c, asize, ptr);
    }

    /** Best fit over the whole heap: classes are in order of size, so the first
        one with a fitting block has the smallest. */
    method FindFit(asize: nat) returns (ptr: nat)
      requires Ready()
      ensures ptr == NULL <==> NoFit(B, asize)
      ensures ptr != NULL ==> BestFit(B, ptr, asize)
    {
      hide HeapOk, NoFit, BestFit, BestIn, RingOk, Coalesced;
      var index := FindIndex(asize);
      ptr := NULL;
      Rings12(mem.view, B, top, R, U);
      SearchStart(B, R, asize);
      while index < CLASSNUM && ptr == NULL
        invariant index <= CLASSNUM && |R| == CLASSNUM
        invariant ptr == NULL ==> Searched(B, R, index, asize) == true
        invariant ptr != NULL ==> BestFit(B, ptr, asize) == true
        decreases CLASSNUM - index, ptr == NULL
      {
        RingLayout(mem.view, B, top, R, U, index);
        var head := mem.Get(WSIZE * index);
        if head == NULL {
          SearchStep(mem.view, B, top, R, U, index, asize);
          index := index + 1;
        } else {
          ptr := ScanRing(index, asize);
          if ptr == NULL {
            SearchStep(mem.view, B, top, R, U, index, asize);
          } else {
            SearchHit(mem.view, B, top, R, U, index, asize, ptr);
          }
          index := index + 1;
        }
      }
      if ptr == NULL {
        SearchEnd(mem.view, B, top, R, U, asize);
      }
      FitNotBoth(mem.view, B, top, R, U, asize, ptr);
    }

    // ----- the interface -----

    /** round_payload: the least payload class that holds size. */
    method Round(size: nat) returns (r: nat)
      ensures r == RoundPayload(size) && LeastClass(size, r) == true
    {
      RoundPayloadIs(size);
      if size <= 16 {
        return size;
      }
      var rounded: nat := 16;
      while rounded < size && rounded < 512
        invariant 16 <= rounded <= 512 && 512 % rounded == 0
                  && (size <= 512 ==> RoundFrom(rounded, size) == RoundPayload(size))
        invariant rounded == 16 || rounded == 32 || rounded == 64 || rounded == 128 || rounded == 256 || rounded == 512
        decreases 512 - rounded
      {
        rounded := 2 * rounded;
      }
      if rounded >= size && rounded <= 512 {
        return rounded;
      }
      r := size;
    }

    /** Block size for a rounded request. */
    method AdjustSize(size: nat) returns (asize: nat)
      ensures asize == Adjusted(size) && asize % DSIZE == 0 && 2 * DSIZE <= asize && size + WSIZE <= asize
      ensures asize > 2 * DSIZE ==> asize < size + WSIZE + DSIZE
    {
      asize := if size <= DSIZE then 2 * DSIZE else DSIZE * ((size + WSIZE + (DSIZE - 1)) / DSIZE);
      AdjustedIs(size, asize);
    }

    /** mm_init: list heads, padding, prologue and epilogue, and a first free block. */
    method Init() returns (r: int)
      requires mem.Valid() && brk == 0
      modifies this`brk, this`top, this`B, this`R, this`U, mem, mem.cells
      ensures r == 0 <==> LISTS_END + 4 * WSIZE + CHUNKSIZE <= |old(mem.view)|
      ensures r == 0 ==> Ready() && Live(B) == map[]
    {
      hide HeapOk, Live, Coalesced, Pack;
      var ok := Sbrk(CLASSNUM * WSIZE);
      if !ok {
        return -1;
      }
      var i: nat := 0;
      while i < CLASSNUM
        invariant i <= CLASSNUM && mem.Valid() && |mem.view| == |old(mem.view)| && brk == LISTS_END <= |mem.view|
        invariant forall j | 0 <= j < i :: mem.view[WSIZE * j] == NULL
      {
        mem.Put(WSIZE * i, NULL);
        i := i + 1;
      }
      ok := Sbrk(4 * WSIZE);
      if !ok {
        return -1;
      }
      EmptyBlocks();
      var bp := ExtendHeap(CHUNKSIZE / WSIZE);
      r := if bp == NULL then -1 else 0;
    }

    method EmptyBlocks()
      requires mem.Valid() && brk == PROLOGUE + DSIZE <= |mem.view|
               && forall j | 0 <= j < CLASSNUM :: mem.view[WSIZE * j] == NULL
      modifies this`top, this`B, this`R, this`U, mem, mem.cells
      ensures Ready() && Live(B) == map[] && |mem.view| == |old(mem.view)|
    {
      hide HeapOk, Live, Coalesced, Pack;
      mem.Put(LISTS_END, 0);
      mem.Put(LISTS_END + WSIZE, Pack(DSIZE, false, true));
      mem.Put(LISTS_END + 2 * WSIZE, Pack(DSIZE, false, true));
      mem.Put(LISTS_END + 3 * WSIZE, Pack(0, true, true));
      B, R, U := map[PROLOGUE := Blk(DSIZE, true, 0), PROLOGUE + DSIZE := Blk(0, true, PROLOGUE)],
          seq(CLASSNUM, _ => []), {};
      top := brk;
      EmptyHeap(mem.view, B, R);
    }

    /** The end of mm_malloc: extend the heap and place the block there. */
    method PlaceAtEnd(asize: nat) returns (bp: nat)
      requires Ready() && 2 * DSIZE <= asize && asize % DSIZE == 0
      modifies this`brk, this`top, this`B, this`R, this`U, mem, mem.cells
      ensures Ready()
      ensures bp == NULL <==> old(brk) + (if asize > CHUNKSIZE then asize else CHUNKSIZE) > |old(mem.view)|
      ensures bp == NULL ==> B == old(B) && brk == old(brk) && mem.view == old(mem.view)
      ensures bp != NULL ==>
                bp !in old(Live(B)) && bp in Live(B) && Live(B)[bp] >= asize - WSIZE
                && Live(B) == old(Live(B))[bp := Live(B)[bp]]
      ensures bp != NULL ==> Live(B)[bp] + WSIZE < asize + 2 * DSIZE
      ensures bp != NULL ==> brk == old(brk) + if asize > CHUNKSIZE then asize else CHUNKSIZE
      ensures Keeps(old(mem.view), mem.view, old(Live(B))) == true
    {
      hide HeapOk, Live, Coalesced, Keeps;
      ghost var m, L := mem.view, Live(B);
      KeepsAll(m, L);
      var extendSize := if asize > CHUNKSIZE then asize else CHUNKSIZE;
      bp := ExtendHeap(extendSize / WSIZE);
      if bp != NULL {
        ghost var m1 := mem.view;
        Place(bp, asize);
        KeepsOn(m, m1, mem.view, L, L);
      }
    }

    /** mm_malloc: NULL exactly for 0 bytes or when no block fits and the heap cannot
        grow, and then nothing changes; otherwise a new payload of at least size bytes. */
    method Malloc(size: nat) returns (bp: nat)
      requires Ready() && size + 11 < 0x1_0000_0000
      modifies this`brk, this`top, this`B, this`R, this`U, mem, mem.cells
      ensures Ready()
      ensures bp == NULL <==> MallocFails(old(B), old(brk), |old(mem.view)|, size)
      ensures bp == NULL ==> B == old(B) && brk == old(brk) && mem.view == old(mem.view)
      ensures bp != NULL ==>
                bp !in old(Live(B)) && bp in Live(B) && Live(B)[bp] >= RoundPayload(size)
                && Live(B) == old(Live(B))[bp := Live(B)[bp]]
      ensures bp != NULL ==> Live(B)[bp] + WSIZE < Adjusted(RoundPayload(size)) + 2 * DSIZE
      ensures bp != NULL ==>
                var asize := Adjusted(RoundPayload(size));
                brk == old(brk) + if !NoFit(old(B), asize) then 0 else if asize > CHUNKSIZE then asize else CHUNKSIZE
      ensures bp != NULL && !NoFit(old(B), Adjusted(RoundPayload(size)))
              ==> BestFit(old(B), bp, Adjusted(RoundPayload(size)))
      ensures Keeps(old(mem.view), mem.view, old(Live(B))) == true
    {
      hide HeapOk, Live, Coalesced, Keeps, NoFit, BestFit, Adjusted, RoundPayload, LeastClass;
      ghost var m, L := mem.view, Live(B);
      KeepsAll(m, L);
      if size == 0 {
        return NULL;
      }
      var rounded := Round(size);
      var asize := AdjustSize(rounded);
      bp := FindFit(asize);
      if bp != NULL {
        FitIs(B, bp, asize);
        Place(bp, asize);
        return;
      }
      bp := PlaceAtEnd(asize);
    }

    /** mm_free: the block's payload is no longer live; the others are untouched. */
    method Free(bp: nat)
      requires Ready() && (bp == NULL || bp in Live(B))
      modifies this`B, this`R, this`U, mem, mem.cells
      ensures Ready() && Live(B) == old(Live(B)) - {bp}
      ensures Keeps(old(mem.view), mem.view, Live(B)) == true
    {
      hide HeapOk, Live, Coalesced, Keeps, GetSize, GetAlloc, GetPrevAlloc, Pack, NewlyFree, Replace, Cleared, Relaid,
           Elsewhere;
      if bp == NULL {
        NullNotLive(mem.view, B, top, R, U);
        KeepsAll(mem.view, Live(B));
        return;
      }
      ghost var m, L := mem.view, Live(B);
      LiveIsReal(m, B, top, R, U, bp);
      var w := Header(bp);
      var size := GetSize(w);
      var n := Header(bp + size);
      FreeLayout(m, B, top, R, U, bp);
      mem.Put(bp - WSIZE, Pack(size, GetPrevAlloc(w), false));
      mem.Put(bp + size - DSIZE, Pack(size, GetPrevAlloc(w), false));
      mem.Put(bp + size - WSIZE, Pack(GetSize(n), false, GetAlloc(n)));
      Relay(m, bp, bp + size, size, false, bp);
      ghost var m1, L1 := mem.view, Live(B);
      UnfiledFree(m1, B, top, R, U, bp);
      var p := Coalesce(bp);
      KeepsOn(m, m1, mem.view, L1, L1);
    }

    // ----- resizing -----

    /** Tell the block at e whether the one before it is allocated. */
    method MarkNext(e: nat, flag: bool, ghost size: nat, ghost alloc: bool)
      requires mem.Valid() && WSIZE <= e <= |mem.view| && GetSize(mem.view[e - WSIZE]) == size
               && GetAlloc(mem.view[e - WSIZE]) == alloc
      requires !alloc ==> DSIZE <= size && e + size < |mem.view| + DSIZE
      modifies mem, mem.cells
      ensures mem.Valid() && mem.view == NextWords(old(mem.view), e, size, alloc, flag)
    {
      hide GetSize, GetAlloc, Pack;
      var w := mem.Get(e - WSIZE);
      mem.Put(e - WSIZE, Pack(GetSize(w), flag, GetAlloc(w)));
      if !GetAlloc(w) {
        mem.Put(e + GetSize(w) - DSIZE, Pack(GetSize(w), flag, false));
      }
    }

    method Memmove(dst: nat, src: nat, n: nat)
      requires mem.Valid() && dst + n <= |mem.view| && src + n <= |mem.view| && (dst <= src || src + n <= dst)
      modifies mem, mem.cells
      ensures mem.Valid() && mem.view == Moved(old(mem.view), dst, src, n)
    {
      hide Moved;
      ghost var m := mem.view;
      var i: nat := 0;
      MovedNone(m, dst, src);
      while i < n
        invariant i <= n && mem.Valid() && mem.view == Moved(m, dst, src, i)
      {
        MovedStep(m, dst, src, i);
        var v := mem.Get(src + i);
        mem.Put(dst + i, v);
        i := i + 1;
      }
    }

    /** Outcome of resizing: on NULL nothing has changed. */
    twostate predicate Outcome(bp: nat, r: nat, n: nat)
      reads this, mem, mem.cells
    {
      if r == NULL then B == old(B) && brk == old(brk) && mem.view == old(mem.view)
      else Resized(old(mem.view), old(Live(B)), bp, mem.view, Live(B), r, n) == true
    }

    /** Headers and footer for the two parts of the region from p to e. */
    method SplitHere(p: nat, e: nat, a: nat, fix: bool)
      requires mem.Valid() && Fits(mem.view, B, p, e) && 2 * DSIZE <= a && p + a + 2 * DSIZE <= e
      requires GetPrevAlloc(mem.view[p - WSIZE]) == PrevAlloc(B, p)
      requires GetSize(mem.view[e - WSIZE]) == B[e].size && GetAlloc(mem.view[e - WSIZE]) == B[e].alloc
      modifies mem, mem.cells
      ensures mem.Valid() && mem.view == SplitResult(old(mem.view), B, p, e, a, fix)
    {
      hide GetSize, GetAlloc, GetPrevAlloc, Pack, PrevAlloc;
      var w := mem.Get(p - WSIZE);
      mem.Put(p - WSIZE, Pack(a, GetPrevAlloc(w), true));
      mem.Put(p + a - WSIZE, Pack(e - p - a, true, false));
      mem.Put(e - DSIZE, Pack(e - p - a, true, false));
      if fix {
        MarkNext(e, false, B[e].size, B[e].alloc);
      }
    }

    method WholeHere(p: nat, e: nat)
      requires mem.Valid() && Fits(mem.view, B, p, e)
      requires GetPrevAlloc(mem.view[p - WSIZE]) == PrevAlloc(B, p)
      requires GetSize(mem.view[e - WSIZE]) == B[e].size && GetAlloc(mem.view[e - WSIZE]) == B[e].alloc
      modifies mem, mem.cells
      ensures mem.Valid() && mem.view == WholeResult(old(mem.view), B, p, e)
    {
      hide GetSize, GetAlloc, GetPrevAlloc, Pack, PrevAlloc;
      var w := mem.Get(p - WSIZE);
      mem.Put(p - WSIZE, Pack(e - p, GetPrevAlloc(w), true));
      MarkNext(e, true, B[e].size, B[e].alloc);
    }

    /** The region from p to e becomes an allocated block of size a and a free one. */
    method Carve(p: nat, e: nat, a: nat, bp: nat, fix: bool, ghost m: seq<nat>)
      requires mem.Valid() && top <= brk <= |mem.view| && a >= WSIZE
               && Prepared(m, mem.view, B, top, R, U, p, e, bp, a - WSIZE) == true && CanCarve(B, p, e, a, fix)
      modifies this`B, this`U, mem, mem.cells
      ensures Valid() && U == {p + a} && p + a in B && Coalesced(B, if fix then p + a else 0) == true
      ensures p in Live(B) && Live(B)[p] == a - WSIZE
      ensures Resized(m, old(Live(B)), bp, mem.view, Live(B), p, a - WSIZE) == true
    {
      hide HeapOk, Live, Coalesced, Keeps, GetSize, GetAlloc, GetPrevAlloc, NewlyFree, Replace, Layout, Elsewhere,
           Resized, Same, SplitResult, Prepared;
      ghost var L, y := Live(B), if B[e].alloc then 0 else p + a;
      PreparedHeap(m, mem.view, B, top, R, U, p, e, bp, a - WSIZE);
      CarveReady(m, mem.view, B, top, R, U, p, e, bp, a, fix);
      SplitHere(p, e, a, fix);
      Relay(m, p, e, a, true, y);
      ResizedNow(m, L, bp, mem.view, Live(B), p, a, a - WSIZE);
      UnfiledFree(mem.view, B, top, R, U, p + a);
      if fix && y == 0 {
        Weaken(mem.view, B, top, R, U, p + a);
      }
    }

    /** The region from p to e becomes one allocated block. */
    method Fill(p: nat, e: nat, bp: nat, ghost m: seq<nat>)
      requires mem.Valid() && top == brk <= |mem.view| && p + WSIZE <= e
               && Prepared(m, mem.view, B, top, R, U, p, e, bp, e - p - WSIZE) == true
      modifies this`B, this`U, mem, mem.cells
      ensures p in Live(B) && Live(B)[p] == e - p - WSIZE
      ensures Ready() && Resized(m, old(Live(B)), bp, mem.view, Live(B), p, e - p - WSIZE) == true
    {
      hide HeapOk, Live, Coalesced, Keeps, GetSize, GetAlloc, GetPrevAlloc, NewlyFree, Replace, Layout, Elsewhere,
           Resized, Same, WholeResult, Prepared;
      ghost var L := Live(B);
      PreparedHeap(m, mem.view, B, top, R, U, p, e, bp, e - p - WSIZE);
      FillReady(m, mem.view, B, top, R, U, p, e, bp);
      WholeHere(p, e);
      Relay(m, p, e, e - p, true, 0);
      ResizedNow(m, L, bp, mem.view, Live(B), p, e - p, e - p - WSIZE);
    }

    method Shrink(bp: nat, bsize: nat, asize: nat)
      requires Ready() && bp in Live(B) && bsize == B[bp].size && 2 * DSIZE <= asize && asize + 2 * DSIZE <= bsize
               && asize % DSIZE == 0
      modifies this`B, this`R, this`U, mem, mem.cells
      ensures bp in Live(B) && Live(B)[bp] == asize - WSIZE && bp + asize in B && !B[bp + asize].alloc
      ensures Ready() && Resized(old(mem.view), old(Live(B)), bp, mem.view, Live(B), bp, asize - WSIZE) == true
    {
      hide HeapOk, Live, Coalesced, Region, Resized, Same, Inner, Keeps, PrevAlloc;
      ghost var m, L := mem.view, Live(B);
      LiveSize(B, bp);
      InsideLive(m, B, top, R, U, bp, bp + asize);
      PrepareAlone(m, B, top, R, U, bp, asize - WSIZE);
      Carve(bp, bp + bsize, asize, bp, true, m);
      ghost var m1, L1 := mem.view, Live(B);
      var rest := Coalesce(bp + asize);
      ResizedOn(m, L, bp, m1, mem.view, L1, bp, asize - WSIZE);
      ResizedLive(m, L, bp, mem.view, Live(B), bp, asize - WSIZE);
      BehindFree(mem.view, B, top, R, U, bp, bp + asize);
    }

    /** Grow the last block, or the last but a free one, with the heap. */
    method GrowAtEnd(bp: nat, bsize: nat, nextSize: nat, asize: nat) returns (r: nat)
      requires Ready() && bp in Live(B) && bsize == B[bp].size && bsize + nextSize < asize && asize % DSIZE == 0
      requires bp + bsize in B && (if bp + bsize == top then nextSize == 0
                 else !B[bp + bsize].alloc && nextSize == B[bp + bsize].size && bp + bsize + nextSize == top)
      modifies this`brk, this`top, this`B, this`R, this`U, mem, mem.cells
      ensures Ready() && Outcome(bp, r, asize - WSIZE)
      ensures r == NULL <==> old(brk) + asize > |old(mem.view)| + bsize + nextSize
      ensures r != NULL ==> r == bp && bp in Live(B) && Live(B)[bp] == asize - WSIZE
      ensures r != NULL ==> brk == old(brk) + asize - bsize - nextSize
    {
      hide HeapOk, Live, Coalesced, Region, Resized, Same, Keeps, PrevAlloc, Real, GetPrevAlloc, GetSize, GetAlloc,
           Pack, Elsewhere, NewlyFree, ReplaceEnd, EndLayout, IsFree;
      ghost var m, L := mem.view, Live(B);
      LiveSides(m, B, top, R, U, bp);
      var w := Header(bp);
      var ok := Sbrk(asize - bsize - nextSize);
      if !ok {
        return NULL;
      }
      KeepsAll(m, L);
      if nextSize != 0 {
        RemoveNode(bp + bsize);
      }
      ghost var m1 := mem.view;
      GrowReady(m1, B, top, R, U, bp, asize);
      mem.Put(bp - WSIZE, Pack(asize, GetPrevAlloc(w), true));
      mem.Put(bp + asize - WSIZE, Pack(0, true, true));
      RelayEnd(m1, bp, asize, true, 0);
      ResizedNow(m1, L, bp, mem.view, Live(B), bp, asize, asize - WSIZE);
      ResizedFrom(m, L, bp, m1, mem.view, Live(B), bp, asize - WSIZE);
      r := bp;
    }

    /** Grow into the free block behind bp; the data stays where it is. */
    method GrowNext(bp: nat, bsize: nat, nextSize: nat, asize: nat)
      requires Ready() && bp in Live(B) && bsize == B[bp].size && bsize < asize <= bsize + nextSize
               && asize % DSIZE == 0
      requires bp + bsize in B && !B[bp + bsize].alloc && nextSize == B[bp + bsize].size
      modifies this`B, this`R, this`U, mem, mem.cells
      ensures bp in Live(B)
              && Live(B)[bp] + WSIZE == if bsize + nextSize >= asize + 4 * DSIZE then asize else bsize + nextSize
      ensures Ready() && Resized(old(mem.view), old(Live(B)), bp, mem.view, Live(B), bp, asize - WSIZE) == true
    {
      hide HeapOk, Live, Coalesced, Region, Resized, Same, Inner, Keeps, Prepared;
      ghost var m, L := mem.view, Live(B);
      LiveSides(m, B, top, R, U, bp);
      RemoveNode(bp + bsize);
      ghost var m1 := mem.view;
      assert U == {bp + bsize};
      PrepareNext(m1, B, top, R, bp, bp + bsize, asize - WSIZE);
      PrepareNext(m1, B, top, R, bp, bp + bsize, bsize + nextSize - WSIZE);
      if nextSize >= (asize - bsize) + 4 * DSIZE {
        Carve(bp, bp + bsize + nextSize, asize, bp, false, m1);
        ghost var m2, L2 := mem.view, Live(B);
        InsertNode(bp + asize);
        ResizedOn(m1, L, bp, m2, mem.view, L2, bp, asize - WSIZE);
      } else {
        Fill(bp, bp + bsize + nextSize, bp, m1);
        ResizedLess(m1, L, bp, mem.view, Live(B), bp, bsize + nextSize - WSIZE, asize - WSIZE);
      }
      ResizedFrom(m, L, bp, m1, mem.view, Live(B), bp, asize - WSIZE);
    }

    /** Grow into the free block before bp; the data moves down. */
    method GrowPrev(bp: nat, bsize: nat, p: nat, prevSize: nat, asize: nat)
      requires Ready() && bp in Live(B) && bsize == B[bp].size && bsize < asize <= bsize + prevSize
               && asize % DSIZE == 0
      requires !PrevAlloc(B, bp) && p == B[bp].prev && p in B && prevSize == B[p].size
      modifies this`B, this`R, this`U, mem, mem.cells
      ensures p in Live(B)
              && Live(B)[p] + WSIZE == if bsize + prevSize >= asize + 4 * DSIZE then asize else bsize + prevSize
      ensures Ready() && Resized(old(mem.view), old(Live(B)), bp, mem.view, Live(B), p, asize - WSIZE) == true
    {
      hide HeapOk, Live, Coalesced, Region, Resized, Same, Inner, Keeps, Prepared, Moved, PrevAlloc;
      ghost var m, L := mem.view, Live(B);
      LiveSides(m, B, top, R, U, bp);
      RemoveNode(p);
      ghost var m1 := mem.view;
      assert U == {p};
      PreparePrev(m1, B, top, R, p, bp, asize - WSIZE);
      PreparePrev(m1, B, top, R, p, bp, bsize + prevSize - WSIZE);
      Memmove(p, bp, bsize - WSIZE);
      if prevSize >= (asize - bsize) + 4 * DSIZE {
        Carve(p, bp + bsize, asize, bp, true, m1);
        ghost var m2, L2 := mem.view, Live(B);
        var rest := Coalesce(p + asize);
        ResizedOn(m1, L, bp, m2, mem.view, L2, p, asize - WSIZE);
      } else {
        Fill(p, bp + bsize, bp, m1);
        ResizedLess(m1, L, bp, mem.view, Live(B), p, bsize + prevSize - WSIZE, asize - WSIZE);
      }
      ResizedFrom(m, L, bp, m1, mem.view, Live(B), p, asize - WSIZE);
    }

    /** Grow into both free neighbours. */
    method GrowBoth(bp: nat, bsize: nat, p: nat, prevSize: nat, nextSize: nat, asize: nat)
      requires Ready() && bp in Live(B) && bsize == B[bp].size && bsize < asize <= bsize + prevSize + nextSize
               && asize % DSIZE == 0
      requires !PrevAlloc(B, bp) && p == B[bp].prev && p in B && prevSize == B[p].size
      requires bp + bsize in B && !B[bp + bsize].alloc && nextSize == B[bp + bsize].size
      modifies this`B, this`R, this`U, mem, mem.cells
      ensures p in Live(B)
              && Live(B)[p] + WSIZE == if bsize + prevSize + nextSize >= asize + 4 * DSIZE then asize else bsize + prevSize + nextSize
      ensures Ready() && Resized(old(mem.view), old(Live(B)), bp, mem.view, Live(B), p, asize - WSIZE) == true
    {
      hide HeapOk, Live, Coalesced, Region, Resized, Same, Inner, Keeps, Prepared, Moved, PrevAlloc;
      ghost var m, L := mem.view, Live(B);
      LiveSides(m, B, top, R, U, bp);
      RemoveNode(bp + bsize);
      ghost var m0 := mem.view;
      RemoveNode(p);
      ghost var m1 := mem.view;
      KeepsOn(m, m0, m1, L, L);
      assert U == {bp + bsize, p};
      PrepareBoth(m1, B, top, R, p, bp, bp + bsize, asize - WSIZE);
      PrepareBoth(m1, B, top, R, p, bp, bp + bsize, bsize + prevSize + nextSize - WSIZE);
      Memmove(p, bp, bsize - WSIZE);
      if prevSize + nextSize >= (asize - bsize) + 4 * DSIZE {
        Carve(p, bp + bsize + nextSize, asize, bp, false, m1);
        ghost var m2, L2 := mem.view, Live(B);
        InsertNode(p + asize);
        ResizedOn(m1, L, bp, m2, mem.view, L2, p, asize - WSIZE);
      } else {
        Fill(p, bp + bsize + nextSize, bp, m1);
        ResizedLess(m1, L, bp, mem.view, Live(B), p, bsize + prevSize + nextSize - WSIZE, asize - WSIZE);
      }
      ResizedFrom(m, L, bp, m1, mem.view, Live(B), p, asize - WSIZE);
    }

    /** Allocate elsewhere, copy, and free. */
    method MoveBlock(bp: nat, size: nat, copySize: nat) returns (ptr: nat)
      requires Ready() && bp in Live(B) && copySize == Live(B)[bp] && copySize < size && size + 11 < 0x1_0000_0000
      modifies this`brk, this`top, this`B, this`R, this`U, mem, mem.cells
      ensures Ready() && Outcome(bp, ptr, size)
      ensures ptr == NULL <==> MallocFails(old(B), old(brk), |old(mem.view)|, size)
      ensures ptr != NULL ==>
                ptr != bp && ptr in Live(B) && Live(B)[ptr] + WSIZE < Adjusted(RoundPayload(size)) + 2 * DSIZE
    {
      hide HeapOk, Live, Coalesced, Resized, Same, Keeps, Moved, NoFit, BestFit, Adjusted, RoundPayload, MallocFails;
      ghost var m, L := mem.view, Live(B);
      ptr := Malloc(size);
      if ptr == NULL {
        return;
      }
      ghost var m1, L1 := mem.view, Live(B);
      LiveApart(m1, B, top, R, U, ptr, bp);
      RoundIs(size);
      CopyOk(m1, B, top, R, ptr, bp, copySize);
      var copy := if size < copySize then size else copySize;
      Memmove(ptr, bp, copy);
      ghost var m2 := mem.view;
      Free(bp);
      KeepsLength(m, m1, L);
      MovedResized(m, m1, m2, mem.view, L, L1, bp, ptr, copySize, size);
    }

    /** mm_realloc: NULL for 0 bytes, or when the heap cannot grow as needed, and then
        nothing but a freed block has changed; otherwise the block has at least size
        bytes and keeps its data as far as it fits, wherever it is. */
    method Realloc(bp: nat, size: nat) returns (r: nat)
      requires Ready() && (bp == NULL || bp in Live(B)) && size + size / 16 + 11 < 0x1_0000_0000
      modifies this`brk, this`top, this`B, this`R, this`U, mem, mem.cells
      ensures Ready()
      ensures size == 0 ==>
                r == NULL && Live(B) == old(Live(B)) - {bp} && Keeps(old(mem.view), mem.view, Live(B)) == true
      ensures bp == NULL && r != NULL ==>
                r !in old(Live(B)) && r in Live(B) && Live(B)[r] >= size && Live(B) == old(Live(B))[r := Live(B)[r]]
                && Keeps(old(mem.view), mem.view, old(Live(B))) == true
      ensures bp == NULL && r != NULL ==> Live(B)[r] + WSIZE < Adjusted(RoundPayload(size)) + 2 * DSIZE
      ensures bp == NULL ==> (r == NULL <==> MallocFails(old(B), old(brk), |old(mem.view)|, size))
      ensures bp == NULL && r != NULL && !NoFit(old(B), Adjusted(RoundPayload(size)))
              ==> BestFit(old(B), r, Adjusted(RoundPayload(size)))
      ensures bp == NULL && r == NULL ==> B == old(B) && brk == old(brk) && mem.view == old(mem.view)
      ensures bp != NULL && size != 0 ==>
                Outcome(bp, r, size) && (r == NULL <==> ReallocFails(old(B), old(brk), |old(mem.view)|, bp, size))
      ensures bp != NULL && r != NULL ==>
                r in Live(B) && Live(B)[r] + WSIZE < Adjusted(RoundPayload(size + size / 16)) + 4 * DSIZE
      ensures bp != NULL && r != NULL && Adjusted(RoundPayload(size + size / 16)) <= old(Live(B))[bp] + WSIZE ==>
                r == bp && Live(B)[bp] <= old(Live(B))[bp]
                && Live(B)[bp] + WSIZE < Adjusted(RoundPayload(size + size / 16)) + 2 * DSIZE
      ensures bp != NULL && r == bp && Live(B)[bp] < old(Live(B))[bp] ==>
                bp + Live(B)[bp] + WSIZE in B && !B[bp + Live(B)[bp] + WSIZE].alloc
      ensures bp != NULL && r != NULL ==> Lands(old(B), old(brk), bp, Adjusted(RoundPayload(size + size / 16)), r)
    {
      hide HeapOk, Live, Coalesced, Resized, Same, Keeps, NoFit, BestFit, Adjusted, RoundPayload, LeastClass, PrevAlloc,
           GetSize, GetAlloc, GetPrevAlloc, IsFree;
      if bp == NULL && size == 0 {
        NullNotLive(mem.view, B, top, R, U);
        KeepsAll(mem.view, Live(B));
        return bp;
      }
      if bp == NULL {
        r := Malloc(size);
        return;
      }
      if size == 0 {
        Free(bp);
        return NULL;
      }
      r := Resize(bp, size);
    }

    method Resize(bp: nat, size: nat) returns (r: nat)
      requires Ready() && bp in Live(B) && 0 < size && size + size / 16 + 11 < 0x1_0000_0000
      modifies this`brk, this`top, this`B, this`R, this`U, mem, mem.cells
      ensures Ready() && Outcome(bp, r, size)
      ensures r == NULL <==> ReallocFails(old(B), old(brk), |old(mem.view)|, bp, size)
      ensures r != NULL ==>
                r in Live(B) && Live(B)[r] + WSIZE < Adjusted(RoundPayload(size + size / 16)) + 4 * DSIZE
      ensures r != NULL && Adjusted(RoundPayload(size + size / 16)) <= old(Live(B))[bp] + WSIZE ==>
                r == bp && Live(B)[bp] <= old(Live(B))[bp]
                && Live(B)[bp] + WSIZE < Adjusted(RoundPayload(size + size / 16)) + 2 * DSIZE
      ensures r == bp && Live(B)[bp] < old(Live(B))[bp] ==>
                bp + Live(B)[bp] + WSIZE in B && !B[bp + Live(B)[bp] + WSIZE].alloc
      ensures r != NULL ==> Lands(old(B), old(brk), bp, Adjusted(RoundPayload(size + size / 16)), r)
    {
      hide HeapOk, Live, Coalesced, Resized, Same, Keeps, NoFit, BestFit, Adjusted, RoundPayload, LeastClass, PrevAlloc,
           GetSize, GetAlloc, GetPrevAlloc, IsFree;
      ghost var m, L := mem.view, Live(B);
      LiveSides(m, B, top, R, U, bp);
      var w := Header(bp);
      var bsize := GetSize(w);
      var rounded := Round(size + size / 16);
      RoundIs(size + size / 16);
      var asize := AdjustSize(rounded);
      RoundTwice(size + size / 16);
      LiveSize(B, bp);
      if asize <= bsize {
        if bsize - asize >= 2 * DSIZE {
          Shrink(bp, bsize, asize);
          ResizedLess(m, L, bp, mem.view, Live(B), bp, asize - WSIZE, size);
        } else {
          ResizedSelf(m, L, bp, size);
        }
        return bp;
      }
      r := Grow(bp, size, rounded, bsize, asize);
    }

    method Grow(bp: nat, ghost size: nat, rounded: nat, bsize: nat, asize: nat) returns (r: nat)
      requires asize == Adjusted(rounded) == Adjusted(RoundPayload(rounded))
      requires Ready() && bp in Live(B) && bp in B && bsize == B[bp].size < asize && asize % DSIZE == 0
               && size <= rounded && rounded + WSIZE <= asize && rounded + 11 < 0x1_0000_0000
      requires bp in B && bsize < rounded + WSIZE
      modifies this`brk, this`top, this`B, this`R, this`U, mem, mem.cells
      ensures r != NULL ==>
                r in Live(B) && Live(B)[r] + WSIZE < asize + 4 * DSIZE && (r == bp ==> asize <= Live(B)[r] + WSIZE)
      ensures Ready() && Outcome(bp, r, size)
      ensures r == NULL <==> GrowthFails(old(B), old(brk), |old(mem.view)|, bp, asize, rounded)
      ensures r != NULL ==> Lands(old(B), old(brk), bp, asize, r)
    {
      hide HeapOk, Live, Coalesced, Resized, Same, Keeps, PrevAlloc, GetSize, GetAlloc, GetPrevAlloc, IsFree;
      ghost var m, L := mem.view, Live(B);
      LiveSides(m, B, top, R, U, bp);
      EndIs(m, B, top, R, U, bp + bsize);
      var n := Header(bp + bsize);
      if GetSize(n) == 0 {
        r := GrowAtEnd(bp, bsize, 0, asize);
        if r != NULL {
          ResizedLess(m, L, bp, mem.view, Live(B), r, asize - WSIZE, size);
        }
        return;
      }
      if !GetAlloc(n) {
        var nextSize := GetSize(n);
        EndIs(m, B, top, R, U, bp + bsize + nextSize);
        var nn := Header(bp + bsize + nextSize);
        if GetSize(nn) == 0 && bsize + nextSize < asize {
          r := GrowAtEnd(bp, bsize, nextSize, asize);
          if r != NULL {
            ResizedLess(m, L, bp, mem.view, Live(B), r, asize - WSIZE, size);
          }
          return;
        }
        if nextSize >= asize - bsize {
          GrowNext(bp, bsize, nextSize, asize);
          ResizedLess(m, L, bp, mem.view, Live(B), bp, asize - WSIZE, size);
          return bp;
        }
      }
      r := GrowBack(bp, size, rounded, bsize, asize);
    }

    /** Nothing behind the block suffices: use what is before it, or move. */
    method GrowBack(bp: nat, ghost size: nat, rounded: nat, bsize: nat, asize: nat) returns (r: nat)
      requires asize == Adjusted(rounded) == Adjusted(RoundPayload(rounded))
      requires Ready() && bp in Live(B) && bp in B && bsize == B[bp].size < asize && asize % DSIZE == 0
               && size <= rounded && rounded + WSIZE <= asize && rounded + 11 < 0x1_0000_0000
      requires bsize < rounded + WSIZE
      requires bp + bsize in B && B[bp].prev in B && (!B[bp + bsize].alloc ==> bsize + B[bp + bsize].size < asize)
      modifies this`brk, this`top, this`B, this`R, this`U, mem, mem.cells
      ensures r != NULL ==>
                r in Live(B) && Live(B)[r] + WSIZE < asize + 4 * DSIZE && (r == bp ==> asize <= Live(B)[r] + WSIZE)
      ensures Ready() && Outcome(bp, r, size)
      ensures r == NULL <==>
                NeighboursFail(old(B), bp, asize) && MallocFails(old(B), old(brk), |old(mem.view)|, rounded)
      ensures r != NULL ==> if NeighboursFail(old(B), bp, asize) then r != bp else r == old(B)[bp].prev
    {
      hide HeapOk, Live, Coalesced, Resized, Same, Keeps, PrevAlloc, GetSize, GetAlloc, GetPrevAlloc, IsFree,
           NeighboursFail, MallocFails;
      ghost var m, L := mem.view, Live(B);
      LiveSides(m, B, top, R, U, bp);
      NeighboursFailIs(B, bp, asize);
      var w := Header(bp);
      var n := Header(bp + bsize);
      if !GetPrevAlloc(w) {
        var p := PrevBlock(bp);
        var pw := Header(p);
        var prevSize := GetSize(pw);
        UnfiledNotNull(m, B, top, R, U, p);
        if prevSize >= asize - bsize {
          GrowPrev(bp, bsize, p, prevSize, asize);
          ResizedLess(m, L, bp, mem.view, Live(B), p, asize - WSIZE, size);
          return p;
        }
        if !GetAlloc(n) && prevSize + GetSize(n) >= asize - bsize {
          GrowBoth(bp, bsize, p, prevSize, GetSize(n), asize);
          ResizedLess(m, L, bp, mem.view, Live(B), p, asize - WSIZE, size);
          return p;
        }
      }
      r := MoveBlock(bp, rounded, bsize - WSIZE);
      if r != NULL {
        ResizedLess(m, L, bp, mem.view, Live(B), r, rounded, size);
      }
    }
  }
}
