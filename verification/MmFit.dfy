/** The segregated search: rings of growing size classes, scanned for a best fit. */
module MmFit {
  import opened MmBlocks
  import opened MmWords
  import opened MmRings

  ghost predicate NoFit(B: Blocks, asize: nat) {
    forall p | p in B && !B[p].alloc :: B[p].size < asize
  }

  /** ptr is a smallest free block of at least asize bytes in the whole heap. */
  ghost predicate BestFit(B: Blocks, ptr: nat, asize: nat) {
    && ptr in B && !B[ptr].alloc && asize <= B[ptr].size
    && forall p | p in B && !B[p].alloc && asize <= B[p].size :: B[ptr].size <= B[p].size
  }

  /** No free block will do for a request of size bytes and the heap, brk bytes
      of at most max, cannot be extended for it. */
  ghost predicate MallocFails(B: Blocks, brk: nat, max: nat, size: nat) {
    var asize := Adjusted(RoundPayload(size));
    size == 0 || (NoFit(B, asize) && brk + (if asize > CHUNKSIZE then asize else CHUNKSIZE) > max)
  }

  /** Block bp cannot become asize bytes large: at the end of the heap because the heap
      cannot be extended, elsewhere because the block with its free neighbours is too
      small and there is no other place for its rounded payload either. */
  ghost predicate GrowthFails(B: Blocks, brk: nat, max: nat, bp: nat, asize: nat, rounded: nat) {
    && bp in B && bp + B[bp].size in B && B[bp].prev in B
    && var bsize, n := B[bp].size, bp + B[bp].size;
       if n == brk then brk + asize > max + bsize
       else if !B[n].alloc && n + B[n].size == brk && bsize + B[n].size < asize
               then brk + asize > max + bsize + B[n].size
       else NeighboursFail(B, bp, asize) && MallocFails(B, brk, max, rounded)
  }

  ghost predicate NeighboursFail(B: Blocks, bp: nat, asize: nat) {
    && bp in B && bp + B[bp].size in B && B[bp].prev in B
    && var n, p := bp + B[bp].size, B[bp].prev;
       B[bp].size + (if B[n].alloc then 0 else B[n].size) + (if B[p].alloc then 0 else B[p].size) < asize
  }

  /** Where block bp goes: it stays if it is large enough, at the end of the heap, or
      can take what it needs from the block behind it; else it moves into the block
      before it, if those two and the one behind suffice; else it moves elsewhere. */
  ghost predicate Lands(B: Blocks, brk: nat, bp: nat, asize: nat, r: nat) {
    && bp in B && bp + B[bp].size in B && B[bp].prev in B
    && if asize <= B[bp].size || Stays(B, brk, bp, asize) then r == bp
       else if !NeighboursFail(B, bp, asize) then r == B[bp].prev
       else r != bp
  }

  ghost predicate Stays(B: Blocks, brk: nat, bp: nat, asize: nat) {
    && bp in B && bp + B[bp].size in B
    && var n := bp + B[bp].size;
       n == brk || (!B[n].alloc && (n + B[n].size == brk || B[bp].size + B[n].size >= asize))
  }

  lemma NeighboursFailIs(B: Blocks, bp: nat, asize: nat)
    requires bp in B && bp + B[bp].size in B && B[bp].prev in B
    ensures NeighboursFail(B, bp, asize) <==>
            B[bp].size + (if B[bp + B[bp].size].alloc then 0 else B[bp + B[bp].size].size) + (if PrevAlloc(B, bp) then 0
                  else B[B[bp].prev].size) < asize
  {
  }

  /** mm_realloc cannot give block bp a payload of size bytes. */
  ghost predicate ReallocFails(B: Blocks, brk: nat, max: nat, bp: nat, size: nat) {
    var rounded := RoundPayload(size + size / 16);
    bp in B && Adjusted(rounded) > B[bp].size && GrowthFails(B, brk, max, bp, Adjusted(rounded), rounded)
  }

  ghost predicate BestIn(B: Blocks, c: seq<nat>, ptr: nat, asize: nat) {
    && ptr in c && ptr in B && asize <= B[ptr].size
    && forall q | q in c :: q in B && (asize <= B[q].size ==> B[ptr].size <= B[q].size)
  }

  /** The search of c[..j] has come to ptr, or found nothing. */
  ghost predicate ScanDone(B: Blocks, c: seq<nat>, j: nat, asize: nat, ptr: nat) {
    && j <= |c|
    && if ptr == 0 then forall q | q in c[..j] :: q in B && B[q].size < asize else BestIn(B, c[..j], ptr, asize)
  }

  lemma ScanStep(B: Blocks, c: seq<nat>, j: nat, asize: nat, ptr: nat)
    requires ScanDone(B, c, j, asize, ptr) && j < |c| && c[j] in B && c[j] != 0
    ensures ScanDone(B, c, j + 1, asize, if asize <= B[c[j]].size
              && (ptr == 0 || (ptr in B && B[c[j]].size < B[ptr].size)) then c[j] else ptr)
  {
    assert c[..j + 1] == c[..j] + [c[j]];
  }

  lemma ScanEnd(B: Blocks, c: seq<nat>, asize: nat, ptr: nat)
    requires ScanDone(B, c, |c|, asize, ptr)
    ensures if ptr == 0 then forall q | q in c :: q in B && B[q].size < asize else BestIn(B, c, ptr, asize) && ptr in c
  {
    assert c[..|c|] == c;
  }

  lemma RingLayout(m: seq<nat>, B: Blocks, brk: nat, R: Rings, U: set<nat>, i: nat)
    requires HeapOk(m, B, brk, R, U) && i < CLASSNUM
    ensures |R| == CLASSNUM && WSIZE * i < |m| && m[WSIZE * i] == (if R[i] == [] then 0 else R[i][0])
            && (R[i] != [] ==> R[i][0] != 0)
    ensures ScanDone(B, R[i], 0, 0, 0) && forall asize :: ScanDone(B, R[i], 0, asize, 0)
  {
    hide Tiled, Words, Filed, RingsOk;
    RingHead(m, R, i);
    RingHeadCell(m, WSIZE * i, R[i]);
  }

  lemma RingNext(m: seq<nat>, B: Blocks, brk: nat, R: Rings, U: set<nat>, i: nat, j: nat)
    requires HeapOk(m, B, brk, R, U) && i < CLASSNUM && |R| == CLASSNUM && j < |R[i]|
    ensures var c := R[i];
            c[j] in B && c[j] != 0 && c[j] + WSIZE < |m| && m[c[j] + WSIZE] == (if j + 1 == |c| then c[0] else c[j + 1])
    ensures j + 1 < |R[i]| ==> R[i][j + 1] != R[i][0]
  {
    hide Tiled, Words, Filed, RingsOk, RingOk, Class;
    RingMember(m, B, R, U, i, j);
    RingHead(m, R, i);
    RingAt(m, WSIZE * i, R[i], j);
    RingFree(B, R, U, i);
  }

  lemma Rings12(m: seq<nat>, B: Blocks, brk: nat, R: Rings, U: set<nat>)
    requires HeapOk(m, B, brk, R, U)
    ensures |R| == CLASSNUM
  {
  }

  /** No block in the rings from the class of asize up to index fits. */
  ghost predicate Searched(B: Blocks, R: Rings, index: nat, asize: nat)
    requires |R| == CLASSNUM && index <= CLASSNUM
  {
    Class(asize) <= index && forall i, q | Class(asize) <= i < index && q in R[i] :: q in B && B[q].size < asize
  }

  lemma SearchStart(B: Blocks, R: Rings, asize: nat)
    requires |R| == CLASSNUM
    ensures Searched(B, R, Class(asize), asize)
  {
  }

  lemma SearchStep(m: seq<nat>, B: Blocks, brk: nat, R: Rings, U: set<nat>, index: nat, asize: nat)
    requires |R| == CLASSNUM && index < CLASSNUM && Searched(B, R, index, asize)
             && forall q | q in R[index] :: q in B && B[q].size < asize
    ensures Searched(B, R, index + 1, asize)
  {
  }

  /** A free block of a smaller class is too small. */
  lemma Misfit(m: seq<nat>, B: Blocks, brk: nat, R: Rings, U: set<nat>, index: nat, asize: nat, p: nat)
    requires HeapOk(m, B, brk, R, U) && U == {} && |R| == CLASSNUM && index <= CLASSNUM && Searched(B, R, index, asize)
    requires p in B && !B[p].alloc && Class(B[p].size) < index
    ensures B[p].size < asize
  {
    hide HeapOk, Class;
    InRing(m, B, brk, R, U, p);
    if asize <= B[p].size {
      ClassMonotone(asize, B[p].size);
    }
  }

  lemma SearchHit(m: seq<nat>, B: Blocks, brk: nat, R: Rings, U: set<nat>, index: nat, asize: nat, ptr: nat)
    requires HeapOk(m, B, brk, R, U) && U == {} && |R| == CLASSNUM && index < CLASSNUM && Searched(B, R, index, asize)
             && BestIn(B, R[index], ptr, asize)
    ensures BestFit(B, ptr, asize)
  {
    hide Tiled, Words, RingsOk, Class, HeapOk;
    RingFreeOf(m, B, brk, R, U, index);
    forall p | p in B && !B[p].alloc && asize <= B[p].size ensures B[ptr].size <= B[p].size {
      if Class(B[p].size) < index {
        Misfit(m, B, brk, R, U, index, asize, p);
      } else if Class(B[p].size) == index {
        InRing(m, B, brk, R, U, p);
      } else if B[p].size < B[ptr].size {
        ClassMonotone(B[p].size, B[ptr].size);
      }
    }
  }

  lemma RingFreeOf(m: seq<nat>, B: Blocks, brk: nat, R: Rings, U: set<nat>, i: nat)
    requires HeapOk(m, B, brk, R, U) && i < CLASSNUM
    ensures |R| == CLASSNUM && forall q | q in R[i] :: q in B && !B[q].alloc && Class(B[q].size) == i
  {
    hide Tiled, Words, RingsOk, Class, Filed;
    Rings12(m, B, brk, R, U);
    RingFree(B, R, U, i);
  }

  lemma InRing(m: seq<nat>, B: Blocks, brk: nat, R: Rings, U: set<nat>, p: nat)
    requires HeapOk(m, B, brk, R, U) && U == {} && p in B && !B[p].alloc
    ensures |R| == CLASSNUM && p in R[Class(B[p].size)]
  {
    hide Tiled, Words, RingsOk, Class;
    assert IsFree(B, U, p);
  }

  lemma SearchEnd(m: seq<nat>, B: Blocks, brk: nat, R: Rings, U: set<nat>, asize: nat)
    requires HeapOk(m, B, brk, R, U) && U == {} && |R| == CLASSNUM && Searched(B, R, CLASSNUM, asize)
    ensures NoFit(B, asize)
  {
    hide HeapOk, Searched;
    forall p | p in B && !B[p].alloc ensures B[p].size < asize {
      Misfit(m, B, brk, R, U, CLASSNUM, asize, p);
    }
  }

  lemma FitNotBoth(m: seq<nat>, B: Blocks, brk: nat, R: Rings, U: set<nat>, asize: nat, ptr: nat)
    requires HeapOk(m, B, brk, R, U) && (ptr != 0 ==> BestFit(B, ptr, asize))
    ensures ptr != 0 ==> !NoFit(B, asize)
  {
    hide HeapOk;
  }
}
