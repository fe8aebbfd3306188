/** A program that uses the allocator: any sequence of requests, with the program
    writing into its payloads in between. */
module MmTrace {
  import opened MmBlocks
  import opened MmWords
  import opened MmRings
  import opened MmLive
  import opened MmSteps
  import opened MmFit
  import opened MmMoves
  import opened MmHeap

  datatype Request =
    | Alloc(id: nat, size: nat)
    | Resize(id: nat, size: nat)
    | Release(id: nat)
    | Store(id: nat, k: nat, v: nat)

  /** What the program holds, by its own names for its blocks. */
  type Held = map<nat, seq<nat>>

  /** The effect of a request, given whether it succeeded.  Requests for names that
      are in use already, or not in use, are not made. */
  ghost predicate Answers(b: Held, q: Request, ok: bool, b': Held) {
    match q
    case Alloc(id, n) =>
      if ok then id !in b && id in b' && |b'[id]| == n && b' == b[id := b'[id]] else b' == b
    case Resize(id, n) =>
      if id in b && n == 0 then b' == b - {id}
      else if ok then id in b && id in b' && |b'[id]| == n && b' == b[id := b'[id]]
              && Agree(b[id], b'[id], if n < |b[id]| then n else |b[id]|)
      else b' == b
    case Release(id) => b' == b - {id}
    case Store(id, k, v) => b' == if id in b && k < |b[id]| then b[id := Put(b[id], k, v)] else b
  }

  function Put(x: seq<nat>, k: nat, v: nat): (y: seq<nat>)
    requires k < |x|
    ensures |y| == |x|
  {
    x[k := v]
  }

  ghost predicate Agree(x: seq<nat>, y: seq<nat>, n: nat) {
    n <= |x| && n <= |y| && x[..n] == y[..n]
  }

  /** Requests small enough for 32-bit sizes not to wrap around. */
  predicate Bounded(q: Request) {
    (q.Alloc? || q.Resize?) ==> q.size + q.size / 16 + 11 < 0x1_0000_0000
  }

  // ----- what the program holds, in the heap -----

  /** Block p of memory m holds the bytes x. */
  ghost predicate Holds(m: seq<nat>, L: map<nat, nat>, p: nat, x: seq<nat>) {
    p in L && |x| <= L[p] && p + L[p] <= |m| && m[p..p + |x|] == x
  }

  ghost predicate AllHeld(m: seq<nat>, L: map<nat, nat>, at: map<nat, nat>, held: Held) {
    && at.Keys == held.Keys
    && (forall i | i in held :: Holds(m, L, at[i], held[i]))
    && (forall i, j | i in at && j in at && i != j :: at[i] != at[j])
  }

  lemma HoldsOn(m: seq<nat>, L: map<nat, nat>, m': seq<nat>, L': map<nat, nat>, K: map<nat, nat>, p: nat, x: seq<nat>)
    requires Holds(m, L, p, x) && Keeps(m, m', K) && p in K && K[p] == L[p] && p in L' && L'[p] == L[p]
    ensures Holds(m', L', p, x)
  {
    KeepsSlice(m, m', K, p, |x|);
  }

  /** Blocks that stay live and untouched hold what they held. */
  lemma HeldOn(m: seq<nat>, L: map<nat, nat>, at: map<nat, nat>, held: Held, m': seq<nat>, L': map<nat, nat>,
          K: map<nat, nat>, gone: set<nat>)
    requires AllHeld(m, L, at, held) && Keeps(m, m', K)
    requires forall i | i in at && i !in gone && at[i] in L ::
             at[i] in K && K[at[i]] == L[at[i]] && at[i] in L' && L'[at[i]] == L[at[i]]
    ensures AllHeld(m', L', at - gone, held - gone)
  {
    forall i | i in held - gone ensures Holds(m', L', (at - gone)[i], (held - gone)[i]) {
      HoldsOn(m, L, m', L', K, at[i], held[i]);
    }
    hide Holds, Keeps;
  }

  /** One more block, at an address nothing else is held at. */
  lemma HeldMore(m: seq<nat>, L: map<nat, nat>, at: map<nat, nat>, held: Held, id: nat, p: nat, x: seq<nat>)
    requires AllHeld(m, L, at, held) && id !in at && Holds(m, L, p, x) && forall i | i in at :: at[i] != p
    ensures AllHeld(m, L, at[id := p], held[id := x])
  {
    hide Holds;
  }

  // ----- the program -----

  class Program {
    const heap: Heap
    /** Payload addresses and sizes of the blocks. */
    var at: map<nat, nat>
    var sizes: map<nat, nat>
    ghost var held: Held

    ghost predicate Valid()
      reads this, heap, heap.mem, heap.mem.cells
    {
      && heap.Ready() && AllHeld(heap.mem.view, Live(heap.B), at, held) == true
      && sizes.Keys == held.Keys && forall i | i in held :: sizes[i] == |held[i]|
    }

    constructor (h: Heap)
      requires h.Ready() && Live(h.B) == map[]
      ensures Valid() && heap == h && held == map[]
    {
      heap := h;
      at, sizes, held := map[], map[], map[];
    }

    method Alloc(id: nat, size: nat) returns (ok: bool)
      requires Valid() && id !in held && Bounded(Request.Alloc(id, size))
      modifies this`at, this`sizes, this`held, heap, heap.mem, heap.mem.cells
      ensures Valid() && Answers(old(held), Request.Alloc(id, size), ok, held)
      ensures ok <==> !MallocFails(old(heap.B), old(heap.brk), |old(heap.mem.view)|, size)
    {
      hide HeapOk, Live, Coalesced, Keeps, Holds, AllHeld, RoundPayload, MallocFails, NoFit, BestFit, Adjusted;
      ghost var m, L := heap.mem.view, Live(heap.B);
      AllAt(m, L, at, held);
      var p := heap.Malloc(size);
      ok := p != NULL;
      if ok {
        PayloadInside(heap.mem.view, heap.B, heap.top, heap.R, heap.U, p);
        HeldOn(m, L, at, held, heap.mem.view, Live(heap.B), L, {});
        NothingGone(at, held);
        HoldsNow(heap.mem.view, Live(heap.B), p, size);
        HeldMore(heap.mem.view, Live(heap.B), at, held, id, p, heap.mem.view[p..p + size]);
        at, sizes, held := at[id := p], sizes[id := size], held[id := heap.mem.view[p..p + size]];
      }
    }

    method Release(id: nat)
      requires Valid() && id in held
      modifies this`at, this`sizes, this`held, heap, heap.mem, heap.mem.cells
      ensures Valid() && held == old(held) - {id}
    {
      hide HeapOk, Live, Coalesced, Keeps, Holds, AllHeld;
      ghost var m, L := heap.mem.view, Live(heap.B);
      AllAt(m, L, at, held);
      heap.Free(at[id]);
      HeldOn(m, L, at, held, heap.mem.view, Live(heap.B), Live(heap.B), {id});
      at, sizes, held := at - {id}, sizes - {id}, held - {id};
    }

    method Resize(id: nat, size: nat) returns (ok: bool)
      requires Valid() && id in held && Bounded(Request.Resize(id, size))
      modifies this`at, this`sizes, this`held, heap, heap.mem, heap.mem.cells
      ensures Valid() && Answers(old(held), Request.Resize(id, size), ok, held)
      ensures ok <==> size != 0 && id in old(at)
                      && !ReallocFails(old(heap.B), old(heap.brk), |old(heap.mem.view)|, old(at)[id], size)
    {
      hide HeapOk, Live, Coalesced, Keeps, Holds, AllHeld, RoundPayload, ReallocFails, Lands, Adjusted, Resized, Agree;
      ghost var m, L := heap.mem.view, Live(heap.B);
      AllAt(m, L, at, held);
      NullNotLive(m, heap.B, heap.top, heap.R, heap.U);
      var p := at[id];
      var r := heap.Realloc(p, size);
      ok := r != NULL;
      if size == 0 {
        HeldOn(m, L, at, held, heap.mem.view, Live(heap.B), Live(heap.B), {id});
        at, sizes, held := at - {id}, sizes - {id}, held - {id};
      } else if ok {
        ResizedHeld(m, L, at, held, heap.mem.view, heap.B, heap.top, heap.R, id, r, size);
        at, sizes, held := at[id := r], sizes[id := size], held[id := heap.mem.view[r..r + size]];
      }
    }

    method Write(id: nat, k: nat, v: nat)
      requires Valid() && id in held && k < |held[id]|
      modifies this`held, heap.mem, heap.mem.cells
      ensures Valid() && held == old(held)[id := Put(old(held)[id], k, v)]
    {
      hide HeapOk, Live, Coalesced, Keeps, Holds, AllHeld, Put;
      ghost var m := heap.mem.view;
      WrittenHeld(m, heap.B, heap.top, heap.R, at, held, id, k, v);
      heap.mem.Put(at[id] + k, v);
      held := held[id := Put(held[id], k, v)];
    }

    method Perform(q: Request) returns (ok: bool)
      requires Valid() && Bounded(q)
      modifies this`at, this`sizes, this`held, heap, heap.mem, heap.mem.cells
      ensures Valid() && Answers(old(held), q, ok, held)
      ensures q.Alloc? ==>
                (ok <==> q.id !in old(held) && !MallocFails(old(heap.B), old(heap.brk), |old(heap.mem.view)|, q.size))
      ensures q.Resize? ==>
                (ok <==> q.id in old(held) && q.size != 0 && q.id in old(at)
                         && !ReallocFails(old(heap.B), old(heap.brk), |old(heap.mem.view)|, old(at)[q.id], q.size))
    {
      hide MallocFails, ReallocFails;
      hide AllHeld, Live, Coalesced, HeapOk, Agree, Put;
      ok := false;
      match q
      case Alloc(id, size) =>
        if id !in sizes {
          ok := Alloc(id, size);
        }
      case Resize(id, size) =>
        if id in sizes {
          ok := Resize(id, size);
        }
      case Release(id) =>
        if id in sizes {
          Release(id);
        }
      case Store(id, k, v) =>
        if id in sizes && k < sizes[id] {
          Write(id, k, v);
        }
    }

    /** After any requests the program's blocks are aligned, inside the heap and apart,
        and hold what the requests, one after the other, say they hold. */
    method PerformAll(qs: seq<Request>) returns (oks: seq<bool>, ghost states: seq<Held>)
      requires Valid() && forall i | 0 <= i < |qs| :: Bounded(qs[i])
      modifies this`at, this`sizes, this`held, heap, heap.mem, heap.mem.cells
      ensures Valid() && IsTrace(old(held), qs, oks, states, held)
      ensures at.Keys == held.Keys && forall i | i in held :: Payload(heap.mem.view, heap.brk, at[i], held[i])
      ensures forall i, j | i in held && j in held && i != j :: at[i] + |held[i]| <= at[j] || at[j] + |held[j]| <= at[i]
    {
      hide AllHeld, Live, Coalesced, HeapOk, Answers, Bounded, Payload;
      ghost var held0 := held;
      oks, states := [], [held];
      var i: nat := 0;
      while i < |qs|
        invariant i <= |qs| && Valid() && IsTrace(held0, qs[..i], oks, states, held)
      {
        var ok := Perform(qs[i]);
        assert qs[..i + 1] == qs[..i] + [qs[i]];
        oks, states := oks + [ok], states + [held];
        i := i + 1;
      }
      assert qs[..i] == qs;
      HeldApart(heap.mem.view, heap.B, heap.brk, heap.R, at, held);
    }
  }

  /** states are what is held before, between and after the requests. */
  ghost predicate IsTrace(b: Held, qs: seq<Request>, oks: seq<bool>, states: seq<Held>, b': Held) {
    && |states| == |qs| + 1 && |oks| == |qs| && states[0] == b && states[|qs|] == b'
    && forall i | 0 <= i < |qs| :: Answers(states[i], qs[i], oks[i], states[i + 1])
  }

  /** x lies at p, aligned, inside the heap and behind the prologue. */
  ghost predicate Payload(m: seq<nat>, brk: nat, p: nat, x: seq<nat>) {
    PROLOGUE < p && p % DSIZE == 0 && p + |x| <= brk <= |m| && m[p..p + |x|] == x
  }

  // ----- steps -----

  lemma AllAt(m: seq<nat>, L: map<nat, nat>, at: map<nat, nat>, held: Held)
    requires AllHeld(m, L, at, held)
    ensures at.Keys == held.Keys && forall i | i in at :: at[i] in L && |held[i]| <= L[at[i]]
    ensures forall i, j | i in at && j in at && i != j :: at[i] != at[j]
  {
    assert forall i | i in held :: Holds(m, L, at[i], held[i]);
  }

  lemma NothingGone(at: map<nat, nat>, held: Held)
    ensures at - {} == at && held - {} == held
  {
  }

  lemma HoldsNow(m: seq<nat>, L: map<nat, nat>, p: nat, n: nat)
    requires p in L && n <= L[p] && p + L[p] <= |m|
    ensures Holds(m, L, p, m[p..p + n])
  {
  }

  lemma PayloadInside(m: seq<nat>, B: Blocks, brk: nat, R: Rings, U: set<nat>, p: nat)
    requires HeapOk(m, B, brk, R, U) && p in Live(B)
    ensures p + Live(B)[p] <= brk <= |m| && PROLOGUE < p && p % DSIZE == 0
  {
    HeapBlocks(m, B, brk, R, U);
    LiveIsReal(m, B, brk, R, U, p);
    hide HeapOk, Live;
  }

  lemma ResizedHeld(m: seq<nat>, L: map<nat, nat>, at: map<nat, nat>, held: Held, m': seq<nat>, B: Blocks, brk: nat,
          R: Rings, id: nat, r: nat, n: nat)
    requires AllHeld(m, L, at, held) && id in at && HeapOk(m', B, brk, R, {})
             && Resized(m, L, at[id], m', Live(B), r, n)
    ensures r + n <= |m'| && id in held && AllHeld(m', Live(B), at[id := r], held[id := m'[r..r + n]])
    ensures Agree(held[id], m'[r..r + n], if n < |held[id]| then n else |held[id]|)
  {
    hide HeapOk, Live;
    AllAt(m, L, at, held);
    PayloadInside(m', B, brk, R, {}, r);
    var p, x, L' := at[id], held[id], Live(B);
    assert Holds(m, L, p, x);
    forall i | i in at && i != id ensures at[i] in L - {p} && at[i] in L' && L'[at[i]] == L[at[i]] && at[i] != r {
    }
    HoldsNow(m', L', r, n);
    HeldOn(m, L, at, held, m', L', L - {p}, {id});
    HeldMore(m', L', at - {id}, held - {id}, id, r, m'[r..r + n]);
    assert (at - {id})[id := r] == at[id := r] && (held - {id})[id := m'[r..r + n]] == held[id := m'[r..r + n]];
    SamePrefix(m, p, m', r, Min(L[p], L'[r]), n, x);
    hide AllHeld, Holds, Keeps;
  }

  lemma SamePrefix(m: seq<nat>, p: nat, m': seq<nat>, r: nat, c: nat, n: nat, x: seq<nat>)
    requires Same(m, p, m', r, c) && p + |x| <= |m| && x == m[p..p + |x|] && r + n <= |m'| && (n <= c || |x| <= c)
    ensures Agree(x, m'[r..r + n], if n < |x| then n else |x|)
  {
    var k := if n < |x| then n else |x|;
    assert m'[r..r + c][..k] == m[p..p + c][..k];
    assert x[..k] == m[p..p + c][..k] && m'[r..r + n][..k] == m'[r..r + c][..k];
  }

  lemma WrittenHeld(m: seq<nat>, B: Blocks, brk: nat, R: Rings, at: map<nat, nat>, held: Held, id: nat, k: nat, v: nat)
    requires HeapOk(m, B, brk, R, {}) && AllHeld(m, Live(B), at, held) && id in held && k < |held[id]|
    ensures id in at && at[id] + k < |m| && HeapOk(m[at[id] + k := v], B, brk, R, {})
    ensures AllHeld(m[at[id] + k := v], Live(B), at, held[id := Put(held[id], k, v)])
  {
    hide HeapOk, Live;
    AllAt(m, Live(B), at, held);
    var p, L := at[id], Live(B);
    PayloadInside(m, B, brk, R, {}, p);
    var m' := m[p + k := v];
    DataOk(m, m', B, brk, R, p);
    forall i | i in held ensures Holds(m', L, at[i], held[id := Put(held[id], k, v)][i]) {
      assert Holds(m, L, at[i], held[i]);
      if i != id {
        LiveApart(m, B, brk, R, {}, at[i], p);
      }
    }
  }

  lemma HeldApart(m: seq<nat>, B: Blocks, brk: nat, R: Rings, at: map<nat, nat>, held: Held)
    requires HeapOk(m, B, brk, R, {}) && AllHeld(m, Live(B), at, held)
    ensures at.Keys == held.Keys && forall i | i in held :: Payload(m, brk, at[i], held[i])
    ensures forall i, j | i in held && j in held && i != j :: at[i] + |held[i]| <= at[j] || at[j] + |held[j]| <= at[i]
  {
    hide HeapOk, Live;
    AllAt(m, Live(B), at, held);
    forall i | i in held ensures Payload(m, brk, at[i], held[i]) {
      assert Holds(m, Live(B), at[i], held[i]);
      PayloadInside(m, B, brk, R, {}, at[i]);
    }
    forall i, j | i in held && j in held && i != j ensures at[i] + |held[i]| <= at[j] || at[j] + |held[j]| <= at[i] {
      LiveApart(m, B, brk, R, {}, at[i], at[j]);
    }
  }
}
