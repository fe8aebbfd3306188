/** The doubly linked block lists of an SFS image: the free list, the directory
    chain and one chain per file, all threaded through the 12-byte block headers
    and together owning every block except the superblock. */
module SfsChains {

  type BlockId = nat

  /** The four-byte code at the start of each block; Other is any unknown code. */
  datatype Tag = FreeTag | FileTag | DirTag | Other

  datatype Hdr = Hdr(tag: Tag, prev: BlockId, next: BlockId)

  /** Who owns a block.  Transit(t) is a chain taken from the free list by an
      operation that has not linked it anywhere yet; with several threads, each has
      such a chain of its own, Flight(thread, tag). */
  datatype Owner = Nobody | FreeList | DirChain | Transit(t: Tag) | FileChain(fid: nat) | Flight(thread: nat, tag: Tag)

  function TagOf(o: Owner): Tag {
    match o
    case Nobody => Other
    case FreeList => FreeTag
    case DirChain => DirTag
    case Transit(t) => t
    case FileChain(_) => FileTag
    case Flight(_, t) => t
  }

  function Head(c: seq<BlockId>): BlockId {
    if c == [] then 0 else c[0]
  }

  function PrevIn(c: seq<BlockId>, i: nat): BlockId
    requires i < |c|
  {
    if i == 0 then 0 else c[i - 1]
  }

  function NextIn(c: seq<BlockId>, i: nat): BlockId
    requires i < |c|
  {
    if i + 1 == |c| then 0 else c[i + 1]
  }

  ghost predicate InRange(c: seq<BlockId>, n: nat) {
    forall i | 0 <= i < |c| :: 0 < c[i] < n
  }

  /** c is a well-formed list in h: doubly linked, 0 at both ends, tagged t. */
  ghost predicate Linked(h: seq<Hdr>, c: seq<BlockId>, t: Tag) {
    && InRange(c, |h|)
    && forall i {:trigger h[c[i]]} | 0 <= i < |c| :: h[c[i]] == Hdr(t, PrevIn(c, i), NextIn(c, i))
  }

  ghost predicate NoDup(c: seq<BlockId>) {
    forall i, j | 0 <= i < j < |c| :: c[i] != c[j]
  }

  /** Back pointers make a linked list acyclic. */
  lemma {:induction false} LinkedDistinct(h: seq<Hdr>, c: seq<BlockId>, t: Tag, i: nat, j: nat)
    requires Linked(h, c, t)
    requires i < j < |c|
    ensures c[i] != c[j]
  {
    if c[i] == c[j] {
      assert h[c[i]].prev == h[c[j]].prev == c[j - 1];
      if i > 0 {
        LinkedDistinct(h, c, t, i - 1, j - 1);
      }
    }
  }

  lemma LinkedNoDup(h: seq<Hdr>, c: seq<BlockId>, t: Tag)
    requires Linked(h, c, t)
    ensures NoDup(c)
  {
    forall i, j | 0 <= i < j < |c| ensures c[i] != c[j] {
      LinkedDistinct(h, c, t, i, j);
    }
  }

  /** All lists by owner, and the owner of each block. */
  datatype Store = Store(lists: map<Owner, seq<BlockId>>, owner: seq<Owner>) {
    function List(o: Owner): seq<BlockId> {
      if o in lists then lists[o] else []
    }
  }

  /** Every block 1..n-1 is in exactly one list, at exactly one place. */
  ghost predicate Partition(s: Store, n: nat) {
    && |s.owner| == n
    && FreeList in s.lists && DirChain in s.lists && Nobody !in s.lists
    && (forall o | o in s.lists :: OwnedBy(s, o))
    && (forall b | 0 < b < n :: s.owner[b] in s.lists && b in s.lists[s.owner[b]])
  }

  ghost predicate OwnedBy(s: Store, o: Owner)
    requires o in s.lists
  {
    && InRange(s.lists[o], |s.owner|)
    && forall i | 0 <= i < |s.lists[o]| :: s.owner[s.lists[o][i]] == o
  }

  ghost predicate StoreOk(h: seq<Hdr>, s: Store) {
    && Partition(s, |h|)
    && forall o | o in s.lists :: Linked(h, s.lists[o], TagOf(o))
  }

  // ----- header updates the operations perform -----

  function SetNext(h: seq<Hdr>, b: BlockId, v: BlockId): seq<Hdr>
    requires b < |h|
  {
    h[b := h[b].(next := v)]
  }

  function SetPrev(h: seq<Hdr>, b: BlockId, v: BlockId): seq<Hdr>
    requires b < |h|
  {
    h[b := h[b].(prev := v)]
  }

  function SetTag(h: seq<Hdr>, b: BlockId, t: Tag): seq<Hdr>
    requires b < |h|
  {
    h[b := h[b].(tag := t)]
  }

  /** Give every block of c the tag t. */
  function Retag(h: seq<Hdr>, c: seq<BlockId>, t: Tag): (r: seq<Hdr>)
    requires InRange(c, |h|)
    ensures |r| == |h|
  {
    if c == [] then h else SetTag(Retag(h, c[..|c| - 1], t), c[|c| - 1], t)
  }

  lemma {:induction false} RetagAt(h: seq<Hdr>, c: seq<BlockId>, t: Tag, b: BlockId)
    requires InRange(c, |h|) && b < |h|
    ensures Retag(h, c, t)[b] == if b in c then h[b].(tag := t) else h[b]
  {
    if c != [] {
      RetagAt(h, c[..|c| - 1], t, b);
      assert c == c[..|c| - 1] + [c[|c| - 1]];
    }
  }

  lemma RetagStep(h: seq<Hdr>, c: seq<BlockId>, i: nat, was: Tag, t: Tag)
    requires Linked(h, c, was) && i < |c|
    ensures Retag(h, c[..i], t)[c[i]] == Hdr(was, PrevIn(c, i), NextIn(c, i))
    ensures Retag(h, c[..i + 1], t) == SetTag(Retag(h, c[..i], t), c[i], t)
  {
    LinkedNoDup(h, c, was);
    assert h[c[i]].tag == was;
    RetagAt(h, c[..i], t, c[i]);
    assert c[..i + 1][..i] == c[..i];
  }

  /** Separate c[..k] from c[k..]. */
  function CutAt(h: seq<Hdr>, c: seq<BlockId>, k: nat): (r: seq<Hdr>)
    requires InRange(c, |h|) && k <= |c|
    ensures |r| == |h|
  {
    if 0 < k < |c| then SetNext(SetPrev(h, c[k], 0), c[k - 1], 0) else h
  }

  /** Link the tail of a to the head of b. */
  function Attach(h: seq<Hdr>, a: seq<BlockId>, b: seq<BlockId>): (r: seq<Hdr>)
    requires InRange(a, |h|) && InRange(b, |h|)
    ensures |r| == |h|
  {
    if a == [] || b == [] then h else SetPrev(SetNext(h, a[|a| - 1], b[0]), b[0], a[|a| - 1])
  }

  /** Move the whole list of `from` (renamed, possibly retagged) to owner `to`. */
  function Rename(s: Store, from: Owner, to: Owner): Store
    requires from in s.lists
  {
    var c := s.lists[from];
    Store((s.lists - {from})[to := c],
          seq(|s.owner|, b requires 0 <= b < |s.owner| => if s.owner[b] == from then to else s.owner[b]))
  }

  /** c[..k] and c[k..] part: `to` gets the front or the back, o keeps the other. */
  function Split(s: Store, o: Owner, k: nat, to: Owner, front: bool): Store
    requires o in s.lists && k <= |s.lists[o]|
  {
    var c := s.lists[o];
    if front then HandOver(s, o, c[k..], to, c[..k]) else HandOver(s, o, c[..k], to, c[k..])
  }

  function HandOver(s: Store, o: Owner, kept: seq<BlockId>, to: Owner, gone: seq<BlockId>): Store {
    Store(s.lists[o := kept][to := gone],
          seq(|s.owner|, b requires 0 <= b < |s.owner| => if b in gone then to else s.owner[b]))
  }

  /** from's list joins o's, before it or behind it; from disappears. */
  function Merge(s: Store, o: Owner, from: Owner, front: bool): Store
    requires o in s.lists && from in s.lists && o != from
  {
    TakeOver(s, o, from, if front then s.lists[from] + s.lists[o] else s.lists[o] + s.lists[from])
  }

  function TakeOver(s: Store, o: Owner, from: Owner, c: seq<BlockId>): Store {
    Store((s.lists - {from})[o := c],
          seq(|s.owner|, b requires 0 <= b < |s.owner| => if s.owner[b] == from then o else s.owner[b]))
  }

  function AddEmpty(s: Store, o: Owner): Store {
    s.(lists := s.lists[o := []])
  }

  function Drop(s: Store, o: Owner): Store {
    s.(lists := s.lists - {o})
  }

  lemma OtherListUntouched(h: seq<Hdr>, h': seq<Hdr>, s: Store, o: Owner)
    requires StoreOk(h, s) && o in s.lists && |h'| == |h|
    requires forall b | 0 < b < |h| && s.owner[b] == o :: h'[b] == h[b]
    ensures Linked(h', s.lists[o], TagOf(o))
  {
    var c := s.lists[o];
    assert OwnedBy(s, o);
    forall i {:trigger h'[c[i]]} | 0 <= i < |c| ensures h'[c[i]] == h[c[i]] {
      assert s.owner[c[i]] == o;
    }
  }

  // ----- splitting -----

  lemma LinkedCut(h: seq<Hdr>, c: seq<BlockId>, k: nat, t: Tag)
    requires Linked(h, c, t) && k <= |c|
    ensures Linked(CutAt(h, c, k), c[..k], t) && Linked(CutAt(h, c, k), c[k..], t)
  {
    LinkedNoDup(h, c, t);
    var h', a, b := CutAt(h, c, k), c[..k], c[k..];
    forall i {:trigger h'[a[i]]} | 0 <= i < |a| ensures h'[a[i]] == Hdr(t, PrevIn(a, i), NextIn(a, i)) {
      assert a[i] == c[i] && h[c[i]].tag == t;
    }
    forall i {:trigger h'[b[i]]} | 0 <= i < |b| ensures h'[b[i]] == Hdr(t, PrevIn(b, i), NextIn(b, i)) {
      assert b[i] == c[k + i] && h[c[k + i]].tag == t;
    }
  }

  lemma HandOverPartition(s: Store, n: nat, o: Owner, kept: seq<BlockId>, to: Owner, gone: seq<BlockId>)
    requires Partition(s, n) && o in s.lists && to !in s.lists && to != Nobody
    requires forall x :: x in s.lists[o] <==> x in kept || x in gone
    requires forall x | x in kept :: x !in gone
    ensures Partition(HandOver(s, o, kept, to, gone), n)
  {
    var s' := HandOver(s, o, kept, to, gone);
    assert OwnedBy(s, o);
    forall p | p in s'.lists ensures OwnedBy(s', p) {
      if p != o && p != to {
        assert OwnedBy(s, p);
      } else {
        forall i | 0 <= i < |s'.lists[p]| ensures 0 < s'.lists[p][i] < n && s'.owner[s'.lists[p][i]] == p {
          assert s'.lists[p][i] in s.lists[o];
        }
      }
    }
    forall b | 0 < b < n ensures s'.owner[b] in s'.lists && b in s'.lists[s'.owner[b]] {
      assert b in s.lists[s.owner[b]];
    }
  }

  lemma SplitPartition(s: Store, n: nat, o: Owner, k: nat, to: Owner, front: bool)
    requires Partition(s, n) && o in s.lists && to !in s.lists && to != Nobody
    requires k <= |s.lists[o]| && NoDup(s.lists[o])
    ensures Partition(Split(s, o, k, to, front), n)
  {
    hide Partition, HandOver;
    var c := s.lists[o];
    assert c == c[..k] + c[k..];
    if front {
      HandOverPartition(s, n, o, c[k..], to, c[..k]);
    } else {
      HandOverPartition(s, n, o, c[..k], to, c[k..]);
    }
  }

  lemma SplitLists(s: Store, o: Owner, k: nat, to: Owner, front: bool)
    requires o in s.lists && k <= |s.lists[o]|
    ensures Split(s, o, k, to, front).lists ==
            (var c := s.lists[o];
             if front then s.lists[o := c[k..]][to := c[..k]] else s.lists[o := c[..k]][to := c[k..]])
  {
  }

  lemma CutOthers(h: seq<Hdr>, s: Store, o: Owner, k: nat, p: Owner)
    requires StoreOk(h, s) && o in s.lists && p in s.lists && p != o && k <= |s.lists[o]|
    ensures InRange(s.lists[o], |h|) && Linked(CutAt(h, s.lists[o], k), s.lists[p], TagOf(p))
  {
    hide Linked;
    var c := s.lists[o];
    assert OwnedBy(s, o);
    OtherListUntouched(h, CutAt(h, c, k), s, p);
  }

  /** Cutting a list in two keeps every block owned and every list linked. */
  lemma SplitOk(h: seq<Hdr>, s: Store, o: Owner, k: nat, to: Owner, front: bool)
    requires StoreOk(h, s) && o in s.lists && to !in s.lists && to != Nobody
    requires k <= |s.lists[o]| && TagOf(to) == TagOf(o)
    ensures InRange(s.lists[o], |h|) && StoreOk(CutAt(h, s.lists[o], k), Split(s, o, k, to, front))
  {
    hide Split, CutAt, Linked, Partition;
    var c, s' := s.lists[o], Split(s, o, k, to, front);
    LinkedNoDup(h, c, TagOf(o));
    LinkedInRange(h, c, TagOf(o));
    LinkedCut(h, c, k, TagOf(o));
    SplitPartition(s, |h|, o, k, to, front);
    SplitLists(s, o, k, to, front);
    forall p | p in s'.lists ensures Linked(CutAt(h, c, k), s'.lists[p], TagOf(p)) {
      if p != o && p != to {
        CutOthers(h, s, o, k, p);
      }
    }
  }

  lemma LinkedAt(h: seq<Hdr>, c: seq<BlockId>, t: Tag, i: nat)
    requires Linked(h, c, t) && i < |c|
    ensures 0 < c[i] < |h| && h[c[i]] == Hdr(t, PrevIn(c, i), NextIn(c, i))
  {
    assert h[c[i]].tag == t;
  }

  lemma ListInRange(h: seq<Hdr>, s: Store, o: Owner)
    requires StoreOk(h, s) && o in s.lists
    ensures InRange(s.lists[o], |h|)
  {
  }

  lemma ListLinked(h: seq<Hdr>, s: Store, o: Owner)
    requires StoreOk(h, s) && o in s.lists
    ensures Linked(h, s.lists[o], TagOf(o))
  {
  }

  lemma LinkedInRange(h: seq<Hdr>, c: seq<BlockId>, t: Tag)
    requires Linked(h, c, t)
    ensures InRange(c, |h|)
  {
  }

  // ----- joining -----

  lemma LinkedAttach(h: seq<Hdr>, a: seq<BlockId>, b: seq<BlockId>, t: Tag)
    requires Linked(h, a, t) && Linked(h, b, t)
    requires forall i, j | 0 <= i < |a| && 0 <= j < |b| :: a[i] != b[j]
    ensures Linked(Attach(h, a, b), a + b, t)
  {
    LinkedNoDup(h, a, t);
    LinkedNoDup(h, b, t);
    var h', c := Attach(h, a, b), a + b;
    forall i {:trigger h'[c[i]]} | 0 <= i < |c| ensures h'[c[i]] == Hdr(t, PrevIn(c, i), NextIn(c, i)) {
      if i < |a| {
        assert c[i] == a[i] && h[a[i]].tag == t;
      } else {
        assert c[i] == b[i - |a|] && h[b[i - |a|]].tag == t;
      }
    }
  }

  lemma TakeOverPartition(s: Store, n: nat, o: Owner, from: Owner, c: seq<BlockId>)
    requires Partition(s, n) && o in s.lists && from in s.lists && o != from
    requires from != FreeList && from != DirChain
    requires forall x :: x in c <==> x in s.lists[o] || x in s.lists[from]
    ensures Partition(TakeOver(s, o, from, c), n)
  {
    var s' := TakeOver(s, o, from, c);
    TakenOver(s, n, o, from, c);
    forall p | p in s'.lists && p != o ensures OwnedBy(s', p) {
      assert OwnedBy(s, p);
    }
    forall b | 0 < b < n ensures s'.owner[b] in s'.lists && b in s'.lists[s'.owner[b]] {
      assert b in s.lists[s.owner[b]];
    }
    hide OwnedBy;
  }

  lemma TakenOver(s: Store, n: nat, o: Owner, from: Owner, c: seq<BlockId>)
    requires Partition(s, n) && o in s.lists && from in s.lists && o != from
    requires forall x :: x in c <==> x in s.lists[o] || x in s.lists[from]
    ensures OwnedBy(TakeOver(s, o, from, c), o)
  {
    assert OwnedBy(s, o) && OwnedBy(s, from);
    forall i | 0 <= i < |c| ensures 0 < c[i] < n && (s.owner[c[i]] == o || s.owner[c[i]] == from) {
      assert c[i] in c;
    }
  }

  lemma MergePartition(s: Store, n: nat, o: Owner, from: Owner, front: bool)
    requires Partition(s, n) && o in s.lists && from in s.lists && o != from
    requires from != FreeList && from != DirChain
    ensures Partition(Merge(s, o, from, front), n)
  {
    hide Partition, TakeOver;
    if front {
      TakeOverPartition(s, n, o, from, s.lists[from] + s.lists[o]);
    } else {
      TakeOverPartition(s, n, o, from, s.lists[o] + s.lists[from]);
    }
  }

  lemma MergeLists(s: Store, o: Owner, from: Owner, front: bool)
    requires o in s.lists && from in s.lists && o != from
    ensures Merge(s, o, from, front).lists ==
            (s.lists - {from})[o := if front then s.lists[from] + s.lists[o] else s.lists[o] + s.lists[from]]
  {
  }

  lemma OwnersDisjoint(s: Store, n: nat, o: Owner, p: Owner)
    requires Partition(s, n) && o in s.lists && p in s.lists && o != p
    ensures forall i, j | 0 <= i < |s.lists[o]| && 0 <= j < |s.lists[p]| :: s.lists[o][i] != s.lists[p][j]
  {
    assert OwnedBy(s, o) && OwnedBy(s, p);
    forall i, j | 0 <= i < |s.lists[o]| && 0 <= j < |s.lists[p]| ensures s.lists[o][i] != s.lists[p][j] {
      assert s.owner[s.lists[o][i]] == o;
    }
  }

  lemma AttachOthers(h: seq<Hdr>, s: Store, o: Owner, from: Owner, p: Owner)
    requires StoreOk(h, s) && o in s.lists && from in s.lists && p in s.lists && p != o && p != from
    ensures InRange(s.lists[o], |h|) && InRange(s.lists[from], |h|)
    ensures Linked(Attach(h, s.lists[o], s.lists[from]), s.lists[p], TagOf(p))
  {
    hide Linked;
    assert OwnedBy(s, o) && OwnedBy(s, from);
    OtherListUntouched(h, Attach(h, s.lists[o], s.lists[from]), s, p);
  }

  /** Linking one list before or behind another keeps every block owned and every list linked. */
  lemma MergeOk(h: seq<Hdr>, s: Store, o: Owner, from: Owner, front: bool)
    requires StoreOk(h, s) && o in s.lists && from in s.lists && o != from
    requires from != FreeList && from != DirChain && TagOf(from) == TagOf(o)
    ensures InRange(s.lists[o], |h|) && InRange(s.lists[from], |h|)
    ensures var a, b := s.lists[o], s.lists[from];
            StoreOk(if front then Attach(h, b, a) else Attach(h, a, b), Merge(s, o, from, front))
  {
    hide Merge, Attach, Linked, Partition;
    var x, y := if front then from else o, if front then o else from;
    var s' := Merge(s, o, from, front);
    MergeLists(s, o, from, front);
    MergePartition(s, |h|, o, from, front);
    OwnersDisjoint(s, |h|, x, y);
    LinkedInRange(h, s.lists[o], TagOf(o));
    LinkedInRange(h, s.lists[from], TagOf(from));
    LinkedAttach(h, s.lists[x], s.lists[y], TagOf(o));
    forall p | p in s'.lists ensures Linked(Attach(h, s.lists[x], s.lists[y]), s'.lists[p], TagOf(p)) {
      if p != o {
        AttachOthers(h, s, x, y, p);
      }
    }
  }

  // ----- renaming and retagging -----

  lemma RenamePartition(s: Store, n: nat, from: Owner, to: Owner)
    requires Partition(s, n) && from in s.lists && to !in s.lists && to != Nobody
    requires from != FreeList && from != DirChain
    ensures Partition(Rename(s, from, to), n)
  {
    var s' := Rename(s, from, to);
    forall p | p in s'.lists ensures OwnedBy(s', p) {
      assert OwnedBy(s, if p == to then from else p);
    }
  }

  lemma RetagLinked(h: seq<Hdr>, c: seq<BlockId>, t: Tag, t': Tag)
    requires Linked(h, c, t)
    ensures Linked(Retag(h, c, t'), c, t')
  {
    var h' := Retag(h, c, t');
    forall i {:trigger h'[c[i]]} | 0 <= i < |c| ensures h'[c[i]] == Hdr(t', PrevIn(c, i), NextIn(c, i)) {
      RetagAt(h, c, t', c[i]);
      assert h[c[i]].tag == t;
    }
  }

  /** Changing the type of every block of one list, and its owner with it. */
  lemma RetagOk(h: seq<Hdr>, s: Store, from: Owner, to: Owner)
    requires StoreOk(h, s) && from in s.lists && to !in s.lists && to != Nobody
    requires from != FreeList && from != DirChain
    ensures InRange(s.lists[from], |h|)
    ensures StoreOk(Retag(h, s.lists[from], TagOf(to)), Rename(s, from, to))
  {
    var c := s.lists[from];
    var h', s' := Retag(h, c, TagOf(to)), Rename(s, from, to);
    RenamePartition(s, |h|, from, to);
    RetagLinked(h, c, TagOf(from), TagOf(to));
    assert OwnedBy(s, from);
    forall b | 0 < b < |h| && s.owner[b] != from ensures h'[b] == h[b] {
      RetagAt(h, c, TagOf(to), b);
    }
    forall p | p in s'.lists ensures Linked(h', s'.lists[p], TagOf(p)) {
      if p != to {
        OtherListUntouched(h, h', s, p);
      }
    }
  }

  // ----- the allocator's two operations -----

  /** The first n free blocks become a chain of their own, tagged t. */
  function AllocHdrs(h: seq<Hdr>, free: seq<BlockId>, n: nat, t: Tag): (r: seq<Hdr>)
    requires InRange(free, |h|) && n <= |free|
    ensures |r| == |h|
  {
    Retag(CutAt(h, free, n), free[..n], t)
  }

  function AllocStore(s: Store, n: nat, t: Tag): Store
    requires FreeList in s.lists && n <= |s.lists[FreeList]|
  {
    Rename(Split(s, FreeList, n, Transit(FreeTag), true), Transit(FreeTag), Transit(t))
  }

  type Lists = map<Owner, seq<BlockId>>

  function Allocated(l: Lists, n: nat, t: Tag): Lists
    requires FreeList in l && n <= |l[FreeList]|
  {
    l[FreeList := l[FreeList][n..]][Transit(t) := l[FreeList][..n]]
  }

  lemma AllocLists(s: Store, n: nat, t: Tag)
    requires FreeList in s.lists && n <= |s.lists[FreeList]|
    requires Transit(FreeTag) !in s.lists && t != FreeTag
    ensures AllocStore(s, n, t).lists == Allocated(s.lists, n, t)
  {
  }

  lemma AllocOk(h: seq<Hdr>, s: Store, n: nat, t: Tag)
    requires StoreOk(h, s) && n <= |s.lists[FreeList]| && t != FreeTag
    requires Transit(FreeTag) !in s.lists && Transit(t) !in s.lists
    ensures InRange(s.lists[FreeList], |h|)
    ensures StoreOk(AllocHdrs(h, s.lists[FreeList], n, t), AllocStore(s, n, t))
  {
    SplitOk(h, s, FreeList, n, Transit(FreeTag), true);
    var s1 := Split(s, FreeList, n, Transit(FreeTag), true);
    RetagOk(CutAt(h, s.lists[FreeList], n), s1, Transit(FreeTag), Transit(t));
  }

  /** c[k..] is cut off c, retagged free and put before the free list. */
  function FreeHdrs(h: seq<Hdr>, c: seq<BlockId>, k: nat, free: seq<BlockId>): (r: seq<Hdr>)
    requires InRange(c, |h|) && InRange(free, |h|) && k <= |c|
    ensures |r| == |h|
  {
    Attach(Retag(CutAt(h, c, k), c[k..], FreeTag), c[k..], free)
  }

  function FreeStore(s: Store, o: Owner, k: nat): Store
    requires FreeList in s.lists && o in s.lists && k <= |s.lists[o]| && o != FreeList
  {
    var s1 := Split(s, o, k, Transit(FileTag), false);
    Merge(Rename(s1, Transit(FileTag), Transit(FreeTag)), FreeList, Transit(FreeTag), true)
  }

  function Freed(l: Lists, o: Owner, k: nat): Lists
    requires FreeList in l && o in l && k <= |l[o]|
  {
    l[o := l[o][..k]][FreeList := l[o][k..] + l[FreeList]]
  }

  lemma FreeLists(s: Store, o: Owner, k: nat)
    requires FreeList in s.lists && o in s.lists && k <= |s.lists[o]| && o.FileChain?
    requires Transit(FreeTag) !in s.lists && Transit(FileTag) !in s.lists
    ensures FreeStore(s, o, k).lists == Freed(s.lists, o, k)
  {
  }

  lemma FreeOk(h: seq<Hdr>, s: Store, o: Owner, k: nat)
    requires StoreOk(h, s) && o in s.lists && o.FileChain? && k <= |s.lists[o]|
    requires Transit(FreeTag) !in s.lists && Transit(FileTag) !in s.lists
    ensures InRange(s.lists[o], |h|) && InRange(s.lists[FreeList], |h|)
    ensures StoreOk(FreeHdrs(h, s.lists[o], k, s.lists[FreeList]), FreeStore(s, o, k))
  {
    var c, free := s.lists[o], s.lists[FreeList];
    assert OwnedBy(s, FreeList);
    SplitOk(h, s, o, k, Transit(FileTag), false);
    var h1, s1 := CutAt(h, c, k), Split(s, o, k, Transit(FileTag), false);
    RetagOk(h1, s1, Transit(FileTag), Transit(FreeTag));
    var h2, s2 := Retag(h1, c[k..], FreeTag), Rename(s1, Transit(FileTag), Transit(FreeTag));
    assert s2.lists[FreeList] == free && s2.lists[Transit(FreeTag)] == c[k..];
    MergeOk(h2, s2, FreeList, Transit(FreeTag), true);
  }

  lemma AllocateResult(h: seq<Hdr>, s: Store, n: nat, t: Tag) returns (s': Store)
    requires StoreOk(h, s) && n <= |s.lists[FreeList]| && t != FreeTag
    requires Transit(FreeTag) !in s.lists && Transit(t) !in s.lists
    ensures InRange(s.lists[FreeList], |h|) && StoreOk(AllocHdrs(h, s.lists[FreeList], n, t), s')
    ensures s'.lists == Allocated(s.lists, n, t)
  {
    s' := AllocStore(s, n, t);
    AllocLists(s, n, t);
    AllocOk(h, s, n, t);
  }

  lemma FreeResult(h: seq<Hdr>, s: Store, o: Owner, k: nat) returns (s': Store)
    requires StoreOk(h, s) && o in s.lists && o.FileChain? && k <= |s.lists[o]|
    requires Transit(FreeTag) !in s.lists && Transit(FileTag) !in s.lists
    ensures InRange(s.lists[o], |h|) && InRange(s.lists[FreeList], |h|)
    ensures StoreOk(FreeHdrs(h, s.lists[o], k, s.lists[FreeList]), s')
    ensures s'.lists == Freed(s.lists, o, k)
  {
    s' := FreeStore(s, o, k);
    FreeLists(s, o, k);
    FreeOk(h, s, o, k);
  }

  function Attached(l: Lists, o: Owner, from: Owner): Lists
    requires o in l && from in l
  {
    (l - {from})[o := l[o] + l[from]]
  }

  /** A chain in transit is linked behind list o. */
  lemma AttachResult(h: seq<Hdr>, s: Store, o: Owner, t: Tag) returns (s': Store)
    requires StoreOk(h, s) && o in s.lists && Transit(t) in s.lists && o != Transit(t) && TagOf(o) == t
    ensures InRange(s.lists[o], |h|) && InRange(s.lists[Transit(t)], |h|)
    ensures StoreOk(Attach(h, s.lists[o], s.lists[Transit(t)]), s')
    ensures s'.lists == Attached(s.lists, o, Transit(t))
  {
    MergeOk(h, s, o, Transit(t), false);
    s' := Merge(s, o, Transit(t), false);
  }

  lemma AddEmptyOk(h: seq<Hdr>, s: Store, o: Owner)
    requires StoreOk(h, s) && o !in s.lists && o != Nobody
    ensures StoreOk(h, AddEmpty(s, o))
  {
    var s' := AddEmpty(s, o);
    forall p | p in s'.lists ensures OwnedBy(s', p) && Linked(h, s'.lists[p], TagOf(p)) {
      if p != o {
        assert OwnedBy(s, p);
      }
    }
  }

  lemma DropOk(h: seq<Hdr>, s: Store, o: Owner)
    requires StoreOk(h, s) && o.FileChain? && s.List(o) == []
    ensures StoreOk(h, Drop(s, o))
  {
    var s' := Drop(s, o);
    forall p | p in s'.lists ensures OwnedBy(s', p) && Linked(h, s'.lists[p], TagOf(p)) {
      assert OwnedBy(s, p);
    }
    forall b | 0 < b < |h| ensures s'.owner[b] in s'.lists {
      assert b in s.lists[s.owner[b]];
    }
  }

  /** The front of the free list stays linked when it is cut off. */
  lemma AllocSteps(h: seq<Hdr>, s: Store, n: nat)
    requires StoreOk(h, s) && n <= |s.lists[FreeList]|
    ensures Linked(h, s.lists[FreeList], FreeTag) && InRange(s.lists[FreeList], |h|)
    ensures Linked(CutAt(h, s.lists[FreeList], n), s.lists[FreeList][..n], FreeTag)
  {
    hide CutAt;
    LinkedCut(h, s.lists[FreeList], n, FreeTag);
  }

  /** The chain being freed stays linked through the steps of freeBlocks. */
  lemma FreeSteps(h: seq<Hdr>, s: Store, o: Owner, k: nat)
    requires StoreOk(h, s) && o in s.lists && o.FileChain? && k <= |s.lists[o]|
    ensures Linked(h, s.lists[o], FileTag) && InRange(s.lists[o], |h|) && InRange(s.lists[FreeList], |h|)
    ensures var c := s.lists[o];
            && Linked(CutAt(h, c, k), c[k..], FileTag)
            && Linked(Retag(CutAt(h, c, k), c[k..], FreeTag), c[k..], FreeTag)
  {
    hide CutAt, Retag;
    LinkedCut(h, s.lists[o], k, FileTag);
    RetagLinked(CutAt(h, s.lists[o], k), s.lists[o][k..], FileTag, FreeTag);
  }

  function Completed(l: Lists, o: Owner, all: seq<BlockId>): Lists {
    (l - {Transit(FileTag)})[o := all]
  }

  /** all is o's chain, or will be once the chain in transit from newHead is linked to it. */
  ghost predicate Pending(l: Lists, o: Owner, all: seq<BlockId>, newHead: BlockId) {
    && o.FileChain? && o in l && l[o] != []
    && if newHead == 0 then Transit(FileTag) !in l && all == l[o]
       else Transit(FileTag) in l && l[Transit(FileTag)] != [] && newHead == l[Transit(FileTag)][0]
            && all == l[o] + l[Transit(FileTag)]
  }

  // ----- formatting -----

  function FormattedHdr(b: BlockId, n: nat): Hdr
    requires 0 < b < n
  {
    Hdr(FreeTag, b - 1, if b + 1 == n then 0 else b + 1)
  }

  /** All blocks on the free list, in order. */
  ghost function Formatted(n: nat): Store
    requires n > 1
  {
    Store(map[FreeList := seq(n - 1, i => i + 1), DirChain := []], seq(n, b => if b == 0 then Nobody else FreeList))
  }

  lemma FormattedOk(h: seq<Hdr>)
    requires |h| > 1 && forall b | 1 <= b < |h| :: h[b] == FormattedHdr(b, |h|)
    ensures StoreOk(h, Formatted(|h|))
  {
    FormattedPartition(|h|);
    FormattedLinks(h, Formatted(|h|).lists[FreeList]);
    hide Partition;
  }

  lemma FormattedPartition(n: nat)
    requires n > 1
    ensures Partition(Formatted(n), n)
  {
    var s := Formatted(n);
    assert OwnedBy(s, FreeList) && OwnedBy(s, DirChain);
    forall b | 0 < b < n ensures b in s.lists[FreeList] {
      assert s.lists[FreeList][b - 1] == b;
    }
  }

  lemma FormattedLinks(h: seq<Hdr>, c: seq<BlockId>)
    requires |h| > 1 && forall b | 1 <= b < |h| :: h[b] == FormattedHdr(b, |h|)
    requires |c| == |h| - 1 && forall i | 0 <= i < |c| :: c[i] == i + 1
    ensures Linked(h, c, FreeTag)
  {
  }

  lemma TransferFacts(h: seq<Hdr>, s: Store, o: Owner, c: seq<BlockId>, new_: seq<BlockId>)
    requires StoreOk(h, s) && o.FileChain? && o in s.lists && c == s.lists[o]
    requires new_ == [] || (Transit(FileTag) in s.lists && new_ == s.lists[Transit(FileTag)])
    ensures Linked(h, c, FileTag) && InRange(c, |h|) && InRange(c + new_, |h|) && NoDup(c + new_)
    ensures new_ != [] ==> Linked(h, new_, FileTag)
  {
    LinkedNoDup(h, c, FileTag);
    if new_ != [] {
      LinkedNoDup(h, new_, FileTag);
      OwnersDisjoint(s, |h|, o, Transit(FileTag));
    } else {
      assert c + new_ == c;
    }
  }

  /** A list of one block has no neighbours. */
  lemma LoneBlock(h: seq<Hdr>, s: Store, o: Owner, id: BlockId)
    requires StoreOk(h, s) && o in s.lists && s.lists[o] == [id]
    ensures 0 < id < |h| && h[id] == Hdr(TagOf(o), 0, 0)
    ensures forall p | p in s.lists && p != o :: id !in s.lists[p]
  {
    LinkedAt(h, s.lists[o], TagOf(o), 0);
    forall p | p in s.lists && p != o ensures id !in s.lists[p] {
      OwnersDisjoint(s, |h|, o, p);
    }
  }

  lemma FormattedLists(n: nat)
    requires n > 1
    ensures var l := Formatted(n).lists;
            FreeList in l && DirChain in l && Head(l[FreeList]) == 1 && Head(l[DirChain]) == 0
  {
  }

  lemma FreePositive(h: seq<Hdr>, s: Store)
    requires StoreOk(h, s)
    ensures s.lists[FreeList] != [] ==> s.lists[FreeList][0] != 0
  {
    assert OwnedBy(s, FreeList);
  }
}
