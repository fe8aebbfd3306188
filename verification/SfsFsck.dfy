/** The consistency checker: it walks every list of an image once, marking blocks
    in a block map, and accepts exactly the consistent images. */
module SfsFsck {
  import opened SfsChains
  import opened SfsRep
  import opened Buffers
  import Spec = SfsSpec

  /** An arbitrary image: whether the magic number and the recorded size match,
      the superblock's list heads, and the header and entry views of all blocks. */
  datatype Image = Image(magicOk: bool, sizeOk: bool, freelist: BlockId, rootdir: BlockId, hdr: seq<Hdr>,
        ents: seq<seq<DirEntry>>)

  ghost predicate Shaped(img: Image) {
    && 0 < |img.hdr| == |img.ents| <= EMPTY_FILE_BLOCK
    && forall b | 0 <= b < |img.ents| :: |img.ents[b]| == ENTRIES
  }

  // ----- what a consistent image is -----

  /** A nonempty name, NUL-terminated and NUL-padded. */
  ghost predicate NameOk(field: NameField) {
    exists m | 0 < m < |field| :: NameEnds(field, m)
  }

  ghost predicate NameEnds(field: string, m: nat) {
    && m < |field|
    && (forall j | 0 <= j < m :: field[j] != '\0')
    && forall j | m <= j < |field| :: field[j] == '\0'
  }

  /** The blocks a file entry must own; 1 for an empty file of the older format. */
  ghost predicate EntryOk(e: DirEntry, c: seq<BlockId>) {
    && NameOk(e.name)
    && if e.first == EMPTY_FILE_BLOCK then e.size == 0 && c == []
       else c != [] && e.first == c[0] && |c| == if e.size == 0 then 1 else Spec.BlocksFor(e.size)
  }

  /** s partitions the blocks into the free list, the directory chain and one
      well-formed chain for each occupied directory slot. */
  ghost predicate Witness(img: Image, s: Store) {
    && img.magicOk && img.sizeOk && StoreOk(img.hdr, s)
    && img.freelist == Head(s.lists[FreeList]) && img.rootdir == Head(s.lists[DirChain])
    && DirShape(img.ents, s.lists[DirChain])
    && (forall o | o in s.lists :: o == FreeList || o == DirChain || o.FileChain?)
    && (forall k {:trigger FileChain(k)} | 0 <= k < ENTRIES * (|s.lists[DirChain]| + 1) ::
          var e := EntryAt(img.ents, s.lists[DirChain], k);
          if e.first == 0 then FileChain(k) !in s.lists
             else FileChain(k) in s.lists && EntryOk(e, s.lists[FileChain(k)]))
    && (forall k: nat {:trigger FileChain(k)} :: FileChain(k) in s.lists ==> k < ENTRIES * (|s.lists[DirChain]| + 1))
  }

  ghost predicate ConsistentImage(img: Image) {
    exists s :: Witness(img, s)
  }

  // ----- following a list -----

  /** path follows the next pointers from first; cur comes after it. */
  ghost predicate IsPath(h: seq<Hdr>, first: BlockId, path: seq<BlockId>, cur: BlockId) {
    && InRange(path, |h|)
    && (path == [] ==> cur == first)
    && (path != [] ==> path[0] == first && h[path[|path| - 1]].next == cur)
    && forall i {:trigger h[path[i]]} | 0 <= i < |path| - 1 :: h[path[i]].next == path[i + 1]
  }

  /** Every well-formed list from first begins with the path. */
  lemma {:induction false} PathIsPrefix(h: seq<Hdr>, first: BlockId, path: seq<BlockId>, cur: BlockId, c: seq<BlockId>,
          t: Tag)
    requires IsPath(h, first, path, cur) && Linked(h, c, t) && Head(c) == first
    ensures path <= c && cur == if |path| == |c| then 0 else c[|path|]
  {
    if path != [] {
      var n := |path| - 1;
      PathIsPrefix(h, first, path[..n], path[n], c, t);
      assert c[n] == path[n];
      LinkedAt(h, c, t, n);
    }
  }

  /** A list is determined by its head. */
  lemma ListUnique(h: seq<Hdr>, c: seq<BlockId>, t: Tag, d: seq<BlockId>, u: Tag)
    requires Linked(h, c, t) && Linked(h, d, u) && Head(c) == Head(d)
    ensures c == d
  {
    LinkedPath(h, c, t);
    PathIsPrefix(h, Head(c), c, 0, d, u);
    assert InRange(d, |h|);
  }

  lemma LinkedPath(h: seq<Hdr>, c: seq<BlockId>, t: Tag)
    requires Linked(h, c, t)
    ensures IsPath(h, Head(c), c, 0)
  {
    forall i {:trigger h[c[i]]} | 0 <= i < |c| ensures h[c[i]].next == NextIn(c, i) {
      LinkedAt(h, c, t, i);
    }
  }

  // ----- the block map -----

  const B_END: nat := 0
  const B_UNVISITED: nat := 1
  const B_CORRUPT: nat := 2
  const B_SUPER: nat := 3
  const B_FREE: nat := 4
  const B_ROOTDIR: nat := 5
  const B_FILE0: nat := 6

  function TypeFor(tag: nat): Tag
    requires tag >= B_FREE
  {
    if tag == B_FREE then FreeTag else if tag == B_ROOTDIR then DirTag else FileTag
  }

  /** c is a list of type t from first that nobody has visited before. */
  ghost predicate FreshList(h: seq<Hdr>, map_: seq<nat>, first: BlockId, t: Tag, c: seq<BlockId>) {
    && Linked(h, c, t) && Head(c) == first && |map_| > |h|
    && forall i | 0 <= i < |c| :: map_[c[i]] == B_UNVISITED
  }

  function Marked(map_: seq<nat>, c: seq<BlockId>, tag: nat): (r: seq<nat>)
    requires InRange(c, |map_|)
    ensures |r| == |map_|
  {
    if c == [] then map_ else Marked(map_, c[..|c| - 1], tag)[c[|c| - 1] := tag]
  }

  lemma {:induction false} MarkedAt(map_: seq<nat>, c: seq<BlockId>, tag: nat, b: BlockId)
    requires InRange(c, |map_|) && b < |map_|
    ensures Marked(map_, c, tag)[b] == if b in c then tag else map_[b]
  {
    if c != [] {
      MarkedAt(map_, c[..|c| - 1], tag, b);
      assert c == c[..|c| - 1] + [c[|c| - 1]];
    }
  }

  ghost function Unvisited(map_: seq<nat>): set<nat> {
    set b | 0 <= b < |map_| && map_[b] == B_UNVISITED
  }

  /** State of the walk along one list: path has been marked, clean says whether
      all its types and back pointers are right. */
  ghost predicate Walking(h: seq<Hdr>, was: seq<nat>, now: seq<nat>, first: BlockId, tag: nat, path: seq<BlockId>,
          prev: BlockId, cur: BlockId, clean: bool)
    requires tag >= B_FREE
  {
    && |was| == |now| == |h| + 1 && IsPath(h, first, path, cur)
    && prev == (if path == [] then 0 else path[|path| - 1])
    && (forall i | 0 <= i < |path| :: was[path[i]] == B_UNVISITED && now[path[i]] != B_UNVISITED)
    && (forall b | 0 <= b < |was| && b !in path :: now[b] == was[b])
    && (clean ==> now == Marked(was, path, tag))
    && (clean <==> Clean(h, path, TypeFor(tag)))
  }

  lemma WalkStart(h: seq<Hdr>, was: seq<nat>, first: BlockId, tag: nat)
    requires tag >= B_FREE && |was| == |h| + 1
    ensures Walking(h, was, was, first, tag, [], 0, first, true)
  {
  }

  lemma WalkStep(h: seq<Hdr>, was: seq<nat>, now: seq<nat>, first: BlockId, tag: nat, path: seq<BlockId>, prev: BlockId,
          cur: BlockId, clean: bool)
    requires tag >= B_FREE && Walking(h, was, now, first, tag, path, prev, cur, clean)
    requires 0 < cur < |h| && now[cur] == B_UNVISITED
    ensures var tagOk, prevOk := h[cur].tag == TypeFor(tag), h[cur].prev == prev;
            var now' := now[cur := if tagOk then tag else B_CORRUPT];
            Walking(h, was, now', first, tag, path + [cur], cur, h[cur].next, clean && tagOk && prevOk)
  {
    hide Marked;
    var p, tagOk := path + [cur], h[cur].tag == TypeFor(tag);
    var now' := now[cur := if tagOk then tag else B_CORRUPT];
    assert p[..|path|] == path && p[|path|] == cur;
    assert clean && tagOk ==> now' == Marked(was, p, tag) by { MarkedStep(was, path, tag, cur, |h|); }
    WalkPath(h, first, path, cur);
    WalkClean(h, path, cur, prev, TypeFor(tag));
    assert cur !in path;
    hide IsPath;
  }

  lemma MarkedStep(map_: seq<nat>, c: seq<BlockId>, tag: nat, b: BlockId, n: nat)
    requires InRange(c, n) && 0 < b < n < |map_|
    ensures InRange(c + [b], |map_|) && Marked(map_, c + [b], tag) == Marked(map_, c, tag)[b := tag]
  {
    assert (c + [b])[..|c|] == c;
  }

  lemma WalkPath(h: seq<Hdr>, first: BlockId, path: seq<BlockId>, cur: BlockId)
    requires IsPath(h, first, path, cur) && 0 < cur < |h|
    ensures IsPath(h, first, path + [cur], h[cur].next)
  {
    var p := path + [cur];
    forall i {:trigger h[p[i]]} | 0 <= i < |p| - 1 ensures h[p[i]].next == p[i + 1] {
      assert p[i] == path[i];
    }
  }

  /** The types and back pointers seen so far are right. */
  ghost predicate Clean(h: seq<Hdr>, path: seq<BlockId>, t: Tag) {
    InRange(path, |h|) && forall i {:trigger h[path[i]]} | 0 <= i < |path| ::
        h[path[i]].tag == t && h[path[i]].prev == PrevIn(path, i)
  }

  lemma WalkClean(h: seq<Hdr>, path: seq<BlockId>, cur: BlockId, prev: BlockId, t: Tag)
    requires InRange(path, |h|) && 0 < cur < |h| && prev == (if path == [] then 0 else path[|path| - 1])
    ensures Clean(h, path + [cur], t) <==> Clean(h, path, t) && h[cur].tag == t && h[cur].prev == prev
  {
    var p := path + [cur];
    forall i | 0 <= i < |path| ensures p[i] == path[i] && PrevIn(p, i) == PrevIn(path, i) {
    }
    assert h[p[|path|]] == h[cur] && PrevIn(p, |path|) == prev;
    assert forall i {:trigger h[path[i]]} | 0 <= i < |path| :: h[p[i]] == h[path[i]];
    if Clean(h, p, t) {
      forall i {:trigger h[path[i]]} | 0 <= i < |path|
             ensures h[path[i]].tag == t && h[path[i]].prev == PrevIn(path, i) {
        assert h[p[i]].tag == t;
      }
    }
  }

  /** The walk came to the end of the list without a finding. */
  lemma WalkDone(h: seq<Hdr>, was: seq<nat>, now: seq<nat>, first: BlockId, tag: nat, path: seq<BlockId>, prev: BlockId)
    requires tag >= B_FREE && Walking(h, was, now, first, tag, path, prev, 0, true)
    ensures FreshList(h, was, first, TypeFor(tag), path)
  {
    forall i {:trigger h[path[i]]} | 0 <= i < |path|
           ensures h[path[i]] == Hdr(TypeFor(tag), PrevIn(path, i), NextIn(path, i)) {
      assert h[path[i]].tag == TypeFor(tag);
      if i < |path| - 1 {
        assert h[path[i]].next == path[i + 1];
      }
    }
  }

  /** The walk met a block out of range or visited before, or ended with a finding. */
  lemma WalkFailed(h: seq<Hdr>, was: seq<nat>, now: seq<nat>, first: BlockId, tag: nat, path: seq<BlockId>,
          prev: BlockId, cur: BlockId, clean: bool, c: seq<BlockId>)
    requires tag >= B_FREE && Walking(h, was, now, first, tag, path, prev, cur, clean)
    requires |h| > 0 && (cur >= |h| || (cur != 0 && now[cur] != B_UNVISITED) || (cur == 0 && !clean))
    ensures !FreshList(h, was, first, TypeFor(tag), c)
  {
    if FreshList(h, was, first, TypeFor(tag), c) {
      PathIsPrefix(h, first, path, cur, c, TypeFor(tag));
      LinkedNoDup(h, c, TypeFor(tag));
      if |path| == |c| {
        assert path == c;
        LinkedClean(h, c, TypeFor(tag));
      }
    }
  }

  lemma LinkedClean(h: seq<Hdr>, c: seq<BlockId>, t: Tag)
    requires Linked(h, c, t)
    ensures Clean(h, c, t)
  {
    forall i {:trigger h[c[i]]} | 0 <= i < |c| ensures h[c[i]].tag == t && h[c[i]].prev == PrevIn(c, i) {
      LinkedAt(h, c, t, i);
    }
  }

  // ----- checking one list -----

  method CheckBlocklist(img: Image, bytemap: Buffer<nat>, first: BlockId, tag: nat)
    returns (status: nat, count: nat, ghost c: seq<BlockId>)
    requires Shaped(img) && bytemap.Valid() && |bytemap.view| == |img.hdr| + 1 && tag >= B_FREE
    modifies bytemap, bytemap.cells
    ensures bytemap.Valid() && |bytemap.view| == |img.hdr| + 1 && status <= 1
    ensures status == 0 ==> FreshList(img.hdr, old(bytemap.view), first, TypeFor(tag), c) && count == |c|
    ensures status == 0 ==> InRange(c, |img.hdr|) && bytemap.view == Marked(old(bytemap.view), c, tag)
    ensures status != 0 ==> forall d :: !FreshList(img.hdr, old(bytemap.view), first, TypeFor(tag), d)
  {
    hide Walking, IsPath, FreshList, Marked;
    ghost var was := bytemap.view;
    WalkStart(img.hdr, was, first, tag);
    var cur: BlockId, prev: BlockId := first, 0;
    status, count, c := 0, 0, [];
    while cur != 0
      invariant bytemap.Valid() && |bytemap.view| == |img.hdr| + 1 && count == |c| && status <= 1
      invariant Walking(img.hdr, was, bytemap.view, first, tag, c, prev, cur, status == 0) == true
      decreases Unvisited(bytemap.view)
    {
      ghost var now := bytemap.view;
      if cur >= |img.hdr| {
        NoList(img.hdr, was, now, first, tag, c, prev, cur, status == 0);
        return 1, count, c;
      }
      var seen := bytemap.Get(cur);
      if seen != B_UNVISITED {
        NoList(img.hdr, was, now, first, tag, c, prev, cur, status == 0);
        return 1, count, c;
      }
      WalkStep(img.hdr, was, now, first, tag, c, prev, cur, status == 0);
      VisitShrinks(now, cur, tag);
      if img.hdr[cur].tag != TypeFor(tag) {
        bytemap.Put(cur, B_CORRUPT);
        status := 1;
      } else {
        bytemap.Put(cur, tag);
      }
      if img.hdr[cur].prev != prev {
        status := 1;
      }
      count := count + 1;
      c := c + [cur];
      prev := cur;
      cur := img.hdr[cur].next;
    }
    Finished(img.hdr, was, bytemap.view, first, tag, c, prev, status == 0);
  }

  lemma VisitShrinks(now: seq<nat>, cur: nat, tag: nat)
    requires cur < |now| && now[cur] == B_UNVISITED && tag != B_UNVISITED
    ensures Unvisited(now[cur := tag]) < Unvisited(now) && Unvisited(now[cur := B_CORRUPT]) < Unvisited(now)
  {
    assert cur in Unvisited(now);
  }

  lemma NoList(h: seq<Hdr>, was: seq<nat>, now: seq<nat>, first: BlockId, tag: nat, path: seq<BlockId>, prev: BlockId,
          cur: BlockId, clean: bool)
    requires tag >= B_FREE && Walking(h, was, now, first, tag, path, prev, cur, clean) && |now| == |h| + 1
    requires |h| > 0 && (cur >= |h| || (cur != 0 && now[cur] != B_UNVISITED) || (cur == 0 && !clean))
    ensures forall d :: !FreshList(h, was, first, TypeFor(tag), d)
  {
    forall d ensures !FreshList(h, was, first, TypeFor(tag), d) {
      WalkFailed(h, was, now, first, tag, path, prev, cur, clean, d);
    }
  }

  lemma Finished(h: seq<Hdr>, was: seq<nat>, now: seq<nat>, first: BlockId, tag: nat, path: seq<BlockId>, prev: BlockId,
          clean: bool)
    requires |h| > 0 && tag >= B_FREE && Walking(h, was, now, first, tag, path, prev, 0, clean) && |now| == |h| + 1
    ensures clean ==>
              FreshList(h, was, first, TypeFor(tag), path) && InRange(path, |h|) && now == Marked(was, path, tag)
    ensures !clean ==> forall d :: !FreshList(h, was, first, TypeFor(tag), d)
  {
    if clean {
      WalkDone(h, was, now, first, tag, path, prev);
    } else {
      NoList(h, was, now, first, tag, path, prev, 0, clean);
    }
  }

  // ----- what has been established so far -----

  /** The lists found so far, and exactly their blocks marked. */
  ghost predicate Partial(h: seq<Hdr>, s: Store, bytemap: seq<nat>) {
    && |bytemap| == |h| + 1 && |s.owner| == |h| && Nobody !in s.lists
    && (forall o | o in s.lists :: OwnedBy(s, o))
    && (forall o | o in s.lists :: Linked(h, s.lists[o], TagOf(o)))
    && (forall b | 0 < b < |h| :: bytemap[b] == B_UNVISITED <==> s.owner[b] == Nobody)
    && (forall b | 0 < b < |h| :: s.owner[b] != Nobody ==> s.owner[b] in s.lists && b in s.lists[s.owner[b]])
  }

  function AddList(s: Store, o: Owner, c: seq<BlockId>): Store {
    Store(s.lists[o := c], seq(|s.owner|, b requires 0 <= b < |s.owner| => if b in c then o else s.owner[b]))
  }

  lemma AddListOk(h: seq<Hdr>, s: Store, bytemap: seq<nat>, o: Owner, c: seq<BlockId>, first: BlockId, tag: nat)
    requires Partial(h, s, bytemap) && o !in s.lists && o != Nobody && tag > B_UNVISITED
    requires FreshList(h, bytemap, first, TagOf(o), c)
    ensures InRange(c, |bytemap|) && Partial(h, AddList(s, o, c), Marked(bytemap, c, tag))
  {
    LinkedInRange(h, c, TagOf(o));
    AddListOwned(h, s, bytemap, o, c);
    AddListMap(h, s, bytemap, o, c, tag);
    AddListPlace(h, s, bytemap, o, c);
    hide OwnedBy, InRange, Marked, Linked;
  }

  lemma AddListMap(h: seq<Hdr>, s: Store, bytemap: seq<nat>, o: Owner, c: seq<BlockId>, tag: nat)
    requires Partial(h, s, bytemap) && InRange(c, |h|) && o != Nobody && tag > B_UNVISITED
    ensures InRange(c, |bytemap|)
    ensures forall b | 0 < b < |h| :: Marked(bytemap, c, tag)[b] == B_UNVISITED <==> AddList(s, o, c).owner[b] == Nobody
  {
    hide Linked, OwnedBy, Marked;
    forall b | 0 < b < |h| ensures Marked(bytemap, c, tag)[b] == B_UNVISITED <==> AddList(s, o, c).owner[b] == Nobody {
      MarkedAt(bytemap, c, tag, b);
    }
  }

  lemma AddListPlace(h: seq<Hdr>, s: Store, bytemap: seq<nat>, o: Owner, c: seq<BlockId>)
    requires Partial(h, s, bytemap) && o !in s.lists
    ensures var s' := AddList(s, o, c);
            forall b | 0 < b < |h| :: s'.owner[b] != Nobody ==> s'.owner[b] in s'.lists && b in s'.lists[s'.owner[b]]
  {
    hide Linked, OwnedBy;
  }

  lemma AddListOwned(h: seq<Hdr>, s: Store, bytemap: seq<nat>, o: Owner, c: seq<BlockId>)
    requires Partial(h, s, bytemap) && o !in s.lists && o != Nobody && InRange(c, |h|)
    requires forall i | 0 <= i < |c| :: bytemap[c[i]] == B_UNVISITED
    ensures forall p | p in AddList(s, o, c).lists :: OwnedBy(AddList(s, o, c), p)
  {
    hide Linked;
    var s' := AddList(s, o, c);
    forall p | p in s'.lists ensures OwnedBy(s', p) {
      if p != o {
        assert OwnedBy(s, p);
        forall i | 0 <= i < |s.lists[p]| ensures s.lists[p][i] !in c {
          assert s.owner[s.lists[p][i]] == p;
        }
      }
    }
  }

  /** Without unvisited blocks the lists partition the image. */
  lemma PartialComplete(h: seq<Hdr>, s: Store, bytemap: seq<nat>)
    requires Partial(h, s, bytemap) && FreeList in s.lists && DirChain in s.lists
    requires forall b | 0 < b < |h| :: bytemap[b] != B_UNVISITED
    ensures StoreOk(h, s)
  {
  }

  /** The lists found so far are those of w. */
  ghost predicate Agree(s: Store, w: Store) {
    forall o | o in s.lists :: o in w.lists && w.lists[o] == s.lists[o]
  }

  /** A list of w that has not been visited yet will be found. */
  lemma NextOfWitness(h: seq<Hdr>, s: Store, bytemap: seq<nat>, w: Store, o: Owner)
    requires Partial(h, s, bytemap) && StoreOk(h, w) && Agree(s, w) && o in w.lists && o !in s.lists
    ensures FreshList(h, bytemap, Head(w.lists[o]), TagOf(o), w.lists[o])
  {
    var c := w.lists[o];
    assert forall q | q in w.lists :: OwnedBy(w, q);
    forall i | 0 <= i < |c| ensures bytemap[c[i]] == B_UNVISITED {
      assert w.owner[c[i]] == o;
    }
  }

  // ----- names -----

  method CheckName(field: NameField) returns (err: bool)
    ensures err <==> !NameOk(field)
  {
    var sawNonnul, sawNul := false, false;
    var j := 0;
    ghost var m: nat := |field|;
    while j < |field|
      invariant j <= |field| && (sawNul <==> m < |field|) && (sawNul ==> m < j && NameEndsBefore(field, m, j))
      invariant !sawNul ==> forall i | 0 <= i < j :: field[i] != '\0'
      invariant sawNonnul <==> (if sawNul then m > 0 else j > 0)
    {
      if field[j] != '\0' {
        if sawNul {
          BadName(field, m, j);
          return true;
        }
        sawNonnul := true;
      } else if !sawNul {
        sawNul, m := true, j;
      }
      j := j + 1;
    }
    err := !sawNonnul || !sawNul;
    if !err {
      assert NameEnds(field, m);
    } else if sawNul {
      forall q | 0 < q < |field| ensures !NameEnds(field, q) {
        assert field[0] == '\0';
      }
    } else {
      forall q | 0 < q < |field| ensures !NameEnds(field, q) {
        assert field[q] != '\0';
      }
    }
  }

  ghost predicate NameEndsBefore(field: string, m: nat, n: nat) {
    && m < n <= |field|
    && (forall j | 0 <= j < m :: field[j] != '\0')
    && forall j | m <= j < n :: field[j] == '\0'
  }

  lemma BadName(field: NameField, m: nat, j: nat)
    requires m < j < |field| && field[m] == '\0' && field[j] != '\0'
    ensures !NameOk(field)
  {
    forall q | 0 < q < |field| ensures !NameEnds(field, q) {
    }
  }

  // ----- the superblock -----

  /** A store a caller compares the image with, if there is any. */
  datatype Want = Nothing | Want(w: Store)

  ghost function TheWitness(img: Image): (r: Want)
    ensures r.Want? <==> ConsistentImage(img)
    ensures r.Want? ==> Witness(img, r.w)
  {
    if ConsistentImage(img) then var w :| Witness(img, w); Want(w) else Nothing
  }

  /** Check a list that belongs to owner o: it is found exactly if w has it. */
  method CheckOwned(img: Image, bytemap: Buffer<nat>, first: BlockId, tag: nat, ghost o: Owner, ghost ok: bool,
          ghost s: Store, ghost want: Want)
    returns (status: nat, count: nat, ghost c: seq<BlockId>)
    requires Shaped(img) && bytemap.Valid() && |bytemap.view| == |img.hdr| + 1 && tag >= B_FREE
    requires o != Nobody && o !in s.lists && TypeFor(tag) == TagOf(o)
    requires ok ==> Partial(img.hdr, s, bytemap.view) == true
    requires want.Want? ==> ok && Agree(s, want.w) == true && StoreOk(img.hdr, want.w) == true
    modifies bytemap, bytemap.cells
    ensures bytemap.Valid() && |bytemap.view| == |img.hdr| + 1 && status <= 1
    ensures status == 0 ==> count == |c| && Linked(img.hdr, c, TagOf(o)) && Head(c) == first
    ensures status == 0 && ok ==> Partial(img.hdr, AddList(s, o, c), bytemap.view) == true
    ensures want.Want? && o in want.w.lists && first == Head(want.w.lists[o]) ==> status == 0 && c == want.w.lists[o]
  {
    hide Partial, Agree, StoreOk, Linked;
    ghost var was := bytemap.view;
    status, count, c := CheckBlocklist(img, bytemap, first, tag);
    if status == 0 {
      FreshLinked(img.hdr, was, first, TagOf(o), c);
    }
    if status == 0 && ok {
      AddListOk(img.hdr, s, was, o, c, first, tag);
    }
    if want.Want? && o in want.w.lists && first == Head(want.w.lists[o]) {
      NextOfWitness(img.hdr, s, was, want.w, o);
      WitnessLinked(img.hdr, want.w, o);
      ListUnique(img.hdr, c, TagOf(o), want.w.lists[o], TagOf(o));
    }
  }

  lemma FreshLinked(h: seq<Hdr>, map_: seq<nat>, first: BlockId, t: Tag, c: seq<BlockId>)
    requires FreshList(h, map_, first, t, c)
    ensures Linked(h, c, t) && Head(c) == first
  {
  }

  lemma WitnessLinked(h: seq<Hdr>, w: Store, o: Owner)
    requires StoreOk(h, w) && o in w.lists
    ensures Linked(h, w.lists[o], TagOf(o))
  {
  }

  // ----- directory entries -----

  /** The lists of the first n slots, besides the free list and the directory. */
  ghost predicate SlotsDone(img: Image, dirs: seq<BlockId>, s: Store, n: nat) {
    && DirShape(img.ents, dirs) && n <= ENTRIES * (|dirs| + 1)
    && FreeList in s.lists && DirChain in s.lists && s.lists[DirChain] == dirs
    && img.freelist == Head(s.lists[FreeList])
    && (forall o | o in s.lists :: o == FreeList || o == DirChain || o.FileChain?)
    && (forall k: nat {:trigger FileChain(k)} :: FileChain(k) in s.lists ==> k < n)
    && (forall k | 0 <= k < n :: SlotDone(EntryAt(img.ents, dirs, k), k, s))
  }

  ghost predicate SlotDone(e: DirEntry, k: nat, s: Store) {
    if e.first == 0 then FileChain(k) !in s.lists else FileChain(k) in s.lists && EntryOk(e, s.lists[FileChain(k)])
  }

  /** Progress of the checker after n slots, if nothing has been found wrong. */
  ghost predicate Checked(img: Image, dirs: seq<BlockId>, s: Store, bytemap: seq<nat>, n: nat) {
    Partial(img.hdr, s, bytemap) && SlotsDone(img, dirs, s, n)
  }

  /** w demands that nothing is found wrong, and has the lists found so far. */
  ghost predicate Follows(img: Image, s: Store, want: Want, ok: bool) {
    want.Want? ==> ok && Agree(s, want.w) && Witness(img, want.w)
  }

  lemma SlotAdded(img: Image, dirs: seq<BlockId>, s: Store, n: nat, c: seq<BlockId>)
    requires SlotsDone(img, dirs, s, n) && n < ENTRIES * (|dirs| + 1)
    requires EntryAt(img.ents, dirs, n).first != 0 && EntryOk(EntryAt(img.ents, dirs, n), c)
    ensures SlotsDone(img, dirs, AddList(s, FileChain(n), c), n + 1)
  {
    hide EntryOk;
    var s' := AddList(s, FileChain(n), c);
    forall k | 0 <= k < n + 1 ensures SlotDone(EntryAt(img.ents, dirs, k), k, s') {
      if k < n {
        assert SlotDone(EntryAt(img.ents, dirs, k), k, s);
      }
    }
  }

  lemma SlotSkipped(img: Image, dirs: seq<BlockId>, s: Store, n: nat)
    requires SlotsDone(img, dirs, s, n) && n < ENTRIES * (|dirs| + 1) && EntryAt(img.ents, dirs, n).first == 0
    ensures SlotsDone(img, dirs, s, n + 1)
  {
    hide EntryOk;
    forall k | 0 <= k < n + 1 ensures SlotDone(EntryAt(img.ents, dirs, k), k, s) {
      if k < n {
        assert SlotDone(EntryAt(img.ents, dirs, k), k, s);
      }
    }
  }

  lemma AgreeAdded(s: Store, w: Store, o: Owner, c: seq<BlockId>)
    requires Agree(s, w) && o in w.lists && w.lists[o] == c
    ensures Agree(AddList(s, o, c), w)
  {
  }

  /** The body of the loop over directory entries, for an occupied entry. */
  method CheckEntry(img: Image, e: DirEntry, bytemap: Buffer<nat>, tag: nat, ghost dirs: seq<BlockId>, ghost k: nat,
          ghost ok: bool, ghost s: Store, ghost want: Want)
    returns (status: nat, ghost s': Store)
    requires Shaped(img) && bytemap.Valid() && |bytemap.view| == |img.hdr| + 1 && tag >= B_FILE0
    requires DirShape(img.ents, dirs) && k < ENTRIES * (|dirs| + 1) && e == EntryAt(img.ents, dirs, k) && e.first != 0
    requires FileChain(k) !in s.lists && (ok ==> Checked(img, dirs, s, bytemap.view, k) == true)
    requires Follows(img, s, want, ok) == true && (want.Want?
               ==> FileChain(k) in want.w.lists && EntryOk(e, want.w.lists[FileChain(k)]))
    modifies bytemap, bytemap.cells
    ensures bytemap.Valid() && |bytemap.view| == |img.hdr| + 1 && status <= 1
    ensures status == 0 && ok ==> Checked(img, dirs, s', bytemap.view, k + 1) == true
    ensures Follows(img, s', want, ok && status == 0) == true
    ensures forall j: nat | j > k :: FileChain(j) in s'.lists ==> FileChain(j) in s.lists
  {
    hide Partial, Agree, StoreOk, Linked, SlotsDone, Witness, NameOk;
    var nameErr := CheckName(e.name);
    var count, listErr: nat := 0, 0;
    ghost var c := [];
    if e.first == EMPTY_FILE_BLOCK {
      listErr := if e.size != 0 then 1 else 0;
      if ok {
        EmptyListOk(img.hdr, s, bytemap.view, FileChain(k));
      }
    } else {
      assert want.Want? ==> StoreOk(img.hdr, want.w) == true by { if want.Want? { WitnessStore(img, want.w); } }
      listErr, count, c := CheckOwned(img, bytemap, e.first, tag, FileChain(k), ok, s, want);
    }
    var expected := if e.size != 0 then (e.size + 499) / 500 else if e.first == EMPTY_FILE_BLOCK then 0 else 1;
    status := if nameErr || listErr != 0 || expected != count then 1 else 0;
    s' := AddList(s, FileChain(k), c);
    if status == 0 && ok {
      SlotAdded(img, dirs, s, k, c);
    }
    if want.Want? {
      AgreeAdded(s, want.w, FileChain(k), want.w.lists[FileChain(k)]);
    }
  }

  lemma WitnessStore(img: Image, w: Store)
    requires Witness(img, w)
    ensures StoreOk(img.hdr, w)
  {
  }

  lemma EmptyListOk(h: seq<Hdr>, s: Store, bytemap: seq<nat>, o: Owner)
    requires Partial(h, s, bytemap) && o !in s.lists && o != Nobody
    ensures Partial(h, AddList(s, o, []), bytemap)
  {
    var s' := AddList(s, o, []);
    assert s'.owner == s.owner;
    forall p | p in s'.lists ensures OwnedBy(s', p) && Linked(h, s'.lists[p], TagOf(p)) {
      if p != o {
        assert OwnedBy(s, p);
      }
    }
  }

  lemma EntryIs(ents: seq<seq<DirEntry>>, dirs: seq<BlockId>, b: nat, i: nat)
    requires DirShape(ents, dirs) && b <= |dirs| && i < ENTRIES
    ensures DirBlock(dirs, b) < |ents| && EntryAt(ents, dirs, ENTRIES * b + i) == ents[DirBlock(dirs, b)][i]
    ensures ENTRIES * b + i < ENTRIES * (|dirs| + 1)
  {
    assert (ENTRIES * b + i) / ENTRIES == b && (ENTRIES * b + i) % ENTRIES == i;
  }

  method CheckDirectoryEntries(img: Image, block: BlockId, bytemap: Buffer<nat>, fileTag: nat,
      ghost dirs: seq<BlockId>, ghost b: nat, ghost ok: bool, ghost s: Store, ghost want: Want)
    returns (status: nat, nextTag: nat, ghost s': Store)
    requires Shaped(img) && bytemap.Valid() && |bytemap.view| == |img.hdr| + 1 && fileTag >= B_FILE0
    requires DirShape(img.ents, dirs) && b <= |dirs| && block == DirBlock(dirs, b)
    requires ok ==> Checked(img, dirs, s, bytemap.view, ENTRIES * b) == true
    requires Follows(img, s, want, ok) == true && (want.Want? ==> want.w.List(DirChain) == dirs)
    requires forall j: nat | j >= ENTRIES * b :: FileChain(j) !in s.lists
    modifies bytemap, bytemap.cells
    ensures bytemap.Valid() && |bytemap.view| == |img.hdr| + 1 && nextTag >= B_FILE0 && status <= 1
    ensures status == 0 && ok ==> Checked(img, dirs, s', bytemap.view, ENTRIES * (b + 1)) == true
    ensures Follows(img, s', want, ok && status == 0) == true
    ensures forall j: nat | j >= ENTRIES * (b + 1) :: FileChain(j) !in s'.lists
  {
    hide Checked, Follows, EntryOk;
    status, nextTag, s' := 0, fileTag, s;
    var i: nat := 0;
    while i < ENTRIES
      invariant i <= ENTRIES && bytemap.Valid() && |bytemap.view| == |img.hdr| + 1 && nextTag >= B_FILE0 && status <= 1
      invariant status == 0 && ok ==> Checked(img, dirs, s', bytemap.view, ENTRIES * b + i) == true
      invariant Follows(img, s', want, ok && status == 0) == true
      invariant forall j: nat | j >= ENTRIES * b + i :: FileChain(j) !in s'.lists
    {
      EntryIs(img.ents, dirs, b, i);
      ghost var k := ENTRIES * b + i;
      var e := img.ents[block][i];
      if e.first == 0 {
        SkipChecked(img, dirs, s', bytemap.view, k, status == 0 && ok);
      } else {
        WantedEntry(img, dirs, s', want, k, status == 0 && ok);
        var bad: nat;
        bad, s' := CheckEntry(img, e, bytemap, nextTag, dirs, k, status == 0 && ok, s', want);
        status := if bad != 0 then 1 else status;
        nextTag := nextTag + 1;
      }
      i := i + 1;
    }
  }

  lemma SkipChecked(img: Image, dirs: seq<BlockId>, s: Store, bytemap: seq<nat>, n: nat, ok: bool)
    requires ok ==> Checked(img, dirs, s, bytemap, n) == true
    requires DirShape(img.ents, dirs) && n < ENTRIES * (|dirs| + 1) && EntryAt(img.ents, dirs, n).first == 0
    ensures ok ==> Checked(img, dirs, s, bytemap, n + 1) == true
  {
    hide Partial, SlotsDone;
    if ok {
      SlotSkipped(img, dirs, s, n);
    }
  }

  lemma WantedEntry(img: Image, dirs: seq<BlockId>, s: Store, want: Want, n: nat, ok: bool)
    requires DirShape(img.ents, dirs) && n < ENTRIES * (|dirs| + 1) && EntryAt(img.ents, dirs, n).first != 0
    requires Follows(img, s, want, ok) && (want.Want? ==> want.w.List(DirChain) == dirs)
    ensures want.Want? ==>
              FileChain(n) in want.w.lists && EntryOk(EntryAt(img.ents, dirs, n), want.w.lists[FileChain(n)])
  {
    hide EntryOk, Agree, EntryAt;
    if want.Want? {
      assert FileChain(n) == FileChain(n);
    }
  }

  method CheckRootDirectory(img: Image, bytemap: Buffer<nat>, ghost dirs: seq<BlockId>, ghost ok: bool, ghost s: Store,
          ghost want: Want)
    returns (status: nat, ghost s': Store)
    requires Shaped(img) && bytemap.Valid() && |bytemap.view| == |img.hdr| + 1
    requires DirShape(img.ents, dirs) && Linked(img.hdr, dirs, DirTag) == true && Head(dirs) == img.rootdir
    requires ok ==> Checked(img, dirs, s, bytemap.view, 0) == true
    requires Follows(img, s, want, ok) == true && (want.Want? ==> want.w.List(DirChain) == dirs)
    requires forall j: nat :: FileChain(j) !in s.lists
    modifies bytemap, bytemap.cells
    ensures bytemap.Valid() && |bytemap.view| == |img.hdr| + 1 && status <= 1
    ensures status == 0 && ok ==> Checked(img, dirs, s', bytemap.view, ENTRIES * (|dirs| + 1)) == true
    ensures Follows(img, s', want, ok && status == 0) == true
  {
    hide Checked, Follows, Linked;
    var fileTag := B_FILE0;
    status, fileTag, s' := CheckDirectoryEntries(img, 0, bytemap, fileTag, dirs, 0, ok, s, want);
    var b := img.rootdir;
    ghost var n: nat := 0;
    while b != 0
      invariant bytemap.Valid() && |bytemap.view| == |img.hdr| + 1 && fileTag >= B_FILE0 && status <= 1
      invariant n <= |dirs| && b == if n == |dirs| then 0 else dirs[n]
      invariant status == 0 && ok ==> Checked(img, dirs, s', bytemap.view, ENTRIES * (n + 1)) == true
      invariant Follows(img, s', want, ok && status == 0) == true
      invariant forall j: nat | j >= ENTRIES * (n + 1) :: FileChain(j) !in s'.lists
      decreases |dirs| - n
    {
      LinkedAt(img.hdr, dirs, DirTag, n);
      var bad: nat;
      bad, fileTag, s' := CheckDirectoryEntries(img, b, bytemap, fileTag, dirs, n + 1, status == 0 && ok, s', want);
      status := if bad != 0 then 1 else status;
      b := img.hdr[b].next;
      n := n + 1;
    }
  }

  method CheckForLostBlocks(img: Image, bytemap: Buffer<nat>) returns (status: nat)
    requires bytemap.Valid() && |bytemap.view| == |img.hdr| + 1
    ensures status == 0 <==> forall b | 0 < b < |img.hdr| :: bytemap.view[b] != B_UNVISITED
  {
    status := 0;
    var i: nat := 1;
    while i < |img.hdr|
      invariant status == 0 <==> forall b | 0 < b < |img.hdr| && b < i :: bytemap.view[b] != B_UNVISITED
    {
      var x := bytemap.Get(i);
      if x == B_UNVISITED {
        status := 1;
      }
      i := i + 1;
    }
  }

  // ----- the verdict -----

  /** Nothing wrong and nothing lost: the lists found are a witness. */
  lemma AllChecked(img: Image, dirs: seq<BlockId>, s: Store, bytemap: seq<nat>)
    requires Checked(img, dirs, s, bytemap, ENTRIES * (|dirs| + 1)) && img.magicOk && img.sizeOk
    requires img.rootdir == Head(dirs)
    requires forall b | 0 < b < |img.hdr| :: bytemap[b] != B_UNVISITED
    ensures ConsistentImage(img)
  {
    hide EntryOk;
    assert StoreOk(img.hdr, s) by {
      PartialComplete(img.hdr, s, bytemap);
    }
    hide Partial, StoreOk;
    forall k {:trigger FileChain(k)} | 0 <= k < ENTRIES * (|dirs| + 1)
           ensures SlotDone(EntryAt(img.ents, dirs, k), k, s) {
    }
    assert Witness(img, s);
  }

  /** In a consistent image every block has been found. */
  lemma NothingLost(img: Image, dirs: seq<BlockId>, s: Store, bytemap: seq<nat>, w: Store)
    requires Checked(img, dirs, s, bytemap, ENTRIES * (|dirs| + 1)) && Witness(img, w) && Agree(s, w)
    ensures forall b | 0 < b < |img.hdr| :: bytemap[b] != B_UNVISITED
  {
    hide EntryOk;
    forall b | 0 < b < |img.hdr| ensures bytemap[b] != B_UNVISITED {
      var o := w.owner[b];
      assert o in w.lists && b in w.lists[o];
      SameLists(img, dirs, s, w, o);
      assert OwnedBy(s, o);
    }
  }

  lemma SameLists(img: Image, dirs: seq<BlockId>, s: Store, w: Store, o: Owner)
    requires SlotsDone(img, dirs, s, ENTRIES * (|dirs| + 1)) && Witness(img, w) && Agree(s, w) && o in w.lists
    ensures o in s.lists && s.lists[o] == w.lists[o]
  {
    hide EntryOk, StoreOk;
    assert w.lists[DirChain] == dirs;
    if o.FileChain? {
      assert FileChain(o.fid) in w.lists;
      assert SlotDone(EntryAt(img.ents, dirs, o.fid), o.fid, s);
    }
  }

  ghost function NoLists(n: nat): Store {
    Store(map[], seq(n, _ => Nobody))
  }

  lemma NoListsOk(h: seq<Hdr>)
    requires |h| > 0
    ensures Partial(h, NoLists(|h|), seq(|h|, b => if b == 0 then B_SUPER else B_UNVISITED) + [B_END])
  {
  }

  method NewBytemap(n: nat) returns (bytemap: Buffer<nat>)
    requires n > 0
    ensures fresh(bytemap) && fresh(bytemap.cells) && bytemap.Valid()
    ensures bytemap.view == seq(n, b => if b == 0 then B_SUPER else B_UNVISITED) + [B_END]
  {
    bytemap := new Buffer(n + 1, B_UNVISITED);
    bytemap.Put(0, B_SUPER);
    bytemap.Put(n, B_END);
  }

  /** Magic number and size, the free list and the directory chain. */
  method CheckSuperblock(img: Image, ghost want: Want)
    returns (status: int, bytemap: Buffer<nat>, ghost dirs: seq<BlockId>, ghost s: Store)
    requires Shaped(img) && (want.Want? ==> Witness(img, want.w) == true)
    ensures fresh(bytemap) && fresh(bytemap.cells) && bytemap.Valid() && |bytemap.view| == |img.hdr| + 1
    ensures want.Want? ==> status == 0
    ensures status == 0 ==>
              img.magicOk && img.sizeOk && DirShape(img.ents, dirs) && Linked(img.hdr, dirs, DirTag)
              && Head(dirs) == img.rootdir
    ensures status == 0 ==> Checked(img, dirs, s, bytemap.view, 0) == true
    ensures status == 0 ==> Follows(img, s, want, true) == true && (want.Want? ==> want.w.List(DirChain) == dirs)
    ensures status == 0 ==> forall j: nat :: FileChain(j) !in s.lists
  {
    hide Witness, StoreOk, Partial, Agree, Linked, Checked, Follows, DirShape;
    bytemap := NewBytemap(|img.hdr|);
    WitnessHeads(img, want);
    dirs, s := [], NoLists(|img.hdr|);
    if !img.magicOk {
      return -1, bytemap, dirs, s;
    }
    if !img.sizeOk {
      return -1, bytemap, dirs, s;
    }
    NoListsOk(img.hdr);
    AgreeNone(|img.hdr|, want);
    ghost var free;
    var bad, count: nat;
    bad, count, free := CheckOwned(img, bytemap, img.freelist, B_FREE, FreeList, true, s, want);
    if bad != 0 {
      return -1, bytemap, dirs, s;
    }
    AgreeWanted(s, want, FreeList, free);
    s := AddList(s, FreeList, free);
    bad, count, dirs := CheckOwned(img, bytemap, img.rootdir, B_ROOTDIR, DirChain, true, s, want);
    if bad != 0 {
      return -1, bytemap, dirs, s;
    }
    AgreeWanted(s, want, DirChain, dirs);
    BothFound(img, free, dirs, bytemap.view, want);
    s := AddList(s, DirChain, dirs);
    status := 0;
  }

  lemma AgreeNone(n: nat, want: Want)
    ensures want.Want? ==> Agree(NoLists(n), want.w)
  {
  }

  lemma WitnessHeads(img: Image, want: Want)
    requires want.Want? ==> Witness(img, want.w)
    ensures want.Want? ==>
              img.magicOk && img.sizeOk && StoreOk(img.hdr, want.w) && FreeList in want.w.lists
              && DirChain in want.w.lists
    ensures want.Want? ==> img.freelist == Head(want.w.lists[FreeList]) && img.rootdir == Head(want.w.lists[DirChain])
  {
  }

  lemma AgreeWanted(s: Store, want: Want, o: Owner, c: seq<BlockId>)
    requires want.Want? ==> Agree(s, want.w) && o in want.w.lists && want.w.lists[o] == c
    ensures want.Want? ==> Agree(AddList(s, o, c), want.w)
  {
    if want.Want? {
      AgreeAdded(s, want.w, o, c);
    }
  }

  lemma BothFound(img: Image, free: seq<BlockId>, dirs: seq<BlockId>, bytemap: seq<nat>, want: Want)
    requires Shaped(img) && Linked(img.hdr, dirs, DirTag) && img.freelist == Head(free)
    requires var s := AddList(AddList(NoLists(|img.hdr|), FreeList, free), DirChain, dirs);
             Partial(img.hdr, s, bytemap) && (want.Want? ==> Agree(s, want.w) && Witness(img, want.w))
    ensures var s := AddList(AddList(NoLists(|img.hdr|), FreeList, free), DirChain, dirs);
            DirShape(img.ents, dirs) && Checked(img, dirs, s, bytemap, 0) && Follows(img, s, want, true)
  {
    LinkedNoDup(img.hdr, dirs, DirTag);
    assert DirShape(img.ents, dirs);
    hide Partial, Witness, Linked, Agree, DirShape;
    var s := AddList(AddList(NoLists(|img.hdr|), FreeList, free), DirChain, dirs);
    assert SlotsDone(img, dirs, s, 0);
  }

  /** The checker accepts exactly the consistent images, and never leaves them. */
  method Fsck(img: Image) returns (status: int)
    requires Shaped(img)
    ensures status == 0 <==> ConsistentImage(img)
  {
    hide ConsistentImage, Witness, Checked, Follows, Linked, DirShape;
    ghost var want := TheWitness(img);
    var bytemap, lost;
    ghost var dirs, s;
    status, bytemap, dirs, s := CheckSuperblock(img, want);
    if status != 0 {
      return 1;
    }
    var bad: nat;
    bad, s := CheckRootDirectory(img, bytemap, dirs, true, s, want);
    lost := CheckForLostBlocks(img, bytemap);
    Verdict(img, dirs, s, bytemap.view, want, bad == 0, lost == 0);
    status := if bad != 0 || lost != 0 then 1 else 0;
  }

  lemma Verdict(img: Image, dirs: seq<BlockId>, s: Store, bytemap: seq<nat>, want: Want, ok: bool, full: bool)
    requires Shaped(img) && img.magicOk && img.sizeOk && Head(dirs) == img.rootdir
    requires want.Want? <==> ConsistentImage(img) == true
    requires ok ==> Checked(img, dirs, s, bytemap, ENTRIES * (|dirs| + 1))
    requires Follows(img, s, want, ok) && |bytemap| == |img.hdr| + 1
    requires full <==> forall b | 0 < b < |img.hdr| :: bytemap[b] != B_UNVISITED
    ensures ok && full <==> ConsistentImage(img) == true
  {
    hide ConsistentImage, Checked, Witness, Agree;
    if ok && full {
      AllChecked(img, dirs, s, bytemap);
    }
    if want.Want? {
      NothingLost(img, dirs, s, bytemap, want.w);
    }
  }
}
