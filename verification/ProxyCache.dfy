/** The proxy's size-bounded object cache: the recency list it stands for, the
    clock-stamped objects that represent it, and its lock-delimited phases. */
module ProxyCache {

  const MAX_CACHE_SIZE: nat := 1049000
  const MAX_OBJECT_SIZE: nat := 102400

  newtype Octet = x: int | 0 <= x < 256

  datatype Entry = Entry(key: string, data: seq<Octet>)

  /** A cached object with the clock value of its last use. */
  datatype Object = Object(entry: Entry, recent: nat)

  // ----- the abstract cache: entries, the most recently used first -----

  function Weight(l: seq<Entry>): nat {
    if l == [] then 0 else Weight(l[..|l| - 1]) + |l[|l| - 1].data|
  }

  /** First entry for the key, or |l|. */
  function Index(l: seq<Entry>, key: string): (i: nat)
    ensures i <= |l| && (i < |l| ==> l[i].key == key)
    ensures forall j | 0 <= j < i :: l[j].key != key
  {
    if l == [] then 0 else if l[0].key == key then 0 else 1 + Index(l[1..], key)
  }

  function Refreshed(l: seq<Entry>, key: string): seq<Entry> {
    var i := Index(l, key);
    if i < |l| then [l[i]] + l[..i] + l[i + 1..] else l
  }

  /** Drop the least recently used entries until n more bytes fit. */
  function Shortened(l: seq<Entry>, n: nat): (r: seq<Entry>)
    ensures r <= l && (n <= MAX_CACHE_SIZE ==> Weight(r) + n <= MAX_CACHE_SIZE)
  {
    if l != [] && Weight(l) + n > MAX_CACHE_SIZE then Shortened(l[..|l| - 1], n) else l
  }

  /** A key that is there already keeps its old data. */
  function Put(l: seq<Entry>, key: string, data: seq<Octet>): seq<Entry> {
    if |data| == 0 || |data| > MAX_OBJECT_SIZE then l
    else if Index(l, key) < |l| then Refreshed(l, key)
    else [Entry(key, data)] + Shortened(l, |data|)
  }

  // ----- what these operations mean -----

  /** r is what of l stays when n bytes are needed: its longest prefix that leaves room. */
  ghost predicate Keeps(l: seq<Entry>, n: nat, r: seq<Entry>) {
    && r <= l && Weight(r) + n <= MAX_CACHE_SIZE
    && forall k | |r| < k <= |l| :: Weight(l[..k]) + n > MAX_CACHE_SIZE
  }

  lemma {:induction false} ShortenedKeeps(l: seq<Entry>, n: nat)
    requires n <= MAX_CACHE_SIZE
    ensures Keeps(l, n, Shortened(l, n))
  {
    if l != [] && Weight(l) + n > MAX_CACHE_SIZE {
      var m := l[..|l| - 1];
      ShortenedKeeps(m, n);
      forall k | |Shortened(l, n)| < k <= |l| ensures Weight(l[..k]) + n > MAX_CACHE_SIZE {
        assert if k < |l| then l[..k] == m[..k] else l[..k] == l;
      }
    } else {
      assert l[..|l|] == l;
    }
  }

  ghost predicate HasKey(l: seq<Entry>, key: string) {
    exists i | 0 <= i < |l| :: l[i].key == key
  }

  /** The entry of the key has moved to the front; the others stay in their order. */
  ghost predicate Fronted(l: seq<Entry>, key: string, r: seq<Entry>) {
    && |r| == |l|
    && exists i | 0 <= i < |l| :: && l[i].key == key && r[0] == l[i]
                                  && (forall j | 0 <= j < i :: l[j].key != key && r[j + 1] == l[j])
                                  && forall j | i < j < |l| :: r[j] == l[j]
  }

  /** Storing data under the key: nothing for data of no size or of more than an object
      may have; a known key is refreshed and keeps its data; a new one comes first, and
      as many of the others stay behind it as there is room for. */
  ghost predicate Puts(l: seq<Entry>, key: string, data: seq<Octet>, r: seq<Entry>) {
    if |data| == 0 || |data| > MAX_OBJECT_SIZE then r == l
    else if HasKey(l, key) then Fronted(l, key, r)
    else r != [] && r[0] == Entry(key, data) && Keeps(l, |data|, r[1..])
  }

  lemma RefreshedFronts(l: seq<Entry>, key: string)
    ensures if HasKey(l, key) then Fronted(l, key, Refreshed(l, key)) else Refreshed(l, key) == l
  {
    var i, r := Index(l, key), Refreshed(l, key);
    if i < |l| {
      assert l[i].key == key;
      forall j | 0 <= j < i ensures r[j + 1] == l[j] {
      }
      forall j | i < j < |l| ensures r[j] == l[j] {
      }
      hide Refreshed, Index;
      assert Fronted(l, key, r);
    }
  }

  lemma PutPuts(l: seq<Entry>, key: string, data: seq<Octet>)
    ensures Puts(l, key, data, Put(l, key, data))
    ensures 0 < |data| <= MAX_OBJECT_SIZE && !HasKey(l, key) && Weight(l) + |data| <= MAX_CACHE_SIZE ==>
              Put(l, key, data) == [Entry(key, data)] + l
  {
    RefreshedFronts(l, key);
    if 0 < |data| <= MAX_OBJECT_SIZE {
      ShortenedKeeps(l, |data|);
      assert Index(l, key) < |l| <==> HasKey(l, key);
      assert l[..|l|] == l;
    }
    hide Keeps, Fronted, Weight, Refreshed;
  }

  // ----- representation -----

  function Entries(os: seq<Object>): (l: seq<Entry>)
    ensures |l| == |os|
  {
    seq(|os|, i requires 0 <= i < |os| => os[i].entry)
  }

  ghost predicate DistinctKeys(os: seq<Object>) {
    forall i, j | 0 <= i < j < |os| :: os[i].entry.key != os[j].entry.key
  }

  /** The same objects, the most recent first. */
  ghost predicate Ordered(os: seq<Object>, order: seq<Object>, clock: nat) {
    && (forall o :: o in os <==> o in order)
    && Sorted(order, clock)
    && DistinctKeys(os) && DistinctKeys(order)
    && Weight(Entries(os)) == Weight(Entries(order))
  }

  lemma {:induction false} WeightOf(l: seq<Entry>, i: nat)
    requires i < |l|
    ensures Weight(l) == Weight(l[..i]) + |l[i].data| + Weight(l[i + 1..])
  {
    var n := |l| - 1;
    if i < n {
      WeightOf(l[..n], i);
      assert l[..n][..i] == l[..i] && l[..n][i + 1..] == l[i + 1..][..n - i - 1];
      assert l[i + 1..][n - i - 1] == l[n];
    }
  }

  lemma {:induction false} WeightJoin(a: seq<Entry>, b: seq<Entry>)
    ensures Weight(a + b) == Weight(a) + Weight(b)
  {
    if b == [] {
      assert a + b == a;
    } else {
      var n := |b| - 1;
      assert (a + b)[..|a + b| - 1] == a + b[..n];
      WeightJoin(a, b[..n]);
    }
  }

  function Drop(os: seq<Object>, i: nat): seq<Object>
    requires i < |os|
  {
    os[..i] + os[i + 1..]
  }

  lemma DropAt(os: seq<Object>, i: nat, k: nat)
    requires i < |os| && k < |os| - 1
    ensures |Drop(os, i)| == |os| - 1 && Drop(os, i)[k] == os[if k < i then k else k + 1]
  {
  }

  lemma DropEntries(os: seq<Object>, i: nat)
    requires i < |os|
    ensures var l := Entries(os); Entries(Drop(os, i)) == l[..i] + l[i + 1..]
    ensures Weight(Entries(Drop(os, i))) == Weight(Entries(os)) - |os[i].entry.data|
  {
    var d, l := Entries(Drop(os, i)), Entries(os);
    var r := l[..i] + l[i + 1..];
    forall k | 0 <= k < |os| - 1 ensures |d| == |r| == |os| - 1 && d[k] == r[k] {
      DropAt(os, i, k);
    }
    assert d == r;
    WeightOf(l, i);
    WeightJoin(l[..i], l[i + 1..]);
  }

  lemma DropFacts(os: seq<Object>, i: nat)
    requires DistinctKeys(os) && i < |os|
    ensures DistinctKeys(Drop(os, i))
    ensures forall o :: o in Drop(os, i) <==> o in os && o != os[i]
  {
    var d := Drop(os, i);
    assert |d| == |os| - 1;
    forall k | 0 <= k < |d| ensures d[k] == os[if k < i then k else k + 1] {
      DropAt(os, i, k);
    }
    hide Drop;
    forall o ensures o in d <==> o in os && o != os[i] {
      if o in os && o != os[i] {
        var j :| 0 <= j < |os| && os[j] == o;
        assert d[if j < i then j else j - 1] == o;
      }
    }
  }

  /** The object used longest ago is the last of the order. */
  lemma OldestIsLast(os: seq<Object>, order: seq<Object>, clock: nat, v: nat)
    requires Ordered(os, order, clock) && v < |os| && forall i | 0 <= i < |os| :: os[v].recent <= os[i].recent
    ensures order != [] && order[|order| - 1] == os[v]
  {
    assert os[v] in order;
    var k :| 0 <= k < |order| && order[k] == os[v];
    var last := order[|order| - 1];
    assert last in os;
    var j :| 0 <= j < |os| && os[j] == last;
  }

  lemma EvictOk(os: seq<Object>, order: seq<Object>, clock: nat, v: nat)
    requires Ordered(os, order, clock) && v < |os| && order != [] && order[|order| - 1] == os[v]
    ensures Ordered(Drop(os, v), order[..|order| - 1], clock)
  {
    var n := |order| - 1;
    DropFacts(os, v);
    DropFacts(order, n);
    DropEntries(os, v);
    DropEntries(order, n);
    assert Drop(order, n) == order[..n];
    hide DistinctKeys, Drop, Entries;
  }

  function Touched(os: seq<Object>, i: nat, clock: nat): seq<Object>
    requires i < |os|
  {
    os[i := os[i].(recent := clock + 1)]
  }

  lemma TouchedFacts(os: seq<Object>, i: nat, clock: nat)
    requires DistinctKeys(os) && i < |os|
    ensures var t := Touched(os, i, clock); Entries(t) == Entries(os) && DistinctKeys(t)
    ensures forall o :: o in Touched(os, i, clock) <==> o == os[i].(recent := clock + 1) || (o in os && o != os[i])
  {
    var t := Touched(os, i, clock);
    forall o ensures o in t <==> o == os[i].(recent := clock + 1) || (o in os && o != os[i]) {
      if o in t {
        var j :| 0 <= j < |t| && t[j] == o;
        assert j != i ==> os[j] == o;
      }
      if o in os && o != os[i] {
        var j :| 0 <= j < |os| && os[j] == o;
        assert t[j] == o;
      }
      assert t[i] == os[i].(recent := clock + 1);
    }
  }

  /** Stamping an object moves it to the front of the order. */
  lemma TouchOk(os: seq<Object>, order: seq<Object>, clock: nat, i: nat, k: nat)
    requires Ordered(os, order, clock) && i < |os| && k < |order| && order[k] == os[i]
    ensures Ordered(Touched(os, i, clock), Front(os[i].(recent := clock + 1), Drop(order, k)), clock + 1)
  {
    var x, d := os[i].(recent := clock + 1), Drop(order, k);
    TouchedFacts(os, i, clock);
    DropFacts(order, k);
    DropEntries(order, k);
    FrontFacts(x, d);
    DropSorted(order, k, clock);
    FrontSorted(x, d, clock);
    hide Drop, Entries, Touched, Sorted, DistinctKeys, Front;
  }

  ghost predicate Sorted(order: seq<Object>, clock: nat) {
    && (forall i, j | 0 <= i < j < |order| :: order[i].recent > order[j].recent)
    && forall i | 0 <= i < |order| :: order[i].recent <= clock
  }

  lemma DropSorted(order: seq<Object>, k: nat, clock: nat)
    requires Sorted(order, clock) && DistinctKeys(order) && k < |order|
    ensures Sorted(Drop(order, k), clock)
            && forall j | 0 <= j < |Drop(order, k)| :: Drop(order, k)[j].entry.key != order[k].entry.key
  {
    var d := Drop(order, k);
    assert |d| == |order| - 1;
    forall j | 0 <= j < |d| ensures d[j] == order[if j < k then j else j + 1] {
      DropAt(order, k, j);
    }
    hide Drop;
  }

  lemma FrontSorted(x: Object, d: seq<Object>, clock: nat)
    requires Sorted(d, clock) && DistinctKeys(d) && x.recent == clock + 1
             && forall j | 0 <= j < |d| :: d[j].entry.key != x.entry.key
    ensures Sorted(Front(x, d), clock + 1) && DistinctKeys(Front(x, d))
  {
  }

  lemma TouchEntries(order: seq<Object>, k: nat, x: Object)
    requires DistinctKeys(order) && k < |order| && x.entry == order[k].entry
    ensures Entries(Front(x, Drop(order, k))) == Refreshed(Entries(order), x.entry.key)
  {
    var l := Entries(order);
    FrontFacts(x, Drop(order, k));
    DropEntries(order, k);
    assert l[k].key == x.entry.key;
    IndexIs(l, x.entry.key, k);
    assert [l[k]] + l[..k] + l[k + 1..] == [l[k]] + (l[..k] + l[k + 1..]);
    hide Drop, Index;
  }

  lemma IndexIs(l: seq<Entry>, key: string, k: nat)
    requires k < |l| && l[k].key == key && forall i, j | 0 <= i < j < |l| :: l[i].key != l[j].key
    ensures Index(l, key) == k
  {
  }

  function Front(x: Object, os: seq<Object>): seq<Object> {
    [x] + os
  }

  lemma FrontFacts(x: Object, os: seq<Object>)
    ensures Entries(Front(x, os)) == [x.entry] + Entries(os)
            && Weight(Entries(Front(x, os))) == |x.entry.data| + Weight(Entries(os))
    ensures forall o :: o in Front(x, os) <==> o == x || o in os
  {
    assert Entries([x] + os) == [x.entry] + Entries(os);
    WeightJoin([x.entry], Entries(os));
    assert [x.entry][..0] == [];
  }

  lemma InsertOk(os: seq<Object>, order: seq<Object>, clock: nat, e: Entry)
    requires Ordered(os, order, clock) && forall i | 0 <= i < |os| :: os[i].entry.key != e.key
    ensures Ordered(Front(Object(e, clock + 1), os), Front(Object(e, clock + 1), order), clock + 1)
    ensures Entries(Front(Object(e, clock + 1), order)) == [e] + Entries(order)
  {
    var x := Object(e, clock + 1);
    FrontFacts(x, os);
    FrontFacts(x, order);
    forall i | 0 <= i < |order| ensures order[i].entry.key != e.key {
      assert order[i] in os;
    }
    FrontSorted(x, order, clock);
    assert DistinctKeys(Front(x, os));
    hide Entries, Sorted;
  }

  /** A key is found in the list exactly if it is found in the order. */
  lemma SameKeys(os: seq<Object>, order: seq<Object>, clock: nat, i: nat) returns (k: nat)
    requires Ordered(os, order, clock) && i < |os|
    ensures k < |order| && order[k] == os[i] && Index(Entries(order), os[i].entry.key) == k
  {
    assert os[i] in order;
    k :| 0 <= k < |order| && order[k] == os[i];
    IndexIs(Entries(order), os[i].entry.key, k);
  }

  lemma NoKey(os: seq<Object>, order: seq<Object>, clock: nat, key: string)
    requires Ordered(os, order, clock) && forall i | 0 <= i < |os| :: os[i].entry.key != key
    ensures Index(Entries(order), key) == |order|
  {
    forall k | 0 <= k < |order| ensures order[k].entry.key != key {
      assert order[k] in os;
    }
  }

  // ----- runs -----

  /** What a thread does while it holds the lock once: a lookup and the stamp that
      follows a hit are two phases, and anything may happen between them. */
  datatype Phase = Lookup(key: string) | Stamp(key: string) | Store(key: string, data: seq<Octet>)

  function Perform(l: seq<Entry>, phase: Phase): seq<Entry> {
    match phase
    case Lookup(_) => l
    case Stamp(key) => Refreshed(l, key)
    case Store(key, data) => Put(l, key, data)
  }

  function PerformAll(phases: seq<Phase>): seq<Entry> {
    if phases == [] then [] else Perform(PerformAll(phases[..|phases| - 1]), phases[|phases| - 1])
  }

  /** What is cached was stored under its key earlier, and not changed since. */
  lemma {:induction false} NothingInvented(phases: seq<Phase>, e: Entry)
    requires e in PerformAll(phases)
    ensures Store(e.key, e.data) in phases && 0 < |e.data| <= MAX_OBJECT_SIZE
  {
    var n := |phases| - 1;
    var l := PerformAll(phases[..n]);
    assert phases == phases[..n] + [phases[n]];
    match phases[n] {
      case Lookup(_) => NothingInvented(phases[..n], e);
      case Stamp(key) =>
        NothingInvented(phases[..n], e);
      case Store(key, data) =>
        if e in l {
          NothingInvented(phases[..n], e);
        } else {
          StoredEntry(l, key, data, e);
        }
    }
  }

  lemma StoredEntry(l: seq<Entry>, key: string, data: seq<Octet>, e: Entry)
    requires e in Put(l, key, data) && e !in l
    ensures e == Entry(key, data) && 0 < |data| <= MAX_OBJECT_SIZE
  {
    if Index(l, key) == |l| && 0 < |data| <= MAX_OBJECT_SIZE {
      var s := Shortened(l, |data|);
      forall x | x in s ensures x in l {
        var j :| 0 <= j < |s| && s[j] == x;
        assert l[j] == x;
      }
    }
  }

  // ----- recency -----

  predicate Uses(phase: Phase, key: string) {
    match phase
    case Lookup(_) => false
    case Stamp(k) => k == key
    case Store(k, data) => k == key && 0 < |data| <= MAX_OBJECT_SIZE
  }

  /** One more than the index of the last phase that uses the key; 0 without any. */
  function LastUse(phases: seq<Phase>, key: string): (n: nat)
    ensures n <= |phases| && (n > 0 ==> Uses(phases[n - 1], key))
    ensures forall m | n <= m < |phases| :: !Uses(phases[m], key)
  {
    if phases == [] then 0
    else if Uses(phases[|phases| - 1], key) then |phases|
    else LastUse(phases[..|phases| - 1], key)
  }

  /** Used at some time, and the earlier in the list the later. */
  ghost predicate ByUse(phases: seq<Phase>, l: seq<Entry>) {
    && (forall i | 0 <= i < |l| :: LastUse(phases, l[i].key) > 0)
    && forall i, j | 0 <= i < j < |l| :: LastUse(phases, l[i].key) > LastUse(phases, l[j].key)
  }

  /** After any phases the cached entries stand in the order of their last use. */
  lemma {:induction false} RecencyOrder(phases: seq<Phase>)
    ensures ByUse(phases, PerformAll(phases))
  {
    if phases != [] {
      var n := |phases| - 1;
      RecencyOrder(phases[..n]);
      UseStep(phases, PerformAll(phases[..n]));
    }
  }

  lemma {:induction false} UseStep(phases: seq<Phase>, l: seq<Entry>)
    requires phases != [] && ByUse(phases[..|phases| - 1], l)
    ensures ByUse(phases, Perform(l, phases[|phases| - 1]))
  {
    hide Refreshed, Shortened, ByUse, Index;
    var last := phases[|phases| - 1];
    if !Uses(last, last.key) {
      Unused(phases, l);
    } else if Index(l, last.key) < |l| {
      FrontUse(phases, l, last.key);
    } else if last.Stamp? {
      Absent(phases, l, last.key);
    } else {
      AddUse(phases, l, Entry(last.key, last.data));
    }
  }

  lemma {:induction false} Unused(phases: seq<Phase>, l: seq<Entry>)
    requires phases != [] && ByUse(phases[..|phases| - 1], l) && !Uses(phases[|phases| - 1], phases[|phases| - 1].key)
    ensures ByUse(phases, l)
  {
    hide LastUse;
    forall i | 0 <= i < |l| ensures LastUse(phases, l[i].key) == LastUse(phases[..|phases| - 1], l[i].key) {
      UseNow(phases, l[i].key);
    }
  }

  lemma UseNow(phases: seq<Phase>, key: string)
    requires phases != []
    ensures LastUse(phases, key) == if Uses(phases[|phases| - 1], key) then |phases|
                                    else LastUse(phases[..|phases| - 1], key)
  {
  }

  /** The last phase uses the key of x, which comes in front of entries of other keys. */
  lemma {:induction false} FirstByUse(phases: seq<Phase>, x: Entry, s: seq<Entry>)
    requires phases != [] && ByUse(phases[..|phases| - 1], s) && Uses(phases[|phases| - 1], x.key)
    requires forall i | 0 <= i < |s| :: s[i].key != x.key
    ensures ByUse(phases, [x] + s)
  {
    hide LastUse;
    var r, n := [x] + s, |phases| - 1;
    forall i | 0 <= i < |s| ensures LastUse(phases, s[i].key) == LastUse(phases[..n], s[i].key) && r[i + 1] == s[i] {
      UseNow(phases, s[i].key);
    }
    UseNow(phases, x.key);
    hide Uses;
    forall i | 0 < i < |r| ensures r[i] == s[i - 1] {
    }
  }

  lemma {:induction false} SomeByUse(phases: seq<Phase>, l: seq<Entry>, k: nat)
    requires ByUse(phases, l) && k < |l|
    ensures ByUse(phases, l[..k] + l[k + 1..]) && ByUse(phases, l[..k])
    ensures forall i | 0 <= i < |l| && l[i].key == l[k].key :: i == k
  {
    hide LastUse;
    var r := l[..k] + l[k + 1..];
    forall i | 0 <= i < |r| ensures r[i] == l[if i < k then i else i + 1] {
    }
  }

  lemma {:induction false} FrontUse(phases: seq<Phase>, l: seq<Entry>, key: string)
    requires phases != [] && ByUse(phases[..|phases| - 1], l) && Uses(phases[|phases| - 1], key)
    ensures Index(l, key) < |l| ==> ByUse(phases, Refreshed(l, key))
  {
    var k := Index(l, key);
    if k < |l| {
      SomeByUse(phases[..|phases| - 1], l, k);
      var s := l[..k] + l[k + 1..];
      assert Refreshed(l, key) == [l[k]] + s;
      forall i | 0 <= i < |s| ensures s[i].key != key {
        assert s[i] == l[if i < k then i else i + 1];
      }
      hide ByUse, Index, Refreshed;
      FirstByUse(phases, l[k], s);
    }
  }

  lemma {:induction false} Absent(phases: seq<Phase>, l: seq<Entry>, key: string)
    requires phases != [] && ByUse(phases[..|phases| - 1], l) && Index(l, key) == |l| && phases[|phases| - 1].key == key
    ensures ByUse(phases, l) && Refreshed(l, key) == l
  {
    hide LastUse;
    forall i | 0 <= i < |l| ensures LastUse(phases, l[i].key) == LastUse(phases[..|phases| - 1], l[i].key) {
      UseNow(phases, l[i].key);
    }
  }

  lemma {:induction false} AddUse(phases: seq<Phase>, l: seq<Entry>, e: Entry)
    requires phases != [] && ByUse(phases[..|phases| - 1], l) && Uses(phases[|phases| - 1], e.key)
    requires Index(l, e.key) == |l|
    ensures ByUse(phases, [e] + Shortened(l, |e.data|))
  {
    var s := Shortened(l, |e.data|);
    assert s == l || s == l[..|s|];
    if |s| < |l| {
      SomeByUse(phases[..|phases| - 1], l, |s|);
    }
    forall i | 0 <= i < |s| ensures s[i] == l[i] {
    }
    hide ByUse, Shortened;
    FirstByUse(phases, e, s);
  }

  // ----- the cache -----

  datatype Reply = None | Found(data: seq<Octet>)

  function LookupReply(l: seq<Entry>, key: string): Reply {
    if Index(l, key) < |l| then Found(l[Index(l, key)].data) else None
  }

  lemma HasIndex(l: seq<Entry>, key: string)
    ensures HasKey(l, key) <==> Index(l, key) < |l|
  {
    if Index(l, key) < |l| {
      assert l[Index(l, key)].key == key;
    }
  }

  lemma ReplyMeans(os: seq<Object>, order: seq<Object>, clock: nat, key: string)
    requires Ordered(os, order, clock)
    ensures var l := Entries(order);
            && (LookupReply(l, key) == None <==> !HasKey(l, key))
            && forall e | e in l && e.key == key :: LookupReply(l, key) == Found(e.data)
  {
    var l := Entries(order);
    HasIndex(l, key);
    forall e | e in l && e.key == key ensures LookupReply(l, key) == Found(e.data) {
      var k :| 0 <= k < |l| && l[k] == e;
      assert DistinctKeys(order);
      IndexIs(l, key, k);
    }
  }

  class Cache {
    /** The linked list from its head on. */
    var objects: seq<Object>
    var size: nat
    var clock: nat
    ghost var order: seq<Object>

    ghost predicate Valid()
      reads this
    {
      && Ordered(objects, order, clock) && size == Weight(Entries(objects)) <= MAX_CACHE_SIZE
      && forall i | 0 <= i < |objects| :: 0 < |objects[i].entry.data| <= MAX_OBJECT_SIZE
    }

    constructor ()
      ensures Valid() && Entries(order) == []
    {
      objects, size, clock, order := [], 0, 0, [];
    }

    method Find(key: string) returns (i: nat)
      ensures i <= |objects| && (i < |objects| ==> objects[i].entry.key == key)
      ensures forall j | 0 <= j < i :: objects[j].entry.key != key
    {
      i := 0;
      while i < |objects| && objects[i].entry.key != key
        invariant i <= |objects| && forall j | 0 <= j < i :: objects[j].entry.key != key
      {
        i := i + 1;
      }
    }

    /** First phase of cache_get, under the read lock. */
    method LookUp(key: string) returns (r: Reply)
      requires Valid()
      ensures r == LookupReply(Entries(order), key)
      ensures r == None <==> !HasKey(Entries(order), key)
      ensures forall e | e in Entries(order) && e.key == key :: r == Found(e.data)
    {
      ReplyMeans(objects, order, clock, key);
      hide HasKey;
      hide Sorted, DistinctKeys, Weight;
      var i := Find(key);
      if i < |objects| {
        ghost var k := SameKeys(objects, order, clock, i);
        r := Found(objects[i].entry.data);
      } else {
        NoKey(objects, order, clock, key);
        r := None;
      }
    }

    /** Stamp the object of the key, if it is still there. */
    method Touch(key: string) returns (found: bool)
      requires Valid()
      modifies this
      ensures Valid() && Entries(order) == Refreshed(old(Entries(order)), key) && size == old(size)
      ensures found <==> Index(old(Entries(order)), key) < |old(order)|
      ensures if found then Fronted(old(Entries(order)), key, Entries(order)) else !HasKey(old(Entries(order)), key)
      ensures !found ==>
                objects == old(objects) && order == old(order) && clock == old(clock)
                && forall i | 0 <= i < |objects| :: objects[i].entry.key != key
    {
      RefreshedFronts(Entries(order), key);
      HasIndex(Entries(order), key);
      hide Sorted, Weight, Drop, Index, HasKey, Fronted;
      var i := Find(key);
      if i < |objects| {
        ghost var k := SameKeys(objects, order, clock, i);
        TouchOk(objects, order, clock, i, k);
        OrderDistinct(objects, order, clock);
        TouchEntries(order, k, objects[i].(recent := clock + 1));
        TouchedFacts(objects, i, clock);
        order := Front(objects[i].(recent := clock + 1), Drop(order, k));
        objects := Touched(objects, i, clock);
        clock := clock + 1;
        found := true;
      } else {
        NoKey(objects, order, clock, key);
        found := false;
      }
    }

    /** cache_evict_lru: the object with the smallest stamp goes. */
    method EvictLru()
      requires Valid() && objects != []
      modifies this
      ensures Valid() && order == old(order)[..|old(order)| - 1] && size < old(size) && clock == old(clock)
      ensures forall o | o in objects :: o in old(objects)
    {
      hide DistinctKeys, Weight, Drop, Sorted;
      var victim: nat, i: nat := 0, 0;
      while i < |objects|
        invariant i <= |objects| && victim < |objects|
                  && forall j | 0 <= j < i :: objects[victim].recent <= objects[j].recent
        invariant objects == old(objects) && order == old(order) && size == old(size) && clock == old(clock)
      {
        if objects[i].recent < objects[victim].recent {
          victim := i;
        }
        i := i + 1;
      }
      OldestIsLast(objects, order, clock, victim);
      EvictOk(objects, order, clock, victim);
      DropEntries(objects, victim);
      KeysDistinct(objects, order, clock);
      DropFacts(objects, victim);
      DropSizes(objects, victim);
      size := size - |objects[victim].entry.data|;
      objects := Drop(objects, victim);
      order := order[..|order| - 1];
    }

    /** cache_put: refresh the key if it is there, otherwise make room and add it. */
    method Insert(key: string, data: seq<Octet>)
      requires Valid()
      modifies this
      ensures Valid() && Entries(order) == Put(old(Entries(order)), key, data)
      ensures Puts(old(Entries(order)), key, data, Entries(order)) == true
      ensures 0 < |data| <= MAX_OBJECT_SIZE && !HasKey(old(Entries(order)), key)
              && Weight(old(Entries(order))) + |data| <= MAX_CACHE_SIZE ==>
                Entries(order) == [Entry(key, data)] + old(Entries(order))
    {
      PutPuts(Entries(order), key, data);
      hide Puts, HasKey;
      hide DistinctKeys, Weight, Drop, Sorted, Index, Refreshed, Shortened, Ordered;
      if |data| == 0 || |data| > MAX_OBJECT_SIZE {
        return;
      }
      var found := Touch(key);
      if found {
        return;
      }
      MakeRoom(key, |data|);
      InsertOk(objects, order, clock, Entry(key, data));
      FrontFacts(Object(Entry(key, data), clock + 1), objects);
      order := Front(Object(Entry(key, data), clock + 1), order);
      objects := [Object(Entry(key, data), clock + 1)] + objects;
      clock := clock + 1;
      size := size + |data|;
    }

    /** One phase of a thread; only a lookup has a reply. */
    method Handle(phase: Phase) returns (r: Reply)
      requires Valid()
      modifies this
      ensures Valid() && Entries(order) == Perform(old(Entries(order)), phase)
      ensures r == if phase.Lookup? then LookupReply(old(Entries(order)), phase.key) else None
    {
      hide Ordered, Index, Refreshed, Put, HasKey, Fronted, Puts, Weight;
      r := None;
      match phase {
        case Lookup(key) => r := LookUp(key);
        case Stamp(key) => var found := Touch(key);
        case Store(key, data) => Insert(key, data);
      }
    }

    method MakeRoom(key: string, n: nat)
      requires Valid() && 0 < n <= MAX_OBJECT_SIZE && forall i | 0 <= i < |objects| :: objects[i].entry.key != key
      modifies this
      ensures Valid() && Entries(order) == Shortened(old(Entries(order)), n) && size + n <= MAX_CACHE_SIZE
              && clock == old(clock)
      ensures Keeps(old(Entries(order)), n, Entries(order)) == true
      ensures forall i | 0 <= i < |objects| :: objects[i].entry.key != key
    {
      ShortenedKeeps(Entries(order), n);
      hide Keeps, Shortened, Entries;
      hide DistinctKeys, Weight, Drop, Sorted, Ordered;
      while objects != [] && size + n > MAX_CACHE_SIZE
        invariant Valid() && clock == old(clock) && forall i | 0 <= i < |objects| :: objects[i].entry.key != key
        invariant Shortened(Entries(order), n) == Shortened(old(Entries(order)), n)
        decreases size
      {
        SameLength(objects, order, clock);
        ghost var o, objs := order, objects;
        ShorterByOne(o, n);
        EvictLru();
        forall i | 0 <= i < |objects| ensures objects[i].entry.key != key {
          assert objects[i] in objs;
        }
      }
      SameLength(objects, order, clock);
      ShortenedFits(Entries(order), n);
    }
  }

  lemma ShorterByOne(order: seq<Object>, n: nat)
    requires order != [] && Weight(Entries(order)) + n > MAX_CACHE_SIZE
    ensures Shortened(Entries(order[..|order| - 1]), n) == Shortened(Entries(order), n)
  {
    assert Entries(order[..|order| - 1]) == Entries(order)[..|order| - 1];
  }

  lemma ShortenedFits(l: seq<Entry>, n: nat)
    ensures l == [] || Weight(l) + n <= MAX_CACHE_SIZE ==> Shortened(l, n) == l
  {
  }

  lemma DropSizes(os: seq<Object>, v: nat)
    requires v < |os| && forall i | 0 <= i < |os| :: 0 < |os[i].entry.data| <= MAX_OBJECT_SIZE
    ensures forall i | 0 <= i < |Drop(os, v)| :: 0 < |Drop(os, v)[i].entry.data| <= MAX_OBJECT_SIZE
    ensures |os[v].entry.data| <= Weight(Entries(os))
  {
    WeightOf(Entries(os), v);
  }

  lemma KeysDistinct(os: seq<Object>, order: seq<Object>, clock: nat)
    requires Ordered(os, order, clock)
    ensures DistinctKeys(os)
  {
  }

  lemma OrderDistinct(os: seq<Object>, order: seq<Object>, clock: nat)
    requires Ordered(os, order, clock)
    ensures DistinctKeys(order)
  {
  }

  lemma SameLength(os: seq<Object>, order: seq<Object>, clock: nat)
    requires Ordered(os, order, clock)
    ensures Weight(Entries(os)) == Weight(Entries(order)) && (os == [] <==> order == []) && Weight([]) == 0
  {
    if os != [] {
      assert os[0] in order;
    }
    if order != [] {
      assert order[0] in os;
    }
  }

  /** Any interleaving of threads' phases leaves the cache as the recency list says,
      and a hit returns what some earlier phase stored under that key. */
  method Serve(phases: seq<Phase>) returns (replies: seq<Reply>)
    ensures |replies| == |phases|
    ensures forall i | 0 <= i < |phases| && phases[i].Lookup? ::
            replies[i] == LookupReply(PerformAll(phases[..i]), phases[i].key)
    ensures forall i | 0 <= i < |phases| && phases[i].Lookup? && replies[i].Found? ::
            Store(phases[i].key, replies[i].data) in phases[..i]
  {
    hide Ordered, Index, Perform, Weight;
    var c := new Cache();
    replies := [];
    var i: nat := 0;
    assert phases[..0] == [];
    while i < |phases|
      invariant i == |replies| <= |phases| && fresh(c) && c.Valid() && Entries(c.order) == PerformAll(phases[..i])
      invariant forall j | 0 <= j < i && phases[j].Lookup? ::
                replies[j] == LookupReply(PerformAll(phases[..j]), phases[j].key)
    {
      assert phases[..i + 1][..i] == phases[..i];
      var r := c.Handle(phases[i]);
      replies := replies + [r];
      i := i + 1;
    }
    forall j | 0 <= j < |phases| && phases[j].Lookup? && replies[j].Found?
           ensures Store(phases[j].key, replies[j].data) in phases[..j] {
      var l := PerformAll(phases[..j]);
      NothingInvented(phases[..j], l[Index(l, phases[j].key)]);
    }
  }
}
