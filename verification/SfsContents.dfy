/** File contents as a byte string laid out over fixed-size blocks. */
module SfsContents {
  import opened SfsChains

  newtype Byte = x: int | 0 <= x < 256

  /** Bytes of file data per 512-byte block, after the 12-byte header. */
  const BLOCK_DATA_SIZE: nat := 500

  /** f with x written over it from position p. */
  function Splice(f: seq<Byte>, p: nat, x: seq<Byte>): (r: seq<Byte>)
    requires p + |x| <= |f|
    ensures |r| == |f|
  {
    f[..p] + x + f[p + |x|..]
  }

  lemma SpliceTwice(f: seq<Byte>, p: nat, x: seq<Byte>, y: seq<Byte>)
    requires p + |x| + |y| <= |f|
    ensures Splice(Splice(f, p, x), p + |x|, y) == Splice(f, p, x + y)
  {
    var l, r := Splice(Splice(f, p, x), p + |x|, y), Splice(f, p, x + y);
    forall i | 0 <= i < |f| ensures l[i] == r[i] {
    }
  }

  function Zeros(n: nat): (r: seq<Byte>)
    ensures |r| == n
  {
    seq(n, _ => 0)
  }

  /** The blocks of a chain, in order. */
  function Datas(data: seq<seq<Byte>>, c: seq<BlockId>): seq<seq<Byte>>
    requires InRange(c, |data|)
  {
    seq(|c|, i requires 0 <= i < |c| => data[c[i]])
  }

  ghost predicate Full(ds: seq<seq<Byte>>) {
    forall i | 0 <= i < |ds| :: |ds[i]| == BLOCK_DATA_SIZE
  }

  function Flat(ds: seq<seq<Byte>>): seq<Byte> {
    if ds == [] then [] else ds[0] + Flat(ds[1..])
  }

  lemma FlatLen(ds: seq<seq<Byte>>)
    requires Full(ds)
    ensures |Flat(ds)| == BLOCK_DATA_SIZE * |ds|
  {
  }

  lemma {:induction false} FlatConcat(a: seq<seq<Byte>>, b: seq<seq<Byte>>)
    ensures Flat(a + b) == Flat(a) + Flat(b)
  {
    if a == [] {
      assert a + b == b;
    } else {
      assert (a + b)[1..] == a[1..] + b;
      FlatConcat(a[1..], b);
    }
  }

  /** Block i holds the bytes from 500*i on. */
  lemma FlatAround(ds: seq<seq<Byte>>, i: nat)
    requires Full(ds) && i < |ds|
    ensures Flat(ds) == Flat(ds[..i]) + ds[i] + Flat(ds[i + 1..])
    ensures |Flat(ds[..i])| == BLOCK_DATA_SIZE * i
    ensures |Flat(ds[i + 1..])| == BLOCK_DATA_SIZE * (|ds| - i - 1)
  {
    assert ds == ds[..i] + ([ds[i]] + ds[i + 1..]);
    FlatConcat(ds[..i], [ds[i]] + ds[i + 1..]);
    FlatLen(ds[..i]);
    FlatLen(ds[i + 1..]);
  }

  /** Reading len bytes at offset o of block i reads the file at 500*i + o. */
  lemma FlatRead(ds: seq<seq<Byte>>, i: nat, o: nat, len: nat)
    requires Full(ds) && i < |ds| && o + len <= BLOCK_DATA_SIZE
    ensures BLOCK_DATA_SIZE * i + o + len <= |Flat(ds)|
    ensures Flat(ds)[BLOCK_DATA_SIZE * i + o..BLOCK_DATA_SIZE * i + o + len] == ds[i][o..o + len]
  {
    FlatAround(ds, i);
  }

  /** Overwriting part of block i overwrites the file at 500*i + o. */
  lemma FlatWrite(ds: seq<seq<Byte>>, i: nat, o: nat, x: seq<Byte>)
    requires Full(ds) && i < |ds| && o + |x| <= BLOCK_DATA_SIZE
    ensures Full(ds[i := Splice(ds[i], o, x)])
    ensures BLOCK_DATA_SIZE * i + o + |x| <= |Flat(ds)|
    ensures Flat(ds[i := Splice(ds[i], o, x)]) == Splice(Flat(ds), BLOCK_DATA_SIZE * i + o, x)
  {
    var ds' := ds[i := Splice(ds[i], o, x)];
    FlatAround(ds, i);
    FlatAround(ds', i);
    assert ds'[..i] == ds[..i] && ds'[i + 1..] == ds[i + 1..];
    var f, a, p := Flat(ds), Flat(ds[..i]), BLOCK_DATA_SIZE * i + o;
    assert f[..p] == a + ds[i][..o];
    assert f[p + |x|..] == ds[i][o + |x|..] + Flat(ds[i + 1..]);
  }

  /** All bytes in the blocks of chain c. */
  function FileBytes(data: seq<seq<Byte>>, c: seq<BlockId>): seq<Byte>
    requires InRange(c, |data|)
  {
    Flat(Datas(data, c))
  }

  lemma FileBytesLen(data: seq<seq<Byte>>, c: seq<BlockId>)
    requires Full(data) && InRange(c, |data|)
    ensures |FileBytes(data, c)| == BLOCK_DATA_SIZE * |c|
  {
    FlatLen(Datas(data, c));
  }

  lemma FileBytesConcat(data: seq<seq<Byte>>, a: seq<BlockId>, b: seq<BlockId>)
    requires InRange(a, |data|) && InRange(b, |data|)
    ensures InRange(a + b, |data|) && FileBytes(data, a + b) == FileBytes(data, a) + FileBytes(data, b)
  {
    FlatConcat(Datas(data, a), Datas(data, b));
    assert Datas(data, a + b) == Datas(data, a) + Datas(data, b);
  }

  /** Contents depend only on the file's own blocks. */
  lemma FileBytesSame(data: seq<seq<Byte>>, data': seq<seq<Byte>>, c: seq<BlockId>)
    requires InRange(c, |data|) && |data'| == |data|
    requires forall i | 0 <= i < |c| :: data'[c[i]] == data[c[i]]
    ensures FileBytes(data', c) == FileBytes(data, c)
  {
    assert Datas(data', c) == Datas(data, c);
  }

  lemma ReadChunk(data: seq<seq<Byte>>, c: seq<BlockId>, i: nat, o: nat, len: nat)
    requires Full(data) && InRange(c, |data|) && i < |c| && o + len <= BLOCK_DATA_SIZE
    ensures BLOCK_DATA_SIZE * i + o + len <= |FileBytes(data, c)|
    ensures data[c[i]][o..o + len] == FileBytes(data, c)[BLOCK_DATA_SIZE * i + o..BLOCK_DATA_SIZE * i + o + len]
  {
    FlatRead(Datas(data, c), i, o, len);
  }

  lemma WriteChunk(data: seq<seq<Byte>>, c: seq<BlockId>, i: nat, o: nat, x: seq<Byte>)
    requires Full(data) && InRange(c, |data|) && NoDup(c) && i < |c| && o + |x| <= BLOCK_DATA_SIZE
    ensures BLOCK_DATA_SIZE * i + o + |x| <= |FileBytes(data, c)|
    ensures var data' := data[c[i] := Splice(data[c[i]], o, x)];
            && Full(data')
            && FileBytes(data', c) == Splice(FileBytes(data, c), BLOCK_DATA_SIZE * i + o, x)
  {
    var data' := data[c[i] := Splice(data[c[i]], o, x)];
    var ds := Datas(data, c);
    FlatWrite(ds, i, o, x);
    assert Datas(data', c) == ds[i := Splice(ds[i], o, x)];
  }

  /** data is was with x written over chain c from position p, and nothing else. */
  ghost predicate Patched(data: seq<seq<Byte>>, was: seq<seq<Byte>>, c: seq<BlockId>, p: nat, x: seq<Byte>) {
    && |data| == |was| && InRange(c, |was|) && Full(was) && Full(data)
    && p + |x| <= |FileBytes(was, c)|
    && FileBytes(data, c) == Splice(FileBytes(was, c), p, x)
    && forall b | 0 <= b < |was| && b !in c :: data[b] == was[b]
  }

  lemma PatchedNone(was: seq<seq<Byte>>, c: seq<BlockId>, p: nat)
    requires InRange(c, |was|) && Full(was) && p <= BLOCK_DATA_SIZE * |c|
    ensures Patched(was, was, c, p, [])
  {
    FileBytesLen(was, c);
    assert Splice(FileBytes(was, c), p, []) == FileBytes(was, c);
  }

  lemma PatchedLength(data: seq<seq<Byte>>, was: seq<seq<Byte>>, c: seq<BlockId>, p: nat, x: seq<Byte>)
    requires Patched(data, was, c, p, x)
    ensures |data| == |was|
  {
  }

  lemma NextSlice(f: seq<Byte>, p: nat, q: nat, r: nat)
    requires p <= q <= r <= |f|
    ensures f[p..q] + f[q..r] == f[p..r]
  {
  }

  lemma PrefixSlice(x: seq<Byte>, f: seq<Byte>, p: nat, q: nat)
    requires x <= f && p <= q <= |x|
    ensures f[p..q] == x[p..q]
  {
  }
}
