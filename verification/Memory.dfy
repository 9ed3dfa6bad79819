/** Bytes, buffer descriptors, and what a buffer sequence means as a flat byte sequence.

    Memory is one address space `seq<byte>`. A `mutable_buffer` or `const_buffer` is an address
    and a size, so that two buffers may lie in the same object, overlap, or be empty. */
module Memory {
  newtype byte = x: int | 0 <= x < 256

  datatype Option<T> = None | Some(value: T)

  datatype Buffer = Buffer(addr: nat, size: nat)

  /** The state of a default-constructed buffer. */
  const EMPTY := Buffer(0, 0)

  function Min(a: nat, b: nat): nat {
    if a < b then a else b
  }

  function Max(a: nat, b: nat): nat {
    if a < b then b else a
  }

  /** `b + n`, and the new value of `b` after `b += n`. */
  function Offset(b: Buffer, n: nat): Buffer {
    var offset := if n < b.size then n else b.size;
    Buffer(b.addr + offset, b.size - offset)
  }

  /** `buffer(b, maxSize)`. */
  function Clamp(b: Buffer, maxSize: nat): Buffer {
    Buffer(b.addr, if b.size < maxSize then b.size else maxSize)
  }

  predicate InBounds(memSize: nat, b: Buffer) {
    b.addr + b.size <= memSize
  }

  predicate AllInBounds(memSize: nat, bs: seq<Buffer>) {
    forall i | 0 <= i < |bs| :: InBounds(memSize, bs[i])
  }

  /** No byte belongs to both buffers; an empty buffer is disjoint from every buffer. */
  predicate Disjoint(a: Buffer, b: Buffer) {
    a.size == 0 || b.size == 0 || a.addr + a.size <= b.addr || b.addr + b.size <= a.addr
  }

  predicate AllDisjoint(ts: seq<Buffer>, ss: seq<Buffer>) {
    forall i, j | 0 <= i < |ts| && 0 <= j < |ss| :: Disjoint(ts[i], ss[j])
  }

  predicate PairwiseDisjoint(bs: seq<Buffer>) {
    forall i, j | 0 <= i < j < |bs| :: Disjoint(bs[i], bs[j])
  }

  /** The meaning of `buffer_size`. */
  function Total(bs: seq<Buffer>): nat {
    if bs == [] then 0 else bs[0].size + Total(bs[1..])
  }

  function Read(m: seq<byte>, b: Buffer): (r: seq<byte>)
    requires InBounds(|m|, b)
    ensures |r| == b.size
  {
    m[b.addr..b.addr + b.size]
  }

  /** The flattened bytes of a buffer sequence. */
  function Gather(m: seq<byte>, bs: seq<Buffer>): (r: seq<byte>)
    requires AllInBounds(|m|, bs)
    ensures |r| == Total(bs)
  {
    if bs == [] then [] else Read(m, bs[0]) + Gather(m, bs[1..])
  }

  /** Memory after `data` is written at `addr`. */
  function Store(m: seq<byte>, addr: nat, data: seq<byte>): (r: seq<byte>)
    requires addr + |data| <= |m|
    ensures |r| == |m|
  {
    m[..addr] + data + m[addr + |data|..]
  }

  /** Memory after `data` is laid over the start of a buffer sequence, buffer by buffer. */
  function Scatter(m: seq<byte>, bs: seq<Buffer>, data: seq<byte>): (r: seq<byte>)
    requires AllInBounds(|m|, bs) && |data| <= Total(bs)
    ensures |r| == |m|
    decreases |bs|
  {
    if bs == [] then m
    else
      var k := Min(|data|, bs[0].size);
      Scatter(Store(m, bs[0].addr, data[..k]), bs[1..], data[k..])
  }

  /** A buffer sequence without its first `n` bytes; buffers that become empty stay in place. */
  function DropBytes(bs: seq<Buffer>, n: nat): (r: seq<Buffer>)
    requires n <= Total(bs)
    ensures Total(r) == Total(bs) - n
  {
    if bs == [] then []
    else [Offset(bs[0], n)] + DropBytes(bs[1..], if n < bs[0].size then 0 else n - bs[0].size)
  }

  /** Whether address `a` holds one of the first `n` bytes of the sequence. */
  predicate InPrefix(bs: seq<Buffer>, n: nat, a: nat) {
    bs != [] &&
    (bs[0].addr <= a < bs[0].addr + Min(n, bs[0].size) ||
     InPrefix(bs[1..], n - Min(n, bs[0].size), a))
  }

  lemma SliceOfSlice<T>(s: seq<T>, i: nat, j: nat, lo: nat, hi: nat)
    requires i <= j <= |s| && lo <= hi <= j - i
    ensures s[i..j][lo..hi] == s[i + lo..i + hi]
  {
    var t := s[i..j];
    assert forall k | lo <= k < hi :: t[k] == s[i + k];
  }

  lemma CutTwice<T>(s: seq<T>, n: nat, k: nat)
    requires n <= k <= |s|
    ensures s[n..][..k - n] == s[n..k] && s[n..][k - n..] == s[k..] && s[..n] + s[n..k] == s[..k]
    ensures s[..k][..n] == s[..n] && s[..k][n..] == s[n..k]
  {
  }

  lemma Assoc<T>(a: seq<T>, b: seq<T>, c: seq<T>)
    ensures a + b + c == a + (b + c)
  {
  }

  lemma ReadSplit(m: seq<byte>, b: Buffer, n: nat)
    requires InBounds(|m|, b) && n <= b.size
    ensures Read(m, b) == Read(m, b)[..n] + Read(m, Offset(b, n))
    ensures Read(m, Clamp(b, n)) == Read(m, b)[..n]
  {
    SliceOfSlice(m, b.addr, b.addr + b.size, 0, n);
    SliceOfSlice(m, b.addr, b.addr + b.size, n, b.size);
    var s := Read(m, b);
    assert s == s[..n] + s[n..];
  }

  /** A single buffer seen as a buffer sequence. */
  lemma SingleBuffer(m: seq<byte>, b: Buffer)
    requires InBounds(|m|, b)
    ensures AllInBounds(|m|, [b]) && Total([b]) == b.size && Gather(m, [b]) == Read(m, b)
  {
    assert [b][1..] == [];
    assert Read(m, b) + [] == Read(m, b);
  }

  lemma SingleScatter(m: seq<byte>, b: Buffer, data: seq<byte>)
    requires InBounds(|m|, b) && |data| <= b.size
    ensures AllInBounds(|m|, [b]) && Total([b]) == b.size
    ensures Scatter(m, [b], data) == Store(m, b.addr, data)
  {
    assert [b][1..] == [];
    assert data[..|data|] == data;
  }

  // ---- buffer arithmetic ----

  /** `buffer(b + offset, n)` names exactly the bytes `offset .. offset + n` of `b` that exist. */
  lemma OffsetThenClampIsSlice(m: seq<byte>, b: Buffer, offset: nat, n: nat)
    requires InBounds(|m|, b)
    ensures InBounds(|m|, Clamp(Offset(b, offset), n))
    ensures Read(m, Clamp(Offset(b, offset), n))
         == Read(m, b)[Min(offset, b.size)..Min(offset + n, b.size)]
  {
    var c := Clamp(Offset(b, offset), n);
    var lo, hi := Min(offset, b.size), Min(offset + n, b.size);
    assert c.addr == b.addr + lo && c.size == hi - lo;
    SliceOfSlice(m, b.addr, b.addr + b.size, lo, hi);
  }

  lemma {:induction false} TotalConcat(a: seq<Buffer>, b: seq<Buffer>)
    ensures Total(a + b) == Total(a) + Total(b)
  {
    if a == [] {
      assert a + b == b;
    } else {
      assert (a + b)[1..] == a[1..] + b;
      TotalConcat(a[1..], b);
    }
  }

  // ---- framing ----

  lemma ReadAfterStore(m: seq<byte>, addr: nat, data: seq<byte>, b: Buffer)
    requires addr + |data| <= |m| && InBounds(|m|, b)
    requires Disjoint(Buffer(addr, |data|), b)
    ensures Read(Store(m, addr, data), b) == Read(m, b)
  {
    var m' := Store(m, addr, data);
    assert forall a | 0 <= a < |m| && !(addr <= a < addr + |data|) :: m'[a] == m[a];
  }

  lemma {:induction false} GatherFrame(m: seq<byte>, m': seq<byte>, bs: seq<Buffer>)
    requires |m| == |m'| && AllInBounds(|m|, bs)
    requires forall i | 0 <= i < |bs| :: Read(m, bs[i]) == Read(m', bs[i])
    ensures Gather(m, bs) == Gather(m', bs)
  {
    if bs != [] {
      GatherFrame(m, m', bs[1..]);
    }
  }

  lemma GatherAfterStore(m: seq<byte>, addr: nat, data: seq<byte>, bs: seq<Buffer>)
    requires addr + |data| <= |m| && AllInBounds(|m|, bs)
    requires forall i | 0 <= i < |bs| :: Disjoint(Buffer(addr, |data|), bs[i])
    ensures Gather(Store(m, addr, data), bs) == Gather(m, bs)
  {
    forall i | 0 <= i < |bs|
      ensures Read(m, bs[i]) == Read(Store(m, addr, data), bs[i])
    {
      ReadAfterStore(m, addr, data, bs[i]);
    }
    GatherFrame(m, Store(m, addr, data), bs);
  }

  /** `Scatter` changes only the addresses of the first `|data|` bytes of the sequence. */
  lemma {:induction false} ScatterFrame(m: seq<byte>, bs: seq<Buffer>, data: seq<byte>, a: nat)
    requires AllInBounds(|m|, bs) && |data| <= Total(bs) && a < |m|
    requires !InPrefix(bs, |data|, a)
    ensures Scatter(m, bs, data)[a] == m[a]
    decreases |bs|
  {
    if bs != [] {
      var k := Min(|data|, bs[0].size);
      ScatterFrame(Store(m, bs[0].addr, data[..k]), bs[1..], data[k..], a);
    }
  }

  lemma {:induction false} InPrefixWithin(bs: seq<Buffer>, n: nat, a: nat)
    requires InPrefix(bs, n, a)
    ensures exists i :: 0 <= i < |bs| && bs[i].addr <= a < bs[i].addr + bs[i].size
  {
    if !(bs[0].addr <= a < bs[0].addr + Min(n, bs[0].size)) {
      InPrefixWithin(bs[1..], n - Min(n, bs[0].size), a);
      var j :| 0 <= j < |bs[1..]| && bs[1..][j].addr <= a < bs[1..][j].addr + bs[1..][j].size;
      assert bs[j + 1] == bs[1..][j];
    }
  }

  lemma ScatterKeepsDisjoint(m: seq<byte>, bs: seq<Buffer>, data: seq<byte>, b: Buffer)
    requires AllInBounds(|m|, bs) && |data| <= Total(bs) && InBounds(|m|, b)
    requires forall i | 0 <= i < |bs| :: Disjoint(bs[i], b)
    ensures Read(Scatter(m, bs, data), b) == Read(m, b)
  {
    var m' := Scatter(m, bs, data);
    forall a | b.addr <= a < b.addr + b.size
      ensures m'[a] == m[a]
    {
      if InPrefix(bs, |data|, a) {
        InPrefixWithin(bs, |data|, a);
      }
      ScatterFrame(m, bs, data, a);
    }
  }

  /** What was scattered is what is gathered: over disjoint buffers the data replaces a prefix
      of the flattened bytes and the rest stays as it was. */
  lemma {:induction false} GatherScatter(m: seq<byte>, bs: seq<Buffer>, data: seq<byte>)
    requires AllInBounds(|m|, bs) && |data| <= Total(bs) && PairwiseDisjoint(bs)
    ensures Gather(Scatter(m, bs, data), bs) == data + Gather(m, bs)[|data|..]
    decreases |bs|
  {
    if bs != [] {
      var b, rest := bs[0], bs[1..];
      var k := Min(|data|, b.size);
      var m1 := Store(m, b.addr, data[..k]);
      var m2 := Scatter(m1, rest, data[k..]);
      GatherScatter(m1, rest, data[k..]);
      forall j | 0 <= j < |rest|
        ensures Disjoint(rest[j], b) && Disjoint(Buffer(b.addr, k), rest[j])
      {
        assert Disjoint(bs[0], bs[j + 1]);
      }
      GatherAfterStore(m, b.addr, data[..k], rest);
      ScatterKeepsDisjoint(m1, rest, data[k..], b);
      ReadStoredPrefix(m, b, data[..k]);
      PrefixReplaced(Read(m, b), Gather(m, rest), data, k);
    }
  }

  lemma ReadStoredPrefix(m: seq<byte>, b: Buffer, d: seq<byte>)
    requires InBounds(|m|, b) && |d| <= b.size
    ensures Read(Store(m, b.addr, d), b) == d + Read(m, b)[|d|..]
  {
  }

  lemma PrefixReplaced<T>(first: seq<T>, rest: seq<T>, data: seq<T>, k: nat)
    requires k == Min(|data|, |first|) && |data| <= |first| + |rest|
    ensures data[..k] + first[k..] + (data[k..] + rest[|data| - k..])
         == data + (first + rest)[|data|..]
  {
  }

  lemma ScatterNothing(m: seq<byte>, bs: seq<Buffer>)
    requires AllInBounds(|m|, bs)
    ensures Scatter(m, bs, []) == m
  {
    if bs != [] {
      StoreNothing(m, bs[0].addr);
      ScatterNothing(m, bs[1..]);
    }
  }

  lemma StoreNothing(m: seq<byte>, addr: nat)
    requires addr <= |m|
    ensures Store(m, addr, []) == m
  {
  }

  lemma StoreTwice(m: seq<byte>, addr: nat, d1: seq<byte>, d2: seq<byte>)
    requires addr + |d1| + |d2| <= |m|
    ensures Store(Store(m, addr, d1), addr + |d1|, d2) == Store(m, addr, d1 + d2)
  {
  }

  lemma {:induction false} DropBytesInBounds(memSize: nat, bs: seq<Buffer>, n: nat)
    requires AllInBounds(memSize, bs) && n <= Total(bs)
    ensures |DropBytes(bs, n)| == |bs| && AllInBounds(memSize, DropBytes(bs, n))
    ensures forall i | 0 <= i < |bs| :: DropBytes(bs, n)[i].addr >= bs[i].addr
              && DropBytes(bs, n)[i].addr + DropBytes(bs, n)[i].size == bs[i].addr + bs[i].size
  {
    if bs != [] {
      var n' := if n < bs[0].size then 0 else n - bs[0].size;
      DropBytesInBounds(memSize, bs[1..], n');
      assert forall i | 0 < i < |bs| :: bs[i] == bs[1..][i - 1];
    }
  }

  lemma CutConcatTail<T>(a: seq<T>, b: seq<T>, n: nat)
    requires n <= |a| + |b|
    ensures (a + b)[n..] == a[Min(n, |a|)..] + b[if n < |a| then 0 else n - |a|..]
  {
  }

  /** A sequence without its first `n` bytes flattens to the flattened bytes without theirs. */
  lemma {:induction false} GatherDrop(m: seq<byte>, bs: seq<Buffer>, n: nat)
    requires AllInBounds(|m|, bs) && n <= Total(bs)
    ensures AllInBounds(|m|, DropBytes(bs, n))
    ensures Gather(m, DropBytes(bs, n)) == Gather(m, bs)[n..]
  {
    DropBytesInBounds(|m|, bs, n);
    if bs != [] {
      var n' := if n < bs[0].size then 0 else n - bs[0].size;
      GatherDrop(m, bs[1..], n');
      var b, k := bs[0], Min(n, bs[0].size);
      assert DropBytes(bs, n)[0] == Buffer(b.addr + k, b.size - k) && DropBytes(bs, n)[1..] == DropBytes(bs[1..], n');
      ReadSplit(m, b, k);
      CutConcatTail(Read(m, b), Gather(m, bs[1..]), n);
    }
  }
}
