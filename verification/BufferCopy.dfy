/** `buffer_size` and the `buffer_copy` overloads, over one memory array.

    Every overload is proved to compute `Copied`: the source is flattened, cut to the returned
    count, and laid over the flattened target. What that means for the bytes of the target, for
    the rest of memory, and for copies made in several pieces is proved about `Copied`. */
module BufferCopy {
  import opened Memory

  ghost function CopyCount(target: seq<Buffer>, source: seq<Buffer>, maxBytes: nat): nat {
    Min(Min(Total(target), Total(source)), maxBytes)
  }

  ghost function Copied(m: seq<byte>, target: seq<Buffer>, source: seq<Buffer>, maxBytes: nat): (m': seq<byte>)
    requires AllInBounds(|m|, target) && AllInBounds(|m|, source)
    ensures |m'| == |m|
  {
    Scatter(m, target, Gather(m, source)[..CopyCount(target, source, maxBytes)])
  }

  /** What a copy needs of its arguments: real memory, and no target byte that is a source byte. */
  ghost predicate Copyable(memSize: nat, target: seq<Buffer>, source: seq<Buffer>) {
    AllInBounds(memSize, target) && AllInBounds(memSize, source) && AllDisjoint(target, source)
  }

  // ---- buffer_size ----

  method BufferSize(bs: seq<Buffer>) returns (total: nat)
    ensures total == Total(bs)
  {
    total := 0;
    var i := 0;
    while i < |bs|
      invariant i <= |bs| && total == Total(bs[..i])
    {
      assert bs[..i + 1] == bs[..i] + [bs[i]];
      TotalConcat(bs[..i], [bs[i]]);
      total := total + bs[i].size;
      i := i + 1;
    }
    assert bs[..i] == bs;
  }

  // ---- one chunk at a time ----

  /** A buffer sequence from byte `offset` of buffer `i` on. */
  ghost function Rest(bs: seq<Buffer>, i: nat, offset: nat): seq<Buffer>
    requires i <= |bs|
  {
    if i == |bs| then [] else [Offset(bs[i], offset)] + bs[i + 1..]
  }

  /** A sequence whose first buffer is moved on by `n` bytes. */
  ghost function AdvanceHead(bs: seq<Buffer>, n: nat): seq<Buffer>
    requires bs != []
  {
    [Offset(bs[0], n)] + bs[1..]
  }

  lemma AdvanceCopyable(memSize: nat, target: seq<Buffer>, source: seq<Buffer>, n: nat)
    requires target != [] && source != [] && n <= target[0].size && n <= source[0].size
    requires Copyable(memSize, target, source)
    ensures Copyable(memSize, AdvanceHead(target, n), AdvanceHead(source, n))
    ensures Total(AdvanceHead(target, n)) == Total(target) - n
    ensures Total(AdvanceHead(source, n)) == Total(source) - n
  {
    hide AllInBounds, AllDisjoint, AdvanceHead, Total;
    AdvanceHeadParts(memSize, target, n);
    AdvanceHeadParts(memSize, source, n);
    AdvanceDisjoint(target, source, n);
  }

  lemma AdvanceDisjoint(target: seq<Buffer>, source: seq<Buffer>, n: nat)
    requires target != [] && source != [] && n <= target[0].size && n <= source[0].size
    requires AllDisjoint(target, source)
    ensures AllDisjoint(AdvanceHead(target, n), AdvanceHead(source, n))
  {
    forall i, j | 0 <= i < |target| && 0 <= j < |source|
      ensures Disjoint(AdvanceHead(target, n)[i], AdvanceHead(source, n)[j])
    {
      assert Disjoint(target[i], source[j]);
    }
  }

  lemma ScatterChunk(m: seq<byte>, bs: seq<Buffer>, data: seq<byte>, n: nat, bs1: seq<Buffer>, m1: seq<byte>, data1: seq<byte>)
    requires bs != [] && AllInBounds(|m|, bs) && |data| <= Total(bs)
    requires n <= |data| && n <= bs[0].size
    requires bs1 != [] && bs1[0] == Buffer(bs[0].addr + n, bs[0].size - n) && bs1[1..] == bs[1..]
    requires m1 == Store(m, bs[0].addr, data[..n]) && data1 == data[n..]
    requires AllInBounds(|m|, bs1) && |data1| <= Total(bs1)
    ensures Scatter(m, bs, data) == Scatter(m1, bs1, data1)
  {
    hide Scatter, Store, Total, AllInBounds;
    var k := Min(|data|, bs[0].size);
    HeadInBounds(|m|, bs);
    var m2, data2 := Store(m, bs[0].addr, data[..k]), data[k..];
    assert m2 == Store(m1, bs1[0].addr, data1[..k - n]) && data2 == data1[k - n..] by {
      StoreChunk(m, bs[0].addr, data, n, k);
    }
    ScatterHead(m, bs, data, m2, bs[1..], data2);
    ScatterHead(m1, bs1, data1, m2, bs[1..], data2);
  }

  lemma HeadInBounds(memSize: nat, bs: seq<Buffer>)
    requires bs != [] && AllInBounds(memSize, bs)
    ensures bs[0].addr + bs[0].size <= memSize
  {
  }

  lemma StoreChunk(m: seq<byte>, addr: nat, data: seq<byte>, n: nat, k: nat)
    requires n <= k <= |data| && addr + k <= |m|
    ensures Store(Store(m, addr, data[..n]), addr + n, data[n..][..k - n]) == Store(m, addr, data[..k])
    ensures data[n..][k - n..] == data[k..]
  {
    CutTwice(data, n, k);
    StoreTwice(m, addr, data[..n], data[n..k]);
  }

  /** The defining step of `Scatter`, in terms of its parts. */
  lemma ScatterHead(m: seq<byte>, bs: seq<Buffer>, data: seq<byte>, m1: seq<byte>, rest: seq<Buffer>, data1: seq<byte>)
    requires bs != [] && rest == bs[1..] && AllInBounds(|m|, bs) && |data| <= Total(bs)
    requires bs[0].addr + Min(|data|, bs[0].size) <= |m|
    requires m1 == Store(m, bs[0].addr, data[..Min(|data|, bs[0].size)])
    requires data1 == data[Min(|data|, bs[0].size)..]
    ensures AllInBounds(|m1|, rest) && |data1| <= Total(rest)
    ensures Scatter(m, bs, data) == Scatter(m1, rest, data1)
  {
  }

  lemma AdvanceHeadParts(memSize: nat, bs: seq<Buffer>, n: nat)
    requires bs != [] && n <= bs[0].size && AllInBounds(memSize, bs)
    ensures AdvanceHead(bs, n)[0] == Buffer(bs[0].addr + n, bs[0].size - n)
    ensures AdvanceHead(bs, n)[1..] == bs[1..]
    ensures Total(AdvanceHead(bs, n)) == Total(bs) - n
    ensures AllInBounds(memSize, AdvanceHead(bs, n))
  {
  }

  lemma GatherChunk(m: seq<byte>, bs: seq<Buffer>, n: nat)
    requires bs != [] && AllInBounds(|m|, bs) && n <= bs[0].size
    ensures AllInBounds(|m|, AdvanceHead(bs, n))
    ensures Gather(m, bs) == Read(m, bs[0])[..n] + Gather(m, AdvanceHead(bs, n))
  {
    AdvanceHeadParts(|m|, bs, n);
    ReadSplit(m, bs[0], n);
    Assoc(Read(m, bs[0])[..n], Read(m, Offset(bs[0], n)), Gather(m, bs[1..]));
  }

  lemma SkipEmptyTarget(m: seq<byte>, target: seq<Buffer>, source: seq<Buffer>, maxBytes: nat)
    requires target != [] && target[0].size == 0 && Copyable(|m|, target, source)
    ensures Copyable(|m|, target[1..], source)
    ensures Copied(m, target[1..], source, maxBytes) == Copied(m, target, source, maxBytes)
    ensures CopyCount(target[1..], source, maxBytes) == CopyCount(target, source, maxBytes)
  {
    StoreNothing(m, target[0].addr);
    assert AllDisjoint(target[1..], source);
    var data := Gather(m, source)[..CopyCount(target, source, maxBytes)];
    assert data[..0] == [] && data[0..] == data;
  }

  lemma SkipEmptySource(m: seq<byte>, target: seq<Buffer>, source: seq<Buffer>, maxBytes: nat)
    requires source != [] && source[0].size == 0 && Copyable(|m|, target, source)
    ensures Copyable(|m|, target, source[1..])
    ensures Copied(m, target, source[1..], maxBytes) == Copied(m, target, source, maxBytes)
    ensures CopyCount(target, source[1..], maxBytes) == CopyCount(target, source, maxBytes)
  {
    assert Gather(m, source) == Gather(m, source[1..]);
  }

  /** One call of `buffer_copy_1` on the heads of both sequences does the first part of the whole
      copy and leaves the rest of it still to do. */
  lemma CopyChunk(m: seq<byte>, target: seq<Buffer>, source: seq<Buffer>, maxBytes: nat, n: nat)
    requires target != [] && source != [] && Copyable(|m|, target, source)
    requires n == Min(Min(target[0].size, source[0].size), maxBytes)
    ensures Copyable(|m|, AdvanceHead(target, n), AdvanceHead(source, n))
    ensures n + CopyCount(AdvanceHead(target, n), AdvanceHead(source, n), maxBytes - n)
         == CopyCount(target, source, maxBytes)
    ensures Copied(Store(m, target[0].addr, Read(m, source[0])[..n]),
                   AdvanceHead(target, n), AdvanceHead(source, n), maxBytes - n)
         == Copied(m, target, source, maxBytes)
  {
    hide Scatter, Gather;
    AdvanceCopyable(|m|, target, source, n);
    var k := CopyCount(target, source, maxBytes);
    var data := Gather(m, source)[..k];
    var target1, source1 := AdvanceHead(target, n), AdvanceHead(source, n);
    GatherChunk(m, source, n);
    CutConcat(Read(m, source[0])[..n], Gather(m, source1), k);
    var m1 := Store(m, target[0].addr, data[..n]);
    AdvanceHeadParts(|m|, target, n);
    ScatterChunk(m, target, data, n, target1, m1, data[n..]);
    forall j | 0 <= j < |source1|
      ensures Disjoint(Buffer(target[0].addr, n), source1[j])
    {
      assert Disjoint(target[0], source[j]);
    }
    GatherAfterStore(m, target[0].addr, data[..n], source1);
  }

  lemma CutConcat<T>(a: seq<T>, b: seq<T>, k: nat)
    requires |a| <= k <= |a| + |b|
    ensures (a + b)[..k][..|a|] == a && (a + b)[..k][|a|..] == b[..k - |a|]
  {
  }

  lemma NothingLeft(m: seq<byte>, target: seq<Buffer>, source: seq<Buffer>, maxBytes: nat)
    requires AllInBounds(|m|, target) && AllInBounds(|m|, source)
    requires CopyCount(target, source, maxBytes) == 0
    ensures Copied(m, target, source, maxBytes) == m
  {
    ScatterNothing(m, target);
  }

  // ---- the overloads ----

  method BufferCopy1(mem: array<byte>, target: Buffer, source: Buffer) returns (n: nat)
    requires InBounds(mem.Length, target) && InBounds(mem.Length, source) && Disjoint(target, source)
    modifies mem
    ensures n == Min(target.size, source.size)
    ensures mem[..] == Store(old(mem[..]), target.addr, Read(old(mem[..]), source)[..n])
  {
    n := if target.size < source.size then target.size else source.size;
    if n > 0 {
      // memcpy
      forall i | 0 <= i < n {
        mem[target.addr + i] := mem[source.addr + i];
      }
    }
  }

  /** One buffer to one buffer: `buffer_copy_1` is the whole copy. */
  lemma SingleCopy(m: seq<byte>, target: Buffer, source: Buffer, maxBytes: nat)
    requires InBounds(|m|, target) && InBounds(|m|, source)
    ensures AllInBounds(|m|, [target]) && AllInBounds(|m|, [source])
    ensures CopyCount([target], [source], maxBytes) == Min(target.size, Min(source.size, maxBytes))
    ensures Copied(m, [target], [source], maxBytes)
         == Store(m, target.addr, Read(m, source)[..CopyCount([target], [source], maxBytes)])
  {
    SingleBuffer(m, source);
    SingleScatter(m, target, Read(m, source)[..Min(target.size, Min(source.size, maxBytes))]);
  }

  method CopyOneOne(mem: array<byte>, target: Buffer, source: Buffer) returns (n: nat)
    requires InBounds(mem.Length, target) && InBounds(mem.Length, source) && Disjoint(target, source)
    modifies mem
    ensures n == CopyCount([target], [source], source.size)
    ensures mem[..] == Copied(old(mem[..]), [target], [source], source.size)
  {
    SingleCopy(mem[..], target, source, source.size);
    n := BufferCopy1(mem, target, source);
  }

  lemma ClampedPrefix(m: seq<byte>, b: Buffer, maxBytes: nat, n: nat)
    requires InBounds(|m|, b) && n <= b.size && n <= maxBytes
    ensures InBounds(|m|, Clamp(b, maxBytes)) && Read(m, Clamp(b, maxBytes))[..n] == Read(m, b)[..n]
  {
    SliceOfSlice(m, b.addr, b.addr + b.size, 0, n);
    SliceOfSlice(m, b.addr, b.addr + Clamp(b, maxBytes).size, 0, n);
  }

  method CopyOneOneMax(mem: array<byte>, target: Buffer, source: Buffer, maxBytes: nat) returns (n: nat)
    requires InBounds(mem.Length, target) && InBounds(mem.Length, source) && Disjoint(target, source)
    modifies mem
    ensures n == CopyCount([target], [source], maxBytes)
    ensures mem[..] == Copied(old(mem[..]), [target], [source], maxBytes)
  {
    SingleCopy(mem[..], target, source, maxBytes);
    var clamped := Clamp(source, maxBytes);
    ClampedPrefix(mem[..], source, maxBytes, Min(target.size, clamped.size));
    n := BufferCopy1(mem, target, clamped);
  }

  /** Limiting a single target buffer to `maxBytes` limits the whole copy to `maxBytes`. */
  lemma ClampedTarget(m: seq<byte>, target: Buffer, source: seq<Buffer>, maxBytes: nat)
    requires InBounds(|m|, target) && Copyable(|m|, [target], source)
    ensures Copyable(|m|, [Clamp(target, maxBytes)], source)
    ensures CopyCount([Clamp(target, maxBytes)], source, Total(source)) == CopyCount([target], source, maxBytes)
    ensures Copied(m, [Clamp(target, maxBytes)], source, Total(source)) == Copied(m, [target], source, maxBytes)
  {
    var clamped := Clamp(target, maxBytes);
    forall j | 0 <= j < |source|
      ensures Disjoint(clamped, source[j])
    {
      assert Disjoint([target][0], source[j]);
    }
    var data := Gather(m, source)[..Min(clamped.size, Total(source))];
    SingleScatter(m, target, data);
    SingleScatter(m, clamped, data);
  }

  lemma ClampedSource(m: seq<byte>, target: seq<Buffer>, source: Buffer, maxBytes: nat)
    requires InBounds(|m|, source) && Copyable(|m|, target, [source])
    ensures Copyable(|m|, target, [Clamp(source, maxBytes)])
    ensures CopyCount(target, [Clamp(source, maxBytes)], Clamp(source, maxBytes).size)
         == CopyCount(target, [source], maxBytes)
    ensures Copied(m, target, [Clamp(source, maxBytes)], Clamp(source, maxBytes).size)
         == Copied(m, target, [source], maxBytes)
  {
    var clamped := Clamp(source, maxBytes);
    forall i | 0 <= i < |target|
      ensures Disjoint(target[i], clamped)
    {
      assert Disjoint(target[i], [source][0]);
    }
    SingleBuffer(m, source);
    SingleBuffer(m, clamped);
    var k := CopyCount(target, [source], maxBytes);
    ClampedPrefix(m, source, maxBytes, k);
  }

  /** After a chunk into a single target, either the target is full or the head of the source is
      used up; either way the loop may drop that head. */
  lemma DropSourceHead(m: seq<byte>, target: Buffer, source: seq<Buffer>)
    requires InBounds(|m|, target) && source != [] && Copyable(|m|, [target], source)
    requires target.size == 0 || source[0].size == 0
    ensures Copyable(|m|, [target], source[1..])
    ensures Copied(m, [target], source[1..], Total(source[1..])) == Copied(m, [target], source, Total(source))
    ensures CopyCount([target], source[1..], Total(source[1..])) == CopyCount([target], source, Total(source))
  {
    SingleBuffer(m, target);
    if source[0].size == 0 {
      SkipEmptySource(m, [target], source, Total(source));
    } else {
      NothingLeft(m, [target], source, Total(source));
      NothingLeft(m, [target], source[1..], Total(source[1..]));
    }
  }

  lemma DropTargetHead(m: seq<byte>, target: seq<Buffer>, source: Buffer)
    requires InBounds(|m|, source) && target != [] && Copyable(|m|, target, [source])
    requires source.size == 0 || target[0].size == 0
    ensures Copyable(|m|, target[1..], [source])
    ensures Copied(m, target[1..], [source], source.size) == Copied(m, target, [source], source.size)
    ensures CopyCount(target[1..], [source], source.size) == CopyCount(target, [source], source.size)
  {
    SingleBuffer(m, source);
    if target[0].size == 0 {
      SkipEmptyTarget(m, target, [source], source.size);
    } else {
      NothingLeft(m, target, [source], source.size);
      NothingLeft(m, target[1..], [source], source.size);
    }
  }

  /** One pass of the one-to-many loop. */
  lemma OneManyPass(m: seq<byte>, target: Buffer, source: seq<Buffer>, n: nat)
    requires InBounds(|m|, target) && source != [] && Copyable(|m|, [target], source)
    requires n == Min(target.size, source[0].size)
    ensures InBounds(|m|, Offset(target, n)) && Copyable(|m|, [Offset(target, n)], source[1..])
    ensures n + CopyCount([Offset(target, n)], source[1..], Total(source[1..]))
         == CopyCount([target], source, Total(source))
    ensures Copied(Store(m, target.addr, Read(m, source[0])[..n]), [Offset(target, n)], source[1..], Total(source[1..]))
         == Copied(m, [target], source, Total(source))
  {
    hide Copied, CopyCount, AllDisjoint;
    CopyChunk(m, [target], source, Total(source), n);
    AdvanceHeadParts(|m|, source, n);
    assert AdvanceHead([target], n) == [Offset(target, n)];
    DropSourceHead(Store(m, target.addr, Read(m, source[0])[..n]), Offset(target, n), AdvanceHead(source, n));
  }

  lemma ManyOnePass(m: seq<byte>, target: seq<Buffer>, source: Buffer, n: nat)
    requires InBounds(|m|, source) && target != [] && Copyable(|m|, target, [source])
    requires n == Min(target[0].size, source.size)
    ensures InBounds(|m|, Offset(source, n)) && Copyable(|m|, target[1..], [Offset(source, n)])
    ensures n + CopyCount(target[1..], [Offset(source, n)], source.size - n)
         == CopyCount(target, [source], source.size)
    ensures Copied(Store(m, target[0].addr, Read(m, source)[..n]), target[1..], [Offset(source, n)], source.size - n)
         == Copied(m, target, [source], source.size)
  {
    hide Copied, CopyCount, AllDisjoint;
    CopyChunk(m, target, [source], source.size, n);
    AdvanceHeadParts(|m|, target, n);
    assert AdvanceHead([source], n) == [Offset(source, n)];
    DropTargetHead(Store(m, target[0].addr, Read(m, source)[..n]), AdvanceHead(target, n), Offset(source, n));
  }

  method CopyOneMany(mem: array<byte>, target: Buffer, source: seq<Buffer>, maxBytes: nat) returns (total: nat)
    requires InBounds(mem.Length, target) && Copyable(mem.Length, [target], source)
    modifies mem
    ensures total == CopyCount([target], source, maxBytes)
    ensures mem[..] == Copied(old(mem[..]), [target], source, maxBytes)
  {
    total := 0;
    var i := 0;
    var targetBuffer := Clamp(target, maxBytes);
    ClampedTarget(mem[..], target, source, maxBytes);
    while targetBuffer.size != 0 && i != |source|
      invariant i <= |source| && InBounds(mem.Length, targetBuffer)
      invariant Copyable(mem.Length, [targetBuffer], source[i..])
      invariant total + CopyCount([targetBuffer], source[i..], Total(source[i..]))
             == CopyCount([target], source, maxBytes)
      invariant Copied(mem[..], [targetBuffer], source[i..], Total(source[i..]))
             == Copied(old(mem[..]), [target], source, maxBytes)
    {
      assert source[i..][0] == source[i] && source[i..][1..] == source[i + 1..];
      assert Disjoint([targetBuffer][0], source[i..][0]);
      OneManyPass(mem[..], targetBuffer, source[i..], Min(targetBuffer.size, source[i].size));
      var n := BufferCopy1(mem, targetBuffer, source[i]);
      total := total + n;
      targetBuffer := Offset(targetBuffer, n);
      i := i + 1;
    }
    SingleBuffer(mem[..], targetBuffer);
    NothingLeft(mem[..], [targetBuffer], source[i..], Total(source[i..]));
  }

  method CopyManyOne(mem: array<byte>, target: seq<Buffer>, source: Buffer, maxBytes: nat) returns (total: nat)
    requires InBounds(mem.Length, source) && Copyable(mem.Length, target, [source])
    modifies mem
    ensures total == CopyCount(target, [source], maxBytes)
    ensures mem[..] == Copied(old(mem[..]), target, [source], maxBytes)
  {
    total := 0;
    var i := 0;
    var sourceBuffer := Clamp(source, maxBytes);
    ClampedSource(mem[..], target, source, maxBytes);
    while sourceBuffer.size != 0 && i != |target|
      invariant i <= |target| && InBounds(mem.Length, sourceBuffer)
      invariant Copyable(mem.Length, target[i..], [sourceBuffer])
      invariant total + CopyCount(target[i..], [sourceBuffer], sourceBuffer.size)
             == CopyCount(target, [source], maxBytes)
      invariant Copied(mem[..], target[i..], [sourceBuffer], sourceBuffer.size)
             == Copied(old(mem[..]), target, [source], maxBytes)
    {
      assert target[i..][0] == target[i] && target[i..][1..] == target[i + 1..];
      assert Disjoint(target[i..][0], [sourceBuffer][0]);
      ManyOnePass(mem[..], target[i..], sourceBuffer, Min(target[i].size, sourceBuffer.size));
      var n := BufferCopy1(mem, target[i], sourceBuffer);
      total := total + n;
      sourceBuffer := Offset(sourceBuffer, n);
      i := i + 1;
    }
    NothingLeft(mem[..], target[i..], [sourceBuffer], sourceBuffer.size);
  }

  /** `bs'` is `bs`, or `bs` without an empty first buffer. */
  ghost predicate Trimmed(bs: seq<Buffer>, bs': seq<Buffer>) {
    bs' == bs || (bs != [] && bs[0].size == 0 && bs' == bs[1..])
  }

  lemma WholeRest(bs: seq<Buffer>)
    ensures Rest(bs, 0, 0) == bs
  {
    if bs != [] {
      assert Offset(bs[0], 0) == bs[0];
    }
  }

  lemma TrimHeads(m: seq<byte>, target: seq<Buffer>, target': seq<Buffer>,
                  source: seq<Buffer>, source': seq<Buffer>, maxBytes: nat)
    requires Copyable(|m|, target, source) && Trimmed(target, target') && Trimmed(source, source')
    ensures Copyable(|m|, target', source') && Total(source') == Total(source)
    ensures CopyCount(target', source', maxBytes) == CopyCount(target, source, maxBytes)
    ensures Copied(m, target', source', maxBytes) == Copied(m, target, source, maxBytes)
  {
    if target' != target {
      SkipEmptyTarget(m, target, source, maxBytes);
    }
    if source' != source {
      SkipEmptySource(m, target', source, maxBytes);
    }
  }

  /** A place in a buffer sequence: an iterator and an offset into the buffer it points at. */
  datatype Cursor = Cursor(i: nat, offset: nat)

  ghost predicate CursorIn(bs: seq<Buffer>, c: Cursor) {
    c.i <= |bs| && (c.i < |bs| ==> c.offset <= bs[c.i].size)
  }

  /** A copy to be made: its arguments, the count it returns and the memory it ends with. */
  datatype Goal = Goal(target: seq<Buffer>, source: seq<Buffer>, maxBytes: nat, count: nat, result: seq<byte>)

  /** Where a many-to-many loop stands after `n` more bytes of the buffer `b` it is in: a buffer that
      is used up is left at once. */
  ghost predicate Moved(b: Buffer, n: nat, c: Cursor, c': Cursor) {
    c' == if n == b.size then Cursor(c.i + 1, 0) else Cursor(c.i, c.offset + n)
  }

  lemma RestMoved(bs: seq<Buffer>, c: Cursor, n: nat, c': Cursor)
    requires CursorIn(bs, c) && c.i < |bs| && c.offset + n <= bs[c.i].size
    requires Moved(Offset(bs[c.i], c.offset), n, c, c')
    ensures CursorIn(bs, c') && Trimmed(AdvanceHead(Rest(bs, c.i, c.offset), n), Rest(bs, c'.i, c'.offset))
  {
    var rest := AdvanceHead(Rest(bs, c.i, c.offset), n);
    assert rest[0] == Offset(bs[c.i], c.offset + n) && rest[1..] == bs[c.i + 1..];
    if c'.i == c.i + 1 < |bs| {
      assert Offset(bs[c'.i], 0) == bs[c'.i];
    }
  }

  /** What a many-to-many loop keeps: the `total` bytes copied so far and the copy between what is
      left of both sequences make up the whole copy. */
  ghost predicate Underway(m: seq<byte>, goal: Goal, t: Cursor, s: Cursor, total: nat) {
    && CursorIn(goal.target, t) && CursorIn(goal.source, s) && total <= goal.maxBytes
    && (goal.maxBytes == Total(goal.source) ==>
          total + Total(Rest(goal.source, s.i, s.offset)) == Total(goal.source))
    && Copyable(|m|, Rest(goal.target, t.i, t.offset), Rest(goal.source, s.i, s.offset))
    && total + CopyCount(Rest(goal.target, t.i, t.offset), Rest(goal.source, s.i, s.offset), goal.maxBytes - total)
       == goal.count
    && Copied(m, Rest(goal.target, t.i, t.offset), Rest(goal.source, s.i, s.offset), goal.maxBytes - total)
       == goal.result
  }

  lemma UnderwayAtStart(m: seq<byte>, goal: Goal)
    requires Copyable(|m|, goal.target, goal.source)
    requires goal.count == CopyCount(goal.target, goal.source, goal.maxBytes)
    requires goal.result == Copied(m, goal.target, goal.source, goal.maxBytes)
    ensures Underway(m, goal, Cursor(0, 0), Cursor(0, 0), 0)
  {
    WholeRest(goal.target);
    WholeRest(goal.source);
  }

  lemma UnderwayAtEnd(m: seq<byte>, goal: Goal, t: Cursor, s: Cursor, total: nat)
    requires Underway(m, goal, t, s, total)
    requires t.i == |goal.target| || s.i == |goal.source| || total == goal.maxBytes
    ensures total == goal.count && m == goal.result
  {
    NothingLeft(m, Rest(goal.target, t.i, t.offset), Rest(goal.source, s.i, s.offset), goal.maxBytes - total);
  }

  /** The next chunk lies in memory and does not overlap; without a limit of the caller's, the whole
      source buffer fits what is left to copy. */
  lemma HeadsCopyable(m: seq<byte>, goal: Goal, t: Cursor, s: Cursor, total: nat)
    requires Underway(m, goal, t, s, total) && t.i < |goal.target| && s.i < |goal.source|
    ensures total <= goal.maxBytes
    ensures t.offset <= goal.target[t.i].size && s.offset <= goal.source[s.i].size
    ensures InBounds(|m|, Offset(goal.target[t.i], t.offset)) && InBounds(|m|, Offset(goal.source[s.i], s.offset))
    ensures Disjoint(Offset(goal.target[t.i], t.offset), Offset(goal.source[s.i], s.offset))
    ensures goal.maxBytes == Total(goal.source) ==> goal.source[s.i].size - s.offset <= goal.maxBytes - total
  {
    assert Disjoint(Rest(goal.target, t.i, t.offset)[0], Rest(goal.source, s.i, s.offset)[0]);
  }

  /** One pass of either many-to-many loop. */
  lemma ManyManyPass(m: seq<byte>, m': seq<byte>, goal: Goal, t: Cursor, t': Cursor, s: Cursor, s': Cursor,
                     total: nat, n: nat)
    requires Underway(m, goal, t, s, total) && t.i < |goal.target| && s.i < |goal.source|
    requires var tb, sb := Offset(goal.target[t.i], t.offset), Offset(goal.source[s.i], s.offset);
      && n == Min(tb.size, Min(sb.size, goal.maxBytes - total)) && tb.addr + n <= |m| && InBounds(|m|, sb)
      && m' == Store(m, tb.addr, Read(m, sb)[..n])
      && Moved(tb, n, t, t') && Moved(sb, n, s, s')
    ensures Underway(m', goal, t', s', total + n)
  {
    hide Copied, CopyCount, Trimmed, AllDisjoint, AllInBounds;
    var target, source := Rest(goal.target, t.i, t.offset), Rest(goal.source, s.i, s.offset);
    var target', source' := Rest(goal.target, t'.i, t'.offset), Rest(goal.source, s'.i, s'.offset);
    CopyChunk(m, target, source, goal.maxBytes - total, n);
    AdvanceCopyable(|m|, target, source, n);
    RestMoved(goal.target, t, n, t');
    RestMoved(goal.source, s, n, s');
    TrimHeads(m', AdvanceHead(target, n), target', AdvanceHead(source, n), source', goal.maxBytes - total - n);
  }

  method CopyManyMany(mem: array<byte>, target: seq<Buffer>, source: seq<Buffer>) returns (total: nat)
    requires Copyable(mem.Length, target, source)
    modifies mem
    ensures total == CopyCount(target, source, Total(source))
    ensures mem[..] == Copied(old(mem[..]), target, source, Total(source))
  {
    hide Underway, Copied, CopyCount, Store, Read;
    total := 0;
    var ti: nat, targetOffset: nat := 0, 0;
    var si: nat, sourceOffset: nat := 0, 0;
    ghost var goal := Goal(target, source, Total(source), CopyCount(target, source, Total(source)),
                           Copied(mem[..], target, source, Total(source)));
    UnderwayAtStart(mem[..], goal);
    while ti != |target| && si != |source|
      invariant ti <= |target| && si <= |source|
      invariant Underway(mem[..], goal, Cursor(ti, targetOffset), Cursor(si, sourceOffset), total)
      decreases (|target| - ti) + (|source| - si)
    {
      ghost var m, t, s := mem[..], Cursor(ti, targetOffset), Cursor(si, sourceOffset);
      HeadsCopyable(m, goal, t, s, total);
      var targetBuffer := Offset(target[ti], targetOffset);
      var sourceBuffer := Offset(source[si], sourceOffset);
      var n := BufferCopy1(mem, targetBuffer, sourceBuffer);
      total := total + n;
      if n == targetBuffer.size {
        ti, targetOffset := ti + 1, 0;
      } else {
        targetOffset := targetOffset + n;
      }
      if n == sourceBuffer.size {
        si, sourceOffset := si + 1, 0;
      } else {
        sourceOffset := sourceOffset + n;
      }
      ManyManyPass(m, mem[..], goal, t, Cursor(ti, targetOffset), s, Cursor(si, sourceOffset), total - n, n);
    }
    UnderwayAtEnd(mem[..], goal, Cursor(ti, targetOffset), Cursor(si, sourceOffset), total);
  }

  method CopyManyManyMax(mem: array<byte>, target: seq<Buffer>, source: seq<Buffer>, maxBytes: nat)
    returns (total: nat)
    requires Copyable(mem.Length, target, source)
    modifies mem
    ensures total == CopyCount(target, source, maxBytes)
    ensures mem[..] == Copied(old(mem[..]), target, source, maxBytes)
  {
    hide Underway, Copied, CopyCount, Store, Read;
    total := 0;
    var ti: nat, targetOffset: nat := 0, 0;
    var si: nat, sourceOffset: nat := 0, 0;
    ghost var goal := Goal(target, source, maxBytes, CopyCount(target, source, maxBytes),
                           Copied(mem[..], target, source, maxBytes));
    UnderwayAtStart(mem[..], goal);
    while total != maxBytes && ti != |target| && si != |source|
      invariant ti <= |target| && si <= |source|
      invariant Underway(mem[..], goal, Cursor(ti, targetOffset), Cursor(si, sourceOffset), total)
      decreases (|target| - ti) + (|source| - si) + (if total != maxBytes then 1 else 0)
    {
      ghost var m, t, s := mem[..], Cursor(ti, targetOffset), Cursor(si, sourceOffset);
      HeadsCopyable(m, goal, t, s, total);
      var targetBuffer := Offset(target[ti], targetOffset);
      var sourceBuffer := Offset(source[si], sourceOffset);
      var n := BufferCopy1(mem, targetBuffer, Clamp(sourceBuffer, maxBytes - total));
      ClampedPrefix(m, sourceBuffer, maxBytes - total, n);
      total := total + n;
      if n == targetBuffer.size {
        ti, targetOffset := ti + 1, 0;
      } else {
        targetOffset := targetOffset + n;
      }
      if n == sourceBuffer.size {
        si, sourceOffset := si + 1, 0;
      } else {
        sourceOffset := sourceOffset + n;
      }
      ManyManyPass(m, mem[..], goal, t, Cursor(ti, targetOffset), s, Cursor(si, sourceOffset), total - n, n);
    }
    UnderwayAtEnd(mem[..], goal, Cursor(ti, targetOffset), Cursor(si, sourceOffset), total);
  }

  // ---- what a copy means ----

  /** Over pairwise disjoint targets a copy replaces the first `k` flattened bytes of the target by
      those of the source, `k` the returned count, the least of both sizes and the limit; it changes neither the source nor any address
      outside those first `k` bytes of the target. */
  lemma {:induction false} CopyMeaning(m: seq<byte>, target: seq<Buffer>, source: seq<Buffer>, maxBytes: nat)
    requires Copyable(|m|, target, source) && PairwiseDisjoint(target)
    ensures var k, m' := CopyCount(target, source, maxBytes), Copied(m, target, source, maxBytes);
      && k <= |Gather(m, target)| && k <= |Gather(m, source)| && k <= maxBytes
      && (k == |Gather(m, target)| || k == |Gather(m, source)| || k == maxBytes)
      && Gather(m', target) == Gather(m, source)[..k] + Gather(m, target)[k..]
      && Gather(m', source) == Gather(m, source)
      && forall a | 0 <= a < |m| && !InPrefix(target, k, a) :: m'[a] == m[a]
  {
    var k, m' := CopyCount(target, source, maxBytes), Copied(m, target, source, maxBytes);
    var data := Gather(m, source)[..k];
    GatherScatter(m, target, data);
    CopyKeepsSource(m, target, source, maxBytes);
    forall a | 0 <= a < |m| && !InPrefix(target, k, a)
      ensures m'[a] == m[a]
    {
      ScatterFrame(m, target, data, a);
    }
  }

  lemma {:induction false} CopyKeepsSource(m: seq<byte>, target: seq<Buffer>, source: seq<Buffer>, maxBytes: nat)
    requires Copyable(|m|, target, source)
    ensures Gather(Copied(m, target, source, maxBytes), source) == Gather(m, source)
  {
    var data := Gather(m, source)[..CopyCount(target, source, maxBytes)];
    forall j | 0 <= j < |source|
      ensures Read(m, source[j]) == Read(Copied(m, target, source, maxBytes), source[j])
    {
      ScatterKeepsDisjoint(m, target, data, source[j]);
    }
    GatherFrame(m, Copied(m, target, source, maxBytes), source);
  }

  /** Linearise, then scatter: through one flat buffer of `buffer_size(source)` bytes, the bytes of
      the source reach any disjoint target of the same total size, however it is cut up. */
  lemma {:induction false} LineariseAndScatter(m: seq<byte>, source: seq<Buffer>, flat: Buffer, target: seq<Buffer>)
    requires flat.size == Total(source) == Total(target)
    requires Copyable(|m|, [flat], source) && Copyable(|m|, target, [flat]) && PairwiseDisjoint(target)
    ensures var m1 := Copied(m, [flat], source, Total(source));
      && Read(m1, flat) == Gather(m, source)
      && Gather(Copied(m1, target, [flat], flat.size), target) == Gather(m, source)
  {
    assert InBounds(|m|, [flat][0]);
    SingleBuffer(m, flat);
    CopyMeaning(m, [flat], source, Total(source));
    var m1 := Copied(m, [flat], source, Total(source));
    SingleBuffer(m1, flat);
    CopyMeaning(m1, target, [flat], flat.size);
    assert Gather(m, source)[..Total(source)] == Gather(m, source);
    assert Read(m1, flat)[..flat.size] == Read(m1, flat);
  }

  lemma {:induction false} DropNothing(bs: seq<Buffer>)
    ensures DropBytes(bs, 0) == bs
  {
    if bs != [] {
      DropNothing(bs[1..]);
      assert Offset(bs[0], 0) == bs[0];
    }
  }

  /** Writing two pieces, the second from where the first stopped, is one write of both. */
  lemma {:induction false} ScatterInTwo(m: seq<byte>, bs: seq<Buffer>, d1: seq<byte>, d2: seq<byte>)
    requires AllInBounds(|m|, bs) && |d1| + |d2| <= Total(bs)
    requires AllInBounds(|m|, DropBytes(bs, |d1|))
    ensures Scatter(Scatter(m, bs, d1), DropBytes(bs, |d1|), d2) == Scatter(m, bs, d1 + d2)
    decreases |bs|
  {
    hide Scatter, Store, DropBytes, AllInBounds;
    if bs == [] {
      NothingInTwo(m, bs, d1, d2);
    } else if |d1| < bs[0].size {
      ScatterInTwoInHead(m, bs, d1, d2);
    } else {
      var m1, d := WholeHeadStored(m, bs, d1), d1[bs[0].size..];
      WholeHeadInBounds(m, bs, d1);
      ScatterInTwo(m1, bs[1..], d, d2);
      ScatterInTwoPastHead(m, bs, d1, d2);
    }
  }

  lemma NothingInTwo(m: seq<byte>, bs: seq<Buffer>, d1: seq<byte>, d2: seq<byte>)
    requires bs == [] && d1 == d2 == []
    ensures Scatter(Scatter(m, bs, d1), DropBytes(bs, 0), d2) == Scatter(m, bs, d1 + d2)
  {
  }

  /** The memory once the first buffer is full. */
  function WholeHeadStored(m: seq<byte>, bs: seq<Buffer>, d: seq<byte>): (r: seq<byte>)
    requires bs != [] && AllInBounds(|m|, bs) && |d| >= bs[0].size
    ensures |r| == |m|
  {
    Store(m, bs[0].addr, d[..bs[0].size])
  }

  lemma WholeHeadInBounds(m: seq<byte>, bs: seq<Buffer>, d: seq<byte>)
    requires bs != [] && AllInBounds(|m|, bs) && bs[0].size <= |d| <= Total(bs)
    ensures AllInBounds(|m|, bs[1..]) && AllInBounds(|m|, DropBytes(bs[1..], |d| - bs[0].size))
  {
    DropBytesInBounds(|m|, bs[1..], |d| - bs[0].size);
  }

  /** When the first piece fills the first buffer, both writes are the same two writes from the second on. */
  lemma ScatterInTwoPastHead(m: seq<byte>, bs: seq<Buffer>, d1: seq<byte>, d2: seq<byte>)
    requires AllInBounds(|m|, bs) && |d1| + |d2| <= Total(bs)
    requires AllInBounds(|m|, DropBytes(bs, |d1|))
    requires bs != [] && |d1| >= bs[0].size && AllInBounds(|m|, bs[1..])
    requires AllInBounds(|m|, DropBytes(bs[1..], |d1| - bs[0].size))
    requires var m1, d := WholeHeadStored(m, bs, d1), d1[bs[0].size..];
      Scatter(Scatter(m1, bs[1..], d), DropBytes(bs[1..], |d|), d2) == Scatter(m1, bs[1..], d + d2)
    ensures Scatter(Scatter(m, bs, d1), DropBytes(bs, |d1|), d2) == Scatter(m, bs, d1 + d2)
  {
    hide Scatter, Store, DropBytes, AllInBounds;
    ScatterWholeHead(m, bs, d1, d2);
    ScatterAfterDrop(Scatter(m, bs, d1), bs, |d1|, d2);
  }

  lemma ScatterInTwoInHead(m: seq<byte>, bs: seq<Buffer>, d1: seq<byte>, d2: seq<byte>)
    requires AllInBounds(|m|, bs) && |d1| + |d2| <= Total(bs)
    requires AllInBounds(|m|, DropBytes(bs, |d1|))
    requires bs != [] && |d1| < bs[0].size
    ensures Scatter(Scatter(m, bs, d1), DropBytes(bs, |d1|), d2) == Scatter(m, bs, d1 + d2)
  {
    hide Scatter, Store;
    DropWithinHead(bs, |d1|);
    var m1 := Store(m, bs[0].addr, d1);
    assert d1[..|d1|] == d1 && d1[|d1|..] == [];
    assert Min(|d1|, bs[0].size) == |d1|;
    ScatterHead(m, bs, d1, m1, bs[1..], []);
    ScatterNothing(m1, bs[1..]);
    assert (d1 + d2)[..|d1|] == d1 && (d1 + d2)[|d1|..] == d2;
    AdvanceHeadParts(|m|, bs, |d1|);
    ScatterChunk(m, bs, d1 + d2, |d1|, AdvanceHead(bs, |d1|), m1, d2);
  }

  lemma DropWithinHead(bs: seq<Buffer>, n: nat)
    requires bs != [] && n < bs[0].size
    ensures DropBytes(bs, n) == AdvanceHead(bs, n)
  {
    DropNothing(bs[1..]);
  }

  lemma DropBeyondHead(bs: seq<Buffer>, n: nat)
    requires bs != [] && bs[0].size <= n <= Total(bs)
    ensures DropBytes(bs, n) == [Buffer(bs[0].addr + bs[0].size, 0)] + DropBytes(bs[1..], n - bs[0].size)
  {
  }

  lemma ScatterWholeHead(m: seq<byte>, bs: seq<Buffer>, d1: seq<byte>, d2: seq<byte>)
    requires AllInBounds(|m|, bs) && |d1| + |d2| <= Total(bs)
    requires bs != [] && |d1| >= bs[0].size
    ensures var m1, d := Store(m, bs[0].addr, d1[..bs[0].size]), d1[bs[0].size..];
      && Scatter(m, bs, d1) == Scatter(m1, bs[1..], d)
      && Scatter(m, bs, d1 + d2) == Scatter(m1, bs[1..], d + d2)
  {
    hide Scatter, Store, Total;
    var size, d := bs[0].size, d1 + d2;
    CutConcatAt(d1, d2, size);
    assert Min(|d1|, size) == size == Min(|d|, size);
    ScatterHead(m, bs, d1, Store(m, bs[0].addr, d1[..size]), bs[1..], d1[size..]);
    ScatterHead(m, bs, d, Store(m, bs[0].addr, d[..size]), bs[1..], d[size..]);
  }

  lemma ScatterAfterDrop(m: seq<byte>, bs: seq<Buffer>, n: nat, data: seq<byte>)
    requires bs != [] && bs[0].size <= n && n + |data| <= Total(bs) && AllInBounds(|m|, bs)
    ensures AllInBounds(|m|, DropBytes(bs, n)) && AllInBounds(|m|, DropBytes(bs[1..], n - bs[0].size))
    ensures Scatter(m, DropBytes(bs, n), data) == Scatter(m, DropBytes(bs[1..], n - bs[0].size), data)
  {
    hide Scatter, DropBytes;
    DropBytesInBounds(|m|, bs, n);
    DropBytesInBounds(|m|, bs[1..], n - bs[0].size);
    DropBeyondHead(bs, n);
    ScatterPastEmpty(m, Buffer(bs[0].addr + bs[0].size, 0), DropBytes(bs[1..], n - bs[0].size), data);
  }

  lemma CutConcatAt<T>(a: seq<T>, b: seq<T>, n: nat)
    requires n <= |a|
    ensures (a + b)[..n] == a[..n] && (a + b)[n..] == a[n..] + b
  {
  }

  lemma ScatterPastEmpty(m: seq<byte>, b: Buffer, rest: seq<Buffer>, data: seq<byte>)
    requires b.size == 0 && AllInBounds(|m|, [b] + rest) && |data| <= Total([b] + rest)
    ensures AllInBounds(|m|, rest) && |data| <= Total(rest)
    ensures Scatter(m, [b] + rest, data) == Scatter(m, rest, data)
  {
    hide Scatter, Store, AllInBounds, Total;
    var bs := [b] + rest;
    assert bs[0] == b && bs[1..] == rest;
    HeadInBounds(|m|, bs);
    StoreNothing(m, b.addr);
    assert data[..0] == [] && data[0..] == data;
    assert Min(|data|, b.size) == 0;
    ScatterHead(m, bs, data, m, rest, data);
  }

  lemma DropCopyable(memSize: nat, target: seq<Buffer>, source: seq<Buffer>, n: nat)
    requires Copyable(memSize, target, source) && n <= Total(target) && n <= Total(source)
    ensures Copyable(memSize, DropBytes(target, n), DropBytes(source, n))
  {
    DropBytesInBounds(memSize, target, n);
    DropBytesInBounds(memSize, source, n);
    forall i, j | 0 <= i < |target| && 0 <= j < |source|
      ensures Disjoint(DropBytes(target, n)[i], DropBytes(source, n)[j])
    {
      assert Disjoint(target[i], source[j]);
      assert DropBytes(target, n)[i].addr >= target[i].addr && DropBytes(source, n)[j].addr >= source[j].addr;
    }
  }

  /** Copying first at most `n` bytes and then the rest, each from where the last copy stopped, is
      one copy: the two counts add up and memory ends the same. */
  lemma {:induction false} CopyInTwoPieces(m: seq<byte>, target: seq<Buffer>, source: seq<Buffer>, n: nat, maxBytes: nat)
    requires Copyable(|m|, target, source) && n <= maxBytes
    ensures var k := CopyCount(target, source, n);
      && Copyable(|m|, DropBytes(target, k), DropBytes(source, k))
      && k + CopyCount(DropBytes(target, k), DropBytes(source, k), maxBytes - n)
         == CopyCount(target, source, maxBytes)
      && Copied(Copied(m, target, source, n), DropBytes(target, k), DropBytes(source, k), maxBytes - n)
         == Copied(m, target, source, maxBytes)
  {
    hide Scatter, Gather, DropBytes, Total;
    var k := CopyCount(target, source, n);
    DropCopyable(|m|, target, source, k);
    var target', source' := DropBytes(target, k), DropBytes(source, k);
    var k' := CopyCount(target', source', maxBytes - n);
    var m1, data := Copied(m, target, source, n), Gather(m, source);
    CopyKeepsSource(m, target, source, n);
    GatherDrop(m1, source, k);
    ScatterInTwo(m, target, data[..k], data[k..][..k']);
    assert data[..k] + data[k..][..k'] == data[..k + k'];
  }
}
