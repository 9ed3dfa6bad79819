/** `buffers_iterator`: a random access iterator over the bytes of a buffer sequence.

    The reference is `Locate`, the place of the k-th byte in the sequence. The class keeps its five
    fields as the source does; every operation is proved against single steps from place to place. */
module BuffersIterator {
  import opened Memory

  /** Which buffer, and how far into it. */
  datatype Place = Place(current: nat, offset: nat)

  /** The number of bytes in the first `i` buffers. */
  function SizeBefore(bs: seq<Buffer>, i: nat): nat
    requires i <= |bs|
  {
    if i == 0 then 0 else SizeBefore(bs, i - 1) + bs[i - 1].size
  }

  /** At the end, or inside a non-empty buffer. */
  predicate Canonical(bs: seq<Buffer>, p: Place) {
    p.current <= |bs| && if p.current == |bs| then p.offset == 0 else p.offset < bs[p.current].size
  }

  /** Order of places: by buffer, then by offset. */
  predicate Before(p: Place, q: Place) {
    p.current < q.current || (p.current == q.current && p.offset < q.offset)
  }

  function Position(bs: seq<Buffer>, p: Place): nat
    requires p.current <= |bs|
  {
    SizeBefore(bs, p.current) + p.offset
  }

  /** The place of the byte `k` after the start of buffer `i`. */
  function LocateFrom(bs: seq<Buffer>, i: nat, k: nat): Place
    requires i <= |bs|
    decreases |bs| - i
  {
    if i == |bs| then Place(i, 0)
    else if k < bs[i].size then Place(i, k)
    else LocateFrom(bs, i + 1, k - bs[i].size)
  }

  function Locate(bs: seq<Buffer>, k: nat): Place {
    LocateFrom(bs, 0, k)
  }

  // ---- single steps ----

  /** The first byte at or after the start of buffer `i`. */
  function FirstFrom(bs: seq<Buffer>, i: nat): Place
    requires i <= |bs|
    decreases |bs| - i
  {
    if i == |bs| || bs[i].size > 0 then Place(i, 0) else FirstFrom(bs, i + 1)
  }

  /** The last byte before the start of buffer `i`. */
  function LastBefore(bs: seq<Buffer>, i: nat): Place
    requires i <= |bs| && SizeBefore(bs, i) > 0
  {
    if bs[i - 1].size > 0 then Place(i - 1, bs[i - 1].size - 1) else LastBefore(bs, i - 1)
  }

  function Next(bs: seq<Buffer>, p: Place): Place
    requires Canonical(bs, p) && p.current < |bs|
  {
    if p.offset + 1 < bs[p.current].size then Place(p.current, p.offset + 1) else FirstFrom(bs, p.current + 1)
  }

  function Prev(bs: seq<Buffer>, p: Place): Place
    requires Canonical(bs, p) && Position(bs, p) > 0
  {
    if p.offset > 0 then Place(p.current, p.offset - 1) else LastBefore(bs, p.current)
  }

  /** The place reached by `|n|` single steps, forward or backward. */
  function Steps(bs: seq<Buffer>, p: Place, n: int): (q: Place)
    requires Canonical(bs, p) && 0 <= Position(bs, p) + n <= Total(bs)
    ensures Canonical(bs, q) && Position(bs, q) == Position(bs, p) + n
    decreases if n < 0 then -n else n
  {
    if n == 0 then p
    else if n > 0 then
      PositionBelowSize(bs, p);
      NextIsOneOn(bs, p);
      Steps(bs, Next(bs, p), n - 1)
    else
      PrevIsOneBack(bs, p);
      Steps(bs, Prev(bs, p), n + 1)
  }

  lemma {:induction false} SizeBeforeMonotone(bs: seq<Buffer>, i: nat, j: nat)
    requires i <= j <= |bs|
    ensures SizeBefore(bs, i) <= SizeBefore(bs, j)
  {
    if i < j {
      SizeBeforeMonotone(bs, i, j - 1);
    }
  }

  lemma {:induction false} SizeBeforeTail(bs: seq<Buffer>, i: nat)
    requires i <= |bs|
    ensures i > 0 ==> SizeBefore(bs, i) == bs[0].size + SizeBefore(bs[1..], i - 1)
  {
    if i > 1 {
      SizeBeforeTail(bs, i - 1);
    }
  }

  lemma {:induction false} SizeBeforeAll(bs: seq<Buffer>)
    ensures SizeBefore(bs, |bs|) == Total(bs)
  {
    if bs != [] {
      SizeBeforeAll(bs[1..]);
      SizeBeforeTail(bs, |bs|);
    }
  }

  /** Only the end is at the total size. */
  lemma PositionBelowSize(bs: seq<Buffer>, p: Place)
    requires Canonical(bs, p)
    ensures Position(bs, p) <= Total(bs)
    ensures p.current < |bs| <==> Position(bs, p) < Total(bs)
  {
    SizeBeforeAll(bs);
    if p.current < |bs| {
      SizeBeforeMonotone(bs, p.current + 1, |bs|);
    }
  }

  lemma {:induction false} FirstFromIsCanonical(bs: seq<Buffer>, i: nat)
    requires i <= |bs|
    ensures Canonical(bs, FirstFrom(bs, i)) && Position(bs, FirstFrom(bs, i)) == SizeBefore(bs, i)
    decreases |bs| - i
  {
    if i < |bs| && bs[i].size == 0 {
      FirstFromIsCanonical(bs, i + 1);
    }
  }

  lemma {:induction false} LastBeforeIsCanonical(bs: seq<Buffer>, i: nat)
    requires i <= |bs| && SizeBefore(bs, i) > 0
    ensures Canonical(bs, LastBefore(bs, i)) && Position(bs, LastBefore(bs, i)) == SizeBefore(bs, i) - 1
  {
    if bs[i - 1].size == 0 {
      LastBeforeIsCanonical(bs, i - 1);
    }
  }

  lemma NextIsOneOn(bs: seq<Buffer>, p: Place)
    requires Canonical(bs, p) && p.current < |bs|
    ensures Canonical(bs, Next(bs, p)) && Position(bs, Next(bs, p)) == Position(bs, p) + 1
  {
    FirstFromIsCanonical(bs, p.current + 1);
  }

  lemma PrevIsOneBack(bs: seq<Buffer>, p: Place)
    requires Canonical(bs, p) && Position(bs, p) > 0
    ensures Canonical(bs, Prev(bs, p)) && Position(bs, Prev(bs, p)) == Position(bs, p) - 1
  {
    if p.offset == 0 {
      LastBeforeIsCanonical(bs, p.current);
    }
  }

  // ---- positions and places ----

  /** `equal` compares positions only, and that decides the buffer and the offset. */
  lemma EqualPositionsArePlaces(bs: seq<Buffer>, p: Place, q: Place)
    requires Canonical(bs, p) && Canonical(bs, q)
    ensures Position(bs, p) == Position(bs, q) <==> p == q
    ensures Position(bs, p) < Position(bs, q) <==> Before(p, q)
  {
    if p.current < q.current {
      SizeBeforeMonotone(bs, p.current + 1, q.current);
    } else if q.current < p.current {
      SizeBeforeMonotone(bs, q.current + 1, p.current);
    }
  }

  lemma {:induction false} LocateFromPosition(bs: seq<Buffer>, i: nat, k: nat)
    requires i <= |bs| && SizeBefore(bs, i) + k <= Total(bs)
    ensures Canonical(bs, LocateFrom(bs, i, k)) && Position(bs, LocateFrom(bs, i, k)) == SizeBefore(bs, i) + k
    decreases |bs| - i
  {
    SizeBeforeAll(bs);
    if i < |bs| && k >= bs[i].size {
      LocateFromPosition(bs, i + 1, k - bs[i].size);
    }
  }

  /** The canonical places are exactly the places of the positions `0 .. Total(bs)`. */
  lemma CanonicalIffLocated(bs: seq<Buffer>, p: Place)
    ensures Canonical(bs, p) <==> exists k :: 0 <= k <= Total(bs) && Locate(bs, k) == p
    ensures Canonical(bs, p) ==> Locate(bs, Position(bs, p)) == p
  {
    forall k | 0 <= k <= Total(bs)
      ensures Canonical(bs, Locate(bs, k)) && Position(bs, Locate(bs, k)) == k
    {
      LocateFromPosition(bs, 0, k);
    }
    if Canonical(bs, p) {
      PositionBelowSize(bs, p);
      EqualPositionsArePlaces(bs, p, Locate(bs, Position(bs, p)));
    }
  }

  // ---- the random access laws ----

  /** A byte of the flattened sequence, reached through its place. */
  lemma {:induction false} FlatIndex(m: seq<byte>, bs: seq<Buffer>, p: Place)
    requires AllInBounds(|m|, bs) && Canonical(bs, p) && p.current < |bs|
    ensures Position(bs, p) < Total(bs)
    ensures Gather(m, bs)[Position(bs, p)] == m[bs[p.current].addr + p.offset]
    decreases |bs|
  {
    PositionBelowSize(bs, p);
    SizeBeforeTail(bs, p.current);
    assert Gather(m, bs) == Read(m, bs[0]) + Gather(m, bs[1..]);
    if p.current == 0 {
      assert Read(m, bs[0])[p.offset] == m[bs[0].addr + p.offset];
    } else {
      var tail, q := bs[1..], Place(p.current - 1, p.offset);
      assert tail[q.current] == bs[p.current];
      FlatIndex(m, tail, q);
    }
  }

  /** `(it + a) + b` is `it + (a + b)`, hence `(it + n) - n` is `it`; `(it + n) - it` is `n`. */
  lemma StepsCompose(bs: seq<Buffer>, p: Place, a: int, b: int)
    requires Canonical(bs, p) && 0 <= Position(bs, p) + a <= Total(bs) && 0 <= Position(bs, p) + a + b <= Total(bs)
    ensures Steps(bs, Steps(bs, p, a), b) == Steps(bs, p, a + b)
    ensures Position(bs, p) <= Total(bs) && Steps(bs, Steps(bs, p, a), -a) == p
    ensures Position(bs, Steps(bs, p, a)) - Position(bs, p) == a
  {
    PositionBelowSize(bs, p);
    EqualPositionsArePlaces(bs, Steps(bs, Steps(bs, p, a), b), Steps(bs, p, a + b));
    EqualPositionsArePlaces(bs, Steps(bs, Steps(bs, p, a), -a), p);
  }

  /** One step forward and one back, in either order, is no step. */
  lemma NextPrevInverse(bs: seq<Buffer>, p: Place)
    requires Canonical(bs, p)
    ensures p.current < |bs| ==> Canonical(bs, Next(bs, p)) && Position(bs, Next(bs, p)) > 0
    ensures p.current < |bs| ==> Prev(bs, Next(bs, p)) == p
    ensures Position(bs, p) > 0 ==> Canonical(bs, Prev(bs, p)) && Prev(bs, p).current < |bs|
    ensures Position(bs, p) > 0 ==> Next(bs, Prev(bs, p)) == p
  {
    PositionBelowSize(bs, p);
    if p.current < |bs| {
      NextIsOneOn(bs, p);
      PrevIsOneBack(bs, Next(bs, p));
      EqualPositionsArePlaces(bs, Prev(bs, Next(bs, p)), p);
    }
    if Position(bs, p) > 0 {
      PrevIsOneBack(bs, p);
      PositionBelowSize(bs, Prev(bs, p));
      NextIsOneOn(bs, Prev(bs, p));
      EqualPositionsArePlaces(bs, Next(bs, Prev(bs, p)), p);
    }
  }

  /** `begin + total == end`, and reading the places in between one by one reads the flat bytes. */
  lemma BeginToEnd(m: seq<byte>, bs: seq<Buffer>)
    requires AllInBounds(|m|, bs)
    ensures Canonical(bs, FirstFrom(bs, 0)) && Position(bs, FirstFrom(bs, 0)) == 0
    ensures Steps(bs, FirstFrom(bs, 0), Total(bs)) == Place(|bs|, 0)
    ensures forall k | 0 <= k < Total(bs) :: var p := Steps(bs, FirstFrom(bs, 0), k);
      p.current < |bs| && p.offset < bs[p.current].size && Gather(m, bs)[k] == m[bs[p.current].addr + p.offset]
  {
    hide Gather, Steps;
    SizeBeforeAll(bs);
    FirstFromIsCanonical(bs, 0);
    EqualPositionsArePlaces(bs, Steps(bs, FirstFrom(bs, 0), Total(bs)), Place(|bs|, 0));
    forall k | 0 <= k < Total(bs)
      ensures var p := Steps(bs, FirstFrom(bs, 0), k);
        p.current < |bs| && p.offset < bs[p.current].size && Gather(m, bs)[k] == m[bs[p.current].addr + p.offset]
    {
      PositionBelowSize(bs, Steps(bs, FirstFrom(bs, 0), k));
      FlatIndex(m, bs, Steps(bs, FirstFrom(bs, 0), k));
    }
  }

  // ---- the iterator ----

  class BuffersIterator {
    const buffers: seq<Buffer>
    var currentBuffer: Buffer
    var currentBufferPosition: nat
    var current: nat
    var position: nat

    function Here(): Place
      reads this
    {
      Place(current, currentBufferPosition)
    }

    /** Every iterator is at a canonical place, and its cached buffer and position agree with it; at
        the end the cached buffer may be stale. */
    ghost predicate Valid()
      reads this
    {
      && Canonical(buffers, Here())
      && position == Position(buffers, Here())
      && (current < |buffers| ==> currentBuffer == buffers[current])
    }

    constructor Begin(bs: seq<Buffer>)
      ensures buffers == bs && Valid() && position == 0 && Here() == FirstFrom(bs, 0)
    {
      buffers := bs;
      currentBuffer, currentBufferPosition, position := EMPTY, 0, 0;
      current := 0;
      new;
      while current != |buffers|
        invariant current <= |buffers| && currentBufferPosition == 0 && position == 0
        invariant SizeBefore(buffers, current) == 0
        invariant FirstFrom(buffers, current) == FirstFrom(buffers, 0)
      {
        currentBuffer := buffers[current];
        if currentBuffer.size > 0 {
          break;
        }
        current := current + 1;
      }
    }

    constructor End(bs: seq<Buffer>)
      ensures buffers == bs && Valid() && position == Total(bs) && Here() == Place(|bs|, 0)
    {
      buffers := bs;
      currentBuffer, currentBufferPosition, position := EMPTY, 0, 0;
      current := 0;
      new;
      while current != |buffers|
        invariant current <= |buffers| && currentBufferPosition == 0
        invariant position == SizeBefore(buffers, current)
      {
        position := position + buffers[current].size;
        current := current + 1;
      }
      SizeBeforeAll(buffers);
    }

    constructor Copy(other: BuffersIterator)
      requires other.Valid()
      ensures buffers == other.buffers && Valid() && Here() == other.Here() && position == other.position
    {
      buffers := other.buffers;
      currentBuffer, currentBufferPosition := other.currentBuffer, other.currentBufferPosition;
      current, position := other.current, other.position;
    }

    /** `*it`, the flat byte at the iterator's position. */
    method Dereference(mem: array<byte>) returns (b: byte)
      requires Valid() && AllInBounds(mem.Length, buffers) && position < Total(buffers)
      ensures b == Gather(mem[..], buffers)[position]
    {
      PositionBelowSize(buffers, Here());
      FlatIndex(mem[..], buffers, Here());
      b := mem[currentBuffer.addr + currentBufferPosition];
    }

    /** `it[n]`. */
    method At(mem: array<byte>, n: int) returns (b: byte)
      requires Valid() && AllInBounds(mem.Length, buffers) && 0 <= position + n < Total(buffers)
      ensures b == Gather(mem[..], buffers)[position + n]
    {
      var tmp := new BuffersIterator.Copy(this);
      tmp.Advance(n);
      b := tmp.Dereference(mem);
    }

    /** `it + n`. */
    method Plus(n: int) returns (r: BuffersIterator)
      requires Valid() && 0 <= position + n <= Total(buffers)
      ensures fresh(r) && r.Valid() && r.buffers == buffers && r.Here() == Steps(buffers, Here(), n)
    {
      r := new BuffersIterator.Copy(this);
      r.Advance(n);
    }

    /** `it == other`. */
    method Equal(other: BuffersIterator) returns (r: bool)
      requires Valid() && other.Valid() && buffers == other.buffers
      ensures r <==> Here() == other.Here()
    {
      EqualPositionsArePlaces(buffers, Here(), other.Here());
      r := position == other.position;
    }

    /** `it < other`, by the sign of the distance. */
    method Less(other: BuffersIterator) returns (r: bool)
      requires Valid() && other.Valid() && buffers == other.buffers
      ensures r <==> Before(Here(), other.Here())
    {
      EqualPositionsArePlaces(buffers, Here(), other.Here());
      var distance := DistanceTo(other);
      r := distance > 0;
    }

    method DistanceTo(other: BuffersIterator) returns (n: int)
      requires Valid() && other.Valid() && buffers == other.buffers
      ensures 0 <= position + n <= Total(buffers) && Steps(buffers, Here(), n) == other.Here()
    {
      n := other.position - position;
      PositionBelowSize(buffers, other.Here());
      EqualPositionsArePlaces(buffers, Steps(buffers, Here(), n), other.Here());
    }

    method Increment()
      requires Valid() && current != |buffers|
      modifies this
      ensures Valid() && Here() == old(Next(buffers, Here()))
    {
      NextIsOneOn(buffers, Here());
      ghost var next := Next(buffers, Here());
      position := position + 1;

      currentBufferPosition := currentBufferPosition + 1;
      if currentBufferPosition != currentBuffer.size {
        return;
      }

      current := current + 1;
      currentBufferPosition := 0;
      while current != |buffers|
        invariant current <= |buffers| && currentBufferPosition == 0
        invariant FirstFrom(buffers, current) == next
        invariant position == Position(buffers, next)
      {
        currentBuffer := buffers[current];
        if currentBuffer.size > 0 {
          return;
        }
        current := current + 1;
      }
    }

    method Decrement()
      requires Valid() && position > 0
      modifies this
      ensures Valid() && Here() == old(Prev(buffers, Here()))
    {
      PrevIsOneBack(buffers, Here());
      ghost var prev := Prev(buffers, Here());
      position := position - 1;

      if currentBufferPosition != 0 {
        currentBufferPosition := currentBufferPosition - 1;
        return;
      }

      var iter: nat := current;
      while iter != 0
        invariant iter <= current && SizeBefore(buffers, iter) == position + 1
        invariant LastBefore(buffers, iter) == prev
      {
        iter := iter - 1;
        var buffer := buffers[iter];
        var bufferSize := buffer.size;
        if bufferSize > 0 {
          current := iter;
          currentBuffer := buffer;
          currentBufferPosition := bufferSize - 1;
          return;
        }
      }
    }

    /** `it += n`: whole buffers are skipped, yet the iterator arrives where `|n|` single increments
        or decrements lead. Both loops terminate and the assertions of the source hold. */
    method Advance(n: int)
      requires Valid() && 0 <= position + n <= Total(buffers)
      modifies this
      ensures Valid() && Here() == old(Steps(buffers, Here(), n))
      ensures position == old(position) + n
    {
      ghost var goal := Steps(buffers, Here(), n);
      PositionBelowSize(buffers, Here());
      if n > 0 {
        AdvanceForward(n);
      } else if n < 0 {
        AdvanceBackward(-n);
      }
      EqualPositionsArePlaces(buffers, Here(), goal);
    }

    /** The branch of `advance` for a positive distance. */
    method AdvanceForward(distance: nat)
      requires Valid() && distance > 0 && position + distance <= Total(buffers)
      modifies this
      ensures Valid() && position == old(position) + distance
    {
      PositionBelowSize(buffers, Here());
      assert current != |buffers|;  // iterator out of bounds
      var n: nat := distance;
      while true
        invariant current < |buffers| && currentBuffer == buffers[current]
        invariant currentBufferPosition <= currentBuffer.size
        invariant position == SizeBefore(buffers, current) + currentBufferPosition
        invariant position + n == old(position) + distance
        decreases |buffers| - current
      {
        var balance := currentBuffer.size - currentBufferPosition;
        if balance > n {
          position := position + n;
          currentBufferPosition := currentBufferPosition + n;
          return;
        }

        SizeBeforeMonotone(buffers, current + 1, |buffers|);
        SizeBeforeAll(buffers);
        n := n - balance;
        position := position + balance;

        current := current + 1;
        if current == |buffers| {
          assert n == 0;  // iterator out of bounds
          currentBuffer := EMPTY;
          currentBufferPosition := 0;
          return;
        }
        currentBuffer := buffers[current];
        currentBufferPosition := 0;
      }
    }

    /** The branch of `advance` for a negative distance. */
    method AdvanceBackward(distance: nat)
      requires Valid() && 0 < distance <= position
      modifies this
      ensures Valid() && position == old(position) - distance
    {
      var absN: nat := distance;
      while true
        invariant current <= |buffers| && absN > 0
        invariant current == |buffers| ==> currentBufferPosition == 0
        invariant current < |buffers| ==>
                    currentBuffer == buffers[current] && currentBufferPosition <= currentBuffer.size
        invariant position == SizeBefore(buffers, current) + currentBufferPosition
        invariant position >= absN && position - absN == old(position) - distance
        decreases current
      {
        if currentBufferPosition >= absN {
          position := position - absN;
          currentBufferPosition := currentBufferPosition - absN;
          return;
        }

        absN := absN - currentBufferPosition;
        position := position - currentBufferPosition;

        if current == 0 {
          // The source asserts absN == 0 here; no iterator in range gets this far.
          assert false;
        }

        ghost var before := current;
        var iter: nat := current;
        while iter != 0
          invariant iter <= current == before && SizeBefore(buffers, iter) == position
        {
          iter := iter - 1;
          var buffer := buffers[iter];
          var bufferSize := buffer.size;
          if bufferSize > 0 {
            current := iter;
            currentBuffer := buffer;
            currentBufferPosition := bufferSize;
            break;
          }
        }
      }
    }
  }
}
