/** `basic_streambuf`: one resizable array that holds an input sequence and an output sequence.

    The class keeps the array and the stream pointers as offsets into it. `Step` says what each
    operation does to the two sequences, and the lemmas after it speak of whole runs. */
module Streambuf {
  import opened Memory

  const BUFFER_DELTA := 128
  const INT_MAX := 0x7fff_ffff

  /** What the stream pointers delimit: `offset` bytes before `gptr`, the input sequence between
      `gptr` and `pptr`, the put area between `pptr` and `epptr`. */
  datatype View = View(maxSize: nat, offset: nat, input: seq<byte>, output: seq<byte>) {
    predicate Valid() {
      offset + |input| + |output| <= maxSize
    }
  }

  function ViewOf(maxSize: nat, m: seq<byte>, g: nat, p: nat, e: nat): (v: View)
    requires g <= p <= e <= |m|
    ensures v.offset == g && |v.input| == p - g && |v.output| == e - p && v.maxSize == maxSize
  {
    View(maxSize, g, m[g..p], m[p..e])
  }

  datatype Op =
    | Prepare(n: nat)
    | Fill(data: seq<byte>)
    | Commit(n: nat)
    | Consume(n: nat)
    | Overflow(c: Option<byte>)
    | Underflow

  /** The input bytes after `memmove` has slid them `g` places down over themselves while the stream
      pointers stay where they were. */
  function Smear(input: seq<byte>, g: nat): (r: seq<byte>)
    ensures |r| == |input|
  {
    if g < |input| then input[g..] + input[|input| - g..] else input
  }

  /** What `commit(n)` is documented to leave. */
  function Committed(s: View, n: nat): View {
    var k := Min(n, |s.output|);
    s.(input := s.input + s.output[..k], output := s.output[k..])
  }

  /** What `consume(n)` is documented to leave. */
  function Consumed(s: View, n: nat): View {
    var k := Min(n, |s.input|);
    s.(offset := s.offset + k, input := s.input[k..])
  }

  /** The count that takes effect survives the cast to `int` of `commit` and `consume`. */
  predicate Fits(s: View, op: Op) {
    match op
    case Commit(n) => Min(n, |s.output|) <= INT_MAX
    case Consume(n) => Min(n, |s.input|) <= INT_MAX
    case _ => true
  }

  /** One operation; `threw` says that it ended in `std::length_error`. Only the contents of a put area
      that has been moved or enlarged are left open. A `commit` or `consume` whose count does not fit an
      `int` is no step: what it leaves is said with the class. */
  ghost predicate Step(s: View, op: Op, threw: bool, s': View) {
    && s.Valid() && s'.Valid() && s'.maxSize == s.maxSize
    && match op {
         case Prepare(n) =>
           && threw == (|s.input| + n > s.maxSize)
           && if threw then s' == s.(input := Smear(s.input, s.offset))
              else if n <= |s.output| then s' == s
              else s'.input == s.input && s'.offset == 0 && |s'.output| == Max(n, s.offset + |s.output|)
         case Fill(data) =>
           && !threw
           && (if |data| <= |s.output| then s' == s.(output := data + s.output[|data|..]) else s' == s)
         case Commit(n) => !threw && Fits(s, op) && s' == Committed(s, n)
         case Consume(n) => !threw && Fits(s, op) && s' == Consumed(s, n)
         case Overflow(None) => !threw && s' == s
         case Overflow(Some(c)) =>
           && threw == (|s.input| == s.maxSize)
           && if threw then s' == s
              else if s.output != [] then s' == s.(input := s.input + [c], output := s.output[1..])
              else s'.input == s.input + [c] && s'.offset == 0 &&
                   |s'.output| + 1 == Max(Min(BUFFER_DELTA, s.maxSize - |s.input|), s.offset)
         case Underflow => !threw && s' == s
       }
  }

  // ---- the casts ----

  /** `static_cast<int>` of a `size_t`, on a 32-bit two's complement `int`. */
  function ToInt(n: nat): int {
    var r := n % 0x1_0000_0000;
    if r <= INT_MAX then r else r - 0x1_0000_0000
  }

  /** The cast keeps a count exactly when it fits an `int`. */
  lemma CastIsExact(n: nat)
    ensures ToInt(n) == n <==> n <= INT_MAX
  {
  }

  /** `pbump(static_cast<int>(k))` over `k` bytes of the put area: `pptr` ends in the area, with exactly
      those bytes added to what lies between `gptr` and `pptr`, if and only if `k` fits an `int`. */
  lemma CommitMovesIff(m: seq<byte>, g: nat, p: nat, e: nat, k: nat)
    requires g <= p <= p + k <= e <= |m|
    ensures (g <= p + ToInt(k) <= e && m[g..p + ToInt(k)] == m[g..p] + m[p..p + k]) <==> k <= INT_MAX
  {
    CastIsExact(k);
    hide ToInt;
    if g <= p + ToInt(k) <= e && m[g..p + ToInt(k)] == m[g..p] + m[p..p + k] {
      assert |m[g..p + ToInt(k)]| == |m[g..p] + m[p..p + k]|;
    }
  }

  /** `gbump(static_cast<int>(k))` over `k` bytes of the input sequence: `gptr` ends in the sequence, with
      exactly those bytes removed, if and only if `k` fits an `int`. */
  lemma ConsumeMovesIff(m: seq<byte>, g: nat, p: nat, k: nat)
    requires g <= g + k <= p <= |m|
    ensures (0 <= g + ToInt(k) <= p && m[g + ToInt(k)..p] == m[g..p][k..]) <==> k <= INT_MAX
  {
    CastIsExact(k);
    hide ToInt;
    if 0 <= g + ToInt(k) <= p && m[g + ToInt(k)..p] == m[g..p][k..] {
      assert |m[g + ToInt(k)..p]| == |m[g..p][k..]|;
    }
    if k <= INT_MAX {
      SliceOfSlice(m, g, p, k, p - g);
    }
  }

  /** A count of 2^31 moves a pointer down by 2^31: `commit` takes that many bytes from the input sequence
      or drives `pptr` below `gptr`, and `consume` drives `gptr` back that far. */
  lemma CastExample(g: nat, p: nat)
    ensures ToInt(0x8000_0000) == -0x8000_0000
    ensures p + ToInt(0x8000_0000) < g <==> p - g < 0x8000_0000
  {
  }

  lemma CutInTwo(t: seq<byte>, a: nat, b: nat)
    ensures var k := Min(a, |t|); var k' := Min(b, |t| - k);
      && k + k' == Min(a + b, |t|) && t[k..][k'..] == t[k + k'..] && t[..k] + t[k..][..k'] == t[..k + k']
  {
    var k := Min(a, |t|);
    CutTwice(t, k, k + Min(b, |t| - k));
  }

  /** Two commits are one of both counts. */
  lemma CommitsAddUp(s: View, a: nat, b: nat)
    ensures Committed(Committed(s, a), b) == Committed(s, a + b)
  {
    CutInTwo(s.output, a, b);
    var k := Min(a, |s.output|);
    Assoc(s.input, s.output[..k], s.output[k..][..Min(b, |s.output| - k)]);
  }

  /** Two consumes are one of both counts. */
  lemma ConsumesAddUp(s: View, a: nat, b: nat)
    ensures Consumed(Consumed(s, a), b) == Consumed(s, a + b)
  {
    CutInTwo(s.input, a, b);
  }

  /** A consume of what is there and a commit can change places. */
  lemma ConsumeThenCommit(s: View, a: nat, b: nat)
    requires a <= |s.input|
    ensures Consumed(Committed(s, b), a) == Committed(Consumed(s, a), b)
  {
    CutTail(s.input, s.output[..Min(b, |s.output|)], a);
  }

  lemma CutTail(t: seq<byte>, u: seq<byte>, a: nat)
    requires a <= |t|
    ensures (t + u)[a..] == t[a..] + u
  {
  }

  /** Prepare, write, commit and consume: the written bytes become the end of the input sequence, and once
      all that was before them is consumed, they are all of it; however the array was moved or resized. */
  lemma WrittenIsRead(s: View, n: nat, s1: View, data: seq<byte>, s2: View, s3: View, s4: View)
    requires Step(s, Prepare(n), false, s1) && |data| <= n
    requires Step(s1, Fill(data), false, s2) && Step(s2, Commit(|data|), false, s3)
    requires Step(s3, Consume(|s.input|), false, s4)
    ensures |s1.output| >= n && s1.input == s.input
    ensures s3.input == s.input + data && s4.input == data
    ensures s3.output == s1.output[|data|..] == s4.output
    ensures n <= |s.output| ==> s1 == s
  {
  }

  /** Every count fits in a state exactly when neither area is longer than an `int` can say; so no run of
      a streambuf with `max_size()` below 2^31 meets the cast. */
  lemma AllCountsFitIff(s: View)
    ensures (forall op :: Fits(s, op)) <==> |s.input| <= INT_MAX && |s.output| <= INT_MAX
    ensures s.Valid() && s.maxSize <= INT_MAX ==> forall op :: Fits(s, op)
  {
    if forall op :: Fits(s, op) {
      assert Fits(s, Commit(|s.output|)) && Fits(s, Consume(|s.input|));
    }
  }

  // ---- the class ----

  /** The stream pointers are offsets into the array; a cast can move one out of it. */
  class BasicStreambuf {
    const maxSize: nat
    var buffer: array<byte>
    var bufferCapacity: nat
    var eback: int
    var gptr: int
    var egptr: int
    var pptr: int
    var epptr: int

    ghost predicate Valid()
      reads this
    {
      && eback == 0 <= gptr <= egptr <= pptr <= epptr <= maxSize
      && buffer.Length == Max(epptr, 1) <= bufferCapacity
    }

    ghost function GetView(): (v: View)
      requires Valid()
      reads this, buffer
      ensures v.Valid()
    {
      ViewOf(maxSize, buffer[..], gptr, pptr, epptr)
    }

    ghost function Input(): seq<byte>
      requires Valid()
      reads this, buffer
    {
      GetView().input
    }

    constructor (maximumSize: nat)
      ensures Valid() && fresh(buffer) && maxSize == maximumSize
      ensures GetView().offset == 0 && GetView().input == [] && |GetView().output| == Min(maximumSize, 128)
      ensures gptr == pptr == 0 && epptr == Min(maximumSize, 128)
    {
      var pend := if maximumSize < BUFFER_DELTA then maximumSize else BUFFER_DELTA;
      maxSize := maximumSize;
      buffer := new byte[Max(pend, 1)](_ => 0);
      bufferCapacity := Max(pend, 1);
      eback, gptr, egptr := 0, 0, 0;
      pptr, epptr := 0, pend;
    }

    method Size() returns (n: nat)
      requires Valid()
      ensures n == |Input()| <= maxSize
    {
      n := pptr - gptr;
    }

    /** `data()`: the input sequence as a buffer over the array. */
    method Data() returns (b: Buffer)
      requires Valid()
      ensures InBounds(buffer.Length, b) && Read(buffer[..], b) == Input()
    {
      b := Buffer(gptr, pptr - gptr);
    }

    /** `buffer_.resize(n)`: the elements are kept, new ones are zero, capacity never falls. */
    method Resize(n: nat)
      requires buffer.Length <= n && buffer.Length <= bufferCapacity
      modifies this`buffer, this`bufferCapacity
      ensures fresh(buffer) && buffer.Length == n <= bufferCapacity
      ensures buffer[..old(buffer.Length)] == old(buffer[..])
    {
      var grown := new byte[n](_ => 0);
      forall i | 0 <= i < buffer.Length {
        grown[i] := buffer[i];
      }
      var capacity: nat :| capacity >= n && capacity >= bufferCapacity;
      buffer, bufferCapacity := grown, capacity;
    }

    /** `memmove(&buffer_[0], &buffer_[0] + from, count)`. */
    method MoveDown(from: nat, count: nat)
      requires from + count <= buffer.Length
      modifies buffer
      ensures buffer[..count] == old(buffer[from..from + count])
      ensures buffer[count..] == old(buffer[count..])
    {
      forall i | 0 <= i < count {
        buffer[i] := buffer[from + i];
      }
    }

    /** Make room for `n` bytes after `pptr`. When it throws, the bytes have already been moved and the
        pointers have not. */
    method Reserve(n: nat) returns (ok: bool)
      requires Valid()
      modifies this, buffer
      ensures Valid() && (buffer == old(buffer) || fresh(buffer))
      ensures Step(old(GetView()), Prepare(n), !ok, GetView())
      ensures !ok ==> unchanged(this)
      ensures ok <==> old(pptr - gptr) + n <= maxSize
      ensures old(epptr - pptr) >= n ==> unchanged(this)
      ensures ok && old(epptr - pptr) < n ==>
                gptr == 0 && pptr == old(pptr - gptr) && epptr == Max(old(epptr), pptr + n)
    {
      hide Step, Smear;
      ghost var s := GetView();
      var gnext: nat := gptr;
      var pnext: nat := pptr;
      var pend: nat := epptr;

      if n <= pend - pnext {
        RoomPrepares(s, n);
        return true;
      }

      if gnext > 0 {
        pnext := pnext - gnext;
        MoveDown(gnext, pnext);
      }
      ghost var moved := buffer[..];
      assert moved[..pnext] == s.input;

      if n > pend - pnext {
        if n <= maxSize && pnext <= maxSize - n {
          pend := pnext + n;
          Resize(if pend < 1 then 1 else pend);
        } else {
          MovedDown(old(buffer[..]), buffer[..], gptr, pptr, epptr);
          RefusalPrepares(s, n);
          return false;
        }
      }

      eback, gptr, egptr := 0, 0, pnext;
      pptr, epptr := pnext, pend;
      assert buffer[..pnext] == moved[..pnext];
      MovePrepares(s, n, GetView());
      return true;
    }

    /** The returned buffer is `n` bytes of the put area, right after the input sequence. */
    method PrepareBuffer(n: nat) returns (r: Option<Buffer>)
      requires Valid()
      modifies this, buffer
      ensures Valid() && (buffer == old(buffer) || fresh(buffer))
      ensures Step(old(GetView()), Prepare(n), r == None, GetView())
      ensures r == None ==> unchanged(this)
      ensures r.Some? <==> old(|Input()|) + n <= maxSize
      ensures r.Some? ==> Input() == old(Input()) && (old(epptr - pptr) < n ==> gptr == 0)
      ensures r.Some? ==> r.value == Buffer(pptr, n) && pptr + n <= epptr && InBounds(buffer.Length, r.value)
                          && Disjoint(r.value, Buffer(gptr, |Input()|))
    {
      var ok := Reserve(n);
      r := if ok then Some(Buffer(pptr, n)) else None;
    }

    /** The caller writes into the prepared buffer. */
    method FillPrepared(b: Buffer, data: seq<byte>)
      requires Valid() && b.addr == pptr && pptr + b.size <= epptr && |data| <= b.size
      modifies buffer
      ensures Valid() && Step(old(GetView()), Fill(data), false, GetView())
    {
      hide ViewOf;
      ghost var m := buffer[..];
      forall i | 0 <= i < |data| {
        buffer[b.addr + i] := data[i];
      }
      assert buffer[..] == Store(m, pptr, data);
      StoredInPutArea(maxSize, m, gptr, pptr, epptr, data);
    }

    /** Does what it is documented to do if and only if the count that takes effect fits an `int`. */
    method CommitBytes(count: nat)
      requires Valid()
      modifies this`pptr, this`egptr
      ensures egptr == pptr == old(pptr) + ToInt(old(Min(count, epptr - pptr)))
      ensures Valid() && GetView() == old(Committed(GetView(), count)) <==> old(Fits(GetView(), Commit(count)))
      ensures old(Fits(GetView(), Commit(count))) ==> Step(old(GetView()), Commit(count), false, GetView())
    {
      hide ToInt, Step, Committed, ViewOf;
      ghost var p := pptr;
      FittingCountSteps(GetView(), count);
      var n: nat := if count < epptr - pptr then count else epptr - pptr;
      CastIsExact(n);
      pptr := pptr + ToInt(n);
      egptr := pptr;
      if Valid() {
        CommittedIff(maxSize, buffer[..], gptr, p, epptr, pptr, count);
      }
    }

    /** Does what it is documented to do if and only if the count that takes effect fits an `int`. */
    method ConsumeBytes(count: nat)
      requires Valid()
      modifies this`eback, this`gptr, this`egptr
      ensures gptr == old(gptr) + ToInt(old(Min(count, pptr - gptr))) && egptr == pptr
      ensures Valid() && GetView() == old(Consumed(GetView(), count)) <==> old(Fits(GetView(), Consume(count)))
      ensures old(Fits(GetView(), Consume(count))) ==> Step(old(GetView()), Consume(count), false, GetView())
    {
      hide ToInt, Step, Consumed, ViewOf;
      ghost var g := gptr;
      FittingCountSteps(GetView(), count);
      var n := count;
      if egptr < pptr {
        eback, egptr := 0, pptr;
      }
      if gptr + n > pptr {
        n := pptr - gptr;
      }
      CastIsExact(n);
      gptr := gptr + ToInt(n);
      if Valid() {
        ConsumedIff(maxSize, buffer[..], g, gptr, pptr, epptr, count);
      }
    }

    method UnderflowByte() returns (c: Option<byte>)
      requires Valid()
      modifies this
      ensures Valid() && buffer == old(buffer)
      ensures Step(old(GetView()), Underflow, false, GetView())
      ensures c == if Input() == [] then None else Some(Input()[0])
      ensures c.Some? ==> egptr == pptr
    {
      if gptr < pptr {
        eback, egptr := 0, pptr;
        c := Some(buffer[gptr]);
      } else {
        c := None;
      }
    }

    /** `*pptr() = c; pbump(1)`. */
    method Append(c: byte)
      requires Valid() && pptr < epptr
      modifies this, buffer
      ensures Valid() && buffer == old(buffer)
      ensures GetView() == old(GetView().(input := GetView().input + [c], output := GetView().output[1..]))
    {
      hide ViewOf;
      AppendedByte(maxSize, buffer[..], gptr, pptr, epptr, c);
      buffer[pptr] := c;
      pptr := pptr + 1;
    }

    method OverflowByte(c: Option<byte>) returns (ok: bool)
      requires Valid()
      modifies this, buffer
      ensures Valid() && (buffer == old(buffer) || fresh(buffer))
      ensures Step(old(GetView()), Overflow(c), !ok, GetView())
      ensures !ok ==> unchanged(this)
      ensures ok <==> c == None || old(|Input()|) < maxSize
      ensures ok ==> Input() == old(Input()) + if c == None then [] else [c.value]
      ensures ok && c.Some? && old(pptr == epptr) ==>
                gptr == 0 && epptr - pptr + 1 == Max(Min(128, maxSize - old(|Input()|)), old(gptr))
    {
      hide Step, Smear, ViewOf;
      ghost var s := GetView();
      NothingOverflows(s);
      if c == None {
        return true;
      }
      if pptr == epptr {
        var bufferSize := pptr - gptr;
        var n := BUFFER_DELTA;
        if bufferSize < maxSize && maxSize - bufferSize < BUFFER_DELTA {
          n := maxSize - bufferSize;
        }
        ok := Reserve(n);
        FullReserve(s, n, !ok, GetView(), c.value);
        if !ok {
          return;
        }
      }
      ghost var t := GetView();
      Append(c.value);
      AppendOverflows(s, t, c.value, GetView());
      return true;
    }

    /** `read_size_helper`: neither subtraction goes below zero, and a `prepare` of the result does not
        throw. The result is zero only if the caller asked for nothing or the streambuf is full. */
    method ReadSizeHelper(maxBytes: nat) returns (n: nat)
      requires Valid()
      ensures n <= maxBytes && |Input()| + n <= maxSize
      ensures forall s': View, threw: bool :: Step(GetView(), Prepare(n), threw, s') ==> !threw
      ensures n == 0 <==> maxBytes == 0 || |Input()| == maxSize
      ensures n < Min(maxBytes, maxSize - |Input()|) ==>
                n == bufferCapacity - |Input()| > 512 || n == 512 >= bufferCapacity - |Input()|
      ensures n <= 512 || n <= bufferCapacity - |Input()|
    {
      var size: nat := pptr - gptr;
      var spare: nat := bufferCapacity - size;
      var room: nat := maxSize - size;
      n := Min(Max(512, spare), Min(maxBytes, room));
    }
  }

  lemma FittingCountSteps(s: View, n: nat)
    requires s.Valid()
    ensures Fits(s, Commit(n)) ==> Step(s, Commit(n), false, Committed(s, n))
    ensures Fits(s, Consume(n)) ==> Step(s, Consume(n), false, Consumed(s, n))
  {
  }

  /** Moving `pptr` from `p` to `q` is the documented `commit` exactly when it moves by the count that
      takes effect. */
  lemma CommittedIff(maxSize: nat, m: seq<byte>, g: nat, p: nat, e: nat, q: nat, n: nat)
    requires g <= p <= e <= |m| && g <= q <= e
    ensures ViewOf(maxSize, m, g, q, e) == Committed(ViewOf(maxSize, m, g, p, e), n) <==> q - p == Min(n, e - p)
  {
    if q - p == Min(n, e - p) {
      SliceOfSlice(m, p, e, 0, q - p);
      SliceOfSlice(m, p, e, q - p, e - p);
      assert m[g..q] == m[g..p] + m[p..q];
    } else {
      assert |m[g..q]| != |Committed(ViewOf(maxSize, m, g, p, e), n).input|;
    }
  }

  lemma ConsumedIff(maxSize: nat, m: seq<byte>, g: nat, q: nat, p: nat, e: nat, n: nat)
    requires g <= p <= e <= |m| && q <= p
    ensures ViewOf(maxSize, m, q, p, e) == Consumed(ViewOf(maxSize, m, g, p, e), n) <==> q - g == Min(n, p - g)
  {
    if q - g == Min(n, p - g) {
      SliceOfSlice(m, g, p, q - g, p - g);
    }
  }

  lemma StoredInPutArea(maxSize: nat, m: seq<byte>, g: nat, p: nat, e: nat, data: seq<byte>)
    requires g <= p <= p + |data| <= e <= |m|
    ensures var s := ViewOf(maxSize, m, g, p, e);
      ViewOf(maxSize, Store(m, p, data), g, p, e) == s.(output := data + s.output[|data|..])
  {
    var m' := Store(m, p, data);
    assert m'[g..p] == m[g..p];
    assert m'[p..e] == data + m[p..e][|data|..];
  }

  lemma AppendedByte(maxSize: nat, m: seq<byte>, g: nat, p: nat, e: nat, c: byte)
    requires g <= p < e <= |m|
    ensures var s := ViewOf(maxSize, m, g, p, e);
      ViewOf(maxSize, m[p := c], g, p + 1, e) == s.(input := s.input + [c], output := s.output[1..])
  {
    var m' := m[p := c];
    assert m'[g..p + 1] == m[g..p] + [c];
    assert m'[p + 1..e] == m[p..e][1..];
  }

  /** With a full put area, the room `overflow` asks for is refused only when the input sequence is
      full, and then nothing has been consumed, so nothing is smeared. */
  lemma FullReserve(s: View, n: nat, threw: bool, s': View, c: byte)
    requires s.output == [] && Step(s, Prepare(n), threw, s')
    requires n == if |s.input| < s.maxSize && s.maxSize - |s.input| < BUFFER_DELTA then s.maxSize - |s.input| else BUFFER_DELTA
    ensures threw <==> |s.input| == s.maxSize
    ensures threw ==> Step(s, Overflow(Some(c)), true, s')
    ensures !threw ==> s'.maxSize == s.maxSize && s'.input == s.input && s'.offset == 0
                       && |s'.output| == Max(Min(BUFFER_DELTA, s.maxSize - |s.input|), s.offset) > 0
  {
    if threw {
      assert s.offset == 0;
      assert s.input[0..] + s.input[|s.input|..] == s.input;
    }
  }

  lemma RoomPrepares(s: View, n: nat)
    requires s.Valid() && n <= |s.output|
    ensures Step(s, Prepare(n), false, s)
  {
  }

  lemma MovePrepares(s: View, n: nat, s': View)
    requires s.Valid() && s'.Valid() && n > |s.output| && |s.input| + n <= s.maxSize == s'.maxSize
    requires s'.offset == 0 && s'.input == s.input && |s'.output| == Max(n, s.offset + |s.output|)
    ensures Step(s, Prepare(n), false, s')
  {
  }

  lemma RefusalPrepares(s: View, n: nat)
    requires s.Valid() && |s.input| + n > s.maxSize
    ensures Step(s, Prepare(n), true, s.(input := Smear(s.input, s.offset)))
  {
  }

  lemma NothingOverflows(s: View)
    requires s.Valid()
    ensures Step(s, Overflow(None), false, s)
  {
  }

  /** A character put after the input sequence of `t`, which is `s` or `s` with a new put area. */
  lemma AppendOverflows(s: View, t: View, c: byte, s': View)
    requires s.Valid() && t.Valid() && s'.Valid() && t.output != []
    requires s' == t.(input := t.input + [c], output := t.output[1..])
    requires if s.output != [] then t == s
      else |s.input| < s.maxSize == t.maxSize && t.input == s.input && t.offset == 0
           && |t.output| == Max(Min(BUFFER_DELTA, s.maxSize - |s.input|), s.offset)
    ensures Step(s, Overflow(Some(c)), false, s')
  {
  }

  /** `prepare(2^31)` and `commit(2^31)` on an empty streambuf leave `pptr` 2^31 below the array. */
  method CommitExample() returns (sb: BasicStreambuf)
    ensures sb.gptr == 0 && sb.pptr == -0x8000_0000 && !sb.Valid()
  {
    hide Step, ViewOf, ToInt, Committed, Fits;
    CastExample(0, 0);
    sb := new BasicStreambuf(0x8000_0000);
    var b := sb.PrepareBuffer(0x8000_0000);
    sb.CommitBytes(0x8000_0000);
  }

  // ---- a throwing prepare ----

  /** What the stream pointers delimit after the bytes `g..p` have been moved to the start of the array. */
  lemma MovedDown(m: seq<byte>, m': seq<byte>, g: nat, p: nat, e: nat)
    requires g <= p <= e <= |m| && |m'| == |m|
    requires m'[..p - g] == m[g..p] && m'[p - g..] == m[p - g..]
    ensures m'[g..p] == Smear(m[g..p], g) && m'[p..e] == m[p..e]
  {
    assert forall i | 0 <= i < p - g :: m'[i] == m'[..p - g][i] == m[g + i];
    assert forall i | p - g <= i < |m| :: m'[i] == m'[p - g..][i - (p - g)] == m[i];
  }

  /** A throwing `prepare` leaves the input bytes alone, whatever they are, exactly when nothing has
      been consumed or the consumed bytes leave room for the whole input sequence. */
  lemma ThrowingPrepareKeepsInput(offset: nat, size: nat)
    ensures (forall input: seq<byte> | |input| == size :: Smear(input, offset) == input)
       <==> offset == 0 || offset >= size
  {
    if offset == 0 {
      forall input: seq<byte> | |input| == size
        ensures Smear(input, offset) == input
      {
        assert offset < |input| ==> input[0..] + input[|input|..] == input;
      }
    } else if offset < size {
      var input: seq<byte> := seq(size, i => if i < offset then 0 else 1);
      assert Smear(input, offset)[0] == input[offset] != input[0];
    }
  }

  // ---- whole runs ----

  datatype Event = Event(op: Op, threw: bool)

  /** The views of a run: one before each event and one after the last. */
  ghost predicate Run(views: seq<View>, events: seq<Event>) {
    && |views| == |events| + 1
    && views[0].Valid()
    && (forall i | 0 <= i < |events| :: Step(views[i], events[i].op, events[i].threw, views[i + 1]))
  }

  /** A run from an empty streambuf that ends in a throwing `prepare` and changes an input byte. */
  lemma ThrowingPrepareExample() returns (views: seq<View>, events: seq<Event>)
    ensures Run(views, events) && |events| == 5
    ensures views[0].input == [] && views[4].input == [2, 3, 4] && views[5].input == [3, 4, 4]
  {
    events := [Event(Prepare(4), false), Event(Fill([1, 2, 3, 4]), false), Event(Commit(4), false),
               Event(Consume(1), false), Event(Prepare(2), true)];
    var empty := View(4, 0, [], [0, 0, 0, 0]);
    views := [empty, empty, View(4, 0, [], [1, 2, 3, 4]), View(4, 0, [1, 2, 3, 4], []),
              View(4, 1, [2, 3, 4], []), View(4, 1, [3, 4, 4], [])];
  }

  /** The bytes an event adds to the end of the input sequence. */
  function Added(s: View, e: Event): seq<byte> {
    match e.op
    case Commit(n) => s.output[..Min(n, |s.output|)]
    case Overflow(Some(c)) => if e.threw then [] else [c]
    case _ => []
  }

  /** The bytes an event takes from the front of the input sequence. */
  function Removed(s: View, e: Event): seq<byte> {
    if e.op.Consume? then s.input[..Min(e.op.n, |s.input|)] else []
  }

  ghost function AllAdded(views: seq<View>, events: seq<Event>): seq<byte>
    requires |views| == |events| + 1
  {
    if events == [] then [] else
      AllAdded(views[..|events|], events[..|events| - 1]) + Added(views[|events| - 1], events[|events| - 1])
  }

  ghost function AllRemoved(views: seq<View>, events: seq<Event>): seq<byte>
    requires |views| == |events| + 1
  {
    if events == [] then [] else
      AllRemoved(views[..|events|], events[..|events| - 1]) + Removed(views[|events| - 1], events[|events| - 1])
  }

  /** The event does not smear: it is no throwing `prepare`, or one that finds nothing to smear. */
  predicate Clean(s: View, e: Event) {
    e.op.Prepare? && e.threw ==> s.offset == 0 || s.offset >= |s.input|
  }

  lemma StepIsFifo(s: View, e: Event, s': View)
    requires Step(s, e.op, e.threw, s') && Clean(s, e)
    ensures Removed(s, e) + s'.input == s.input + Added(s, e)
  {
    if e.op.Prepare? && e.threw {
      ThrowingPrepareKeepsInput(s.offset, |s.input|);
    }
  }

  /** First in, first out, over every run whose counts fit an `int`: what has been consumed, followed by
      the input sequence, is the initial input sequence followed by what has been committed or
      overflowed, in order. No shifting or resizing shows. Throwing calls are part of the run. */
  lemma {:induction false} RunIsFifo(views: seq<View>, events: seq<Event>)
    requires Run(views, events)
    requires forall i | 0 <= i < |events| :: Clean(views[i], events[i])
    ensures AllRemoved(views, events) + views[|events|].input == views[0].input + AllAdded(views, events)
  {
    var n := |events|;
    if n > 0 {
      hide Step, Clean, Added, Removed;
      RunPrefix(views, events);
      RunIsFifo(views[..n], events[..n - 1]);
      assert Clean(views[n - 1], events[n - 1]) && Step(views[n - 1], events[n - 1].op, events[n - 1].threw, views[n - 1 + 1]);
      StepIsFifo(views[n - 1], events[n - 1], views[n]);
      FifoExtend(AllRemoved(views[..n], events[..n - 1]), Removed(views[n - 1], events[n - 1]), views[n - 1].input,
                 views[n].input, views[0].input, AllAdded(views[..n], events[..n - 1]), Added(views[n - 1], events[n - 1]));
    }
  }

  lemma RunPrefix(views: seq<View>, events: seq<Event>)
    requires Run(views, events) && events != []
    ensures Run(views[..|events|], events[..|events| - 1])
    ensures (forall i | 0 <= i < |events| :: Clean(views[i], events[i])) ==>
      forall i | 0 <= i < |events| - 1 :: Clean(views[..|events|][i], events[..|events| - 1][i])
  {
    hide Step, Clean;
    var views', events' := views[..|events|], events[..|events| - 1];
    forall i | 0 <= i < |events'|
      ensures Step(views'[i], events'[i].op, events'[i].threw, views'[i + 1])
    {
      assert Step(views[i], events[i].op, events[i].threw, views[i + 1]);
    }
  }

  lemma FifoExtend(out: seq<byte>, out1: seq<byte>, q: seq<byte>, q': seq<byte>, q0: seq<byte>, into: seq<byte>, into1: seq<byte>)
    requires out + q == q0 + into && out1 + q' == q + into1
    ensures out + out1 + q' == q0 + (into + into1)
  {
    assert out + out1 + q' == out + (out1 + q') == out + (q + into1) == (out + q) + into1;
  }

  /** `size() <= max_size()` in every state of every run whose counts fit an `int`, and the exact throw conditions: `prepare(n)`
      throws if and only if `size() + n > max_size()`, `overflow` of a character if and only if the
      input sequence is full, and nothing else throws. */
  lemma RunStaysBounded(views: seq<View>, events: seq<Event>, i: nat)
    requires Run(views, events) && i < |events|
    ensures |views[i].input| <= views[i].maxSize == views[0].maxSize && |views[i + 1].input| <= views[0].maxSize
    ensures events[i].threw <==>
              (events[i].op.Prepare? && |views[i].input| + events[i].op.n > views[0].maxSize) ||
              (events[i].op.Overflow? && events[i].op.c.Some? && |views[i].input| == views[0].maxSize)
  {
    MaxSizeConstant(views, events, i);
    assert Step(views[i], events[i].op, events[i].threw, views[i + 1]);
  }

  lemma {:induction false} MaxSizeConstant(views: seq<View>, events: seq<Event>, i: nat)
    requires Run(views, events) && i <= |events|
    ensures views[i].Valid() && views[i].maxSize == views[0].maxSize
  {
    if i > 0 {
      MaxSizeConstant(views, events, i - 1);
      assert Step(views[i - 1], events[i - 1].op, events[i - 1].threw, views[i - 1 + 1]);
    }
  }
}
