/** `dynamic_string_buffer` and `dynamic_vector_buffer`: a container used as a bounded byte queue.

    Both adapters keep one number beside the container: `size_` is the length of the input sequence
    once `prepare` has been called (DynamicBuffer_v1), and a sentinel before that (DynamicBuffer_v2).
    Both are proved against one queue; the lemmas speak of whole runs of the queue. */
module DynamicBuffer {
  import opened Memory

  const SIZE_MAX := 0xffff_ffff_ffff_ffff

  datatype Kind = AString | AVector

  /** The input and the output sequence; `v1` once `prepare` has been called. `limit` is the most bytes
      the container itself can hold. */
  datatype Queue = Queue(input: seq<byte>, output: seq<byte>, v1: bool, maxSize: nat, limit: nat)

  datatype Op = Prepare(n: nat) | Fill(data: seq<byte>) | Commit(n: nat) | Consume(n: nat) | Grow(n: nat) | Shrink(n: nat)

  function Zeros(n: nat): (s: seq<byte>)
    ensures |s| == n
  {
    seq(n, _ => 0)
  }

  /** A container's `resize`. */
  function Resized(s: seq<byte>, n: nat): (r: seq<byte>)
    ensures |r| == n
  {
    if n <= |s| then s[..n] else s + Zeros(n - |s|)
  }

  /** A container's `erase` of its first `n` bytes, or of all it has. */
  function Drop(s: seq<byte>, n: nat): seq<byte> {
    s[Min(n, |s|)..]
  }

  function Fresh(bytes: seq<byte>, maxSize: nat, limit: nat): Queue {
    Queue(bytes, [], false, maxSize, limit)
  }

  function QueueOf(bytes: seq<byte>, size: nat, maxSize: nat, limit: nat): Queue
    requires size == SIZE_MAX || size <= |bytes|
  {
    if size == SIZE_MAX then Fresh(bytes, maxSize, limit)
    else Queue(bytes[..size], bytes[size..], true, maxSize, limit)
  }

  /** `size()`. */
  function Reported(q: Queue): nat {
    if q.v1 then |q.input| else Min(|q.input|, q.maxSize)
  }

  /** What leaves a queue: `commit` and a written output sequence need a `prepare` before them. After a
      `prepare`, `shrink` cuts into the input sequence without counting, unless there is nothing to cut. */
  predicate Allowed(q: Queue, op: Op) {
    match op
    case Fill(data) => q.v1 && |data| <= |q.output|
    case Commit(_) => q.v1
    case Shrink(n) => !q.v1 || n == 0 || q.input == []
    case _ => true
  }

  /** Whether an operation ends in `std::length_error`, the adapter's own or the container's. */
  predicate Throws(q: Queue, op: Op) {
    match op
    case Prepare(n) => Reported(q) + n > q.maxSize || |q.input| + n > q.limit
    case Grow(n) => Reported(q) + n > q.maxSize || Reported(q) + n > q.limit
    case _ => false
  }

  function After(kind: Kind, q: Queue, op: Op): Queue
    requires Allowed(q, op)
  {
    match op
    case Prepare(n) =>
      if Reported(q) + n > q.maxSize then q
      else if |q.input| + n > q.limit then q.(v1 := true)
      else q.(v1 := true, output := Resized(q.output, n))
    case Fill(data) => q.(output := data + q.output[|data|..])
    case Commit(n) => q.(input := q.input + q.output[..Min(n, |q.output|)], output := [])
    case Consume(n) => q.(input := Drop(q.input, if q.v1 || kind == AString then n else Min(Reported(q), n)))
    case Grow(n) =>
      if Throws(q, op) then q
      else if q.v1 then q.(output := Resized(q.output, n))
      else q.(input := Resized(q.input, Reported(q) + n))
    case Shrink(n) =>
      if q.v1 then q.(output := [])
      else q.(input := Resized(q.input, if n > Reported(q) then 0 else Reported(q) - n))
  }

  /** A `resize` keeps what there is room for, and what it adds is zero. */
  lemma ResizeKeeps(s: seq<byte>, n: nat)
    ensures Resized(s, n)[..Min(n, |s|)] == s[..Min(n, |s|)]
    ensures forall i | |s| <= i < n :: Resized(s, n)[i] == 0
  {
  }

  lemma ResizedOutput(input: seq<byte>, output: seq<byte>, n: nat)
    ensures Resized(input + output, |input| + n) == input + Resized(output, n)
  {
  }

  lemma CutMiddle<T>(s: seq<T>, i: nat, n: nat)
    requires i + n <= |s|
    ensures s[..i + n] == s[..i] + s[i..][..n] && s[..i + n][..i + n] == s[..i + n] && s[..i + n][i + n..] == []
  {
  }

  // ---- the adapters ----

  /** The string or vector that an adapter refers to and does not own. */
  class Container {
    var bytes: seq<byte>
    const limit: nat

    ghost predicate Valid()
      reads this
    {
      |bytes| <= limit < SIZE_MAX
    }

    constructor (initial: seq<byte>, maximum: nat)
      requires |initial| <= maximum < SIZE_MAX
      ensures Valid() && bytes == initial && limit == maximum
    {
      bytes, limit := initial, maximum;
    }

    method Resize(n: nat) returns (ok: bool)
      requires Valid()
      modifies this
      ensures Valid() && ok == (n <= limit) && bytes == if ok then Resized(old(bytes), n) else old(bytes)
    {
      ok := n <= limit;
      if ok {
        bytes := Resized(bytes, n);
      }
    }
  }

  class DynamicStringBuffer {
    const container: Container
    const maxSize: nat
    var size: nat  // SIZE_MAX until the first prepare

    ghost predicate Valid()
      reads this, container
    {
      container.Valid() && (size == SIZE_MAX || size <= |container.bytes|)
    }

    ghost function Queue(): (q: Queue)
      requires Valid()
      reads this, container
    {
      QueueOf(container.bytes, size, maxSize, container.limit)
    }

    /** Adapts a container; whatever it holds is the input sequence. */
    constructor (c: Container, maximumSize: nat)
      requires c.Valid()
      ensures Valid() && container == c && Queue() == Fresh(c.bytes, maximumSize, c.limit)
    {
      container, size, maxSize := c, SIZE_MAX, maximumSize;
    }

    function Size(): (n: nat)
      requires Valid()
      reads this, container
      ensures n == Reported(Queue())
    {
      if size != SIZE_MAX then size else Min(|container.bytes|, maxSize)
    }

    /** `data()`: the input sequence. */
    method Data() returns (b: Buffer)
      requires Valid()
      ensures InBounds(|container.bytes|, b) && Read(container.bytes, b) == Queue().input
    {
      b := Clamp(Buffer(0, |container.bytes|), size);
    }

    method Prepare(n: nat) returns (r: Option<Buffer>)
      requires Valid()
      modifies this, container
      ensures Valid() && Queue() == old(After(AString, Queue(), Op.Prepare(n)))
      ensures r == None <==> old(Throws(Queue(), Op.Prepare(n)))
      ensures r.Some? ==> r.value == Buffer(|Queue().input|, n) && InBounds(|container.bytes|, r.value)
      ensures r.Some? ==> size == old(if size == SIZE_MAX then |container.bytes| else size)
      ensures container.bytes == if r.Some? then Resized(old(container.bytes), size + n) else old(container.bytes)
    {
      hide Resized;
      if Size() > maxSize || maxSize - Size() < n {
        return None;
      }
      if size == SIZE_MAX {
        size := |container.bytes|;
      }
      ghost var q := Queue();
      assert container.bytes == q.input + q.output;
      var ok := container.Resize(size + n);
      if !ok {
        return None;
      }
      ResizedOutput(q.input, q.output, n);
      r := Some(Clamp(Offset(Buffer(0, |container.bytes|), size), n));
    }

    /** The caller writes into the prepared buffer. */
    method Fill(data: seq<byte>)
      requires Valid() && size != SIZE_MAX && size + |data| <= |container.bytes|
      modifies container
      ensures Valid() && Queue() == old(After(AString, Queue(), Op.Fill(data)))
    {
      container.bytes := Store(container.bytes, size, data);
    }

    method Commit(n: nat)
      requires Valid() && size != SIZE_MAX
      modifies this, container
      ensures Valid() && Queue() == old(After(AString, Queue(), Op.Commit(n)))
      ensures container.bytes == Queue().input == old(container.bytes[..size + Min(n, |container.bytes| - size)])
      ensures size == |container.bytes|
    {
      CutMiddle(container.bytes, size, Min(n, |container.bytes| - size));
      size := size + Min(n, |container.bytes| - size);
      var ok := container.Resize(size);
    }

    method Grow(n: nat) returns (ok: bool)
      requires Valid()
      modifies container
      ensures Valid() && Queue() == old(After(AString, Queue(), Op.Grow(n)))
      ensures !ok <==> old(Throws(Queue(), Op.Grow(n)))
      ensures container.bytes == old(if ok then Resized(container.bytes, Size() + n) else container.bytes)
    {
      hide Resized;
      if Size() > maxSize || maxSize - Size() < n {
        return false;
      }
      ghost var q := Queue();
      assert container.bytes == q.input + q.output;
      ResizedOutput(q.input, q.output, n);
      ok := container.Resize(Size() + n);
    }

    /** After a `prepare` this leaves `size()` above the bytes there are, exactly when it cuts off any. */
    method Shrink(n: nat)
      requires Valid()
      modifies container
      ensures container.bytes == old(Resized(container.bytes, if n > Size() then 0 else Size() - n))
      ensures Valid() <==> old(Allowed(Queue(), Op.Shrink(n)))
      ensures Valid() ==> Queue() == old(After(AString, Queue(), Op.Shrink(n)))
    {
      ghost var q := Queue();
      ResizedOutput(q.input, q.output, 0);
      var ok := container.Resize(if n > Size() then 0 else Size() - n);
    }

    method Consume(n: nat)
      requires Valid()
      modifies this, container
      ensures Valid() && Queue() == old(After(AString, Queue(), Op.Consume(n)))
      ensures old(size) == SIZE_MAX ==> size == SIZE_MAX
      ensures old(size) != SIZE_MAX ==> size == old(size - Min(n, size))
      ensures container.bytes ==
                old(container.bytes[if size != SIZE_MAX then Min(n, size) else Min(n, |container.bytes|)..])
    {
      if size != SIZE_MAX {
        var consumeLength := Min(n, size);
        container.bytes := Drop(container.bytes, consumeLength);
        size := size - consumeLength;
        return;
      }
      container.bytes := Drop(container.bytes, n);
    }
  }

  class DynamicVectorBuffer {
    const container: Container
    const maxSize: nat
    var size: nat  // SIZE_MAX until the first prepare

    ghost predicate Valid()
      reads this, container
    {
      container.Valid() && (size == SIZE_MAX || size <= |container.bytes|)
    }

    ghost function Queue(): (q: Queue)
      requires Valid()
      reads this, container
    {
      QueueOf(container.bytes, size, maxSize, container.limit)
    }

    /** Adapts a container; whatever it holds is the input sequence. */
    constructor (c: Container, maximumSize: nat)
      requires c.Valid()
      ensures Valid() && container == c && Queue() == Fresh(c.bytes, maximumSize, c.limit)
    {
      container, size, maxSize := c, SIZE_MAX, maximumSize;
    }

    function Size(): (n: nat)
      requires Valid()
      reads this, container
      ensures n == Reported(Queue())
    {
      if size != SIZE_MAX then size else Min(|container.bytes|, maxSize)
    }

    /** `data()`: the input sequence. */
    method Data() returns (b: Buffer)
      requires Valid()
      ensures InBounds(|container.bytes|, b) && Read(container.bytes, b) == Queue().input
    {
      b := Clamp(Buffer(0, |container.bytes|), size);
    }

    method Prepare(n: nat) returns (r: Option<Buffer>)
      requires Valid()
      modifies this, container
      ensures Valid() && Queue() == old(After(AVector, Queue(), Op.Prepare(n)))
      ensures r == None <==> old(Throws(Queue(), Op.Prepare(n)))
      ensures r.Some? ==> r.value == Buffer(|Queue().input|, n) && InBounds(|container.bytes|, r.value)
      ensures r.Some? ==> size == old(if size == SIZE_MAX then |container.bytes| else size)
      ensures container.bytes == if r.Some? then Resized(old(container.bytes), size + n) else old(container.bytes)
    {
      hide Resized;
      if Size() > maxSize || maxSize - Size() < n {
        return None;
      }
      if size == SIZE_MAX {
        size := |container.bytes|;
      }
      ghost var q := Queue();
      assert container.bytes == q.input + q.output;
      var ok := container.Resize(size + n);
      if !ok {
        return None;
      }
      ResizedOutput(q.input, q.output, n);
      r := Some(Clamp(Offset(Buffer(0, |container.bytes|), size), n));
    }

    /** The caller writes into the prepared buffer. */
    method Fill(data: seq<byte>)
      requires Valid() && size != SIZE_MAX && size + |data| <= |container.bytes|
      modifies container
      ensures Valid() && Queue() == old(After(AVector, Queue(), Op.Fill(data)))
    {
      container.bytes := Store(container.bytes, size, data);
    }

    method Commit(n: nat)
      requires Valid() && size != SIZE_MAX
      modifies this, container
      ensures Valid() && Queue() == old(After(AVector, Queue(), Op.Commit(n)))
      ensures container.bytes == Queue().input == old(container.bytes[..size + Min(n, |container.bytes| - size)])
      ensures size == |container.bytes|
    {
      CutMiddle(container.bytes, size, Min(n, |container.bytes| - size));
      size := size + Min(n, |container.bytes| - size);
      var ok := container.Resize(size);
    }

    method Grow(n: nat) returns (ok: bool)
      requires Valid()
      modifies container
      ensures Valid() && Queue() == old(After(AVector, Queue(), Op.Grow(n)))
      ensures !ok <==> old(Throws(Queue(), Op.Grow(n)))
      ensures container.bytes == old(if ok then Resized(container.bytes, Size() + n) else container.bytes)
    {
      hide Resized;
      if Size() > maxSize || maxSize - Size() < n {
        return false;
      }
      ghost var q := Queue();
      assert container.bytes == q.input + q.output;
      ResizedOutput(q.input, q.output, n);
      ok := container.Resize(Size() + n);
    }

    /** After a `prepare` this leaves `size()` above the bytes there are, exactly when it cuts off any. */
    method Shrink(n: nat)
      requires Valid()
      modifies container
      ensures container.bytes == old(Resized(container.bytes, if n > Size() then 0 else Size() - n))
      ensures Valid() <==> old(Allowed(Queue(), Op.Shrink(n)))
      ensures Valid() ==> Queue() == old(After(AVector, Queue(), Op.Shrink(n)))
    {
      ghost var q := Queue();
      ResizedOutput(q.input, q.output, 0);
      var ok := container.Resize(if n > Size() then 0 else Size() - n);
    }

    method Consume(n: nat)
      requires Valid()
      modifies this, container
      ensures Valid() && Queue() == old(After(AVector, Queue(), Op.Consume(n)))
      ensures old(size) == SIZE_MAX ==> size == SIZE_MAX
      ensures old(size) != SIZE_MAX ==> size == old(size - Min(n, size))
      ensures container.bytes ==
                old(container.bytes[if size != SIZE_MAX then Min(n, size) else Min(n, Min(|container.bytes|, maxSize))..])
    {
      if size != SIZE_MAX {
        var consumeLength := Min(n, size);
        container.bytes := Drop(container.bytes, consumeLength);
        size := size - consumeLength;
        return;
      }
      container.bytes := Drop(container.bytes, Min(Size(), n));
    }
  }

  // ---- bounded, first in first out ----

  /** Within the maximum size, and with no output sequence before the first `prepare`. */
  predicate Bounded(q: Queue) {
    |q.input| + |q.output| <= q.maxSize && (!q.v1 ==> q.output == [])
  }

  /** The bound is kept by every allowed operation, and throws are exact: `prepare` and `grow` throw
      if and only if `size() + n` is above `max_size()` or above what the container can hold. */
  lemma StepStaysBounded(kind: Kind, q: Queue, op: Op)
    requires Bounded(q) && Allowed(q, op)
    ensures Bounded(After(kind, q, op)) && Reported(q) == |q.input| <= q.maxSize
    ensures After(kind, q, op).maxSize == q.maxSize && After(kind, q, op).limit == q.limit
    ensures Throws(q, op) <==> (op.Prepare? || op.Grow?) && |q.input| + op.n > Min(q.maxSize, q.limit)
    ensures Throws(q, op) ==> After(kind, q, op).input == q.input && After(kind, q, op).output == q.output
  {
  }

  function Run(kind: Kind, q: Queue, ops: seq<Op>): Queue
    requires AllAllowed(kind, q, ops)
    decreases |ops|
  {
    if ops == [] then q else Run(kind, After(kind, q, ops[0]), ops[1..])
  }

  /** Every operation of the run is allowed where it is made. */
  predicate AllAllowed(kind: Kind, q: Queue, ops: seq<Op>)
    decreases |ops|
  {
    ops == [] || (Allowed(q, ops[0]) && AllAllowed(kind, After(kind, q, ops[0]), ops[1..]))
  }

  /** Which operations of the run throw. */
  function Outcomes(kind: Kind, q: Queue, ops: seq<Op>): seq<bool>
    requires AllAllowed(kind, q, ops)
    decreases |ops|
  {
    if ops == [] then [] else [Throws(q, ops[0])] + Outcomes(kind, After(kind, q, ops[0]), ops[1..])
  }

  /** The bytes a `commit` moves to the input sequence. */
  function Given(q: Queue, op: Op): seq<byte> {
    if op.Commit? then q.output[..Min(op.n, |q.output|)] else []
  }

  /** The bytes a `consume` removes. */
  function Taken(q: Queue, op: Op): seq<byte> {
    if op.Consume? then q.input[..Min(op.n, |q.input|)] else []
  }

  function Committed(kind: Kind, q: Queue, ops: seq<Op>): seq<byte>
    requires AllAllowed(kind, q, ops)
    decreases |ops|
  {
    if ops == [] then []
    else Given(q, ops[0]) + Committed(kind, After(kind, q, ops[0]), ops[1..])
  }

  function Consumed(kind: Kind, q: Queue, ops: seq<Op>): seq<byte>
    requires AllAllowed(kind, q, ops)
    decreases |ops|
  {
    if ops == [] then []
    else Taken(q, ops[0]) + Consumed(kind, After(kind, q, ops[0]), ops[1..])
  }

  /** No `grow` or `shrink` of the run comes before its first `prepare`. */
  predicate QueueRun(kind: Kind, q: Queue, ops: seq<Op>)
    requires AllAllowed(kind, q, ops)
    decreases |ops|
  {
    ops == [] || ((ops[0].Grow? || ops[0].Shrink? ==> q.v1) && QueueRun(kind, After(kind, q, ops[0]), ops[1..]))
  }

  lemma StepIsFifo(kind: Kind, q: Queue, op: Op)
    requires Bounded(q) && Allowed(q, op) && (op.Grow? || op.Shrink? ==> q.v1)
    ensures Taken(q, op) + After(kind, q, op).input == q.input + Given(q, op)
  {
  }

  /** Any DynamicBuffer_v1 run from a container within the maximum size is a bounded first-in first-out
      queue: `size()` never passes `max_size()`, and what has been consumed followed by the input
      sequence is the initial contents followed by what has been committed. */
  lemma {:induction false} RunIsFifo(kind: Kind, q: Queue, ops: seq<Op>)
    requires Bounded(q) && AllAllowed(kind, q, ops) && QueueRun(kind, q, ops)
    ensures Bounded(Run(kind, q, ops)) && Reported(Run(kind, q, ops)) <= q.maxSize
    ensures Consumed(kind, q, ops) + Run(kind, q, ops).input == q.input + Committed(kind, q, ops)
    decreases |ops|
  {
    if ops != [] {
      var q' := After(kind, q, ops[0]);
      StepStaysBounded(kind, q, ops[0]);
      StepIsFifo(kind, q, ops[0]);
      RunIsFifo(kind, q', ops[1..]);
      hide After;
      var taken, given := Taken(q, ops[0]), Given(q, ops[0]);
      Chain(taken, q'.input, q.input, given, Consumed(kind, q', ops[1..]), Run(kind, q', ops[1..]).input,
            Committed(kind, q', ops[1..]));
    }
  }

  lemma Chain<T>(out1: seq<T>, q1: seq<T>, q0: seq<T>, in1: seq<T>, out2: seq<T>, q2: seq<T>, in2: seq<T>)
    requires out1 + q1 == q0 + in1 && out2 + q2 == q1 + in2
    ensures out1 + out2 + q2 == q0 + (in1 + in2)
  {
    assert out1 + out2 + q2 == out1 + (out2 + q2) == out1 + (q1 + in2) == (out1 + q1) + in2;
  }

  // ---- what one operation does, and two together ----

  /** A `prepare` that does not throw leaves an output sequence of exactly `n` bytes, with as much of the old
      one as fits, and the input sequence as it was. */
  lemma PrepareGivesRoom(kind: Kind, q: Queue, n: nat)
    requires !Throws(q, Prepare(n))
    ensures var q' := After(kind, q, Prepare(n));
      && q'.v1 && |q'.output| == n && q'.input == q.input
      && q'.output[..Min(n, |q.output|)] == q.output[..Min(n, |q.output|)]
  {
    ResizeKeeps(q.output, n);
  }

  /** A `commit` moves the first `n` bytes of the output sequence and discards the rest, so that a second
      one moves nothing. */
  lemma CommitDiscards(kind: Kind, q: Queue, n: nat, n': nat)
    requires q.v1
    ensures var q' := After(kind, q, Commit(n));
      && q'.output == [] && q'.input == q.input + q.output[..Min(n, |q.output|)]
      && After(kind, q', Commit(n')) == q'
  {
    var q' := After(kind, q, Commit(n));
    assert q'.output[..0] == [] && q'.input + [] == q'.input;
  }

  /** Prepare, write, commit and consume: what was written, and no more, is the end of the input sequence,
      and all of it once what was before it is consumed. Bytes prepared and not written are gone. */
  lemma WrittenIsRead(kind: Kind, q: Queue, n: nat, data: seq<byte>)
    requires !Throws(q, Prepare(n)) && |data| <= n
    ensures var q1 := After(kind, q, Prepare(n));
      var q2 := After(kind, q1, Fill(data));
      var q3 := After(kind, q2, Commit(|data|));
      && q3.input == q.input + data && q3.output == []
      && After(kind, q3, Consume(|q.input|)).input == data
  {
    var q2 := After(kind, After(kind, q, Prepare(n)), Fill(data));
    assert q2.output[..|data|] == data;
  }

  /** A `consume` erases from the front of the input sequence and leaves the output sequence, unless the
      vector adapter clamps it. */
  lemma ConsumeErases(kind: Kind, q: Queue, n: nat)
    requires q.v1 || |q.input| <= q.maxSize || kind == AString
    ensures After(kind, q, Consume(n)) == q.(input := q.input[Min(n, |q.input|)..])
  {
  }

  lemma DropTwice(s: seq<byte>, n: nat, n': nat)
    ensures s[Min(n, |s|)..][Min(n', |s| - Min(n, |s|))..] == s[Min(n + n', |s|)..]
  {
  }

  /** Two consumes are one of both counts. */
  lemma ConsumesAddUp(kind: Kind, q: Queue, n: nat, n': nat)
    requires q.v1 || |q.input| <= q.maxSize || kind == AString
    ensures After(kind, After(kind, q, Consume(n)), Consume(n')) == After(kind, q, Consume(n + n'))
  {
    hide After;
    ConsumeErases(kind, q, n);
    ConsumeErases(kind, After(kind, q, Consume(n)), n');
    ConsumeErases(kind, q, n + n');
    DropTwice(q.input, n, n');
  }

  /** A DynamicBuffer_v2 `shrink` undoes the `grow` before it. */
  lemma ShrinkUndoesGrow(kind: Kind, q: Queue, n: nat)
    requires !q.v1 && |q.input| <= q.maxSize && !Throws(q, Grow(n))
    ensures After(kind, After(kind, q, Grow(n)), Shrink(n)) == q
  {
    ResizeKeeps(q.input, |q.input| + n);
    assert q.input[..|q.input|] == q.input;
  }

  // ---- string and vector ----

  /** From the same contents within the maximum size, the same run of either version of the concept
      gives the string and the vector adapter the same contents, sizes and throws. */
  lemma {:induction false} AdaptersAgree(q: Queue, ops: seq<Op>)
    requires Bounded(q) && AllAllowed(AString, q, ops)
    ensures AllAllowed(AVector, q, ops)
    ensures Run(AString, q, ops) == Run(AVector, q, ops) && Outcomes(AString, q, ops) == Outcomes(AVector, q, ops)
    decreases |ops|
  {
    if ops != [] {
      StepStaysBounded(AString, q, ops[0]);
      ConsumesAgreeIff(q, if ops[0].Consume? then ops[0].n else 0);
      AdaptersAgree(After(AString, q, ops[0]), ops[1..]);
    }
  }

  /** Before the first `prepare` the two adapters consume differently exactly when the container is
      larger than `max_size()` and more than `max_size()` bytes are asked for. */
  lemma ConsumesAgreeIff(q: Queue, n: nat)
    ensures After(AString, q, Consume(n)) == After(AVector, q, Consume(n))
       <==> q.v1 || |q.input| <= q.maxSize || n <= q.maxSize
  {
    if !q.v1 && |q.input| > q.maxSize && n > q.maxSize {
      assert |Drop(q.input, n)| < |Drop(q.input, q.maxSize)|;
    }
  }

  /** `size() <= max_size()` after the first successful `prepare` exactly when the container was within
      `max_size()` before it: the guard sees the clamped size, the assignment takes the real one. */
  lemma FirstPrepareBoundedIff(kind: Kind, q: Queue, n: nat)
    requires !q.v1 && !Throws(q, Prepare(n))
    ensures Reported(After(kind, q, Prepare(n))) <= q.maxSize <==> |q.input| <= q.maxSize
    ensures |q.input| > q.maxSize ==> n == 0 && forall n' :: Throws(After(kind, q, Prepare(n)), Prepare(n'))
  {
  }

  /** A DynamicBuffer_v2 `grow` that does not throw appends `n` zeros and keeps what is there if and only
      if the container is within `max_size()`; above it, `grow(0)` cuts the container to `max_size()`. */
  lemma GrowAppendsIff(kind: Kind, q: Queue, n: nat)
    requires !q.v1 && !Throws(q, Grow(n))
    ensures After(kind, q, Grow(n)).input == q.input + Zeros(n) <==> |q.input| <= q.maxSize
    ensures q.input <= After(kind, q, Grow(n)).input <==> |q.input| <= q.maxSize
    ensures |q.input| > q.maxSize ==> n == 0 && After(kind, q, Grow(n)).input == q.input[..q.maxSize]
  {
    if |q.input| <= q.maxSize {
      assert q.input[..|q.input|] == q.input;
      assert n == 0 ==> Zeros(n) == [] && q.input + [] == q.input;
    } else {
      assert |After(kind, q, Grow(n)).input| < |q.input|;
    }
  }

  /** A DynamicBuffer_v2 `shrink(n)` erases the last `n` bytes, or all there are, if and only if the
      container is within `max_size()` or all of it goes; it never touches the bytes it leaves. */
  lemma ShrinkErasesIff(kind: Kind, q: Queue, n: nat)
    requires !q.v1
    ensures After(kind, q, Shrink(n)).input <= q.input
    ensures After(kind, q, Shrink(n)).input == q.input[..|q.input| - Min(n, |q.input|)]
       <==> |q.input| <= q.maxSize || n >= |q.input|
  {
    if |q.input| > q.maxSize && n < |q.input| {
      assert |After(kind, q, Shrink(n)).input| < |q.input| - n;
    }
  }

  /** A container of three bytes under a maximum of two. */
  lemma OversizedExample()
    ensures var q := Fresh([1, 2, 3], 2, 100);
      && !Throws(q, Prepare(0)) && Reported(After(AString, q, Prepare(0))) == 3
      && After(AString, q, Consume(3)).input == [] && After(AVector, q, Consume(3)).input == [3]
      && !Throws(q, Grow(0)) && After(AString, q, Grow(0)).input == [1, 2]
      && After(AString, q, Shrink(0)).input == [1, 2]
  {
  }
}
