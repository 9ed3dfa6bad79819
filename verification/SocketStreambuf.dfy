/** `basic_socket_streambuf`: stream output and input over a socket that sends and receives in
    pieces, refuses, and makes its caller wait.

    The socket and the clock are an environment: a finite list of rounds, one for each turn of a loop
    that calls the socket. A list that runs out is a stream past its expiry time, so every run of the
    loops that comes to an end is covered. */
module SocketStreambuf {
  import opened Memory

  const BUFFER_SIZE := 512
  const PUTBACK_MAX := 8

  datatype ErrorCode = NoError | TimedOut | EndOfFile | WouldBlock | TryAgain | OtherError(code: int)

  /** One turn of a loop: whether the expiry time has passed; what `send` or `recv` returns, with the
      bytes received and the error of a failure; how the wait for the socket ends. */
  datatype Round = Round(expired: bool, bytes: int, data: seq<byte>, ioError: ErrorCode, pollFails: bool, pollError: ErrorCode)

  /** The result of a `send` of `n` bytes: never more than it was given. */
  function SendResult(r: Round, n: nat): int {
    if r.bytes < n then r.bytes else n
  }

  /** The result of a `recv` into `room` bytes; it returns the first so many bytes of `data`. */
  function RecvResult(r: Round, room: nat): int {
    if r.data != [] then Min(|r.data|, room) else if r.bytes == 0 then 0 else -1
  }

  predicate Blocked(e: ErrorCode) {
    e == WouldBlock || e == TryAgain
  }

  /** How many of `n` pending bytes reach the wire before the send loop ends. */
  function Deliver(n: nat, env: seq<Round>): (k: nat)
    ensures k <= n
    decreases |env|
  {
    if n == 0 || env == [] || env[0].expired then 0
    else if SendResult(env[0], n) > 0 then
      SendResult(env[0], n) + Deliver(n - SendResult(env[0], n), env[1..])
    else if Blocked(env[0].ioError) && !env[0].pollFails then Deliver(n, env[1..])
    else 0
  }

  /** The error a send loop that leaves bytes behind ends with. */
  function SendError(n: nat, env: seq<Round>): ErrorCode
    requires Deliver(n, env) < n
    decreases |env|
  {
    if env == [] || env[0].expired then TimedOut
    else if SendResult(env[0], n) > 0 then SendError(n - SendResult(env[0], n), env[1..])
    else if !Blocked(env[0].ioError) then env[0].ioError
    else if env[0].pollFails then env[0].pollError
    else SendError(n, env[1..])
  }

  /** One turn of the send loop. */
  lemma DeliverTurn(n: nat, env: seq<Round>)
    requires n > 0
    ensures env == [] || env[0].expired ==> Deliver(n, env) == 0 && SendError(n, env) == TimedOut
    ensures env != [] && !env[0].expired ==>
      var k := SendResult(env[0], n);
      if k > 0 then
        && Deliver(n, env) == k + Deliver(n - k, env[1..])
        && (Deliver(n, env) < n ==> SendError(n, env) == SendError(n - k, env[1..]))
      else if !Blocked(env[0].ioError) then Deliver(n, env) == 0 && SendError(n, env) == env[0].ioError
      else if env[0].pollFails then Deliver(n, env) == 0 && SendError(n, env) == env[0].pollError
      else
        && Deliver(n, env) == Deliver(n, env[1..])
        && (Deliver(n, env) < n ==> SendError(n, env) == SendError(n, env[1..]))
  {
  }

  lemma DeliverNothing(n: nat, env: seq<Round>)
    ensures n == 0 ==> Deliver(n, env) == 0
  {
  }

  datatype Received = Got(data: seq<byte>) | Failed(error: ErrorCode)

  /** How the receive loop ends. */
  function Receive(room: nat, env: seq<Round>): (r: Received)
    requires room > 0
    ensures r.Got? ==> 0 < |r.data| <= room
    decreases |env|
  {
    if env == [] || env[0].expired then Failed(TimedOut)
    else if RecvResult(env[0], room) > 0 then Got(env[0].data[..RecvResult(env[0], room)])
    else if RecvResult(env[0], room) == 0 then Failed(EndOfFile)
    else if !Blocked(env[0].ioError) then Failed(env[0].ioError)
    else if env[0].pollFails then Failed(env[0].pollError)
    else Receive(room, env[1..])
  }

  /** One turn of the receive loop. */
  lemma ReceiveTurn(room: nat, env: seq<Round>)
    requires room > 0
    ensures env == [] || env[0].expired ==> Receive(room, env) == Failed(TimedOut)
    ensures env != [] && !env[0].expired ==>
      var k := RecvResult(env[0], room);
      Receive(room, env) ==
        if k > 0 then Got(env[0].data[..k])
        else if k == 0 then Failed(EndOfFile)
        else if !Blocked(env[0].ioError) then Failed(env[0].ioError)
        else if env[0].pollFails then Failed(env[0].pollError)
        else Receive(room, env[1..])
  {
  }

  // ---- the loops over a whole environment ----

  /** The bytes a socket would take in these rounds from a caller that never runs out. */
  function Offered(env: seq<Round>): nat
    decreases |env|
  {
    if env == [] then 0 else (if env[0].bytes > 0 then env[0].bytes else 0) + Offered(env[1..])
  }

  /** The send loop goes on over rounds that send something, or that fail with `would_block` or `try_again`
      and are waited for. It delivers all that is pending, or what the rounds before the first other one
      offer, and then ends with the error of that round. */
  lemma {:induction false} SendLoop(n: nat, env: seq<Round>, i: nat)
    requires i <= |env|
    requires forall j | 0 <= j < i :: !env[j].expired &&
               (env[j].bytes > 0 || ((env[j].ioError == WouldBlock || env[j].ioError == TryAgain) && !env[j].pollFails))
    requires i < |env| ==>
      env[i].expired ||
      (env[i].bytes <= 0 && ((env[i].ioError != WouldBlock && env[i].ioError != TryAgain) || env[i].pollFails))
    ensures Deliver(n, env) == if n <= Offered(env[..i]) then n else Offered(env[..i])
    ensures n > Offered(env[..i]) ==>
      SendError(n, env) ==
              if i == |env| || env[i].expired then TimedOut
              else if env[i].ioError == WouldBlock || env[i].ioError == TryAgain then env[i].pollError
              else env[i].ioError
    decreases |env|
  {
    if n > 0 && i > 0 {
      var rest := env[1..];
      assert rest[..i - 1] == env[..i][1..];
      assert forall j | 0 <= j < i - 1 :: rest[j] == env[j + 1];
      SendLoop(n - if env[0].bytes > 0 then SendResult(env[0], n) else 0, rest, i - 1);
    }
  }

  /** A round that fails with `would_block` or `try_again` and is waited for changes nothing. */
  lemma WaitingSends(n: nat, r: Round, env: seq<Round>)
    requires !r.expired && r.bytes <= 0 && (r.ioError == WouldBlock || r.ioError == TryAgain) && !r.pollFails
    ensures Deliver(n, [r] + env) == Deliver(n, env)
    ensures Deliver(n, env) < n ==> SendError(n, [r] + env) == SendError(n, env)
  {
    assert ([r] + env)[1..] == env;
  }

  /** The receive loop goes on over rounds that receive nothing, fail with `would_block` or `try_again` and are
      waited for. The first other round decides: its bytes, as many as there is room for, or its error. */
  lemma {:induction false} ReceiveLoop(room: nat, env: seq<Round>, i: nat)
    requires room > 0 && i <= |env|
    requires forall j | 0 <= j < i :: !env[j].expired && env[j].data == [] && env[j].bytes != 0
               && (env[j].ioError == WouldBlock || env[j].ioError == TryAgain) && !env[j].pollFails
    requires i < |env| ==>
      env[i].expired || env[i].data != [] || env[i].bytes == 0 ||
      (env[i].ioError != WouldBlock && env[i].ioError != TryAgain) || env[i].pollFails
    ensures Receive(room, env) ==
              if i == |env| || env[i].expired then Failed(TimedOut)
              else if env[i].data != [] then Got(env[i].data[..if |env[i].data| < room then |env[i].data| else room])
              else if env[i].bytes == 0 then Failed(EndOfFile)
              else if env[i].ioError == WouldBlock || env[i].ioError == TryAgain then Failed(env[i].pollError)
              else Failed(env[i].ioError)
    decreases |env|
  {
    if i > 0 {
      assert forall j | 0 <= j < i - 1 :: env[1..][j] == env[j + 1];
      ReceiveLoop(room, env[1..], i - 1);
    }
  }

  lemma WaitingReceives(room: nat, r: Round, env: seq<Round>)
    requires room > 0 && !r.expired && r.data == [] && r.bytes != 0
    requires (r.ioError == WouldBlock || r.ioError == TryAgain) && !r.pollFails
    ensures Receive(room, [r] + env) == Receive(room, env)
  {
    assert ([r] + env)[1..] == env;
  }

  // ---- output ----

  /** The bytes on the wire, the put area, and whether there is a put buffer at all. */
  datatype Out = Out(wire: seq<byte>, put: seq<byte>, buffered: bool)

  datatype OutOp =
    | Put(c: byte, env: seq<Round>)
    | Sync(env: seq<Round>)
    | Unbuffer
    | Close(env: seq<Round>, closeError: ErrorCode)

  /** What an `overflow(c)` has to send. */
  function Pending(s: Out, c: Option<byte>): seq<byte> {
    if s.buffered then s.put else if c.Some? then [c.value] else []
  }

  predicate OverflowSucceeds(s: Out, c: Option<byte>, env: seq<Round>) {
    Deliver(|Pending(s, c)|, env) == |Pending(s, c)|
  }

  /** `overflow(c)`: on success everything pending is on the wire and only `c` is buffered; on failure
      a proper prefix is on the wire and the put area is as it was. */
  function Overflowed(s: Out, c: Option<byte>, env: seq<Round>): Out {
    var pending := Pending(s, c);
    if OverflowSucceeds(s, c, env) then
      Out(s.wire + pending, if s.buffered && c.Some? then [c.value] else [], s.buffered)
    else
      s.(wire := s.wire + pending[..Deliver(|pending|, env)])
  }

  /** Whether `sputc` finds room in the put area. */
  predicate HasRoom(s: Out) {
    s.buffered && |s.put| < BUFFER_SIZE
  }

  /** `close()`: what could not be flushed is dropped when the socket closes. */
  function Closed(s: Out, env: seq<Round>, closeError: ErrorCode): Out {
    var t := Overflowed(s, None, env);
    if closeError == NoError then t.(put := []) else t
  }

  function OutStep(s: Out, op: OutOp): Out {
    match op
    case Put(c, env) => if HasRoom(s) then s.(put := s.put + [c]) else Overflowed(s, Some(c), env)
    case Sync(env) => Overflowed(s, None, env)
    case Unbuffer => if s.put == [] then s.(buffered := false) else s
    case Close(env, closeError) => Closed(s, env, closeError)
  }

  predicate OutSucceeds(s: Out, op: OutOp) {
    match op
    case Put(c, env) => HasRoom(s) || OverflowSucceeds(s, Some(c), env)
    case Sync(env) => OverflowSucceeds(s, None, env)
    case Unbuffer => s.put == []
    case Close(_, closeError) => closeError == NoError
  }

  predicate OutValid(s: Out) {
    if s.buffered then |s.put| <= BUFFER_SIZE else s.put == []
  }

  // ---- input ----

  /** The bytes received so far and those of them not yet read. */
  datatype In = In(arrived: seq<byte>, unread: seq<byte>)

  /** `sgetc` leaves the character in the get area, `sbumpc` takes it. */
  datatype InOp = InOp(take: bool, env: seq<Round>)

  const GET_ROOM := BUFFER_SIZE - PUTBACK_MAX

  function Refilled(s: In, env: seq<Round>): In {
    if s.unread != [] then s
    else match Receive(GET_ROOM, env)
      case Got(data) => In(s.arrived + data, data)
      case Failed(_) => s
  }

  function InStep(s: In, op: InOp): In {
    var t := Refilled(s, op.env);
    if op.take && t.unread != [] then t.(unread := t.unread[1..]) else t
  }

  function FirstOf(unread: seq<byte>): Option<byte> {
    if unread == [] then None else Some(unread[0])
  }

  /** What a step hands to the reader for good. */
  function Handed(s: In, op: InOp): seq<byte> {
    var t := Refilled(s, op.env);
    if op.take && t.unread != [] then [t.unread[0]] else []
  }

  // ---- the class ----

  class SocketStreambuf {
    const getBuffer: array<byte>
    var gptr: nat
    var egptr: nat
    var putBuffer: array<byte>
    var pptr: nat
    var epptr: nat
    var ec: ErrorCode
    var wire: seq<byte>     // what the socket has passed on
    var arrived: seq<byte>  // what the socket has handed over

    ghost predicate Valid()
      reads this
    {
      && getBuffer.Length == BUFFER_SIZE && PUTBACK_MAX <= gptr <= egptr <= BUFFER_SIZE
      && (putBuffer.Length == BUFFER_SIZE || putBuffer.Length == 0)
      && pptr <= epptr == putBuffer.Length
      && getBuffer != putBuffer
    }

    ghost function Output(): (s: Out)
      requires Valid()
      reads this, putBuffer
      ensures OutValid(s)
    {
      Out(wire, putBuffer[..pptr], putBuffer.Length != 0)
    }

    ghost function Input(): In
      requires Valid()
      reads this, getBuffer
    {
      In(arrived, getBuffer[gptr..egptr])
    }

    constructor ()
      ensures Valid() && fresh(getBuffer) && fresh(putBuffer)
      ensures Output() == Out([], [], true) && Input() == In([], [])
    {
      getBuffer := new byte[BUFFER_SIZE](_ => 0);
      putBuffer := new byte[BUFFER_SIZE](_ => 0);
      ec, wire, arrived := NoError, [], [];
      new;
      InitBuffers();
    }

    method InitBuffers()
      requires getBuffer.Length == BUFFER_SIZE && getBuffer != putBuffer
      requires putBuffer.Length == BUFFER_SIZE || putBuffer.Length == 0
      modifies this`gptr, this`egptr, this`pptr, this`epptr
      ensures Valid()
      ensures Output() == Out(wire, [], putBuffer.Length != 0) && Input() == In(arrived, [])
    {
      gptr, egptr := PUTBACK_MAX, PUTBACK_MAX;
      if putBuffer.Length == 0 {
        pptr, epptr := 0, 0;
      } else {
        pptr, epptr := 0, putBuffer.Length;
      }
    }

    /** The loop of `overflow`: send until nothing is left, waiting whenever the socket would block. */
    method SendAll(pending: seq<byte>, env: seq<Round>) returns (ok: bool)
      modifies this`ec, this`wire
      ensures ok <==> Deliver(|pending|, env) == |pending|
      ensures wire == old(wire) + pending[..Deliver(|pending|, env)]
      ensures ec == if !ok then SendError(|pending|, env) else if pending == [] then old(ec) else NoError
    {
      hide Deliver, SendError;
      DeliverNothing(|pending|, env);
      var output := pending;
      ghost var sent: nat := 0;
      var turn := 0;
      ghost var rest := env;
      while |output| > 0
        invariant turn <= |env| && sent <= |pending| && output == pending[sent..]
        invariant wire == old(wire) + pending[..sent] && rest == env[turn..]
        invariant sent + Deliver(|output|, rest) == Deliver(|pending|, env)
        invariant output == [] ==> ec == if pending == [] then old(ec) else NoError
        invariant Deliver(|output|, rest) < |output| ==> SendError(|output|, rest) == SendError(|pending|, env)
        decreases |env| - turn
      {
        DeliverTurn(|output|, rest);
        if turn == |env| || env[turn].expired {
          ec := TimedOut;
          return false;
        }
        var round := env[turn];
        turn, rest := turn + 1, rest[1..];
        var bytes := SendResult(round, |output|);
        if bytes > 0 {
          CutTwice(pending, sent, sent + bytes);
          wire := wire + output[..bytes];
          ec := NoError;
          output := output[bytes..];
          sent := sent + bytes;
          DeliverNothing(|output|, rest);
          continue;
        }
        ec := round.ioError;
        if !Blocked(ec) {
          return false;
        }
        if round.pollFails {
          ec := round.pollError;
          return false;
        }
      }
      return true;
    }

    method OverflowByte(c: Option<byte>, env: seq<Round>) returns (ok: bool)
      requires Valid()
      modifies this`pptr, this`ec, this`wire, putBuffer
      ensures Valid() && Input() == old(Input())
      ensures ok == old(OverflowSucceeds(Output(), c, env))
      ensures Output() == old(Overflowed(Output(), c, env))
      ensures !ok ==> ec == old(SendError(|Pending(Output(), c)|, env))
      ensures ok ==> ec == if old(Pending(Output(), c)) == [] then old(ec) else NoError
    {
      var output: seq<byte>;
      if putBuffer.Length == 0 {
        if c == None {
          return true;
        }
        output := [c.value];
      } else {
        output := putBuffer[..pptr];
      }
      ok := SendAll(output, env);
      if !ok {
        return;
      }
      if putBuffer.Length != 0 {
        pptr := 0;
        if c == None {
          return;
        }
        putBuffer[pptr] := c.value;
        pptr := pptr + 1;
      }
    }

    /** `sputc`, which calls `overflow` only when the put area is full. */
    method PutByte(c: byte, env: seq<Round>) returns (ok: bool)
      requires Valid()
      modifies this`pptr, this`ec, this`wire, putBuffer
      ensures Valid() && Input() == old(Input())
      ensures ok == old(OutSucceeds(Output(), Put(c, env))) && Output() == old(OutStep(Output(), Put(c, env)))
    {
      if pptr < epptr {
        putBuffer[pptr] := c;
        pptr := pptr + 1;
        assert putBuffer[..pptr] == old(putBuffer[..pptr]) + [c];
        return true;
      }
      ok := OverflowByte(Some(c), env);
    }

    method SyncBytes(env: seq<Round>) returns (ok: bool)
      requires Valid()
      modifies this`pptr, this`ec, this`wire, putBuffer
      ensures Valid() && Input() == old(Input())
      ensures ok == old(OutSucceeds(Output(), Sync(env))) && Output() == old(OutStep(Output(), Sync(env)))
    {
      ok := OverflowByte(None, env);
    }

    /** `setbuf(0, 0)`. */
    method SetUnbuffered(env: seq<Round>) returns (ok: bool)
      requires Valid()
      modifies this
      ensures Valid() && Input() == old(Input()) && (putBuffer == old(putBuffer) || fresh(putBuffer))
      ensures ok == old(OutSucceeds(Output(), Unbuffer)) && Output() == old(OutStep(Output(), Unbuffer))
      ensures ok <==> old(pptr) == 0
      ensures ok ==> putBuffer.Length == 0 && wire == old(wire)
      ensures !ok ==> unchanged(this)
    {
      if pptr == 0 {
        putBuffer := new byte[0];
        pptr, epptr := 0, 0;
        var synced := SyncBytes(env);
        return true;
      }
      return false;
    }

    /** `close()`: flush, close the socket, and start over with empty buffers if the socket closed. The
        result of the flush is not looked at: the close overwrites its error. */
    method CloseSocket(env: seq<Round>, closeError: ErrorCode) returns (ok: bool)
      requires Valid()
      modifies this, putBuffer
      ensures Valid() && ec == closeError
      ensures ok == old(OutSucceeds(Output(), Close(env, closeError)))
      ensures Output() == old(OutStep(Output(), Close(env, closeError)))
      ensures Input() == if ok then old(Input().(unread := [])) else old(Input())
    {
      var flushed := SyncBytes(env);
      ec := closeError;
      if ec == NoError {
        InitBuffers();
      }
      ok := ec == NoError;
    }

    /** What a receive of `data` leaves behind: its bytes above the putback zone. */
    method Arrive(data: seq<byte>)
      requires PUTBACK_MAX + |data| <= getBuffer.Length
      modifies this`arrived, getBuffer
      ensures arrived == old(arrived) + data
      ensures getBuffer[PUTBACK_MAX..PUTBACK_MAX + |data|] == data
      ensures getBuffer[..PUTBACK_MAX] == old(getBuffer[..PUTBACK_MAX])
    {
      forall i | 0 <= i < |data| {
        getBuffer[PUTBACK_MAX + i] := data[i];
      }
      arrived := arrived + data;
    }

    /** `underflow`: with characters still to be read it reports the end of the file and does nothing. */
    method UnderflowByte(env: seq<Round>) returns (c: Option<byte>)
      requires Valid()
      modifies this`gptr, this`egptr, this`ec, this`arrived, getBuffer
      ensures Valid() && Output() == old(Output()) && Input() == old(Refilled(Input(), env))
      ensures getBuffer[..PUTBACK_MAX] == old(getBuffer[..PUTBACK_MAX])
      ensures c == if old(Input().unread) != [] || Input().unread == [] then None else Some(Input().unread[0])
      ensures old(Input().unread) == [] && c == None ==> Receive(GET_ROOM, env) == Failed(ec)
      ensures old(Input().unread) != [] ==> ec == old(ec)
      ensures c.Some? ==> ec == NoError
      ensures old(gptr == egptr) && Receive(504, env).Got? ==>
                var data := Receive(504, env).data;
                arrived == old(arrived) + data && getBuffer[8..8 + |data|] == data
                && gptr == 8 && egptr == 8 + |data| && c == Some(data[0])
      ensures old(gptr != egptr) || Receive(504, env).Failed? ==> arrived == old(arrived) && c == None
    {
      hide Receive;
      if gptr != egptr {
        return None;
      }
      var turn := 0;
      ghost var rest := env;
      while true
        invariant turn <= |env| && gptr == egptr == old(gptr) && arrived == old(arrived)
        invariant getBuffer[..] == old(getBuffer[..])
        invariant rest == env[turn..] && Receive(GET_ROOM, rest) == Receive(GET_ROOM, env)
        decreases |env| - turn
      {
        ReceiveTurn(GET_ROOM, rest);
        if turn == |env| || env[turn].expired {
          ec := TimedOut;
          return None;
        }
        var round := env[turn];
        turn, rest := turn + 1, rest[1..];
        var bytes := RecvResult(round, getBuffer.Length - PUTBACK_MAX);
        if bytes > 0 {
          Arrive(round.data[..bytes]);
          ec := NoError;
          gptr, egptr := PUTBACK_MAX, PUTBACK_MAX + bytes;
          return Some(getBuffer[gptr]);
        }
        if bytes == 0 {
          ec := EndOfFile;
          return None;
        }
        ec := round.ioError;
        if !Blocked(ec) {
          return None;
        }
        if round.pollFails {
          ec := round.pollError;
          return None;
        }
      }
    }

    /** `sgetc` and `sbumpc`, which call `underflow` only when the get area is empty. */
    method GetByte(take: bool, env: seq<Round>) returns (c: Option<byte>)
      requires Valid()
      modifies this`gptr, this`egptr, this`ec, this`arrived, getBuffer
      ensures Valid() && Output() == old(Output()) && Input() == old(InStep(Input(), InOp(take, env)))
      ensures take ==> old(Handed(Input(), InOp(take, env))) == if c.Some? then [c.value] else []
      ensures c == old(FirstOf(Refilled(Input(), env).unread))
    {
      if gptr == egptr {
        c := UnderflowByte(env);
      } else {
        c := Some(getBuffer[gptr]);
      }
      if take && c.Some? {
        gptr := gptr + 1;
      }
    }
  }

  // ---- whole runs of output ----

  /** The characters a step accepts. */
  function Taken(s: Out, op: OutOp): seq<byte> {
    if op.Put? && OutSucceeds(s, op) then [op.c] else []
  }

  /** The number of bytes a step has put on the wire while keeping them, to be sent again. */
  function Wasted(s: Out, op: OutOp): nat {
    match op
    case Put(c, env) => if OutSucceeds(s, op) then 0 else Deliver(|Pending(s, Some(c))|, env)
    case Sync(env) => if OutSucceeds(s, op) then 0 else Deliver(|Pending(s, None)|, env)
    case Unbuffer => 0
    case Close(env, _) =>
      if OutSucceeds(s, op) || OverflowSucceeds(s, None, env) then 0 else Deliver(|Pending(s, None)|, env)
  }

  /** The accepted bytes a step discards: those a successful close could not flush. */
  function Dropped(s: Out, op: OutOp): seq<byte> {
    if op.Close? && OutSucceeds(s, op) then Pending(s, None)[Deliver(|Pending(s, None)|, op.env)..] else []
  }

  function RunOut(s: Out, ops: seq<OutOp>): Out
    decreases |ops|
  {
    if ops == [] then s else RunOut(OutStep(s, ops[0]), ops[1..])
  }

  function AllTaken(s: Out, ops: seq<OutOp>): seq<byte>
    decreases |ops|
  {
    if ops == [] then [] else Taken(s, ops[0]) + AllTaken(OutStep(s, ops[0]), ops[1..])
  }

  function AllWasted(s: Out, ops: seq<OutOp>): nat
    decreases |ops|
  {
    if ops == [] then 0 else Wasted(s, ops[0]) + AllWasted(OutStep(s, ops[0]), ops[1..])
  }

  function AllDropped(s: Out, ops: seq<OutOp>): seq<byte>
    decreases |ops|
  {
    if ops == [] then [] else Dropped(s, ops[0]) + AllDropped(OutStep(s, ops[0]), ops[1..])
  }

  /** What a step puts on the wire: nothing if the put area has room for the character, otherwise as much
      of the put area, or of the character of an unbuffered stream, as the socket takes. */
  function Sent(s: Out, op: OutOp): seq<byte> {
    match op
    case Put(c, env) =>
      if s.buffered then if |s.put| < 512 then [] else s.put[..Deliver(|s.put|, env)]
      else [c][..Deliver(1, env)]
    case Sync(env) => s.put[..Deliver(|s.put|, env)]
    case Unbuffer => []
    case Close(env, _) => s.put[..Deliver(|s.put|, env)]
  }

  function AllSent(s: Out, ops: seq<OutOp>): seq<byte>
    decreases |ops|
  {
    if ops == [] then [] else Sent(s, ops[0]) + AllSent(OutStep(s, ops[0]), ops[1..])
  }

  /** Which operations succeed, and what they leave in the put area. */
  lemma StepSucceedsIff(s: Out, op: OutOp)
    requires OutValid(s)
    ensures OutSucceeds(s, op) <==>
              match op
              case Put(_, env) =>
                if s.buffered then |s.put| < 512 || Deliver(|s.put|, env) == |s.put| else Deliver(1, env) == 1
              case Sync(env) => Deliver(|s.put|, env) == |s.put|
              case Unbuffer => s.put == []
              case Close(_, closeError) => closeError == NoError
    ensures OutStep(s, op).wire == s.wire + Sent(s, op)
    ensures OutStep(s, op).put ==
              if !OutSucceeds(s, op) then if op.Close? && Deliver(|s.put|, op.env) == |s.put| then [] else s.put
              else if op.Put? && s.buffered then if |s.put| < 512 then s.put + [op.c] else [op.c]
              else []
    ensures OutStep(s, op).buffered <==> s.buffered && !(op.Unbuffer? && OutSucceeds(s, op))
  {
  }

  /** Over every run the wire carries exactly what the socket took, call by call. */
  lemma {:induction false} WireIsWhatTheSocketTook(s: Out, ops: seq<OutOp>)
    requires OutValid(s)
    ensures RunOut(s, ops).wire == s.wire + AllSent(s, ops)
    decreases |ops|
  {
    if ops == [] {
      assert s.wire + [] == s.wire;
    } else {
      hide OutStep, Sent, OutSucceeds, OutValid;
      var t := OutStep(s, ops[0]);
      FailureKeepsPutArea(s, ops[0]);
      StepSucceedsIff(s, ops[0]);
      WireIsWhatTheSocketTook(t, ops[1..]);
      Assoc(s.wire, Sent(s, ops[0]), AllSent(t, ops[1..]));
    }
  }

  /** `sputc` of one character after another, with a socket that takes nothing. */
  function Puts(data: seq<byte>): (ops: seq<OutOp>)
    ensures |ops| == |data|
  {
    seq(|data|, i requires 0 <= i < |data| => Put(data[i], []))
  }

  /** A buffered stream accepts characters until 512 are pending, with no socket at all, and refuses the rest. */
  lemma {:induction false} BuffersWithoutSocket(s: Out, data: seq<byte>)
    requires OutValid(s) && s.buffered
    ensures |s.put| <= 512
    ensures var k := Min(|data|, 512 - |s.put|);
      AllTaken(s, Puts(data)) == data[..k] && RunOut(s, Puts(data)) == s.(put := s.put + data[..k])
    decreases |data|
  {
    if data == [] {
      assert s.put + [] == s.put;
    } else {
      var ops, t := Puts(data), OutStep(s, Put(data[0], []));
      assert ops[0] == Put(data[0], []) && ops[1..] == Puts(data[1..]);
      BuffersWithoutSocket(t, data[1..]);
      if |s.put| < 512 {
        var k := Min(|data|, 512 - |s.put|);
        assert data[..k] == [data[0]] + data[1..][..k - 1];
        Assoc(s.put, [data[0]], data[1..][..k - 1]);
      } else {
        assert Deliver(512, []) == 0;
        assert t == s && Taken(s, ops[0]) == [];
      }
    }
  }

  /** `setbuf(0, 0)` succeeds exactly when nothing is pending, and from then on, over every run, nothing is
      pending: every accepted character is on the wire when its call returns. */
  lemma {:induction false} UnbufferedGoesOut(s: Out, ops: seq<OutOp>)
    requires OutValid(s)
    ensures OutSucceeds(s, Unbuffer) <==> s.put == []
    ensures s.put == [] ==>
              var t := OutStep(s, Unbuffer);
              && t == Out(s.wire, [], false)
              && RunOut(t, ops) == Out(s.wire + AllTaken(t, ops), [], false)
    ensures s.put != [] ==> OutStep(s, Unbuffer) == s
  {
    if s.put == [] {
      var t := OutStep(s, Unbuffer);
      UnbufferedStays(t, ops);
      AlwaysExactlyOnceIff(t);
      assert t.wire + t.put == s.wire;
      assert RunOut(t, ops).wire + RunOut(t, ops).put == t.wire + t.put + AllTaken(t, ops);
      assert RunOut(t, ops).wire + [] == RunOut(t, ops).wire;
    }
  }

  lemma {:induction false} UnbufferedStays(s: Out, ops: seq<OutOp>)
    requires OutValid(s) && !s.buffered
    ensures RunOut(s, ops).put == [] && !RunOut(s, ops).buffered
    decreases |ops|
  {
    if ops != [] {
      UnbufferedStays(OutStep(s, ops[0]), ops[1..]);
    }
  }

  /** A failing `overflow` sends a proper prefix of what is pending and keeps the put area; what is on
      the wire never changes. */
  lemma FailureKeepsPutArea(s: Out, op: OutOp)
    ensures OutValid(s) ==> OutValid(OutStep(s, op))
    ensures s.wire <= OutStep(s, op).wire
    ensures !OutSucceeds(s, op) && !op.Close? ==>
              OutStep(s, op).put == s.put && OutStep(s, op).buffered == s.buffered
    ensures !OutSucceeds(s, op) && !op.Close? && s.buffered ==>
              OutStep(s, op).wire[|s.wire|..] < s.put || op.Unbuffer?
    ensures !OutSucceeds(s, op) && !op.Close? && !s.buffered && !op.Unbuffer? ==> OutStep(s, op) == s
    ensures OutSucceeds(s, op) && op.Sync? ==> OutStep(s, op).put == []
  {
  }

  /** Without waste a step neither repeats nor reorders: what it drops comes last. */
  lemma StepSends(s: Out, op: OutOp)
    requires OutValid(s)
    ensures |OutStep(s, op).wire| + |OutStep(s, op).put| + |Dropped(s, op)|
         == |s.wire| + |s.put| + |Taken(s, op)| + Wasted(s, op)
    ensures Wasted(s, op) == 0 ==>
              OutStep(s, op).wire + OutStep(s, op).put + Dropped(s, op) == s.wire + s.put + Taken(s, op)
    ensures Wasted(s, op) > 0 ==>
              Taken(s, op) == Dropped(s, op) == [] && Wasted(s, op) <= |s.put| && OutStep(s, op).put == s.put
              && OutStep(s, op).wire == s.wire + s.put[..Wasted(s, op)]
    ensures Taken(s, op) == [] || (Dropped(s, op) == [] && Taken(s, op) == [op.c])
  {
  }

  /** Every byte sent, buffered or dropped is an accepted character or one that was sent in vain. */
  lemma {:induction false} RunCounts(s: Out, ops: seq<OutOp>)
    requires OutValid(s)
    ensures OutValid(RunOut(s, ops))
    ensures |RunOut(s, ops).wire| + |RunOut(s, ops).put| + |AllDropped(s, ops)|
         == |s.wire| + |s.put| + |AllTaken(s, ops)| + AllWasted(s, ops)
    decreases |ops|
  {
    if ops != [] {
      hide OutStep, Taken, Wasted, Dropped;
      FailureKeepsPutArea(s, ops[0]);
      StepSends(s, ops[0]);
      RunCounts(OutStep(s, ops[0]), ops[1..]);
    }
  }

  lemma {:induction false} RunAccounts(s: Out, ops: seq<OutOp>)
    requires OutValid(s) && AllWasted(s, ops) == 0
    ensures multiset(RunOut(s, ops).wire + RunOut(s, ops).put + AllDropped(s, ops))
         == multiset(s.wire + s.put + AllTaken(s, ops))
    ensures AllDropped(s, ops) == [] ==>
              RunOut(s, ops).wire + RunOut(s, ops).put == s.wire + s.put + AllTaken(s, ops)
    decreases |ops|
  {
    if ops == [] {
      assert s.wire + s.put + [] == s.wire + s.put;
    } else {
      hide OutStep, Taken, Wasted, Dropped;
      var t, rest := OutStep(s, ops[0]), ops[1..];
      FailureKeepsPutArea(s, ops[0]);
      StepSends(s, ops[0]);
      RunAccounts(t, rest);
      ChainAccounts(s.wire + s.put, Taken(s, ops[0]), t.wire + t.put, Dropped(s, ops[0]),
                    AllTaken(t, rest), RunOut(t, rest).wire + RunOut(t, rest).put, AllDropped(t, rest));
    }
  }

  lemma ChainAccounts<T>(x0: seq<T>, t0: seq<T>, x1: seq<T>, d0: seq<T>, t1: seq<T>, x2: seq<T>, d1: seq<T>)
    requires x1 + d0 == x0 + t0 && multiset(x2 + d1) == multiset(x1 + t1)
    ensures multiset(x2 + (d0 + d1)) == multiset(x0 + (t0 + t1))
    ensures d0 == [] && x2 == x1 + t1 ==> x2 == x0 + (t0 + t1)
  {
    calc {
      multiset(x2 + (d0 + d1));
      multiset(x2) + multiset(d0 + d1);
      multiset(x2 + d1) + multiset(d0);
      multiset(x1 + t1) + multiset(d0);
      multiset(x1 + d0) + multiset(t1);
      multiset(x0 + t0) + multiset(t1);
      multiset(x0) + multiset(t0 + t1);
      multiset(x0 + (t0 + t1));
    }
    if d0 == [] && x2 == x1 + t1 {
      assert x1 == x1 + d0 == x0 + t0;
      assert x1 + t1 == x0 + (t0 + t1);
    }
  }

  /** Over every run and every environment, closes included: the bytes on the wire, in the put area and
      dropped by closes are together the accepted characters, each once, if and only if nothing was sent
      in vain. */
  lemma AccountedIff(s: Out, ops: seq<OutOp>)
    requires OutValid(s)
    ensures multiset(RunOut(s, ops).wire + RunOut(s, ops).put + AllDropped(s, ops))
         == multiset(s.wire + s.put + AllTaken(s, ops))
       <==> AllWasted(s, ops) == 0
  {
    RunCounts(s, ops);
    if AllWasted(s, ops) == 0 {
      RunAccounts(s, ops);
    } else {
      assert |multiset(RunOut(s, ops).wire + RunOut(s, ops).put + AllDropped(s, ops))|
          != |multiset(s.wire + s.put + AllTaken(s, ops))|;
    }
  }

  /** Exactly once and in order, over every run in which no close drops anything and every environment: the
      wire followed by the put area is the accepted characters if and only if nothing was sent in vain. */
  lemma ExactlyOnceIff(s: Out, ops: seq<OutOp>)
    requires OutValid(s) && AllDropped(s, ops) == []
    ensures RunOut(s, ops).wire + RunOut(s, ops).put == s.wire + s.put + AllTaken(s, ops)
       <==> AllWasted(s, ops) == 0
  {
    RunCounts(s, ops);
    if AllWasted(s, ops) == 0 {
      RunAccounts(s, ops);
    } else {
      assert |RunOut(s, ops).wire + RunOut(s, ops).put| != |s.wire + s.put + AllTaken(s, ops)|;
    }
  }

  /** No failure of a flush sends anything in vain, whatever the socket does, exactly when at most one byte
      is pending. */
  lemma FlushNeverWastesIff(s: Out)
    requires OutValid(s)
    ensures (forall env :: Wasted(s, Sync(env)) == 0) <==> |s.put| <= 1
  {
    if |s.put| > 1 {
      OneByteGoesOut(|s.put|);
      assert Wasted(s, Sync(ONE_BYTE)) == 1;
    }
  }

  /** The socket takes one byte, and then the time is up. */
  const ONE_BYTE := [Round(false, 1, [], NoError, false, NoError)]

  lemma OneByteGoesOut(n: nat)
    requires n > 1
    ensures Deliver(n, ONE_BYTE) == 1
  {
    assert ONE_BYTE[1..] == [];
    assert Deliver(n - 1, []) == 0;
  }

  /** A run from any buffered state that sends something in vain. */
  lemma {:induction false} WastefulRun(s: Out) returns (ops: seq<OutOp>)
    requires OutValid(s) && s.buffered
    ensures AllWasted(s, ops) > 0 && AllDropped(s, ops) == []
    decreases 2 - |s.put|
  {
    if |s.put| > 1 {
      OneByteGoesOut(|s.put|);
      ops := [Sync(ONE_BYTE)];
      assert ops[1..] == [];
    } else {
      var t := OutStep(s, Put(0, []));
      var rest := WastefulRun(t);
      ops := [Put(0, [])] + rest;
      assert ops[1..] == rest;
    }
  }

  lemma {:induction false} UnbufferedRun(s: Out, ops: seq<OutOp>)
    requires OutValid(s) && !s.buffered
    ensures AllWasted(s, ops) == 0 && AllDropped(s, ops) == []
    decreases |ops|
  {
    if ops != [] {
      FailureKeepsPutArea(s, ops[0]);
      UnbufferedRun(OutStep(s, ops[0]), ops[1..]);
    }
  }

  /** Exactly once and in order over every run and every environment, failures and closes included, if and
      only if the stream has no put buffer. */
  lemma AlwaysExactlyOnceIff(s: Out)
    requires OutValid(s)
    ensures (forall ops :: RunOut(s, ops).wire + RunOut(s, ops).put == s.wire + s.put + AllTaken(s, ops))
       <==> !s.buffered
  {
    if s.buffered {
      var ops := WastefulRun(s);
      ExactlyOnceIff(s, ops);
    } else {
      forall ops
        ensures RunOut(s, ops).wire + RunOut(s, ops).put == s.wire + s.put + AllTaken(s, ops)
      {
        UnbufferedRun(s, ops);
        ExactlyOnceIff(s, ops);
      }
    }
  }

  /** Over every run and every environment, failures and dropping closes included, no accepted character
      vanishes: each is on the wire, in the put area, or among what closes dropped. */
  lemma {:induction false} NothingVanishes(s: Out, ops: seq<OutOp>)
    requires OutValid(s)
    ensures multiset(s.wire + s.put + AllTaken(s, ops))
         <= multiset(RunOut(s, ops).wire + RunOut(s, ops).put + AllDropped(s, ops))
    decreases |ops|
  {
    if ops != [] {
      var t, rest := OutStep(s, ops[0]), ops[1..];
      FailureKeepsPutArea(s, ops[0]);
      StepKeepsAll(s, ops[0]);
      NothingVanishes(t, rest);
      hide OutStep, Taken, Wasted, Dropped;
      ChainCovers(s.wire + s.put, Taken(s, ops[0]), t.wire + t.put, Dropped(s, ops[0]),
                  AllTaken(t, rest), RunOut(t, rest).wire + RunOut(t, rest).put, AllDropped(t, rest));
    }
  }

  lemma StepKeepsAll(s: Out, op: OutOp)
    requires OutValid(s)
    ensures multiset(s.wire + s.put + Taken(s, op))
         <= multiset(OutStep(s, op).wire + OutStep(s, op).put + Dropped(s, op))
  {
    hide OutStep, Taken, Wasted, Dropped;
    StepSends(s, op);
    var s', t, d := OutStep(s, op), Taken(s, op), Dropped(s, op);
    if Wasted(s, op) > 0 {
      var again := s.put[..Wasted(s, op)];
      assert s.wire + s.put + t == s.wire + s.put && s'.wire + s'.put + d == s.wire + again + s.put;
      assert multiset(s.wire + again + s.put) == multiset(s.wire + s.put) + multiset(again);
    }
  }

  lemma ChainCovers<T>(x0: seq<T>, t0: seq<T>, x1: seq<T>, d0: seq<T>, t1: seq<T>, x2: seq<T>, d1: seq<T>)
    requires multiset(x0 + t0) <= multiset(x1 + d0) && multiset(x1 + t1) <= multiset(x2 + d1)
    ensures multiset(x0 + (t0 + t1)) <= multiset(x2 + (d0 + d1))
  {
    assert multiset(x0 + (t0 + t1)) == multiset(x0 + t0) + multiset(t1);
    assert multiset(x1 + d0) + multiset(t1) == multiset(x1 + t1) + multiset(d0);
    assert multiset(x2 + (d0 + d1)) == multiset(x2 + d1) + multiset(d0);
  }

  /** Every call of the run succeeds, and so does the flush of every close. */
  predicate AllSucceed(s: Out, ops: seq<OutOp>)
    decreases |ops|
  {
    ops == [] ||
    (OutSucceeds(s, ops[0]) && (ops[0].Close? ==> OverflowSucceeds(s, None, ops[0].env)) &&
     AllSucceed(OutStep(s, ops[0]), ops[1..]))
  }

  /** A run without failures puts every accepted character on the wire or in the put area, once and in
      order. */
  lemma {:induction false} SuccessfulRun(s: Out, ops: seq<OutOp>)
    requires OutValid(s) && AllSucceed(s, ops)
    ensures AllWasted(s, ops) == 0 && AllDropped(s, ops) == []
    ensures RunOut(s, ops).wire + RunOut(s, ops).put == s.wire + s.put + AllTaken(s, ops)
    decreases |ops|
  {
    if ops != [] {
      FailureKeepsPutArea(s, ops[0]);
      SuccessfulRun(OutStep(s, ops[0]), ops[1..]);
    }
    RunAccounts(s, ops);
  }

  /** `a` can be had from `b` by leaving elements out. */
  predicate Subsequence<T(==)>(a: seq<T>, b: seq<T>) {
    a == [] ||
    (b != [] &&
      ((a[|a| - 1] == b[|b| - 1] && Subsequence(a[..|a| - 1], b[..|b| - 1])) || Subsequence(a, b[..|b| - 1])))
  }

  lemma {:induction false} SubsequenceInsert<T>(a: seq<T>, u: seq<T>, x: seq<T>, v: seq<T>)
    requires Subsequence(a, u + v)
    ensures Subsequence(a, u + x + v)
    decreases |v|, |x|
  {
    if a == [] {
    } else if v != [] {
      var v' := v[..|v| - 1];
      assert (u + v)[..|u + v| - 1] == u + v' && (u + x + v)[..|u + x + v| - 1] == u + x + v';
      if Subsequence(a, u + v') {
        SubsequenceInsert(a, u, x, v');
      } else {
        SubsequenceInsert(a[..|a| - 1], u, x, v');
      }
    } else if x != [] {
      var x' := x[..|x| - 1];
      SubsequenceInsert(a, u, x', v);
      assert (u + x + v)[..|u + x + v| - 1] == u + x' + v;
    } else {
      assert u + x + v == u + v;
    }
  }

  lemma SubsequenceAppend<T>(a: seq<T>, b: seq<T>, c: T)
    requires Subsequence(a, b)
    ensures Subsequence(a + [c], b + [c])
  {
    assert (a + [c])[..|a|] == a && (b + [c])[..|b|] == b;
  }

  lemma {:induction false} SubsequencePrefix<T>(a: seq<T>, d: seq<T>, b: seq<T>)
    requires Subsequence(a + d, b)
    ensures Subsequence(a, b)
    decreases |d|, |b|
  {
    if a == [] {
    } else if d == [] {
      assert a + d == a;
    } else {
      var b' := b[..|b| - 1];
      if Subsequence(a + d, b') {
        SubsequencePrefix(a, d, b');
      } else {
        assert (a + d)[..|a + d| - 1] == a + d[..|d| - 1];
        SubsequencePrefix(a, d[..|d| - 1], b');
      }
    }
  }

  lemma StepKeepsSubsequence(s: Out, op: OutOp, a: seq<byte>)
    requires OutValid(s) && Subsequence(a, s.wire + s.put) && Dropped(s, op) == []
    ensures Subsequence(a + Taken(s, op), OutStep(s, op).wire + OutStep(s, op).put)
  {
    StepSends(s, op);
    hide OutStep, Taken, Wasted, Dropped;
    assert a + [] == a;
    if Wasted(s, op) == 0 {
      var x := OutStep(s, op).wire + OutStep(s, op).put;
      assert x + [] == x;
      if Taken(s, op) != [] {
        SubsequenceAppend(a, s.wire + s.put, op.c);
      } else {
        assert s.wire + s.put + [] == s.wire + s.put;
      }
    } else {
      SubsequenceInsert(a, s.wire, s.put[..Wasted(s, op)], s.put);
    }
  }

  /** At least once and in order, over every run in which no close drops anything, failing calls included:
      no accepted character is lost or overtaken by a later one. */
  lemma {:induction false} AtLeastOnceInOrder(s: Out, ops: seq<OutOp>, accepted: seq<byte>)
    requires OutValid(s) && Subsequence(accepted, s.wire + s.put) && AllDropped(s, ops) == []
    ensures Subsequence(accepted + AllTaken(s, ops), RunOut(s, ops).wire + RunOut(s, ops).put)
    decreases |ops|
  {
    hide Subsequence, OutStep, Taken, OutSucceeds, Dropped;
    if ops == [] {
      assert accepted + [] == accepted;
    } else {
      var s' := OutStep(s, ops[0]);
      FailureKeepsPutArea(s, ops[0]);
      StepKeepsSubsequence(s, ops[0], accepted);
      AtLeastOnceInOrder(s', ops[1..], accepted + Taken(s, ops[0]));
      assert accepted + Taken(s, ops[0]) + AllTaken(s', ops[1..]) == accepted + AllTaken(s, ops);
    }
  }

  lemma StepKeepsOrder(s: Out, op: OutOp, a: seq<byte>)
    requires OutValid(s) && Subsequence(s.wire + s.put, a) && Wasted(s, op) == 0
    ensures Subsequence(OutStep(s, op).wire + OutStep(s, op).put, a + Taken(s, op))
  {
    StepSends(s, op);
    hide OutStep, Taken, Wasted, Dropped;
    var x, x' := s.wire + s.put, OutStep(s, op).wire + OutStep(s, op).put;
    assert a + [] == a && x + [] == x && x' + [] == x';
    if Taken(s, op) != [] {
      SubsequenceAppend(x, a, op.c);
    } else {
      SubsequencePrefix(x', Dropped(s, op), a);
    }
  }

  /** At most once and in order, over every run that sends nothing in vain, closes that drop output
      included: the wire and the put area hold accepted characters only, none twice or out of order. */
  lemma {:induction false} AtMostOnceInOrder(s: Out, ops: seq<OutOp>, accepted: seq<byte>)
    requires OutValid(s) && Subsequence(s.wire + s.put, accepted) && AllWasted(s, ops) == 0
    ensures Subsequence(RunOut(s, ops).wire + RunOut(s, ops).put, accepted + AllTaken(s, ops))
    decreases |ops|
  {
    hide Subsequence, OutStep, Taken, OutSucceeds, Wasted;
    if ops == [] {
      assert accepted + [] == accepted;
    } else {
      var s' := OutStep(s, ops[0]);
      FailureKeepsPutArea(s, ops[0]);
      StepKeepsOrder(s, ops[0], accepted);
      AtMostOnceInOrder(s', ops[1..], accepted + Taken(s, ops[0]));
      assert accepted + Taken(s, ops[0]) + AllTaken(s', ops[1..]) == accepted + AllTaken(s, ops);
    }
  }

  /** A flush that fails after `k` bytes and is then made again sends those `k` bytes twice. */
  lemma RetryResends(s: Out, env: seq<Round>, env': seq<Round>)
    requires OutValid(s) && !OutSucceeds(s, Sync(env)) && OutSucceeds(OutStep(s, Sync(env)), Sync(env'))
    ensures var k := Wasted(s, Sync(env));
      k < |s.put| && RunOut(s, [Sync(env), Sync(env')]) == Out(s.wire + s.put[..k] + s.put, [], s.buffered)
    ensures RunOut(s, [Sync(env), Sync(env')]).wire == s.wire + s.put <==> Wasted(s, Sync(env)) == 0
  {
    hide Deliver;
    var s1 := OutStep(s, Sync(env));
    assert [Sync(env), Sync(env')][1..] == [Sync(env')];
    assert RunOut(s1, [Sync(env')]) == OutStep(s1, Sync(env'));
    if Wasted(s, Sync(env)) > 0 {
      assert |RunOut(s, [Sync(env), Sync(env')]).wire| > |s.wire + s.put|;
    }
  }

  /** One byte of two goes out, the connection then fails, and the second flush sends both. */
  lemma RetryResendsExample()
    ensures var s := Out([], [1, 2], true);
      var one, all := Round(false, 1, [], NoError, false, NoError), Round(false, 2, [], NoError, false, NoError);
      && !OutSucceeds(s, Sync([one]))
      && RunOut(s, [Sync([one]), Sync([all])]) == Out([1, 1, 2], [], true)
  {
    var s := Out([], [1, 2], true);
    var one, all := Round(false, 1, [], NoError, false, NoError), Round(false, 2, [], NoError, false, NoError);
    assert [one][1..] == [] && [all][1..] == [];
    assert Deliver(1, []) == 0 && Deliver(2, [one]) == 1 && Deliver(2, [all]) == 2;
    RetryResends(s, [one], [all]);
  }

  /** A `close` that reports success drops nothing, whatever the socket does, exactly when nothing is
      pending before it; in one environment, exactly when its flush succeeds. */
  lemma CloseFlushesIff(s: Out)
    requires OutValid(s)
    ensures (forall env :: Dropped(s, Close(env, NoError)) == []) <==> s.put == []
    ensures (forall env :: Closed(s, env, NoError).wire == s.wire + s.put) <==> s.put == []
    ensures forall env :: Closed(s, env, NoError).put == []
    ensures forall env :: Closed(s, env, NoError).wire == s.wire + s.put <==> OutSucceeds(s, Sync(env))
  {
    if s.put != [] {
      assert Dropped(s, Close([], NoError)) == s.put[0..];
      assert |Closed(s, [], NoError).wire| < |s.wire + s.put|;
    }
    forall env | !OutSucceeds(s, Sync(env))
      ensures Closed(s, env, NoError).wire != s.wire + s.put
    {
      assert |Closed(s, env, NoError).wire| < |s.wire + s.put|;
    }
  }

  /** A successful flush first, and the close loses nothing, whatever the socket does meanwhile. */
  lemma FlushThenClose(s: Out, env: seq<Round>, env': seq<Round>, closeError: ErrorCode)
    requires OutValid(s) && OutSucceeds(s, Sync(env))
    ensures var t := OutStep(s, Sync(env));
      Dropped(t, Close(env', closeError)) == [] && OutStep(t, Close(env', closeError)) == Out(s.wire + s.put, [], s.buffered)
  {
  }

  /** With no way to send, two accepted bytes are dropped by a close that reports success. */
  lemma CloseDropsExample()
    ensures var s := Out([], [1, 2], true);
      && !OutSucceeds(s, Sync([])) && OutSucceeds(s, Close([], NoError))
      && OutStep(s, Close([], NoError)) == Out([], [], true) && Dropped(s, Close([], NoError)) == [1, 2]
  {
  }

  // ---- whole runs of input ----

  function RunIn(s: In, ops: seq<InOp>): In
    decreases |ops|
  {
    if ops == [] then s else RunIn(InStep(s, ops[0]), ops[1..])
  }

  function AllDelivered(s: In, ops: seq<InOp>): seq<byte>
    decreases |ops|
  {
    if ops == [] then [] else Handed(s, ops[0]) + AllDelivered(InStep(s, ops[0]), ops[1..])
  }

  /** What the socket hands over in a step: nothing while there are characters to read, and otherwise what
      its receive loop ends with, at most the 512 bytes of the array less 8 for putback. */
  function Arriving(s: In, op: InOp): seq<byte> {
    if s.unread != [] then []
    else match Receive(504, op.env)
      case Got(data) => data
      case Failed(_) => []
  }

  function AllArriving(s: In, ops: seq<InOp>): seq<byte>
    decreases |ops|
  {
    if ops == [] then [] else Arriving(s, ops[0]) + AllArriving(InStep(s, ops[0]), ops[1..])
  }

  lemma StepArrives(s: In, op: InOp)
    ensures InStep(s, op).arrived == s.arrived + Arriving(s, op)
  {
  }

  /** What counts as received is, over every run, exactly what the receive loops ended with, and bytes
      delivered followed by bytes unread are those, after what was unread before. */
  lemma {:induction false} ArrivedIsReceived(s: In, ops: seq<InOp>)
    ensures RunIn(s, ops).arrived == s.arrived + AllArriving(s, ops)
    ensures AllDelivered(s, ops) + RunIn(s, ops).unread == s.unread + AllArriving(s, ops)
    decreases |ops|
  {
    ArrivedGrows(s, ops);
    InputLosesNothing(s, ops);
    assert (s.arrived + AllArriving(s, ops))[|s.arrived|..] == AllArriving(s, ops);
  }

  lemma {:induction false} ArrivedGrows(s: In, ops: seq<InOp>)
    ensures RunIn(s, ops).arrived == s.arrived + AllArriving(s, ops)
    decreases |ops|
  {
    if ops == [] {
      assert s.arrived + [] == s.arrived;
    } else {
      var t := InStep(s, ops[0]);
      StepArrives(s, ops[0]);
      ArrivedGrows(t, ops[1..]);
      Assoc(s.arrived, Arriving(s, ops[0]), AllArriving(t, ops[1..]));
    }
  }

  /** `sgetc` takes nothing, and the `sbumpc` after it takes the character it showed, whatever the socket
      does meanwhile, as if it had been called at once. */
  lemma PeekThenTake(s: In, env: seq<Round>, env': seq<Round>)
    ensures var t := InStep(s, InOp(false, env));
      && Handed(s, InOp(false, env)) == []
      && t.unread == s.unread + Arriving(s, InOp(false, env))
      && (t.unread != [] ==>
            && Handed(t, InOp(true, env')) == Handed(s, InOp(true, env)) == [t.unread[0]]
            && InStep(t, InOp(true, env')) == InStep(s, InOp(true, env)) == t.(unread := t.unread[1..]))
  {
  }

  lemma StepLosesNothing(s: In, op: InOp)
    ensures s.arrived <= InStep(s, op).arrived
    ensures s.unread + InStep(s, op).arrived[|s.arrived|..] == Handed(s, op) + InStep(s, op).unread
  {
    assert s.arrived[|s.arrived|..] == [];
  }

  /** Buffered input loses, repeats and reorders nothing, whatever sizes arrive: what was unread followed
      by all that has since been received is what has been delivered followed by what is unread. */
  lemma {:induction false} InputLosesNothing(s: In, ops: seq<InOp>)
    ensures s.arrived <= RunIn(s, ops).arrived
    ensures s.unread + RunIn(s, ops).arrived[|s.arrived|..] == AllDelivered(s, ops) + RunIn(s, ops).unread
    decreases |ops|
  {
    if ops == [] {
      assert s.arrived[|s.arrived|..] == [];
    } else {
      var t := InStep(s, ops[0]);
      StepLosesNothing(s, ops[0]);
      InputLosesNothing(t, ops[1..]);
      ChainRuns(s.unread, s.arrived, Handed(s, ops[0]), t.unread, t.arrived, AllDelivered(t, ops[1..]),
                RunIn(t, ops[1..]).unread, RunIn(t, ops[1..]).arrived);
    }
  }

  lemma ChainRuns<T>(u0: seq<T>, a0: seq<T>, d1: seq<T>, u1: seq<T>, a1: seq<T>, d2: seq<T>, u2: seq<T>, a2: seq<T>)
    requires a0 <= a1 && u0 + a1[|a0|..] == d1 + u1
    requires a1 <= a2 && u1 + a2[|a1|..] == d2 + u2
    ensures a0 <= a2 && u0 + a2[|a0|..] == d1 + d2 + u2
  {
    assert a2[|a0|..] == a1[|a0|..] + a2[|a1|..];
    calc {
      u0 + a2[|a0|..];
      u0 + (a1[|a0|..] + a2[|a1|..]);
      u0 + a1[|a0|..] + a2[|a1|..];
      d1 + u1 + a2[|a1|..];
      d1 + (u1 + a2[|a1|..]);
      d1 + (d2 + u2);
      d1 + d2 + u2;
    }
  }
}
