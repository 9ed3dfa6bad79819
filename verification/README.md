# Asio byte buffers and coroutines

Dafny models and proofs for the byte-buffer machinery and the stackless coroutines of the Asio 1.18.0
headers. `dafny verify dfyconfig.toml` verifies the project.

- `Memory.dfy`: bytes, buffer descriptors, and what a buffer sequence means. Memory is one address space;
  a buffer is an address and a size, so buffers may lie in one object, be empty, or overlap. `Gather`
  flattens a buffer sequence, `Scatter` lays bytes over one.
- `BufferCopy.dfy`: `buffer_size` and the `buffer_copy` overloads as methods on one memory array. All of them
  are proved against one function, `Copied` (a single buffer is a one-element sequence), so all overloads
  agree. The loops keep the iterators and offsets of the source; the bounded many-to-many loop terminates
  on remaining targets plus remaining sources plus one while the byte budget is not used up.
- `BuffersIterator.dfy`: `buffers_iterator` as a class with the five fields of the source. Every operation
  keeps the iterator at a canonical place, and `advance` arrives where single steps lead.
- `Streambuf.dfy`: `basic_streambuf` as a class over an array with the stream pointers as offsets. `Step`
  relates the views before and after each operation, throwing ones included; lemmas about `Run` hold of
  every sequence of steps.
- `SocketStreambuf.dfy`: `basic_socket_streambuf` over an environment of partial sends and receives, refusals,
  waits and expiry. `Deliver` and `Receive` say how a loop ends in a given environment; `SendLoop` and
  `ReceiveLoop` say the same of the environment as a whole.
  Characters come and go through `sputc`, `sgetc` and `sbumpc` of the standard library's `std::streambuf`
  (section 27.6.3.2 of ISO/IEC 14882:2011), which call the overridden `overflow` and `underflow`.
- `DynamicBuffer.dfy`: `dynamic_string_buffer` and `dynamic_vector_buffer`, both proved against one queue.
- `Coroutines.dfy`: the macros as a machine that leaves the body at every yield and jumps back in through a
  case label, proved to do the same as the body run straight through. `Reenter` is one call, on the classes
  `Coroutine` and `CoroutineRef`.
- `CoroutineMacros.dfy`: the macros written out in a small language with `for`, `switch`, `case`, `break` and
  `goto`, and the proof that every call of the expansion does what the machine does.

Methods that change state are specified by a function or relation of the old state; what that function means
is proved by the lemmas beside it.

## Where the code and its documentation differ

- A `prepare` that throws has already moved the input bytes (`basic_streambuf.hpp:325` runs before line 339).
  `Streambuf.ThrowingPrepareKeepsInput` says for which states the input bytes survive;
  `Streambuf.ThrowingPrepareExample` is a run in which they do not.
- `commit` and `consume` cast their count to `int`. `Streambuf.CommitMovesIff` and `Streambuf.ConsumeMovesIff` say
  when they still do what is documented; `Streambuf.CommitExample` is a `commit` that drives `pptr` below the array.
  The theorems about runs speak of runs whose counts fit, as every run does below a maximum size of 2^31.
- A retried flush sends the part it had already sent again. Every run puts the accepted characters on the wire
  once and in order exactly when the stream is unbuffered (`SocketStreambuf.AlwaysExactlyOnceIff`), and no failure of
  a flush can waste anything exactly when at most one byte is pending (`SocketStreambuf.FlushNeverWastesIff`). For one
  run of a buffered stream, `SocketStreambuf.ExactlyOnceIff` says it in terms of what was sent in vain;
  `SocketStreambuf.NothingVanishes` and `SocketStreambuf.AtLeastOnceInOrder` are what holds also with failures,
  `SocketStreambuf.RetryResendsExample` is a run that sends a byte twice.
- `close()` overwrites the error of its flush, so it can report success after dropping output. Such a close is
  sure to drop nothing, whatever the socket does, exactly when nothing is pending before it
  (`SocketStreambuf.CloseFlushesIff`). A caller that flushes first, and closes when that succeeds, loses nothing
  (`SocketStreambuf.FlushThenClose`). `SocketStreambuf.CloseDropsExample` is a close that drops two bytes.
- A dynamic buffer over a container larger than its maximum size can report a size above the maximum:
  `DynamicBuffer.FirstPrepareBoundedIff`. There the two adapters also consume differently
  (`DynamicBuffer.ConsumesAgreeIff`), and `grow(0)` and `shrink(0)` cut the container
  (`DynamicBuffer.GrowAppendsIff`, `DynamicBuffer.ShrinkErasesIff`, `DynamicBuffer.OversizedExample`).
- A coroutine whose body is left without a yield is documented to be complete. After a fork in the same call it
  is not: `Coroutines.ImplicitTerminationIff`, `Coroutines.ForkedBodyExample`.

## Model

| member | source | states |
|---|---|---|
| Memory.OffsetThenClampIsSlice | Networking/asio-1.18.0/include/asio/buffer.hpp:835-870 | `buffer(b + offset, n)` names exactly the bytes `offset .. offset + n` of `b` that exist, whatever the numbers |
| Memory.GatherScatter | Networking/asio-1.18.0/include/asio/buffer.hpp:2173-2183 | bytes laid over pairwise disjoint buffers become the first bytes of their flattened contents; the rest of the contents stays |
| Memory.ScatterFrame | Networking/asio-1.18.0/include/asio/buffer.hpp:2163-2164 | no address outside the first `n` bytes of a buffer sequence changes when `n` bytes are laid over it |
| Memory.GatherDrop | Networking/asio-1.18.0/include/asio/buffer.hpp:640-700 | moving a sequence on by `n` bytes, buffer by buffer, drops exactly the first `n` flattened bytes |
| BufferCopy.BufferSize | Networking/asio-1.18.0/include/asio/buffer.hpp:558-572 | the loop returns the total size of any sequence |
| BufferCopy.BufferCopy1 | Networking/asio-1.18.0/include/asio/buffer.hpp:2173-2183 | copies the smaller of the two sizes, writes nothing else |
| BufferCopy.CopyOneOne | Networking/asio-1.18.0/include/asio/buffer.hpp:2185-2191 | the common copy with both sequences of one buffer |
| BufferCopy.CopyOneOneMax | Networking/asio-1.18.0/include/asio/buffer.hpp:2193-2201 | the same, limited to `maxBytes` |
| BufferCopy.CopyOneMany | Networking/asio-1.18.0/include/asio/buffer.hpp:2203-2224 | the loop over the source performs the common copy and returns its count |
| BufferCopy.CopyManyOne | Networking/asio-1.18.0/include/asio/buffer.hpp:2226-2247 | the loop over the target performs the common copy and returns its count |
| BufferCopy.CopyManyMany | Networking/asio-1.18.0/include/asio/buffer.hpp:2249-2291 | the two-iterator loop performs the common copy for any cutting of both sides, empty buffers included, and terminates |
| BufferCopy.CopyManyManyMax | Networking/asio-1.18.0/include/asio/buffer.hpp:2293-2339 | the same under a byte budget: the count is the least of both sizes and the budget |
| BufferCopy.CopyChunk | Networking/asio-1.18.0/include/asio/buffer.hpp:2264-2288 | copying one chunk between the first buffers leaves exactly the rest of the copy to do |
| BufferCopy.ManyManyPass | Networking/asio-1.18.0/include/asio/buffer.hpp:2307-2336 | one pass of the loop, with iterators that leave a used-up buffer at once, keeps the whole copy's count and result |
| BufferCopy.CopyMeaning | Networking/asio-1.18.0/include/asio/buffer.hpp:2385-2397 | over disjoint targets a copy replaces the first `k` flattened target bytes by the first `k` source bytes, `k` the least of both sizes and the limit, keeps the source, and changes no other address |
| BufferCopy.LineariseAndScatter | Networking/asio-1.18.0/include/asio/buffer.hpp:806-816 | linearising into one buffer of `buffer_size` bytes and scattering into any target of that total size preserves the bytes |
| BufferCopy.ScatterInTwo | Networking/asio-1.18.0/include/asio/buffer.hpp:2249-2291 | writing two pieces, the second where the first stopped, is one write, even over overlapping targets |
| BufferCopy.CopyInTwoPieces | Networking/asio-1.18.0/include/asio/buffer.hpp:2293-2339 | a copy made in two bounded pieces, cut at any byte, equals one copy, in memory and in count |
| BuffersIterator.EqualPositionsArePlaces | Networking/asio-1.18.0/include/asio/buffers_iterator.hpp:303-351 | comparing positions alone decides the buffer and the offset, for equality and for order |
| BuffersIterator.CanonicalIffLocated | Networking/asio-1.18.0/include/asio/buffers_iterator.hpp:166-203 | the canonical places are exactly the places of the positions from 0 to the total size, each once |
| BuffersIterator.FlatIndex | Networking/asio-1.18.0/include/asio/buffers_iterator.hpp:340-345 | the byte at a place is the flattened byte at its position |
| BuffersIterator.NextPrevInverse | Networking/asio-1.18.0/include/asio/buffers_iterator.hpp:353-404 | one step forward and one back, in either order, is no step |
| BuffersIterator.StepsCompose | Networking/asio-1.18.0/include/asio/buffers_iterator.hpp:255-301 | `(it + a) + b == it + (a + b)`, `(it + n) - n == it`, `(it + n) - it == n` |
| BuffersIterator.BeginToEnd | Networking/asio-1.18.0/include/asio/buffers_iterator.hpp:166-203 | from begin, total-size steps reach end, and the places on the way read the flattened bytes in order |
| BuffersIterator.BuffersIterator.Begin | Networking/asio-1.18.0/include/asio/buffers_iterator.hpp:166-184 | begin is canonical, past all leading empty buffers, at position 0 |
| BuffersIterator.BuffersIterator.End | Networking/asio-1.18.0/include/asio/buffers_iterator.hpp:186-203 | end is canonical, at the position of the total size |
| BuffersIterator.BuffersIterator.Dereference | Networking/asio-1.18.0/include/asio/buffers_iterator.hpp:340-345 | `*it` is the flattened byte at the position |
| BuffersIterator.BuffersIterator.At | Networking/asio-1.18.0/include/asio/buffers_iterator.hpp:217-223 | `it[n]` is the flattened byte `n` away, for negative and positive `n` |
| BuffersIterator.BuffersIterator.Plus | Networking/asio-1.18.0/include/asio/buffers_iterator.hpp:269-294 | `it + n` is a new iterator `n` single steps away |
| BuffersIterator.BuffersIterator.Equal | Networking/asio-1.18.0/include/asio/buffers_iterator.hpp:347-351 | true exactly for the same buffer and offset |
| BuffersIterator.BuffersIterator.Less | Networking/asio-1.18.0/include/asio/buffers_iterator.hpp:315-319 | true exactly for an earlier buffer or an earlier offset of the same buffer |
| BuffersIterator.BuffersIterator.DistanceTo | Networking/asio-1.18.0/include/asio/buffers_iterator.hpp:487-491 | the number of single steps that leads from one iterator to the other |
| BuffersIterator.BuffersIterator.Increment | Networking/asio-1.18.0/include/asio/buffers_iterator.hpp:353-374 | goes to the next byte of the sequence and stays canonical; the source's assertion holds |
| BuffersIterator.BuffersIterator.Decrement | Networking/asio-1.18.0/include/asio/buffers_iterator.hpp:376-404 | goes to the previous byte, also from the end; the search always finds a buffer |
| BuffersIterator.BuffersIterator.Advance | Networking/asio-1.18.0/include/asio/buffers_iterator.hpp:406-485 | skipping whole buffers arrives exactly where the same number of single steps leads, either way |
| BuffersIterator.BuffersIterator.AdvanceForward | Networking/asio-1.18.0/include/asio/buffers_iterator.hpp:409-443 | the forward loop terminates, keeps the place canonical, and reaches the end only with nothing left to skip |
| BuffersIterator.BuffersIterator.AdvanceBackward | Networking/asio-1.18.0/include/asio/buffers_iterator.hpp:444-484 | the backward loop terminates because an earlier non-empty buffer exists, and never stands at the start with distance left |
| Streambuf.CommitMovesIff | Networking/asio-1.18.0/include/asio/basic_streambuf.hpp:233-238 | `pbump` of a count cast to `int` ends in the put area with exactly those bytes added to the input if and only if the count is at most 2^31 - 1 |
| Streambuf.ConsumeMovesIff | Networking/asio-1.18.0/include/asio/basic_streambuf.hpp:247-254 | `gbump` of a count cast to `int` ends in the input sequence with exactly those bytes removed if and only if the count is at most 2^31 - 1 |
| Streambuf.AllCountsFitIff | Networking/asio-1.18.0/include/asio/basic_streambuf.hpp:233-254 | every count fits in a state if and only if neither area is longer than 2^31 - 1; below that `max_size()` no run meets the cast |
| Streambuf.CastExample | Networking/asio-1.18.0/include/asio/basic_streambuf.hpp:236 | a count of 2^31 moves a pointer down by 2^31, below `gptr` unless that much input lies before it |
| Streambuf.CommitExample | Networking/asio-1.18.0/include/asio/basic_streambuf.hpp:214-238 | `prepare(2^31)` and `commit(2^31)` on an empty streambuf leave `pptr` 2^31 below the array |
| Streambuf.BasicStreambuf.constructor | Networking/asio-1.18.0/include/asio/basic_streambuf.hpp:131-141 | empty input sequence, put area of 128 bytes or the maximum size if smaller |
| Streambuf.BasicStreambuf.Size | Networking/asio-1.18.0/include/asio/basic_streambuf.hpp:158-161 | the length of the input sequence, at most the maximum size |
| Streambuf.BasicStreambuf.Data | Networking/asio-1.18.0/include/asio/basic_streambuf.hpp:192-196 | a buffer that reads the input sequence |
| Streambuf.BasicStreambuf.Reserve | Networking/asio-1.18.0/include/asio/basic_streambuf.hpp:308-346 | throws exactly when `size() + n` is above the maximum, and then changes no pointer and no size of the array; otherwise the input bytes survive shifting and resizing and at least `n` bytes follow them |
| Streambuf.BasicStreambuf.PrepareBuffer | Networking/asio-1.18.0/include/asio/basic_streambuf.hpp:214-219 | the returned buffer is `n` writable bytes right after the input sequence and disjoint from it |
| Streambuf.BasicStreambuf.CommitBytes | Networking/asio-1.18.0/include/asio/basic_streambuf.hpp:233-238 | for every count: moves the first bytes of the output sequence, at most all of it, to the end of the input sequence if and only if the count that takes effect fits an `int`; where the pointers end up otherwise |
| Streambuf.BasicStreambuf.ConsumeBytes | Networking/asio-1.18.0/include/asio/basic_streambuf.hpp:247-254 | for every count: removes at most the whole input sequence from its front, also while `egptr` lags, if and only if the count that takes effect fits an `int`; where the pointers end up otherwise |
| Streambuf.BasicStreambuf.UnderflowByte | Networking/asio-1.18.0/include/asio/basic_streambuf.hpp:263-274 | end of file exactly on an empty input sequence; otherwise its first byte, with the get area caught up |
| Streambuf.BasicStreambuf.OverflowByte | Networking/asio-1.18.0/include/asio/basic_streambuf.hpp:283-306 | throws exactly when the input sequence is full, and then changes nothing; otherwise appends exactly the character |
| Streambuf.BasicStreambuf.ReadSizeHelper | Networking/asio-1.18.0/include/asio/basic_streambuf.hpp:352-359 | the most a read may take: no more than asked for, than fits, or than the larger of 512 and the spare capacity, and exactly one of these; neither subtraction goes below zero and preparing the result never throws |
| Streambuf.FullReserve | Networking/asio-1.18.0/include/asio/basic_streambuf.hpp:287-298 | on a full put area the room `overflow` asks for is refused only when the input sequence is full, and then no byte has moved |
| Streambuf.MovedDown | Networking/asio-1.18.0/include/asio/basic_streambuf.hpp:321-326 | what the unmoved pointers delimit after the `memmove` |
| Streambuf.ThrowingPrepareKeepsInput | Networking/asio-1.18.0/include/asio/basic_streambuf.hpp:321-340 | a throwing `prepare` keeps all input bytes, whatever they are, if and only if the get offset is 0 or at least `size()` |
| Streambuf.ThrowingPrepareExample | Networking/asio-1.18.0/include/asio/basic_streambuf.hpp:308-346 | a run from an empty streambuf in which a throwing `prepare` turns the input 2 3 4 into 3 4 4 |
| Streambuf.RunIsFifo | Networking/asio-1.18.0/include/asio/basic_streambuf.hpp:214-346 | over every run whose commit and consume counts fit an `int` and whose throwing `prepare`s find nothing to smear, consumed bytes followed by the input sequence equal the initial input followed by all bytes committed or overflowed |
| Streambuf.WrittenIsRead | Networking/asio-1.18.0/include/asio/basic_streambuf.hpp:214-254 | prepare, write, commit and consume: the written bytes become the end of the input sequence, and all of it once what was before is consumed, however the array was moved or resized |
| Streambuf.CommitsAddUp | Networking/asio-1.18.0/include/asio/basic_streambuf.hpp:233-238 | two commits are one of both counts |
| Streambuf.ConsumeThenCommit | Networking/asio-1.18.0/include/asio/basic_streambuf.hpp:233-254 | a consume of what is there and a commit can change places |
| Streambuf.RunStaysBounded | Networking/asio-1.18.0/include/asio/basic_streambuf.hpp:64-68 | `size() <= max_size()` in every state of every run whose commit and consume counts fit an `int`, and the exact condition of every throw |
| SocketStreambuf.SocketStreambuf.constructor | Networking/asio-1.18.0/include/asio/basic_socket_streambuf.hpp:192-198 | nothing sent, received or buffered |
| SocketStreambuf.SocketStreambuf.InitBuffers | Networking/asio-1.18.0/include/asio/basic_socket_streambuf.hpp:566-576 | empty get area above the putback zone, empty put area |
| SocketStreambuf.SendLoop | Networking/asio-1.18.0/include/asio/basic_socket_streambuf.hpp:490-523 | the send loop delivers all that is pending, or all that the rounds before the first one that stops it offer, and ends with that round's error; only `would_block` and `try_again`, waited for, do not stop it |
| SocketStreambuf.WaitingSends | Networking/asio-1.18.0/include/asio/basic_socket_streambuf.hpp:515-522 | a send refused with `would_block` or `try_again` and waited for changes neither the bytes delivered nor the error |
| SocketStreambuf.ReceiveLoop | Networking/asio-1.18.0/include/asio/basic_socket_streambuf.hpp:423-464 | the receive loop ends with the bytes, end of file or error of the first round that is not refused with `would_block` or `try_again` and waited for |
| SocketStreambuf.WaitingReceives | Networking/asio-1.18.0/include/asio/basic_socket_streambuf.hpp:456-463 | a receive refused with `would_block` or `try_again` and waited for changes nothing |
| SocketStreambuf.SocketStreambuf.SendAll | Networking/asio-1.18.0/include/asio/basic_socket_streambuf.hpp:490-523 | exactly the bytes the environment lets through, in order, reach the wire; success means all; a failure reports the environment's error |
| SocketStreambuf.SocketStreambuf.OverflowByte | Networking/asio-1.18.0/include/asio/basic_socket_streambuf.hpp:468-540 | success leaves only the new character buffered; failure keeps the put area and has sent a proper prefix of it |
| SocketStreambuf.SocketStreambuf.PutByte | Networking/asio-1.18.0/include/asio/basic_socket_streambuf.hpp:468-540 | a character goes to the put area, or through `overflow` when the area is full or absent |
| SocketStreambuf.SocketStreambuf.SyncBytes | Networking/asio-1.18.0/include/asio/basic_socket_streambuf.hpp:542-545 | a flush: on success the put area is empty and its bytes are on the wire |
| SocketStreambuf.SocketStreambuf.SetUnbuffered | Networking/asio-1.18.0/include/asio/basic_socket_streambuf.hpp:547-558 | exactly when nothing is pending it succeeds and the put buffer is gone, with nothing sent; otherwise nothing changes |
| SocketStreambuf.SocketStreambuf.CloseSocket | Networking/asio-1.18.0/include/asio/basic_socket_streambuf.hpp:299-306 | success and error are those of the socket's close alone; pending output and unread input are then dropped |
| SocketStreambuf.SocketStreambuf.UnderflowByte | Networking/asio-1.18.0/include/asio/basic_socket_streambuf.hpp:414-466 | refills an empty get area with exactly what the receive loop ended with, above the 8-byte putback zone of the 512-byte array, and counts it as received; reports every way to fail |
| SocketStreambuf.SocketStreambuf.GetByte | Networking/asio-1.18.0/include/asio/basic_socket_streambuf.hpp:414-466 | returns the next received byte, taken or left in place, refilling only an empty get area |
| SocketStreambuf.FailureKeepsPutArea | Networking/asio-1.18.0/include/asio/basic_socket_streambuf.hpp:490-523 | a failing operation keeps the put area and sends a proper prefix of it; what is on the wire stays |
| SocketStreambuf.StepSucceedsIff | Networking/asio-1.18.0/include/asio/basic_socket_streambuf.hpp:468-558 | an operation that has to send succeeds if and only if the socket takes everything; the wire, the put area and the mode it leaves |
| SocketStreambuf.WireIsWhatTheSocketTook | Networking/asio-1.18.0/include/asio/basic_socket_streambuf.hpp:468-576 | over every run the wire carries exactly what the socket took, call by call |
| SocketStreambuf.BuffersWithoutSocket | Networking/asio-1.18.0/include/asio/basic_socket_streambuf.hpp:104-575 | with a socket that takes nothing, a buffered stream accepts characters until exactly 512 are pending and refuses the rest |
| SocketStreambuf.UnbufferedGoesOut | Networking/asio-1.18.0/include/asio/basic_socket_streambuf.hpp:547-558 | `setbuf(0, 0)` succeeds if and only if nothing is pending; over every run after it, every accepted character is on the wire and nothing is ever pending |
| SocketStreambuf.RunCounts | Networking/asio-1.18.0/include/asio/basic_socket_streambuf.hpp:299-306 | over every run, closes included, the bytes sent, buffered and dropped are counted by the characters accepted and the bytes sent in vain |
| SocketStreambuf.AccountedIff | Networking/asio-1.18.0/include/asio/basic_socket_streambuf.hpp:468-576 | over every run and environment, closes included, wire, put area and dropped bytes are together the accepted characters, each once, if and only if nothing was sent in vain |
| SocketStreambuf.ExactlyOnceIff | Networking/asio-1.18.0/include/asio/basic_socket_streambuf.hpp:468-576 | over every run in which no close drops output, wire and put area hold the accepted characters exactly once and in order if and only if nothing was sent in vain |
| SocketStreambuf.AlwaysExactlyOnceIff | Networking/asio-1.18.0/include/asio/basic_socket_streambuf.hpp:468-576 | wire and put area hold the accepted characters exactly once and in order over every run, failures and closes included, if and only if the stream is unbuffered |
| SocketStreambuf.NothingVanishes | Networking/asio-1.18.0/include/asio/basic_socket_streambuf.hpp:468-576 | over every run, whatever fails or is dropped, each accepted character is on the wire, in the put area or among the dropped ones at least as often as it was accepted |
| SocketStreambuf.AtLeastOnceInOrder | Networking/asio-1.18.0/include/asio/basic_socket_streambuf.hpp:468-576 | over every run in which no close drops output, failing calls included, no accepted character is lost or overtaken |
| SocketStreambuf.AtMostOnceInOrder | Networking/asio-1.18.0/include/asio/basic_socket_streambuf.hpp:468-576 | over every run that sends nothing in vain, dropping closes included, only accepted characters are sent or buffered, none twice or out of order |
| SocketStreambuf.SuccessfulRun | Networking/asio-1.18.0/include/asio/basic_socket_streambuf.hpp:468-576 | a run in which every call and every flush of a close succeeds sends nothing in vain and drops nothing |
| SocketStreambuf.FlushNeverWastesIff | Networking/asio-1.18.0/include/asio/basic_socket_streambuf.hpp:490-527 | a flush sends nothing in vain in any environment if and only if at most one byte is pending |
| SocketStreambuf.RetryResends | Networking/asio-1.18.0/include/asio/basic_socket_streambuf.hpp:490-527 | a flush repeated after a failure sends the already sent prefix a second time; the wire is right if and only if that prefix is empty |
| SocketStreambuf.RetryResendsExample | Networking/asio-1.18.0/include/asio/basic_socket_streambuf.hpp:490-527 | the bytes 1 2 reach the wire as 1 1 2 after a partial send, a failure and a second flush |
| SocketStreambuf.CloseFlushesIff | Networking/asio-1.18.0/include/asio/basic_socket_streambuf.hpp:299-306 | a close that reports success drops nothing in any environment if and only if nothing is pending before it; in one environment, if and only if its flush succeeds |
| SocketStreambuf.FlushThenClose | Networking/asio-1.18.0/include/asio/basic_socket_streambuf.hpp:299-306 | after a flush that succeeded, everything accepted is on the wire and a close drops nothing, whatever the socket does and whether or not the close succeeds |
| SocketStreambuf.CloseDropsExample | Networking/asio-1.18.0/include/asio/basic_socket_streambuf.hpp:299-306 | a close reports success after its flush failed and two accepted bytes were dropped |
| SocketStreambuf.InputLosesNothing | Networking/asio-1.18.0/include/asio/basic_socket_streambuf.hpp:414-466 | over every run of reads, bytes delivered followed by the unread get area are the bytes received, in order |
| SocketStreambuf.ArrivedIsReceived | Networking/asio-1.18.0/include/asio/basic_socket_streambuf.hpp:436-444 | over every run of reads, what counts as received is the concatenation of what the receive loops ended with, and it is what was delivered and what is unread |
| SocketStreambuf.PeekThenTake | Networking/asio-1.18.0/include/asio/basic_socket_streambuf.hpp:414-466 | `sgetc` takes nothing, and the `sbumpc` after it takes the character it showed, whatever the socket does |
| DynamicBuffer.DynamicStringBuffer.Data | Networking/asio-1.18.0/include/asio/buffer.hpp:1651-1654 | reads exactly the input sequence, before and after the first `prepare` |
| DynamicBuffer.DynamicStringBuffer.Prepare | Networking/asio-1.18.0/include/asio/buffer.hpp:1714-1728 | the queue's prepare with its exact throw condition; the buffer lies right after the input sequence |
| DynamicBuffer.DynamicStringBuffer.Commit | Networking/asio-1.18.0/include/asio/buffer.hpp:1743-1747 | the queue's commit: bytes move across, the remaining output is discarded, and the string holds the input sequence and nothing else |
| DynamicBuffer.DynamicStringBuffer.Grow | Networking/asio-1.18.0/include/asio/buffer.hpp:1757-1766 | the queue's grow with its exact throw condition, before and after the first `prepare` |
| DynamicBuffer.DynamicStringBuffer.Shrink | Networking/asio-1.18.0/include/asio/buffer.hpp:1775-1778 | the queue's shrink; after a `prepare` it leaves `size()` above the bytes there are exactly when it cuts off any |
| DynamicBuffer.DynamicStringBuffer.Consume | Networking/asio-1.18.0/include/asio/buffer.hpp:1792-1804 | the queue's consume for a string, in both modes |
| DynamicBuffer.DynamicVectorBuffer.Data | Networking/asio-1.18.0/include/asio/buffer.hpp:1924-1927 | reads exactly the input sequence, before and after the first `prepare` |
| DynamicBuffer.DynamicVectorBuffer.Prepare | Networking/asio-1.18.0/include/asio/buffer.hpp:1987-2001 | as for the string adapter |
| DynamicBuffer.DynamicVectorBuffer.Commit | Networking/asio-1.18.0/include/asio/buffer.hpp:2016-2020 | as for the string adapter: the vector holds the input sequence and nothing else |
| DynamicBuffer.DynamicVectorBuffer.Grow | Networking/asio-1.18.0/include/asio/buffer.hpp:2030-2039 | the queue's grow with its exact throw condition, before and after the first `prepare` |
| DynamicBuffer.DynamicVectorBuffer.Shrink | Networking/asio-1.18.0/include/asio/buffer.hpp:2048-2051 | the queue's shrink; after a `prepare` it leaves `size()` above the bytes there are exactly when it cuts off any |
| DynamicBuffer.DynamicVectorBuffer.Consume | Networking/asio-1.18.0/include/asio/buffer.hpp:2065-2077 | the queue's consume for a vector, which clamps to the reported size before the first `prepare` |
| DynamicBuffer.StepStaysBounded | Networking/asio-1.18.0/include/asio/buffer.hpp:1714-1804 | the bound is kept by every allowed operation; the exact throws; a throw keeps the contents |
| DynamicBuffer.PrepareGivesRoom | Networking/asio-1.18.0/include/asio/buffer.hpp:1714-1728 | a `prepare` that does not throw leaves exactly `n` bytes of output, keeps as much of the old output as fits, and keeps the input |
| DynamicBuffer.CommitDiscards | Networking/asio-1.18.0/include/asio/buffer.hpp:1743-1747 | a `commit` leaves no output sequence, so a second one moves nothing |
| DynamicBuffer.WrittenIsRead | Networking/asio-1.18.0/include/asio/buffer.hpp:1714-1804 | prepare, write, commit and consume: what was written, and no more, is appended, and is all there is once what was before it is consumed |
| DynamicBuffer.ConsumesAddUp | Networking/asio-1.18.0/include/asio/buffer.hpp:1792-1804 | two consumes are one of both counts, unless the vector adapter clamps |
| DynamicBuffer.ShrinkUndoesGrow | Networking/asio-1.18.0/include/asio/buffer.hpp:1757-1778 | a v2 `shrink` undoes the `grow` of the same count before it |
| DynamicBuffer.RunIsFifo | Networking/asio-1.18.0/include/asio/buffer.hpp:1714-1804 | any run from within the maximum size without `grow` or `shrink` before its first `prepare` is a bounded first-in first-out queue |
| DynamicBuffer.AdaptersAgree | Networking/asio-1.18.0/include/asio/buffer.hpp:1987-2077 | from equal contents within the maximum size, equal runs of either version give both adapters equal contents, sizes and throws |
| DynamicBuffer.ConsumesAgreeIff | Networking/asio-1.18.0/include/asio/buffer.hpp:2076 | the adapters consume alike if and only if `prepare` has been called, or the container or the count is within the maximum size |
| DynamicBuffer.FirstPrepareBoundedIff | Networking/asio-1.18.0/include/asio/buffer.hpp:1716-1723 | after the first successful `prepare`, `size() <= max_size()` if and only if the container was within it; otherwise every later `prepare` throws |
| DynamicBuffer.GrowAppendsIff | Networking/asio-1.18.0/include/asio/buffer.hpp:1757-1766 | a v2 `grow` that does not throw keeps the contents and appends `n` bytes if and only if the container is within `max_size()`; otherwise it cuts the container to `max_size()` |
| DynamicBuffer.ShrinkErasesIff | Networking/asio-1.18.0/include/asio/buffer.hpp:1775-1778 | a v2 `shrink` erases the last `n` bytes, or all, if and only if the container is within `max_size()` or all of it goes |
| DynamicBuffer.OversizedExample | Networking/asio-1.18.0/include/asio/buffer.hpp:1714-1804 | a container of three bytes under a maximum of two reports size 3 after `prepare(0)`, is cut by `grow(0)` and `shrink(0)`, and is consumed differently by the two adapters |
| Coroutines.CaseLabels | Networking/asio-1.18.0/include/asio/coroutine.hpp:294-319 | the labels of a body are exactly its yield numbers and its negated fork numbers |
| Coroutines.SavedValueSelectsContinuation | Networking/asio-1.18.0/include/asio/coroutine.hpp:281-319 | wherever any number of calls has led, the value a yield saves selects exactly the code after that yield, and a fork's child value exactly the parent's continuation |
| Coroutines.ForkedCopyIsChild | Networking/asio-1.18.0/include/asio/coroutine.hpp:311-319 | a copy made while a fork runs its statement stands for the rest of the body run as a child, while the parent runs the same rest |
| Coroutines.StepSimulates | Networking/asio-1.18.0/include/asio/coroutine.hpp:281-319 | every step of the macros is a call or return without effect, or the next step of the straight-through run; never idle twice |
| Coroutines.ReentryIsSound | Networking/asio-1.18.0/include/asio/coroutine.hpp:77-78 | after any number of steps and calls, the statements performed are those of a prefix of the straight-through run, with its state and place |
| Coroutines.ReentryIsComplete | Networking/asio-1.18.0/include/asio/coroutine.hpp:77-78 | every step of the straight-through run is reached by calling again and again |
| Coroutines.CompletesTogether | Networking/asio-1.18.0/include/asio/coroutine.hpp:191-196 | when the straight-through run ends, the coroutine reaches the value -1 with the same statements performed and the same state |
| Coroutines.CompleteIffCallsIdle | Networking/asio-1.18.0/include/asio/coroutine.hpp:254 | `is_complete()` is true if and only if a call changes nothing; then no number of calls does |
| Coroutines.CompleteMeansEnded | Networking/asio-1.18.0/include/asio/coroutine.hpp:191-196 | calls from a fresh coroutine that have brought it to `is_complete()` have run its body straight through to the end |
| Coroutines.ImplicitTerminationIff | Networking/asio-1.18.0/include/asio/coroutine.hpp:194-196 | a body left without a yield leaves the coroutine complete if and only if no fork ran since the last reentry; otherwise one more call, without effect, completes it |
| Coroutines.ForkedBodyExample | Networking/asio-1.18.0/include/asio/coroutine.hpp:269-319 | a body that only forks leaves the value 2, not -1; the next call, without effect, leaves -1 |
| CoroutineMacros.InnerSwitch | Networking/asio-1.18.0/include/asio/coroutine.hpp:294-309 | the inner `switch` of a yield jumps past `case -1` and `case 1` to the statement |
| CoroutineMacros.GotoTargets | Networking/asio-1.18.0/include/asio/coroutine.hpp:281-292 | both `goto` labels of `reenter` are found, and what runs after each |
| CoroutineMacros.YieldLeaves | Networking/asio-1.18.0/include/asio/coroutine.hpp:294-309 | the nested loops and `switch` of a yield save the number, run the statement once, and leave the function through `bail_out_of_coroutine` |
| CoroutineMacros.YieldBreakLeaves | Networking/asio-1.18.0/include/asio/coroutine.hpp:294-309 | `yield break` falls out of the inner loop into `case -1` and leaves the function with the value -1 through `terminate_coroutine` |
| CoroutineMacros.YieldReturnLeaves | Networking/asio-1.18.0/include/asio/coroutine.hpp:294-309 | `yield return e` saves its number, evaluates `e` once and leaves the function with that number saved |
| CoroutineMacros.ForkGoesOn | Networking/asio-1.18.0/include/asio/coroutine.hpp:311-319 | the loop of a fork runs the statement once under the negated number, saves the number, and goes on after the fork |
| CoroutineMacros.JumpLands | Networking/asio-1.18.0/include/asio/coroutine.hpp:281-319 | the outer `switch` finds a label in an expanded body exactly when the body has it, never one of an inner `switch`, and lands where `CaseTarget` says |
| CoroutineMacros.StepExpands | Networking/asio-1.18.0/include/asio/coroutine.hpp:281-319 | each machine step inside a body is some steps of the expansion, with the same effect |
| CoroutineMacros.CallEnters | Networking/asio-1.18.0/include/asio/coroutine.hpp:281-292 | for any saved value the expansion of `reenter` comes to where reentering puts the machine; -1 goes through `terminate_coroutine` |
| CoroutineMacros.CallExpands | Networking/asio-1.18.0/include/asio/coroutine.hpp:264-319 | a call of the expanded function follows the machine through the body |
| CoroutineMacros.CallAgrees | Networking/asio-1.18.0/include/asio/coroutine.hpp:264-319 | when the machine leaves the body the expanded function ends, and however it ends, it is with the machine's statements, state and saved value |
| Coroutines.Reenter | Networking/asio-1.18.0/include/asio/coroutine.hpp:281-319 | a call that leaves the body is one uninterrupted stay of the machine inside it, with the machine's effects, state and saved value; a call of a complete coroutine does nothing |

## Left out

- Coroutines.Reenter: carries a bound on the steps of one call, because a body may loop forever without a yield; the lemmas about the machine have no bound.
- Coroutine bodies are structured: sequence, `if`, `while`, `do`, `return`, yields and forks. A yield inside the statement of another yield or fork, `goto`, `break` out of a loop, exceptions and C++ local variables in the body are not modelled.
- Coroutine numbers: `WellNumbered` stands for unique line numbers or counter values, a fork's above 1, where the labels 1 and -1 of the macros would collide.
- BuffersIterator: sizes and positions are unbounded; `size_t` and `ptrdiff_t` overflow and iterators into different sequences are not modelled. The default-constructed iterator has no sequence and is left out.
- SocketStreambuf environments are finite; a loop that waits forever has no result to speak of. Time is one flag a turn; `timeout()`, expiry arithmetic, connection and the moves are left out.
- SocketStreambuf putback (`sungetc` into the 8-byte zone) is left out: the zone is shown to be left alone by refills, nothing is said of what it holds.
- The Windows Runtime branches of `basic_socket_streambuf` are left out.
- Streambuf: what further operations do once a cast has moved a pointer out of its area is not modelled. `bad_alloc`, a failing `vector` allocation, and pointer overflow in `gptr() + n` are not modelled. How `capacity()` grows is left open.
- `basic_streambuf_ref` and the `dynamic_buffer` factories only forward and would add easy members.
- DynamicBuffer: a `commit` before the first `prepare`, which its documentation excludes, and operations after a `shrink` that has cut into the input sequence of a prepared buffer are not modelled. `data(pos, n)` is covered by `Memory.OffsetThenClampIsSlice`. Copies of an adapter share its container and are not followed.
- `buffer_copy` between overlapping memory is excluded by its documentation; overlapping targets are covered, a target that overlaps a source is not.
- Buffer debugging checks, the `asio::buffer` overloads for arrays and containers, and the rest of the library are left out.
