# Verified models of libnetwrk's embedded ASIO components

libnetwrk carries ASIO 1.30.2 with it. This project models four of its components in Dafny and
proves what they promise over whole runs.

* **`basic_streambuf`** (`StreamBuf.dfy`, `StreamBufRuns.dfy`): a growable byte queue in one vector
  with six stream pointers. The class keeps the vector as an array and the pointers, area by area, as
  offsets of a checked 64-bit `size_t`, so that none of the unsigned subtractions can wrap. Every run
  is shown to be a run of a plain bounded queue, and that queue to be first in, first out.
* **`basic_socket_streambuf`** (`SocketAnswers.dfy`, `SocketStreamBuf.dfy`, `SocketStreamRuns.dfy`): a
  buffered stream over a non-blocking socket. Socket, clock and poller are scripts of arbitrary
  answers: partial sends, would-block, errors, failed polls, a passed expiry time. The class is shown
  to follow a function on the value of the stream, and over every run of that function, failures,
  closes and moves included, the bytes are accounted for.
* **`any_completion_handler`** (`Handlers.dfy`, `HandlerRuns.dfy`, `HandlerPrograms.dfy`,
  `TrailerAllocator.dfy`): the owning wrapper, as classes over a heap of implementation objects, with
  ownership and release proved for every program; and the aligned allocator whose trailer leads back
  to the raw block, over a byte array.
* **Binder towers** (`Binders.dfy`): tokens nested from executor, allocator and cancellation slot
  binders, the association lookups, and the initiation that takes a tower apart and builds it up again.

`Machine.dfy` holds the shared types, `Traces.dfy` what is true of the runs of any deterministic
machine.

The main results are `StreamBufferRuns.Drive` with `RunIsLawful` and `FirstInFirstOut`;
`SocketStreamRuns.Drive` with `BytesAreConserved`, `SendConservation`, `ReceiveConservation`,
`UnbufferedConservation` and `RetriedFlush`; `HandlerPrograms.Execute` with `InvokedExactlyByCalls` and
`EveryObjectIsReleasedOnce`; `TrailerAllocator.Execute` with `Arena.Deallocate`; and
`Binders.TowerArrives` with `BoundTokensArrive`.

Each component has functions that say what its operations do, and its classes are proved to do that.
What the operations promise is stated once more without these functions (`Demanded`, `Lawful`, `Places`,
`Causes` and the like), proved of them, and part of the contracts of the classes and of their runs.

## What is found on the way

Where the code falls short of what is promised, the exact condition is proved and an input is given.

* A refused `prepare` has already shifted the bytes: the positions stay, but the readable bytes
  `old` become `old[g..] + old[|old| - g..]` for a get offset `g` with `0 < g < |old|`
  (`StreamBuffer.StreamBuf.Reserve`, `StreamBufferRuns.ShiftedIsOverlap`). They survive for every
  content exactly when the get area is at the front or no longer than `g`
  (`StreamBufferRuns.RefusalKeepsAll`). In a buffer for three bytes, `1 2 3` put in, one consumed and
  three more asked for leaves `3 3` (`StreamBufferRuns.RefusalSpoils`).
* Moving a socket stream buffer takes the put area over from `pptr`, so pending bytes are forgotten.
  The promise to the writer holds in a run without failed flushes if and only if nothing was pending
  at any move (`SocketStreamRuns.SendConservation`). Put one byte, move, sync: all is reported to be
  well, and the byte is gone (`SocketStreamRuns.MoveForgets`).
* `close()` of a socket stream buffer does not look at the outcome of its flush. When the socket could
  be closed, the pending bytes have been delivered if and only if they are no more than the socket is
  ready to take; so success means delivery on every socket if and only if nothing is pending
  (`SocketStreamBuffer.CloseDelivers`; one byte in `CloseForgets`).
* `connect_to_endpoints` reads SO_ERROR also when the poll ran out of time, and then takes an SO_ERROR
  of zero for success. It reports success without a connection if and only if the search ends at an
  endpoint that is in progress, whose wait has run out of time and whose SO_ERROR is zero
  (`SocketAnswers.SuccessWithoutConnection`; one endpoint in `SlowEndpointCountsAsConnected`).
* The documentation of `expires_at` names `operation_aborted` as the error of an expired stream; the
  code sets `timed_out`. The model follows the code.
* Assigning a socket stream buffer to itself flushes and closes it, empties both areas and makes it
  buffered (`SocketStreamBuf.MoveAssign`).
* A called `any_completion_handler` is documented to be left in an empty state. It keeps its table
  pointer, which alone decides whether `associated_executor` asks the target. A program gets into that
  state exactly when it calls a wrapper that holds a target (`HandlerRuns.StaleExactlyAfterCalls`); the
  shortest one is in `HandlerRuns.CalledWrapperIsNotEmpty`.
* In the trailer allocator, `size + align - 1 + sizeof(ptrdiff_t)` may wrap around. If already the
  first sum does, allocation fails and the raw block is lost; if only the last does, the trailer lies
  behind the raw block; in every other case the block and its trailer are inside
  (`TrailerAllocator.PlacementIsInside`; a request of each kind in `NothingPlaced` and
  `TrailerBehindBlock`). Once all blocks are freed, raw blocks are left over if and only if a request
  of the first kind was given one (`TrailerAllocator.Execute`).
* An `executor_binder` around an `executor_binder` of the same executor type constructs the inner one
  anew with the outer executor, so that the inner executor is lost (`Binders.InnerExecutorIsLost`). A
  tower arrives unchanged if and only if directly nested executor binders of one type carry one
  executor, which all towers made by the bind functions do (`Binders.TowerArrives`,
  `Binders.BoundTokensArrive`).

## Model

| member | source | states |
|---|---|---|
| StreamBuffer.StreamBuf.constructor | dependencies/asio/include/asio/basic_streambuf.hpp:131-141 | A new buffer satisfies the representation invariant, has an empty input sequence, and room for 128 bytes or for as many as there may be. |
| StreamBuffer.StreamBuf.Reserve | dependencies/asio/include/asio/basic_streambuf.hpp:308-346 | Refuses exactly when size() + n > max_size() over the integers; changes nothing when there is room; otherwise keeps the readable bytes through compaction and growth and makes room for n; a refusal leaves all positions and shows the shifted bytes. |
| StreamBuffer.StreamBuf.ShiftGetArea | dependencies/asio/include/asio/basic_streambuf.hpp:321-326 | After the move the front of the vector is the input sequence, and the old window shows the input sequence shifted by the get offset. |
| StreamBuffer.StreamBuf.Prepare | dependencies/asio/include/asio/basic_streambuf.hpp:198-219 | Hands out n writable characters behind the input sequence, or throws if and only if size() + n > max_size(). |
| StreamBuffer.StreamBuf.Commit | dependencies/asio/include/asio/basic_streambuf.hpp:221-238 | Appends the first min(n, output size) bytes of the output sequence to the input sequence and changes nothing else. |
| StreamBuffer.StreamBuf.Consume | dependencies/asio/include/asio/basic_streambuf.hpp:240-254 | Removes min(n, size()) bytes from the front. |
| StreamBuffer.StreamBuf.Underflow | dependencies/asio/include/asio/basic_streambuf.hpp:263-274 | Answers the first readable byte, or eof exactly when there is none, and catches the get area up with the put area. |
| StreamBuffer.StreamBuf.Overflow | dependencies/asio/include/asio/basic_streambuf.hpp:276-306 | Throws exactly when a full put area holds max_size() readable bytes, then with the get area at the front and nothing changed; otherwise appends exactly the character; a full put area is given room for 128 more bytes, or for as many as there may be. |
| StreamBuffer.StreamBuf.SBumpC | dependencies/asio/include/asio/basic_streambuf.hpp:263-274 | Reading one character takes exactly the front of the input sequence although the get area's end may lag behind. |
| StreamBuffer.StreamBuf.XsPutN | dependencies/asio/include/asio/basic_streambuf.hpp:276-306 | Storing a string appends exactly its first min(length, max_size() - size()) bytes and throws exactly when it does not fit. |
| StreamBuffer.StreamBuf.XsGetN | dependencies/asio/include/asio/basic_streambuf.hpp:263-274 | Reading n characters takes exactly the first min(n, size()) bytes. |
| StreamBuffer.StreamBuf.ReadSizeHelper | dependencies/asio/include/asio/basic_streambuf.hpp:352-359 | The preferred read size is the most that the limit and the maximum allow and that is no more than 512 or fits into the vector; it is 0 exactly when the limit is 0 or the buffer is full. |
| StreamBufferRuns.StepConserves | dependencies/asio/include/asio/basic_streambuf.hpp:198-306 | One operation of the bounded queue: what was there and what comes in is what goes out and what remains, in order. |
| StreamBufferRuns.FirstInFirstOut | dependencies/asio/include/asio/basic_streambuf.hpp:192-346 | Over every run of writes, drops, puts and gets up to a refused prepare, the initial bytes followed by all accepted ones are all taken ones followed by what is left. |
| StreamBufferRuns.RunIsLawful | dependencies/asio/include/asio/basic_streambuf.hpp:198-306 | Over every run, with the bytes present being those put in and not yet taken: a write is refused exactly when it would exceed the limit and else accepts exactly the front of its bytes; a put fails exactly when the limit is reached; dropping, getting and peeking give exactly the front; only the last event can be a refusal. |
| StreamBufferRuns.Apply | dependencies/asio/include/asio/basic_streambuf.hpp:192-346 | Each operation of the real buffer answers what it must, given the bytes that were there, and leaves the bytes that the queue leaves; a refused prepare leaves the shifted bytes. |
| StreamBufferRuns.Drive | dependencies/asio/include/asio/basic_streambuf.hpp:192-346 | In every run of the real buffer each event is what its operation and the bytes present before it demand, up to the first refused prepare; what it was seen to take in and to give out accounts for all of its bytes, in order, and a refusal shifts those that are left. |
| StreamBufferRuns.StringRoundTrip | dependencies/asio/include/asio/basic_streambuf.hpp:263-306 | A string put into a fresh buffer and read back is unchanged, cut at the maximum size, and the put throws exactly when it was cut. |
| StreamBufferRuns.ReadRounds | dependencies/asio/include/asio/impl/read_at.hpp:113-133 | In the composed read prepare is never refused, every round's bytes are a front part of what is ready, at least as many as are ready, allowed and free up to 512, and are appended in order; with at least one byte allowed and ready per round the buffer is full after at most max_size() - size() rounds. |
| StreamBufferRuns.RefusalKeepsPeriodic | dependencies/asio/include/asio/basic_streambuf.hpp:321-340 | A refused prepare leaves the bytes as they were exactly when they repeat with the get offset as distance. |
| StreamBufferRuns.RefusalKeepsAll | dependencies/asio/include/asio/basic_streambuf.hpp:321-340 | It does so for every content of a given size exactly when the get offset is 0 or at least that size. |
| StreamBufferRuns.ShiftedIsOverlap | dependencies/asio/include/asio/basic_streambuf.hpp:321-340 | After a refusal the readable bytes are those from the get offset on, followed by as many of the last ones as fill up their old number. |
| StreamBufferRuns.ReadAfterPrepare | dependencies/asio/include/asio/basic_streambuf.hpp:321-340 | In a full buffer of which g bytes have been consumed, preparing n is refused exactly when n > g, and what is read afterwards is then spoilt, else unchanged. |
| StreamBufferRuns.RefusalSpoils | dependencies/asio/include/asio/basic_streambuf.hpp:321-340 | Three bytes a, b, c, one consumed and three asked for: what is read is c, c. |
| SocketAnswers.SendsWithinReach | dependencies/asio/include/asio/basic_socket_streambuf.hpp:449-482 | For every script the send loop ends, having sent exactly what the socket takes before the first round that does not cooperate, and otherwise reports that round's error. |
| SocketAnswers.SendUsesUp | dependencies/asio/include/asio/basic_socket_streambuf.hpp:449-482 | The send loop uses up exactly the rounds it takes to get the bytes out, or those up to the one that stops it. |
| SocketAnswers.ReceiveDecides | dependencies/asio/include/asio/basic_socket_streambuf.hpp:382-423 | The receive loop is decided by the first answer that is not a would-block with a successful wait: bytes without error, end of file, time-out, or the receive or poll error; what is behind that answer is left. |
| SocketAnswers.EndpointAnswer.Error | dependencies/asio/include/asio/basic_socket_streambuf.hpp:567-613 | The error an endpoint leaves behind: timed_out when late, else its open error, else its connect error, else its poll error, else what SO_ERROR says or the error of reading it; none exactly when its connect call or its SO_ERROR read reports success. |
| SocketAnswers.SearchLeavesLastError | dependencies/asio/include/asio/basic_socket_streambuf.hpp:561-615 | The search leaves not_found for an empty list, else the error of the endpoint at which it ends, or of the last one when all fail in a way that lets it go on. |
| SocketAnswers.SuccessWithoutConnection | dependencies/asio/include/asio/basic_socket_streambuf.hpp:563-613 | The search over any list reports success exactly when it ends at a connected endpoint or at one that has run out of time; there is no connection in exactly the second case. |
| SocketAnswers.SlowEndpointCountsAsConnected | dependencies/asio/include/asio/basic_socket_streambuf.hpp:594-611 | An endpoint still in progress when the time has passed, with SO_ERROR 0, is reported as success. |
| SocketStreamBuffer.SocketStreamBuf.constructor | dependencies/asio/include/asio/basic_socket_streambuf.hpp:159-175 | A new stream buffer is valid, with 512 bytes of room to put and nothing to read. |
| SocketStreamBuffer.SocketStreamBuf.InitBuffers | dependencies/asio/include/asio/basic_socket_streambuf.hpp:525-535 | Empties both areas, for a buffered and an unbuffered stream. |
| SocketStreamBuffer.SocketStreamBuf.SendLoop | dependencies/asio/include/asio/basic_socket_streambuf.hpp:449-482 | The loop puts exactly the prefix on the wire that the script admits, in order, and reports whether that was all. |
| SocketStreamBuffer.SocketStreamBuf.Overflow | dependencies/asio/include/asio/basic_socket_streambuf.hpp:427-499 | Sends the pending bytes, or the one character when unbuffered, as far as the socket is ready to take them; succeeds exactly when that is all of them, and the put area then starts again with the character; else the error says what stopped it and the put area is unchanged. |
| SocketStreamBuffer.SocketStreamBuf.SPutC | dependencies/asio/include/asio/basic_socket_streambuf.hpp:427-499 | A character goes into the put area without any sending while there is room, and by a flush otherwise; without a buffer an accepted character is on the wire at once. |
| SocketStreamBuffer.SocketStreamBuf.SetBuf | dependencies/asio/include/asio/basic_socket_streambuf.hpp:506-517 | Grants exactly the request for no buffer made while nothing is pending; then there is no put buffer and no room, and nothing else has changed. |
| SocketStreamBuffer.SocketStreamBuf.Underflow | dependencies/asio/include/asio/basic_socket_streambuf.hpp:373-425 | With nothing unread, the first answer that does not merely wait decides: received bytes behind the put-back region and no error, end of file, time-out, or the receive or poll error; answers the first received byte. With unread bytes it answers eof and does nothing, to the error neither. |
| SocketStreamBuffer.SocketStreamBuf.SBumpC | dependencies/asio/include/asio/basic_socket_streambuf.hpp:373-425 | Reading one character takes the first unread byte, receiving first when there is none. |
| SocketStreamBuffer.SocketStreamBuf.Close | dependencies/asio/include/asio/basic_socket_streambuf.hpp:258-265 | Flushes as far as the socket is ready, closes, leaves the error of closing, and empties both areas if closing succeeded, whatever became of the flush. |
| SocketStreamBuffer.CloseDelivers | dependencies/asio/include/asio/basic_socket_streambuf.hpp:258-265 | Closing succeeds when the socket can be closed; then the pending bytes are delivered exactly when the socket is ready to take that many, and for every socket exactly when there are none. |
| SocketStreamBuffer.CloseForgets | dependencies/asio/include/asio/basic_socket_streambuf.hpp:258-265 | One pending byte and a socket that takes nothing: close reports success, nothing is sent, nothing is pending. |
| SocketStreamBuffer.SocketStreamBuf.FlushOnDestruction | dependencies/asio/include/asio/basic_socket_streambuf.hpp:212-217 | Destruction flushes exactly when something is pending. |
| SocketStreamBuffer.SocketStreamBuf.ConnectToEndpoints | dependencies/asio/include/asio/basic_socket_streambuf.hpp:555-616 | Touches endpoints in order and none behind the first decisive one; leaves not_found for an empty list and else the error of the last endpoint looked at, case by case; ends without error and without a connection exactly when that one has run out of time; an earlier error is final. |
| SocketStreamBuffer.SocketStreamBuf.Connect | dependencies/asio/include/asio/basic_socket_streambuf.hpp:226-232 | Starts from empty areas and no error, leaves the error of the endpoint, case by case, and succeeds exactly when the endpoint does; it does so without a connection exactly when the endpoint has run out of time. |
| SocketStreamBuffer.SocketStreamBuf.ConnectByQuery | dependencies/asio/include/asio/basic_socket_streambuf.hpp:243-251 | Succeeds exactly when the query resolves and the first decisive endpoint succeeds. |
| SocketStreamBuffer.SocketStreamBuf.Move | dependencies/asio/include/asio/basic_socket_streambuf.hpp:178-191 | Both sides are valid afterwards; socket, error, unread bytes, room and buffer size move across, pending bytes do not; the other side is as new and without a connection. |
| SocketStreamBuffer.SocketStreamBuf.MoveAssign | dependencies/asio/include/asio/basic_socket_streambuf.hpp:194-210 | The same for assignment, after flushing and closing the own socket; in all combinations of buffered and unbuffered sides. Assigned to itself, it keeps its closed socket and is otherwise as new. |
| SocketStreamRuns.FlushConserves | dependencies/asio/include/asio/basic_socket_streambuf.hpp:427-499 | A flush that succeeds sends exactly the pending bytes, one that fails a proper prefix of the output while nothing pending is forgotten. |
| SocketStreamRuns.PeekConserves | dependencies/asio/include/asio/basic_socket_streambuf.hpp:373-425 | What is received is appended to the unread bytes, and the byte shown is the first of them. |
| SocketStreamRuns.BytesAreConserved | dependencies/asio/include/asio/basic_socket_streambuf.hpp:178-535 | Over every run of puts, syncs, reads, unbuffering, closes and moves, failed ones included, four ledgers balance: wire, put area, reception log, get area. |
| SocketStreamRuns.PerformIsLawful | dependencies/asio/include/asio/basic_socket_streambuf.hpp:178-535 | Each operation keeps its promise: what is sent, received, shown, kept, emptied, answered and left as the error. |
| SocketStreamRuns.SendConservation | dependencies/asio/include/asio/basic_socket_streambuf.hpp:178-517 | In a run without failed flushes the wire followed by the put area is exactly what the writer handed over if and only if before every move nothing was pending. |
| SocketStreamRuns.MoveForgets | dependencies/asio/include/asio/basic_socket_streambuf.hpp:178-191 | Put a byte, move, sync: the put and the sync report success, no flush fails, and the byte is neither sent nor pending. |
| SocketStreamRuns.ReceiveConservation | dependencies/asio/include/asio/basic_socket_streambuf.hpp:258-425 | Over every run, whatever fails, the reader is given exactly what the socket delivered, in order, and the rest is unread, if and only if before every successful close nothing was unread. |
| SocketStreamRuns.OnlyMovesAndClosesLose | dependencies/asio/include/asio/basic_socket_streambuf.hpp:427-517 | A run with neither moves nor closes forgets no byte. |
| SocketStreamRuns.PutsAreBuffered | dependencies/asio/include/asio/basic_socket_streambuf.hpp:427-499 | Puts send nothing as long as there is room for them, and all of them are pending. |
| SocketStreamRuns.UnbufferedSendsAtOnce | dependencies/asio/include/asio/basic_socket_streambuf.hpp:435-517 | Once a request for no buffer is made with nothing pending, it is granted, and from then on, over every run, whatever an operation accepts it has sent. |
| SocketStreamRuns.UnbufferedConservation | dependencies/asio/include/asio/basic_socket_streambuf.hpp:435-517 | Without a buffer the wire is exactly what the writer handed over, in order and without repetition, over every run, failed flushes, closes and moves included. |
| SocketStreamRuns.RetriedFlush | dependencies/asio/include/asio/basic_socket_streambuf.hpp:435-504 | After k failed flushes and one that succeeds the wire has grown by k proper prefixes of the pending bytes and then all of them. |
| SocketStreamRuns.Apply | dependencies/asio/include/asio/basic_socket_streambuf.hpp:178-535 | Each operation of the real stream buffer leaves the value and gives the answer, flag or character, that it promises. |
| SocketStreamRuns.Drive | dependencies/asio/include/asio/basic_socket_streambuf.hpp:178-535 | Every run of the real stream buffer, moves included, is a run of its value; each operation keeps its promise, with the answers that were observed; what the ledgers say was taken and given is what these answers say; the ledgers balance and all conservation laws hold. |
| CompletionHandlers.Heap.Create | dependencies/asio/include/asio/any_completion_handler.hpp:90-106 | Nothing has happened to the new object before, it is alive and of the right type; or, when the handler's move throws, its storage was taken and given back and it is not alive. Nothing happens to any other object. |
| CompletionHandlers.Heap.Call | dependencies/asio/include/asio/any_completion_handler.hpp:178-191 | All that ever happened to the object is that it was allocated, destroyed, its storage released and then, unless moving the handler out threw, the handler invoked. Nothing happens to any other object. |
| CompletionHandlers.AnyCompletionHandler.Move | dependencies/asio/include/asio/any_completion_handler.hpp:671-677 | The new wrapper has the target, the other none. |
| CompletionHandlers.AnyCompletionHandler.Swap | dependencies/asio/include/asio/any_completion_handler.hpp:718-722 | Exchanges both pointers; swapping with itself changes nothing. |
| CompletionHandlers.AnyCompletionHandler.MoveAssign | dependencies/asio/include/asio/any_completion_handler.hpp:683-689 | Releases the old target and takes the other's; a self-move keeps the target and releases nothing. |
| CompletionHandlers.AnyCompletionHandler.AssignNull | dependencies/asio/include/asio/any_completion_handler.hpp:692-696 | Releases the target and leaves the empty state. |
| CompletionHandlers.AnyCompletionHandler.Destruct | dependencies/asio/include/asio/any_completion_handler.hpp:699-703 | Releases the target if there is one. |
| CompletionHandlers.AnyCompletionHandler.Call | dependencies/asio/include/asio/any_completion_handler.hpp:745-756 | Calls the target and leaves none, or throws bad_function_call without effect exactly when there is none; the table pointer stays. |
| HandlerRuns.StepKeepsOwnership | dependencies/asio/include/asio/any_completion_handler.hpp:639-756 | Every operation keeps that each wrapper dispatches to a living object of the right type, no object has two owners and every living object has one. |
| HandlerRuns.StepTells | dependencies/asio/include/asio/any_completion_handler.hpp:90-115 | Every operation keeps that each object's story is that of a living object or one of the three ways to end. |
| HandlerRuns.StepHasEffects | dependencies/asio/include/asio/any_completion_handler.hpp:639-756 | What each operation leaves in each wrapper, and that an event is reported once more exactly if the operation is its cause. |
| HandlerRuns.RunsKeepOwnership | dependencies/asio/include/asio/any_completion_handler.hpp:639-756 | Both hold after every program. |
| HandlerRuns.EveryObjectIsReleasedOnce | dependencies/asio/include/asio/any_completion_handler.hpp:108-191 | For every program and object: released at most once, and exactly when allocated and not owned; an invocation is the last event, after the release. |
| HandlerRuns.EveryEventHasItsCause | dependencies/asio/include/asio/any_completion_handler.hpp:90-191 | For every program: an allocation, destruction, release or invocation happens at most once per object, and exactly if an operation of the program causes it. |
| HandlerRuns.InvokedExactlyByCalls | dependencies/asio/include/asio/any_completion_handler.hpp:178-191 | For every program a handler is invoked exactly if, at some point, a wrapper that owns it then is called and it can be moved out. |
| HandlerRuns.StaleExactlyAfterCalls | dependencies/asio/include/asio/any_completion_handler.hpp:745-799 | A program ever has a wrapper with a table and no target exactly when it calls a wrapper that holds one. |
| HandlerRuns.CalledWrapperIsNotEmpty | dependencies/asio/include/asio/any_completion_handler.hpp:745-799 | A wrapper that was constructed and called differs from an empty one and would have its missing target asked for its executor. |
| HandlerPrograms.Program.Perform | dependencies/asio/include/asio/any_completion_handler.hpp:639-756 | Each operation on real wrappers leaves in each of them what it promises, adds exactly the events that it causes, keeps ownership and stories, and a call answers how it ended. |
| HandlerPrograms.Execute | dependencies/asio/include/asio/any_completion_handler.hpp:639-756 | In every program of real wrappers a handler is invoked exactly by a call of a wrapper that owns it, every other event has its cause too, every call is answered accordingly, and every dispatch finds a living object of the table's type. |
| TrailerAllocator.TrailerRoundTrip | dependencies/asio/include/asio/any_completion_handler.hpp:148-170 | An offset that fits is read back as it was written. |
| TrailerAllocator.AlignFindsFirst | dependencies/asio/include/asio/detail/memory.hpp:54-58 | Yields the first multiple of the alignment in the space that has the size behind it inside the space, and fails exactly when there is no such multiple. |
| TrailerAllocator.PlacementIsInside | dependencies/asio/include/asio/any_completion_handler.hpp:140-151 | For every size and alignment, placement fails exactly when the first sum wraps, and the placed block and its trailer are inside the raw block exactly when no sum wraps. |
| TrailerAllocator.TrailerBehindBlock | dependencies/asio/include/asio/any_completion_handler.hpp:140-151 | A request for 2^64 - 8 bytes gets a raw block of no bytes, is placed, and its trailer lies outside. |
| TrailerAllocator.NothingPlaced | dependencies/asio/include/asio/any_completion_handler.hpp:140-155 | A request for 2^64 - 1 bytes at even addresses gets a raw block of 8 bytes and no placement. |
| TrailerAllocator.CutKeepsSound | dependencies/asio/include/asio/any_completion_handler.hpp:140-150 | Cutting a new block out of its raw block leaves every other live block, its contents and its trailer as they were. |
| TrailerAllocator.WriteKeepsSound | dependencies/asio/include/asio/any_completion_handler.hpp:131-176 | A user's write inside a live block changes that byte only and keeps every trailer intact. |
| TrailerAllocator.TrailerLeadsBack | dependencies/asio/include/asio/any_completion_handler.hpp:169-171 | In every sound state the trailer of a live block leads to the raw base that was allocated. |
| TrailerAllocator.RawBlockIsHeld | dependencies/asio/include/asio/any_completion_handler.hpp:173-174 | The length computed at deallocation is the length that was allocated. |
| TrailerAllocator.FreeKeepsSound | dependencies/asio/include/asio/any_completion_handler.hpp:158-176 | Giving a block back leaves every other live block as it was. |
| TrailerAllocator.LostByLeaks | dependencies/asio/include/asio/any_completion_handler.hpp:140-155 | A raw block gets lost by an overflowing request that was given one and by nothing else, and no operation brings a lost one back. |
| TrailerAllocator.StepIsLawful | dependencies/asio/include/asio/any_completion_handler.hpp:131-176 | What each operation leaves in the books: a fitting request gets a new block at the first aligned address, an overflowing one loses its raw block, a free gives back exactly its own. |
| TrailerAllocator.Arena.Allocate | dependencies/asio/include/asio/any_completion_handler.hpp:131-156 | For every request: a new block at the first multiple of the alignment in its raw block, no other block disturbed; or bad_alloc, exactly when the raw allocator throws or the first sum wraps, the raw block being lost; or, exactly when only the last sum wraps, the point where the trailer would be written outside. |
| TrailerAllocator.Arena.Deallocate | dependencies/asio/include/asio/any_completion_handler.hpp:158-176 | Gives exactly the raw base and raw length back that were allocated for the block; the null pointer does nothing. |
| TrailerAllocator.Execute | dependencies/asio/include/asio/any_completion_handler.hpp:131-176 | Over every interleaving of allocations, user writes and frees each operation keeps its promise; a byte that was stored is read back until its place is written to again or its block is freed; when all blocks are freed no raw block is left if and only if no overflowing request was given one. |
| Binders.LookupFindsOutermost | dependencies/asio/include/asio/associated_executor.hpp:46-91 | Each association comes from the outermost binder of its kind, else from the leaf, else it is the candidate, through binders and references alike. |
| Binders.LookupThrough | dependencies/asio/include/asio/bind_allocator.hpp:492-522 | Binding sets one association and leaves the others; a reference leaves all. |
| Binders.SameLookupsUnderLayers | dependencies/asio/include/asio/associated_executor.hpp:46-91 | Tokens with the same lookups have the same lookups under any references and binders. |
| Binders.LayersOfDifferentKindsCommute | dependencies/asio/include/asio/bind_cancellation_slot.hpp:502-536 | Swapping adjacent binders of different kinds, or a binder and a reference, changes no lookup, around any token and under any further layers. |
| Binders.LayersOfOneKindCommute | dependencies/asio/include/asio/bind_executor.hpp:544-574 | Swapping two adjacent binders of one kind keeps the lookups exactly when they bind the same. |
| Binders.ReboundTower | dependencies/asio/include/asio/bind_executor.hpp:155-183 | Rebinding makes directly nested executor binders of one type carry one executor, and changes nothing exactly when they did. |
| Binders.InnerExecutorIsLost | dependencies/asio/include/asio/bind_executor.hpp:155-183 | Binding an executor around a binder for the same executor type is binding it to the inner target too; the inner executor is lost exactly then. |
| Binders.InitiateIsInvokeRebuilt | dependencies/asio/include/asio/async_result.hpp:604-622 | Taking a tower apart into initiation wrappers is invoking the initiation with the tower rebuilt, whatever wrappers are there already. |
| Binders.RebuiltIsSame | dependencies/asio/include/asio/bind_executor.hpp:493-537 | The rebuilt tower is the same tower exactly when directly nested executor binders of one type carry one executor. |
| Binders.RebuiltKeepsAssociations | dependencies/asio/include/asio/bind_executor.hpp:544-574 | The rebuilt tower has the same associations and the same leaf. |
| Binders.TowerArrives | dependencies/asio/include/asio/bind_allocator.hpp:439-483 | For every token the operation and arguments arrive unchanged with a handler of the same associations and leaf, which is the token itself exactly when its nested executor binders are uniform. |
| Binders.BoundTokensArrive | dependencies/asio/include/asio/bind_cancellation_slot.hpp:448-493 | Every token made by any sequence of bind functions and references arrives as it is. |

## Left out

- StreamBuffer.StreamBuf.Commit: does not model the narrowing of the count to `int` before `pbump`; offsets are mathematical, as the documented clamping intends.
- StreamBuffer.StreamBuf.Consume: does not model the narrowing to `int` before `gbump`, nor a sum of a pointer and a count behind the end of the address space.
- StreamBuffer.StreamBuf.Reserve: does not model a failing `vector::resize`.
- StreamBufferRuns.Drive: does not go on behind a refused prepare, where the bytes are no longer those of a queue; `Reserve` says what they are.
- SocketAnswers.SendsWithinReach: a script is finite and then answers that the expiry time has passed; a socket that would block for ever is not represented.
- SocketStreamBuffer.SocketStreamBuf.Overflow: the switch of the native socket to non-blocking mode is not modelled; its error is overwritten by the call that follows.
- CompletionHandlers.Heap.Create: objects have identities that are never used again, where the real allocator may reuse an address; every access is shown to reach a living object, so reuse cannot be observed through a wrapper.
- TrailerAllocator.Arena.Allocate: stops where the trailer would be written behind the raw block, since what follows is undefined; programs do not go on from there. The underlying allocator is taken to hand out blocks that overlap no other.
- Binders.BoundTokensArrive: overload resolution is taken as for handlers that cannot be constructed from a binder, and leaf types are taken not to specialise `uses_executor`.
- Put-back (`sungetc`, `sputbackc`) and seeking on the stream buffers.
- Character traits other than plain bytes.
- Real sockets, clocks, polling and name resolution; their answers are parameters.
- The non-owning copies of both pointers in `any_completion_handler_allocator`, and exceptions thrown by handlers while they are invoked or destroyed.
- Type-level dispatch by C++ concepts, constraints and `associator` specialisation; only its result is modelled.
- `basic_streambuf_ref`, `basic_socket_iostream`, the other `basic_*` headers: forwarding.
- libnetwrk's own headers: containers, serializer, messages, connections and services.
