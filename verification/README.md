# Verification of the quitsies core

quitsies is a memcached-like server over RocksDB; it bundles the spdlog logger and the
fmt formatter. This project models the parts of it with the most state and arithmetic
and proves what they promise. Nothing here is executed.

**The lock-free queue and the asynchronous logger** (`Mpmc*`, `Async*`, `MachineWords`).
`MpmcProtocol` splits enqueue, dequeue and approx_size into one step per atomic access
(load the position, load the cell's sequence number, branch and compare-and-swap, move
the data, store the sequence number), with spurious compare-and-swap failures, any
number of threads and any queue size from 2 on. Tickets are unbounded; every ticket
carries a history of who claimed it, with which item, and who took it. `MpmcInvariant`
and `MpmcPreservation` give an inductive invariant, `MpmcRuns` its consequences for
every interleaving, `MpmcSolo` what a call does that runs alone. `MpmcWrapped` is the
same machine on 64-bit words, with counters that wrap, masks and signed differences, and
refines the one on tickets; `MpmcQueue` is the class as compiled, `MachineWords`
supplies the arithmetic. `MpmcSingleCell` shows what goes wrong with one cell.
`AsyncLog` puts producers, the worker, the sinks, both overflow policies, flush and the
destructor on top of the queue protocol, `AsyncDelivery` states what every run delivers,
`AsyncFlushes` what flushes the sinks and what ends the worker, and `AsyncWrapped`
carries it over to the queue on words.

**The request parser, its store and the connection** (`Request*`, `CommandWords`,
`Chunking`, `WireFormat`, `ClientRequests`, `Connection*`, `ClientSessions`, `AddRace`).
`Request` is the byte-at-a-time parser as a class, proved against the functions of
`RequestSpec`; `RequestErrors` and `CommandWords` say which requests are refused and
how, and what ping and quit do; `Chunking` shows exactly when the cut of the bytes into
reads matters, `WireFormat` and `ClientRequests` that a client's requests and the
server's answers survive the wire however they are cut, `ConnectionRuns` that a
connection answers in order and that a reset leaks nothing, `ClientSessions` what a
whole session gets back, `AddRace` what concurrent ADD and GET requests see.

**Integer formatting, the growing buffer and format strings** (`Numerals`,
`CountDigits`, `DigitTable`, `DecimalWriter`, `IntegerText`, `IntegerPrecision`,
`FieldLayout`, `IntegerWriter`, `BasicWriter`, `MemoryBuffer`, `FormatSpec`,
`SpecParser`, `FormatText`, `FormatErrors`, `Formatter`). `Numerals`, `IntegerText` and
`IntegerPrecision` say what a number's text is and how to read it back, `FieldLayout`
where everything stands in a field. The writers work in place on arrays, as the
program's do, and are proved against them. The program writes the two-digit loop twice
(format.h:1067 and 3789) and the mask-and-shift loop three times (format.h:3235, 3259
and 3279); here each is one method. `FormatText` describes a whole format string;
`Formatter` is the object that walks it.

**The rotating file sink** (`RotationSpec`, `RotatingSink`) over a file system that is a
map from names to contents.

## Findings

- A left-aligned integer with a precision can lose its digits. `prepare_int_buffer` takes
  the place for them before it appends the fill; if the fill makes the buffer grow, the
  digits go into the storage left behind, and the field shows what the new storage holds
  there. `BasicWriter.FieldIsWrittenIff` gives the exact condition and
  `BasicWriter.LostIff` puts it in terms of size and capacity; `BasicWriter.SevenIsLost`
  is "%-40.12d" of 7 behind 480 characters. `fmt::printf` can reach it, `fmt::format`
  cannot.
- `parse_nonnegative_int` is exact for every numeral below 4772185884 and misreads that
  one (`FormatSpec.ExactBelowFirstMisread`): it notices wrap-around only when a step makes
  the value smaller. "5000000000" is accepted as 705032704
  (`FormatSpec.FiveBillionIsAccepted`). `FormatSpec.ParsedIntIsExactIff` covers the
  numerals beyond.
- An empty specification whose closing brace is followed by an alignment character, as
  in `{:}<`, takes that character as its alignment
  (`SpecParser.LookAheadPastTheBrace`). `SpecParser.ParserUndoesPrinter`
  shows that this is the only specification the parser does not read back, and
  `FormatText.PrintedPiecesAreFormatted` that the output is right nevertheless.
- Once an integer's precision takes effect, numeric alignment is right alignment, so zero
  fill stands in front of the sign: "%08.3d" of -5 is "0000-005"
  (`IntegerPrecision.ZerosBeforeTheSign`). `IntegerPrecision.ZeroPaddedWithPrecision` says
  exactly when a negative number still reads back.
- Under the discarding policy the destructor's terminate message may be dropped like any
  other; the worker then never leaves its loop and the destructor waits for ever
  (`AsyncDelivery.DroppedTerminateHangs`).
- `approx_size` is 0 while the enqueue counter has wrapped and the dequeue counter has
  not, even if items are queued (`MpmcWrapped.ApproxSizeOnWords`,
  `MpmcWrapped.SizeCallOnWords` in concurrent runs, and `MpmcWrapped.TwoItemsLookLikeNone`
  for a state). With 64-bit counters that takes 2^64 messages.
- A storage request is finished by the carriage return behind its data (by the line feed
  before it, if there is no data). If what is left of the line end comes in a read of its
  own, the connection takes it for a new request and sends a CLIENT_ERROR
  (`ClientSessions.LineFeedInItsOwnRead`). `ClientSessions.SessionIsExactIff` gives the
  exact condition. Bytes that follow the finishing one in the same read are lost, another
  request included (`ClientSessions.BytesInTheSameReadAreLost`, in every run). Within one
  request object the cut shows if and only if a byte other than white space comes late
  (`Chunking.CutShowsIff`).
- A word between the length and the end of the line of a storage request, unless it is
  noreply, becomes the beginning of the stored value, and the line feed behind it the first
  byte of the data (`CommandWords.StrayWordIsStored`); a single space there shifts the data
  by one. A negative length is taken modulo 2^64 (`RequestErrors.StorageIsRefusedIff`).
- The request constructor leaves the command uninitialised. `ConnectionRuns` quantifies
  over its value and shows that no answer depends on it.

## Model

| member | source | states |
|---|---|---|
| `MachineWords.MaskIsMod` | src/spdlog/details/mpmc_bounded_q.h:89 | for every power of two N and every position, `pos & (N - 1)` is `pos % N` |
| `MachineWords.SizeTestAcceptsPowersOfTwo` | src/spdlog/details/mpmc_bounded_q.h:67-69 | the constructor's bit test accepts exactly the powers of two from 2 on |
| `MachineWords.WrappedDifferenceIsExact` | src/spdlog/details/mpmc_bounded_q.h:91 | the signed difference of two wrapped counters is their true difference if and only if they are less than half a word apart |
| `MpmcInvariant.EnqueueSequenceMeaning` | src/spdlog/details/mpmc_bounded_q.h:89-104 | in a good state the three outcomes of `dif` mean: cell free for this ticket, ticket one lap earlier not released, another enqueuer got there first |
| `MpmcInvariant.DequeueSequenceMeaning` | src/spdlog/details/mpmc_bounded_q.h:117-129 | the same for dequeue: ticket published, not published, already taken |
| `MpmcPreservation.StepKeepsInv` | src/spdlog/details/mpmc_bounded_q.h:83-144 | every enabled step of every thread keeps the invariant |
| `MpmcRuns.ReachableStateIsSound` | src/spdlog/details/mpmc_bounded_q.h:62-134 | in every reachable state dequeue_pos <= enqueue_pos <= dequeue_pos + N and each cell's sequence number tells its phase: free, published, or in transit |
| `MpmcRuns.CellsAreExclusive` | src/spdlog/details/mpmc_bounded_q.h:94-107 | no two threads are ever between compare-and-swap and sequence store on the same cell |
| `MpmcRuns.ThreadsNeverBlock` | src/spdlog/details/mpmc_bounded_q.h:83-144 | a thread inside a call always has an enabled step: the protocol has no waiting |
| `MpmcRuns.TicketsAreClaimedOnce` | src/spdlog/details/mpmc_bounded_q.h:92-96 | in every interleaving each ticket is claimed by at most one enqueuer and at most one dequeuer |
| `MpmcRuns.ArgumentInHand` | src/spdlog/details/mpmc_bounded_q.h:83-107 | until it is moved into a cell, what an enqueue has in hand is the argument of the call the thread is in, retries and spurious failures included |
| `MpmcRuns.ClaimOfTicket` | src/spdlog/details/mpmc_bounded_q.h:92-109 | every ticket was claimed by a step of the recorded producer, in an enqueue call whose argument was the recorded item |
| `MpmcRuns.TakeOfTicket` | src/spdlog/details/mpmc_bounded_q.h:121-134 | every taken ticket was claimed by a step of the recorded consumer |
| `MpmcRuns.DequeueReturnsItemOfItsTicket` | src/spdlog/details/mpmc_bounded_q.h:111-134 | a dequeue that returns true claimed its ticket itself, in the call that now returns; its claim is the only one of that ticket, and it returns exactly the argument of the one enqueue call that claimed it, and did so first: FIFO by ticket, no loss |
| `MpmcRuns.TicketsAreReturnedOnce` | src/spdlog/details/mpmc_bounded_q.h:111-134 | no two dequeue calls ever return true under the same ticket: no duplication |
| `MpmcRuns.QuiescentQueueHoldsTheRest` | src/spdlog/details/mpmc_bounded_q.h:83-134 | with no call in progress, every ticket below the dequeue counter was delivered and every other one is in its cell |
| `MpmcRuns.EnqueueFalseMeansLapNotReleased` | src/spdlog/details/mpmc_bounded_q.h:90-100 | enqueue returns false only if, at the very load of the sequence number it decided on in this call, ticket pos - N was claimed and not yet released; the argument it was called with is still in hand |
| `MpmcRuns.DequeueFalseMeansNotPublished` | src/spdlog/details/mpmc_bounded_q.h:118-127 | dequeue returns false only if, at the very load of the sequence number it decided on in this call, ticket pos was next to be taken and not published |
| `MpmcRuns.ApproxSizeZeroMeansDrained` | src/spdlog/details/mpmc_bounded_q.h:136-144 | a result of 0 means that at this call's read of the dequeue counter every ticket then claimed had been taken |
| `MpmcRuns.ApproxSizeIsBracketed` | src/spdlog/details/mpmc_bounded_q.h:136-144 | approx_size returns at least the number outstanding at its first read, at most that at its second plus those taken in between, never more than N, and exactly the difference of what it read if that is at most N |
| `MpmcRuns.RetryAdvances` | src/spdlog/details/mpmc_bounded_q.h:92-104 | reading the position again strictly raises it |
| `MpmcRuns.RetriesNeverExceedOthersClaims` | src/spdlog/details/mpmc_bounded_q.h:87-105 | lock-freedom: one call reads its position again at most as often as other threads claimed tickets during it |
| `MpmcSolo.EnqueueAloneAppends` | src/spdlog/details/mpmc_bounded_q.h:83-109 | run without interference, enqueue returns false exactly if N items are pending, and otherwise appends its argument |
| `MpmcSolo.DequeueAloneTakesOldest` | src/spdlog/details/mpmc_bounded_q.h:111-134 | run without interference, dequeue returns false exactly if nothing is pending, and otherwise removes and returns the oldest item |
| `MpmcQueue.MpmcBoundedQueue.constructor` | src/spdlog/details/mpmc_bounded_q.h:62-75 | an empty queue, every sequence number the cell's index |
| `MpmcQueue.Create` | src/spdlog/details/mpmc_bounded_q.h:62-75 | construction succeeds exactly for powers of two from 2 on, and otherwise fails with the program's message |
| `MpmcQueue.MpmcBoundedQueue.Enqueue` | src/spdlog/details/mpmc_bounded_q.h:83-109 | with wrapped counters and any number of spurious failures: true exactly if there is room, and then the contents grow by the item at the end |
| `MpmcQueue.MpmcBoundedQueue.Dequeue` | src/spdlog/details/mpmc_bounded_q.h:111-134 | an item exactly if there is one, and it is the oldest |
| `MpmcQueue.MpmcBoundedQueue.ApproxSize` | src/spdlog/details/mpmc_bounded_q.h:136-144 | the number of items, but 0 while only the enqueue counter has wrapped |
| `MpmcQueue.CellOfWord` | src/spdlog/details/mpmc_bounded_q.h:89 | the masked wrapped counter is the cell of the unbounded ticket |
| `MpmcWrapped.StepAgrees` | src/spdlog/details/mpmc_bounded_q.h:83-144 | a step of any thread on 64-bit words (wrapped counters, masked cells, signed differences) is the step on unbounded tickets, word for word |
| `MpmcWrapped.WordRunsRefineTicketRuns` | src/spdlog/details/mpmc_bounded_q.h:83-144 | every concurrent run on words in which no position lags its counter by 2^63 - 2N is a run of the ticket protocol with the same results and items |
| `MpmcWrapped.ApproxSizeOnWords` | src/spdlog/details/mpmc_bounded_q.h:136-144 | of any two counter values less than 2^64 apart: what approx_size gives on tickets, unless the enqueue counter has wrapped past the dequeue counter, and then 0 |
| `MpmcWrapped.SizeCallOnWords` | src/spdlog/details/mpmc_bounded_q.h:136-144 | the same for a call in a concurrent run: the two reads are of this call, whatever other threads did between them |
| `MpmcWrapped.TwoItemsLookLikeNone` | src/spdlog/details/mpmc_bounded_q.h:140-141 | a quiescent state that satisfies the invariant and holds two items in their cells, and in which an approx_size call on words returns 0 |
| `MpmcSingleCell.EnqueueOverwrites` | src/spdlog/details/mpmc_bounded_q.h:83-109 | with one cell, enqueue returns true whatever the cell holds and overwrites it |
| `MpmcSingleCell.SecondItemReplacesFirst` | src/spdlog/details/mpmc_bounded_q.h:68-69 | with one cell two enqueues both return true, two tickets are outstanding and the first item is gone: why the constructor asks for two |
| `MpmcSingleCell.DequeueSpins` | src/spdlog/details/mpmc_bounded_q.h:115-129 | a dequeuer then loads the sequence number and its position in turn; after no number of steps has it returned |
| `MpmcSingleCell.DequeueNeverReturns` | src/spdlog/details/mpmc_bounded_q.h:111-134 | so it is for a dequeue called once two items have gone in |
| `AsyncPreservation.SysStepKeepsInv` | src/spdlog/details/async_log_helper.h:215-340 | every step of a caller, the worker, a sink or the queue keeps the logger's invariant |
| `AsyncDelivery.SinksSeeAPrefix` | src/spdlog/details/async_log_helper.h:285-327 | at every moment what a sink has logged is a prefix, in ticket order, of the queued messages its level admits |
| `AsyncDelivery.ExitMeansEverythingDelivered` | src/spdlog/details/async_log_helper.h:215-340 | when the worker leaves its loop, every message (under block_retry every one given to log) was delivered exactly once, unchanged, in ticket order, to every sink that admits its level, each caller's in its order, and each sink was flushed last |
| `AsyncDelivery.ExitNeedsTerminate` | src/spdlog/details/async_log_helper.h:208-240 | the worker leaves its loop only if the terminate message got a ticket, and it is the last one |
| `AsyncDelivery.DroppedTerminateHangs` | src/spdlog/details/async_log_helper.h:208-240 | if the discarding policy drops the terminate message, the worker never leaves its loop and the destructor never comes back from its join, in every continuation |
| `AsyncDelivery.FlushReturnsAfterDelivery` | src/spdlog/details/async_log_helper.h:250-255 | whenever flush(true) returns, every message with a smaller ticket than its flush message has been handed to every sink that admits it; under block_retry the flush message always has a ticket (that it comes back no other way, and that its message flushes the sinks, is `AsyncFlushes`) |
| `AsyncFlushes.FlushIsServed` | src/spdlog/details/async_log_helper.h:264-340 | a flush or terminate message that has been taken when the worker finds the queue empty: from when the worker is next out of its flushing, every sink has been flushed behind all that it was to get before that message |
| `AsyncFlushes.IntervalFlushes` | src/spdlog/details/async_log_helper.h:326-340 | when the interval has elapsed and the queue is empty, every sink is flushed behind all messages taken, without being asked |
| `AsyncFlushes.NothingFlushesUnasked` | src/spdlog/details/async_log_helper.h:264-340 | as long as no message taken is a flush or terminate message and the interval has not elapsed, no sink is flushed |
| `AsyncFlushes.OneEventAtATime` | src/spdlog/details/async_log_helper.h:285-340 | a step gives at most one sink one event more, a message while delivering or a flush while flushing |
| `AsyncFlushes.FlushTrueWaits` | src/spdlog/details/async_log_helper.h:248-256 | flush(true) comes back only by finding the queue drained |
| `AsyncFlushes.TerminateIsServed` | src/spdlog/details/async_log_helper.h:264-340 | a terminate message that has been taken when the worker finds the queue empty: the worker then only flushes and leaves its loop, and takes nothing else |
| `AsyncFlushes.PolicyDecides` | src/spdlog/details/async_log_helper.h:232-246 | only under block_retry is a push tried again, only under the discarding policy is a message dropped, and then it is not in the queue |
| `AsyncFlushes.DeliveredIff` | src/spdlog/details/async_log_helper.h:300-325 | what a sink is to get is exactly the log messages queued at or above its level, all five fields unchanged |
| `AsyncDelivery.RetryPushesTheSameMessage` | src/spdlog/details/async_log_helper.h:234-247 | after a failed push the retry loop pushes the same message |
| `AsyncDelivery.MessageSurvivesQueue` | src/spdlog/details/async_log_helper.h:85-107 | turning a message into a queue entry and back changes no field |
| `AsyncWrapped.SysStepAgrees` | src/spdlog/details/async_log_helper.h:215-340 | a step of the logging system on a queue of 64-bit words is the step on unbounded tickets |
| `AsyncWrapped.WordSysRunsRefine` | src/spdlog/details/async_log_helper.h:215-340 | every run of it in which no wrap shows is a run on tickets, with the same callers, worker, sinks and messages |
| `AsyncWrapped.WordExitMeansDelivered` | src/spdlog/details/async_log_helper.h:215-340 | so on words, too, the worker leaves its loop only when everything kept was delivered in one order to every sink that admits it, and each sink was flushed last |
| `Request.Request.constructor` | src/quitsies/tcp/request.hpp:87-102 | a fresh request, whatever the uninitialised command is |
| `Request.Request.Reset` | src/quitsies/tcp/request.hpp:113-123 | the request is fresh again, all fields |
| `Request.Request.PrepareResponse` | src/quitsies/tcp/request.cpp:93-194 | response, status and store are those of the specification; the store is left unlocked |
| `Request.Request.Add` | src/quitsies/tcp/request.cpp:132-158 | STORED and a new entry exactly if the key was missing; the lock is released |
| `Request.Request.Retrieve` | src/quitsies/tcp/request.cpp:171-182 | the frames of the hits in request order, then END |
| `Request.Request.ConsumeByte` | src/quitsies/tcp/request.cpp:202-295 | one byte changes the request and the store as the specification's machine does, every state and error included; what that machine does is said by `RequestErrors`, `CommandWords`, `WireFormat` and `ClientRequests` |
| `Request.Request.Process` | src/quitsies/tcp/request.cpp:196-303 | a call is the fold of its bytes, the size limit and the catch block included; what the bytes of a whole request do is said by the lemmas below |
| `Request.Request.GetResponse` | src/quitsies/tcp/request.cpp:305-311 | a response exactly if the request is finished |
| `RequestErrors.StoiReads` | src/quitsies/tcp/request.cpp:246-258 | a word is read as v if and only if, up to the first character that is none, it is an optional sign and at least one digit that stand for v, an int |
| `RequestErrors.StorageIsRefusedIff` | src/quitsies/tcp/request.cpp:203-303 | a storage request is refused with CLIENT_ERROR stoi, and the store left alone, if and only if its flags, expiry time or length is no such word; otherwise all three are taken |
| `RequestErrors.AbcIsNoLength` | src/quitsies/tcp/request.cpp:246-302 | `set k 0 0 abc` is refused and changes nothing |
| `CommandWords.PingIsAnswered` | src/quitsies/tcp/request.cpp:29-37 | ping is answered PONG at the first of the six separators behind it, with or without a store, and not before |
| `CommandWords.UnknownCommandIsRefused` | src/quitsies/tcp/request.cpp:39-85 | any other first word than the seven commands is refused with CLIENT_ERROR unsupported command |
| `CommandWords.MissingKeyIsRefused` | src/quitsies/tcp/request.cpp:224-243 | set, add or delete without a key is refused with CLIENT_ERROR invalid key |
| `CommandWords.NoKeysIsAnError` | src/quitsies/tcp/request.cpp:93-109 | get or gets without keys is answered with an error, which depends on whether there is a store |
| `CommandWords.NoStoreIsAnError` | src/quitsies/tcp/request.cpp:93-109 | without a store every well-formed request gets the same error |
| `CommandWords.SizeLimitHolds` | src/quitsies/tcp/request.cpp:196-201 | a call that brings the input to the limit or beyond is refused unread, any other is read as if there were no limit |
| `CommandWords.AnyByteEndsTheData` | src/quitsies/tcp/request.cpp:203-212 | whatever byte follows the data finishes the request |
| `CommandWords.StrayWordIsStored` | src/quitsies/tcp/request.cpp:262-276 | what stands between the length and the end of the line, if it is not noreply, becomes part of the value |
| `CommandWords.QuittingIff` | src/quitsies/tcp/request.cpp:65-85 | a request is quitting if and only if its first word is quit; it is then never answered and touches no key |
| `Chunking.FeedConcat` | src/quitsies/tcp/request.cpp:202-295 | feeding a concatenation is feeding the parts in turn |
| `Chunking.CuttingIsFeeding` | src/quitsies/tcp/request.cpp:196-303 | calls on successive chunks end where one call on all bytes ends |
| `Chunking.ChunkingInvariance` | src/quitsies/tcp/request.cpp:196-303 | any two cuts of the same bytes in which FINISHED is reached only during the last chunk end in the same request, response and store |
| `Chunking.CutsAddLateBytes` | src/quitsies/tcp/request.cpp:196-303 | for every cut: the result of the calls is that of one call on all bytes, but for the bytes other than white space that come in chunks after the finishing one, which stay in the buffer |
| `Chunking.CutShowsIff` | src/quitsies/tcp/request.cpp:196-303 | the cut shows if and only if such a byte comes late; the store is never affected |
| `Chunking.TwoCutsAgreeIff` | src/quitsies/tcp/request.cpp:196-303 | two cuts of the same bytes end alike if and only if the late bytes they leave over, white space apart, are the same |
| `Chunking.BytesAfterTheEndDependOnTheCut` | src/quitsies/tcp/request.cpp:219-222 | a concrete input that shows the condition on the last chunk is needed |
| `WireFormat.StoiOfDecimal` | src/quitsies/tcp/request.cpp:246-258 | every int is read back from its decimal numeral |
| `WireFormat.StorageIsParsed` | src/quitsies/tcp/request.cpp:203-276 | for every key, int flags and exptime and arbitrary data bytes, a storage request is parsed to exactly these, with or without noreply |
| `WireFormat.SetStoresData` | src/quitsies/tcp/request.cpp:159-170 | set stores exactly the data under the key, changes no other key and replies STORED |
| `WireFormat.AddStoresIfMissing` | src/quitsies/tcp/request.cpp:132-158 | add stores the data exactly if the key was missing, and says which |
| `ClientRequests.RequestIsServed` | src/quitsies/tcp/request.cpp:93-303 | every well-formed set, add, get, gets or delete request is answered, and changes the store, as a sequential map does |
| `ClientRequests.RequestIsServedHoweverCut` | src/quitsies/tcp/request.cpp:196-303 | the same for every cut of the request into reads, cuts inside its last line end included |
| `ClientRequests.SetStoresDataHoweverCut` | src/quitsies/tcp/request.cpp:196-303 | in particular set stores its data and replies STORED for every cut |
| `WireFormat.FramesAreDecoded` | src/quitsies/tcp/request.cpp:171-182 | a client that counts bytes decodes the answer to any key list to exactly the hits, in request order |
| `WireFormat.GetAnswersWithHits` | src/quitsies/tcp/request.cpp:171-182 | get and gets on any key list answer with such frames and change nothing |
| `WireFormat.SetThenGet` | src/quitsies/tcp/request.cpp:159-182 | what was set is what a later get reads, among whatever other keys |
| `WireFormat.DeleteRemovesKey` | src/quitsies/tcp/request.cpp:113-131 | delete removes the key, no other, and says whether it was there |
| `Connection.Connection.OnRead` | src/quitsies/tcp/connection.cpp:80-123 | the read callback is a step of the connection's state machine |
| `Connection.Connection.OnWrite` | src/quitsies/tcp/connection.cpp:125-141 | the write callback resets the request and reads again |
| `Connection.Connection.OnReadFailed` | src/quitsies/tcp/connection.cpp:118-120 | a failed read stops the connection unless it was aborted |
| `Connection.Connection.OnWriteFailed` | src/quitsies/tcp/connection.cpp:136-138 | a failed write stops the connection unless it was aborted |
| `CommandWords.ReadClosesIff` | src/quitsies/tcp/connection.cpp:80-123 | a read closes the connection if and only if with it the request is seen to be quit, however it was cut; nothing is sent |
| `CommandWords.StepClosesIff` | src/quitsies/tcp/connection.cpp:55-141 | nothing closes a connection but that, a timer and an operation that failed without having been aborted, and nothing opens it again |
| `ConnectionRuns.ConnectionAnswersInOrder` | src/quitsies/tcp/connection.cpp:55-141 | on every run at most one operation is outstanding and the bytes sent are the in-order responses to the finished, non-noreply requests, each what a fresh request gives on the chunks since the last reset with the store threaded through |
| `ConnectionRuns.InitialCommandDoesNotShow` | src/quitsies/tcp/request.hpp:87-102 | status, response, keys, buffer and store do not depend on the command a request is born with |
| `ClientSessions.SessionIsAnswered` | src/quitsies/tcp/connection.cpp:55-141 | any list of well-formed requests, each cut into reads in any way, is answered in order as a sequential map answers them, plus one error line for every read that brings only what is left of a request already finished; the connection stays open |
| `ClientSessions.SessionIsExactIff` | src/quitsies/tcp/connection.cpp:55-141 | the session gets exactly the map's answers if and only if there is no such read |
| `ClientSessions.BytesInTheSameReadAreLost` | src/quitsies/tcp/request.cpp:202-295 | on every run of a connection, bytes behind the one that finishes a request in the same read change nothing at all, as long as they stay within the size limit |
| `ClientSessions.SessionWithLosses` | src/quitsies/tcp/connection.cpp:55-141 | so a session whose finishing reads bring anything more is answered as if they did not |
| `ClientSessions.RequestBehindIsLost` | src/quitsies/tcp/request.cpp:202-295 | in particular a request that comes behind another in one read gets no answer and has no effect |
| `ClientSessions.LineFeedInItsOwnRead` | src/quitsies/tcp/connection.cpp:80-123 | a set whose last line feed comes in a read of its own is answered STORED and then CLIENT_ERROR |
| `AddRace.OneAddWins` | src/quitsies/tcp/request.cpp:132-158 | in every interleaving on a store that lacks k, at most one ADD of k replies STORED, every completed other NOT_STORED, and the value stays the winner's |
| `AddRace.ValuesNeverChange` | src/quitsies/tcp/request.cpp:132-182 | once a key has a value, no ADD or GET changes it |
| `AddRace.GetSeesOnlyTheWinner` | src/quitsies/tcp/request.cpp:171-182 | a concurrent GET answers with nothing or with the value of the one ADD that put |
| `AddRace.AddAloneIsOneRequest` | src/quitsies/tcp/request.cpp:132-158 | the four steps of an ADD that is not interrupted are exactly what the parser's request does to the store |
| `Numerals.ValueOfNumeral` | src/spdlog/fmt/bundled/format.h:1067-1093 | reading a numeral back gives the number, in every base from 2 to 16 |
| `Numerals.LengthIsDetermined` | src/spdlog/fmt/bundled/format.h:997-1031 | a numeral has k digits if base^(k-1) <= n < base^k |
| `CountDigits.EstimateFits` | src/spdlog/fmt/bundled/format.h:1002-1003 | the estimate never indexes outside the power tables |
| `CountDigits.CorrectedEstimate` | src/spdlog/fmt/bundled/format.h:998-1004 | bits * 1233 >> 12, corrected by one comparison with a power of ten, is the number of decimal digits |
| `CountDigits.CountDigitsIsLength` | src/spdlog/fmt/bundled/format.h:998-1031 | for every 32- and 64-bit number count_digits is the length of its decimal numeral |
| `CountDigits.TablesHoldPowers` | src/spdlog/fmt/bundled/format.cc:483-507 | entry t of each table is 10^t |
| `CountDigits.CountDigitsByDivision` | src/spdlog/fmt/bundled/format.h:1007-1023 | the divide-by-10000 loop computes the same length for every number |
| `DigitTable.DigitPairs` | src/spdlog/fmt/bundled/format.cc:476-481 | entry j of the table is the two digits of j |
| `DecimalWriter.ThousandsSep.Apply` | src/spdlog/fmt/bundled/format.h:1054-1061 | writes the separator in place in front of every third digit, and nothing else |
| `DecimalWriter.FormatDecimal` | src/spdlog/fmt/bundled/format.h:1067-1093 | writing two digits at a time, backward, with the functor after each digit but the leading one, leaves exactly the grouped numeral in front of the end and nothing else changed |
| `IntegerText.WrittenIsGrouped` | src/spdlog/fmt/bundled/format.h:1042-1093 | digit-by-digit separators from the right give the numeral grouped by threes |
| `IntegerText.GroupedLength` | src/spdlog/fmt/bundled/format.h:3291-3292 | its size is digits + separator * ((digits - 1) / 3) |
| `IntegerText.GroupedPositions` | src/spdlog/fmt/bundled/format.h:1054-1061 | where each digit and each separator stands, counted from the right |
| `IntegerText.UngroupedUndoesGrouped` | src/spdlog/fmt/bundled/format.h:1042-1061 | erasing the separators gives the plain numeral |
| `IntegerText.FieldLength` | src/spdlog/fmt/bundled/format.h:3143-3151 | the field has the larger of the width and the number's own size |
| `FieldLayout.FieldIsLaidOut` | src/spdlog/fmt/bundled/format.h:3143-3183 | default and right alignment put the fill in front of the number, left behind it, centre on both sides with the greater half behind, numeric between prefix and digits |
| `FieldLayout.PrefixIs` | src/spdlog/fmt/bundled/format.h:3185-3290 | the sign, by value and flags, and the mark of the base, by type |
| `FieldLayout.DigitsAre` | src/spdlog/fmt/bundled/format.h:3201-3282 | the digits stand for the magnitude in the base of the type, with small letters for x and capitals for X and no leading zero |
| `FieldLayout.FilledFields` | src/spdlog/fmt/bundled/format.h:3143-3183 | width 5 of 42 is three spaces and 42; width 2 and fill 0 of 7 is 07 |
| `FieldLayout.MarkedFields` | src/spdlog/fmt/bundled/format.h:3211-3238 | 255 is 0xff with # and x, 0XFF with # and X |
| `IntegerText.FieldReadsBack` | src/spdlog/fmt/bundled/format.h:3106-3282 | for every value, alignment, width, flags, type d, x, X, b, B or o and fill that is not a digit of the base or the base's printed letter: removing the fill and reading what is left gives the value, if and only if the fill is not the minus sign of a negative number |
| `IntegerText.ZeroPaddedReadsBack` | src/spdlog/fmt/bundled/format.h:3166-3181 | zero fill between prefix and digits needs no removing |
| `IntegerPrecision.PreciseFieldLength` | src/spdlog/fmt/bundled/format.h:3116-3142 | with a precision: at least so many digits, the octal mark counted as one, and the larger of the width and that number's size |
| `FieldLayout.PreciseFieldIsLaidOut` | src/spdlog/fmt/bundled/format.h:3116-3142 | with a precision that takes effect: sign, mark unless octal, zeros, digits, and the fill in front of it all unless the field is left-aligned |
| `IntegerPrecision.PreciseFieldReadsBack` | src/spdlog/fmt/bundled/format.h:3106-3282 | the same with every precision |
| `IntegerPrecision.ZeroPaddedWithPrecision` | src/spdlog/fmt/bundled/format.h:3116-3136 | a negative number with numeric zero fill reads back if and only if the precision takes no effect or leaves nothing to fill |
| `IntegerPrecision.ZerosBeforeTheSign` | src/spdlog/fmt/bundled/format.h:3116-3136 | "%08.3d" of -5 is "0000-005" |
| `IntegerText.PlainFieldIsSignedDecimal` | src/spdlog/fmt/bundled/format.h:2770-2785 | the unadorned field of write_int is what write_decimal writes |
| `IntegerWriter.AbsValueIsMagnitude` | src/spdlog/fmt/bundled/format.h:3189-3196 | the unsigned magnitude is right for every 32- and 64-bit value, the minimum included |
| `IntegerWriter.FormatInt.Signed` | src/spdlog/fmt/bundled/format.h:3784-3837 | the text is the signed decimal numeral and fits the 22-byte buffer, for every value |
| `IntegerWriter.FormatInt.Unsigned` | src/spdlog/fmt/bundled/format.h:3784-3840 | the same for every unsigned value |
| `IntegerWriter.FormatInt.CStr` | src/spdlog/fmt/bundled/format.h:3861-3865 | terminates the text without changing it |
| `IntegerWriter.CountShifts` | src/spdlog/fmt/bundled/format.h:3222-3227 | shifting the value out counts its digits in base 16, 8 or 2 |
| `IntegerWriter.WriteShifted` | src/spdlog/fmt/bundled/format.h:3228-3238 | mask and shift write exactly the numeral, backward from its last place |
| `BasicWriter.BasicWriter.WriteDecimal` | src/spdlog/fmt/bundled/format.h:2762-2785 | appends exactly the signed decimal numeral |
| `BasicWriter.BasicWriter.FillPadding` | src/spdlog/fmt/bundled/format.h:3090-3104 | half the padding, rounded down, on the left, the rest on the right; the content between them and everything outside stay as they were |
| `BasicWriter.BasicWriter.PrepareIntBuffer` | src/spdlog/fmt/bundled/format.h:3106-3183 | grows by exactly the field; every byte but the digits' is written, prefix, zeros of the precision and fill where `FieldLayout` says; the place for the digits is in the buffer if and only if the fill behind a left-aligned number did not make it grow |
| `BasicWriter.BasicWriter.WriteInt` | src/spdlog/fmt/bundled/format.h:3185-3303 | appends exactly the field of the specification and precision, laid out as `FieldLayout` says, or reports an unknown type and writes nothing; if the digits are lost, the field with what the storage held in their place |
| `BasicWriter.FieldIsWrittenIff` | src/spdlog/fmt/bundled/format.h:3106-3183 | what was appended is the field asked for if and only if the digits are not lost, or the storage happened to hold the same ones |
| `BasicWriter.LostIff` | src/spdlog/fmt/bundled/format.h:3117-3142 | the digits of a left-aligned number with a precision are lost if and only if size and width together exceed the capacity after the reserve and the first growth |
| `BasicWriter.NothingIsLost` | src/spdlog/fmt/bundled/format.h:3106-3183 | and never without a precision, with another alignment, without fill, with room for the field or at the start of a buffer |
| `BasicWriter.SevenIsLost` | src/spdlog/fmt/bundled/format.h:3131-3141 | a writer of 480 characters to which "%-40.12d" of 7 adds no 7 |
| `GrowthAccount.CopiesAreAmortised` | src/spdlog/fmt/bundled/format.h:834-852 | over every run of appends and clears on a fresh buffer, growing copies at most 4 (in fact 3.015) elements per element appended |
| `GrowthAccount.InlineRunsCopyNothing` | src/spdlog/fmt/bundled/format.h:640-642 | nothing is copied while 500 elements suffice |
| `OutputBuffer.MemoryBuffer.Grow` | src/spdlog/fmt/bundled/format.h:834-852 | keeps the contents and grows by half or to what is needed |
| `OutputBuffer.MemoryBuffer.Resize` | src/spdlog/fmt/bundled/format.h:706-711 | keeps what fits of the contents |
| `OutputBuffer.MemoryBuffer.PushBack` | src/spdlog/fmt/bundled/format.h:726-731 | the contents grow by one element |
| `OutputBuffer.MemoryBuffer.Append` | src/spdlog/fmt/bundled/format.h:747-757 | the contents grow by exactly the elements given |
| `FormatSpec.ParseNonnegativeInt` | src/spdlog/fmt/bundled/format.h:4088-4109 | the 32-bit loop computes the closed form: the numeral modulo 2^32, unless a step is seen to wrap or the result exceeds INT_MAX |
| `FormatSpec.ParsedIntIsExactIff` | src/spdlog/fmt/bundled/format.h:4088-4109 | exact numbers up to INT_MAX and an error beyond, if and only if the numeral is at most INT_MAX or its wrap-around shows |
| `FormatSpec.ExactBelowFirstMisread` | src/spdlog/fmt/bundled/format.h:4088-4109 | the parser is exact, errors included, for every numeral below 4772185884, which is the first it misreads |
| `FormatSpec.PrintedIntIsParsed` | src/spdlog/fmt/bundled/format.h:4088-4109 | every number up to INT_MAX is read back from its numeral |
| `FormatSpec.FiveBillionIsAccepted` | src/spdlog/fmt/bundled/format.h:4096-4101 | a numeral beyond INT_MAX that is accepted |
| `SpecParser.ParserUndoesPrinter` | src/spdlog/fmt/bundled/format.h:4189-4371 | the parser reads back every printed specification, whatever follows it, except exactly the empty one followed by an alignment character |
| `SpecParser.ShortIsParsed` | src/spdlog/fmt/bundled/format.h:4189-4371 | no specification is read as plain decimal, an alignment without a fill as filled with spaces, the zero flag as numeric alignment with zeros |
| `SpecParser.NestedWidthIsReached` | src/spdlog/fmt/bundled/format.h:4276-4282 | with a width to be taken from an argument, the parser comes to its opening brace with everything before it read |
| `SpecParser.LookAheadPastTheBrace` | src/spdlog/fmt/bundled/format.h:4197-4235 | the look-ahead in the concrete text of the finding |
| `FormatText.PendingText` | src/spdlog/fmt/bundled/format.h:4381-4400 | literal text is written in front of whatever follows it |
| `FormatText.RefIsChosen` | src/spdlog/fmt/bundled/format.h:4151-4180 | a printed reference (next, by index or by name) is read back as the argument it stands for, and refused exactly if there is none or the numbering does not allow it |
| `FormatText.PrintedPiecesAreFormatted` | src/spdlog/fmt/bundled/format.h:4378-4400 | formatting a printed format string, its fields bare, with the zero flag, without a fill or in full, writes its literal text with braces single and in each field's place the argument it refers to, with the width given or taken from another argument, in order; it fails exactly if an argument cannot be had, a sign is asked of an unsigned one or a width is out of range |
| `FormatText.BareFieldIsFormatted` | src/spdlog/fmt/bundled/format.h:4189-4190 | `{}` is the argument in decimal |
| `FormatText.DoubledBracesComeBack` | src/spdlog/fmt/bundled/format.h:4381-4400 | with no arguments, any string with its braces doubled comes back |
| `FormatErrors.LoneBraceIsRefused` | src/spdlog/fmt/bundled/format.h:4381-4394 | refused: a closing brace that is not doubled and closes nothing |
| `FormatErrors.UnclosedIsRefused` | src/spdlog/fmt/bundled/format.h:4368-4400 | refused: an opening brace behind which none closes; the text in front of it has been written |
| `FormatErrors.UnknownTypeIsRefused` | src/spdlog/fmt/bundled/format.h:3294-3303 | refused: a type letter that is none of an integer |
| `FormatErrors.KnownTypeIsFormatted` | src/spdlog/fmt/bundled/format.h:3201-3298 | each of the seven type letters is accepted |
| `FormatErrors.PrecisionIsRefused` | src/spdlog/fmt/bundled/format.h:4309-4362 | refused: a precision, for an integer |
| `FormatErrors.BraceIsNoFill` | src/spdlog/fmt/bundled/format.h:4217-4226 | refused: an opening brace as fill |
| `FormatErrors.WidthMustFit` | src/spdlog/fmt/bundled/format.h:4276-4307 | a width from an argument is taken if and only if it is from 0 to INT_MAX |
| `FormatErrors.NumberingDoesNotMix` | src/spdlog/fmt/bundled/format.h:4135-4165 | refused: automatic numbering with indices or names, in either order |
| `Formatter.ParseAlign` | src/spdlog/fmt/bundled/format.h:4197-4235 | the look-ahead loop finds fill and alignment as specified |
| `Formatter.ParseField` | src/spdlog/fmt/bundled/format.h:4189-4371 | the parser's steps compose to the specified field, up to the brace that opens a nested width |
| `Formatter.BasicFormatter.ParseArg` | src/spdlog/fmt/bundled/format.h:4135-4180 | automatic, explicit and named references, and that automatic and the others do not mix |
| `Formatter.BasicFormatter.FindName` | src/spdlog/fmt/bundled/format.h:2126-2136 | the first argument of that name |
| `Formatter.BasicFormatter.ResolveField` | src/spdlog/fmt/bundled/format.h:4189-4371 | a field with its width, digits or taken from an argument that must be an int that is not negative |
| `Formatter.BasicFormatter.Format` | src/spdlog/fmt/bundled/format.h:4377-4402 | writes exactly what the format string stands for; on an error, exactly what precedes it |
| `RotationSpec.FilenamesDiffer` | src/spdlog/sinks/file_sinks.h:97-105 | two files of the family have the same name only if they are the same |
| `RotationSpec.FilenameIs` | src/spdlog/sinks/file_sinks.h:97-105 | the current file has the base name, an older one the base name, a point and its number in decimal |
| `RotationSpec.ShiftMovesFiles` | src/spdlog/sinks/file_sinks.h:117-134 | the descending loop moves each file to the next number, drops the oldest and touches nothing else, missing files included |
| `RotationSpec.RunConserves` | src/spdlog/sinks/file_sinks.h:85-135 | over every run, initial files followed by all messages are what rotations dropped (whole oldest files) followed by the files now there, oldest first; the recorded size is that of the current file |
| `RotationSpec.WriteAppendsIfItFits` | src/spdlog/sinks/file_sinks.h:85-135 | a message that still fits is appended to the current file and touches nothing else; otherwise the current file is that message and what was there is the first older file |
| `RotationSpec.FittingRunFillsOneFile` | src/spdlog/sinks/file_sinks.h:85-94 | while the current file and all messages fit, everything is in the current file and no other file changes |
| `RotationSpec.OpeningLosesNothing` | src/spdlog/sinks/file_sinks.h:67-77 | opening keeps the current file, or creates it empty, keeps every other file and knows the size |
| `RotationSpec.CurrentFileIsBounded` | src/spdlog/sinks/file_sinks.h:85-94 | after each write the current file is within the limit or is that message alone |
| `RotationSpec.EveryFileIsBounded` | src/spdlog/sinks/file_sinks.h:85-135 | if all files start within the limit, each stays within it or is one message |
| `RotationSpec.MessagesAreNeverSplit` | src/spdlog/sinks/file_sinks.h:85-135 | if no older contents are there at the start, every file is a block of whole messages |
| `RotationSpec.BlocksHoldAllMessages` | src/spdlog/sinks/file_sinks.h:85-135 | these blocks, oldest first, are all messages in order |
| `RotationSpec.OtherFilesAreUntouched` | src/spdlog/sinks/file_sinks.h:113-136 | files outside the family never change |
| `RotatingSink.RotatingFileSink.constructor` | src/spdlog/sinks/file_sinks.h:67-77 | opens the base file for appending and takes over its size |
| `RotatingSink.RotatingFileSink.SinkIt` | src/spdlog/sinks/file_sinks.h:85-94 | one message changes file system and size as specified; when that rotates is said by `RotationSpec.WriteAppendsIfItFits` |
| `RotatingSink.RotatingFileSink.Rotate` | src/spdlog/sinks/file_sinks.h:113-136 | the remove-and-rename loop and the truncating reopen are the specified rotation |

## Left out

- Weak memory: atomics are sequentially consistent and cache-line padding is ignored.
- AsyncWrapped.WordSysRunsRefine: nothing is claimed of runs in which an approx_size call finds the enqueue counter wrapped past the dequeue counter.
- MpmcWrapped.WordRunsRefineTicketRuns: nothing is claimed of runs in which a thread sleeps between two accesses while 2^63 - 2N tickets are claimed.
- Sleeping, yielding and the clock: the flush interval is a nondeterministic truth value, the sleep between retries is not modelled.
- Exceptions thrown by formatters or sinks inside the worker, and changes of a sink's level during a run.
- AsyncDelivery.MessageSurvivesQueue: the move constructor of async_msg, which drops the thread id (async_log_helper.h:59-65), is not on the queue's path and is not modelled.
- Store failures: the store is an ideal map, so the ERROR replies for a failed put or del are in the code of the model but not reachable.
- AddRace.OneAddWins: SET and DELETE take no lock and are not part of the concurrent model.
- Timers appear as a nondeterministic stop; sockets, signals, the connection manager and the buffer passed to async_write, whose lifetime the program leaves to the library, are not part of this model.
- WireFormat.StorageIsParsed: lines with extra spaces, unknown words in the noreply slot or negative lengths are parsed by `RequestSpec` as the program parses them, but no round trip is claimed for them.
- ClientSessions.SessionIsAnswered: the session has the store to itself, no timer fires and no request exceeds a size limit.
- WireFormat.StorageIsParsed: the data length is at most INT_MAX, what stoi can read.
- Deallocation and moving of memory buffers: a buffer's contents and its copies are modelled, freeing storage is not.
- The printf front end (format.h:2326-2342, format.cc:684-857), which reaches `BasicWriter.BasicWriter.WriteInt` with a precision and with numeric zero fill; its own parsing would add only simple members. The format parser refuses a precision for an integer.
- BasicWriter.BasicWriter.WriteInt: digits that miss the buffer are written into the storage left behind, which the program may have freed; what that does to the heap is not part of this model.
- Floating point, strings, pointers, wide characters and user-defined types as format arguments.
- FormatText.PrintedPiecesAreFormatted: explicit indices above INT_MAX are not printed; the text written before a failure is given by `FormatText.Expand`, not by this lemma.
- IntegerText.FieldReadsBack: a fill that is a digit or the mark of the base cannot be told from the number, so of these only zero fill with numeric alignment is covered (`IntegerText.ZeroPaddedReadsBack`).
- The truncation of a grouped number's size to 32 bits, which needs a separator of 2^30 characters.
- RotatingSink.RotatingFileSink.Rotate: no file-system operation fails, and writes reach the file at once.
- The HTTP endpoints, backups, options, statistics, the logger registry, pattern formatting and the daily sink, which would add only simple members or depend on the operating system.
