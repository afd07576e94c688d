# SocketEngine buffer-and-event state machine, in Dafny

`SocketEngine` is a small byte-stream client. It owns one input and one output stream to a host and port. It keeps an incoming buffer (the bytes received since the last reset) and an outgoing buffer (the bytes waiting to be written). It reports to its consumer through three optional callbacks: read progress, received data, and termination. This project models the engine once both streams exist:

- `sendNetworkPacket` queues bytes, and `writeOutgoingBufferToStream` makes one write attempt of at most one 1024-byte chunk.
- The `HasBytesAvailable` branch does one read of at most 1024 bytes.
- `stream(_:handleEvent:)` dispatches the other events.

The transport is abstracted to its answers, which each operation takes as data:

- `hasSpaceAvailable` and the count `write` returns (`WriteAnswer`);
- the count `read` returns and the scratch buffer it filled (`ReadAnswer`);
- the signalling stream's `streamError`.

The engine state (`SocketEngine.Engine`) holds the two byte buffers, a closed flag per stream and the notification log. Each callback closure the engine posts to the main queue becomes log entries, in posting order. `Notifier.Delivered` then drops the entries whose callback is unset.

Modules:

- `SocketEngine` (`socket_engine.dfy`): the state, the per-operation transitions, and the write-length discrepancy described under Findings.
- `EngineTraces` (`traces.dfy`): runs of operations. It covers FIFO conservation of outgoing bytes, the incoming buffer as the reads since the last reset, the agreement between progress reports and the buffer, and the lack of exactly-once termination.
- `Notifier` (`notifier.dfy`): delivery to the optional callbacks.
- `EngineScenarios` (`scenarios.dfy`): concrete runs (echo of "PING", a peer that closes at once, "AB" + "CD" queued then flushed).

Where the engine's design intent and its code differ, the model follows the code:

- Termination is not idempotent. Every end event, error event, failed write and non-positive read posts a termination, even after an earlier one (`EngineTraces.TerminationsAccumulate`).
- A read returning a negative count (a stream error) is handled like a zero-length read. It clears the incoming buffer and posts a termination with no error. The buffer is therefore also cleared on this error path.
- An end event, an error event or a failed write posts a termination but keeps the incoming buffer. A later read therefore reports a total that still counts the bytes read before that termination (`EngineScenarios.TotalOutlivesTermination`).
- `closeStream` closes the stream and removes it from the run loop, so a closed stream signals no further events. It does not clear the engine's stream fields, so later sends still reach the output stream, and the other stream keeps signalling. The model records only the closed flag and never suppresses an operation because of it. Any event may arrive on either side at any time, which over-approximates the runs the engine can see: every property over runs also covers these extra runs.
- The transport is not prevented from acting after a termination. No state makes the engine inert.

## Model

| member | source | states |
|---|---|---|
| SocketEngine.Chunk | StreamUsingSwift/StreamUsingSwift/SocketEngine.swift:104-112 | the bytes copied for one write attempt are the head of the outgoing buffer, of length min(length, 1024) |
| SocketEngine.RequestAsWritten | StreamUsingSwift/StreamUsingSwift/SocketEngine.swift:108-113 | the code's request copies the first min(length, 1024) bytes of the buffer but always passes maxLength 1024, so maxLength exceeds the copy exactly when the buffer is shorter than 1024 |
| SocketEngine.Request | StreamUsingSwift/StreamUsingSwift/SocketEngine.swift:108-113 | the corrected request passes the copied length, so no count the stream may return can exceed the bytes copied |
| SocketEngine.Accepted | StreamUsingSwift/StreamUsingSwift/SocketEngine.swift:113-116 | the bytes one attempt hands to the stream are a prefix of the copied chunk, at most 1024 bytes, non-empty exactly when a write was attempted and reported a positive count, and then exactly as many as the count |
| SocketEngine.WriteOutgoingBuffer | StreamUsingSwift/StreamUsingSwift/SocketEngine.swift:98-126 | nothing changes when the buffer is empty or the stream has no space; a positive count drops exactly that many head bytes and changes nothing else; a count of zero or less leaves the buffer, closes the output stream and posts exactly one termination without error; in every case accepted bytes followed by the new buffer give the old buffer |
| SocketEngine.WriteOutgoingBufferAsWritten | StreamUsingSwift/StreamUsingSwift/SocketEngine.swift:113-116 | with the code's own maxLength, the attempt faults with a range error exactly when the reported count exceeds the buffer length |
| SocketEngine.AsWrittenOverrun | StreamUsingSwift/StreamUsingSwift/SocketEngine.swift:113-115 | a 4-byte buffer and a reported count of 5 respect the code's request, exceed what was copied, and make the removal fault |
| SocketEngine.AsWrittenAgreesWithinCopy | StreamUsingSwift/StreamUsingSwift/SocketEngine.swift:108-116 | whenever the stream stays within the copied chunk, the code as written and the corrected attempt produce the same state |
| SocketEngine.SendNetworkPacket | StreamUsingSwift/StreamUsingSwift/SocketEngine.swift:93-123 | the packet goes behind the bytes already queued; without space the buffer is exactly old ++ packet and nothing is posted; accepted bytes followed by the new buffer give old ++ packet; a write reporting zero or less keeps the buffer, closes the output stream and posts exactly one termination without error; otherwise nothing is posted and the output stream's closed flag is unchanged |
| SocketEngine.ReadData | StreamUsingSwift/StreamUsingSwift/SocketEngine.swift:133-138 | the bytes a read delivers are the first `count` bytes of the scratch buffer, none when the count is not positive |
| SocketEngine.ReadIncoming | StreamUsingSwift/StreamUsingSwift/SocketEngine.swift:132-159 | a positive read appends exactly its bytes and posts progress (count, new length) followed by those bytes; a read of zero or less empties the buffer and posts one termination without error; the outgoing buffer and the closed flags never change |
| SocketEngine.CloseStream | StreamUsingSwift/StreamUsingSwift/SocketEngine.swift:59-63 | closing marks the given stream closed and leaves the other stream, both buffers and the log as they were |
| SocketEngine.HandleEvent | StreamUsingSwift/StreamUsingSwift/SocketEngine.swift:128-183 | open-completed and unknown events change nothing; readable goes to the read path and writable to the write path; end closes the signalling stream and posts a termination without error; error closes it and posts a termination carrying its stream error; only writable touches the outgoing buffer and only readable touches the incoming buffer; the log only grows |
| EngineTraces.StepAccepted | StreamUsingSwift/StreamUsingSwift/SocketEngine.swift:104-116 | one send or event hands the output stream at most 1024 bytes |
| EngineTraces.StepFacts | StreamUsingSwift/StreamUsingSwift/SocketEngine.swift:93-162 | each send or event conserves outgoing bytes (accepted ++ new buffer == old buffer ++ sent), only appends to the log, and touches the incoming buffer only when it reads, and then exactly as one read does |
| EngineTraces.OutgoingConservation | StreamUsingSwift/StreamUsingSwift/SocketEngine.swift:93-116 | over any run, everything handed to the stream followed by what is still queued equals what was queued before followed by all bytes sent, in call order |
| EngineTraces.DrainedMeansDelivered | StreamUsingSwift/StreamUsingSwift/SocketEngine.swift:93-116 | when the outgoing buffer is empty after a run, the stream has been handed exactly the earlier queue followed by every packet sent, in order |
| EngineTraces.QueuedSendsConcatenate | StreamUsingSwift/StreamUsingSwift/SocketEngine.swift:93-103 | packets sent while the stream has no space accumulate as their concatenation in call order, and nothing is posted |
| EngineTraces.LastReset | StreamUsingSwift/StreamUsingSwift/SocketEngine.swift:149-152 | locates the last read of zero or less; every later read is positive |
| EngineTraces.IncomingSinceLastReset | StreamUsingSwift/StreamUsingSwift/SocketEngine.swift:133-152 | after any run the incoming buffer is the data of the positive reads since the last non-positive read, on top of the starting contents when there was none |
| EngineTraces.IncomingLengthIsReadTotal | StreamUsingSwift/StreamUsingSwift/SocketEngine.swift:133-152 | the incoming length equals the sum of the positive read counts since the last reset (plus the starting length when there was no reset) |
| EngineTraces.PayloadLength | StreamUsingSwift/StreamUsingSwift/SocketEngine.swift:136-138 | the bytes delivered by a sequence of reads number the sum of their positive counts |
| EngineTraces.LogGrows | StreamUsingSwift/StreamUsingSwift/SocketEngine.swift:128-183 | every run keeps all notifications posted before it, in place |
| EngineTraces.QuietStep | StreamUsingSwift/StreamUsingSwift/SocketEngine.swift:93-183 | a send or event that does not read, is not an end or error, and whose write (if any) finds no space or reports a positive count posts nothing and leaves the incoming buffer alone |
| EngineTraces.ReportedTotalsAreSums | StreamUsingSwift/StreamUsingSwift/SocketEngine.swift:136-158 | across any run whose terminations all come from reads (sends, writes that succeed or find no space, open-completed, unknown and readable events, in any mix), every reported total equals the sum of the reported per-read counts since the last termination, and that sum equals the incoming length |
| EngineTraces.TerminationsAccumulate | StreamUsingSwift/StreamUsingSwift/SocketEngine.swift:164-179 | an end on one stream followed by an error on the other closes both and posts two terminations, whatever was posted before: termination is not exactly-once |
| Notifier.Delivered | StreamUsingSwift/StreamUsingSwift/SocketEngine.swift:140-148 | the consumer observes a posted notification exactly when it was posted and its callback is set |
| Notifier.DeliveredAppend | StreamUsingSwift/StreamUsingSwift/SocketEngine.swift:140-148 | delivery keeps posting order: delivering a concatenated log is delivering each part in turn |
| Notifier.AllSetSeesEverything | StreamUsingSwift/StreamUsingSwift/SocketEngine.swift:140-148 | with all three callbacks set the consumer observes the posted log unchanged |
| EngineScenarios.EchoPing | StreamUsingSwift/StreamUsingSwift/SocketEngine.swift:93-148 | sending "PING" fully and reading it back posts progress (4, 4) then the bytes "PING", and leaves nothing queued |
| EngineScenarios.PeerClosesImmediately | StreamUsingSwift/StreamUsingSwift/SocketEngine.swift:149-158 | a first read of zero posts only a termination without error and no data |
| EngineScenarios.QueuedInOrder | StreamUsingSwift/StreamUsingSwift/SocketEngine.swift:93-103 | "AB" then "CD" sent without space wait as "ABCD" |
| EngineScenarios.TotalOutlivesTermination | StreamUsingSwift/StreamUsingSwift/SocketEngine.swift:136-179 | after 3 bytes, an end on the output stream and 2 more bytes, the engine reports a total of 5 after the termination, so reported totals no longer match a count restarted at each termination |
| EngineScenarios.QueuedThenFlushed | StreamUsingSwift/StreamUsingSwift/SocketEngine.swift:93-116 | after queueing "AB" and "CD", one 4-byte write hands the peer "ABCD" and empties the buffer |

## Left out

- Connection setup (`connect`, `socketDidConnect`, `setupSocketStreams`, stream pair creation, run-loop scheduling, `open`): these are calls into the platform's networking layer. The model starts from `SocketEngine.Connected`, with both streams present and open.
- `init` and `clean`: they force-unwrap streams that do not exist yet. That crash, and the one in `sendNetworkPacket` before `connect`, are treated as a precondition (streams present), not modelled as behaviour.
- Removal from the run loop in `closeStream`: no run loop is modelled.
- Background and main-queue dispatch: callbacks are modelled as entries appended to the log in posting order. Thread interleavings are not modelled. The progress closure reads the incoming length when it runs; the model reports the length right after the read instead.
- Raw memory (`alloc`, `memcpy`, the scratch buffers that are never freed): chunks are modelled as byte sequences.
- The host and port fields, and the closures' types: they take no part in the buffer logic.
- Exactly-once termination, `close`/`disconnect`, connect idempotence, timeouts and locking around `send`: the code has none of these.
- SocketEngine.WriteOutgoingBuffer: assumes the stream's reported count stays within the bytes copied, which is the corrected request's contract. The code's own request allows larger counts; that case is modelled separately by `SocketEngine.WriteOutgoingBufferAsWritten`.
- SocketEngine.ReadIncoming: assumes the stream reports at most 1024 bytes and fills a 1024-byte scratch buffer, which is the contract of a read with `maxLength: BuffSize`.
- EngineTraces.ReportedTotalsAreSums: stated only for runs in which every termination comes from a read (no end or error event and no write reporting zero or less). Outside such runs the property is false, as `EngineScenarios.TotalOutlivesTermination` shows.
- Integer widths: counts are Swift `Int`. The stream's contract bounds them by 1024, so no wrap-around can occur, and none is modelled.

## Findings

| source | as written | input that shows it | evidently intended | confidence | as-written member | corrected member |
|---|---|---|---|---|---|---|
| StreamUsingSwift/StreamUsingSwift/SocketEngine.swift:113 | `write(buf, maxLength: BuffSize)` after copying only `len = min(length, 1024)` bytes into `buf` | outgoing buffer of 4 bytes, stream with space that reports 5 bytes written (allowed, since 5 ≤ 1024): the stream may read past the 4-byte copy, and removing the range 0..<5 from a 4-byte buffer raises a range error | `write(buf, maxLength: len)` | not executed; high | SocketEngine.WriteOutgoingBufferAsWritten | SocketEngine.WriteOutgoingBuffer |
