/**
  The buffer-and-event state machine of `SocketEngine`.

  The engine owns two byte buffers (bytes received so far and bytes waiting to be
  written), the two streams of one connection, and three optional callbacks that it
  fires on the main queue. Here the streams are abstracted to the answers they give:
  each operation takes those answers as parameters, each callback the engine posts
  becomes one entry of an append-only notification log, and the closing of a stream
  is recorded as a flag (the engine's stream fields stay set, as they do in the source).
 */
module SocketEngine {

  /** One octet of stream payload. */
  newtype byte = x: int | 0 <= x < 256

  /** The most bytes one read or one write attempt moves. */
  const BuffSize: nat := 1024

  datatype Option<+T> = None | Some(value: T)

  /** What an NSStream reports through its `streamError` property. */
  datatype StreamError = StreamError(domain: string, code: int)

  /** Which of the engine's two streams signalled an event. */
  datatype Side = Input | Output

  /** One callback invocation posted to the main queue, in posting order. */
  datatype Notification =
    | ReadProgress(bytesReading: nat, totalBytesReading: nat)
    | ReceivedData(data: seq<byte>)
    | Terminated(error: Option<StreamError>)

  /** The output stream's answers to one write attempt: `hasSpaceAvailable`, then the count `write` returns. */
  datatype WriteAnswer = WriteAnswer(hasSpace: bool, written: int)

  /** The input stream's answer to one `read`: the count returned and the scratch buffer's contents after the call. */
  datatype ReadAnswer = ReadAnswer(count: int, scratch: seq<byte>)

  /**
    The events `stream(_:handleEvent:)` distinguishes. An event that makes the
    engine call into a stream carries that stream's answers.
   */
  datatype StreamEvent =
    | OpenCompleted
    | HasBytesAvailable(read: ReadAnswer)
    | HasSpaceAvailable(write: WriteAnswer)
    | EndEncountered
    | ErrorOccurred(streamError: Option<StreamError>)
    | OtherEvent(code: int)

  /** The engine's state once both streams exist. */
  datatype Engine = Engine(
    incoming: seq<byte>,
    outgoing: seq<byte>,
    inputClosed: bool,
    outputClosed: bool,
    log: seq<Notification>)

  /** Both streams open, both buffers empty, nothing posted yet. */
  const Connected: Engine := Engine([], [], false, false, [])

  function Min(a: int, b: int): int {
    if a <= b then a else b
  }

  /** The last element of a non-empty sequence. */
  function Last<T>(s: seq<T>): T
    requires |s| > 0
  {
    s[|s| - 1]
  }

  /** A non-empty sequence without its last element. */
  function Init<T>(s: seq<T>): seq<T>
    requires |s| > 0
  {
    s[..|s| - 1]
  }

  // ---------------------------------------------------------------------------
  // Outgoing path
  // ---------------------------------------------------------------------------

  /** The bytes one write attempt copies into its scratch buffer: the head of the outgoing buffer. */
  function Chunk(out: seq<byte>): (c: seq<byte>)
    ensures |c| == Min(|out|, BuffSize)
    ensures c <= out
  {
    if |out| >= BuffSize then out[..BuffSize] else out
  }

  /** What one write attempt hands to the output stream's `write`: the copied bytes and the `maxLength` argument. */
  datatype WriteRequest = WriteRequest(copied: seq<byte>, maxLength: nat)

  /**
    The output stream's contract: `write` never reports more than `maxLength` bytes
    written (a count of zero or less means the write failed).
   */
  predicate WithinMaxLength(q: WriteRequest, n: int) {
    n <= q.maxLength
  }

  /**
    The request as the code writes it: the copy holds `min(length, BuffSize)` bytes
    but `maxLength` is always `BuffSize`.
   */
  function RequestAsWritten(out: seq<byte>): (q: WriteRequest)
    ensures q.copied <= out && |q.copied| == Min(|out|, BuffSize) && q.maxLength == BuffSize
    ensures |q.copied| < q.maxLength <==> |out| < BuffSize
  {
    WriteRequest(Chunk(out), BuffSize)
  }

  /**
    The request with `maxLength` equal to the length copied, as the computed `len`
    evidently intends: the stream can then never consume a byte that was not copied.
   */
  function Request(out: seq<byte>): (q: WriteRequest)
    ensures q.copied <= out && |q.copied| == Min(|out|, BuffSize)
    ensures q.maxLength == |q.copied|
    ensures forall n: int :: WithinMaxLength(q, n) ==> n <= |q.copied|
  {
    var c := Chunk(out);
    WriteRequest(c, |c|)
  }

  /**
    The output stream's answers respect its contract for the request issued on
    buffer `out`. `write` is only called when the buffer is not empty and the stream
    has space, so otherwise the count is not constrained.
   */
  predicate AnswerFits(out: seq<byte>, a: WriteAnswer) {
    |out| > 0 && a.hasSpace ==> WithinMaxLength(Request(out), a.written)
  }

  /** True when a write attempt on `out` actually calls `write`. */
  predicate Attempts(out: seq<byte>, a: WriteAnswer) {
    |out| > 0 && a.hasSpace
  }

  /** The bytes the output stream accepted in one write attempt on buffer `out`. */
  function Accepted(out: seq<byte>, a: WriteAnswer): (w: seq<byte>)
    requires AnswerFits(out, a)
    ensures w <= Chunk(out)
    ensures |w| <= BuffSize
    ensures |w| > 0 <==> Attempts(out, a) && a.written > 0
    ensures Attempts(out, a) && a.written > 0 ==> |w| == a.written
  {
    if Attempts(out, a) && a.written > 0 then out[..a.written] else []
  }

  /**
    `writeOutgoingBufferToStream`: one write attempt of at most one chunk.
    Nothing happens when the buffer is empty or the stream has no space; a positive
    count removes exactly that many bytes from the head of the buffer; a count of
    zero or less closes the output stream and posts a termination without an error.
   */
  function WriteOutgoingBuffer(s: Engine, a: WriteAnswer): (r: Engine)
    requires AnswerFits(s.outgoing, a)
    ensures !Attempts(s.outgoing, a) ==> r == s
    ensures Attempts(s.outgoing, a) && a.written > 0 ==>
      && r.outgoing == s.outgoing[a.written..]
      && |r.outgoing| == |s.outgoing| - a.written
      && r.(outgoing := s.outgoing) == s
    ensures Attempts(s.outgoing, a) && a.written <= 0 ==>
      && r.outgoing == s.outgoing
      && r.outputClosed
      && r.log == s.log + [Terminated(None)]
      && r.(outputClosed := s.outputClosed, log := s.log) == s
    ensures Accepted(s.outgoing, a) + r.outgoing == s.outgoing
    ensures r.incoming == s.incoming && r.inputClosed == s.inputClosed
  {
    if |s.outgoing| == 0 then
      s
    else if a.hasSpace then
      if a.written > 0 then
        s.(outgoing := s.outgoing[a.written..])
      else
        s.(outputClosed := true, log := s.log + [Terminated(None)])
    else
      s
  }

  /** What a write attempt leads to when the code's own request is used. */
  datatype WriteOutcome = Written(engine: Engine) | RangeFault

  /**
    `writeOutgoingBufferToStream` exactly as written: the stream may report up to
    `BuffSize` bytes written whatever was copied, and removing a range that runs
    past the end of the buffer raises a range exception.
   */
  function WriteOutgoingBufferAsWritten(s: Engine, a: WriteAnswer): (o: WriteOutcome)
    requires Attempts(s.outgoing, a) ==> WithinMaxLength(RequestAsWritten(s.outgoing), a.written)
    ensures o.RangeFault? <==> Attempts(s.outgoing, a) && a.written > |s.outgoing|
  {
    if |s.outgoing| == 0 then
      Written(s)
    else if a.hasSpace then
      if a.written > 0 then
        if a.written <= |s.outgoing| then Written(s.(outgoing := s.outgoing[a.written..]))
        else RangeFault
      else
        Written(s.(outputClosed := true, log := s.log + [Terminated(None)]))
    else
      Written(s)
  }

  /**
    `sendNetworkPacket`: append to the outgoing buffer, then make one write attempt.
    Earlier queued bytes keep their place ahead of the new ones.
   */
  function SendNetworkPacket(s: Engine, data: seq<byte>, a: WriteAnswer): (r: Engine)
    requires AnswerFits(s.outgoing + data, a)
    ensures Accepted(s.outgoing + data, a) + r.outgoing == s.outgoing + data
    ensures !a.hasSpace ==> r.outgoing == s.outgoing + data && r.log == s.log
    ensures |Accepted(s.outgoing + data, a)| <= BuffSize
    ensures r.incoming == s.incoming && r.inputClosed == s.inputClosed
    ensures Attempts(s.outgoing + data, a) && a.written <= 0 ==>
              r.outgoing == s.outgoing + data && r.outputClosed && r.log == s.log + [Terminated(None)]
    ensures !(Attempts(s.outgoing + data, a) && a.written <= 0) ==>
              r.outputClosed == s.outputClosed && r.log == s.log
  {
    WriteOutgoingBuffer(s.(outgoing := s.outgoing + data), a)
  }

  // ---------------------------------------------------------------------------
  // Incoming path
  // ---------------------------------------------------------------------------

  /** The input stream's contract: it fills a `BuffSize` scratch buffer and reports at most `BuffSize` bytes. */
  predicate ReadFits(a: ReadAnswer) {
    |a.scratch| == BuffSize && a.count <= BuffSize
  }

  /**
    The bytes one read delivered: the filled head of the scratch buffer, nothing
    when the count is not positive (or, for an answer breaking the read contract,
    runs past the scratch buffer).
   */
  function ReadData(a: ReadAnswer): (d: seq<byte>)
    ensures ReadFits(a) ==> |d| == if a.count > 0 then a.count else 0
    ensures d <= a.scratch
  {
    if 0 < a.count <= |a.scratch| then a.scratch[..a.count] else []
  }

  /**
    The `HasBytesAvailable` branch: a positive read appends its bytes to the incoming
    buffer and posts progress `(count, new total)` followed by the bytes; a read of
    zero or less empties the incoming buffer and posts a termination without an error.
   */
  function ReadIncoming(s: Engine, a: ReadAnswer): (r: Engine)
    requires ReadFits(a)
    ensures a.count > 0 ==>
      && r.incoming == s.incoming + ReadData(a)
      && |r.incoming| == |s.incoming| + a.count
      && r.log == s.log + [ReadProgress(a.count, |r.incoming|), ReceivedData(ReadData(a))]
    ensures a.count <= 0 ==> r.incoming == [] && r.log == s.log + [Terminated(None)]
    ensures r.(incoming := s.incoming, log := s.log) == s
  {
    if a.count > 0 then
      var data := a.scratch[..a.count];
      var total := s.incoming + data;
      s.(incoming := total, log := s.log + [ReadProgress(a.count, |total|), ReceivedData(data)])
    else
      s.(incoming := [], log := s.log + [Terminated(None)])
  }

  // ---------------------------------------------------------------------------
  // Event dispatch
  // ---------------------------------------------------------------------------

  predicate IsClosed(s: Engine, side: Side) {
    match side
    case Input => s.inputClosed
    case Output => s.outputClosed
  }

  /** `closeStream`: closes the stream; the engine's reference to it stays set. */
  function CloseStream(s: Engine, side: Side): (r: Engine)
    ensures IsClosed(r, side)
    ensures forall other: Side :: other != side ==> IsClosed(r, other) == IsClosed(s, other)
    ensures r.incoming == s.incoming && r.outgoing == s.outgoing && r.log == s.log
  {
    match side
    case Input => s.(inputClosed := true)
    case Output => s.(outputClosed := true)
  }

  /** The streams' answers carried by an event respect their contracts. */
  predicate EventFits(s: Engine, ev: StreamEvent) {
    match ev
    case HasBytesAvailable(a) => ReadFits(a)
    case HasSpaceAvailable(a) => AnswerFits(s.outgoing, a)
    case _ => true
  }

  /**
    `stream(_:handleEvent:)`. Reads always go to the input stream and writes to the
    output stream, whichever stream signalled; end and error close the signalling
    stream and post a termination (the error one carrying that stream's error);
    every other event changes nothing. No event is ignored after a termination.
   */
  function HandleEvent(s: Engine, side: Side, ev: StreamEvent): (r: Engine)
    requires EventFits(s, ev)
    ensures ev.OpenCompleted? || ev.OtherEvent? ==> r == s
    ensures ev.HasBytesAvailable? ==> r == ReadIncoming(s, ev.read)
    ensures ev.HasSpaceAvailable? ==> r == WriteOutgoingBuffer(s, ev.write)
    ensures ev.EndEncountered? ==>
      r.log == s.log + [Terminated(None)] && r == CloseStream(s, side).(log := r.log)
    ensures ev.ErrorOccurred? ==>
      r.log == s.log + [Terminated(ev.streamError)] && r == CloseStream(s, side).(log := r.log)
    ensures !ev.HasSpaceAvailable? ==> r.outgoing == s.outgoing
    ensures !ev.HasBytesAvailable? ==> r.incoming == s.incoming
    ensures s.log <= r.log
  {
    match ev
    case OpenCompleted => s
    case HasBytesAvailable(a) => ReadIncoming(s, a)
    case HasSpaceAvailable(a) => WriteOutgoingBuffer(s, a)
    case EndEncountered =>
      var c := CloseStream(s, side);
      c.(log := c.log + [Terminated(None)])
    case ErrorOccurred(e) =>
      var c := CloseStream(s, side);
      c.(log := c.log + [Terminated(e)])
    case OtherEvent(_) => s
  }

  // ---------------------------------------------------------------------------
  // The write-length discrepancy
  // ---------------------------------------------------------------------------

  /**
    With the request as written, an answer within `maxLength` can exceed what was
    copied: a 4-byte buffer, a stream with room, and a reported count of 5.
   */
  lemma AsWrittenOverrun()
    ensures var s := Connected.(outgoing := [1, 2, 3, 4]);
            var a := WriteAnswer(true, 5);
            && WithinMaxLength(RequestAsWritten(s.outgoing), a.written)
            && a.written > |RequestAsWritten(s.outgoing).copied|
            && !AnswerFits(s.outgoing, a)
            && WriteOutgoingBufferAsWritten(s, a) == RangeFault
  {
    var s := Connected.(outgoing := [1, 2, 3, 4]);
    assert Chunk(s.outgoing) == s.outgoing;
  }

  /**
    Whenever the stream keeps to the corrected request, the code as written and the
    corrected write attempt agree; so the two differ only on counts past the copy.
   */
  lemma AsWrittenAgreesWithinCopy(s: Engine, a: WriteAnswer)
    requires AnswerFits(s.outgoing, a)
    ensures Attempts(s.outgoing, a) ==> WithinMaxLength(RequestAsWritten(s.outgoing), a.written)
    ensures WriteOutgoingBufferAsWritten(s, a) == Written(WriteOutgoingBuffer(s, a))
  {
    if Attempts(s.outgoing, a) {
      assert a.written <= |Chunk(s.outgoing)| <= BuffSize;
    }
  }
}
