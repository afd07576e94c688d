/**
  Concrete runs of the engine from a freshly connected state, each matching a
  behaviour the engine is expected to show.
 */
module EngineScenarios {
  import opened SocketEngine
  import opened EngineTraces

  /** "PING" as bytes. */
  const Ping: seq<byte> := [80, 73, 78, 71]

  /** A `BuffSize` scratch buffer whose head holds `data`. */
  function Scratch(data: seq<byte>): (b: seq<byte>)
    requires |data| <= BuffSize
    ensures |b| == BuffSize && b[..|data|] == data
  {
    data + seq(BuffSize - |data|, _ => 0)
  }

  /**
    An echo peer: "PING" is sent and fully written, then read back in one read;
    the consumer is told 4 bytes this read, 4 in total, then the 4 bytes.
   */
  lemma EchoPing()
    ensures var ops := [Send(Ping, WriteAnswer(true, 4)),
                        Signal(Input, HasBytesAvailable(ReadAnswer(4, Scratch(Ping))))];
            && Admissible(Connected, ops)
            && Run(Connected, ops).outgoing == []
            && Transmitted(Connected, ops) == Ping
            && Run(Connected, ops).incoming == Ping
            && Run(Connected, ops).log == [ReadProgress(4, 4), ReceivedData(Ping)]
  {
    var ops := [Send(Ping, WriteAnswer(true, 4)),
                Signal(Input, HasBytesAvailable(ReadAnswer(4, Scratch(Ping))))];
    assert Init(ops) == [ops[0]] && Init(Init(ops)) == [];
    var s1 := SendNetworkPacket(Connected, Ping, WriteAnswer(true, 4));
    assert Chunk(Ping) == Ping;
    assert s1.outgoing == [];
    assert RunChecked(Connected, Init(ops)) == Some(s1);
    var s2 := ReadIncoming(s1, ReadAnswer(4, Scratch(Ping)));
    assert ReadData(ReadAnswer(4, Scratch(Ping))) == Ping;
    assert RunChecked(Connected, ops) == Some(s2);
    OutgoingConservation(Connected, ops);
    assert Sent(Init(Init(ops))) == [];
    assert Sent(ops) == Ping;
  }

  /** The peer closes at once: the first read returns 0, so only a termination without an error is posted. */
  lemma PeerClosesImmediately()
    ensures var ops := [Signal(Input, OpenCompleted), Signal(Input, HasBytesAvailable(ReadAnswer(0, Scratch([]))))];
            && Admissible(Connected, ops)
            && Run(Connected, ops).log == [Terminated(None)]
            && Run(Connected, ops).incoming == []
  {
    var ops := [Signal(Input, OpenCompleted), Signal(Input, HasBytesAvailable(ReadAnswer(0, Scratch([]))))];
    assert Init(ops) == [ops[0]] && Init(Init(ops)) == [];
    assert RunChecked(Connected, Init(ops)) == Some(Connected);
  }

  const Queued: seq<Op> := [Send([65, 66], WriteAnswer(false, 0)), Send([67, 68], WriteAnswer(false, 0))]

  /** "AB" then "CD" sent while the stream has no space wait in the buffer as "ABCD". */
  lemma QueuedInOrder()
    ensures Admissible(Connected, Queued)
    ensures Sent(Queued) == [65, 66, 67, 68]
    ensures Run(Connected, Queued).outgoing == [65, 66, 67, 68]
  {
    assert QueuesOnly(Queued);
    QueuedSendsConcatenate(Connected, Queued);
    assert Init(Queued) == [Queued[0]] && Init(Init(Queued)) == [];
    assert Sent(Init(Queued)) == [65, 66];
  }

  /**
    After "AB" and "CD" have been queued, one write of all four bytes hands the
    peer "ABCD", and nothing remains queued.
   */
  lemma QueuedThenFlushed()
    ensures var ops := Queued + [Signal(Output, HasSpaceAvailable(WriteAnswer(true, 4)))];
            && Admissible(Connected, ops)
            && Transmitted(Connected, ops) == [65, 66, 67, 68]
            && Run(Connected, ops).outgoing == []
  {
    var flush := Signal(Output, HasSpaceAvailable(WriteAnswer(true, 4)));
    var ops := Queued + [flush];
    QueuedInOrder();
    var t := Run(Connected, Queued);
    assert Chunk(t.outgoing) == t.outgoing;
    RunSnoc(Connected, Queued, flush);
    OutgoingConservation(Connected, ops);
    assert Init(ops) == Queued && Last(ops) == flush;
    assert Sent(ops) == Sent(Queued);
  }

  /**
    An end event posts a termination but keeps the incoming buffer, so a later read
    reports a total that still counts the bytes read before the termination: after
    3 bytes, an end on the output stream and 2 more bytes, the report is (2, 5) while
    a consumer restarting its count at the termination has 2.
   */
  lemma TotalOutlivesTermination()
    ensures var ops := [Signal(Input, HasBytesAvailable(ReadAnswer(3, Scratch([1, 2, 3])))),
                        Signal(Output, EndEncountered),
                        Signal(Input, HasBytesAvailable(ReadAnswer(2, Scratch([4, 5]))))];
            && Admissible(Connected, ops)
            && Run(Connected, ops).incoming == [1, 2, 3, 4, 5]
            && Run(Connected, ops).log == [ReadProgress(3, 3), ReceivedData([1, 2, 3]), Terminated(None),
                                           ReadProgress(2, 5), ReceivedData([4, 5])]
            && !TotalsAgree(0, Run(Connected, ops).log)
  {
    var op1 := Signal(Input, HasBytesAvailable(ReadAnswer(3, Scratch([1, 2, 3]))));
    var op2 := Signal(Output, EndEncountered);
    var op3 := Signal(Input, HasBytesAvailable(ReadAnswer(2, Scratch([4, 5]))));
    assert ReadData(ReadAnswer(3, Scratch([1, 2, 3]))) == [1, 2, 3];
    assert ReadData(ReadAnswer(2, Scratch([4, 5]))) == [4, 5];
    var s1 := ReadIncoming(Connected, ReadAnswer(3, Scratch([1, 2, 3])));
    assert s1.incoming == [1, 2, 3] && s1.log == [ReadProgress(3, 3), ReceivedData([1, 2, 3])];
    var s2 := HandleEvent(s1, Output, EndEncountered);
    assert s2.incoming == s1.incoming && s2.log == s1.log + [Terminated(None)];
    var s3 := ReadIncoming(s2, ReadAnswer(2, Scratch([4, 5])));
    assert s3.incoming == [1, 2, 3, 4, 5];
    RunSnoc(Connected, [], op1);
    assert [] + [op1] == [op1];
    RunSnoc(Connected, [op1], op2);
    assert [op1] + [op2] == [op1, op2];
    RunSnoc(Connected, [op1, op2], op3);
    assert [op1, op2] + [op3] == [op1, op2, op3];
    var log := s3.log;
    assert log == [ReadProgress(3, 3), ReceivedData([1, 2, 3]), Terminated(None), ReadProgress(2, 5), ReceivedData([4, 5])];
    assert Init(log[..4]) == log[..3] && Last(log[..4]) == ReadProgress(2, 5);
    assert Init(log[..3]) == log[..2] && Last(log[..3]) == Terminated(None);
    assert Tally(0, log[..4]) == 2;
    assert log[3].ReadProgress? && log[3].totalBytesReading != Tally(0, log[..3 + 1]);
  }
}
