/**
  Runs of the engine: a sequence of operations (packets sent by the consumer and
  events signalled by the streams) applied in order from a starting state, and the
  properties that hold across a whole run.
 */
module EngineTraces {
  import opened SocketEngine

  /** One thing that happens to the engine. */
  datatype Op =
    | Send(data: seq<byte>, answer: WriteAnswer)
    | Signal(stream: Side, event: StreamEvent)

  lemma {:induction false} ConcatAssoc<T>(a: seq<T>, b: seq<T>, c: seq<T>)
    ensures (a + b) + c == a + (b + c)
  {
  }

  /** The streams' answers carried by `op` respect their contracts in state `s`. */
  predicate OpFits(s: Engine, op: Op) {
    match op
    case Send(d, a) => AnswerFits(s.outgoing + d, a)
    case Signal(_, ev) => EventFits(s, ev)
  }

  /** The bytes the consumer queues with `op`. */
  function SentBy(op: Op): seq<byte> {
    if op.Send? then op.data else []
  }

  /** The read `op` makes, if it makes one. */
  function ReadOf(op: Op): Option<ReadAnswer> {
    if op.Signal? && op.event.HasBytesAvailable? then Some(op.event.read) else None
  }

  /** The bytes the output stream accepts while `op` is handled in state `s`. */
  function StepAccepted(s: Engine, op: Op): (w: seq<byte>)
    requires OpFits(s, op)
    ensures |w| <= BuffSize
  {
    match op
    case Send(d, a) => Accepted(s.outgoing + d, a)
    case Signal(_, ev) =>
      if ev.HasSpaceAvailable? then Accepted(s.outgoing, ev.write) else []
  }

  /** The state after `op` is handled in state `s`. */
  function Step(s: Engine, op: Op): Engine
    requires OpFits(s, op)
  {
    match op
    case Send(d, a) => SendNetworkPacket(s, d, a)
    case Signal(side, ev) => HandleEvent(s, side, ev)
  }

  /**
    What one step keeps: the accepted bytes followed by the new outgoing buffer are
    the old buffer followed by the bytes sent, the log only grows, and the incoming
    buffer changes only through a read.
   */
  lemma StepFacts(s: Engine, op: Op)
    requires OpFits(s, op)
    ensures StepAccepted(s, op) + Step(s, op).outgoing == s.outgoing + SentBy(op)
    ensures s.log <= Step(s, op).log
    ensures ReadOf(op).None? ==> Step(s, op).incoming == s.incoming
    ensures ReadOf(op).Some? ==> Step(s, op) == ReadIncoming(s, ReadOf(op).value)
  {
  }

  /** The run of `ops` from `s`, or `None` when some stream answer breaks its contract. */
  function RunChecked(s: Engine, ops: seq<Op>): Option<Engine>
    decreases |ops|
  {
    if |ops| == 0 then Some(s)
    else
      match RunChecked(s, Init(ops))
      case None => None
      case Some(t) => if OpFits(t, Last(ops)) then Some(Step(t, Last(ops))) else None
  }

  predicate Admissible(s: Engine, ops: seq<Op>) {
    RunChecked(s, ops).Some?
  }

  function Run(s: Engine, ops: seq<Op>): Engine
    requires Admissible(s, ops)
  {
    RunChecked(s, ops).value
  }

  /** Unfolds a non-empty run into its prefix and its last step. */
  lemma {:induction false} RunLast(s: Engine, ops: seq<Op>)
    requires |ops| > 0 && Admissible(s, ops)
    ensures Admissible(s, Init(ops))
    ensures OpFits(Run(s, Init(ops)), Last(ops))
    ensures Run(s, ops) == Step(Run(s, Init(ops)), Last(ops))
  {
  }

  /** Extends an admissible run by one step. */
  lemma {:induction false} RunSnoc(s: Engine, ops: seq<Op>, op: Op)
    requires Admissible(s, ops) && OpFits(Run(s, ops), op)
    ensures Admissible(s, ops + [op])
    ensures Run(s, ops + [op]) == Step(Run(s, ops), op)
  {
    assert Init(ops + [op]) == ops && Last(ops + [op]) == op;
  }

  // ---------------------------------------------------------------------------
  // Outgoing: FIFO, nothing lost, nothing duplicated
  // ---------------------------------------------------------------------------

  /** Everything the consumer queued during `ops`, in call order. */
  function Sent(ops: seq<Op>): seq<byte>
    decreases |ops|
  {
    if |ops| == 0 then [] else Sent(Init(ops)) + SentBy(Last(ops))
  }

  /** Everything the output stream accepted during the run, in order. */
  function Transmitted(s: Engine, ops: seq<Op>): seq<byte>
    requires Admissible(s, ops)
    decreases |ops|
  {
    if |ops| == 0 then []
    else
      RunLast(s, ops);
      Transmitted(s, Init(ops)) + StepAccepted(Run(s, Init(ops)), Last(ops))
  }

  /**
    The bytes handed to the stream followed by the bytes still queued are exactly
    the bytes queued before the run followed by all bytes sent during it: the
    outgoing buffer drains in FIFO order and never keeps a byte already written.
   */
  lemma {:induction false} OutgoingConservation(s: Engine, ops: seq<Op>)
    requires Admissible(s, ops)
    ensures Transmitted(s, ops) + Run(s, ops).outgoing == s.outgoing + Sent(ops)
    decreases |ops|
  {
    if |ops| > 0 {
      RunLast(s, ops);
      var t := Run(s, Init(ops));
      var op := Last(ops);
      OutgoingConservation(s, Init(ops));
      var before := Transmitted(s, Init(ops));
      var w := StepAccepted(t, op);
      var r := Step(t, op);
      StepFacts(t, op);
      assert Transmitted(s, ops) == before + w;
      assert w + r.outgoing == t.outgoing + SentBy(op);
      assert Sent(ops) == Sent(Init(ops)) + SentBy(op);
      assert before + t.outgoing == s.outgoing + Sent(Init(ops));
      ConcatAssoc(before, w, r.outgoing);
      ConcatAssoc(before, t.outgoing, SentBy(op));
      ConcatAssoc(s.outgoing, Sent(Init(ops)), SentBy(op));
    }
  }

  /** Once the buffer is empty again, the peer has been handed every queued byte, in order. */
  lemma {:induction false} DrainedMeansDelivered(s: Engine, ops: seq<Op>)
    requires Admissible(s, ops) && Run(s, ops).outgoing == []
    ensures Transmitted(s, ops) == s.outgoing + Sent(ops)
  {
    OutgoingConservation(s, ops);
  }

  /** True when every step of `ops` writes nothing: each packet is queued while the stream has no space. */
  predicate QueuesOnly(ops: seq<Op>) {
    forall i :: 0 <= i < |ops| ==> ops[i].Send? && !ops[i].answer.hasSpace
  }

  /** Packets sent before the stream has space accumulate as their concatenation, in call order. */
  lemma {:induction false} QueuedSendsConcatenate(s: Engine, ops: seq<Op>)
    requires QueuesOnly(ops)
    ensures Admissible(s, ops)
    ensures Run(s, ops).outgoing == s.outgoing + Sent(ops)
    ensures Run(s, ops).log == s.log
    decreases |ops|
  {
    if |ops| > 0 {
      assert QueuesOnly(Init(ops));
      QueuedSendsConcatenate(s, Init(ops));
      var t := Run(s, Init(ops));
      assert OpFits(t, Last(ops));
      assert (s.outgoing + Sent(Init(ops))) + Last(ops).data == s.outgoing + Sent(ops);
    }
  }

  // ---------------------------------------------------------------------------
  // Incoming: the buffer holds the reads since the last reset
  // ---------------------------------------------------------------------------

  /** The reads made during `ops`, in order. */
  function ReadsOf(ops: seq<Op>): (rs: seq<ReadAnswer>)
    decreases |ops|
  {
    if |ops| == 0 then []
    else
      match ReadOf(Last(ops))
      case None => ReadsOf(Init(ops))
      case Some(a) => ReadsOf(Init(ops)) + [a]
  }

  predicate AllReadsFit(rs: seq<ReadAnswer>) {
    forall i :: 0 <= i < |rs| ==> ReadFits(rs[i])
  }

  /** Index of the last read of zero or less (a reset), or -1 when there is none. */
  function LastReset(rs: seq<ReadAnswer>): (k: int)
    ensures -1 <= k < |rs|
    ensures k >= 0 ==> rs[k].count <= 0
    ensures forall i :: k < i < |rs| ==> rs[i].count > 0
    decreases |rs|
  {
    if |rs| == 0 then -1
    else if Last(rs).count <= 0 then |rs| - 1
    else LastReset(Init(rs))
  }

  /** The bytes delivered by the positive reads of `rs`, concatenated in order. */
  function Payload(rs: seq<ReadAnswer>): seq<byte>
    decreases |rs|
  {
    if |rs| == 0 then [] else Payload(Init(rs)) + ReadData(Last(rs))
  }

  /** The sum of the positive read counts of `rs`. */
  function PositiveTotal(rs: seq<ReadAnswer>): nat
    decreases |rs|
  {
    if |rs| == 0 then 0
    else PositiveTotal(Init(rs)) + (if Last(rs).count > 0 then Last(rs).count else 0)
  }

  lemma {:induction false} PayloadLength(rs: seq<ReadAnswer>)
    requires AllReadsFit(rs)
    ensures |Payload(rs)| == PositiveTotal(rs)
    decreases |rs|
  {
    if |rs| > 0 {
      PayloadLength(Init(rs));
    }
  }

  /**
    What the incoming buffer should hold after reads `rs` starting from `base`:
    the data of every read after the last reset, on top of `base` if there was none.
   */
  function ExpectedIncoming(base: seq<byte>, rs: seq<ReadAnswer>): seq<byte>
  {
    var k := LastReset(rs);
    if k < 0 then base + Payload(rs) else Payload(rs[k + 1..])
  }

  lemma {:induction false} ReadsFitInRun(s: Engine, ops: seq<Op>)
    requires Admissible(s, ops)
    ensures AllReadsFit(ReadsOf(ops))
    decreases |ops|
  {
    if |ops| > 0 {
      RunLast(s, ops);
      ReadsFitInRun(s, Init(ops));
    }
  }

  /** A positive last read extends what the buffer should hold by exactly its data. */
  lemma {:induction false} ExpectedAfterPositiveRead(base: seq<byte>, rs: seq<ReadAnswer>)
    requires |rs| > 0 && Last(rs).count > 0
    ensures ExpectedIncoming(base, rs) == ExpectedIncoming(base, Init(rs)) + ReadData(Last(rs))
  {
    var k := LastReset(Init(rs));
    assert LastReset(rs) == k;
    if k >= 0 {
      var tail := rs[k + 1..];
      assert Init(tail) == Init(rs)[k + 1..];
      assert Last(tail) == Last(rs);
    } else {
      ConcatAssoc(base, Payload(Init(rs)), ReadData(Last(rs)));
    }
  }

  /** A last read of zero or less means the buffer should hold nothing. */
  lemma {:induction false} ExpectedAfterReset(base: seq<byte>, rs: seq<ReadAnswer>)
    requires |rs| > 0 && Last(rs).count <= 0
    ensures ExpectedIncoming(base, rs) == []
  {
    assert LastReset(rs) == |rs| - 1;
    assert rs[|rs|..] == [];
  }

  /** One read moves the incoming buffer from the expected contents for `Init(rs)` to those for `rs`. */
  lemma {:induction false} IncomingReadStep(t: Engine, base: seq<byte>, rs: seq<ReadAnswer>)
    requires |rs| > 0 && ReadFits(Last(rs))
    requires t.incoming == ExpectedIncoming(base, Init(rs))
    ensures ReadIncoming(t, Last(rs)).incoming == ExpectedIncoming(base, rs)
  {
    if Last(rs).count > 0 {
      ExpectedAfterPositiveRead(base, rs);
    } else {
      ExpectedAfterReset(base, rs);
    }
  }

  /** The incoming buffer after any run is the data of the reads since the last reset. */
  lemma {:induction false} IncomingSinceLastReset(s: Engine, ops: seq<Op>)
    requires Admissible(s, ops)
    ensures Run(s, ops).incoming == ExpectedIncoming(s.incoming, ReadsOf(ops))
    decreases |ops|
  {
    if |ops| > 0 {
      RunLast(s, ops);
      IncomingSinceLastReset(s, Init(ops));
      var t := Run(s, Init(ops));
      var rs := ReadsOf(Init(ops));
      match ReadOf(Last(ops))
      case None =>
        assert ReadsOf(ops) == rs;
      case Some(a) =>
        var rs' := ReadsOf(ops);
        assert |rs'| > 0 && Init(rs') == rs && Last(rs') == a;
        IncomingReadStep(t, s.incoming, rs');
    }
  }

  lemma {:induction false} ExpectedLength(base: seq<byte>, rs: seq<ReadAnswer>)
    requires AllReadsFit(rs)
    ensures var k := LastReset(rs);
            |ExpectedIncoming(base, rs)| ==
              if k < 0 then |base| + PositiveTotal(rs) else PositiveTotal(rs[k + 1..])
  {
    var k := LastReset(rs);
    if k < 0 {
      PayloadLength(rs);
      assert ExpectedIncoming(base, rs) == base + Payload(rs);
    } else {
      var tail := rs[k + 1..];
      assert AllReadsFit(tail);
      PayloadLength(tail);
      assert ExpectedIncoming(base, rs) == Payload(tail);
    }
  }

  /**
    The incoming length equals the sum of the positive read counts since the last
    reset (plus the starting length when no reset happened).
   */
  lemma {:induction false} IncomingLengthIsReadTotal(s: Engine, ops: seq<Op>)
    requires Admissible(s, ops)
    ensures var rs := ReadsOf(ops);
            var k := LastReset(rs);
            |Run(s, ops).incoming| ==
              if k < 0 then |s.incoming| + PositiveTotal(rs) else PositiveTotal(rs[k + 1..])
  {
    IncomingSinceLastReset(s, ops);
    ReadsFitInRun(s, ops);
    ExpectedLength(s.incoming, ReadsOf(ops));
  }

  // ---------------------------------------------------------------------------
  // The notification log
  // ---------------------------------------------------------------------------

  /** The log only grows: every run keeps what was posted before it. */
  lemma {:induction false} LogGrows(s: Engine, ops: seq<Op>)
    requires Admissible(s, ops)
    ensures s.log <= Run(s, ops).log
    decreases |ops|
  {
    if |ops| > 0 {
      RunLast(s, ops);
      LogGrows(s, Init(ops));
    }
  }

  /**
    The running total a consumer computes from the log: add each `bytesReading`
    and restart from zero at each termination.
   */
  function Tally(base: nat, log: seq<Notification>): nat
    decreases |log|
  {
    if |log| == 0 then base
    else
      match Last(log)
      case ReadProgress(n, _) => Tally(base, Init(log)) + n
      case ReceivedData(_) => Tally(base, Init(log))
      case Terminated(_) => 0
  }

  /** Every progress report's total equals the consumer's running total at that report. */
  predicate TotalsAgree(base: nat, log: seq<Notification>) {
    forall i :: 0 <= i < |log| && log[i].ReadProgress? ==>
      log[i].totalBytesReading == Tally(base, log[..i + 1])
  }

  /**
    True when `op` can post a termination only by reading: it is neither an end nor
    an error event, and any write it makes finds no space or reports a positive count.
   */
  predicate TerminatesOnlyByRead(op: Op) {
    match op
    case Send(_, a) => !a.hasSpace || a.written > 0
    case Signal(_, ev) =>
      match ev
      case HasSpaceAvailable(a) => !a.hasSpace || a.written > 0
      case EndEncountered => false
      case ErrorOccurred(_) => false
      case _ => true
  }

  /** True when every termination posted during `ops` comes from a read of zero or less. */
  predicate ResetsOnlyByReads(ops: seq<Op>) {
    forall i :: 0 <= i < |ops| ==> TerminatesOnlyByRead(ops[i])
  }

  /** A step that does not read and cannot terminate posts nothing and leaves the incoming buffer alone. */
  lemma QuietStep(t: Engine, op: Op)
    requires OpFits(t, op) && TerminatesOnlyByRead(op) && ReadOf(op).None?
    ensures Step(t, op).log == t.log && Step(t, op).incoming == t.incoming
  {
  }

  /** Appending one entry keeps the totals in agreement when a progress entry carries the running total. */
  lemma {:induction false} TotalsAgreeSnoc(base: nat, log: seq<Notification>, n: Notification)
    requires TotalsAgree(base, log)
    requires n.ReadProgress? ==> n.totalBytesReading == Tally(base, log + [n])
    ensures TotalsAgree(base, log + [n])
  {
    var log' := log + [n];
    forall i | 0 <= i < |log'| && log'[i].ReadProgress?
      ensures log'[i].totalBytesReading == Tally(base, log'[..i + 1])
    {
      if i < |log| {
        assert log'[..i + 1] == log[..i + 1];
      } else {
        assert log'[..i + 1] == log';
      }
    }
  }

  lemma {:induction false} TallySnoc(base: nat, log: seq<Notification>, n: Notification)
    ensures Tally(base, log + [n]) ==
      match n
      case ReadProgress(k, _) => Tally(base, log) + k
      case ReceivedData(_) => Tally(base, log)
      case Terminated(_) => 0
  {
    assert Init(log + [n]) == log && Last(log + [n]) == n;
  }

  /** One read keeps the reported totals in agreement with the consumer's running total and the incoming length. */
  lemma {:induction false} TallyReadStep(base: nat, before: seq<Notification>, t: Engine, a: ReadAnswer)
    requires ReadFits(a)
    requires TotalsAgree(base, before) && Tally(base, before) == |t.incoming|
    ensures t.log <= ReadIncoming(t, a).log
    ensures var r := ReadIncoming(t, a);
            var added := before + r.log[|t.log|..];
            TotalsAgree(base, added) && Tally(base, added) == |r.incoming|
  {
    var r := ReadIncoming(t, a);
    if a.count > 0 {
      var p := ReadProgress(a.count, |r.incoming|);
      var d := ReceivedData(ReadData(a));
      assert r.log[|t.log|..] == [p, d];
      TallySnoc(base, before, p);
      TotalsAgreeSnoc(base, before, p);
      TallySnoc(base, before + [p], d);
      TotalsAgreeSnoc(base, before + [p], d);
      assert before + [p, d] == (before + [p]) + [d];
    } else {
      var e := Terminated(None);
      assert r.log[|t.log|..] == [e];
      TallySnoc(base, before, e);
      TotalsAgreeSnoc(base, before, e);
    }
  }

  /**
    Across a run whose terminations all come from reads, each reported total is the
    sum of the reported per-read counts since the last termination, and that sum is
    the incoming length.
   */
  lemma {:induction false} ReportedTotalsAreSums(s: Engine, ops: seq<Op>)
    requires Admissible(s, ops) && ResetsOnlyByReads(ops)
    ensures s.log <= Run(s, ops).log
    ensures var added := Run(s, ops).log[|s.log|..];
            && TotalsAgree(|s.incoming|, added)
            && Tally(|s.incoming|, added) == |Run(s, ops).incoming|
    decreases |ops|
  {
    LogGrows(s, ops);
    if |ops| == 0 {
      assert Run(s, ops).log[|s.log|..] == [];
    } else {
      RunLast(s, ops);
      assert ResetsOnlyByReads(Init(ops));
      ReportedTotalsAreSums(s, Init(ops));
      var t := Run(s, Init(ops));
      var op := Last(ops);
      LogGrows(s, Init(ops));
      StepFacts(t, op);
      match ReadOf(op)
      case None =>
        QuietStep(t, op);
      case Some(a) =>
        TallyReadStep(|s.incoming|, t.log[|s.log|..], t, a);
        var r := ReadIncoming(t, a);
        assert r.log[|s.log|..] == t.log[|s.log|..] + r.log[|t.log|..];
    }
  }

  /** The number of terminations in a log. */
  function Terminations(log: seq<Notification>): nat
    decreases |log|
  {
    if |log| == 0 then 0 else Terminations(Init(log)) + (if Last(log).Terminated? then 1 else 0)
  }

  /** Appending one notification adds one to the count exactly when it is a termination. */
  lemma {:induction false} TerminationsSnoc(log: seq<Notification>, n: Notification)
    ensures Terminations(log + [n]) == Terminations(log) + (if n.Terminated? then 1 else 0)
  {
    assert Init(log + [n]) == log && Last(log + [n]) == n;
  }

  /**
    Termination is not idempotent: an end on one stream followed by an error on the
    other posts two terminations, whatever was posted before.
   */
  lemma {:induction false} TerminationsAccumulate(s: Engine, e: Option<StreamError>)
    ensures var ops := [Signal(Input, EndEncountered), Signal(Output, ErrorOccurred(e))];
            && Admissible(s, ops)
            && Run(s, ops).log == s.log + [Terminated(None), Terminated(e)]
            && Terminations(Run(s, ops).log) == Terminations(s.log) + 2
            && Run(s, ops).inputClosed && Run(s, ops).outputClosed
  {
    var first := Signal(Input, EndEncountered);
    var second := Signal(Output, ErrorOccurred(e));
    var s1 := HandleEvent(s, Input, EndEncountered);
    var s2 := HandleEvent(s1, Output, ErrorOccurred(e));
    assert s1.log == s.log + [Terminated(None)] && s1.inputClosed;
    assert s2.log == s1.log + [Terminated(e)] && s2.inputClosed && s2.outputClosed;
    RunSnoc(s, [], first);
    assert [] + [first] == [first];
    assert Run(s, [first]) == s1;
    RunSnoc(s, [first], second);
    assert [first] + [second] == [first, second];
    assert Run(s, [first, second]) == s2;
    TerminationsSnoc(s.log, Terminated(None));
    TerminationsSnoc(s1.log, Terminated(e));
    assert s.log + [Terminated(None)] + [Terminated(e)] == s.log + [Terminated(None), Terminated(e)];
  }
}
