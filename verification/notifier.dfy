/**
  Delivery of posted notifications to the consumer's optional callbacks. The engine
  posts every notification; on the main queue each one reaches the consumer only if
  the matching callback is set, and an unset callback is simply skipped.
 */
module Notifier {
  import opened SocketEngine

  /** Which of the three optional callbacks are set. */
  datatype Handlers = Handlers(readingProgress: bool, receivedNetworkData: bool, terminated: bool)

  const AllSet: Handlers := Handlers(true, true, true)

  predicate Handles(h: Handlers, n: Notification) {
    match n
    case ReadProgress(_, _) => h.readingProgress
    case ReceivedData(_) => h.receivedNetworkData
    case Terminated(_) => h.terminated
  }

  /** The callback invocations the consumer observes for a posted log, in posting order. */
  function Delivered(h: Handlers, log: seq<Notification>): (d: seq<Notification>)
    ensures |d| <= |log|
    ensures forall n :: n in d <==> n in log && Handles(h, n)
    decreases |log|
  {
    if |log| == 0 then []
    else
      var front := Delivered(h, Init(log));
      assert log == Init(log) + [Last(log)];
      if Handles(h, Last(log)) then front + [Last(log)] else front
  }

  /** Posting one more notification delivers it after the earlier ones exactly when its callback is set. */
  lemma DeliveredSnoc(h: Handlers, log: seq<Notification>, n: Notification)
    ensures Delivered(h, log + [n]) == Delivered(h, log) + (if Handles(h, n) then [n] else [])
  {
    assert Init(log + [n]) == log && Last(log + [n]) == n;
  }

  /** Delivery preserves posting order across any split of the log. */
  lemma {:induction false} DeliveredAppend(h: Handlers, a: seq<Notification>, b: seq<Notification>)
    ensures Delivered(h, a + b) == Delivered(h, a) + Delivered(h, b)
    decreases |b|
  {
    if |b| == 0 {
      assert a + b == a;
    } else {
      var b', n := Init(b), Last(b);
      assert b == b' + [n];
      assert a + b == (a + b') + [n];
      DeliveredAppend(h, a, b');
      DeliveredSnoc(h, a + b', n);
      DeliveredSnoc(h, b', n);
      var tail := if Handles(h, n) then [n] else [];
      assert Delivered(h, a) + Delivered(h, b') + tail == Delivered(h, a) + (Delivered(h, b') + tail);
    }
  }

  /** With every callback set, the consumer sees exactly what was posted. */
  lemma {:induction false} AllSetSeesEverything(log: seq<Notification>)
    ensures Delivered(AllSet, log) == log
    decreases |log|
  {
    if |log| > 0 {
      AllSetSeesEverything(Init(log));
      assert log == Init(log) + [Last(log)];
    }
  }
}
