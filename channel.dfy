/**
 * The shared `message_t` slot and the two notification lines, as one object
 * stepped sequentially. SIGUSR2 (consumer to producer, "ready/ack") and
 * SIGUSR1 (producer to consumer, "data in slot") are both blocked in their
 * target process and collected with `sigwait`, so a raised signal stays
 * pending until it is consumed: each line is a pending flag.
 *
 * Who may touch the slot follows from the ghost log of raised signals: after
 * the producer has consumed the last "ready" it owns the slot, after the
 * consumer has consumed the last "data" it does. Writes require the
 * producer's ownership and reads the consumer's, so every caller that
 * verifies obeys the turn discipline.
 */
module Channel {
  import opened Protocol

  datatype Signal = Ready | Data

  /** The raised signals strictly alternate, starting with the consumer's "ready". */
  ghost predicate Alternating(log: seq<Signal>)
  {
    forall i :: 0 <= i < |log| ==> log[i] == (if i % 2 == 0 then Ready else Data)
  }

  class SharedChannel {
    /** the type code and the payload field of the slot */
    var kind: int
    var text: seq<char>
    /** SIGUSR2 pending at the producer */
    var readyPending: bool
    /** SIGUSR1 pending at the consumer */
    var dataPending: bool

    /** every signal raised so far, in order */
    ghost var signals: seq<Signal>
    /** the slot's value each time "data" was raised */
    ghost var sent: seq<Message>
    /** every value the consumer read */
    ghost var received: seq<Message>

    function Slot(): Message
      reads this
    {
      Message(kind, text)
    }

    /** The producer has consumed the last "ready" and not yet raised "data". */
    ghost predicate ProducerOwns()
      reads this
    {
      |signals| % 2 == 1 && !readyPending
    }

    /** The consumer has consumed the last "data" (or nothing was raised yet) and not yet raised "ready". */
    ghost predicate ConsumerOwns()
      reads this
    {
      |signals| % 2 == 0 && !dataPending
    }

    ghost predicate Valid()
      reads this
    {
      && |text| <= MAX_SIZE
      && Alternating(signals)
      && (readyPending ==> |signals| % 2 == 1)
      && (dataPending ==> |signals| % 2 == 0 && |signals| > 0)
      && |sent| == |signals| / 2
      // the consumer read every published value in order, and is at most one behind
      && |received| <= |sent| <= |received| + 1
      && received == sent[..|received|]
      && (|signals| % 2 == 1 ==> received == sent)
      && (dataPending ==> |received| < |sent|)
      // a published value stays in the slot until it has been read
      && (|received| < |sent| ==> Slot() == sent[|sent| - 1])
    }

    /** A freshly created segment is zero-filled; the consumer moves first. */
    constructor ()
      ensures Valid() && ConsumerOwns()
      ensures Slot() == Message(0, [])
      ensures !readyPending && !dataPending
      ensures signals == [] && sent == [] && received == []
    {
      kind, text := 0, [];
      readyPending, dataPending := false, false;
      signals, sent, received := [], [], [];
    }

    /** The producer's `sigwait` on SIGUSR2 returns. */
    method TakeReady()
      requires Valid() && readyPending
      modifies this
      ensures Valid() && ProducerOwns() && !dataPending
      ensures Slot() == old(Slot())
      ensures signals == old(signals) && sent == old(sent) && received == old(received)
      ensures received == sent
    {
      readyPending := false;
    }

    /** `message->type = k` */
    method WriteKind(k: int)
      requires Valid() && ProducerOwns()
      modifies this
      ensures Valid() && ProducerOwns()
      ensures Slot() == Message(k, old(text))
      ensures readyPending == old(readyPending) && dataPending == old(dataPending)
      ensures signals == old(signals) && sent == old(sent) && received == old(received)
    {
      kind := k;
    }

    /** The producer copies a payload into the slot; at most MAX_SIZE characters fit the field. */
    method WriteText(t: seq<char>)
      requires Valid() && ProducerOwns() && |t| <= MAX_SIZE
      modifies this
      ensures Valid() && ProducerOwns()
      ensures Slot() == Message(old(kind), t)
      ensures readyPending == old(readyPending) && dataPending == old(dataPending)
      ensures signals == old(signals) && sent == old(sent) && received == old(received)
    {
      text := t;
    }

    /** The producer raises SIGUSR1: the slot's value is published and the turn passes. */
    method RaiseData()
      requires Valid() && ProducerOwns()
      modifies this
      ensures old(!dataPending)   // the signal is never raised while still pending, so none is lost
      ensures Valid() && dataPending && !readyPending
      ensures Slot() == old(Slot())
      ensures signals == old(signals) + [Data]
      ensures sent == old(sent) + [Slot()] && received == old(received)
    {
      signals := signals + [Data];
      sent := sent + [Slot()];
      dataPending := true;
    }

    /** The consumer's `sigwait` on SIGUSR1 returns. */
    method TakeData()
      requires Valid() && dataPending
      modifies this
      ensures Valid() && ConsumerOwns() && !readyPending
      ensures Slot() == old(Slot())
      ensures signals == old(signals) && sent == old(sent) && received == old(received)
      ensures |received| < |sent|
    {
      dataPending := false;
    }

    /** The consumer reads the slot once per wake: it gets the last published value. */
    method Read() returns (m: Message)
      requires Valid() && ConsumerOwns() && |received| < |sent|
      modifies this
      ensures Valid() && ConsumerOwns()
      ensures signals == old(signals) && sent == old(sent) && received == old(received) + [m]
      ensures m == old(Slot()) && m == sent[|sent| - 1]
      ensures Slot() == old(Slot())
      ensures readyPending == old(readyPending) && dataPending == old(dataPending)
      ensures received == sent
    {
      m := Slot();
      received := received + [m];
    }

    /** The consumer raises SIGUSR2, only after the published value was read. */
    method RaiseReady()
      requires Valid() && ConsumerOwns() && received == sent
      modifies this
      ensures old(!readyPending)  // the signal is never raised while still pending, so none is lost
      ensures Valid() && readyPending && !dataPending
      ensures Slot() == old(Slot())
      ensures signals == old(signals) + [Ready]
      ensures sent == old(sent) && received == old(received)
    {
      signals := signals + [Ready];
      readyPending := true;
    }
  }

  /**
   * The turn discipline: the two sides never own the slot at once; when the
   * producer owns it (the only time it may write), the last signal was a
   * "ready" it has consumed and every published value has been read; when a
   * "data" signal is pending or the consumer owns the slot before reading,
   * the slot still holds the last published value.
   */
  lemma TurnDiscipline(ch: SharedChannel)
    requires ch.Valid()
    ensures !(ch.ProducerOwns() && ch.ConsumerOwns())
    ensures !(ch.readyPending && ch.dataPending)
    ensures ch.ProducerOwns() ==> ch.signals[|ch.signals| - 1] == Ready && ch.received == ch.sent
    ensures ch.dataPending ==> ch.signals[|ch.signals| - 1] == Data && ch.Slot() == ch.sent[|ch.sent| - 1]
  {
  }

  /**
   * On a consistent channel "ready" and "data" strictly alternate: no signal
   * follows one of its own kind, the log starts with the consumer's "ready",
   * and one value is published per "data".
   */
  lemma AlternatingNoRepeat(ch: SharedChannel, i: nat)
    requires ch.Valid() && i + 1 < |ch.signals|
    ensures ch.signals[i] != ch.signals[i + 1]
    ensures ch.signals[0] == Ready
    ensures |ch.sent| == |ch.signals| / 2
  {
    assert ch.signals[i] == (if i % 2 == 0 then Ready else Data);
    assert ch.signals[i + 1] == (if (i + 1) % 2 == 0 then Ready else Data);
    assert ch.signals[0] == Ready;
  }
}
