/**
 * The consumer process (SPOVM_Lab3/client/main.cpp:86-112): each pass of
 * its loop raises "ready", blocks until "data", reads the slot once,
 * dispatches on the type code and either draws the payload and repeats or,
 * on MSG_TYPE_FINISH, draws the shutdown notice and exits.
 *
 * In the sequential model the loop is resumed once per "data" signal:
 * `Start` is the first raise of "ready", `Wake` is everything from the
 * return of `sigwait` to the next raise of "ready" (or to the exit).
 */
module Client {
  import opened Protocol
  import opened Reassembler
  import opened Channel

  class Consumer {
    /** the process has exited (after MSG_TYPE_FINISH) */
    var exited: bool
    /** the windows drawn so far, one per wake */
    var screens: seq<Screen>

    /**
     * The consumer attached to the channel: it has drawn exactly one window
     * per value it read, it has exited exactly when the last value read was
     * FINISH, and once exited it keeps the slot forever, so nothing can be
     * written after FINISH.
     */
    ghost predicate Attached(ch: SharedChannel)
      reads this, ch
    {
      && ch.Valid()
      && screens == Views(ch.received)
      && (exited <==> (|ch.received| > 0 && ch.received[|ch.received| - 1].kind == MSG_TYPE_FINISH))
      && (exited ==> ch.ConsumerOwns() && ch.received == ch.sent)
    }

    constructor ()
      ensures !exited && screens == []
    {
      exited, screens := false, [];
    }

    /** The first raise of SIGUSR2, at the top of the loop's first pass. */
    method Start(ch: SharedChannel)
      requires Attached(ch) && !exited && ch.ConsumerOwns() && ch.received == ch.sent
      modifies ch
      ensures Attached(ch) && ch.readyPending
      ensures ch.sent == old(ch.sent) && ch.received == old(ch.received) && ch.Slot() == old(ch.Slot())
    {
      ch.RaiseReady();
    }

    /**
     * `sigwait` returns: read the slot once, draw the window for it, and
     * either exit (FINISH) or raise "ready" again at the top of the loop.
     */
    method Wake(ch: SharedChannel)
      requires Attached(ch) && !exited && ch.dataPending
      modifies this, ch
      ensures Attached(ch)
      ensures ch.sent == old(ch.sent) && ch.received == ch.sent && ch.Slot() == old(ch.Slot())
      ensures screens == old(screens) + [View(old(ch.Slot()))]
      ensures exited <==> old(ch.kind) == MSG_TYPE_FINISH
      ensures exited ==> !ch.readyPending && !ch.dataPending
      ensures !exited ==> ch.readyPending
    {
      ch.TakeData();
      var m := ch.Read();
      var caption: Option<string>;
      if m.kind == MSG_TYPE_STRING {
        caption := Some(LABEL_STRING);
      } else if m.kind == MSG_TYPE_CONTINUE {
        caption := Some(LABEL_CONTINUE);
      } else if m.kind == MSG_TYPE_FINISH {
        screens := screens + [Screen(Some(LABEL_FINISH), None)];
        exited := true;
        assert ch.received == old(ch.received) + [m];
        return;
      } else {
        caption := None;  // unknown code: no label, the payload is still drawn
      }
      screens := screens + [Screen(caption, Some(m.text))];
      assert ch.received == old(ch.received) + [m];
      ch.RaiseReady();
    }
  }
}
