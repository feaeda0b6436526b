/**
 * The producer process (server/main.cpp:127-155): it waits for "ready",
 * takes one line of input into its staging buffer, and either publishes a
 * FINISH descriptor and waits for the consumer to exit, or sends the line
 * fragment by fragment, shifting the buffer left by MAX_SIZE characters in
 * place after every acknowledged CONTINUE piece.
 */
module Server {
  import opened Protocol
  import opened Fragmenter
  import opened Reassembler
  import opened Transcript
  import opened Channel
  import opened Client

  class Producer {
    /** the staging buffer, STAGING_SIZE characters */
    const buffer: array<char>
    /** the length of the staged line: the staged characters are buffer[..len] */
    var len: nat

    ghost predicate Valid()
      reads this
    {
      buffer.Length == STAGING_SIZE && len < STAGING_SIZE
    }

    /** The line currently staged in the buffer. */
    function Staged(): seq<char>
      reads this, buffer
      requires Valid()
    {
      buffer[..len]
    }

    constructor ()
      ensures Valid() && fresh(buffer) && Staged() == []
    {
      buffer := new char[STAGING_SIZE];
      len := 0;
    }

    /**
     * The prompt (`mvwgetstr`) delivers one line into the buffer. The
     * line must leave room for its terminator in the buffer.
     */
    method Load(input: string)
      requires Valid() && |input| < STAGING_SIZE
      modifies this, buffer
      ensures Valid() && Staged() == input
    {
      forall i | 0 <= i < |input| {
        buffer[i] := input[i];
      }
      len := |input|;
    }

    /** The `strcpy` at server/main.cpp:151: drop the piece just sent by moving the rest left, in place. */
    method Shift()
      requires Valid() && len > MAX_SIZE
      modifies this, buffer
      ensures Valid() && len == old(len) - MAX_SIZE
      ensures Staged() == old(Staged())[MAX_SIZE..]
    {
      var i := 0;
      while i < len - MAX_SIZE
        invariant 0 <= i <= len - MAX_SIZE
        invariant len == old(len)
        invariant buffer[..i] == old(buffer[MAX_SIZE..MAX_SIZE + i])
        invariant buffer[i..] == old(buffer[i..])
      {
        buffer[i] := buffer[i + MAX_SIZE];
        i := i + 1;
      }
      len := len - MAX_SIZE;
    }

    /**
     * The `sigwait` for SIGUSR2 (server/main.cpp:128 and 150): the
     * producer blocks, the consumer runs until it has raised "ready", and the
     * producer takes the signal and owns the slot.
     */
    method AwaitReady(ch: SharedChannel, client: Consumer)
      requires client.Attached(ch) && !client.exited
      requires ch.readyPending || (ch.dataPending && ch.kind != MSG_TYPE_FINISH)
      modifies ch, client
      ensures client.Attached(ch) && !client.exited && ch.ProducerOwns()
      ensures ch.sent == old(ch.sent) && ch.received == ch.sent && ch.Slot() == old(ch.Slot())
    {
      if ch.dataPending {
        client.Wake(ch);
      }
      ch.TakeReady();
    }

    /**
     * One pass of the loop at server/main.cpp:141-153: write STRING and the next
     * MAX_SIZE characters; a remainder of at most MAX_SIZE characters is
     * published as it is (`done`), a longer one is retagged CONTINUE,
     * published, acknowledged and shifted off the buffer.
     */
    method SendPiece(ch: SharedChannel, client: Consumer) returns (done: bool)
      requires Valid() && client.Attached(ch) && !client.exited && ch.ProducerOwns()
      modifies this, buffer, ch, client
      ensures Valid() && client.Attached(ch) && !client.exited
      ensures done <==> old(len) <= MAX_SIZE
      ensures done ==> ch.dataPending && ch.sent == old(ch.sent) + [Message(MSG_TYPE_STRING, old(Staged()))]
      ensures !done ==> ch.ProducerOwns()
      ensures !done ==> ch.sent == old(ch.sent) + [Message(MSG_TYPE_CONTINUE, old(Staged())[..MAX_SIZE])]
      ensures !done ==> Staged() == old(Staged())[MAX_SIZE..]
    {
      ch.WriteKind(MSG_TYPE_STRING);
      ch.WriteText(buffer[..Min(len, MAX_SIZE)]);
      if len <= MAX_SIZE {
        ch.RaiseData();
        return true;
      }
      assert ch.text == Staged()[..MAX_SIZE];
      ch.WriteKind(MSG_TYPE_CONTINUE);
      ch.RaiseData();
      AwaitReady(ch, client);
      Shift();
      return false;
    }

    /**
     * server/main.cpp:141-153: send the staged line piece by piece until the
     * remainder fits the slot. The descriptors published are exactly the
     * fragments of the staged line.
     */
    method SendString(ch: SharedChannel, client: Consumer)
      requires Valid() && client.Attached(ch) && !client.exited && ch.ProducerOwns()
      modifies this, buffer, ch, client
      ensures Valid()
      ensures client.Attached(ch) && !client.exited
      ensures ch.dataPending && ch.kind == MSG_TYPE_STRING
      ensures ch.sent == old(ch.sent) + Fragments(old(Staged()))
    {
      ghost var goal := ch.sent + Fragments(Staged());
      ghost var rest := Staged();
      while true
        invariant Valid() && rest == Staged()
        invariant client.Attached(ch) && !client.exited && ch.ProducerOwns()
        invariant ch.sent + Fragments(rest) == goal
        decreases len
      {
        var done := SendPiece(ch, client);
        if done {
          return;
        }
        LongMessage(rest);
        rest := Staged();
      }
    }

    /**
     * server/main.cpp:135-139: publish FINISH, leaving the payload field as it is, and
     * wait for the consumer to exit.
     */
    method SendFinish(ch: SharedChannel, client: Consumer)
      requires client.Attached(ch) && !client.exited && ch.ProducerOwns()
      modifies ch, client
      ensures client.Attached(ch) && client.exited
      ensures ch.sent == old(ch.sent) + [Message(MSG_TYPE_FINISH, old(ch.text))]
      ensures ch.received == ch.sent
    {
      ch.WriteKind(MSG_TYPE_FINISH);
      ch.RaiseData();
      client.Wake(ch);  // waitpid: the consumer runs until it exits
    }

    /**
     * server/main.cpp:132-154: take one line at the prompt and send it, or finish the
     * session if it is QUIT.
     */
    method Handle(ch: SharedChannel, client: Consumer, line: string) returns (quit: bool)
      requires Valid() && client.Attached(ch) && !client.exited && ch.ProducerOwns()
      requires |line| < STAGING_SIZE
      modifies this, buffer, ch, client
      ensures Valid() && client.Attached(ch)
      ensures quit <==> line == QUIT
      ensures quit <==> client.exited
      ensures quit ==> ch.sent == old(ch.sent) + [Message(MSG_TYPE_FINISH, old(ch.text))]
      ensures !quit ==> ch.sent == old(ch.sent) + Fragments(line)
      ensures !quit ==> ch.dataPending && ch.kind == MSG_TYPE_STRING && ch.text == ch.sent[|ch.sent| - 1].text
      ensures quit ==> ch.received == ch.sent
    {
      Load(line);
      if buffer[..len] == QUIT {
        SendFinish(ch, client);
        return true;
      }
      SendString(ch, client);
      return false;
    }

    /**
     * server/main.cpp:127-155: the session loop over the lines typed at the prompt.
     * It returns `true` after QUIT, once the consumer has exited, and `false`
     * when the input runs out, with the producer parked at the prompt and the
     * consumer having read everything.
     */
    method Run(ch: SharedChannel, client: Consumer, inputs: seq<string>) returns (quit: bool)
      requires Valid() && client.Attached(ch) && !client.exited && ch.readyPending
      requires forall i :: 0 <= i < |inputs| ==> |inputs[i]| < STAGING_SIZE
      modifies this, buffer, ch, client
      ensures client.Attached(ch)
      ensures ch.sent == old(ch.sent) + Stream(inputs, old(ch.text))
      ensures ch.received == ch.sent
      ensures quit <==> QUIT in inputs
      ensures quit <==> client.exited
      ensures !quit ==> ch.ProducerOwns()
    {
      var i := 0;
      while true
        invariant 0 <= i <= |inputs|
        invariant Valid() && client.Attached(ch) && !client.exited
        invariant ch.readyPending || (ch.dataPending && ch.kind != MSG_TYPE_FINISH)
        invariant ch.sent + Stream(inputs[i..], ch.text) == old(ch.sent) + Stream(inputs, old(ch.text))
        invariant QUIT !in inputs[..i]
        decreases |inputs| - i
      {
        AwaitReady(ch, client);
        if i == |inputs| {
          assert inputs[..i] == inputs;
          return false;
        }
        ghost var held := ch.text;
        ghost var before := ch.sent;
        quit := Handle(ch, client, inputs[i]);
        if quit {
          StreamAtQuit(inputs, i, held);
          return;
        }
        StreamAdvance(inputs, i, held, before, ch.sent, ch.text);
        i := i + 1;
      }
    }
  }

  /**
   * A whole session from process start: a zero-filled slot, the consumer's
   * first "ready", then the producer's loop over `inputs`. The consumer
   * draws one window per descriptor of the session's stream, and, if QUIT
   * was typed, has shut down.
   */
  method Session(inputs: seq<string>) returns (screens: seq<Screen>, quit: bool)
    requires forall i :: 0 <= i < |inputs| ==> |inputs[i]| < STAGING_SIZE
    ensures screens == Consume(Stream(inputs, []))
    ensures quit <==> QUIT in inputs
  {
    var ch := new SharedChannel();
    var client := new Consumer();
    client.Start(ch);
    var server := new Producer();
    quit := server.Run(ch, client, inputs);
    screens := client.screens;
    ConsumeStream(inputs, []);
  }
}
