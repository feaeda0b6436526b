# Stop-and-wait message passing over one shared slot

This project models the protocol that the two programs of the repository use
to exchange text lines: a producer (`server/main.cpp`) and a consumer
(`SPOVM_Lab3/client/main.cpp`) share one `message_t` slot (an integer type code
and a 30-character payload field) in System V shared memory and take turns on
it with two signals. The consumer raises SIGUSR2 ("ready / ack") and the
producer raises SIGUSR1 ("data in slot"). Each process blocks its incoming
signal and collects it with `sigwait`, so a raised signal stays pending until
it is consumed.

The producer reads a line into a 90-character staging buffer. The line `q`
publishes one `MSG_TYPE_FINISH` descriptor and ends the session. Any other
line is cut into 30-character pieces. Every piece but the last is tagged
`MSG_TYPE_CONTINUE` and is acknowledged before the buffer is shifted left
in place. The last piece, of 0 to 30 characters, is tagged `MSG_TYPE_STRING`.
The consumer raises "ready", waits for "data", reads the slot once and draws a
window: "Message:" or "Message(to be continued):" followed by the payload,
no label but the payload for an unknown code, or "Shutdown..." and exit for
FINISH.

Files and modules:

- `protocol.dfy` (`Protocol`): the type codes, `MAX_SIZE`, the staging size,
  the quit line, and the slot value `Message`.
- `fragmenter.dfy` (`Fragmenter`): the fragmentation rule as a pure function
  `Fragments`, with its round trip, its shape, the fact that it is the only
  well-formed fragmentation, the fragment count, the k-th fragment, and a
  cursor-based reading `FragmentsAt` proved equal to the shifting one.
- `reassembler.dfy` (`Reassembler`): what the consumer draws for a descriptor
  (`View`) and for a run of descriptors (`Consume`, which stops at FINISH).
  It also proves that the payload text shown for one message is the message.
- `transcript.dfy` (`Transcript`): the descriptors a whole session publishes
  (`Stream`), where FINISH can occur, that nothing after `q` is sent, and the
  end-to-end scenarios (a short message, 45 characters, the empty message, and
  shutdown after any messages).
- `channel.dfy` (`Channel`): class `SharedChannel`, which holds the slot, the
  two pending flags and ghost histories. These are the signals raised, the
  values published and the values read. Writes require that the producer owns
  the slot and reads require that the consumer owns it. Ownership follows from
  the parity of the signal history.
- `client.dfy` (`Client`): class `Consumer`, which steps the consumer loop
  against the shared channel.
- `server.dfy` (`Server`): class `Producer`, which holds the staging buffer as
  an `array<char>`. It has the in-place shift loop, the fragmentation loop, the
  session loop, and `Session`, which runs a whole session from process start.

Concurrency is modelled sequentially. Each process runs as one step from one
blocking `sigwait` to the next. This loses nothing, because every access of
either process to the shared slot lies between consuming a signal and raising
the next one. A producer `sigwait` is modelled as letting the consumer run its
pending wake (`Client.Consumer.Wake`) and then taking the "ready" signal. The
input lines typed at the prompt are a parameter (`inputs`), and what the
consumer draws is a log of `Screen` values.

Points of the code's behaviour that the model keeps as written:

- A line whose length is an exact multiple of 30 ends with a full STRING
  piece, not an empty one, because the loop tests whether at most 30
  characters remain (server/main.cpp:144). So 60 characters give
  CONTINUE(30) then STRING(30), and only the empty line sends an empty piece
  (`Fragmenter.FinalPieceEmpty`).
- FINISH rewrites only the type code and leaves the payload field as it was
  (server/main.cpp:135-139; `Server.Producer.SendFinish`, and the `held`
  argument of `Transcript.Stream`).
- No signal can be lost: both are blocked before use (server/main.cpp:71,
  SPOVM_Lab3/client/main.cpp:53) and collected with `sigwait`, and the model
  proves that neither is raised while it is still pending
  (`Channel.SharedChannel.RaiseData`, `Channel.SharedChannel.RaiseReady`).
- An unknown type code is drawn without a label and the loop carries on
  (SPOVM_Lab3/client/main.cpp:106-109).

## Model

| member | source | states |
|---|---|---|
| `Fragmenter.Fragments` | server/main.cpp:141-153 | every line, the empty one included, produces at least one descriptor |
| `Fragmenter.ShortMessage` | server/main.cpp:142-146 | a line of at most 30 characters is exactly one STRING descriptor carrying the whole line |
| `Fragmenter.LongMessage` | server/main.cpp:147-151 | a longer line first sends CONTINUE with its first 30 characters, then continues with the line minus those characters |
| `Fragmenter.RoundTrip` | server/main.cpp:141-153 | concatenating the payloads in send order gives back the line exactly |
| `Fragmenter.FragmentsWellFormed` | server/main.cpp:141-153 | every non-final descriptor is CONTINUE with exactly 30 characters; the final one is STRING with 0..30 characters, and it is non-empty after a CONTINUE |
| `Fragmenter.WellFormedUnique` | server/main.cpp:141-153 | any well-formed descriptor sequence whose payloads concatenate to the line is the producer's fragmentation of it |
| `Fragmenter.FragmentsCount` | server/main.cpp:144-151 | the number of descriptors is max(1, ceil(n / 30)) |
| `Fragmenter.FragmentAt` | server/main.cpp:143-151 | the k-th descriptor carries characters 30k up to min(30k + 30, n) of the line |
| `Fragmenter.FinalPieceEmpty` | server/main.cpp:144 | the final payload is empty exactly when the line is empty (no empty trailing piece for multiples of 30) |
| `Fragmenter.CursorAgrees` | server/main.cpp:143-151 | reading the line from a cursor offset yields the same descriptors as shifting the buffer |
| `Fragmenter.Boundaries` | server/main.cpp:144-151 | lengths 0, 30, 31 and 60 give STRING(0), STRING(30), CONTINUE(30)+STRING(1) and CONTINUE(30)+STRING(30) |
| `Reassembler.Label` | SPOVM_Lab3/client/main.cpp:92-107 | codes 0, 1 and 2, and no others, get a label; only FINISH gets "Shutdown..." |
| `Reassembler.View` | SPOVM_Lab3/client/main.cpp:92-109 | a window carries the label of the descriptor's code, and the payload for every code except FINISH, which shows none |
| `Reassembler.Consume` | SPOVM_Lab3/client/main.cpp:86-112 | the consumer draws one window per descriptor, in order, stopping right after the first FINISH (the `exit` at line 105); it stops early only there |
| `Reassembler.LabelIdentifiesKind` | SPOVM_Lab3/client/main.cpp:92-100 | the three labels are distinct, so a label determines its type code |
| `Reassembler.ConsumeNoFinish` | SPOVM_Lab3/client/main.cpp:86-112 | without FINISH the consumer draws one window per descriptor, in order |
| `Reassembler.ConsumeStopsAtFinish` | SPOVM_Lab3/client/main.cpp:99-105 | at the first FINISH the consumer draws "Shutdown..." without payload and reads nothing more |
| `Reassembler.ReassembleFragments` | SPOVM_Lab3/client/main.cpp:92-111 | the payload text drawn for one line's descriptors, concatenated, is the line |
| `Reassembler.FragmentLabels` | SPOVM_Lab3/client/main.cpp:93-98 | for one line every window but the last says "to be continued" with 30 characters, and the last says "Message:" |
| `Transcript.Stream` | server/main.cpp:127-155 | a session publishes something exactly when a line was typed; a first line `q` publishes one FINISH carrying the payload field untouched (any other line publishes `Fragments(line)` first, by `Transcript.StreamAdvance`) |
| `Transcript.StreamAdvance` | server/main.cpp:141-153 | after an ordinary line's descriptors are published, with the slot holding the last payload, the rest of the session's stream is unchanged |
| `Transcript.StreamAtQuit` | server/main.cpp:135-139 | the line `q` publishes one FINISH descriptor with the slot's payload untouched and ends the session |
| `Transcript.StreamFinish` | server/main.cpp:135-139 | FINISH is only ever the last descriptor of a session, and it is there exactly when `q` was typed |
| `Transcript.StreamStopsAtQuit` | server/main.cpp:135-139 | lines typed after `q` are never sent |
| `Transcript.ConsumeStream` | SPOVM_Lab3/client/main.cpp:86-112 | over a whole session the consumer draws exactly one window per published descriptor |
| `Transcript.StreamBounded` | server/main.cpp:143 | every payload written to the slot has at most 30 characters |
| `Transcript.ScenarioHello` | server/main.cpp:141-146 | "HELLO" is one STRING descriptor, drawn under "Message:" |
| `Transcript.ScenarioLong` | SPOVM_Lab3/client/main.cpp:93-98 | a 45-character line is drawn as "to be continued" with 30 characters, then "Message:" with 15 |
| `Transcript.ScenarioEmpty` | server/main.cpp:135-146 | the empty line is one empty STRING descriptor, not a FINISH |
| `Transcript.ScenarioShutdown` | SPOVM_Lab3/client/main.cpp:99-105 | after any messages, `q` makes the consumer draw "Shutdown..." exactly once, as its last window |
| `Channel.SharedChannel.constructor` | server/main.cpp:79-81 | a new segment is zero-filled, no signal is pending and the consumer moves first |
| `Channel.SharedChannel.TakeReady` | server/main.cpp:128 | consuming "ready" gives the producer the slot, and every published value has been read by then |
| `Channel.SharedChannel.WriteKind` | server/main.cpp:136-148 | only the producer, holding the turn, writes the type code; nothing else changes |
| `Channel.SharedChannel.WriteText` | server/main.cpp:143 | only the producer, holding the turn, writes at most 30 payload characters |
| `Channel.SharedChannel.RaiseData` | server/main.cpp:137-149 | "data" publishes the slot's value and passes the turn; it is never raised while still pending |
| `Channel.SharedChannel.TakeData` | SPOVM_Lab3/client/main.cpp:88 | consuming "data" gives the consumer the slot with one unread value in it |
| `Channel.SharedChannel.Read` | SPOVM_Lab3/client/main.cpp:92-109 | the consumer reads the slot once per wake and gets exactly the last published value |
| `Channel.SharedChannel.RaiseReady` | SPOVM_Lab3/client/main.cpp:87 | "ready" is raised only after the published value was read, and never while still pending |
| `Channel.TurnDiscipline` | server/main.cpp:128-150 | the two sides never own the slot together; the producer owns it only after consuming "ready" with everything read; while "data" is pending the slot holds the last published value |
| `Channel.AlternatingNoRepeat` | SPOVM_Lab3/client/main.cpp:86-88 | on a consistent channel "ready" and "data" strictly alternate, the consumer's "ready" comes first, and one value is published per "data" |
| `Client.Consumer.Start` | SPOVM_Lab3/client/main.cpp:87 | the consumer raises "ready" before it first blocks for "data" |
| `Client.Consumer.Wake` | SPOVM_Lab3/client/main.cpp:88-111 | one wake reads the slot once and draws View of it: STRING and CONTINUE with their label and payload, an unknown code with the payload only, FINISH with "Shutdown..." only; it exits exactly on FINISH and otherwise raises "ready" again |
| `Server.Producer.Load` | server/main.cpp:132 | the typed line, shorter than the 90-character buffer, becomes the staged content |
| `Server.Producer.Shift` | server/main.cpp:151 | shifting in place drops the first 30 staged characters and keeps the rest in order |
| `Server.Producer.AwaitReady` | server/main.cpp:128 | waiting for "ready" lets the consumer read the pending value, then gives the producer the slot |
| `Server.Producer.SendPiece` | server/main.cpp:142-151 | one pass publishes STRING with the whole remainder when it fits, or CONTINUE with its first 30 characters, then waits for the ack and shifts |
| `Server.Producer.SendString` | server/main.cpp:141-153 | the descriptors published for a staged line are exactly `Fragments` of it, ending with a pending STRING |
| `Server.Producer.SendFinish` | server/main.cpp:135-139 | `q` publishes one FINISH with the payload field untouched and the consumer exits |
| `Server.Producer.Handle` | server/main.cpp:132-154 | a typed line is sent as data unless it is `q`, which finishes the session |
| `Server.Producer.Run` | server/main.cpp:127-155 | the session publishes exactly `Stream(inputs)`, every published value is read, and the consumer exits exactly when `q` was typed |
| `Server.Session` | server/main.cpp:127-155 | from process start, the consumer draws exactly `Consume(Stream(inputs))`, and the session quits exactly when `q` was typed |

## Left out

- Terminal drawing with ncurses (`newWindow`, `deleteWindow`, `mvwaddstr`, `wrefresh`, `halfdelay`/`getch`) and the `sleep` calls are display side effects. Each consumer window is a `Screen` value instead.
- Line input with `mvwgetstr` (server/main.cpp:132) is external. The typed lines are the `inputs` parameter. Each line must be shorter than the 90-character buffer, because the call itself does not bound its input.
- Shared-memory lifecycle (`shmget`, `shmat`, `shmdt`, `shmctl(IPC_RMID)`) and its error displays are OS calls. The slot is a plain object.
- Process management (`fork`, `execv`, `waitpid`, `getppid`, `exit`) is OS bootstrap. `waitpid` after FINISH is modelled as letting the consumer run its last wake.
- Real signal delivery (`sigprocmask`, `kill`, `sigwait`) and OS scheduling are replaced by pending flags and the sequential stepping described above.
- A Dafny `char` stands for one C `char`, that is one byte: `strlen` counts bytes, so a multibyte UTF-8 character typed at the prompt counts as several and can be split between two pieces. The model does not represent encodings.
- C-string artefacts are not modelled: the overlapping `strcpy` at server/main.cpp:151 and `strlen`-based lengths. Payloads are character sequences of at most 30 characters.
- `Channel.SharedChannel.WriteText`: when `strncpy` copies exactly 30 characters (server/main.cpp:143), no terminator is written into the 30-character field. The consumer's `mvwaddstr` of the payload then reads past the field. The model records the 30 characters as the payload and does not capture this.
- A session whose input runs out without `q` is modelled as ending with the producer parked at the prompt. The consumer has drawn everything by then. The real process simply blocks there.
