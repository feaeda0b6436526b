/**
 * The whole session as a pure specification: the descriptors the producer
 * publishes for a sequence of typed inputs (server/main.cpp:127-155), and
 * what the consumer shows for them.
 */
module Transcript {
  import opened Protocol
  import opened Fragmenter
  import opened Reassembler

  /**
   * The descriptors published for `inputs`, when the slot's payload field
   * currently holds `held`. The input QUIT publishes one FINISH descriptor
   * (the payload field is left as it was) and ends the session; any other
   * input, the empty one included, is sent as data.
   */
  function Stream(inputs: seq<string>, held: seq<char>): (r: seq<Message>)
    ensures r == [] <==> inputs == []
    ensures inputs != [] && inputs[0] == QUIT ==> r == [Message(MSG_TYPE_FINISH, held)]
    decreases |inputs|
  {
    if inputs == [] then []
    else if inputs[0] == QUIT then [Message(MSG_TYPE_FINISH, held)]
    else
      var fs := Fragments(inputs[0]);
      fs + Stream(inputs[1..], fs[|fs| - 1].text)
  }

  /**
   * Sending the i-th input, an ordinary line, moves its fragments from the
   * stream still to come to the descriptors already published; the slot is
   * left holding the last fragment's payload.
   */
  lemma StreamAdvance(inputs: seq<string>, i: nat, held: seq<char>,
                      before: seq<Message>, after: seq<Message>, text: seq<char>)
    requires i < |inputs| && inputs[i] != QUIT
    requires after == before + Fragments(inputs[i])
    requires text == after[|after| - 1].text
    ensures after + Stream(inputs[i + 1..], text) == before + Stream(inputs[i..], held)
    ensures QUIT !in inputs[..i] ==> QUIT !in inputs[..i + 1]
  {
    var fs := Fragments(inputs[i]);
    assert inputs[i..][1..] == inputs[i + 1..];
    assert Stream(inputs[i..], held) == fs + Stream(inputs[i + 1..], fs[|fs| - 1].text);
    assert after[|after| - 1] == fs[|fs| - 1];
    assert inputs[..i + 1] == inputs[..i] + [inputs[i]];
  }

  /** The stream from the i-th input on, when that input is QUIT. */
  lemma StreamAtQuit(inputs: seq<string>, i: nat, held: seq<char>)
    requires i < |inputs| && inputs[i] == QUIT
    ensures Stream(inputs[i..], held) == [Message(MSG_TYPE_FINISH, held)]
    ensures QUIT in inputs
  {
    assert inputs[i..][0] == QUIT;
  }

  /**
   * FINISH can only be the last descriptor of a session, and it is there
   * exactly when QUIT was typed.
   */
  lemma {:induction false} StreamFinish(inputs: seq<string>, held: seq<char>)
    ensures var st := Stream(inputs, held);
      && (forall i :: 0 <= i < |st| - 1 ==> st[i].kind != MSG_TYPE_FINISH)
      && ((QUIT in inputs) <==> (|st| > 0 && st[|st| - 1].kind == MSG_TYPE_FINISH))
  {
    if inputs != [] && inputs[0] != QUIT {
      var fs := Fragments(inputs[0]);
      var rest := Stream(inputs[1..], fs[|fs| - 1].text);
      StreamFinish(inputs[1..], fs[|fs| - 1].text);
      FragmentsWellFormed(inputs[0]);
      var st := Stream(inputs, held);
      assert st == fs + rest;
      forall i | 0 <= i < |st| - 1
        ensures st[i].kind != MSG_TYPE_FINISH
      {
        if i >= |fs| { assert st[i] == rest[i - |fs|]; }
      }
      assert inputs == [inputs[0]] + inputs[1..];
      assert (QUIT in inputs) <==> (QUIT in inputs[1..]);
      if rest == [] {
        assert st[|st| - 1] == fs[|fs| - 1];
      } else {
        assert st[|st| - 1] == rest[|rest| - 1];
      }
    }
  }

  /** Nothing typed after QUIT is ever sent. */
  lemma {:induction false} StreamStopsAtQuit(a: seq<string>, b: seq<string>, held: seq<char>)
    ensures Stream(a + [QUIT] + b, held) == Stream(a + [QUIT], held)
    decreases |a|
  {
    if a == [] {
      assert a + [QUIT] + b == [QUIT] + b;
      assert a + [QUIT] == [QUIT];
    } else if a[0] != QUIT {
      assert (a + [QUIT] + b)[1..] == a[1..] + [QUIT] + b;
      assert (a + [QUIT])[1..] == a[1..] + [QUIT];
      var fs := Fragments(a[0]);
      StreamStopsAtQuit(a[1..], b, fs[|fs| - 1].text);
    }
  }

  /** For a whole session the consumer draws one window per published descriptor. */
  lemma ConsumeStream(inputs: seq<string>, held: seq<char>)
    ensures Consume(Stream(inputs, held)) == Views(Stream(inputs, held))
  {
    var st := Stream(inputs, held);
    StreamFinish(inputs, held);
    var v := Consume(st);
    // stopping early would need a FINISH before the last descriptor
    assert |v| == |st|;
  }

  /** Every payload ever written to the slot fits its MAX_SIZE field. */
  lemma {:induction false} StreamBounded(inputs: seq<string>, held: seq<char>)
    requires |held| <= MAX_SIZE
    ensures forall m :: m in Stream(inputs, held) ==> |m.text| <= MAX_SIZE
  {
    if inputs != [] && inputs[0] != QUIT {
      var fs := Fragments(inputs[0]);
      FragmentsWellFormed(inputs[0]);
      StreamBounded(inputs[1..], fs[|fs| - 1].text);
      forall m | m in fs ensures |m.text| <= MAX_SIZE {
        var i :| 0 <= i < |fs| && fs[i] == m;
      }
    }
  }

  /** "HELLO" is one STRING descriptor, shown under "Message:". */
  lemma ScenarioHello(held: seq<char>)
    ensures Stream(["HELLO"], held) == [Message(MSG_TYPE_STRING, "HELLO")]
    ensures Consume(Stream(["HELLO"], held)) == [Screen(Some(LABEL_STRING), Some("HELLO"))]
  {
    assert ["HELLO"][1..] == [];
  }

  /**
   * A 45-character message is shown as "to be continued" with its first 30
   * characters, then "Message:" with the remaining 15, in that order.
   */
  lemma ScenarioLong(s: string, held: seq<char>)
    requires |s| == 45
    ensures Stream([s], held) == [Message(MSG_TYPE_CONTINUE, s[..30]), Message(MSG_TYPE_STRING, s[30..])]
    ensures Consume(Stream([s], held))
         == [Screen(Some(LABEL_CONTINUE), Some(s[..30])), Screen(Some(LABEL_STRING), Some(s[30..]))]
  {
    assert s != QUIT;
    assert [s][1..] == [];
    assert Fragments(s[30..]) == [Message(MSG_TYPE_STRING, s[30..])];
    var st := Stream([s], held);
    assert Fragments(s) == [Message(MSG_TYPE_CONTINUE, s[..30])] + Fragments(s[30..]);
    assert st == Fragments(s) + Stream([], s[30..]);
    assert st[1..] == [Message(MSG_TYPE_STRING, s[30..])];
    assert Consume(st[1..]) == [View(st[1])];
    assert Consume(st) == [View(st[0])] + Consume(st[1..]);
    assert View(st[0]) == Screen(Some(LABEL_CONTINUE), Some(s[..30]));
  }

  /** The empty message is one empty STRING descriptor, not a FINISH. */
  lemma ScenarioEmpty(held: seq<char>)
    ensures Stream([[]], held) == [Message(MSG_TYPE_STRING, [])]
    ensures Consume(Stream([[]], held)) == [Screen(Some(LABEL_STRING), Some([]))]
  {
    var inputs: seq<string> := [[]];
    assert inputs[1..] == [];
    assert inputs[0] != QUIT;
  }

  /**
   * QUIT after any messages: the consumer shows "Shutdown..." exactly once,
   * as its last window, with no payload.
   */
  lemma ScenarioShutdown(msgs: seq<string>, held: seq<char>)
    requires QUIT !in msgs
    ensures var v := Consume(Stream(msgs + [QUIT], held));
      && |v| > 0 && v[|v| - 1] == Screen(Some(LABEL_FINISH), None)
      && (forall i :: 0 <= i < |v| - 1 ==> v[i].caption != Some(LABEL_FINISH))
  {
    var st := Stream(msgs + [QUIT], held);
    assert QUIT in msgs + [QUIT] by { assert (msgs + [QUIT])[|msgs|] == QUIT; }
    StreamFinish(msgs + [QUIT], held);
    ConsumeStream(msgs + [QUIT], held);
    var v := Consume(st);
    forall i | 0 <= i < |v| - 1 ensures v[i].caption != Some(LABEL_FINISH) {
      assert v[i] == View(st[i]);
      assert st[i].kind != MSG_TYPE_FINISH;
    }
  }
}
