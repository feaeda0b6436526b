/**
 * What the consumer shows for the descriptors it reads
 * (SPOVM_Lab3/client/main.cpp:86-112), as a pure specification. Each wake
 * draws a fresh window holding an optional label line and an optional
 * payload line; `Consume` is the whole loop, which stops at MSG_TYPE_FINISH.
 * The imperative loop (Client.Consumer.Wake) is proved against `View`.
 */
module Reassembler {
  import opened Protocol
  import opened Fragmenter

  const LABEL_STRING: string := "Message:"
  const LABEL_CONTINUE: string := "Message(to be continued):"
  const LABEL_FINISH: string := "Shutdown..."

  /** One window drawn by the consumer: the label line (caption) and the payload line. */
  datatype Screen = Screen(caption: Option<string>, line: Option<string>)

  /** The label for a type code; an unrecognised code has none. */
  function Label(kind: int): (r: Option<string>)
    ensures r.Some? <==> kind == MSG_TYPE_STRING || kind == MSG_TYPE_CONTINUE || kind == MSG_TYPE_FINISH
    ensures r == Some(LABEL_FINISH) <==> kind == MSG_TYPE_FINISH
  {
    if kind == MSG_TYPE_STRING then Some(LABEL_STRING)
    else if kind == MSG_TYPE_CONTINUE then Some(LABEL_CONTINUE)
    else if kind == MSG_TYPE_FINISH then Some(LABEL_FINISH)
    else None
  }

  /** The window drawn for one descriptor: FINISH shows no payload, every other code does. */
  function View(m: Message): (r: Screen)
    ensures r.caption == Label(m.kind)
    ensures r.line.None? <==> m.kind == MSG_TYPE_FINISH
    ensures r.line.Some? ==> r.line.value == m.text
  {
    Screen(Label(m.kind), if m.kind == MSG_TYPE_FINISH then None else Some(m.text))
  }

  /** One window per descriptor, in order. */
  function Views(ms: seq<Message>): seq<Screen>
  {
    seq(|ms|, i requires 0 <= i < |ms| => View(ms[i]))
  }

  /**
   * The consumer loop over the descriptors it is woken for: one window per
   * descriptor, in order, up to and including the first FINISH, where it exits.
   */
  function Consume(ms: seq<Message>): (r: seq<Screen>)
    ensures |r| <= |ms|
    ensures forall i :: 0 <= i < |r| ==> r[i] == View(ms[i])
    ensures forall i :: 0 <= i < |r| - 1 ==> ms[i].kind != MSG_TYPE_FINISH
    ensures |r| < |ms| ==> |r| > 0 && ms[|r| - 1].kind == MSG_TYPE_FINISH
    decreases |ms|
  {
    if ms == [] then []
    else if ms[0].kind == MSG_TYPE_FINISH then [View(ms[0])]
    else [View(ms[0])] + Consume(ms[1..])
  }

  /** The payload text shown across a run of windows, concatenated. */
  function Shown(screens: seq<Screen>): string
  {
    if screens == [] then []
    else (match screens[0].line case Some(t) => t case None => []) + Shown(screens[1..])
  }

  ghost predicate NoFinish(ms: seq<Message>)
  {
    forall i :: 0 <= i < |ms| ==> ms[i].kind != MSG_TYPE_FINISH
  }

  /** The three labels are distinct, so a label identifies its type code. */
  lemma LabelIdentifiesKind(a: int, b: int)
    requires Label(a).Some? && Label(a) == Label(b)
    ensures a == b
  {
    assert |LABEL_STRING| != |LABEL_CONTINUE| && |LABEL_STRING| != |LABEL_FINISH|
        && |LABEL_CONTINUE| != |LABEL_FINISH|;
  }

  /** Without a FINISH, the consumer draws one window for every descriptor. */
  lemma {:induction false} ConsumeNoFinish(ms: seq<Message>)
    requires NoFinish(ms)
    ensures Consume(ms) == Views(ms)
  {
    if ms != [] {
      ConsumeNoFinish(ms[1..]);
      assert Views(ms) == [View(ms[0])] + Views(ms[1..]);
    }
  }

  /**
   * After a FINISH the consumer reads nothing more: whatever follows it is
   * never shown, and the FINISH window is the last one.
   */
  lemma {:induction false} ConsumeStopsAtFinish(a: seq<Message>, m: Message, b: seq<Message>)
    requires NoFinish(a) && m.kind == MSG_TYPE_FINISH
    ensures Consume(a + [m] + b) == Views(a) + [Screen(Some(LABEL_FINISH), None)]
  {
    if a == [] {
      assert a + [m] + b == [m] + b;
    } else {
      assert (a + [m] + b)[1..] == a[1..] + [m] + b;
      ConsumeStopsAtFinish(a[1..], m, b);
      assert Views(a) == [View(a[0])] + Views(a[1..]);
    }
  }

  lemma ShownAppend(a: seq<Screen>, b: seq<Screen>)
    ensures Shown(a + b) == Shown(a) + Shown(b)
  {
    if a == [] {
      assert a + b == b;
    } else {
      assert (a + b)[1..] == a[1..] + b;
      ShownAppend(a[1..], b);
    }
  }

  /**
   * Reassembly: the payload text the consumer shows for one message's
   * fragments is the message itself.
   */
  lemma {:induction false} ReassembleFragments(s: seq<char>)
    ensures Shown(Consume(Fragments(s))) == s
  {
    if |s| <= MAX_SIZE {
      assert Consume(Fragments(s)) == [Screen(Some(LABEL_STRING), Some(s))];
      assert Shown([Screen(Some(LABEL_STRING), Some(s))]) == s + Shown([]);
    } else {
      var head := Screen(Some(LABEL_CONTINUE), Some(s[..MAX_SIZE]));
      ReassembleFragments(s[MAX_SIZE..]);
      assert Consume(Fragments(s)) == [head] + Consume(Fragments(s[MAX_SIZE..]));
      ShownAppend([head], Consume(Fragments(s[MAX_SIZE..])));
      assert Shown([head]) == s[..MAX_SIZE] + Shown([]);
      assert s[..MAX_SIZE] + s[MAX_SIZE..] == s;
    }
  }

  /**
   * For one message, every window but the last is labelled "to be
   * continued" and shows a full piece; the last is labelled "Message:".
   */
  lemma FragmentLabels(s: seq<char>)
    ensures var v := Consume(Fragments(s));
      && |v| == |Fragments(s)|
      && (forall i :: 0 <= i < |v| - 1 ==>
            v[i].caption == Some(LABEL_CONTINUE) && v[i].line.Some? && |v[i].line.value| == MAX_SIZE)
      && v[|v| - 1].caption == Some(LABEL_STRING)
  {
    var fs := Fragments(s);
    FragmentsWellFormed(s);
    assert NoFinish(fs);
    ConsumeNoFinish(fs);
  }
}
