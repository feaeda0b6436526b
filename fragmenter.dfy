/**
 * The producer's fragmentation rule (server/main.cpp:141-153) as a pure
 * specification: a message is cut into MAX_SIZE-character pieces; every
 * piece but the last is tagged MSG_TYPE_CONTINUE, the last one, of 0 to
 * MAX_SIZE characters, MSG_TYPE_STRING. The imperative loop over the staging
 * buffer (Server.Producer.SendString) is proved against `Fragments`.
 */
module Fragmenter {
  import opened Protocol

  /** The descriptors the producer writes, in order, for one message. */
  function Fragments(s: seq<char>): (r: seq<Message>)
    ensures |r| > 0
    decreases |s|
  {
    // the loop tests whether at most MAX_SIZE characters remain, so an exact multiple of
    // MAX_SIZE ends with a full MSG_TYPE_STRING piece, not an empty one
    if |s| <= MAX_SIZE then [Message(MSG_TYPE_STRING, s)]
    else [Message(MSG_TYPE_CONTINUE, s[..MAX_SIZE])] + Fragments(s[MAX_SIZE..])
  }

  /** The payloads of a sequence of descriptors, concatenated in order. */
  function Payloads(fs: seq<Message>): seq<char>
  {
    if fs == [] then [] else fs[0].text + Payloads(fs[1..])
  }

  /**
   * The shape every fragment sequence of one message has: at least one
   * piece, every non-final piece CONTINUE with exactly MAX_SIZE characters,
   * a final STRING piece of at most MAX_SIZE characters, and no empty final
   * piece after a CONTINUE.
   */
  ghost predicate WellFormed(fs: seq<Message>)
  {
    && |fs| > 0
    && (forall i :: 0 <= i < |fs| - 1 ==>
          fs[i].kind == MSG_TYPE_CONTINUE && |fs[i].text| == MAX_SIZE)
    && fs[|fs| - 1].kind == MSG_TYPE_STRING
    && |fs[|fs| - 1].text| <= MAX_SIZE
    && (|fs| > 1 ==> |fs[|fs| - 1].text| > 0)
  }

  /** Number of fragments for a message of n characters: max(1, ceil(n / MAX_SIZE)). */
  function FragmentCount(n: nat): nat
  {
    if n == 0 then 1 else (n + MAX_SIZE - 1) / MAX_SIZE
  }

  function Min(a: int, b: int): int { if a <= b then a else b }

  /**
   * The cursor-based view of the same rule: instead of shifting the staging
   * buffer, read the message from offset `cursor` on.
   */
  function FragmentsAt(s: seq<char>, cursor: nat): (r: seq<Message>)
    requires cursor <= |s|
    decreases |s| - cursor
  {
    if |s| - cursor <= MAX_SIZE then [Message(MSG_TYPE_STRING, s[cursor..])]
    else [Message(MSG_TYPE_CONTINUE, s[cursor..cursor + MAX_SIZE])] + FragmentsAt(s, cursor + MAX_SIZE)
  }

  lemma PayloadsAppend(a: seq<Message>, b: seq<Message>)
    ensures Payloads(a + b) == Payloads(a) + Payloads(b)
  {
    if a == [] {
      assert a + b == b;
    } else {
      assert (a + b)[1..] == a[1..] + b;
      PayloadsAppend(a[1..], b);
    }
  }

  /** Round trip: concatenating the payloads in send order gives back the message. */
  lemma {:induction false} RoundTrip(s: seq<char>)
    ensures Payloads(Fragments(s)) == s
  {
    if |s| > MAX_SIZE {
      RoundTrip(s[MAX_SIZE..]);
      PayloadsAppend([Message(MSG_TYPE_CONTINUE, s[..MAX_SIZE])], Fragments(s[MAX_SIZE..]));
      assert s[..MAX_SIZE] + s[MAX_SIZE..] == s;
    }
  }

  /** Every fragment sequence the producer sends has the shape described by WellFormed. */
  lemma {:induction false} FragmentsWellFormed(s: seq<char>)
    ensures WellFormed(Fragments(s))
  {
    if |s| > MAX_SIZE {
      FragmentsWellFormed(s[MAX_SIZE..]);
      var rest := Fragments(s[MAX_SIZE..]);
      var r := Fragments(s);
      assert r == [Message(MSG_TYPE_CONTINUE, s[..MAX_SIZE])] + rest;
      forall i | 0 <= i < |r| - 1
        ensures r[i].kind == MSG_TYPE_CONTINUE && |r[i].text| == MAX_SIZE
      {
        if i > 0 { assert r[i] == rest[i - 1]; }
      }
    }
  }

  /**
   * Fragments is the only well-formed sequence with the message as payload:
   * the producer's rule is determined by the shape and the round trip.
   */
  lemma {:induction false} WellFormedUnique(fs: seq<Message>, s: seq<char>)
    requires WellFormed(fs) && Payloads(fs) == s
    ensures fs == Fragments(s)
  {
    if |fs| == 1 {
      assert fs[1..] == [];
      assert fs[0].text + [] == fs[0].text;
      assert fs == [Message(MSG_TYPE_STRING, s)];
    } else {
      var tail := fs[1..];
      assert Payloads(fs) == fs[0].text + Payloads(tail);
      assert WellFormed(tail) by {
        forall i | 0 <= i < |tail| - 1
          ensures tail[i].kind == MSG_TYPE_CONTINUE && |tail[i].text| == MAX_SIZE
        {
          assert tail[i] == fs[i + 1];
        }
      }
      PayloadsNonEmpty(tail);
      assert |s| > MAX_SIZE;
      assert s[..MAX_SIZE] == fs[0].text;
      assert s[MAX_SIZE..] == Payloads(tail);
      WellFormedUnique(tail, s[MAX_SIZE..]);
      assert fs == [fs[0]] + tail;
    }
  }

  /** A well-formed sequence carries at least as many characters as its last payload. */
  lemma {:induction false} PayloadsNonEmpty(fs: seq<Message>)
    requires WellFormed(fs)
    ensures |Payloads(fs)| >= |fs[|fs| - 1].text|
    ensures |fs| > 1 ==> |Payloads(fs)| > 0
  {
    if |fs| > 1 {
      var tail := fs[1..];
      assert WellFormed(tail) by {
        forall i | 0 <= i < |tail| - 1
          ensures tail[i].kind == MSG_TYPE_CONTINUE && |tail[i].text| == MAX_SIZE
        {
          assert tail[i] == fs[i + 1];
        }
      }
      PayloadsNonEmpty(tail);
    }
  }

  /** A message of at most MAX_SIZE characters is one STRING piece carrying all of it. */
  lemma ShortMessage(s: seq<char>)
    requires |s| <= MAX_SIZE
    ensures Fragments(s) == [Message(MSG_TYPE_STRING, s)]
  {
  }

  /**
   * A longer message first sends its first MAX_SIZE characters as CONTINUE,
   * then carries on with the message minus those characters.
   */
  lemma LongMessage(s: seq<char>)
    requires |s| > MAX_SIZE
    ensures Fragments(s)[0] == Message(MSG_TYPE_CONTINUE, s[..MAX_SIZE])
    ensures Fragments(s)[1..] == Fragments(s[MAX_SIZE..])
  {
  }

  /** The fragment count is max(1, ceil(n / MAX_SIZE)). */
  lemma {:induction false} FragmentsCount(s: seq<char>)
    ensures |Fragments(s)| == FragmentCount(|s|)
  {
    if |s| > MAX_SIZE {
      FragmentsCount(s[MAX_SIZE..]);
    }
  }

  /** The k-th fragment carries the characters from k * MAX_SIZE up to the next boundary. */
  lemma {:induction false} FragmentAt(s: seq<char>, k: nat)
    requires k < |Fragments(s)|
    ensures k * MAX_SIZE <= |s|
    ensures Fragments(s)[k].text == s[k * MAX_SIZE .. Min(k * MAX_SIZE + MAX_SIZE, |s|)]
  {
    if k > 0 {
      FragmentAt(s[MAX_SIZE..], k - 1);
      assert Fragments(s)[k] == Fragments(s[MAX_SIZE..])[k - 1];
      assert s[MAX_SIZE..][(k - 1) * MAX_SIZE .. Min((k - 1) * MAX_SIZE + MAX_SIZE, |s| - MAX_SIZE)]
          == s[k * MAX_SIZE .. Min(k * MAX_SIZE + MAX_SIZE, |s|)];
    }
  }

  /** The final piece is empty exactly when the message is. */
  lemma FinalPieceEmpty(s: seq<char>)
    ensures var r := Fragments(s); r[|r| - 1].text == [] <==> s == []
  {
    FragmentsWellFormed(s);
    RoundTrip(s);
    PayloadsNonEmpty(Fragments(s));
    var r := Fragments(s);
    if |r| == 1 {
      assert Payloads(r) == r[0].text + Payloads([]);
    }
  }

  /** The cursor view and the shifting view produce the same descriptors. */
  lemma {:induction false} CursorAgrees(s: seq<char>, cursor: nat)
    requires cursor <= |s|
    ensures FragmentsAt(s, cursor) == Fragments(s[cursor..])
    decreases |s| - cursor
  {
    if |s| - cursor > MAX_SIZE {
      CursorAgrees(s, cursor + MAX_SIZE);
      assert s[cursor..][MAX_SIZE..] == s[cursor + MAX_SIZE..];
      assert s[cursor..][..MAX_SIZE] == s[cursor..cursor + MAX_SIZE];
    }
  }

  /** Boundary cases: 0, MAX_SIZE, MAX_SIZE + 1 and 2 * MAX_SIZE characters. */
  lemma Boundaries(s: seq<char>)
    ensures |s| == 0 ==> Fragments(s) == [Message(MSG_TYPE_STRING, [])]
    ensures |s| == MAX_SIZE ==> Fragments(s) == [Message(MSG_TYPE_STRING, s)]
    ensures |s| == MAX_SIZE + 1 ==>
      Fragments(s) == [Message(MSG_TYPE_CONTINUE, s[..MAX_SIZE]), Message(MSG_TYPE_STRING, s[MAX_SIZE..])]
      && |s[MAX_SIZE..]| == 1
    ensures |s| == 2 * MAX_SIZE ==>
      Fragments(s) == [Message(MSG_TYPE_CONTINUE, s[..MAX_SIZE]), Message(MSG_TYPE_STRING, s[MAX_SIZE..])]
      && |s[MAX_SIZE..]| == MAX_SIZE
  {
    if |s| == MAX_SIZE + 1 || |s| == 2 * MAX_SIZE {
      assert Fragments(s[MAX_SIZE..]) == [Message(MSG_TYPE_STRING, s[MAX_SIZE..])];
    }
  }
}
