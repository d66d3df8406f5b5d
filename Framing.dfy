/**
 * Line framing shared by the server's per-connection handler and the client's
 * server listener: received text accumulates in a buffer, every
 * "\r\n"-terminated message is cut off the front in order, and the
 * unterminated tail stays in the buffer for the next read.
 */
module Framing {
  import opened PyText

  const Crlf: string := "\r\n"

  /** `"\r\n" not in s` */
  predicate NoCrlf(s: string) {
    forall i | 0 <= i < |s| - 1 :: !CrlfAt(s, i)
  }

  /** A terminator starts at index `i` of `s`. */
  predicate CrlfAt(s: string, i: nat)
    requires i + 1 < |s|
  {
    s[i] == '\r' && s[i + 1] == '\n'
  }

  /** "\r\n" occurs in a non-empty text exactly when it starts the text or occurs after its first character. */
  lemma NoCrlfUncons(s: string)
    requires |s| > 0
    ensures NoCrlf(s) <==> (|s| < 2 || !CrlfAt(s, 0)) && NoCrlf(s[1..])
  {
    if NoCrlf(s) {
      forall i | 0 <= i < |s[1..]| - 1 ensures !CrlfAt(s[1..], i) {
        assert !CrlfAt(s, i + 1);
      }
    }
    if (|s| < 2 || !CrlfAt(s, 0)) && NoCrlf(s[1..]) {
      forall i | 0 <= i < |s| - 1 ensures !CrlfAt(s, i) {
        if i > 0 {
          assert !CrlfAt(s[1..], i - 1);
        }
      }
    }
  }

  /** Text without a carriage return holds no "\r\n". */
  lemma NoCr(s: string)
    requires '\r' !in s
    ensures NoCrlf(s)
  {
    forall i | 0 <= i < |s| - 1 ensures !CrlfAt(s, i) {
      assert s[i] in s;
    }
  }

  /** Putting ":" between two texts free of "\r\n" creates none. */
  lemma NoCrlfColon(a: string, b: string)
    requires NoCrlf(a) && NoCrlf(b)
    ensures NoCrlf(a + ":" + b)
  {
    var x := a + ":" + b;
    forall i | 0 <= i < |x| - 1 ensures !CrlfAt(x, i) {
      if i + 1 < |a| {
        assert !CrlfAt(a, i);
      } else if i + 1 == |a| {
        assert x[i + 1] == ':';
      } else if i == |a| {
        assert x[i] == ':';
      } else {
        assert !CrlfAt(b, i - |a| - 1);
      }
    }
  }

  /** The index of the first "\r\n" in `s`, as `s.split("\r\n", 1)` finds it. */
  function FindCrlf(s: string): (r: Option<nat>)
    ensures r.None? <==> NoCrlf(s)
    ensures r.Some? ==> r.value + 2 <= |s| && CrlfAt(s, r.value)
    ensures r.Some? ==> NoCrlf(s[..r.value + 1])
  {
    if |s| < 2 then None
    else if CrlfAt(s, 0) then Some(0)
    else match FindCrlf(s[1..])
      case None =>
        NoCrlfUncons(s);
        None
      case Some(i) =>
        NoCrlfUncons(s);
        assert s[..i + 2][1..] == s[1..][..i + 1];
        NoCrlfUncons(s[..i + 2]);
        assert CrlfAt(s[1..], i);
        Some(i + 1)
  }

  /**
   * One message on the wire: its text followed by the terminator, which is
   * where the receiver cuts when the text holds no "\r\n" of its own.
   */
  function Frame(message: string): (r: string)
    ensures NoCrlf(message) ==> FindCrlf(r) == Some(|message|) && r[..|message|] == message
  {
    if NoCrlf(message) then
      FindCrlfAfterMessage(message, "");
      assert message + Crlf + "" == message + Crlf;
      message + Crlf
    else message + Crlf
  }

  /**
   * A sequence of messages on the wire, each terminated, in order: the last
   * message is terminated too, so nothing is left waiting in the receiver's
   * buffer (`DeframeEnframe` gives the messages back).
   */
  function Enframe(messages: seq<string>): (r: string)
    ensures r == [] <==> messages == []
    ensures messages != [] ==> |r| >= 2 && r[|r| - 2..] == Crlf
  {
    if messages == [] then ""
    else
      var r := Frame(messages[0]) + Enframe(messages[1..]);
      assert |messages| == 1 ==> r[|r| - 2..] == Crlf;
      assert |messages| > 1 ==> r[|r| - 2..] == Enframe(messages[1..])[|Enframe(messages[1..])| - 2..];
      r
  }

  datatype Framed = Framed(messages: seq<string>, rest: string)

  predicate AllNoCrlf(messages: seq<string>) {
    forall i | 0 <= i < |messages| :: NoCrlf(messages[i])
  }

  /** A prefix of text free of "\r\n" is free of it. */
  lemma NoCrlfPrefix(p: string, s: string)
    requires p <= s && NoCrlf(s)
    ensures NoCrlf(p)
  {
    forall i | 0 <= i < |p| - 1 ensures !CrlfAt(p, i) {
      assert !CrlfAt(s, i);
    }
  }

  /**
   * What the loop `while "\r\n" in buffer: message, buffer = buffer.split("\r\n", 1)`
   * dispatches, in order, and what it leaves in the buffer: no dispatched
   * message holds "\r\n", and the loop stops only once the buffer holds none.
   */
  function Deframe(buffer: string): (r: Framed)
    ensures AllNoCrlf(r.messages) && NoCrlf(r.rest)
    decreases |buffer|
  {
    match FindCrlf(buffer)
    case None => Framed([], buffer)
    case Some(i) =>
      var tail := Deframe(buffer[i + 2..]);
      NoCrlfPrefix(buffer[..i], buffer[..i + 1]);
      assert forall j | 1 <= j < 1 + |tail.messages| :: ([buffer[..i]] + tail.messages)[j] == tail.messages[j - 1];
      Framed([buffer[..i]] + tail.messages, tail.rest)
  }

  /**
   * The first pass of the loop: a buffer holding "\r\n" is a message free of
   * "\r\n", the terminator, and the text after it; the message is dispatched
   * first and the loop goes on with that text.
   */
  lemma CutFirst(buffer: string) returns (m: string, after: string)
    requires FindCrlf(buffer).Some?
    ensures NoCrlf(m) && buffer == Frame(m) + after
    ensures Deframe(buffer) == Framed([m] + Deframe(after).messages, Deframe(after).rest)
  {
    var i := FindCrlf(buffer).value;
    var prefix := buffer[..i + 1];
    forall j | 0 <= j && j + 1 < i ensures !CrlfAt(buffer[..i], j) {
      assert !CrlfAt(prefix, j);
    }
    assert buffer[i..i + 2] == Crlf;
    assert buffer == buffer[..i] + buffer[i..i + 2] + buffer[i + 2..];
    m, after := buffer[..i], buffer[i + 2..];
  }

  /**
   * One pass of the buffer loop keeps its account: when `total` is what was
   * dispatched so far followed by what the buffer still deframes to, the
   * same holds once the first message has moved from the buffer to the
   * dispatched ones.
   */
  lemma DeframeCut(total: Framed, done: seq<string>, buffer: string)
    requires FindCrlf(buffer).Some?
    requires total == Framed(done + Deframe(buffer).messages, Deframe(buffer).rest)
    ensures var i := FindCrlf(buffer).value;
      total == Framed((done + [buffer[..i]]) + Deframe(buffer[i + 2..]).messages, Deframe(buffer[i + 2..]).rest)
  {
    var i := FindCrlf(buffer).value;
    var after := Deframe(buffer[i + 2..]);
    assert Deframe(buffer).messages == [buffer[..i]] + after.messages;
    AppendAssoc(done, [buffer[..i]], after.messages);
  }

  /**
   * Nothing is lost or reordered: the dispatched messages, each followed by
   * "\r\n", and then the remaining buffer, put back together the framed text.
   */
  lemma {:induction false} DeframeRebuilds(buffer: string)
    ensures Enframe(Deframe(buffer).messages) + Deframe(buffer).rest == buffer
    decreases |buffer|
  {
    if FindCrlf(buffer).Some? {
      var m, after := CutFirst(buffer);
      DeframeRebuilds(after);
      EnframeCons(m, Deframe(after).messages);
    }
  }

  lemma EnframeCons(m: string, messages: seq<string>)
    ensures Enframe([m] + messages) == Frame(m) + Enframe(messages)
  {
    assert ([m] + messages)[1..] == messages;
  }

  /** A terminated message free of "\r\n" is cut off exactly at its own terminator. */
  lemma {:induction false} FindCrlfAfterMessage(m: string, s: string)
    requires NoCrlf(m)
    ensures FindCrlf(m + Crlf + s) == Some(|m|)
  {
    var x := m + Crlf + s;
    if m != [] {
      assert x[0] == m[0];
      assert x[1] == if |m| > 1 then m[1] else '\r';
      NoCrlfUncons(m);
      assert x[1..] == m[1..] + Crlf + s;
      FindCrlfAfterMessage(m[1..], s);
    } else {
      assert CrlfAt(x, 0);
    }
  }

  /** One terminated message free of "\r\n" at the front is dispatched first. */
  lemma DeframeFrame(m: string, after: string)
    requires NoCrlf(m)
    ensures Deframe(Frame(m) + after) == Framed([m] + Deframe(after).messages, Deframe(after).rest)
  {
    var x := Frame(m) + after;
    FindCrlfAfterMessage(m, after);
    assert x[..|m|] == m;
    assert x[|m| + 2..] == after;
  }

  /**
   * Re-association of concatenation, stated once so that the proofs below
   * can name the step instead of leaving it to the solver's search.
   */
  lemma AppendAssoc<T>(x: seq<T>, y: seq<T>, z: seq<T>)
    ensures (x + y) + z == x + (y + z)
  {
  }

  /** Deframing text that starts with terminated messages yields those messages first. */
  lemma {:induction false} DeframeAfterFrames(messages: seq<string>, s: string)
    requires AllNoCrlf(messages)
    ensures Deframe(Enframe(messages) + s)
         == Framed(messages + Deframe(s).messages, Deframe(s).rest)
  {
    if messages == [] {
      assert Enframe(messages) + s == s;
      assert messages + Deframe(s).messages == Deframe(s).messages;
    } else {
      var m, tail := messages[0], messages[1..];
      assert messages == [m] + tail;
      assert AllNoCrlf(tail) by {
        forall i | 0 <= i < |tail| ensures NoCrlf(tail[i]) {
          assert tail[i] == messages[i + 1];
        }
      }
      assert Enframe(messages) + s == Frame(m) + (Enframe(tail) + s) by {
        AppendAssoc(Frame(m), Enframe(tail), s);
      }
      DeframeAfterFrames(tail, s);
      DeframeAfterFrame(m, tail, Enframe(tail) + s, Deframe(s));
    }
  }

  /** A terminated message in front of text that deframes to `tail` first is dispatched before `tail`. */
  lemma DeframeAfterFrame(m: string, tail: seq<string>, after: string, last: Framed)
    requires NoCrlf(m)
    requires Deframe(after) == Framed(tail + last.messages, last.rest)
    ensures Deframe(Frame(m) + after) == Framed([m] + tail + last.messages, last.rest)
  {
    DeframeFrame(m, after);
    AppendAssoc([m], tail, last.messages);
  }

  /**
   * Round trip: messages free of "\r\n", sent in order and followed by an
   * unterminated tail, are dispatched in that order and the tail is kept.
   */
  lemma DeframeEnframe(messages: seq<string>, rest: string)
    requires AllNoCrlf(messages)
    requires NoCrlf(rest)
    ensures Deframe(Enframe(messages) + rest) == Framed(messages, rest)
  {
    DeframeAfterFrames(messages, rest);
    assert FindCrlf(rest).None?;
  }

  /**
   * How the stream is cut into reads does not matter: feeding `a` and then
   * `b` dispatches the same messages, in the same order, and leaves the same
   * buffer as feeding `a + b` at once.
   */
  lemma DeframeChunks(a: string, b: string)
    ensures var first := Deframe(a);
            var second := Deframe(first.rest + b);
            Deframe(a + b) == Framed(first.messages + second.messages, second.rest)
  {
    var first := Deframe(a);
    DeframeRebuilds(a);
    AppendAssoc(Enframe(first.messages), first.rest, b);
    DeframeAfterFrames(first.messages, first.rest + b);
  }
}
