/**
 * The text of every protocol message, as the two sides write it with
 * f-strings, and how each one falls apart again under `split(":")`.
 * Frames on the wire are these texts followed by "\r\n" (see Framing).
 */
module Wire {
  import opened PyText

  /** A registered participant: its nickname, its IP and its UDP port. */
  datatype Peer = Peer(nick: string, ip: string, port: int)

  /** The nickname and the IP hold no ":", so the peer survives a `split(":")`. */
  predicate ColonFree(p: Peer) {
    ':' !in p.nick && ':' !in p.ip
  }

  predicate AllColonFree(ps: seq<Peer>) {
    forall i | 0 <= i < |ps| :: ColonFree(ps[i])
  }

  /** `f"{nick}:{ip}:{port}"`: for a colon-free peer, text that splits back into its three fields. */
  function PeerText(p: Peer): (r: string)
    ensures ColonFree(p) ==> Split(r, ':') == [p.nick, p.ip, IntToString(p.port)]
  {
    IntToStringColonFree(p.port);
    if ColonFree(p) then
      SplitThree(p.nick, p.ip, IntToString(p.port));
      p.nick + ":" + p.ip + ":" + IntToString(p.port)
    else p.nick + ":" + p.ip + ":" + IntToString(p.port)
  }

  function PeerTexts(ps: seq<Peer>): (r: seq<string>)
    ensures |r| == |ps|
  {
    if ps == [] then [] else [PeerText(ps[0])] + PeerTexts(ps[1..])
  }

  /** The colon fields that a sequence of peers is written as: nickname, IP, port, and again. */
  function Fields(ps: seq<Peer>): (r: seq<string>)
    ensures |r| == 3 * |ps|
  {
    if ps == [] then [] else [ps[0].nick, ps[0].ip, IntToString(ps[0].port)] + Fields(ps[1..])
  }

  /** `"LIST:" + ":".join(f"{c.nick}:{c.ip}:{c.port}" for c in peers)` */
  function ListBody(ps: seq<Peer>): (r: string)
    ensures StartsWith(r, "LIST:")
    ensures ps == [] ==> r == "LIST:"
  {
    "LIST:" + Join(':', PeerTexts(ps))
  }

  /** `f"UPDATE:JOIN:{nickname}:{ip}:{udp_port}"` */
  function JoinBody(p: Peer): (r: string)
    ensures StartsWith(r, "UPDATE:JOIN:")
  {
    "UPDATE:JOIN:" + PeerText(p)
  }

  /** `f"UPDATE:LEAVE:{nick}:{ip}:{port}"` for a registered connection. */
  function LeaveBody(p: Peer): (r: string)
    ensures StartsWith(r, "UPDATE:LEAVE:")
  {
    "UPDATE:LEAVE:" + PeerText(p)
  }

  /** `f"BROADCAST:{nickname}:{length}:{msg}"` */
  function BroadcastBody(nick: string, length: int, content: string): (r: string)
    ensures StartsWith(r, "BROADCAST:")
  {
    "BROADCAST:" + nick + ":" + IntToString(length) + ":" + content
  }

  /** `f"REGISTER:{username}:{client_ip}:{udp_port}"` */
  function RegisterBody(nick: string, ip: string, port: int): (r: string)
    ensures StartsWith(r, "REGISTER:")
  {
    "REGISTER:" + nick + ":" + ip + ":" + IntToString(port)
  }

  // ---------------------------------------------------------------------------
  // Reading the texts back with split(":")

  lemma IntToStringColonFree(n: int)
    ensures ':' !in IntToString(n)
  {
    var s := IntToString(n);
    forall i | 0 <= i < |s| ensures s[i] != ':' {
      assert IsDigit(s[i]) || s[i] == '-';
    }
  }

  /** Text made of colon-free pieces put together with ":" is cut back into those pieces. */
  lemma SplitThree(a: string, b: string, c: string)
    requires ':' !in a && ':' !in b && ':' !in c
    ensures Split(a + ":" + b + ":" + c, ':') == [a, b, c]
  {
    assert a + ":" + b + ":" + c == a + [':'] + (b + [':'] + c);
    SplitAround(a, ':', b + [':'] + c);
    SplitAround(b, ':', c);
    SplitNoSep(a, ':');
    SplitNoSep(b, ':');
    SplitNoSep(c, ':');
  }

  /** Peer texts joined with ":" are the peers' fields, in order. */
  lemma {:induction false} PeerTextsFields(ps: seq<Peer>)
    requires ps != [] && AllColonFree(ps)
    ensures Split(Join(':', PeerTexts(ps)), ':') == Fields(ps)
  {
    if |ps| > 1 {
      PeerTextsFields(ps[1..]);
      SplitAround(PeerText(ps[0]), ':', Join(':', PeerTexts(ps[1..])));
    }
  }

  /** A text led by a colon-free word and a ":" splits into that word and the fields of the rest. */
  lemma SplitAfterWord(word: string, s: string)
    requires ':' !in word
    ensures Split(word + ":" + s, ':') == [word] + Split(s, ':')
  {
    SplitAround(word, ':', s);
    SplitNoSep(word, ':');
  }

  /** The LIST text splits into its keyword followed by every listed peer's fields. */
  lemma ListFields(ps: seq<Peer>)
    requires ps != [] && AllColonFree(ps)
    ensures Split(ListBody(ps), ':') == ["LIST"] + Fields(ps)
  {
    assert ListBody(ps) == "LIST" + ":" + Join(':', PeerTexts(ps));
    SplitAfterWord("LIST", Join(':', PeerTexts(ps)));
    PeerTextsFields(ps);
  }

  /** An empty directory is listed as the keyword and one empty field. */
  lemma EmptyListFields()
    ensures Split(ListBody([]), ':') == ["LIST", ""]
  {
    assert ListBody([]) == "LIST" + ":" + "";
    SplitAfterWord("LIST", "");
  }

  /** JOIN and LEAVE texts split into the two keywords and the peer's three fields. */
  lemma UpdateFields(action: string, p: Peer)
    requires action == "JOIN" || action == "LEAVE"
    requires ColonFree(p)
    ensures Split("UPDATE:" + action + ":" + PeerText(p), ':') == ["UPDATE", action, p.nick, p.ip, IntToString(p.port)]
  {
    assert "UPDATE:" + action + ":" + PeerText(p) == "UPDATE" + ":" + (action + ":" + PeerText(p));
    SplitAfterWord("UPDATE", action + ":" + PeerText(p));
    SplitAfterWord(action, PeerText(p));
  }

  lemma JoinFields(p: Peer)
    requires ColonFree(p)
    ensures Split(JoinBody(p), ':') == ["UPDATE", "JOIN", p.nick, p.ip, IntToString(p.port)]
  {
    assert JoinBody(p) == "UPDATE:" + "JOIN" + ":" + PeerText(p);
    UpdateFields("JOIN", p);
  }

  lemma LeaveFields(p: Peer)
    requires ColonFree(p)
    ensures Split(LeaveBody(p), ':') == ["UPDATE", "LEAVE", p.nick, p.ip, IntToString(p.port)]
  {
    assert LeaveBody(p) == "UPDATE:" + "LEAVE" + ":" + PeerText(p);
    UpdateFields("LEAVE", p);
  }

  /** A REGISTER text splits into its keyword and the three registered fields. */
  lemma RegisterFields(nick: string, ip: string, port: int)
    requires ':' !in nick && ':' !in ip
    ensures Split(RegisterBody(nick, ip, port), ':') == ["REGISTER", nick, ip, IntToString(port)]
  {
    var p := Peer(nick, ip, port);
    assert RegisterBody(nick, ip, port) == "REGISTER" + ":" + PeerText(p);
    SplitAfterWord("REGISTER", PeerText(p));
  }

  /**
   * A BROADCAST text splits into its keyword, the nickname, the length and
   * then the fields of the content, however many colons the content holds.
   */
  lemma BroadcastFields(nick: string, length: int, content: string)
    requires ':' !in nick
    ensures Split(BroadcastBody(nick, length, content), ':')
         == ["BROADCAST", nick, IntToString(length)] + Split(content, ':')
  {
    var n := IntToString(length);
    IntToStringColonFree(length);
    assert BroadcastBody(nick, length, content) == "BROADCAST" + ":" + (nick + ":" + (n + ":" + content));
    SplitAfterWord("BROADCAST", nick + ":" + (n + ":" + content));
    SplitAfterWord(nick, n + ":" + content);
    SplitAfterWord(n, content);
  }
}
