/**
 * What the two sides make of each other's frames: the client's REGISTER
 * and BROADCAST as the server parses them, and the server's LIST, JOIN,
 * LEAVE and BROADCAST as the client reads them.
 */
module EndToEnd {
  import opened PyText
  import opened Framing
  import opened Wire
  import S = ServerSpec
  import C = ClientSpec

  lemma IntToStringNoCrlf(n: int)
    ensures NoCrlf(IntToString(n))
  {
    var s := IntToString(n);
    forall i | 0 <= i < |s| ensures s[i] != '\r' {
      assert IsDigit(s[i]) || s[i] == '-';
    }
    NoCr(s);
  }

  /** A frame body free of "\r\n" travels as exactly one message, with nothing left over. */
  lemma OneFrame(body: string)
    requires NoCrlf(body)
    ensures Deframe(Frame(body)) == Framed([body], [])
  {
    NoCr([]);
    DeframeEnframe([body], []);
    assert Enframe([body]) + [] == Frame(body);
  }

  // ---------------------------------------------------------------------------
  // REGISTER

  /** The server reads the client's REGISTER text back as the client's own nickname, IP and UDP port. */
  lemma RegisterRoundTrip(nick: string, ip: string, port: int)
    requires ':' !in nick && ':' !in ip
    ensures S.ParseRegister(RegisterBody(nick, ip, port)) == Some(Peer(nick, ip, port))
  {
    var body := RegisterBody(nick, ip, port);
    var digits := IntToString(port);
    assert body[0] == 'R';
    assert body[|body| - 1] == digits[|digits| - 1];
    StripKeeps(body, IsSpace);
    RegisterFields(nick, ip, port);
    ParseIntToString(port);
  }

  /**
   * A username or IP holding ":" (an IPv6 address always does) gives a
   * REGISTER text with more than four fields, which the server rejects:
   * such a client is never listed.
   */
  lemma RegisterWithColonRejected(nick: string, ip: string, port: int)
    requires ':' in nick || ':' in ip
    ensures S.ParseRegister(RegisterBody(nick, ip, port)).None?
  {
    var body := RegisterBody(nick, ip, port);
    var digits := IntToString(port);
    assert body[0] == 'R';
    assert body[|body| - 1] == digits[|digits| - 1];
    StripKeeps(body, IsSpace);
    assert body == "REGISTER" + ":" + (nick + [':'] + (ip + [':'] + digits));
    SplitAfterWord("REGISTER", nick + [':'] + (ip + [':'] + digits));
    SplitAround(nick, ':', ip + [':'] + digits);
    SplitAround(ip, ':', digits);
    if ':' in nick {
      SplitHasSep(nick, ':');
    } else {
      SplitHasSep(ip, ':');
    }
    assert |Split(body, ':')| >= 5;
  }

  /** A REGISTER text built from fields free of "\r\n" holds none. */
  lemma RegisterBodyNoCrlf(nick: string, ip: string, port: int)
    requires NoCrlf(nick) && NoCrlf(ip)
    ensures NoCrlf(RegisterBody(nick, ip, port))
  {
    assert RegisterBody(nick, ip, port) == (("REGISTER" + ":" + nick) + ":" + ip) + ":" + IntToString(port);
    NoCr("REGISTER");
    IntToStringNoCrlf(port);
    NoCrlfColon("REGISTER", nick);
    NoCrlfColon("REGISTER" + ":" + nick, ip);
    NoCrlfColon(("REGISTER" + ":" + nick) + ":" + ip, IntToString(port));
  }

  /**
   * The frame `connect_to_server` sends, received by the connection's
   * handler, appends the connection to the directory under the client's
   * own nickname, IP and port.
   */
  lemma ConnectRegisters(st: S.State, c: S.ConnId, nick: string, ip: string, port: int)
    requires S.Valid(st) && c in st.info
    requires ':' !in nick && ':' !in ip && NoCrlf(nick) && NoCrlf(ip)
    ensures var framed := Deframe(Frame(RegisterBody(nick, ip, port)));
      && framed == Framed([RegisterBody(nick, ip, port)], [])
      && var r := S.ProcessAll(st, c, framed.messages);
         && r.clients == st.clients + [c]
         && r.info == st.info[c := S.Registered(Peer(nick, ip, port))]
  {
    var body := RegisterBody(nick, ip, port);
    RegisterBodyNoCrlf(nick, ip, port);
    OneFrame(body);
    RegisterRoundTrip(nick, ip, port);
    S.ProcessAllSnoc(st, c, [], body);
    S.RegisterSucceeds(st, c, body, Peer(nick, ip, port));
  }

  // ---------------------------------------------------------------------------
  // LIST

  /**
   * A LIST of peers whose nicknames and IPs hold no ":" is read back as
   * the table made by setting each listed peer in directory order; an empty
   * directory gives an empty table.
   */
  lemma ListDecodesDirectory(ps: seq<Peer>)
    requires AllColonFree(ps)
    ensures C.PeerList(ListBody(ps)) == C.Upserts(map[], ps)
  {
    if ps == [] {
      EmptyListFields();
    } else {
      ListFields(ps);
      assert (["LIST"] + Fields(ps))[1..] == Fields(ps) + [];
      C.FillPeersFields(map[], ps, []);
    }
  }

  /** Reading a LIST, a client finds the last listed peer with its address, and exactly the listed nicknames. */
  lemma ListShowsLast(ps: seq<Peer>)
    requires ps != [] && AllColonFree(ps)
    ensures var table := C.PeerList(ListBody(ps));
      var p := ps[|ps| - 1];
      && p.nick in table && table[p.nick] == C.Addr(p.ip, p.port)
      && table.Keys == set i | 0 <= i < |ps| :: ps[i].nick
  {
    ListDecodesDirectory(ps);
    C.UpsertsLastWins(map[], ps, |ps| - 1);
    C.UpsertsKeys(map[], ps);
  }

  /**
   * After a successful REGISTER the new client, unless its connection is
   * closed, gets the JOIN and then, last, the LIST; reading that LIST it
   * finds itself with the address it registered, and exactly the listed
   * nicknames.
   */
  lemma RegisteredClientSeesItself(st: S.State, c: S.ConnId, message: string, p: Peer)
    requires S.Valid(st) && c in st.info && c !in st.closed
    requires StartsWith(message, "REGISTER:") && S.ParseRegister(message) == Some(p)
    ensures var r := S.ProcessMessage(st, c, message);
      var list := ListBody(S.Directory(r));
      && r.outbox[c] == st.outbox[c] + S.Repeat(Frame(JoinBody(p)), S.Count(r.clients, c)) + [Frame(list)]
      && p.nick in C.PeerList(list)
      && C.PeerList(list)[p.nick] == C.Addr(p.ip, p.port)
      && C.PeerList(list).Keys == set i | 0 <= i < |r.clients| :: S.Directory(r)[i].nick
  {
    var r := S.ProcessMessage(st, c, message);
    S.RegisterSucceeds(st, c, message, p);
    S.DirectoryColonFree(r);
    ListShowsLast(S.Directory(r));
  }

  // ---------------------------------------------------------------------------
  // UPDATE:JOIN and UPDATE:LEAVE

  /** A JOIN sets the joining peer's entry and leaves every other entry and the shown broadcasts alone. */
  lemma JoinUpdatesTable(cs: C.ClientState, p: Peer)
    requires ColonFree(p)
    ensures C.Process(cs, JoinBody(p)) == cs.(peers := cs.peers[p.nick := C.Addr(p.ip, p.port)])
  {
    var body := JoinBody(p);
    assert body[0] == 'U';
    JoinFields(p);
    ParseIntToString(p.port);
  }

  /**
   * A LEAVE deletes the nickname's entry, whatever address the table holds
   * for it, and does nothing when the nickname is absent.
   */
  lemma LeaveUpdatesTable(cs: C.ClientState, p: Peer)
    requires ColonFree(p)
    ensures C.Process(cs, LeaveBody(p)) == cs.(peers := cs.peers - {p.nick})
  {
    var body := LeaveBody(p);
    assert body[0] == 'U';
    LeaveFields(p);
    ParseIntToString(p.port);
  }

  /** Five colon-free fields joined with ":" split back into those five. */
  lemma SplitFive(a: string, b: string, c: string, d: string, e: string)
    requires ':' !in a && ':' !in b && ':' !in c && ':' !in d && ':' !in e
    ensures Split(a + ":" + b + ":" + c + ":" + d + ":" + e, ':') == [a, b, c, d, e]
  {
    SplitAround(a + ":" + b + ":" + c + ":" + d, ':', e);
    SplitAround(a + ":" + b + ":" + c, ':', d);
    SplitAround(a + ":" + b, ':', c);
    SplitAround(a, ':', b);
    SplitNoSep(a, ':');
    SplitNoSep(b, ':');
    SplitNoSep(c, ':');
    SplitNoSep(d, ':');
    SplitNoSep(e, ':');
  }

  /** The fields of the LEAVE sent for a connection that never registered. */
  lemma UnregisteredLeaveFields()
    ensures Split(S.LeaveText(S.Unregistered), ':') == ["UPDATE", "LEAVE", "(None,)", "None", "None"]
  {
    SplitFive("UPDATE", "LEAVE", "(None,)", "None", "None");
  }

  /** `int("None")` raises. */
  lemma NoneIsNotInt()
    ensures ParseInt("None").None?
  {
    NonNumeralIsNotInt("None", 0);
  }

  /**
   * The LEAVE sent for a connection that never registered has the port
   * field `None`, so `int` raises on the client and nothing changes.
   */
  lemma UnregisteredLeaveIgnored(cs: C.ClientState)
    ensures C.Process(cs, S.LeaveText(S.Unregistered)) == cs
  {
    UnregisteredLeaveFields();
    NoneIsNotInt();
    C.MalformedUpdateIgnored(cs, S.LeaveText(S.Unregistered));
  }

  // ---------------------------------------------------------------------------
  // BROADCAST

  /** `strip()` on a BROADCAST text removes only the whitespace that ends its content. */
  lemma StripBroadcast(nick: string, length: int, content: string)
    ensures Strip(BroadcastBody(nick, length, content), IsSpace)
         == BroadcastBody(nick, length, StripRight(content, IsSpace))
  {
    var head := "BROADCAST:" + nick + ":" + IntToString(length) + ":";
    var body := BroadcastBody(nick, length, content);
    assert body == head + content;
    assert body[0] == 'B';
    StripUnspacedLeft(body, IsSpace);
    StripRightAfter(head, content, IsSpace);
  }

  /**
   * The server re-emits a BROADCAST text, whatever its declared length,
   * with its content stripped of trailing whitespace and nothing else
   * changed; a content that does not end in whitespace comes back as it
   * was sent.
   */
  lemma BroadcastRelayStrips(nick: string, length: int, content: string)
    requires ':' !in nick
    ensures S.RelayedBroadcast(BroadcastBody(nick, length, content))
         == Some(BroadcastBody(nick, length, StripRight(content, IsSpace)))
    ensures content == [] || !IsSpace(content[|content| - 1]) ==>
      S.RelayedBroadcast(BroadcastBody(nick, length, content)) == Some(BroadcastBody(nick, length, content))
  {
    var kept := StripRight(content, IsSpace);
    StripBroadcast(nick, length, content);
    var body := BroadcastBody(nick, length, kept);
    BroadcastFields(nick, length, kept);
    assert Split(body, ':')[3..] == Split(kept, ':');
    JoinSplit(kept, ':');
    ParseIntToString(length);
    if content == [] || !IsSpace(content[|content| - 1]) {
      assert SkipRight(content, IsSpace, 0, |content|) == |content|;
      assert kept == content;
    }
  }

  /** The client shows the nickname and the content cut to the declared length, as `content[:length]` does. */
  lemma DisplayTruncates(nick: string, length: int, content: string)
    requires ':' !in nick
    ensures C.DisplayedBroadcast(BroadcastBody(nick, length, content)) == Some(C.Broadcast(nick, Take(content, length)))
  {
    BroadcastFields(nick, length, content);
    assert Split(BroadcastBody(nick, length, content), ':')[3..] == Split(content, ':');
    JoinSplit(content, ':');
    ParseIntToString(length);
  }

  /** A BROADCAST text whose nickname and content hold no "\r\n" holds none. */
  lemma BroadcastNoCrlf(nick: string, length: int, content: string)
    requires NoCrlf(nick) && NoCrlf(content)
    ensures NoCrlf(BroadcastBody(nick, length, content))
  {
    var digits := IntToString(length);
    assert BroadcastBody(nick, length, content) == (("BROADCAST" + ":" + nick) + ":" + digits) + ":" + content;
    NoCr("BROADCAST");
    IntToStringNoCrlf(length);
    NoCrlfColon("BROADCAST", nick);
    NoCrlfColon("BROADCAST" + ":" + nick, digits);
    NoCrlfColon(("BROADCAST" + ":" + nick) + ":" + digits, content);
  }

  /** A client shows a broadcast whose declared length covers its content as exactly that nickname and content. */
  lemma BroadcastShown(cs: C.ClientState, nick: string, length: int, content: string)
    requires ':' !in nick && |content| <= length
    ensures C.Process(cs, BroadcastBody(nick, length, content)) == cs.(shown := cs.shown + [C.Broadcast(nick, content)])
  {
    var body := BroadcastBody(nick, length, content);
    assert body[0] == 'B';
    DisplayTruncates(nick, length, content);
  }

  /**
   * A broadcast sent by `send_broadcast` travels as one message; the
   * server re-emits it, its content stripped of trailing whitespace, as
   * one frame to every open connection once per directory entry; and a
   * client handling that frame shows the sender's nickname and the
   * stripped content. A content that does not end in whitespace is
   * re-emitted and shown exactly as sent.
   */
  lemma BroadcastRoundTrip(st: S.State, c: S.ConnId, d: S.ConnId, cs: C.ClientState, username: string, content: string)
    requires S.Valid(st) && c in st.info && d in st.outbox
    requires ':' !in username && NoCrlf(username) && NoCrlf(content)
    ensures var body := BroadcastBody(username, |content|, content);
      var kept := StripRight(content, IsSpace);
      var relayed := BroadcastBody(username, |content|, kept);
      && Deframe(Frame(body)) == Framed([body], [])
      && S.ProcessMessage(st, c, body).outbox[d]
           == st.outbox[d] + (if d in st.closed then [] else S.Repeat(Frame(relayed), S.Count(st.clients, d)))
      && Deframe(Frame(relayed)) == Framed([relayed], [])
      && C.Process(cs, relayed) == cs.(shown := cs.shown + [C.Broadcast(username, kept)])
      && (content == [] || !IsSpace(content[|content| - 1]) ==> relayed == body)
  {
    var body := BroadcastBody(username, |content|, content);
    var kept := StripRight(content, IsSpace);
    var relayed := BroadcastBody(username, |content|, kept);
    BroadcastNoCrlf(username, |content|, content);
    OneFrame(body);
    NoCrlfPrefix(kept, content);
    BroadcastNoCrlf(username, |content|, kept);
    OneFrame(relayed);
    assert body[0] == 'B';
    BroadcastRelayStrips(username, |content|, content);
    S.BroadcastDelivers(st, c, body);
    BroadcastShown(cs, username, |content|, kept);
  }

  // ---------------------------------------------------------------------------
  // Chunking

  /**
   * Where `recv` cuts the stream does not matter to the server: handling
   * `a` and then `b` dispatches the same messages, reaches the same state
   * and keeps the same buffer as handling `a + b` at once.
   */
  lemma ServerChunking(st: S.State, c: S.ConnId, buffer: string, a: string, b: string)
    requires S.Valid(st) && c in st.info
    ensures var first := Deframe(buffer + a);
      var second := Deframe(first.rest + b);
      var whole := Deframe(buffer + a + b);
      && S.ProcessAll(S.ProcessAll(st, c, first.messages), c, second.messages) == S.ProcessAll(st, c, whole.messages)
      && second.rest == whole.rest
  {
    DeframeChunks(buffer + a, b);
    S.ProcessAllAppend(st, c, Deframe(buffer + a).messages, Deframe(Deframe(buffer + a).rest + b).messages);
  }

  /** Where `recv` cuts the stream does not matter to the client either. */
  lemma ClientChunking(cs: C.ClientState, buffer: string, a: string, b: string)
    ensures var first := Deframe(buffer + a);
      var second := Deframe(first.rest + b);
      var whole := Deframe(buffer + a + b);
      && C.ProcessAll(C.ProcessAll(cs, first.messages), second.messages) == C.ProcessAll(cs, whole.messages)
      && second.rest == whole.rest
  {
    DeframeChunks(buffer + a, b);
    C.ProcessAllAppend(cs, Deframe(buffer + a).messages, Deframe(Deframe(buffer + a).rest + b).messages);
  }
}
