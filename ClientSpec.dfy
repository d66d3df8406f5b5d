/**
 * The client's handling of server messages as functions over values: the
 * peer table that LIST, UPDATE:JOIN and UPDATE:LEAVE rewrite, and the
 * broadcasts it shows.
 */
module ClientSpec {
  import opened PyText
  import opened Framing
  import opened Wire

  /** A peer table entry, the tuple `(ip, port)`. */
  datatype Addr = Addr(ip: string, port: int)

  /** One broadcast shown to the user: `Broadcast from {nickname}: {content}`. */
  datatype Broadcast = Broadcast(nick: string, content: string)

  /** `self.peers`: nickname to address. */
  type Table = map<string, Addr>

  datatype ClientState = ClientState(peers: Table, shown: seq<Broadcast>)

  // ---------------------------------------------------------------------------
  // The peer table as a sequence of assignments

  /** The table after `table[p.nick] = (p.ip, p.port)` for each peer in turn. */
  function Upserts(m: Table, ps: seq<Peer>): (r: Table)
    ensures m.Keys <= r.Keys
    decreases |ps|
  {
    if ps == [] then m else Upserts(m[ps[0].nick := Addr(ps[0].ip, ps[0].port)], ps[1..])
  }

  /** The nicknames in the table afterwards are the ones before and the ones assigned. */
  lemma {:induction false} UpsertsKeys(m: Table, ps: seq<Peer>)
    ensures Upserts(m, ps).Keys == m.Keys + set i | 0 <= i < |ps| :: ps[i].nick
    decreases |ps|
  {
    if ps != [] {
      UpsertsKeys(m[ps[0].nick := Addr(ps[0].ip, ps[0].port)], ps[1..]);
      var tail := set i | 0 <= i < |ps| - 1 :: ps[1..][i].nick;
      var all := set i | 0 <= i < |ps| :: ps[i].nick;
      assert all == {ps[0].nick} + tail by {
        forall k | k in all ensures k in {ps[0].nick} + tail {
          var i :| 0 <= i < |ps| && ps[i].nick == k;
          if i > 0 {
            assert ps[1..][i - 1].nick == k;
          }
        }
      }
    }
  }

  /** The last assignment to a nickname wins. */
  lemma {:induction false} UpsertsLastWins(m: Table, ps: seq<Peer>, i: nat)
    requires i < |ps|
    requires forall j | i < j < |ps| :: ps[j].nick != ps[i].nick
    ensures ps[i].nick in Upserts(m, ps)
    ensures Upserts(m, ps)[ps[i].nick] == Addr(ps[i].ip, ps[i].port)
    decreases |ps|
  {
    var m' := m[ps[0].nick := Addr(ps[0].ip, ps[0].port)];
    if i == 0 {
      UpsertsUntouched(m', ps[1..], ps[0].nick);
    } else {
      UpsertsLastWins(m', ps[1..], i - 1);
    }
  }

  /** A nickname that is not assigned keeps its entry, or its absence. */
  lemma {:induction false} UpsertsUntouched(m: Table, ps: seq<Peer>, k: string)
    requires forall j | 0 <= j < |ps| :: ps[j].nick != k
    ensures k in Upserts(m, ps) <==> k in m
    ensures k in m ==> Upserts(m, ps)[k] == m[k]
    decreases |ps|
  {
    if ps != [] {
      UpsertsUntouched(m[ps[0].nick := Addr(ps[0].ip, ps[0].port)], ps[1..], k);
    }
  }

  // ---------------------------------------------------------------------------
  // LIST

  /**
   * The fill loop of `update_peer_list`: one entry per `nick, ip, port`
   * triple, in order, until a triple is incomplete or its port is not an
   * integer; then the `IndexError` or `ValueError` ends the loop and the
   * entries made so far stay.
   */
  function FillPeers(m: Table, parts: seq<string>): (r: Table)
    ensures m.Keys <= r.Keys
    ensures forall k | k in r && k !in m :: k in parts
    decreases |parts|
  {
    if |parts| < 3 then m
    else match ParseInt(parts[2])
      case None => m
      case Some(port) => FillPeers(m[parts[0] := Addr(parts[1], port)], parts[3..])
  }

  /** `update_peer_list`: the table is emptied, then filled from every field after the keyword. */
  function PeerList(message: string): (r: Table)
    ensures forall k | k in r :: k in Split(message, ':')[1..]
  {
    FillPeers(map[], Split(message, ':')[1..])
  }

  /** One well-formed triple is assigned and the loop goes on after it. */
  lemma FillPeersStep(m: Table, parts: seq<string>, port: int)
    requires |parts| >= 3 && ParseInt(parts[2]) == Some(port)
    ensures FillPeers(m, parts) == FillPeers(m[parts[0] := Addr(parts[1], port)], parts[3..])
  {
  }

  /** A peer's three fields in front of other fields are assigned as that peer. */
  lemma FillPeersTriple(m: Table, p: Peer, tail: seq<string>)
    ensures FillPeers(m, [p.nick, p.ip, IntToString(p.port)] + tail) == FillPeers(m[p.nick := Addr(p.ip, p.port)], tail)
  {
    var parts := [p.nick, p.ip, IntToString(p.port)] + tail;
    ParseIntToString(p.port);
    assert parts[3..] == tail;
    FillPeersStep(m, parts, p.port);
  }

  /** The fields of a run of peers are the first peer's three followed by the others'. */
  lemma FieldsCons(good: seq<Peer>, rest: seq<string>)
    requires good != []
    ensures Fields(good) + rest == [good[0].nick, good[0].ip, IntToString(good[0].port)] + (Fields(good[1..]) + rest)
  {
    AppendAssoc([good[0].nick, good[0].ip, IntToString(good[0].port)], Fields(good[1..]), rest);
  }

  /**
   * Well-formed triples in front are assigned in order, and the loop goes
   * on from the fields after them; in particular, when those fields are
   * malformed, the table holds exactly the entries parsed before.
   */
  lemma {:induction false} FillPeersFields(m: Table, good: seq<Peer>, rest: seq<string>)
    ensures FillPeers(m, Fields(good) + rest) == FillPeers(Upserts(m, good), rest)
    decreases |good|
  {
    if good != [] {
      var p := good[0];
      FieldsCons(good, rest);
      FillPeersTriple(m, p, Fields(good[1..]) + rest);
      FillPeersFields(m[p.nick := Addr(p.ip, p.port)], good[1..], rest);
    } else {
      assert Fields(good) + rest == rest;
    }
  }

  // ---------------------------------------------------------------------------
  // UPDATE:JOIN and UPDATE:LEAVE

  /** The message's third colon field, the nickname an UPDATE is about, is `k`. */
  predicate Names(message: string, k: string) {
    var parts := Split(message, ':');
    |parts| >= 3 && parts[2] == k
  }

  /**
   * `update_peer_status`: with at least five colon fields and an integer
   * port, JOIN sets the nickname's entry and LEAVE deletes it if present;
   * anything else raises inside the `try` and changes nothing. Either way
   * no other nickname's entry changes.
   */
  function PeerStatus(peers: Table, message: string): (r: Table)
    ensures forall k | k in peers && !Names(message, k) :: k in r && r[k] == peers[k]
    ensures forall k | k in r && !Names(message, k) :: k in peers
  {
    var parts := Split(message, ':');
    if |parts| < 5 then peers
    else match ParseInt(parts[4])
      case None => peers
      case Some(port) =>
        if parts[1] == "JOIN" then peers[parts[2] := Addr(parts[3], port)]
        else if parts[1] == "LEAVE" then peers - {parts[2]}
        else peers
  }

  // ---------------------------------------------------------------------------
  // BROADCAST

  /**
   * `display_broadcast`: the nickname is the second field, the length the
   * third; the content is every field from the fourth on joined with ":"
   * again and cut to `content[:length]`. A missing field or a length that
   * is not an integer shows nothing.
   */
  function DisplayedBroadcast(message: string): (r: Option<Broadcast>)
    ensures r.Some? <==> |Split(message, ':')| >= 3 && ParseInt(Split(message, ':')[2]).Some?
    ensures r.Some? ==> ':' !in r.value.nick && r.value.content <= Join(':', Split(message, ':')[3..])
  {
    var parts := Split(message, ':');
    if |parts| < 3 then None
    else match ParseInt(parts[2])
      case None => None
      case Some(length) => Some(Broadcast(parts[1], Take(Join(':', parts[3..]), length)))
  }

  // ---------------------------------------------------------------------------
  // Dispatch

  /** `process_server_message`: dispatch on the prefix; any other message changes nothing. */
  function Process(cs: ClientState, message: string): (r: ClientState)
    ensures cs.shown <= r.shown
  {
    if StartsWith(message, "LIST:") then cs.(peers := PeerList(message))
    else if StartsWith(message, "UPDATE:JOIN:") || StartsWith(message, "UPDATE:LEAVE:") then
      cs.(peers := PeerStatus(cs.peers, message))
    else if StartsWith(message, "BROADCAST:") then
      match DisplayedBroadcast(message)
      case None => cs
      case Some(b) => cs.(shown := cs.shown + [b])
    else cs
  }

  /** Server messages handled in order; what has been shown stays shown. */
  function ProcessAll(cs: ClientState, messages: seq<string>): (r: ClientState)
    ensures cs.shown <= r.shown
    decreases |messages|
  {
    if messages == [] then cs
    else
      var last := |messages| - 1;
      Process(ProcessAll(cs, messages[..last]), messages[last])
  }

  /** One more message handled after a run of them. */
  lemma ProcessAllSnoc(cs: ClientState, messages: seq<string>, m: string)
    ensures ProcessAll(cs, messages + [m]) == Process(ProcessAll(cs, messages), m)
  {
    assert (messages + [m])[..|messages|] == messages;
  }

  /** Handling two runs of messages one after the other is handling them as one run. */
  lemma {:induction false} ProcessAllAppend(cs: ClientState, a: seq<string>, b: seq<string>)
    ensures ProcessAll(cs, a + b) == ProcessAll(ProcessAll(cs, a), b)
    decreases |b|
  {
    if b == [] {
      assert a + b == a;
    } else {
      var last := |b| - 1;
      assert (a + b)[..|a + b| - 1] == a + b[..last];
      ProcessAllAppend(cs, a, b[..last]);
    }
  }

  /** A LIST replaces the table: nothing from the table before it survives. */
  lemma ListReplaces(cs: ClientState, other: ClientState, message: string)
    requires StartsWith(message, "LIST:")
    ensures Process(cs, message).peers == Process(other, message).peers == PeerList(message)
    ensures Process(cs, message).shown == cs.shown
  {
  }

  /** An UPDATE with fewer than five colon fields, or whose port is not an integer, changes nothing. */
  lemma MalformedUpdateIgnored(cs: ClientState, message: string)
    requires StartsWith(message, "UPDATE:JOIN:") || StartsWith(message, "UPDATE:LEAVE:")
    requires var parts := Split(message, ':'); |parts| < 5 || ParseInt(parts[4]).None?
    ensures Process(cs, message) == cs
  {
    assert message[0] == 'U';
  }

  /** A BROADCAST without a third field, or whose length is not an integer, shows nothing. */
  lemma MalformedBroadcastIgnored(cs: ClientState, message: string)
    requires StartsWith(message, "BROADCAST:")
    requires var parts := Split(message, ':'); |parts| < 3 || ParseInt(parts[2]).None?
    ensures Process(cs, message) == cs
  {
    assert message[0] == 'B';
  }

  /** A message matching none of the four prefixes changes nothing. */
  lemma UnknownIgnored(cs: ClientState, message: string)
    requires !StartsWith(message, "LIST:") && !StartsWith(message, "UPDATE:JOIN:")
    requires !StartsWith(message, "UPDATE:LEAVE:") && !StartsWith(message, "BROADCAST:")
    ensures Process(cs, message) == cs
  {
  }
}
