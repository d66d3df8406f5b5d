/**
 * The server's protocol core as a state machine over values: what one
 * connection handler does to the directory (`Server.clients`), to the
 * `Client` objects' fields and to every connection's sent frames when it
 * dispatches one message, reaches end-of-stream, or fails to read.
 */
module ServerSpec {
  import opened PyText
  import opened Framing
  import opened Wire

  /** One accepted connection; the listener makes one `Client` object per connection. */
  type ConnId = nat

  /**
   * The fields of a connection's `Client` object. Until a REGISTER succeeds
   * they are `nick == (None,)` (the trailing comma in the constructor makes
   * it a tuple), `ip == None` and `port == None`.
   */
  datatype Info = Unregistered | Registered(peer: Peer)

  datatype State = State(
    clients: seq<ConnId>,              // Server.clients, in order; a connection may be listed twice
    info: map<ConnId, Info>,           // the Client object of every accepted connection
    outbox: map<ConnId, seq<string>>,  // every frame sent on a connection, in order
    closed: set<ConnId>)               // connections whose send raises

  /** Only registered connections are listed. */
  predicate Listed(st: State) {
    forall c | c in st.clients :: c in st.info && st.info[c].Registered?
  }

  predicate Valid(st: State) {
    && st.info.Keys == st.outbox.Keys
    && st.closed <= st.info.Keys
    && Listed(st)
    && (forall c | c in st.info && st.info[c].Registered? :: ColonFree(st.info[c].peer))
  }

  const Initial: State := State([], map[], map[], {})

  lemma InitialValid()
    ensures Valid(Initial)
  {
  }

  /** A new connection gets a fresh `Client(None, None, None, conn)` and nothing has been sent on it. */
  function Accept(st: State, c: ConnId): (r: State)
    requires Valid(st) && c !in st.info
    ensures Valid(r)
    ensures r.info == st.info[c := Unregistered] && r.outbox == st.outbox[c := []]
    ensures r.clients == st.clients && r.closed == st.closed
  {
    st.(info := st.info[c := Unregistered], outbox := st.outbox[c := []])
  }

  function PeersOf(info: map<ConnId, Info>, cs: seq<ConnId>): (r: seq<Peer>)
    requires forall c | c in cs :: c in info && info[c].Registered?
    ensures |r| == |cs|
    ensures forall i | 0 <= i < |cs| :: r[i] == info[cs[i]].peer
  {
    if cs == [] then [] else PeersOf(info, cs[..|cs| - 1]) + [info[cs[|cs| - 1]].peer]
  }

  /** The directory as `send_peer_list` reads it: the current fields of each listed connection, in list order. */
  function Directory(st: State): (r: seq<Peer>)
    requires Listed(st)
    ensures |r| == |st.clients|
  {
    PeersOf(st.info, st.clients)
  }

  /** Every listed peer's nickname and IP hold no ":". */
  lemma DirectoryColonFree(st: State)
    requires Valid(st)
    ensures AllColonFree(Directory(st))
  {
    var dir := Directory(st);
    forall i | 0 <= i < |dir| ensures ColonFree(dir[i]) {
      assert st.clients[i] in st.clients;
    }
  }

  /** `n` copies of a frame. */
  function Repeat(frame: string, n: nat): (r: seq<string>)
    ensures |r| == n
    ensures forall i | 0 <= i < n :: r[i] == frame
  {
    if n == 0 then [] else Repeat(frame, n - 1) + [frame]
  }

  /** How often a connection occurs in the directory. */
  function Count(cs: seq<ConnId>, c: ConnId): nat {
    multiset(cs)[c]
  }

  /** `conn.send(frame)`: the frame is sent unless the connection is closed, when `send` raises and nothing is sent. */
  function Send(outbox: map<ConnId, seq<string>>, closed: set<ConnId>, c: ConnId, frame: string): (r: map<ConnId, seq<string>>)
    requires c in outbox
    ensures r.Keys == outbox.Keys
  {
    if c in closed then outbox else outbox[c := outbox[c] + [frame]]
  }

  /**
   * `_notify_everyone(frame)`: one send per directory entry, in order; a
   * send that raises is caught inside the loop.
   */
  function Fanout(outbox: map<ConnId, seq<string>>, closed: set<ConnId>, dests: seq<ConnId>, frame: string)
    : (r: map<ConnId, seq<string>>)
    requires forall c | c in dests :: c in outbox
    ensures r.Keys == outbox.Keys
    decreases |dests|
  {
    if dests == [] then outbox
    else
      var last := |dests| - 1;
      Send(Fanout(outbox, closed, dests[..last], frame), closed, dests[last], frame)
  }

  /**
   * A failed send keeps no later entry from getting the frame: every open
   * connection gets one copy per directory entry it has, and a closed one
   * gets nothing.
   */
  lemma {:induction false} FanoutAt(outbox: map<ConnId, seq<string>>, closed: set<ConnId>, dests: seq<ConnId>, frame: string, d: ConnId)
    requires forall c | c in dests :: c in outbox
    requires d in outbox
    ensures Fanout(outbox, closed, dests, frame)[d]
         == outbox[d] + (if d in closed then [] else Repeat(frame, Count(dests, d)))
    decreases |dests|
  {
    if dests == [] {
      assert Count(dests, d) == 0;
    } else {
      var last := |dests| - 1;
      var prefix := dests[..last];
      assert dests == prefix + [dests[last]];
      assert Count(dests, d) == Count(prefix, d) + (if dests[last] == d then 1 else 0);
      FanoutAt(outbox, closed, prefix, frame, d);
    }
  }

  /** `FanoutAt` for every connection at once. */
  lemma FanoutAll(outbox: map<ConnId, seq<string>>, closed: set<ConnId>, dests: seq<ConnId>, frame: string)
    requires forall c | c in dests :: c in outbox
    ensures forall d | d in outbox ::
              Fanout(outbox, closed, dests, frame)[d]
                == outbox[d] + (if d in closed then [] else Repeat(frame, Count(dests, d)))
  {
    forall d | d in outbox
      ensures Fanout(outbox, closed, dests, frame)[d]
           == outbox[d] + (if d in closed then [] else Repeat(frame, Count(dests, d)))
    {
      FanoutAt(outbox, closed, dests, frame, d);
    }
  }

  /** Sending changes no state but the outboxes, so it keeps the state valid. */
  lemma OutboxValid(st: State, outbox: map<ConnId, seq<string>>)
    requires Valid(st) && outbox.Keys == st.outbox.Keys
    ensures Valid(st.(outbox := outbox))
  {
  }

  /**
   * Handling only ever adds: no connection is forgotten or closed, the
   * directory is only appended to, every connection's sent frames are only
   * appended to, and a closed connection is sent nothing.
   */
  predicate Extends(st: State, r: State) {
    && r.info.Keys == st.info.Keys
    && r.outbox.Keys == st.outbox.Keys
    && r.closed == st.closed
    && st.clients <= r.clients
    && (forall d | d in st.outbox :: st.outbox[d] <= r.outbox[d])
    && (forall d | d in st.outbox && d in st.closed :: r.outbox[d] == st.outbox[d])
  }

  /** A fan-out only appends to outboxes, and appends nothing to a closed connection's. */
  lemma FanoutGrows(outbox: map<ConnId, seq<string>>, closed: set<ConnId>, dests: seq<ConnId>, frame: string)
    requires forall c | c in dests :: c in outbox
    ensures var r := Fanout(outbox, closed, dests, frame);
      && (forall d | d in outbox :: outbox[d] <= r[d])
      && (forall d | d in outbox && d in closed :: r[d] == outbox[d])
  {
    FanoutAll(outbox, closed, dests, frame);
  }

  /** Replacing the outboxes by grown ones, closed ones untouched, extends the state. */
  lemma OutboxExtends(st: State, outbox: map<ConnId, seq<string>>)
    requires outbox.Keys == st.outbox.Keys
    requires forall d | d in st.outbox :: st.outbox[d] <= outbox[d]
    requires forall d | d in st.outbox && d in st.closed :: outbox[d] == st.outbox[d]
    ensures Extends(st, st.(outbox := outbox))
  {
  }

  lemma ExtendsTrans(a: State, b: State, c: State)
    requires Extends(a, b) && Extends(b, c)
    ensures Extends(a, c)
  {
    forall d | d in a.outbox ensures a.outbox[d] <= c.outbox[d] {
      assert a.outbox[d] <= b.outbox[d] <= c.outbox[d];
    }
  }

  // ---------------------------------------------------------------------------
  // REGISTER

  /**
   * The parsing in `_register_client`: the stripped message must have
   * exactly four colon fields and an integer port, or the `assert` or `int()`
   * raises and the handler swallows it.
   */
  function ParseRegister(message: string): (r: Option<Peer>)
    ensures r.Some? ==> ColonFree(r.value)
  {
    var parts := Split(Strip(message, IsSpace), ':');
    if |parts| != 4 then None
    else match ParseInt(parts[3])
      case None => None
      case Some(port) => Some(Peer(parts[1], parts[2], port))
  }

  /** `_notify_everyone(frame)` on the whole state: only the outboxes change. */
  function NotifyEveryone(st: State, frame: string): (r: State)
    requires Valid(st)
    ensures Valid(r) && Extends(st, r)
    ensures r.clients == st.clients && r.info == st.info
  {
    var outbox := Fanout(st.outbox, st.closed, st.clients, frame);
    OutboxValid(st, outbox);
    FanoutGrows(st.outbox, st.closed, st.clients, frame);
    OutboxExtends(st, outbox);
    st.(outbox := outbox)
  }

  /** `client.send_peer_list(self.clients)`: the LIST of the current directory, to one connection. */
  function SendPeerList(st: State, c: ConnId): (r: State)
    requires Valid(st) && c in st.info
    ensures Valid(r) && Extends(st, r)
    ensures r.clients == st.clients && r.info == st.info
  {
    var outbox := Send(st.outbox, st.closed, c, Frame(ListBody(Directory(st))));
    OutboxValid(st, outbox);
    OutboxExtends(st, outbox);
    st.(outbox := outbox)
  }

  /** The fields of the connection's Client are set and the connection is appended to the directory. */
  function Enrol(st: State, c: ConnId, p: Peer): (r: State)
    requires Valid(st) && c in st.info && ColonFree(p)
    ensures Valid(r) && Extends(st, r)
  {
    st.(info := st.info[c := Registered(p)], clients := st.clients + [c])
  }

  /**
   * `_register_client`: parse; set the fields of the connection's Client;
   * append it to the directory; send the JOIN to every entry (the new one
   * included); then send the new client the LIST. Parsing fails before any
   * change, so a rejected message changes nothing.
   */
  function RegisterClient(st: State, c: ConnId, message: string): (r: State)
    requires Valid(st) && c in st.info
    ensures Valid(r) && Extends(st, r)
  {
    match ParseRegister(message)
    case None => st
    case Some(p) =>
      var enrolled := Enrol(st, c, p);
      var joined := NotifyEveryone(enrolled, Frame(JoinBody(p)));
      var r := SendPeerList(joined, c);
      ExtendsTrans(st, enrolled, joined);
      ExtendsTrans(st, joined, r);
      r
  }

  // ---------------------------------------------------------------------------
  // BROADCAST

  /**
   * What `broadcast_message` re-emits: the stripped message needs at least
   * four colon fields and an integer length; the content is every field
   * from the fourth on, joined with ":" again. The length is not compared
   * with the content.
   */
  function RelayedBroadcast(message: string): (r: Option<string>)
    ensures r.Some? ==> StartsWith(r.value, "BROADCAST:")
  {
    var parts := Split(Strip(message, IsSpace), ':');
    if |parts| < 4 then None
    else match ParseInt(parts[2])
      case None => None
      case Some(length) => Some(BroadcastBody(parts[1], length, Join(':', parts[3..])))
  }

  function BroadcastMessage(st: State, message: string): (r: State)
    requires Valid(st)
    ensures Valid(r) && Extends(st, r)
  {
    match RelayedBroadcast(message)
    case None => st
    case Some(body) => NotifyEveryone(st, Frame(body))
  }

  // ---------------------------------------------------------------------------
  // Dispatch

  /** `process_message`: dispatch on the prefix; any other message is ignored, and nothing raises. */
  function ProcessMessage(st: State, c: ConnId, message: string): (r: State)
    requires Valid(st) && c in st.info
    ensures Valid(r) && Extends(st, r)
  {
    if StartsWith(message, "REGISTER:") then RegisterClient(st, c, message)
    else if StartsWith(message, "BROADCAST:") then BroadcastMessage(st, message)
    else st
  }

  /** The messages of one connection dispatched in order. */
  function ProcessAll(st: State, c: ConnId, messages: seq<string>): (r: State)
    requires Valid(st) && c in st.info
    ensures Valid(r) && Extends(st, r)
    decreases |messages|
  {
    if messages == [] then st
    else
      var last := |messages| - 1;
      var before := ProcessAll(st, c, messages[..last]);
      var r := ProcessMessage(before, c, messages[last]);
      ExtendsTrans(st, before, r);
      r
  }

  // ---------------------------------------------------------------------------
  // Leaving

  /** `list.remove(x)`: the first occurrence goes, the rest keep their order. */
  function RemoveFirst(s: seq<ConnId>, x: ConnId): (r: seq<ConnId>)
    ensures multiset(r) == multiset(s) - multiset{x}
    ensures forall y | y in r :: y in s
  {
    if s == [] then []
    else if s[0] == x then
      assert s == [s[0]] + s[1..];
      s[1..]
    else
      assert s == [s[0]] + s[1..];
      [s[0]] + RemoveFirst(s[1..], x)
  }

  /** The text the LEAVE is built from: a never-registered connection still has its `(None,)`, `None`, `None`. */
  function LeaveText(info: Info): (r: string)
    ensures StartsWith(r, "UPDATE:LEAVE:")
  {
    match info
    case Unregistered => "UPDATE" + ":" + "LEAVE" + ":" + "(None,)" + ":" + "None" + ":" + "None"
    case Registered(p) => LeaveBody(p)
  }

  /** The `finally` block: the connection is closed, and its first directory entry, if any, removed. */
  function Drop(st: State, c: ConnId): (r: State)
    requires Valid(st) && c in st.info
    ensures Valid(r)
  {
    st.(closed := st.closed + {c}, clients := if c in st.clients then RemoveFirst(st.clients, c) else st.clients)
  }

  /**
   * End-of-stream: the LEAVE goes to every directory entry (the departing
   * connection included, and whether or not it ever registered), and then
   * the connection is dropped.
   */
  function EndOfStream(st: State, c: ConnId): (r: State)
    requires Valid(st) && c in st.info
    ensures Valid(r)
  {
    Drop(NotifyEveryone(st, Frame(LeaveText(st.info[c]))), c)
  }

  /** A read that raises: no LEAVE, only the `finally` block. */
  function ReadError(st: State, c: ConnId): (r: State)
    requires Valid(st) && c in st.info
    ensures Valid(r)
  {
    Drop(st, c)
  }

  // ---------------------------------------------------------------------------
  // Properties

  /**
   * A REGISTER that parses appends exactly one entry, at the end; every
   * open connection gets the JOIN once per entry it has in the new
   * directory; after that, and only to the new client, the LIST, whose last
   * entry is the new client itself.
   */
  lemma RegisterSucceeds(st: State, c: ConnId, message: string, p: Peer)
    requires Valid(st) && c in st.info
    requires StartsWith(message, "REGISTER:") && ParseRegister(message) == Some(p)
    ensures var r := ProcessMessage(st, c, message);
      && r.clients == st.clients + [c]
      && r.info == st.info[c := Registered(p)]
      && r.closed == st.closed
      && Directory(r)[|r.clients| - 1] == p
      && forall d | d in st.outbox ::
           r.outbox[d] == st.outbox[d]
             + (if d in st.closed then [] else Repeat(Frame(JoinBody(p)), Count(r.clients, d)))
             + (if d == c && d !in st.closed then [Frame(ListBody(Directory(r)))] else [])
  {
    var r := ProcessMessage(st, c, message);
    var enrolled := Enrol(st, c, p);
    var joined := NotifyEveryone(enrolled, Frame(JoinBody(p)));
    FanoutAll(enrolled.outbox, enrolled.closed, enrolled.clients, Frame(JoinBody(p)));
    assert r == SendPeerList(joined, c);
    assert Directory(r) == Directory(joined);
  }

  /** A REGISTER that does not parse leaves the directory, the fields and every outbox as they were. */
  lemma RegisterRejected(st: State, c: ConnId, message: string)
    requires Valid(st) && c in st.info
    requires StartsWith(message, "REGISTER:") && ParseRegister(message).None?
    ensures ProcessMessage(st, c, message) == st
  {
  }

  /**
   * A BROADCAST that parses goes, re-built, to every open connection once
   * per directory entry; nothing else changes. One that does not parse
   * changes nothing.
   */
  lemma BroadcastDelivers(st: State, c: ConnId, message: string)
    requires Valid(st) && c in st.info
    requires StartsWith(message, "BROADCAST:") && !StartsWith(message, "REGISTER:")
    ensures var r := ProcessMessage(st, c, message);
      && r.clients == st.clients && r.info == st.info && r.closed == st.closed
      && match RelayedBroadcast(message)
         case None => r.outbox == st.outbox
         case Some(body) =>
           forall d | d in st.outbox ::
             r.outbox[d] == st.outbox[d] + (if d in st.closed then [] else Repeat(Frame(body), Count(st.clients, d)))
  {
    if RelayedBroadcast(message).Some? {
      FanoutAll(st.outbox, st.closed, st.clients, Frame(RelayedBroadcast(message).value));
    }
  }

  /** A message with neither prefix changes nothing. */
  lemma UnknownIgnored(st: State, c: ConnId, message: string)
    requires Valid(st) && c in st.info
    requires !StartsWith(message, "REGISTER:") && !StartsWith(message, "BROADCAST:")
    ensures ProcessMessage(st, c, message) == st
  {
  }

  /** One more message dispatched after a run of them. */
  lemma ProcessAllSnoc(st: State, c: ConnId, messages: seq<string>, m: string)
    requires Valid(st) && c in st.info
    ensures ProcessAll(st, c, messages + [m]) == ProcessMessage(ProcessAll(st, c, messages), c, m)
  {
    assert (messages + [m])[..|messages|] == messages;
  }

  /** Dispatching two runs of messages one after the other is dispatching them all. */
  lemma {:induction false} ProcessAllAppend(st: State, c: ConnId, a: seq<string>, b: seq<string>)
    requires Valid(st) && c in st.info
    ensures ProcessAll(st, c, a + b) == ProcessAll(ProcessAll(st, c, a), c, b)
    decreases |b|
  {
    if b == [] {
      assert a + b == a;
    } else {
      var last := |b| - 1;
      assert (a + b)[..|a + b| - 1] == a + b[..last];
      ProcessAllAppend(st, c, a, b[..last]);
    }
  }

  /** `remove` takes out the first occurrence and keeps the others in order. */
  lemma {:induction false} RemoveFirstAt(s: seq<ConnId>, x: ConnId, i: nat)
    requires i < |s| && s[i] == x && x !in s[..i]
    ensures RemoveFirst(s, x) == s[..i] + s[i + 1..]
  {
    if i == 0 {
      assert s == [s[0]] + s[1..];
    } else {
      var t := s[1..];
      assert s[0] in s[..i];
      assert t[..i - 1] == s[1..i];
      RemoveFirstAt(t, x, i - 1);
      assert t[i..] == s[i + 1..];
      AppendAssoc([s[0]], s[1..i], s[i + 1..]);
      assert [s[0]] + s[1..i] == s[..i];
    }
  }

  /**
   * End-of-stream: every open connection, the departing one included, gets
   * the LEAVE once per directory entry; then the connection is closed and
   * its first entry removed. A connection registered twice stays listed once.
   */
  lemma EndOfStreamEffects(st: State, c: ConnId)
    requires Valid(st) && c in st.info
    ensures var r := EndOfStream(st, c);
      && r.clients == (if c in st.clients then RemoveFirst(st.clients, c) else st.clients)
      && multiset(r.clients) == multiset(st.clients) - multiset{c}
      && r.info == st.info
      && r.closed == st.closed + {c}
      && forall d | d in st.outbox ::
           r.outbox[d] == st.outbox[d]
             + (if d in st.closed then [] else Repeat(Frame(LeaveText(st.info[c])), Count(st.clients, d)))
  {
    FanoutAll(st.outbox, st.closed, st.clients, Frame(LeaveText(st.info[c])));
  }

  /** A read error sends nothing: the connection is closed and its first entry removed. */
  lemma ReadErrorEffects(st: State, c: ConnId)
    requires Valid(st) && c in st.info
    ensures var r := ReadError(st, c);
      && r.clients == (if c in st.clients then RemoveFirst(st.clients, c) else st.clients)
      && multiset(r.clients) == multiset(st.clients) - multiset{c}
      && r.info == st.info && r.outbox == st.outbox
      && r.closed == st.closed + {c}
  {
    var r := Drop(st, c);
    assert r.clients == (if c in st.clients then RemoveFirst(st.clients, c) else st.clients);
    if c !in st.clients {
      RemoveAbsent(st.clients, c);
    }
  }

  /** Taking away an element that does not occur leaves the multiset as it is. */
  lemma RemoveAbsent(s: seq<ConnId>, x: ConnId)
    requires x !in s
    ensures multiset(s) - multiset{x} == multiset(s)
  {
    assert multiset(s)[x] == 0;
  }
}
