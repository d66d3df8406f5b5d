/**
 * The chat client as the Python code runs it: an object whose peer table
 * is rewritten in place by the server listener, with the frames it sends
 * to the server recorded in order. Every method is proved to move the
 * state exactly as the matching function of ClientSpec does.
 */
module ClientNode {
  import opened PyText
  import opened Framing
  import opened Wire
  import opened ClientSpec

  class ChatClient {
    const username: string
    const clientIp: string
    const udpPort: int

    /** `self.peers` */
    var peers: Table
    /** The broadcasts displayed so far, in order. */
    var shown: seq<Broadcast>
    /** The `buffer` local of `server_listener`. */
    var buffer: string
    /** The server connection is up. */
    var connected: bool
    /** `server_listener` is still reading. */
    var listening: bool
    /** Every frame sent to the server, in order. */
    var sent: seq<string>

    function Snapshot(): ClientState
      reads this
    {
      ClientState(peers, shown)
    }

    /** `Client(ip, port, username, client_ip, udp_port)`: an empty table, not yet connected. */
    constructor (username: string, clientIp: string, udpPort: int)
      ensures this.username == username && this.clientIp == clientIp && this.udpPort == udpPort
      ensures peers == map[] && shown == [] && buffer == [] && sent == []
      ensures !connected && !listening
    {
      this.username, this.clientIp, this.udpPort := username, clientIp, udpPort;
      peers, shown, buffer, sent := map[], [], [], [];
      connected, listening := false, false;
    }

    /**
     * `connect_to_server`: `accepted` is whether `connect` succeeds. On
     * success the REGISTER frame is sent and the listener starts with an
     * empty buffer; on failure, or on a socket already connected, the
     * exception is caught and nothing changes.
     */
    method ConnectToServer(accepted: bool)
      modifies this
      ensures Snapshot() == old(Snapshot())
      ensures !old(connected) && accepted ==>
        && sent == old(sent) + [Frame(RegisterBody(username, clientIp, udpPort))]
        && connected && listening && buffer == []
      ensures old(connected) || !accepted ==>
        sent == old(sent) && connected == old(connected) && listening == old(listening) && buffer == old(buffer)
    {
      if !connected && accepted {
        connected := true;
        sent := sent + [Frame(RegisterBody(username, clientIp, udpPort))];
        buffer, listening := [], true;
      }
    }

    /** `update_peer_list(message)` */
    method UpdatePeerList(message: string)
      modifies this
      ensures peers == PeerList(message)
      ensures shown == old(shown) && buffer == old(buffer) && sent == old(sent)
      ensures connected == old(connected) && listening == old(listening)
    {
      peers := map[];
      var parts := Split(message, ':')[1..];
      var i := 0;
      while i < |parts|
        invariant i <= |parts|
        invariant FillPeers(peers, parts[i..]) == PeerList(message)
        invariant shown == old(shown) && buffer == old(buffer) && sent == old(sent)
        invariant connected == old(connected) && listening == old(listening)
        decreases |parts| - i
      {
        if i + 2 >= |parts| {
          // `parts[i + 1]` or `parts[i + 2]` raises IndexError
          break;
        }
        var port := ParseInt(parts[i + 2]);
        if port.None? {
          // `int(parts[i + 2])` raises ValueError
          break;
        }
        FillPeersStep(peers, parts[i..], port.value);
        assert parts[i..][3..] == parts[i + 3..];
        peers := peers[parts[i] := Addr(parts[i + 1], port.value)];
        i := i + 3;
      }
      assert FillPeers(peers, parts[i..]) == peers;
    }

    /** `update_peer_status(message)` */
    method UpdatePeerStatus(message: string)
      modifies this
      ensures peers == PeerStatus(old(peers), message)
      ensures shown == old(shown) && buffer == old(buffer) && sent == old(sent)
      ensures connected == old(connected) && listening == old(listening)
    {
      var parts := Split(message, ':');
      if |parts| < 5 {
        return;
      }
      var port := ParseInt(parts[4]);
      if port.None? {
        return;
      }
      if parts[1] == "JOIN" {
        peers := peers[parts[2] := Addr(parts[3], port.value)];
      } else if parts[1] == "LEAVE" {
        if parts[2] in peers {
          peers := peers - {parts[2]};
        }
      }
    }

    /** `display_broadcast(message)` */
    method DisplayBroadcast(message: string)
      modifies this
      ensures shown == old(shown) + match DisplayedBroadcast(message) case None => [] case Some(b) => [b]
      ensures peers == old(peers) && buffer == old(buffer) && sent == old(sent)
      ensures connected == old(connected) && listening == old(listening)
    {
      var b := DisplayedBroadcast(message);
      if b.Some? {
        shown := shown + [b.value];
      }
    }

    /** `process_server_message(message)` */
    method ProcessServerMessage(message: string)
      modifies this
      ensures Snapshot() == Process(old(Snapshot()), message)
      ensures buffer == old(buffer) && sent == old(sent)
      ensures connected == old(connected) && listening == old(listening)
    {
      if StartsWith(message, "LIST:") {
        UpdatePeerList(message);
      } else if StartsWith(message, "UPDATE:JOIN:") || StartsWith(message, "UPDATE:LEAVE:") {
        UpdatePeerStatus(message);
      } else if StartsWith(message, "BROADCAST:") {
        DisplayBroadcast(message);
      }
    }

    /**
     * The inner loop `while "\r\n" in buffer`: every complete message is
     * cut off the front of the buffer and handled, in order; what is left
     * stays in the buffer.
     */
    method Drain()
      modifies this
      ensures Snapshot() == ProcessAll(old(Snapshot()), Deframe(old(buffer)).messages)
      ensures buffer == Deframe(old(buffer)).rest
      ensures sent == old(sent) && connected == old(connected) && listening == old(listening)
    {
      ghost var handled: seq<string> := [];
      while FindCrlf(buffer).Some?
        invariant Deframe(old(buffer)) == Framed(handled + Deframe(buffer).messages, Deframe(buffer).rest)
        invariant Snapshot() == ProcessAll(old(Snapshot()), handled)
        invariant sent == old(sent) && connected == old(connected) && listening == old(listening)
        decreases |buffer|
      {
        var i := FindCrlf(buffer).value;
        var message := buffer[..i];
        DeframeCut(Deframe(old(buffer)), handled, buffer);
        buffer := buffer[i + 2..];
        ProcessServerMessage(message);
        ProcessAllSnoc(old(Snapshot()), handled, message);
        handled := handled + [message];
      }
      assert Deframe(buffer) == Framed([], buffer);
      assert handled + [] == handled;
    }

    /**
     * One pass of `server_listener`'s loop on the chunk `recv` returned. An
     * empty chunk means the server closed the connection and the listener
     * ends. Otherwise the chunk is appended to the buffer and every complete
     * message is cut off the front and handled, in order.
     */
    method Receive(chunk: string)
      requires listening
      modifies this
      ensures sent == old(sent) && connected == old(connected)
      ensures chunk == [] ==> Snapshot() == old(Snapshot()) && buffer == old(buffer) && !listening
      ensures chunk != [] ==>
        var framed := Deframe(old(buffer) + chunk);
        Snapshot() == ProcessAll(old(Snapshot()), framed.messages) && buffer == framed.rest && listening
    {
      if chunk == [] {
        listening := false;
        return;
      }
      buffer := buffer + chunk;
      Drain();
    }

    /** `recv` or decoding raised: the listener ends. */
    method ReadFailed()
      modifies this
      ensures !listening
      ensures Snapshot() == old(Snapshot()) && buffer == old(buffer) && sent == old(sent) && connected == old(connected)
    {
      listening := false;
    }

    /** `send_broadcast(content)`: one BROADCAST frame carrying the content and its length. */
    method SendBroadcast(content: string)
      modifies this
      ensures connected ==> sent == old(sent) + [Frame(BroadcastBody(username, |content|, content))]
      ensures !connected ==> sent == old(sent)
      ensures Snapshot() == old(Snapshot()) && buffer == old(buffer)
      ensures connected == old(connected) && listening == old(listening)
    {
      if connected {
        sent := sent + [Frame(BroadcastBody(username, |content|, content))];
      }
    }
  }
}
