/**
 * The server as the Python code runs it: one object whose directory list,
 * per-connection `Client` fields and connection buffers are updated in
 * place, one step of a connection handler at a time. Every method is
 * proved to move the state exactly as the matching function of ServerSpec
 * does.
 */
module ServerNode {
  import opened PyText
  import opened Framing
  import opened Wire
  import opened ServerSpec

  class Server {
    /** `self.clients` */
    var clients: seq<ConnId>
    /** The fields of each accepted connection's `Client` object. */
    var info: map<ConnId, Info>
    /** Everything sent so far on each connection. */
    var outbox: map<ConnId, seq<string>>
    /** Connections whose `send` raises. */
    var closed: set<ConnId>
    /** The `buffer` local of every running `_thread_manage_client`. */
    var buffers: map<ConnId, string>

    function Snapshot(): ServerSpec.State
      reads this
    {
      ServerSpec.State(clients, info, outbox, closed)
    }

    predicate Valid()
      reads this
    {
      ServerSpec.Valid(Snapshot()) && buffers.Keys <= info.Keys
    }

    /** `Server(address)`: an empty directory and no connections yet. */
    constructor ()
      ensures Valid()
      ensures Snapshot() == Initial && buffers == map[]
    {
      clients, info, outbox, closed, buffers := [], map[], map[], {}, map[];
    }

    /** `_thread_connection_listener`: a fresh `Client(None, None, None, conn)` and a handler with an empty buffer. */
    method Accept(c: ConnId)
      requires Valid() && c !in info
      modifies this
      ensures Valid()
      ensures Snapshot() == ServerSpec.Accept(old(Snapshot()), c)
      ensures buffers == old(buffers)[c := ""]
    {
      info := info[c := Unregistered];
      outbox := outbox[c := []];
      buffers := buffers[c := ""];
    }

    /** `conn.send(frame)`, its failure caught by the caller. */
    method Send(c: ConnId, frame: string)
      requires c in outbox
      modifies this
      ensures outbox == ServerSpec.Send(old(outbox), closed, c, frame)
      ensures clients == old(clients) && info == old(info) && closed == old(closed) && buffers == old(buffers)
    {
      if c !in closed {
        outbox := outbox[c := outbox[c] + [frame]];
      }
    }

    /** `_notify_everyone(message)` */
    method NotifyEveryone(frame: string)
      requires Valid()
      modifies this
      ensures Valid() && buffers == old(buffers)
      ensures Snapshot() == ServerSpec.NotifyEveryone(old(Snapshot()), frame)
    {
      for i := 0 to |clients|
        invariant clients == old(clients) && info == old(info) && closed == old(closed) && buffers == old(buffers)
        invariant outbox == Fanout(old(outbox), closed, clients[..i], frame)
      {
        assert clients[..i + 1][..i] == clients[..i];
        Send(clients[i], frame);
      }
      assert clients[..|clients|] == clients;
    }

    /** `client.send_peer_list(self.clients)` */
    method SendPeerList(c: ConnId)
      requires Valid() && c in info
      modifies this
      ensures Valid() && buffers == old(buffers)
      ensures Snapshot() == ServerSpec.SendPeerList(old(Snapshot()), c)
    {
      var message := ListBody(Directory(Snapshot())) + Crlf;
      Send(c, message);
    }

    /** `_register_client(message, client)` */
    method RegisterClient(message: string, c: ConnId)
      requires Valid() && c in info
      modifies this
      ensures Valid() && buffers == old(buffers)
      ensures Snapshot() == ServerSpec.RegisterClient(old(Snapshot()), c, message)
    {
      var parsed := ParseRegister(message);
      if parsed.Some? {
        var p := parsed.value;
        info := info[c := Registered(p)];
        clients := clients + [c];
        assert Snapshot() == Enrol(old(Snapshot()), c, p);
        NotifyEveryone(Frame(JoinBody(p)));
        SendPeerList(c);
      }
    }

    /** `broadcast_message(message)` */
    method BroadcastMessage(message: string)
      requires Valid()
      modifies this
      ensures Valid() && buffers == old(buffers)
      ensures Snapshot() == ServerSpec.BroadcastMessage(old(Snapshot()), message)
    {
      var body := RelayedBroadcast(message);
      if body.Some? {
        NotifyEveryone(Frame(body.value));
      }
    }

    /** `process_message(message, client)` */
    method ProcessMessage(message: string, c: ConnId)
      requires Valid() && c in info
      modifies this
      ensures Valid() && buffers == old(buffers)
      ensures Snapshot() == ServerSpec.ProcessMessage(old(Snapshot()), c, message)
    {
      if StartsWith(message, "REGISTER:") {
        RegisterClient(message, c);
      } else if StartsWith(message, "BROADCAST:") {
        BroadcastMessage(message);
      }
    }

    /** The `finally` block: close the connection, remove its first directory entry if any, end the handler. */
    method Finish(c: ConnId)
      requires Valid() && c in buffers
      modifies this
      ensures Valid() && buffers == old(buffers) - {c}
      ensures Snapshot() == Drop(old(Snapshot()), c)
    {
      closed := closed + {c};
      if c in clients {
        clients := RemoveFirst(clients, c);
      }
      buffers := buffers - {c};
    }

    /**
     * The inner loop `while "\r\n" in buffer`: every complete message is
     * cut off the front of `buffer` and dispatched, in order; what is left
     * is returned.
     */
    method Dispatch(c: ConnId, buffer: string) returns (rest: string)
      requires Valid() && c in info
      modifies this
      ensures Valid() && buffers == old(buffers)
      ensures Snapshot() == ProcessAll(old(Snapshot()), c, Deframe(buffer).messages)
      ensures rest == Deframe(buffer).rest
    {
      rest := buffer;
      ghost var dispatched: seq<string> := [];
      while FindCrlf(rest).Some?
        invariant Valid() && buffers == old(buffers) && c in info
        invariant Deframe(buffer) == Framed(dispatched + Deframe(rest).messages, Deframe(rest).rest)
        invariant Snapshot() == ProcessAll(old(Snapshot()), c, dispatched)
        decreases |rest|
      {
        var i := FindCrlf(rest).value;
        var message := rest[..i];
        DeframeCut(Deframe(buffer), dispatched, rest);
        rest := rest[i + 2..];
        ProcessMessage(message, c);
        ProcessAllSnoc(old(Snapshot()), c, dispatched, message);
        dispatched := dispatched + [message];
      }
      assert Deframe(rest) == Framed([], rest);
      assert dispatched + [] == dispatched;
    }

    /**
     * One pass of the handler's outer loop on the chunk `recv` returned. An
     * empty chunk is end-of-stream: the LEAVE goes out and the handler ends.
     * Otherwise the chunk is appended to the buffer and every complete
     * message is dispatched.
     */
    method Receive(c: ConnId, chunk: string)
      requires Valid() && c in buffers
      modifies this
      ensures Valid()
      ensures chunk == [] ==> Snapshot() == EndOfStream(old(Snapshot()), c) && buffers == old(buffers) - {c}
      ensures chunk != [] ==>
        var framed := Deframe(old(buffers[c]) + chunk);
        Snapshot() == ProcessAll(old(Snapshot()), c, framed.messages) && buffers == old(buffers)[c := framed.rest]
    {
      if chunk == [] {
        NotifyEveryone(Frame(LeaveText(info[c])));
        Finish(c);
      } else {
        var rest := Dispatch(c, buffers[c] + chunk);
        buffers := buffers[c := rest];
      }
    }

    /** `recv` raised: no LEAVE, only the `finally` block. */
    method ReadFailed(c: ConnId)
      requires Valid() && c in buffers
      modifies this
      ensures Valid() && buffers == old(buffers) - {c}
      ensures Snapshot() == ReadError(old(Snapshot()), c)
    {
      Finish(c);
    }
  }
}
