# P2P group chat: the protocol core in Dafny

This project models the text protocol that the chat server
(`src/server/server.py`) and the chat client (`src/client/client.py`) speak
over TCP, and proves what each side does with every message.

- **Framing** (`Framing.dfy`). Both sides append each received chunk to a
  buffer. They cut every `"\r\n"`-terminated message off its front, in
  order, and keep the unterminated tail. `Deframe` is what that loop
  computes. The lemmas prove four things:
  - nothing is lost or reordered;
  - no terminator stays in the buffer;
  - messages free of `"\r\n"` come back as sent;
  - where the stream is cut into reads does not matter.
- **Message texts** (`Wire.dfy`). These are the f-strings for
  `REGISTER`, `LIST`, `UPDATE:JOIN`, `UPDATE:LEAVE` and `BROADCAST`, and
  how each one splits back into its fields under `split(":")`. The Python
  string built-ins they rely on are in `PyText.dfy`: `split`, `join`,
  `strip`, `int`, `str`, `s[:n]` and `startswith`.
- **Server** (`ServerSpec.dfy`, `ServerNode.dfy`).
  - State: the directory `Server.clients` is a sequence of connection ids, in
    order. The fields of each connection's `Client` object are kept by id.
    Every `conn.send` appends a frame to that connection's outbox.
  - `ServerSpec` gives each handler step as a function and proves its
    effects: REGISTER, BROADCAST, unknown messages, end-of-stream and read
    error.
  - `ServerNode.Server` is the same state as an object. Its fields are
    updated in place by the actual loops: the send loop of
    `_notify_everyone` and the buffer loop of `_thread_manage_client`. Each
    method is proved to produce exactly the `ServerSpec` state.
- **Client** (`ClientSpec.dfy`, `ClientNode.dfy`).
  - The peer table is a map from nickname to `(ip, port)`. It is rewritten by
    `LIST`, `UPDATE:JOIN` and `UPDATE:LEAVE`. The broadcasts the client
    displays are recorded in order.
  - `ClientNode.ChatClient` runs the in-place versions: the table fill loop of
    `update_peer_list` and the buffer loop of `server_listener`. It also
    records the frames it sends.
- **Both sides together** (`EndToEnd.dfy`). Each lemma follows a message from
  the side that writes it to the side that reads it.
  - For a username and IP without `:`, the server reads back the client's
    REGISTER as the client's own nickname, IP and port. The username and IP
    come from `input()`, so nothing stops a `:` (an IPv6 address always
    has one). Such a REGISTER has more than four fields, the server rejects
    it, and the client is never listed.
  - The client reads a LIST as the directory, in order.
  - JOIN and LEAVE set and delete exactly one entry.
  - The LEAVE of a connection that never registered is ignored.
  - For a sender nickname without `:`, a broadcast arrives at every client
    with exactly the sender's nickname and content, less any whitespace
    ending the content, which the server's `strip()` removes. A nickname
    holding `:` is not covered: the server's `split` cuts it at its first
    `:`, and the rest moves into the length and content fields.

A connection can send `REGISTER` twice. It is then listed twice, and both
entries show the connection's latest fields, because the directory holds
references to one `Client` object. Each listed entry receives its own copy
of every notification. A `send` that raises is modelled by the set
`closed`: a connection whose socket has been closed receives nothing, and
the loop goes on with the next entry.

A connection that never registered still sends a LEAVE when it
disconnects: the code sends `UPDATE:LEAVE:(None,):None:None` to every
listed entry. The nickname is the
tuple `(None,)` because of the trailing comma in `Client.__init__`. The model
sends it (`ServerSpec.LeaveText`). `EndToEnd.UnregisteredLeaveIgnored` proves
that clients ignore it.

## Model

| member | source | states |
|---|---|---|
| PyText.StripRight | src/server/server.py:107 | the right end stripped: a prefix of the input that does not end with whitespace, followed in the input by whitespace only |
| PyText.SkipRightAfter | src/server/server.py:107 | in `a + b`, where `a` does not end with whitespace, the trailing whitespace lies wholly in `b` |
| PyText.StripUnspacedLeft | src/server/server.py:107 | a text that does not start with whitespace is stripped only at its right end |
| PyText.StripRightAfter | src/server/server.py:107 | stripping the right end of `a + b`, where `a` does not end with whitespace, strips only `b` |
| PyText.IsSpace | src/server/server.py:86 | a character `strip()` removes is never a digit, a sign, an underscore or a colon, so stripping cannot eat into a number or a field separator |
| PyText.IsIntSpace | src/server/server.py:88 | the whitespace `int()` skips: among ASCII characters exactly `" \t\n\v\f\r"`; all of it is whitespace to `strip()` and none of it is a number character |
| PyText.StartsWithChars | src/server/server.py:117 | `s.startswith(p)` holds exactly when `p` is no longer than `s` and agrees with `s` character by character |
| PyText.SkipLeft | src/server/server.py:86 | `strip()` from the left skips only whitespace and stops at the first other character |
| PyText.SkipRight | src/server/server.py:86 | `strip()` from the right drops only whitespace and stops after the last other character |
| PyText.Strip | src/server/server.py:86 | the stripped text neither starts nor ends with whitespace |
| PyText.StripInfix | src/server/server.py:86 | `strip()` keeps one contiguous piece of the text, and everything it removes around that piece is whitespace |
| PyText.StripKeeps | src/server/server.py:107 | a text that does not start or end with whitespace is unchanged by `strip()` |
| PyText.Split | src/server/server.py:86 | `split(":")` returns at least one field, and no field holds the separator |
| PyText.SplitNoSep | src/client/client.py:70 | a text without the separator splits into itself alone |
| PyText.SplitHasSep | src/server/server.py:87 | a text holding the separator splits into at least two fields |
| PyText.SplitAround | src/client/client.py:70 | a separator cuts the text into the fields of its left side followed by those of its right side |
| PyText.JoinSplit | src/server/server.py:109 | `":".join(s.split(":")) == s` |
| PyText.Join | src/server/server.py:109 | joining at least one separator-free field with `":"` gives text that `split(":")` cuts back into the same fields |
| PyText.SplitCons | src/server/server.py:109 | a separator-free field and `":"` in front of a text put that field in front of the text's fields |
| PyText.DigitTextHead | src/server/server.py:88 | a text `int()` accepts as digits starts with a digit |
| PyText.DigitTextChars | src/server/server.py:88 | a text `int()` accepts as digits holds only digits and underscores |
| PyText.SignedDigitTextChars | src/server/server.py:88 | a sign followed by such a text holds only digits, underscores and signs |
| PyText.StripInside | src/server/server.py:88 | when what survives stripping is all number characters, every character of the text is whitespace or a number character |
| PyText.ParseNumber | src/server/server.py:88 | a number `int()` accepts once the whitespace is gone consists of number characters only |
| PyText.ParseInt | src/server/server.py:88 | `int()` succeeds only on text made of number characters and the whitespace it skips: `" \t\n\v\f\r"` and non-ASCII whitespace, but not U+001C..U+001F |
| PyText.NonNumeralIsNotInt | src/client/client.py:71 | `int()` raises on a text holding a letter, a colon or any other character that is neither skipped whitespace nor part of a number |
| PyText.SeparatorIsNotInt | src/server/server.py:88 | `int()` raises on a text holding one of U+001C..U+001F, although `strip()` removes them |
| PyText.DigitChar | src/server/server.py:97 | the digit character for 0..9 has that value |
| PyText.NatToString | src/server/server.py:97 | `str(n)` of a natural number is a non-empty string of digits |
| PyText.IntToString | src/server/server.py:97 | `str(n)` is non-empty, ends in a digit, and is all digits after an optional leading `-` |
| PyText.NatToStringValue | src/server/server.py:97 | the digits `str` writes are a valid decimal literal of the same value |
| PyText.ParseIntOfDigits | src/server/server.py:88 | `int()` of a digit text is its value |
| PyText.ParseIntOfSignedDigits | src/server/server.py:88 | `int()` of `-` and a digit text, which has no whitespace at either end, is the negated value |
| PyText.ParseIntOfNegative | src/client/client.py:71 | `int(str(n)) == n` for a negative `n` |
| PyText.ParseIntToString | src/client/client.py:71 | `int(str(n)) == n` for every integer (within CPython's default limit of 4300 digits, see Left out) |
| PyText.Take | src/client/client.py:87 | `s[:n]` is a prefix of `s` whose length is `n` clamped to `0..len(s)`, counting from the end for negative `n` |
| Framing.NoCrlfUncons | src/server/server.py:63 | `"\r\n" in s` for a non-empty text, in terms of its first character and the rest |
| Framing.NoCr | src/client/client.py:94 | a text without `"\r"` holds no `"\r\n"` |
| Framing.NoCrlfColon | src/client/client.py:94 | joining two texts free of `"\r\n"` with `":"` creates none |
| Framing.NoCrlfPrefix | src/client/client.py:94 | a prefix of a text free of `"\r\n"` is free of it |
| Framing.Frame | src/client/client.py:94 | a message is sent followed by `"\r\n"`; when it holds none of its own, the receiver cuts exactly at the appended terminator and gets the message back |
| Framing.Enframe | src/server/server.py:77-79 | messages sent one after another: the wire text is empty exactly when there are none, and otherwise ends with a terminator, so the last message is terminated too |
| Framing.FindCrlf | src/server/server.py:63-64 | finds no index exactly when `"\r\n"` is absent; otherwise the index found is the first terminator |
| Framing.Deframe | src/server/server.py:63-65 | the buffer loop (also `client.py` lines 39-41) dispatches only messages free of `"\r\n"` and stops with a buffer free of it |
| Framing.CutFirst | src/server/server.py:63-65 | one pass of the loop: the first message is free of `"\r\n"`, it is cut off with its terminator and dispatched before the rest |
| Framing.DeframeCut | src/server/server.py:63-65 | one pass of the loop moves the first message from the buffer to the end of the dispatched ones; what has been dispatched and what the buffer still yields together stay the whole result of deframing |
| Framing.DeframeRebuilds | src/server/server.py:62-65 | the dispatched messages, each followed by `"\r\n"`, then the remaining buffer, concatenate back to the buffer, in stream order |
| Framing.EnframeCons | src/client/client.py:40 | putting one message first on the wire puts its frame first |
| Framing.FindCrlfAfterMessage | src/client/client.py:40 | a message free of `"\r\n"`, its terminator and any text after it are cut at that terminator |
| Framing.DeframeFrame | src/client/client.py:39-41 | a framed message free of `"\r\n"` at the front is dispatched first |
| Framing.DeframeAfterFrames | src/client/client.py:39-41 | framed messages at the front are dispatched first, in order |
| Framing.DeframeAfterFrame | src/client/client.py:39-41 | a framed message free of `"\r\n"` in front of text is dispatched before that text's messages |
| Framing.DeframeEnframe | src/client/client.py:37-41 | messages free of `"\r\n"`, framed and followed by an unterminated tail, are dispatched as sent and the tail is kept |
| Framing.DeframeChunks | src/client/client.py:37-41 | deframing `a` and then the rest plus `b` dispatches the same messages and keeps the same buffer as deframing `a + b` |
| Wire.PeerTexts | src/server/server.py:21 | one `nick:ip:port` text per directory entry |
| Wire.Fields | src/server/server.py:20-21 | three colon fields per entry |
| Wire.ListBody | src/server/server.py:20-21 | the LIST text starts with `LIST:`, and an empty directory gives exactly `LIST:` |
| Wire.JoinBody | src/server/server.py:97 | the JOIN text starts with `UPDATE:JOIN:` |
| Wire.LeaveBody | src/server/server.py:60 | a registered connection's LEAVE text starts with `UPDATE:LEAVE:` |
| Wire.BroadcastBody | src/server/server.py:110 | the BROADCAST text starts with `BROADCAST:` |
| Wire.RegisterBody | src/client/client.py:20 | the REGISTER text starts with `REGISTER:` |
| Wire.IntToStringColonFree | src/server/server.py:97 | `str(port)` holds no `":"` |
| Wire.SplitThree | src/server/server.py:21 | three colon-free texts joined by `":"` split back into the three |
| Wire.PeerText | src/server/server.py:21 | an entry's `nick:ip:port`, with a colon-free nickname and IP, splits into nickname, IP and `str(port)` |
| Wire.PeerTextsFields | src/server/server.py:20-21 | the joined entries split into the entries' fields, in directory order |
| Wire.SplitAfterWord | src/client/client.py:60 | a keyword followed by `":"` splits off as the first field |
| Wire.ListFields | src/server/server.py:20-21 | a non-empty LIST splits into `LIST` followed by every entry's three fields, in directory order |
| Wire.EmptyListFields | src/server/server.py:20-21 | the empty LIST splits into `LIST` and one empty field |
| Wire.UpdateFields | src/server/server.py:60 | an UPDATE text splits into `UPDATE`, the action and the peer's three fields |
| Wire.JoinFields | src/server/server.py:97 | the JOIN text splits into five fields ending with the peer's nickname, IP and port |
| Wire.LeaveFields | src/server/server.py:60 | the LEAVE text of a registered connection splits into five fields ending with its nickname, IP and port |
| Wire.RegisterFields | src/client/client.py:20 | the REGISTER text splits into `REGISTER`, nickname, IP and `str(port)` |
| Wire.BroadcastFields | src/server/server.py:110 | the BROADCAST text splits into keyword, nickname, length and then the content's own fields, colons in the content included |
| ServerSpec.InitialValid | src/server/server.py:34-36 | the new server's empty directory is consistent |
| ServerSpec.Accept | src/server/server.py:46-48 | an accepted connection gets unregistered fields and nothing sent; the directory is unchanged |
| ServerSpec.PeersOf | src/server/server.py:21 | entry `i` of the listed peers is the current fields of directory entry `i` |
| ServerSpec.Directory | src/server/server.py:21 | one listed peer per directory entry |
| ServerSpec.DirectoryColonFree | src/server/server.py:86-88 | every listed nickname and IP holds no `":"`, since both come from a `split(":")` |
| ServerSpec.Repeat | src/server/server.py:77-79 | `n` copies of one frame |
| ServerSpec.Send | src/server/server.py:79 | a send touches no connection set |
| ServerSpec.Fanout | src/server/server.py:77-81 | the send loop touches no connection set |
| ServerSpec.FanoutAt | src/server/server.py:77-81 | after the send loop, an open connection has one more copy of the frame per directory entry it holds, and a closed one has nothing more; a failed send does not stop later sends |
| ServerSpec.FanoutAll | src/server/server.py:77-81 | `FanoutAt` for every connection at once |
| ServerSpec.OutboxValid | src/server/server.py:79 | sending keeps the state consistent |
| ServerSpec.FanoutGrows | src/server/server.py:77-81 | the send loop only appends to outboxes, and appends nothing for a closed connection |
| ServerSpec.OutboxExtends | src/server/server.py:79 | grown outboxes, closed ones unchanged, extend the state |
| ServerSpec.ExtendsTrans | src/server/server.py:63-65 | handling steps compose: the directory and every outbox only grow |
| ServerSpec.ParseRegister | src/server/server.py:86-88 | a parsed REGISTER yields a nickname and IP free of `":"` |
| ServerSpec.NotifyEveryone | src/server/server.py:75-81 | a notification keeps the state consistent, only appends to outboxes, and changes neither the directory nor any fields |
| ServerSpec.SendPeerList | src/server/server.py:17-24 | sending the LIST keeps the state consistent, only appends, and changes neither the directory nor any fields |
| ServerSpec.Enrol | src/server/server.py:92-96 | setting the fields and appending the entry keeps the state consistent and only grows it |
| ServerSpec.RegisterClient | src/server/server.py:83-103 | registration keeps the state consistent and only grows it |
| ServerSpec.RelayedBroadcast | src/server/server.py:107-110 | the re-emitted text is a BROADCAST |
| ServerSpec.BroadcastMessage | src/server/server.py:105-114 | relaying keeps the state consistent and only grows it |
| ServerSpec.ProcessMessage | src/server/server.py:116-122 | dispatching one message keeps the state consistent and only grows it |
| ServerSpec.ProcessAll | src/server/server.py:63-65 | dispatching messages in order keeps the state consistent and only grows it |
| ServerSpec.RemoveFirst | src/server/server.py:71-72 | `remove` takes out exactly one occurrence and adds nothing |
| ServerSpec.LeaveText | src/server/server.py:13 | the LEAVE text starts with `UPDATE:LEAVE:`, registered or not |
| ServerSpec.Drop | src/server/server.py:66-73 | closing and removing keeps the state consistent |
| ServerSpec.EndOfStream | src/server/server.py:58-61 | end-of-stream keeps the state consistent |
| ServerSpec.ReadError | src/server/server.py:66-73 | a read error keeps the state consistent |
| ServerSpec.RegisterSucceeds | src/server/server.py:86-98 | a REGISTER that parses appends exactly one entry, at the end, and sets the fields. Every open connection gets the JOIN once per entry in the new directory, the new one included. Only then does the new client alone get the LIST, whose last entry is itself |
| ServerSpec.RegisterRejected | src/server/server.py:86-88 | a REGISTER with the wrong field count or a non-integer port changes nothing at all |
| ServerSpec.BroadcastDelivers | src/server/server.py:105-114 | a BROADCAST that parses is re-built and sent to every open connection once per entry; one that does not changes nothing |
| ServerSpec.UnknownIgnored | src/server/server.py:116-122 | a message with neither prefix changes nothing |
| ServerSpec.ProcessAllSnoc | src/server/server.py:63-65 | one more message is dispatched after the ones before it |
| ServerSpec.ProcessAllAppend | src/server/server.py:63-65 | dispatching two runs in turn is dispatching them as one run |
| ServerSpec.RemoveFirstAt | src/server/server.py:72 | `remove` deletes the first occurrence and keeps the others in order |
| ServerSpec.EndOfStreamEffects | src/server/server.py:58-61 | every open connection, the departing one included, gets the LEAVE once per entry it holds; then the connection is closed and its first entry removed, the others kept in order |
| ServerSpec.ReadErrorEffects | src/server/server.py:66-73 | a read error sends nothing; the connection is closed and its first entry removed, the others kept in order |
| ServerNode.Server.constructor | src/server/server.py:34-36 | the server starts with an empty directory and no connections |
| ServerNode.Server.Accept | src/server/server.py:46-48 | the object moves to `ServerSpec.Accept` and the new handler's buffer is empty |
| ServerNode.Server.Send | src/server/server.py:79 | one send in place: the frame is appended unless the connection is closed |
| ServerNode.Server.NotifyEveryone | src/server/server.py:75-81 | the in-place send loop yields `ServerSpec.NotifyEveryone` |
| ServerNode.Server.SendPeerList | src/server/server.py:17-24 | the in-place LIST send yields `ServerSpec.SendPeerList` |
| ServerNode.Server.RegisterClient | src/server/server.py:83-103 | the in-place field updates, append and sends yield `ServerSpec.RegisterClient` |
| ServerNode.Server.BroadcastMessage | src/server/server.py:105-114 | the in-place relay yields `ServerSpec.BroadcastMessage` |
| ServerNode.Server.ProcessMessage | src/server/server.py:116-122 | the in-place dispatch yields `ServerSpec.ProcessMessage` |
| ServerNode.Server.Finish | src/server/server.py:68-73 | the `finally` block yields `ServerSpec.Drop` and ends the handler |
| ServerNode.Server.Dispatch | src/server/server.py:63-65 | the buffer loop dispatches exactly the deframed messages, in order, and returns the deframed tail |
| ServerNode.Server.Receive | src/server/server.py:56-65 | an empty chunk yields `ServerSpec.EndOfStream` and ends the handler; otherwise the buffer plus chunk is deframed and dispatched, and the tail kept |
| ServerNode.Server.ReadFailed | src/server/server.py:66-73 | a raising read yields `ServerSpec.ReadError` and ends the handler |
| ClientSpec.Upserts | src/client/client.py:63 | assigning entries never removes a nickname |
| ClientSpec.UpsertsKeys | src/client/client.py:61-63 | after the fill, the table's nicknames are those before plus those assigned |
| ClientSpec.UpsertsLastWins | src/client/client.py:63 | a later duplicate nickname overwrites an earlier one |
| ClientSpec.UpsertsUntouched | src/client/client.py:63 | a nickname not assigned keeps its entry or its absence |
| ClientSpec.FillPeers | src/client/client.py:61-63 | the fill loop never removes a nickname, and every nickname it adds is one of the fields it read |
| ClientSpec.PeerList | src/client/client.py:59-63 | every nickname in the table after a LIST is one of the LIST text's fields after the keyword |
| ClientSpec.FillPeersStep | src/client/client.py:62-63 | one well-formed triple is assigned and the loop goes on after it |
| ClientSpec.FillPeersTriple | src/client/client.py:62-63 | a peer's three fields, its port written by `str`, are assigned as that peer and the loop goes on after them |
| ClientSpec.FillPeersFields | src/client/client.py:61-66 | well-formed triples are assigned in order; on a malformed triple the entries before it stay |
| ClientSpec.PeerStatus | src/client/client.py:68-80 | an UPDATE changes no entry but the one for the nickname it names |
| ClientSpec.DisplayedBroadcast | src/client/client.py:83-87 | a broadcast is shown exactly when the message has a third field and `int()` accepts it; the nickname shown holds no `":"`, and the content shown is a prefix of everything after the third colon |
| ClientSpec.Process | src/client/client.py:47-55 | handling a message never removes a shown broadcast |
| ClientSpec.ProcessAll | src/client/client.py:39-41 | handling messages in order never removes a shown broadcast |
| ClientSpec.ProcessAllSnoc | src/client/client.py:39-41 | one more message is handled after the ones before it |
| ClientSpec.ProcessAllAppend | src/client/client.py:39-41 | handling two runs in turn is handling them as one run |
| ClientSpec.ListReplaces | src/client/client.py:57-60 | the table after a LIST does not depend on the table before; the shown broadcasts are kept |
| ClientSpec.MalformedUpdateIgnored | src/client/client.py:70-71 | an UPDATE with fewer than five fields or a non-integer port changes nothing |
| ClientSpec.MalformedBroadcastIgnored | src/client/client.py:84-86 | a BROADCAST with no length field or a non-integer length shows nothing |
| ClientSpec.UnknownIgnored | src/client/client.py:47-55 | a message matching none of the four prefixes changes nothing |
| ClientNode.ChatClient.constructor | src/client/client.py:5-15 | a new client has an empty table, is not connected and has sent nothing |
| ClientNode.ChatClient.ConnectToServer | src/client/client.py:17-26 | on a successful connect, the REGISTER frame is sent and the listener starts with an empty buffer; otherwise nothing changes |
| ClientNode.ChatClient.UpdatePeerList | src/client/client.py:57-66 | the in-place reset and fill loop yields `ClientSpec.PeerList` |
| ClientNode.ChatClient.UpdatePeerStatus | src/client/client.py:68-80 | the in-place insert or delete yields `ClientSpec.PeerStatus` |
| ClientNode.ChatClient.DisplayBroadcast | src/client/client.py:82-90 | exactly the decoded broadcast, if any, is shown |
| ClientNode.ChatClient.ProcessServerMessage | src/client/client.py:47-55 | the in-place dispatch yields `ClientSpec.Process` |
| ClientNode.ChatClient.Drain | src/client/client.py:39-41 | the buffer loop handles exactly the deframed messages, in order, and leaves the deframed tail in the buffer |
| ClientNode.ChatClient.Receive | src/client/client.py:28-41 | an empty chunk ends the listener; otherwise the buffer plus chunk is deframed, each message handled in order, and the tail kept |
| ClientNode.ChatClient.ReadFailed | src/client/client.py:42-45 | a raising read ends the listener and changes nothing else |
| ClientNode.ChatClient.SendBroadcast | src/client/client.py:92-98 | a connected client sends exactly `BROADCAST:username:len(content):content\r\n`; otherwise nothing is sent |
| EndToEnd.IntToStringNoCrlf | src/client/client.py:20 | `str(port)` holds no `"\r\n"` |
| EndToEnd.OneFrame | src/client/client.py:20 | a body free of `"\r\n"` travels as exactly one message with nothing left over |
| EndToEnd.RegisterRoundTrip | src/client/client.py:20 | for a username and IP without `:`, the server parses the client's REGISTER as the client's own nickname, IP and UDP port |
| EndToEnd.RegisterWithColonRejected | src/server/server.py:86-88 | a username or IP holding `:` makes the REGISTER text split into more than four fields, so the server rejects it |
| EndToEnd.RegisterBodyNoCrlf | src/client/client.py:20 | the REGISTER text holds no `"\r\n"` when the username and IP hold none, since `str()` of the port never does |
| EndToEnd.ConnectRegisters | src/client/client.py:20 | for a username and IP without `:` or `"\r\n"`, the REGISTER frame, deframed and dispatched, appends the connection with the client's own fields |
| EndToEnd.ListDecodesDirectory | src/client/client.py:57-63 | a LIST of colon-free entries is read back as the table built by assigning each entry in directory order; an empty LIST gives an empty table |
| EndToEnd.ListShowsLast | src/client/client.py:57-63 | reading a LIST, the last listed peer is found with its address, and the table's nicknames are exactly the listed ones |
| EndToEnd.RegisteredClientSeesItself | src/server/server.py:96-98 | after its REGISTER the new client gets the JOINs and then the LIST, and reading that LIST it finds itself at the address it registered |
| EndToEnd.JoinUpdatesTable | src/client/client.py:71-74 | the server's JOIN sets exactly the joining peer's entry |
| EndToEnd.LeaveUpdatesTable | src/client/client.py:75-78 | the server's LEAVE deletes exactly the nickname's entry, whatever address it holds, and changes nothing when it is absent |
| EndToEnd.SplitFive | src/server/server.py:60 | five colon-free fields joined by `":"` split back into the five |
| EndToEnd.UnregisteredLeaveFields | src/server/server.py:13 | the LEAVE of a never-registered connection has the five fields `UPDATE`, `LEAVE`, `(None,)`, `None`, `None` |
| EndToEnd.NoneIsNotInt | src/client/client.py:71 | `int("None")` raises |
| EndToEnd.UnregisteredLeaveIgnored | src/server/server.py:60 | the LEAVE of a never-registered connection is ignored by every client |
| EndToEnd.StripBroadcast | src/server/server.py:107 | `strip()` of a BROADCAST text removes only the whitespace that ends its content |
| EndToEnd.BroadcastRelayStrips | src/server/server.py:107-110 | the server re-emits a BROADCAST text, whatever its declared length, with its content's trailing whitespace removed and nothing else changed; a content that does not end with whitespace comes back unchanged |
| EndToEnd.DisplayTruncates | src/client/client.py:84-87 | for a nickname without `:`, the client shows the nickname and the content cut to the declared length |
| EndToEnd.BroadcastNoCrlf | src/client/client.py:94 | a BROADCAST whose nickname and content hold no `"\r\n"` holds none |
| EndToEnd.BroadcastShown | src/client/client.py:84-88 | a BROADCAST whose nickname holds no `:` and whose declared length is at least its content's length is shown as exactly that nickname and content |
| EndToEnd.BroadcastRoundTrip | src/client/client.py:94 | for a username without `:` and a content without `"\r\n"`, the sender's frame arrives as one message; the server sends the content, stripped of trailing whitespace, as one frame to every open connection once per entry; the client shows the sender's nickname and that content, which is the content as sent when it does not end with whitespace |
| EndToEnd.ServerChunking | src/server/server.py:57-65 | how `recv` cuts the stream does not change what the server dispatches, its state, or the buffer left |
| EndToEnd.ClientChunking | src/client/client.py:32-41 | how `recv` cuts the stream does not change what the client handles or the buffer left |

## Left out

- Sockets are not modelled, and neither are `accept`, `recv`, `send`, `create_server` or `close`. A received chunk is a parameter. Sent frames are appended to outboxes. Whether `connect` succeeds is a parameter of `ConnectToServer`.
- A `send` that raises on an open connection is not modelled. Only a connection in `closed` (one whose handler has ended) fails to receive.
- ClientNode.ChatClient.SendBroadcast: a send that raises on a connected socket is not modelled. The frame counts as sent whenever the client is connected.
- Threads, daemon flags, `running`, `stop()` and the interleaving of handler threads are not modelled. Each handler step runs to completion, one at a time.
- UTF-8 decoding of 1024-byte chunks is not modelled, including a character split across two reads. Chunks arrive already decoded. A decoding error is one more way a read can raise (`ReadFailed`).
- `print` output and the `__main__` input loops are not modelled. A displayed broadcast is recorded in `shown`.
- The field-count checks of REGISTER and BROADCAST (`src/server/server.py` lines 87 and 108) are `assert` statements, which Python drops under `-O`. The model keeps them, as a run without `-O` does.
- PyText.ParseInt: `int()` accepts only ASCII digits here. Python also accepts other Unicode decimal digits.
- PyText.ParseInt: CPython's default limit of 4300 digits on converting between `int` and `str` (`sys.set_int_max_str_digits`) is not modelled. A longer number is read and written here where CPython raises `ValueError`, so `ParseIntToString` holds for every integer in the model but only for integers of at most 4300 digits in CPython.
- UDP introduction and direct peer-to-peer sessions are not part of these files, so they are not part of this model.
