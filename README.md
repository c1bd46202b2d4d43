# Multi-room chat server: command handling, verified in Dafny

This project models the core of a small line-oriented chat server. Clients connect, pick
a nickname, join and leave named rooms, and exchange room broadcasts and direct messages.
The model is written in Dafny and its properties are proved. It covers two Java classes:

- `Server`: the shared list of connections and the room directory;
- `Connection`: one client's handshake, its read loop, and the command handlers
  JOIN, LEAVE, ROOMS, USERS, SEND, HELP and QUIT.

The model has two layers.

- **`Protocol` (protocol.dfy)** is a pure model.
  - A `Registry` holds the connections in accept order and the room directory. Each connection (`Conn`) has an identity, a nickname that is `None` until the handshake, and the set of rooms it has joined.
  - `Step(registry, id, line)` handles one input line. It returns the new registry, the writes in order (`Delivery(to, text)`), and whether the read loop goes on.
  - `Session` runs the read loop over a sequence of lines. `Serve` adds the handshake and the command list in front of it.
  - `ProtocolLemmas` (protocol_lemmas.dfy) proves what each command does and does not change, the registry invariant, and properties of whole sessions.
- **`ChatServer` (chat_server.dfy)** has the two classes, with the fields the Java code updates in place.
  - `Server` has `connectionList` and `roomList`.
  - `Connection` has `nickname` and `roomList`.
  - Every handler is a method. Those that change state carry a `modifies` clause, and the
    reply-only ones (`DisplayCommands`, `DisplayRooms`, `DisplayUsers`, `SendMsg`, `Answer`)
    change nothing. Each method's `ensures` states that the objects afterwards represent (through `Server.Model`) exactly the registry that the matching `Protocol` function produces, and that the writes it returns are that function's writes. The loops over the shared list carry invariants that tie the writes built so far to the prefix of the list visited.
  - As a result, every property proved of `Protocol` holds of the objects.

Writes to a client's output stream are returned as a write log, not performed. Each entry
names the connection whose stream receives the text.

**`Tokenizer` (tokenizer.dfy)** is this model's own definition of the whitespace splitter the
server calls: Apache Commons Lang `StringUtils.split` with a null separator, once unlimited
and once with a limit of 3. It is an assumption about that library, not a copy of it:

- tokens are maximal runs of non-whitespace characters, using Java's `Character.isWhitespace`;
- no token is empty;
- with a limit, the last field is the rest of the line from that field's first character on.

**`Sequences` (sequences.dfy)** holds two generic helpers: the first-occurrence search that
`ArrayList.remove(Object)` performs, and order-preserving filtering.

Behaviours of the code worth knowing, all of which the model keeps:

- A room broadcast is written as `<@room>. nick : message`, with a full stop after the
  closing bracket.
- A direct message reaches every connection whose nickname equals the recipient, not one
  chosen connection. Nicknames are not unique.
- Only QUIT removes a connection from the list. At the end of the input the read loop stops
  and the connection stays listed, although its socket is closed (Connection.java:78).
  `SessionEnds` proves both halves. What a later write to such a connection does is under
  "Left out".
- The read loop stops reading at the first QUIT, so lines after it are never handled.
- A connection's nickname is `None` (Java's `null`) until its handshake. Concatenating it
  prints `null`, which `NickText` models.

## Model

| member | source | states |
|---|---|---|
| `Sequences.FirstIndex` | Server.java:39 | the index of the first occurrence of the element, every earlier entry differs from it, and the index is the length exactly when the element is absent |
| `Tokenizer.SplitWorker` | Connection.java:66 | with a positive limit there are at most that many fields; every field is non-empty and starts with a non-whitespace character; every field but the last is a whitespace-free token, and so is the last one when the limit is not reached |
| `Tokenizer.Split` | Connection.java:51 | every word of the unlimited split is a non-empty token without whitespace |
| `Tokenizer.SplitJoinWords` | Connection.java:51 | round trip: tokens joined by single spaces split back into exactly those tokens |
| `Tokenizer.SplitLimitedFields` | Connection.java:66 | the limited split has min(limit, word count) fields; each field before the last is the corresponding word; when the words fit under the limit the fields are the words |
| `Tokenizer.SplitLimitedSuffix` | Connection.java:66 | with at least `limit` words, the last field is a suffix of the line, i.e. the remainder of the line |
| `Tokenizer.SplitLimitedRest` | Connection.java:66 | with at least `limit` words, the words of the last field are exactly the line's words from position limit - 1 on |
| `Protocol.AcceptConn` | Server.java:55-57 | accepting appends the new connection at the end with no nickname and no rooms, keeps every earlier entry and leaves the directory as it is |
| `Protocol.RemoveConn` | Server.java:38-40 | removing a listed connection shortens the list by one, removing an unlisted one changes nothing, and without duplicates the removed identity is gone and the rest stay distinct |
| `Protocol.ServerRooms` | Server.java:24-31 | the fixed "There are no rooms." text exactly when the directory is empty, otherwise a listing of exactly the directory |
| `Protocol.Parse` | Connection.java:53-74 | a case-sensitive exact match: a word is an unknown command exactly when it is none of the seven command words, and a recognised command's name is the word itself |
| `Protocol.Step` | Connection.java:50-75 | no line removes a directory entry; the loop continues exactly when the line is not QUIT; and every line other than QUIT keeps the list's identities and nicknames |
| `Protocol.JoinStep` | Connection.java:153-162 | JOIN's effect and reply; no contract of its own, its properties are stated by `ProtocolLemmas.JoinAddsRoom`, `JoinWithoutRoom` and `JoinIdempotent` |
| `Protocol.LeaveStep` | Connection.java:134-140 | LEAVE's effect and reply; no contract of its own, stated by `ProtocolLemmas.LeaveDropsRoom` and `LeaveWithoutRoom` |
| `Protocol.RoomsReply` | Connection.java:129-131 | the ROOMS reply; no contract of its own, stated by `ProtocolLemmas.RoomsListsDirectory` through `Protocol.ServerRooms` |
| `Protocol.UsersReply` | Connection.java:82-99 | the USERS reply; no contract of its own, stated by `ProtocolLemmas.UsersListsMembers` and `UsersWithoutRoom` |
| `Protocol.SendReply` | Connection.java:165-194 | the SEND reply on the three fields; no contract of its own, stated by `ProtocolLemmas.SendWithoutMessage`, `SendToRoom` and `SendToNickname` |
| `Protocol.QuitStep` | Connection.java:197-202 | QUIT's effect and goodbye; no contract of its own, stated by `ProtocolLemmas.QuitRemovesConnection` |
| `Protocol.Handshake` | Connection.java:102-112 | promptNick; no contract of its own, stated by `ProtocolLemmas.HandshakeBindsNickname` and `HandshakePreservesInv` |
| `Protocol.Session` | Connection.java:50-78 | the read loop up to the first QUIT or the end of input; no contract of its own, stated by `ProtocolLemmas.SessionPreservesInv`, `SessionKeepsDirectory`, `JoinedRoomStaysListed`, `SessionEnds` and `LinesAfterQuitUnread` |
| `Protocol.Serve` | Connection.java:44-79 | connectionManager: the handshake, the command list, then the read loop; no contract of its own, `ChatServer.Connection.ConnectionManager` is proved equal to it and `ProtocolLemmas.ServePreservesInv` states that it keeps the invariant |
| `ProtocolLemmas.RemoveConnKeepsOrder` | Server.java:38-40 | on a list without duplicates, removal yields exactly the other connections, in their original relative order (a subsequence) |
| `ProtocolLemmas.MembersExactly` | Connection.java:88-89 | the members of a room are a subsequence of the list, every listed connection that joined the room is among them, and every one of them joined it |
| `ProtocolLemmas.NamedExactly` | Connection.java:188 | the connections a direct message targets are a subsequence of the list, include every connection with that nickname, and all have that nickname |
| `ProtocolLemmas.ParseName` | Connection.java:54-68 | each command word dispatches back to its own command |
| `ProtocolLemmas.EmptyLineIgnored` | Connection.java:51-52 | a line with no words writes nothing and changes nothing |
| `ProtocolLemmas.UnknownCommandReported` | Connection.java:71-74 | any other first word writes exactly "Unknown command: word" to the issuer alone and changes nothing |
| `ProtocolLemmas.JoinAddsRoom` | Connection.java:153-158 | JOIN room puts room into the issuer's rooms and into the directory, keeps the issuer's other rooms and nickname and every other connection, and replies "You have now joined room" |
| `ProtocolLemmas.JoinWithoutRoom` | Connection.java:159-161 | JOIN alone replies "Please enter a room name to join" and changes nothing |
| `ProtocolLemmas.JoinIdempotent` | Connection.java:153-158 | the same JOIN line handled twice leaves the state and reply of handling it once |
| `ProtocolLemmas.LeaveDropsRoom` | Connection.java:134-139 | LEAVE room removes room from the issuer's rooms only, keeps the directory and every other connection, and replies "You have now left room" whether or not the issuer had joined it |
| `ProtocolLemmas.LeaveWithoutRoom` | Connection.java:134-140 | LEAVE alone writes nothing and changes nothing |
| `ProtocolLemmas.RoomsListsDirectory` | Connection.java:129-131 | ROOMS writes one line to the issuer: the no-rooms text exactly when the directory is empty, otherwise the listing of the whole directory; nothing changes |
| `ProtocolLemmas.UsersListsMembers` | Connection.java:82-96 | USERS room writes the nickname line of each member in list order, and "The room is empty" exactly when there is no member; nothing changes |
| `ProtocolLemmas.NickLineIsNotEmptyRoomText` | Connection.java:90-95 | a nickname line can never be mistaken for the empty-room text |
| `ProtocolLemmas.UsersWithoutRoom` | Connection.java:97-98 | USERS alone replies "Please enter a room name" and changes nothing |
| `ProtocolLemmas.HelpListsCommands` | Connection.java:68-69 | HELP writes the command list to the issuer and changes nothing |
| `ProtocolLemmas.SendDispatched` | Connection.java:65-67 | a SEND line is handled on its three-field split, without any change of state |
| `ProtocolLemmas.SendWithoutMessage` | Connection.java:165-168 | SEND with fewer than three words replies "Please enter a message" to the sender only and changes nothing |
| `ProtocolLemmas.SendFields` | Connection.java:66 | the recipient field is the second word, and the message field is the rest of the line whose words are the line's words from the third on |
| `ProtocolLemmas.SendToRoom` | Connection.java:171-184 | SEND @room writes "<@room>. nick : message" to exactly the room's members, in list order, and changes nothing |
| `ProtocolLemmas.RoomMessageReachesMembers` | Connection.java:180-184 | a listed connection receives a room message exactly when it has joined the room, the sender included |
| `ProtocolLemmas.SendToNickname` | Connection.java:186-190 | SEND nick writes "<sender> : message" to exactly the connections with that nickname, in list order; to an unknown nickname it writes nothing at all |
| `ProtocolLemmas.QuitRemovesConnection` | Connection.java:197-200 | QUIT ends the loop, removes the issuer and only the issuer, keeps the others in order and the directory, and says "Goodbye, nick" |
| `ProtocolLemmas.HandshakeBindsNickname` | Connection.java:102-111 | the first word of the reply line becomes the nickname, the prompt and "Welcome, nick!" are written, and nothing else changes |
| `ProtocolLemmas.StepPreservesInv` | Connection.java:134-162 | every command keeps the invariant: distinct identities, each joined room in the directory, nicknames are single words |
| `ProtocolLemmas.QuitPreservesInv` | Connection.java:197-198 | removing a connection keeps the invariant |
| `ProtocolLemmas.JoinPreservesInv` | Connection.java:156-157 | JOIN inserts into both the connection's rooms and the directory, so the invariant holds |
| `ProtocolLemmas.LeavePreservesInv` | Connection.java:137 | LEAVE shrinks only the connection's rooms, so the invariant holds |
| `ProtocolLemmas.AcceptPreservesInv` | Server.java:55-57 | appending a connection not yet listed keeps the invariant |
| `ProtocolLemmas.HandshakePreservesInv` | Connection.java:107-109 | binding a nickname keeps the invariant |
| `ProtocolLemmas.SessionPreservesInv` | Connection.java:50-76 | the invariant holds after every read loop |
| `ProtocolLemmas.ServePreservesInv` | Connection.java:44-79 | over a connection's whole lifetime (handshake, command list, read loop) identities stay distinct, joined rooms stay inside the directory and nicknames stay single words |
| `ProtocolLemmas.SessionKeepsDirectory` | Server.java:33-35 | over a whole session the directory only grows, and the list keeps its identities unless the session quits |
| `ProtocolLemmas.LinesAfterQuitUnread` | Connection.java:54-56 | a session whose first line is QUIT is ready whatever follows, equals that line's step alone, and ends the loop |
| `ProtocolLemmas.DirectSendBeforeQuitExactly` | Connection.java:54-56 | the read loop reaches a direct SEND (so every connection must be handshaken) exactly when some line is a direct SEND with no QUIT before it |
| `ProtocolLemmas.JoinedRoomStaysListed` | Connection.java:156-157 | once a session joins a room before any QUIT, that room is in the directory at the end of the session |
| `ProtocolLemmas.SessionEnds` | Connection.java:50-78 | the read loop ends by QUIT exactly when some line is QUIT; the connection is still listed exactly when the loop reached the end of its input |
| `ChatServer.WriteToRoom` | Connection.java:177-184 | the loop over the list writes the text to each room member, in list order |
| `ChatServer.WriteToNick` | Connection.java:177-190 | the loop over the list writes the text to each connection with the nickname, in list order |
| `ChatServer.Server.constructor` | Server.java:18-22 | a new server has no connections and no rooms |
| `ChatServer.Server.GetServerRooms` | Server.java:24-31 | the directory text of `roomList`, equal to `Protocol.ServerRooms`: the no-rooms text exactly when no room exists, otherwise the listing of the rooms |
| `ChatServer.Server.AddServerRoom` | Server.java:33-35 | inserts the name into the directory (an idempotent set insert) and leaves the list alone |
| `ChatServer.Server.RemoveConnection` | Server.java:38-40 | the server afterwards represents the registry with that connection removed by `ArrayList.remove` |
| `ChatServer.Server.Accept` | Server.java:55-57 | a fresh connection of this server is appended, unnamed and in no room |
| `ChatServer.Connection.constructor` | Connection.java:19-26 | a new connection belongs to its server, has no nickname and is in no room |
| `ChatServer.Connection.PromptNick` | Connection.java:102-112 | the state and writes equal the handshake's |
| `ChatServer.Connection.DisplayCommands` | Connection.java:115-126 | writes the command list to this connection |
| `ChatServer.Connection.JoinRoom` | Connection.java:153-162 | the state and writes equal JOIN's |
| `ChatServer.Connection.LeaveRoom` | Connection.java:134-140 | the state and writes equal LEAVE's |
| `ChatServer.Connection.DisplayRooms` | Connection.java:129-131 | writes the ROOMS reply |
| `ChatServer.Connection.DisplayUsers` | Connection.java:82-99 | the loop over the list writes exactly the USERS reply |
| `ChatServer.Connection.SendMsg` | Connection.java:165-194 | writes exactly the SEND reply for the three fields |
| `ChatServer.Connection.Quit` | Connection.java:197-202 | the state and writes equal QUIT's, and the loop ends |
| `ChatServer.Connection.HandleLine` | Connection.java:51-75 | one pass of the read loop changes the objects and writes exactly as `Protocol.Step` |
| `ChatServer.Connection.Answer` | Connection.java:61-74 | the commands that only reply write exactly what `Protocol.Step` writes and change nothing |
| `ChatServer.Connection.ConnectionManager` | Connection.java:44-79 | the handshake, the command list and the read loop change the objects and write exactly as `Protocol.Serve` |

## Left out

- Sockets, streams, `BufferedReader` and `clientSocket.close()`. Input is given as the nickname line plus the command lines, and output is the returned write log. Closing the socket after QUIT or at the end of input is not modelled.
- The read-ahead of the second `BufferedReader` that `promptNick` opens over the same stream (Connection.java:46, 106). It can swallow command lines that arrive together with the nickname line. The model assumes each line reaches the reader it is meant for.
- Threads: `Thread`, `run()`, `start()`, and any interleaving of two connections' handlers on the shared list and directory. The model handles one line of one connection at a time.
- The accept loop, port binding and `main` (Server.java:48-70). Accepting is modelled as one step, `Server.Accept`.
- `printStackTrace` and other logging.
- The static `connectionList` is modelled as a field of the single `Server` object.
- `Server.getConnectionList`, `Connection.getNickname` and `Connection.inRoom` are plain accessors, `GetConnectionList`, `GetNickname` and `InRoom`, without contracts of their own. The methods that use them carry the proofs.
- Protocol.ServerRooms: the non-empty ROOMS reply is `SetListing(names, suffix)`, not the characters `HashSet.toString` prints. The order of that rendering is unspecified.
- ChatServer.Server.GetServerRooms: the same listing abstraction as `Protocol.ServerRooms`.
- Tokenizer.SplitWorker: defines its own whitespace split instead of the library's code. The library's treatment of a null line is not modelled. At Connection.java:51 and :66 the line is never null. The null line at Connection.java:108 is the crash that `PromptNick`'s precondition excludes (next line).
- ChatServer.Connection.PromptNick: requires the reply line to have a word. On a missing or blank line the source throws an exception from `parsedInput[0]`, or from a null line, and that connection's thread dies. The crash is modelled as a precondition.
- ChatServer.Connection.SendMsg: for a direct message it requires every listed connection to have completed its handshake. The source calls `equals` on each connection's nickname and throws on one that is still null. The same requirement appears in `StepReady` and `SessionReady`. The recipient of a SEND with three fields is never empty, so `charAt(0)` cannot fail.
- ChatServer.WriteToNick: requires every connection of the list to be named, for the same reason.
- ChatServer.Connection.ConnectionManager: requires a handshake line with a word, and requires all listed connections to be named when the loop reaches a direct SEND, that is, when one comes before any QUIT (`SessionReady`, characterised by `ProtocolLemmas.DirectSendBeforeQuitExactly`). These are the two crash paths above. Lines after a QUIT demand nothing (`ProtocolLemmas.LinesAfterQuitUnread`).
- Writes to a closed connection. A connection whose input ended is still listed, but its socket was closed at Connection.java:78. A later room message or direct message that reaches it calls `out.write` (Connection.java:149, via 183 or 189) on a closed socket. That throws an `IOException` in the sender's thread, which abandons the rest of the sender's delivery loop. The exception is caught at Connection.java:32-33, so the sender's read loop ends without QUIT and the sender stays listed. The model records every such write as delivered, and the sender's loop goes on.
