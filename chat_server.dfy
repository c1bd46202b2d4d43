/** The server's objects: the Server that owns the connection list and the room directory,
    and one Connection per client, whose handlers update its own fields and the server's in
    place. Every handler is proved to do what Protocol's function for it does to the
    registry the objects represent (Server.Model), so the properties proved about Protocol
    hold of the objects.

    Writes to a client's output stream are returned as the handler's write log rather than
    performed: each Delivery names the connection whose stream receives the text. */
module ChatServer {
  import opened Sequences
  import opened Tokenizer
  import opened Protocol
  import opened ProtocolLemmas

  /** The registry entries of the connections cs, in list order. */
  function Views(cs: seq<Connection>): (v: seq<Conn<Connection>>)
    reads cs
    ensures |v| == |cs| && Ids(v) == cs
    ensures forall i :: 0 <= i < |cs| ==> v[i] == cs[i].View()
  {
    seq(|cs|, i requires 0 <= i < |cs| reads cs => cs[i].View())
  }

  /** Views of a prefix extended by one connection: what the loops over the list rely on. */
  lemma ViewsSnoc(cs: seq<Connection>, i: nat)
    requires i < |cs|
    ensures Views(cs[..i + 1]) == Views(cs[..i]) + [cs[i].View()]
  {
    assert cs[..i + 1] == cs[..i] + [cs[i]];
  }

  /** One more connection of the list seen by a room message: it is written to exactly when
      it has joined the room. */
  lemma RoomLoopStep(cs: seq<Connection>, i: nat, room: string, text: Text)
    requires i < |cs|
    ensures Broadcast(Members(Views(cs[..i + 1]), room), text)
         == Broadcast(Members(Views(cs[..i]), room), text)
            + (if room in cs[i].roomList then [Delivery(cs[i], text)] else [])
  {
    ViewsSnoc(cs, i);
    MembersAppend(Views(cs[..i]), [cs[i].View()], room);
    BroadcastAppend(Members(Views(cs[..i]), room), Members([cs[i].View()], room), text);
  }

  /** One more connection of the list seen by a direct message: it is written to exactly
      when its nickname is the recipient. */
  lemma DirectLoopStep(cs: seq<Connection>, i: nat, nick: string, text: Text)
    requires i < |cs|
    ensures Broadcast(Named(Views(cs[..i + 1]), nick), text)
         == Broadcast(Named(Views(cs[..i]), nick), text)
            + (if cs[i].nickname == Some(nick) then [Delivery(cs[i], text)] else [])
  {
    ViewsSnoc(cs, i);
    NamedAppend(Views(cs[..i]), [cs[i].View()], nick);
    BroadcastAppend(Named(Views(cs[..i]), nick), Named([cs[i].View()], nick), text);
  }

  /** One more connection of the list seen by USERS: its nickname line is written exactly
      when it has joined the room. */
  lemma UsersLoopStep(to: Connection, cs: seq<Connection>, i: nat, room: string)
    requires i < |cs|
    ensures Members(Views(cs[..i + 1]), room)
         == Members(Views(cs[..i]), room) + (if room in cs[i].roomList then [cs[i].View()] else [])
    ensures NickLines(to, Members(Views(cs[..i + 1]), room))
         == NickLines(to, Members(Views(cs[..i]), room))
            + (if room in cs[i].roomList then [Delivery(to, Plain(NickText(cs[i].nickname) + "\n"))] else [])
  {
    ViewsSnoc(cs, i);
    MembersAppend(Views(cs[..i]), [cs[i].View()], room);
    NickLinesAppend(to, Members(Views(cs[..i]), room), Members([cs[i].View()], room));
  }

  /** The writes of a room message: one to each connection of cs that has joined the room,
      in list order. */
  method WriteToRoom(cs: seq<Connection>, room: string, text: Text) returns (out: seq<Delivery<Connection>>)
    ensures out == Broadcast(Members(Views(cs), room), text)
  {
    out := [];
    var i := 0;
    while i < |cs|
      invariant 0 <= i <= |cs|
      invariant out == Broadcast(Members(Views(cs[..i]), room), text)
    {
      var connection := cs[i];
      RoomLoopStep(cs, i, room, text);
      if connection.InRoom(room) {
        out := out + [Delivery(connection, text)];
      }
      i := i + 1;
    }
    assert cs[..i] == cs;
  }

  /** The writes of a direct message: one to each connection of cs whose nickname is nick,
      in list order. */
  method WriteToNick(cs: seq<Connection>, nick: string, text: Text) returns (out: seq<Delivery<Connection>>)
    requires AllNamed(Views(cs))
    ensures out == Broadcast(Named(Views(cs), nick), text)
  {
    out := [];
    var i := 0;
    while i < |cs|
      invariant 0 <= i <= |cs|
      invariant out == Broadcast(Named(Views(cs[..i]), nick), text)
    {
      var connection := cs[i];
      assert Nicks(Views(cs))[i] == connection.nickname;
      var name := connection.GetNickname();
      DirectLoopStep(cs, i, nick, text);
      if name.value == nick {
        out := out + [Delivery(connection, text)];
      }
      i := i + 1;
    }
    assert cs[..i] == cs;
  }

  class Server {
    /** Every accepted connection that has not quit, in accept order. */
    var connectionList: seq<Connection>
    /** Every room name any connection has joined. */
    var roomList: set<string>

    /** The registry this server and its connections represent. */
    function Model(): Registry<Connection>
      reads this, connectionList
    {
      Registry(Views(connectionList), roomList)
    }

    constructor ()
      ensures connectionList == [] && roomList == {}
    {
      connectionList := [];
      roomList := {};
    }

    /** The directory's text, as `ServerRooms` defines it from `roomList`. */
    function GetServerRooms(): (t: Text)
      reads this
      ensures t == ServerRooms(roomList)
    {
      ServerRooms(roomList)
    }

    /** Records a room name in the directory; the list of connections is untouched. */
    method AddServerRoom(roomName: string)
      modifies this
      ensures roomList == old(roomList) + {roomName}
      ensures connectionList == old(connectionList)
    {
      roomList := roomList + {roomName};
    }

    /** ArrayList.remove(Object): drops the first occurrence of connection, if any. */
    method RemoveConnection(connection: Connection)
      modifies this
      ensures Model() == old(Model()).(conns := RemoveConn(old(Model()).conns, connection))
    {
      ghost var v := Views(connectionList);
      var i := FirstIndex(connectionList, connection);
      assert i == FirstIndex(Ids(v), connection);
      if i < |connectionList| {
        connectionList := connectionList[..i] + connectionList[i + 1..];
        assert Views(connectionList) == v[..i] + v[i + 1..];
      }
    }

    /** The shared list itself, as every connection sees it. */
    function GetConnectionList(): seq<Connection>
      reads this
    {
      connectionList
    }

    /** One turn of the accept loop: a new connection, without a nickname and in no room,
        is appended to the list. */
    method Accept() returns (connection: Connection)
      modifies this
      ensures fresh(connection) && connection.server == this
      ensures Model() == AcceptConn(old(Model()), connection)
    {
      connection := new Connection(this);
      ghost var v := Views(connectionList);
      assert connection !in connectionList;
      connectionList := connectionList + [connection];
      assert Views(connectionList) == v + [Conn(connection, None, {})];
    }
  }

  class Connection {
    const server: Server
    /** None until the handshake binds one (Java's null). */
    var nickname: Option<string>
    /** The rooms this client has joined. */
    var roomList: set<string>

    constructor (server: Server)
      ensures this.server == server && nickname == None && roomList == {}
    {
      this.server := server;
      nickname := None;
      roomList := {};
    }

    /** This connection's registry entry. */
    function View(): Conn<Connection>
      reads this
    {
      Conn(this, nickname, roomList)
    }

    function GetNickname(): Option<string>
      reads this
    {
      nickname
    }

    predicate InRoom(roomName: string)
      reads this
    {
      roomName in roomList
    }

    /** The entry the registry holds for this connection is this connection's own state. */
    lemma LookupSelf(cs: seq<Connection>)
      requires this in cs
      ensures Listed(Views(cs), this) && Lookup(Views(cs), this) == View()
    {
      var c := Lookup(Views(cs), this);
      var k :| 0 <= k < |cs| && Views(cs)[k] == c;
    }

    /** promptNick: asks for a nickname, binds the first word of the reply and welcomes the
        client under it. */
    method PromptNick(userInput: string) returns (out: seq<Delivery<Connection>>)
      requires this in server.connectionList && Split(userInput) != []
      modifies this
      ensures Outcome(server.Model(), out, true) == Handshake(old(server.Model()), this, userInput)
    {
      ghost var cl := server.connectionList;
      out := [Delivery(this, Plain(NickPrompt))];
      var parsedInput := Split(userInput);
      nickname := Some(parsedInput[0]);
      out := out + [Delivery(this, Plain("Welcome, " + parsedInput[0] + "!\n\n"))];
      assert Views(cl) == Update(old(Views(cl)), this, Nicknamed(parsedInput[0]));
    }

    /** displayCommands: writes the command list. */
    method DisplayCommands() returns (out: seq<Delivery<Connection>>)
      ensures out == [Delivery(this, Plain(HelpText))]
    {
      out := [Delivery(this, Plain(HelpText))];
    }

    /** joinRoom: adds the room to this connection's rooms and to the server's directory. */
    method JoinRoom(parsedInput: seq<string>) returns (out: seq<Delivery<Connection>>)
      requires this in server.connectionList
      modifies this, server
      ensures Outcome(server.Model(), out, true) == JoinStep(old(server.Model()), this, parsedInput)
    {
      if |parsedInput| > 1 {
        ghost var cl := server.connectionList;
        var roomName := parsedInput[1];
        roomList := roomList + {roomName};
        server.AddServerRoom(roomName);
        out := [Delivery(this, Plain("You have now joined " + roomName + "\n"))];
        assert Views(cl) == Update(old(Views(cl)), this, Joined(roomName));
      } else {
        out := [Delivery(this, Plain(AskJoinText))];
      }
    }

    /** leaveRoom: removes the room from this connection's rooms, member or not. */
    method LeaveRoom(parsedInput: seq<string>) returns (out: seq<Delivery<Connection>>)
      requires this in server.connectionList
      modifies this
      ensures Outcome(server.Model(), out, true) == LeaveStep(old(server.Model()), this, parsedInput)
    {
      if |parsedInput| > 1 {
        ghost var cl := server.connectionList;
        var roomName := parsedInput[1];
        roomList := roomList - {roomName};
        out := [Delivery(this, Plain("You have now left " + roomName + "\n"))];
        assert Views(cl) == Update(old(Views(cl)), this, Left(roomName));
      } else {
        out := [];
      }
    }

    /** displayRooms: writes the directory's text and a line break. */
    method DisplayRooms() returns (out: seq<Delivery<Connection>>)
      ensures out == RoomsReply(server.Model(), this)
    {
      out := [Delivery(this, WithSuffix(server.GetServerRooms(), "\n"))];
    }

    /** displayUsers: writes the nickname of every member of the room, in list order, or
        the empty-room text when it has none. */
    method DisplayUsers(parsedInput: seq<string>) returns (out: seq<Delivery<Connection>>)
      ensures out == UsersReply(server.Model(), this, parsedInput)
    {
      if |parsedInput| > 1 {
        var roomName := parsedInput[1];
        var connectionList := server.GetConnectionList();
        var isEmpty := true;
        out := [];
        var i := 0;
        while i < |connectionList|
          invariant 0 <= i <= |connectionList|
          invariant out == NickLines(this, Members(Views(connectionList[..i]), roomName))
          invariant isEmpty <==> Members(Views(connectionList[..i]), roomName) == []
        {
          var connection := connectionList[i];
          UsersLoopStep(this, connectionList, i, roomName);
          if connection.InRoom(roomName) {
            out := out + [Delivery(this, Plain(NickText(connection.nickname) + "\n"))];
            isEmpty := false;
          }
          i := i + 1;
        }
        assert connectionList[..i] == connectionList;
        if isEmpty {
          out := out + [Delivery(this, Plain(EmptyRoomText))];
        }
      } else {
        out := [Delivery(this, Plain(AskRoomText))];
      }
    }

    /** sendMsg: with fewer than three fields asks for a message; otherwise writes the
        message to every member of the room the recipient names, or to every connection
        whose nickname is the recipient, in list order. */
    method SendMsg(parsedInput: seq<string>) returns (out: seq<Delivery<Connection>>)
      requires this in server.connectionList
      requires |parsedInput| >= 3 ==> parsedInput[1] != []
      requires |parsedInput| >= 3 && parsedInput[1][0] != RoomSentinel ==> AllNamed(server.Model().conns)
      ensures out == SendReply(server.Model(), this, parsedInput)
    {
      if |parsedInput| < 3 {
        out := [Delivery(this, Plain(AskMessageText))];
      } else {
        var recipient, message := parsedInput[1], parsedInput[2];
        var isRoom := recipient[0] == RoomSentinel;
        var connectionList := server.GetConnectionList();
        LookupSelf(connectionList);
        if isRoom {
          out := WriteToRoom(connectionList, recipient, RoomMessage(recipient, NickText(nickname), message));
        } else {
          out := WriteToNick(connectionList, recipient, DirectMessage(NickText(nickname), message));
        }
      }
    }

    /** quit: removes this connection from the server's list and says goodbye. */
    method Quit() returns (out: seq<Delivery<Connection>>)
      requires this in server.connectionList
      modifies server
      ensures Outcome(server.Model(), out, false) == QuitStep(old(server.Model()), this)
    {
      LookupSelf(server.connectionList);
      server.RemoveConnection(this);
      out := [Delivery(this, Plain("Goodbye, " + NickText(nickname) + "\n"))];
    }

    /** The body of connectionManager's read loop: dispatches one input line on its first
        word. */
    method HandleLine(userInput: string) returns (out: seq<Delivery<Connection>>, open: bool)
      requires StepReady(server.Model(), this, userInput)
      modifies this, server
      ensures Outcome(server.Model(), out, open) == Step(old(server.Model()), this, userInput)
    {
      var parsedInput := Split(userInput);
      open := true;
      if parsedInput == [] {
        out := [];
        return;
      }
      var command := parsedInput[0];
      if command == "QUIT" {
        out := Quit();
        open := false;
      } else if command == "JOIN" {
        out := JoinRoom(parsedInput);
      } else if command == "LEAVE" {
        out := LeaveRoom(parsedInput);
      } else {
        out := Answer(userInput);
      }
    }

    /** The commands of the read loop that only write replies. */
    method Answer(userInput: string) returns (out: seq<Delivery<Connection>>)
      requires StepReady(server.Model(), this, userInput)
      requires Split(userInput) != [] && Split(userInput)[0] !in {"QUIT", "JOIN", "LEAVE"}
      ensures Step(server.Model(), this, userInput) == Outcome(server.Model(), out, true)
    {
      var parsedInput := Split(userInput);
      var command := parsedInput[0];
      if command == "ROOMS" {
        out := DisplayRooms();
      } else if command == "USERS" {
        out := DisplayUsers(parsedInput);
      } else if command == "SEND" {
        var parsedMessage := SplitWorker(userInput, 3);
        out := SendMsg(parsedMessage);
      } else if command == "HELP" {
        out := DisplayCommands();
      } else {
        out := [Delivery(this, Plain("Unknown command: " + command + "\n"))];
      }
    }

    /** connectionManager: the handshake, the command list, then one line at a time until
        QUIT or the end of the input. */
    method ConnectionManager(nickInput: string, lines: seq<string>) returns (out: seq<Delivery<Connection>>, open: bool)
      requires this in server.connectionList && Split(nickInput) != []
      requires SessionReady(Handshake(server.Model(), this, nickInput).registry, this, lines)
      modifies this, server
      ensures Outcome(server.Model(), out, open) == Serve(old(server.Model()), this, nickInput, lines)
    {
      out := PromptNick(nickInput);
      var help := DisplayCommands();
      out := out + help;
      open := true;
      var i := 0;
      while i < |lines|
        invariant 0 <= i <= |lines|
        invariant SessionReady(server.Model(), this, lines[i..])
        invariant Continue(Outcome(server.Model(), out, true), this, lines[i..])
               == Serve(old(server.Model()), this, nickInput, lines)
      {
        ContinueStep(server.Model(), this, lines, i, out);
        var written, more := HandleLine(lines[i]);
        out := out + written;
        if !more {
          open := false;
          return;
        }
        i := i + 1;
      }
      assert out + [] == out;
    }
  }
}
