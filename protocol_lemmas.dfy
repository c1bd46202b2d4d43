/** Properties of the command handling in Protocol: what each command does to the registry
    and what it writes, the registry invariant, and properties of whole sessions. */
module ProtocolLemmas {
  import opened Sequences
  import opened Tokenizer
  import opened Protocol

  // ---------------------------------------------------------------------------
  // The list operations

  /** Updating one connection keeps every identity in place, gives the updated connection
      the new state and leaves every other connection as it was. */
  lemma UpdateFacts<Id>(cs: seq<Conn<Id>>, id: Id, f: Conn<Id> -> Conn<Id>)
    requires forall i :: 0 <= i < |cs| ==> f(cs[i]).id == cs[i].id
    ensures |Update(cs, id, f)| == |cs| && Ids(Update(cs, id, f)) == Ids(cs)
    ensures Listed(cs, id) ==> Lookup(Update(cs, id, f), id) == f(Lookup(cs, id))
    ensures forall i :: 0 <= i < |cs| && cs[i].id != id ==> Update(cs, id, f)[i] == cs[i]
  {
    var cs' := Update(cs, id, f);
    assert Ids(cs') == Ids(cs);
  }

  /** ArrayList.remove on a list without duplicates keeps every other connection, in its
      original relative order. */
  lemma RemoveConnKeepsOrder<Id>(cs: seq<Conn<Id>>, id: Id)
    requires DistinctIds(cs)
    ensures RemoveConn(cs, id) == Others(cs, id)
    ensures IsSubsequence(RemoveConn(cs, id), cs)
  {
    var p := NotId(id);
    var i := FirstIndex(Ids(cs), id);
    if i < |cs| {
      RemoveFound(cs, id, i);
    } else {
      assert Others(cs, id) == cs by {
        assert forall k :: 0 <= k < |cs| ==> Ids(cs)[k] == cs[k].id;
        FilterAll(cs, p);
      }
    }
    FilterIsSubsequence(cs, p);
  }

  /** The case where id is listed, at index i: the entries on either side of i are kept. */
  lemma RemoveFound<Id>(cs: seq<Conn<Id>>, id: Id, i: nat)
    requires DistinctIds(cs) && i < |cs| && i == FirstIndex(Ids(cs), id)
    ensures RemoveConn(cs, id) == Others(cs, id)
  {
    assert Ids(cs)[i] == cs[i].id;
    assert forall k :: 0 <= k < i ==> Ids(cs)[k] == cs[k].id;
    FilterOne(cs, i, NotId(id));
  }

  /** The members of a room are exactly the listed connections that joined it, in list order. */
  lemma MembersExactly<Id>(cs: seq<Conn<Id>>, room: string)
    ensures IsSubsequence(Members(cs, room), cs)
    ensures forall i :: 0 <= i < |cs| && room in cs[i].rooms ==> cs[i] in Members(cs, room)
    ensures forall k :: 0 <= k < |Members(cs, room)| ==>
              Members(cs, room)[k] in cs && room in Members(cs, room)[k].rooms
  {
    FilterIsSubsequence(cs, InRoom(room));
    FilterMembers(cs, InRoom(room));
  }

  /** The connections a direct message reaches are exactly those with that nickname, in list
      order. */
  lemma NamedExactly<Id>(cs: seq<Conn<Id>>, nick: string)
    ensures IsSubsequence(Named(cs, nick), cs)
    ensures forall i :: 0 <= i < |cs| && cs[i].nickname == Some(nick) ==> cs[i] in Named(cs, nick)
    ensures forall k :: 0 <= k < |Named(cs, nick)| ==>
              Named(cs, nick)[k] in cs && Named(cs, nick)[k].nickname == Some(nick)
  {
    FilterIsSubsequence(cs, HasNick(nick));
    FilterMembers(cs, HasNick(nick));
  }

  /** Membership, nickname and broadcast lists of a list made of two parts are made of the
      corresponding parts: what the server's loops over the connection list build up one
      connection at a time. */
  lemma MembersAppend<Id>(a: seq<Conn<Id>>, b: seq<Conn<Id>>, room: string)
    ensures Members(a + b, room) == Members(a, room) + Members(b, room)
  {
    FilterAppend(a, b, InRoom(room));
  }

  lemma NamedAppend<Id>(a: seq<Conn<Id>>, b: seq<Conn<Id>>, nick: string)
    ensures Named(a + b, nick) == Named(a, nick) + Named(b, nick)
  {
    FilterAppend(a, b, HasNick(nick));
  }

  lemma BroadcastAppend<Id>(a: seq<Conn<Id>>, b: seq<Conn<Id>>, text: Text)
    ensures Broadcast(a + b, text) == Broadcast(a, text) + Broadcast(b, text)
  {
  }

  lemma NickLinesAppend<Id>(to: Id, a: seq<Conn<Id>>, b: seq<Conn<Id>>)
    ensures NickLines(to, a + b) == NickLines(to, a) + NickLines(to, b)
  {
  }

  // ---------------------------------------------------------------------------
  // Dispatch

  /** Every recognised command word is dispatched back to its own command. */
  lemma ParseName(c: Command)
    requires !c.Unknown?
    ensures Parse(Name(c)) == c
  {
  }

  /** A line without words writes nothing and changes nothing. */
  lemma EmptyLineIgnored<Id>(r: Registry<Id>, id: Id, line: string)
    requires StepReady(r, id, line) && Split(line) == []
    ensures Step(r, id, line) == Outcome(r, [], true)
  {
  }

  /** Any other first word is reported to the issuer alone, with no change of state. */
  lemma UnknownCommandReported<Id>(r: Registry<Id>, id: Id, line: string)
    requires StepReady(r, id, line) && Split(line) != []
    requires Split(line)[0] !in {"QUIT", "JOIN", "LEAVE", "ROOMS", "USERS", "SEND", "HELP"}
    ensures Step(r, id, line)
         == Outcome(r, [Delivery(id, Plain("Unknown command: " + Split(line)[0] + "\n"))], true)
  {
  }

  // ---------------------------------------------------------------------------
  // JOIN and LEAVE

  /** JOIN room: the issuer is in room afterwards, its other rooms and every other
      connection are unchanged, room is in the directory, and the issuer is told. */
  lemma JoinAddsRoom<Id>(r: Registry<Id>, id: Id, line: string)
    requires StepReady(r, id, line)
    requires |Split(line)| > 1 && Split(line)[0] == "JOIN"
    ensures var o, room := Step(r, id, line), Split(line)[1];
      && o.open
      && o.out == [Delivery(id, Plain("You have now joined " + room + "\n"))]
      && o.registry.directory == r.directory + {room}
      && Ids(o.registry.conns) == Ids(r.conns)
      && Lookup(o.registry.conns, id).rooms == Lookup(r.conns, id).rooms + {room}
      && Lookup(o.registry.conns, id).nickname == Lookup(r.conns, id).nickname
      && (forall i :: 0 <= i < |r.conns| && r.conns[i].id != id ==> o.registry.conns[i] == r.conns[i])
  {
    UpdateFacts(r.conns, id, Joined(Split(line)[1]));
  }

  /** JOIN without a room name asks for one and changes nothing. */
  lemma JoinWithoutRoom<Id>(r: Registry<Id>, id: Id, line: string)
    requires StepReady(r, id, line) && Split(line) == ["JOIN"]
    ensures Step(r, id, line) == Outcome(r, [Delivery(id, Plain(AskJoinText))], true)
  {
  }

  /** Joining the same room twice leaves the state of joining it once, and repeats the reply. */
  lemma JoinIdempotent<Id>(r: Registry<Id>, id: Id, line: string)
    requires StepReady(r, id, line) && Split(line) != [] && Split(line)[0] == "JOIN"
    ensures StepReady(Step(r, id, line).registry, id, line)
    ensures Step(Step(r, id, line).registry, id, line) == Step(r, id, line)
  {
    var words := Split(line);
    if |words| > 1 {
      var f := Joined<Id>(words[1]);
      var cs := Step(r, id, line).registry.conns;
      assert cs == Update(r.conns, id, f);
      UpdateFacts(r.conns, id, f);
      assert Update(cs, id, f) == cs;
    }
  }

  /** LEAVE room: the issuer is no longer in room, its other rooms, every other connection
      and the directory are unchanged, and the issuer is told so whether or not it had
      joined room. */
  lemma LeaveDropsRoom<Id>(r: Registry<Id>, id: Id, line: string)
    requires StepReady(r, id, line)
    requires |Split(line)| > 1 && Split(line)[0] == "LEAVE"
    ensures var o, room := Step(r, id, line), Split(line)[1];
      && o.open
      && o.out == [Delivery(id, Plain("You have now left " + room + "\n"))]
      && o.registry.directory == r.directory
      && Ids(o.registry.conns) == Ids(r.conns)
      && Lookup(o.registry.conns, id).rooms == Lookup(r.conns, id).rooms - {room}
      && Lookup(o.registry.conns, id).nickname == Lookup(r.conns, id).nickname
      && (forall i :: 0 <= i < |r.conns| && r.conns[i].id != id ==> o.registry.conns[i] == r.conns[i])
  {
    UpdateFacts(r.conns, id, Left(Split(line)[1]));
  }

  /** LEAVE without a room name writes nothing and changes nothing. */
  lemma LeaveWithoutRoom<Id>(r: Registry<Id>, id: Id, line: string)
    requires StepReady(r, id, line) && Split(line) == ["LEAVE"]
    ensures Step(r, id, line) == Outcome(r, [], true)
  {
  }

  // ---------------------------------------------------------------------------
  // ROOMS, USERS, HELP

  /** ROOMS writes one line to the issuer: the fixed text exactly when the directory is
      empty, otherwise a listing of exactly the directory. */
  lemma RoomsListsDirectory<Id>(r: Registry<Id>, id: Id, line: string)
    requires StepReady(r, id, line) && Split(line) != [] && Split(line)[0] == "ROOMS"
    ensures var o := Step(r, id, line);
      && o.registry == r && o.open && |o.out| == 1 && o.out[0].to == id
      && (o.out[0].text == Plain(NoRoomsText + "\n") <==> r.directory == {})
      && (r.directory != {} ==> o.out[0].text == SetListing(r.directory, "\n"))
  {
  }

  /** USERS room writes the nickname line of each member of room to the issuer, in list
      order, and the empty-room text exactly when room has no member; nothing changes. */
  lemma UsersListsMembers<Id>(r: Registry<Id>, id: Id, line: string)
    requires StepReady(r, id, line) && Inv(r)
    requires |Split(line)| > 1 && Split(line)[0] == "USERS"
    ensures var o, m := Step(r, id, line), Members(r.conns, Split(line)[1]);
      && o.registry == r && o.open
      && (m != [] ==> o.out == NickLines(id, m))
      && (o.out == [Delivery(id, Plain(EmptyRoomText))] <==> m == [])
  {
    var m := Members(r.conns, Split(line)[1]);
    assert |NickLines(id, m)| == |m|;
    if |m| == 1 {
      MembersExactly(r.conns, Split(line)[1]);
      assert m[0] in r.conns;
      var t := NickText(m[0].nickname);
      assert NickLines(id, m) == [Delivery(id, Plain(t + "\n"))];
      var j :| 0 <= j < |r.conns| && r.conns[j] == m[0];
      NickLineIsNotEmptyRoomText(r.conns[j].nickname);
    }
  }

  /** A nickname line never reads as the empty-room text: a nickname is a token, and "null"
      is too short. */
  lemma NickLineIsNotEmptyRoomText(n: Option<string>)
    requires n.Some? ==> IsToken(n.value)
    ensures NickText(n) + "\n" != EmptyRoomText
  {
    var t := NickText(n);
    if |t| == |EmptyRoomText| - 1 {
      assert t[3] != ' ';
      assert (t + "\n")[3] != EmptyRoomText[3];
    }
  }

  /** USERS without a room name asks for one and changes nothing. */
  lemma UsersWithoutRoom<Id>(r: Registry<Id>, id: Id, line: string)
    requires StepReady(r, id, line) && Split(line) == ["USERS"]
    ensures Step(r, id, line) == Outcome(r, [Delivery(id, Plain(AskRoomText))], true)
  {
  }

  /** HELP writes the command list to the issuer and changes nothing. */
  lemma HelpListsCommands<Id>(r: Registry<Id>, id: Id, line: string)
    requires StepReady(r, id, line) && Split(line) != [] && Split(line)[0] == "HELP"
    ensures Step(r, id, line) == Outcome(r, [Delivery(id, Plain(HelpText))], true)
  {
  }

  // ---------------------------------------------------------------------------
  // SEND

  /** A SEND line is handled by sendMsg on its three-field split, without a change of
      state. */
  lemma SendDispatched<Id>(r: Registry<Id>, id: Id, line: string)
    requires StepReady(r, id, line) && Split(line) != [] && Split(line)[0] == "SEND"
    ensures Step(r, id, line) == Outcome(r, SendReply(r, id, SplitWorker(line, 3)), true)
  {
  }

  /** SEND with fewer than two words after the command asks for a message, writes nothing
      to anyone else and changes nothing. */
  lemma SendWithoutMessage<Id>(r: Registry<Id>, id: Id, line: string)
    requires StepReady(r, id, line)
    requires 0 < |Split(line)| < 3 && Split(line)[0] == "SEND"
    ensures Step(r, id, line) == Outcome(r, [Delivery(id, Plain(AskMessageText))], true)
  {
    SendDispatched(r, id, line);
    SplitLimitedFields(line, 3);
  }

  /** The fields of a SEND line with at least three words: the recipient is the second word,
      and the message is the rest of the line from the third word on. */
  lemma SendFields(line: string)
    requires |Split(line)| >= 3
    ensures var f := SplitWorker(line, 3);
      && |f| == 3 && f[1] == Split(line)[1]
      && IsSuffix(f[2], line)
      && Split(f[2]) == Split(line)[2..]
  {
    SplitLimitedFields(line, 3);
    SplitLimitedSuffix(line, 3);
    SplitLimitedRest(line, 3);
  }

  /** SEND @room: every listed member of the room receives the room message, in list order,
      the sender included when it is a member; nobody else receives anything and nothing
      changes. */
  lemma SendToRoom<Id>(r: Registry<Id>, id: Id, line: string)
    requires StepReady(r, id, line)
    requires |Split(line)| >= 3 && Split(line)[0] == "SEND" && Split(line)[1][0] == RoomSentinel
    ensures |SplitWorker(line, 3)| == 3
    ensures var o, room, message := Step(r, id, line), Split(line)[1], SplitWorker(line, 3)[2];
      && o.registry == r && o.open
      && Recipients(o.out) == Ids(Members(r.conns, room))
      && (forall k :: 0 <= k < |o.out| ==>
            o.out[k].text == RoomMessage(room, NickText(Lookup(r.conns, id).nickname), message))
  {
    SendDispatched(r, id, line);
    SplitLimitedFields(line, 3);
  }

  /** With distinct identities, a listed connection receives a room message exactly when it
      has joined the room. */
  lemma RoomMessageReachesMembers<Id>(cs: seq<Conn<Id>>, room: string, text: Text, i: nat)
    requires DistinctIds(cs) && i < |cs|
    ensures cs[i].id in Recipients(Broadcast(Members(cs, room), text)) <==> room in cs[i].rooms
  {
    var m := Members(cs, room);
    var out := Broadcast(m, text);
    MembersExactly(cs, room);
    if room in cs[i].rooms {
      var k :| 0 <= k < |m| && m[k] == cs[i];
      assert Recipients(out)[k] == cs[i].id;
    }
    if cs[i].id in Recipients(out) {
      var k :| 0 <= k < |out| && Recipients(out)[k] == cs[i].id;
      var j :| 0 <= j < |cs| && cs[j] == m[k];
      assert cs[j].id == cs[i].id;
    }
  }

  /** SEND nickname: every listed connection with that nickname receives the direct message,
      in list order; when none has it nothing at all is written; nothing changes. */
  lemma SendToNickname<Id>(r: Registry<Id>, id: Id, line: string)
    requires StepReady(r, id, line)
    requires |Split(line)| >= 3 && Split(line)[0] == "SEND" && Split(line)[1][0] != RoomSentinel
    ensures |SplitWorker(line, 3)| == 3
    ensures var o, nick, message := Step(r, id, line), Split(line)[1], SplitWorker(line, 3)[2];
      && o.registry == r && o.open
      && Recipients(o.out) == Ids(Named(r.conns, nick))
      && (forall k :: 0 <= k < |o.out| ==>
            o.out[k].text == DirectMessage(NickText(Lookup(r.conns, id).nickname), message))
      && ((forall i :: 0 <= i < |r.conns| ==> r.conns[i].nickname != Some(nick)) ==> o.out == [])
  {
    SendDispatched(r, id, line);
    SplitLimitedFields(line, 3);
    var nick := Split(line)[1];
    var m := Named(r.conns, nick);
    if m != [] {
      NamedExactly(r.conns, nick);
      assert m[0] in r.conns;
    }
  }

  // ---------------------------------------------------------------------------
  // QUIT, the handshake, accepting

  /** QUIT removes the issuer from the list, keeps every other connection in order, says
      goodbye and ends the read loop. */
  lemma QuitRemovesConnection<Id>(r: Registry<Id>, id: Id, line: string)
    requires StepReady(r, id, line) && DistinctIds(r.conns)
    requires Split(line) != [] && Split(line)[0] == "QUIT"
    ensures var o := Step(r, id, line);
      && !o.open
      && !Listed(o.registry.conns, id)
      && o.registry.conns == Others(r.conns, id)
      && o.registry.directory == r.directory
      && o.out == [Delivery(id, Plain("Goodbye, " + NickText(Lookup(r.conns, id).nickname) + "\n"))]
  {
    RemoveConnKeepsOrder(r.conns, id);
  }

  /** The handshake binds the first word of the reply line as the nickname, welcomes the
      client under it, and changes nothing else. */
  lemma HandshakeBindsNickname<Id>(r: Registry<Id>, id: Id, line: string)
    requires Listed(r.conns, id) && Split(line) != []
    ensures var o, nick := Handshake(r, id, line), Split(line)[0];
      && o.open
      && o.out == [Delivery(id, Plain(NickPrompt)), Delivery(id, Plain("Welcome, " + nick + "!\n\n"))]
      && Ids(o.registry.conns) == Ids(r.conns)
      && Lookup(o.registry.conns, id) == Lookup(r.conns, id).(nickname := Some(nick))
      && o.registry.directory == r.directory
      && (forall i :: 0 <= i < |r.conns| && r.conns[i].id != id ==> o.registry.conns[i] == r.conns[i])
  {
    UpdateFacts(r.conns, id, Nicknamed(Split(line)[0]));
  }

  // ---------------------------------------------------------------------------
  // The invariant

  lemma StepPreservesInv<Id>(r: Registry<Id>, id: Id, line: string)
    requires StepReady(r, id, line) && Inv(r)
    ensures Inv(Step(r, id, line).registry)
  {
    var words := Split(line);
    if words != [] {
      match Parse(words[0])
      case Quit => QuitPreservesInv(r, id);
      case Join =>
        if |words| > 1 {
          JoinPreservesInv(r, id, words[1]);
        }
      case Leave =>
        if |words| > 1 {
          LeavePreservesInv(r, id, words[1]);
        }
      case _ =>
    }
  }

  lemma QuitPreservesInv<Id>(r: Registry<Id>, id: Id)
    requires Inv(r)
    ensures Inv(r.(conns := RemoveConn(r.conns, id)))
  {
    RemoveConnKeepsOrder(r.conns, id);
    FilterMembers(r.conns, NotId(id));
  }

  lemma JoinPreservesInv<Id>(r: Registry<Id>, id: Id, room: string)
    requires Inv(r)
    ensures Inv(Registry(Update(r.conns, id, Joined(room)), r.directory + {room}))
  {
    var cs := Update(r.conns, id, Joined(room));
    assert forall i :: 0 <= i < |r.conns| ==> cs[i].rooms <= r.conns[i].rooms + {room};
  }

  lemma LeavePreservesInv<Id>(r: Registry<Id>, id: Id, room: string)
    requires Inv(r)
    ensures Inv(r.(conns := Update(r.conns, id, Left(room))))
  {
    var cs := Update(r.conns, id, Left(room));
    assert forall i :: 0 <= i < |r.conns| ==> cs[i].rooms <= r.conns[i].rooms;
  }

  /** Accepting a connection that is not yet listed keeps the invariant. */
  lemma AcceptPreservesInv<Id>(r: Registry<Id>, id: Id)
    requires !Listed(r.conns, id) && Inv(r)
    ensures Inv(AcceptConn(r, id))
  {
    assert AcceptConn(r, id) == Registry(r.conns + [Conn(id, None, {})], r.directory);
    SnocDistinct(r.conns, Conn(id, None, {}));
  }

  lemma SnocDistinct<Id>(cs: seq<Conn<Id>>, c: Conn<Id>)
    requires DistinctIds(cs) && c.id !in Ids(cs)
    ensures DistinctIds(cs + [c])
  {
    var cs' := cs + [c];
    forall i, j | 0 <= i < j < |cs'|
      ensures cs'[i].id != cs'[j].id
    {
      if j == |cs| {
        assert Ids(cs)[i] == cs'[i].id;
      } else {
        assert cs'[i] == cs[i] && cs'[j] == cs[j];
      }
    }
  }

  lemma HandshakePreservesInv<Id>(r: Registry<Id>, id: Id, line: string)
    requires Listed(r.conns, id) && Split(line) != [] && Inv(r)
    ensures Inv(Handshake(r, id, line).registry)
  {
    UpdateFacts(r.conns, id, Nicknamed(Split(line)[0]));
  }

  /** The invariant holds after every line of a session. */
  lemma {:induction false} SessionPreservesInv<Id>(r: Registry<Id>, id: Id, lines: seq<string>)
    requires SessionReady(r, id, lines) && Inv(r)
    ensures Inv(Session(r, id, lines).registry)
    decreases |lines|
  {
    if lines != [] {
      SessionHead(r, id, lines);
      var o := Step(r, id, lines[0]);
      StepPreservesInv(r, id, lines[0]);
      if o.open {
        SessionPreservesInv(o.registry, id, lines[1..]);
      }
    }
  }

  /** The invariant holds over a connection's whole lifetime: the handshake, the command
      list and every line of the read loop keep it. */
  lemma ServePreservesInv<Id>(r: Registry<Id>, id: Id, nickLine: string, lines: seq<string>)
    requires Listed(r.conns, id) && Split(nickLine) != []
    requires SessionReady(Handshake(r, id, nickLine).registry, id, lines)
    requires Inv(r)
    ensures Inv(Serve(r, id, nickLine, lines).registry)
  {
    var h := Handshake(r, id, nickLine);
    HandshakePreservesInv(r, id, nickLine);
    SessionPreservesInv(h.registry, id, lines);
  }

  // ---------------------------------------------------------------------------
  // Sessions

  /** One turn of the read loop: the rest of a session from line i is that line's step
      followed by the rest from line i + 1, and the loop is ready to take that next line. */
  lemma ContinueStep<Id>(r: Registry<Id>, id: Id, lines: seq<string>, i: nat, out: seq<Delivery<Id>>)
    requires i < |lines| && SessionReady(r, id, lines[i..])
    ensures StepReady(r, id, lines[i])
    ensures var o := Step(r, id, lines[i]);
      && (o.open ==> SessionReady(o.registry, id, lines[i + 1..]))
      && Continue(Outcome(r, out, true), id, lines[i..])
         == Continue(Outcome(o.registry, out + o.out, o.open), id, lines[i + 1..])
  {
    var ls := lines[i..];
    assert ls[0] == lines[i] && ls[1..] == lines[i + 1..];
    SessionReadyTail(r, id, ls);
    ContinueUnfold(r, id, ls, out);
  }

  lemma SessionReadyTail<Id>(r: Registry<Id>, id: Id, lines: seq<string>)
    requires lines != [] && SessionReady(r, id, lines)
    ensures StepReady(r, id, lines[0])
    ensures Step(r, id, lines[0]).open ==> SessionReady(Step(r, id, lines[0]).registry, id, lines[1..])
  {
    var o := Step(r, id, lines[0]);
    assert o.open ==> AllNamed(r.conns) ==> AllNamed(o.registry.conns);
  }

  lemma ContinueUnfold<Id>(r: Registry<Id>, id: Id, lines: seq<string>, out: seq<Delivery<Id>>)
    requires lines != [] && SessionReady(r, id, lines)
    ensures var o := Step(r, id, lines[0]);
      Continue(Outcome(r, out, true), id, lines)
      == Continue(Outcome(o.registry, out + o.out, o.open), id, lines[1..])
  {
    SessionHead(r, id, lines);
    var o := Step(r, id, lines[0]);
    if o.open {
      var rest := Session(o.registry, id, lines[1..]).out;
      assert out + (o.out + rest) == (out + o.out) + rest;
    }
  }

  /** A session is its first line's step continued by the rest of the lines. */
  lemma SessionHead<Id>(r: Registry<Id>, id: Id, lines: seq<string>)
    requires lines != [] && SessionReady(r, id, lines)
    ensures StepReady(r, id, lines[0])
    ensures var o := Step(r, id, lines[0]);
      && (o.open ==> SessionReady(o.registry, id, lines[1..]))
      && Session(r, id, lines) == Continue(o, id, lines[1..])
  {
    SessionReadyTail(r, id, lines);
  }

  /** Rooms only ever enter the directory during a session, and the list keeps its
      identities until the session quits. */
  lemma {:induction false} SessionKeepsDirectory<Id>(r: Registry<Id>, id: Id, lines: seq<string>)
    requires SessionReady(r, id, lines)
    ensures var o := Session(r, id, lines);
      && r.directory <= o.registry.directory
      && (o.open ==> Ids(o.registry.conns) == Ids(r.conns))
    decreases |lines|
  {
    if lines != [] {
      SessionHead(r, id, lines);
      var o := Step(r, id, lines[0]);
      if o.open {
        SessionKeepsDirectory(o.registry, id, lines[1..]);
      }
    }
  }

  /** Once a session has joined a room, the room stays in the directory, so that ROOMS lists
      it for the rest of the session whoever leaves it. */
  lemma JoinedRoomStaysListed<Id>(r: Registry<Id>, id: Id, lines: seq<string>, k: nat)
    requires SessionReady(r, id, lines)
    requires k < |lines| && |Split(lines[k])| > 1 && Split(lines[k])[0] == "JOIN"
    requires forall i :: 0 <= i < k ==> !IsQuit(lines[i])
    ensures Split(lines[k])[1] in Session(r, id, lines).registry.directory
  {
    QuitFreePrefix(lines, k);
    JoinedStaysListed(r, id, lines, k, Split(lines[k])[1]);
  }

  /** line is a JOIN of room. */
  predicate JoinsRoom(line: string, room: string) {
    var words := Split(line);
    |words| > 1 && words[0] == "JOIN" && words[1] == room
  }

  lemma {:induction false} QuitFreePrefix(lines: seq<string>, k: nat)
    requires k <= |lines|
    ensures NoQuitBefore(lines, k) <==> forall i :: 0 <= i < k ==> !IsQuit(lines[i])
  {
    if k > 0 {
      assert forall i :: 0 <= i < k - 1 ==> lines[1..][i] == lines[i + 1];
      QuitFreePrefix(lines[1..], k - 1);
    }
  }

  /** The loop stops reading at a QUIT: whatever follows it is neither handled nor required
      to be handleable, so a session is its QUIT line's step alone. */
  lemma LinesAfterQuitUnread<Id>(r: Registry<Id>, id: Id, lines: seq<string>)
    requires Listed(r.conns, id) && lines != [] && IsQuit(lines[0])
    ensures SessionReady(r, id, lines)
    ensures StepReady(r, id, lines[0]) && Session(r, id, lines) == Step(r, id, lines[0])
    ensures !Session(r, id, lines).open
  {
  }

  /** The read loop reaches a direct SEND exactly when some line is a direct SEND and no line
      before it is a QUIT: only those lines demand that every connection be handshaken. */
  lemma {:induction false} DirectSendBeforeQuitExactly(lines: seq<string>)
    ensures DirectSendBeforeQuit(lines) <==>
              exists i :: 0 <= i < |lines| && IsDirectSend(lines[i]) && NoQuitBefore(lines, i)
  {
    if lines != [] {
      var tail := lines[1..];
      DirectSendBeforeQuitExactly(tail);
      if DirectSendBeforeQuit(lines) && !IsDirectSend(lines[0]) {
        var j :| 0 <= j < |tail| && IsDirectSend(tail[j]) && NoQuitBefore(tail, j);
        assert lines[j + 1] == tail[j];
        assert NoQuitBefore(lines, j + 1);
      }
      if exists i :: 0 <= i < |lines| && IsDirectSend(lines[i]) && NoQuitBefore(lines, i) {
        var i :| 0 <= i < |lines| && IsDirectSend(lines[i]) && NoQuitBefore(lines, i);
        if i > 0 {
          assert tail[i - 1] == lines[i];
          assert IsDirectSend(tail[i - 1]) && NoQuitBefore(tail, i - 1);
        }
      }
    }
  }

  lemma {:induction false} JoinedStaysListed<Id>(r: Registry<Id>, id: Id, lines: seq<string>, k: nat, room: string)
    requires SessionReady(r, id, lines)
    requires k < |lines| && JoinsRoom(lines[k], room) && NoQuitBefore(lines, k)
    ensures room in Session(r, id, lines).registry.directory
    decreases k
  {
    if k == 0 {
      JoinedFirst(r, id, lines);
    } else {
      SessionHead(r, id, lines);
      assert lines[k] == lines[1..][k - 1];
      JoinedStaysListed(Step(r, id, lines[0]).registry, id, lines[1..], k - 1, room);
    }
  }

  lemma JoinedFirst<Id>(r: Registry<Id>, id: Id, lines: seq<string>)
    requires lines != [] && SessionReady(r, id, lines)
    requires |Split(lines[0])| > 1 && Split(lines[0])[0] == "JOIN"
    ensures Split(lines[0])[1] in Session(r, id, lines).registry.directory
  {
    SessionHead(r, id, lines);
    JoinAddsRoom(r, id, lines[0]);
    SessionKeepsDirectory(Step(r, id, lines[0]).registry, id, lines[1..]);
  }

  /** The read loop ends by QUIT exactly when some line is QUIT, and then the connection is
      no longer listed; at the end of input without QUIT it stays listed. */
  lemma SessionEnds<Id>(r: Registry<Id>, id: Id, lines: seq<string>)
    requires SessionReady(r, id, lines) && Inv(r)
    ensures var o := Session(r, id, lines);
      && (o.open <==> forall i :: 0 <= i < |lines| ==> !IsQuit(lines[i]))
      && (o.open <==> Listed(o.registry.conns, id))
  {
    QuitFreePrefix(lines, |lines|);
    SessionEndsByLine(r, id, lines);
  }

  lemma {:induction false} SessionEndsByLine<Id>(r: Registry<Id>, id: Id, lines: seq<string>)
    requires SessionReady(r, id, lines) && Inv(r)
    ensures var o := Session(r, id, lines);
      && (o.open <==> NoQuitBefore(lines, |lines|))
      && (o.open <==> Listed(o.registry.conns, id))
    decreases |lines|
  {
    if lines != [] {
      SessionHead(r, id, lines);
      var o := Step(r, id, lines[0]);
      StepPreservesInv(r, id, lines[0]);
      if o.open {
        SessionEndsByLine(o.registry, id, lines[1..]);
      } else {
        QuitRemovesConnection(r, id, lines[0]);
      }
    }
  }
}
