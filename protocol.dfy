/** The chat server's command handling, one input line at a time, as a function on values.

    A Registry is the server's shared state: the ordered list of connections (each with its
    identity, its nickname once the handshake has bound one, and the rooms it has joined)
    and the room directory. Handling a line yields the new registry, the text written to
    each connection in write order, and whether the connection's read loop goes on.
    Identities are a type parameter: the server classes instantiate it with the connection
    objects themselves. */
module Protocol {
  import opened Sequences
  import opened Tokenizer

  datatype Option<T> = None | Some(value: T)

  /** One client connection: its identity, its nickname (None until the handshake), and
      the names of the rooms it has joined. */
  datatype Conn<Id> = Conn(id: Id, nickname: Option<string>, rooms: set<string>)

  /** The server's state: connections in accept order, and every room name ever joined. */
  datatype Registry<Id> = Registry(conns: seq<Conn<Id>>, directory: set<string>)

  /** Text written to a connection. SetListing(names, suffix) is Java's rendering of a hash
      set of names, "[a, b, ...]" in an order this model leaves unspecified, followed by
      suffix. */
  datatype Text = Plain(s: string) | SetListing(names: set<string>, suffix: string)

  /** One write of text to the output stream of connection `to`. */
  datatype Delivery<Id> = Delivery(to: Id, text: Text)

  /** The result of handling input: the new state, the writes in order, and whether the
      connection's read loop continues (false once QUIT has been handled). */
  datatype Outcome<Id> = Outcome(registry: Registry<Id>, out: seq<Delivery<Id>>, open: bool)

  /** The commands the dispatcher recognises, and any other first word. */
  datatype Command = Quit | Join | Leave | Rooms | Users | Send | Help | Unknown(token: string)

  const NickPrompt: string := "Enter a nickname: \n"
  const HelpText: string :=
    "These are all available commands: \n" +
    "JOIN @room_name: creates a room by that name if it doesn't exist already, or joins it if it does.\n" +
    "LEAVE @room_name: leaves a room that has been joined.\n" +
    "ROOMS: lists all rooms that have been created\n" +
    "USERS @room_name: lists all users that have joined that room\n" +
    "SEND nickname message: sends a private message to a user with that nickname\n" +
    "SEND @room_name message: sends a public message to users in a room\n" +
    "HELP: shows this list of available commands\n" +
    "QUIT: terminates connection\n"
  const NoRoomsText: string := "There are no rooms."
  const EmptyRoomText: string := "The room is empty\n"
  const AskRoomText: string := "Please enter a room name\n"
  const AskJoinText: string := "Please enter a room name to join\n"
  const AskMessageText: string := "Please enter a message\n"
  /** A SEND recipient starting with this character names a room. */
  const RoomSentinel: char := '@'

  // ---------------------------------------------------------------------------
  // Views of the connection list

  function Ids<Id>(cs: seq<Conn<Id>>): seq<Id> {
    seq(|cs|, i requires 0 <= i < |cs| => cs[i].id)
  }

  function Nicks<Id>(cs: seq<Conn<Id>>): seq<Option<string>> {
    seq(|cs|, i requires 0 <= i < |cs| => cs[i].nickname)
  }

  predicate Listed<Id(==)>(cs: seq<Conn<Id>>, id: Id) {
    id in Ids(cs)
  }

  predicate DistinctIds<Id(==)>(cs: seq<Conn<Id>>) {
    forall i, j :: 0 <= i < j < |cs| ==> cs[i].id != cs[j].id
  }

  /** Every listed connection has completed its handshake. */
  predicate AllNamed<Id>(cs: seq<Conn<Id>>) {
    None !in Nicks(cs)
  }

  /** Java's string concatenation of a possibly null nickname. */
  function NickText(n: Option<string>): string {
    match n
    case Some(s) => s
    case None => "null"
  }

  /** The listed connection with identity id (the first one, should there be several). */
  function Lookup<Id(==)>(cs: seq<Conn<Id>>, id: Id): (c: Conn<Id>)
    requires Listed(cs, id)
    ensures c in cs && c.id == id
    ensures DistinctIds(cs) ==> forall i :: 0 <= i < |cs| && cs[i].id == id ==> cs[i] == c
  {
    cs[FirstIndex(Ids(cs), id)]
  }

  /** The list with f applied to the entry of identity id. */
  function Update<Id(==)>(cs: seq<Conn<Id>>, id: Id, f: Conn<Id> -> Conn<Id>): seq<Conn<Id>> {
    seq(|cs|, i requires 0 <= i < |cs| => if cs[i].id == id then f(cs[i]) else cs[i])
  }

  /** The updates a connection's own handlers make to its state. */
  function Joined<Id>(room: string): Conn<Id> -> Conn<Id> {
    (c: Conn<Id>) => c.(rooms := c.rooms + {room})
  }

  function Left<Id>(room: string): Conn<Id> -> Conn<Id> {
    (c: Conn<Id>) => c.(rooms := c.rooms - {room})
  }

  function Nicknamed<Id>(nick: string): Conn<Id> -> Conn<Id> {
    (c: Conn<Id>) => c.(nickname := Some(nick))
  }

  /** The tests the server's loops apply to each connection of the list. */
  function NotId<Id(==)>(id: Id): Conn<Id> -> bool {
    (c: Conn<Id>) => c.id != id
  }

  function InRoom<Id>(room: string): Conn<Id> -> bool {
    (c: Conn<Id>) => room in c.rooms
  }

  function HasNick<Id>(nick: string): Conn<Id> -> bool {
    (c: Conn<Id>) => c.nickname == Some(nick)
  }

  /** The connections other than id, in list order. */
  function Others<Id(==)>(cs: seq<Conn<Id>>, id: Id): seq<Conn<Id>> {
    Filter(cs, NotId(id))
  }

  /** The connections that have joined room, in list order. */
  function Members<Id>(cs: seq<Conn<Id>>, room: string): seq<Conn<Id>> {
    Filter(cs, InRoom(room))
  }

  /** The connections whose nickname is nick, in list order. */
  function Named<Id>(cs: seq<Conn<Id>>, nick: string): seq<Conn<Id>> {
    Filter(cs, HasNick(nick))
  }

  /** The text written to each of targets, in their order. */
  function Broadcast<Id>(targets: seq<Conn<Id>>, text: Text): seq<Delivery<Id>> {
    seq(|targets|, i requires 0 <= i < |targets| => Delivery(targets[i].id, text))
  }

  /** The receiving connection of each write, in write order. */
  function Recipients<Id>(out: seq<Delivery<Id>>): seq<Id> {
    seq(|out|, i requires 0 <= i < |out| => out[i].to)
  }

  /** The invariant of the registry: identities are distinct, every room a connection has
      joined is in the directory, and every bound nickname is a single word. */
  predicate Inv<Id(==)>(r: Registry<Id>) {
    && DistinctIds(r.conns)
    && (forall i :: 0 <= i < |r.conns| ==> r.conns[i].rooms <= r.directory)
    && (forall i :: 0 <= i < |r.conns| && r.conns[i].nickname.Some? ==> IsToken(r.conns[i].nickname.value))
  }

  // ---------------------------------------------------------------------------
  // The server's list operations

  /** Accepting a connection appends it, without a nickname and in no room. */
  function AcceptConn<Id(==)>(r: Registry<Id>, id: Id): (r': Registry<Id>)
    requires !Listed(r.conns, id)
    ensures |r'.conns| == |r.conns| + 1 && r'.conns[..|r.conns|] == r.conns
    ensures Ids(r'.conns) == Ids(r.conns) + [id]
    ensures Listed(r'.conns, id) && Lookup(r'.conns, id) == Conn(id, None, {})
    ensures r'.directory == r.directory
  {
    var cs := r.conns + [Conn(id, None, {})];
    assert Ids(cs) == Ids(r.conns) + [id];
    assert cs[..|r.conns|] == r.conns;
    assert FirstIndex(Ids(cs), id) == |r.conns| by {
      assert id !in Ids(r.conns);
    }
    Registry(cs, r.directory)
  }

  /** ArrayList.remove(Object): drops the first connection with identity id, if any. */
  function RemoveConn<Id(==)>(cs: seq<Conn<Id>>, id: Id): (cs': seq<Conn<Id>>)
    ensures Listed(cs, id) ==> |cs'| == |cs| - 1
    ensures !Listed(cs, id) ==> cs' == cs
    ensures DistinctIds(cs) ==> !Listed(cs', id) && DistinctIds(cs')
  {
    var i := FirstIndex(Ids(cs), id);
    if i < |cs| then
      var cs' := cs[..i] + cs[i + 1..];
      assert forall k :: 0 <= k < |cs'| ==> cs'[k] == if k < i then cs[k] else cs[k + 1];
      cs'
    else cs
  }

  /** getServerRooms: the fixed text when no room exists, else a listing of the directory. */
  function ServerRooms(directory: set<string>): (t: Text)
    ensures t == Plain(NoRoomsText) <==> directory == {}
    ensures t != Plain(NoRoomsText) ==> t.SetListing? && t.names == directory && t.suffix == ""
  {
    if directory == {} then Plain(NoRoomsText) else SetListing(directory, "")
  }

  function WithSuffix(t: Text, suffix: string): Text {
    match t
    case Plain(s) => Plain(s + suffix)
    case SetListing(names, s) => SetListing(names, s + suffix)
  }

  // ---------------------------------------------------------------------------
  // Command handlers

  /** The dispatcher's choice: a case-sensitive exact match of the first word. */
  function Parse(token: string): (c: Command)
    ensures c.Unknown? <==> token !in {"QUIT", "JOIN", "LEAVE", "ROOMS", "USERS", "SEND", "HELP"}
    ensures c.Unknown? ==> c.token == token
    ensures !c.Unknown? ==> Name(c) == token
  {
    if token == "QUIT" then Quit
    else if token == "JOIN" then Join
    else if token == "LEAVE" then Leave
    else if token == "ROOMS" then Rooms
    else if token == "USERS" then Users
    else if token == "SEND" then Send
    else if token == "HELP" then Help
    else Unknown(token)
  }

  /** The command word of a recognised command. */
  function Name(c: Command): string
    requires !c.Unknown?
  {
    match c
    case Quit => "QUIT"
    case Join => "JOIN"
    case Leave => "LEAVE"
    case Rooms => "ROOMS"
    case Users => "USERS"
    case Send => "SEND"
    case Help => "HELP"
  }

  function JoinStep<Id(==)>(r: Registry<Id>, id: Id, words: seq<string>): Outcome<Id>
    requires Listed(r.conns, id)
  {
    if |words| > 1 then
      var room := words[1];
      Outcome(Registry(Update(r.conns, id, Joined(room)), r.directory + {room}),
              [Delivery(id, Plain("You have now joined " + room + "\n"))], true)
    else
      Outcome(r, [Delivery(id, Plain(AskJoinText))], true)
  }

  function LeaveStep<Id(==)>(r: Registry<Id>, id: Id, words: seq<string>): Outcome<Id>
    requires Listed(r.conns, id)
  {
    if |words| > 1 then
      var room := words[1];
      Outcome(r.(conns := Update(r.conns, id, Left(room))),
              [Delivery(id, Plain("You have now left " + room + "\n"))], true)
    else
      Outcome(r, [], true)
  }

  function RoomsReply<Id>(r: Registry<Id>, id: Id): seq<Delivery<Id>> {
    [Delivery(id, WithSuffix(ServerRooms(r.directory), "\n"))]
  }

  /** One line per member of the room, each the member's nickname, written to `to`. */
  function NickLines<Id>(to: Id, members: seq<Conn<Id>>): seq<Delivery<Id>> {
    seq(|members|, i requires 0 <= i < |members| => Delivery(to, Plain(NickText(members[i].nickname) + "\n")))
  }

  function UsersReply<Id>(r: Registry<Id>, id: Id, words: seq<string>): seq<Delivery<Id>> {
    if |words| > 1 then
      var members := Members(r.conns, words[1]);
      if members == [] then [Delivery(id, Plain(EmptyRoomText))] else NickLines(id, members)
    else
      [Delivery(id, Plain(AskRoomText))]
  }

  /** The text of a room message from nick. */
  function RoomMessage(room: string, nick: string, message: string): Text {
    Plain("<" + room + ">. " + nick + " : " + message + "\n")
  }

  /** The text of a direct message from nick. */
  function DirectMessage(nick: string, message: string): Text {
    Plain("<" + nick + "> : " + message + "\n")
  }

  /** sendMsg on the three-field split of a SEND line: the second field names the recipient,
      a room when it starts with the sentinel, and the third is the message. */
  function SendReply<Id(==)>(r: Registry<Id>, id: Id, fields: seq<string>): seq<Delivery<Id>>
    requires Listed(r.conns, id) && (|fields| >= 3 ==> fields[1] != [])
  {
    if |fields| < 3 then
      [Delivery(id, Plain(AskMessageText))]
    else
      var recipient, message := fields[1], fields[2];
      var nick := NickText(Lookup(r.conns, id).nickname);
      if recipient[0] == RoomSentinel then
        Broadcast(Members(r.conns, recipient), RoomMessage(recipient, nick, message))
      else
        Broadcast(Named(r.conns, recipient), DirectMessage(nick, message))
  }

  function QuitStep<Id(==)>(r: Registry<Id>, id: Id): Outcome<Id>
    requires Listed(r.conns, id)
  {
    var nick := NickText(Lookup(r.conns, id).nickname);
    Outcome(r.(conns := RemoveConn(r.conns, id)), [Delivery(id, Plain("Goodbye, " + nick + "\n"))], false)
  }

  /** A SEND line whose recipient is not a room. */
  predicate IsDirectSend(line: string) {
    var words, fields := Split(line), SplitWorker(line, 3);
    |words| > 0 && words[0] == "SEND" && |fields| >= 3 && fields[1][0] != RoomSentinel
  }

  predicate IsQuit(line: string) {
    var words := Split(line);
    |words| > 0 && words[0] == "QUIT"
  }

  /** What handling a line needs: the issuer is listed, and a direct SEND finds every listed
      connection handshaken (the source dereferences each nickname). */
  predicate StepReady<Id(==)>(r: Registry<Id>, id: Id, line: string) {
    Listed(r.conns, id) && (IsDirectSend(line) ==> AllNamed(r.conns))
  }

  /** Handling one input line of connection id. */
  function Step<Id(==)>(r: Registry<Id>, id: Id, line: string): (o: Outcome<Id>)
    requires StepReady(r, id, line)
    ensures r.directory <= o.registry.directory
    ensures o.open <==> !IsQuit(line)
    ensures o.open ==> Ids(o.registry.conns) == Ids(r.conns) && Nicks(o.registry.conns) == Nicks(r.conns)
  {
    var words := Split(line);
    if words == [] then Outcome(r, [], true)
    else
      match Parse(words[0])
      case Quit => QuitStep(r, id)
      case Join => JoinStep(r, id, words)
      case Leave => LeaveStep(r, id, words)
      case Rooms => Outcome(r, RoomsReply(r, id), true)
      case Users => Outcome(r, UsersReply(r, id, words), true)
      case Send => Outcome(r, SendReply(r, id, SplitWorker(line, 3)), true)
      case Help => Outcome(r, [Delivery(id, Plain(HelpText))], true)
      case Unknown(token) => Outcome(r, [Delivery(id, Plain("Unknown command: " + token + "\n"))], true)
  }

  // ---------------------------------------------------------------------------
  // The handshake and the read loop

  /** promptNick: the first word of the reply line becomes the nickname. */
  function Handshake<Id(==)>(r: Registry<Id>, id: Id, line: string): Outcome<Id>
    requires Listed(r.conns, id) && Split(line) != []
  {
    var nick := Split(line)[0];
    Outcome(r.(conns := Update(r.conns, id, Nicknamed(nick))),
            [Delivery(id, Plain(NickPrompt)), Delivery(id, Plain("Welcome, " + nick + "!\n\n"))], true)
  }

  /** None of the first k lines is a QUIT. */
  predicate NoQuitBefore(lines: seq<string>, k: nat)
    requires k <= |lines|
  {
    k == 0 || (!IsQuit(lines[0]) && NoQuitBefore(lines[1..], k - 1))
  }

  /** The read loop reaches a direct SEND: one comes before any QUIT (the loop stops reading
      at a QUIT, so the lines after it are never handled). */
  predicate DirectSendBeforeQuit(lines: seq<string>) {
    lines != [] && !IsQuit(lines[0]) && (IsDirectSend(lines[0]) || DirectSendBeforeQuit(lines[1..]))
  }

  /** What the read loop needs: the connection is listed, and if the loop reaches a direct
      SEND then every listed connection is handshaken. */
  predicate SessionReady<Id(==)>(r: Registry<Id>, id: Id, lines: seq<string>) {
    Listed(r.conns, id) && (DirectSendBeforeQuit(lines) ==> AllNamed(r.conns))
  }

  /** The read loop over the lines of one connection, up to its QUIT or its last line. */
  function Session<Id(==)>(r: Registry<Id>, id: Id, lines: seq<string>): Outcome<Id>
    requires SessionReady(r, id, lines)
    decreases |lines|
  {
    if lines == [] then Outcome(r, [], true)
    else
      var o := Step(r, id, lines[0]);
      if !o.open then o
      else
        assert AllNamed(r.conns) ==> AllNamed(o.registry.conns);
        var rest := Session(o.registry, id, lines[1..]);
        Outcome(rest.registry, o.out + rest.out, rest.open)
  }

  /** Runs the rest of the loop after o, unless o ended it. */
  function Continue<Id(==)>(o: Outcome<Id>, id: Id, lines: seq<string>): Outcome<Id>
    requires o.open ==> SessionReady(o.registry, id, lines)
  {
    if !o.open then o
    else
      var rest := Session(o.registry, id, lines);
      Outcome(rest.registry, o.out + rest.out, rest.open)
  }

  /** connectionManager: the handshake, the command list, then the read loop. */
  function Serve<Id(==)>(r: Registry<Id>, id: Id, nickLine: string, lines: seq<string>): Outcome<Id>
    requires Listed(r.conns, id) && Split(nickLine) != []
    requires SessionReady(Handshake(r, id, nickLine).registry, id, lines)
  {
    var h := Handshake(r, id, nickLine);
    Continue(Outcome(h.registry, h.out + [Delivery(id, Plain(HelpText))], true), id, lines)
  }
}
