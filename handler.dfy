/** The session protocol of server/ClientHandler.java, as a state machine over
    the whole server: the room store, every ClientHandler object (its phase, id,
    room and the lines written to its socket), the static registry `clients`
    and the static `idCounter`. One Step is one line read by one session and
    everything its handler does with it, taken as one atomic step. */
module Handler {
  import opened JavaLang
  import opened RoomStore

  /** The identity of a ClientHandler object. */
  type Handle = nat

  /** Where a session's thread is in `run`. */
  datatype Phase =
    | NameFirst   // waiting for the first username line
    | NameRetry   // in the loop that re-reads a rejected username
    | Active      // in the read loop over chat lines and commands
    | Closed      // the finally block has run

  /** One ClientHandler: its fields id and room (null until named) and
      everything written to its PrintWriter. */
  datatype Session = Session(phase: Phase, id: Option<string>, room: Option<string>, outbox: seq<Output>)

  /** The state shared by all sessions. `clients` is the static set of
      registered handlers, listed in the order its iteration visits them. */
  datatype World = World(store: Store, sessions: map<Handle, Session>, clients: seq<Handle>, idCounter: int)

  /** The world after a handler call, and whether the call threw an exception
      that no catch block of the handler catches, ending the session. */
  datatype Outcome = Outcome(world: World, crashed: bool)

  // ---------------------------------------------------------------------------
  // Message formats
  // ---------------------------------------------------------------------------

  const AnsiReset := "\U{1B}[0m"
  const AnsiCyan := "\U{1B}[36m"
  const AnsiYellowBold := "\U{1B}[1;33m"
  const AnsiRedBold := "\U{1B}[1;31m"

  /** The prefix of a system message. */
  const SystemPrefix := AnsiYellowBold + "[Server]: "
  /** The prefix of an error message, the literal "[Server.Server]: " as
      the source writes it. */
  const ErrorPrefix := AnsiRedBold + "[Server.Server]: "

  function UserMessage(room: string, id: string, message: string): string {
    AnsiCyan + room + "[" + id + "]: " + message + AnsiReset
  }

  function ShoutMessage(id: string, message: string): string {
    AnsiCyan + "Main[" + id + "]: " + message + AnsiReset
  }

  function SystemMessage(message: string): string {
    SystemPrefix + message + AnsiReset
  }

  function ErrorMessage(message: string): string {
    ErrorPrefix + message + AnsiReset
  }

  /** A shout cannot be told apart from a chat line sent in room "Main". */
  lemma ShoutLooksLikeMainChat(id: string, message: string)
    ensures ShoutMessage(id, message) == UserMessage("Main", id, message)
  {
  }

  /** System and error messages never coincide, and each gives back its text:
      the colour code differs in its sixth character. */
  lemma SystemAndErrorDistinct(m1: string, m2: string)
    ensures SystemMessage(m1) != ErrorMessage(m2)
    ensures SystemMessage(m1) == SystemMessage(m2) ==> m1 == m2
    ensures ErrorMessage(m1) == ErrorMessage(m2) ==> m1 == m2
  {
    assert SystemMessage(m1)[5] == '3' && ErrorMessage(m2)[5] == '1';
    if SystemMessage(m1) == SystemMessage(m2) {
      assert m1 == SystemMessage(m1)[|SystemPrefix|..|SystemMessage(m1)| - |AnsiReset|];
      assert m2 == SystemMessage(m2)[|SystemPrefix|..|SystemMessage(m2)| - |AnsiReset|];
    }
    if ErrorMessage(m1) == ErrorMessage(m2) {
      assert m1 == ErrorMessage(m1)[|ErrorPrefix|..|ErrorMessage(m1)| - |AnsiReset|];
      assert m2 == ErrorMessage(m2)[|ErrorPrefix|..|ErrorMessage(m2)| - |AnsiReset|];
    }
  }

  // ---------------------------------------------------------------------------
  // Argument validation
  // ---------------------------------------------------------------------------

  predicate IsAlphanumeric(c: char) {
    'a' <= c <= 'z' || 'A' <= c <= 'Z' || '0' <= c <= '9'
  }

  /** invalidString: s does not match [a-zA-Z0-9]*, so the empty string is valid. */
  function InvalidString(s: string): (invalid: bool)
    ensures invalid <==> exists i :: 0 <= i < |s| && !IsAlphanumeric(s[i])
  {
    if s == [] then false
    else if !IsAlphanumeric(s[0]) then true
    else
      var invalidRest := InvalidString(s[1..]);
      assert forall i :: 1 <= i < |s| ==> s[i] == s[1..][i - 1];
      invalidRest
  }

  /** invalidArgs: a command needs exactly two tokens, the second alphanumeric. */
  function InvalidArgs(command: seq<string>): bool {
    |command| != 2 || InvalidString(command[1])
  }

  /** A command line that passes invalidArgs names a non-empty alphanumeric
      argument: split drops a trailing empty token, so "\create " has one token. */
  lemma ValidArgument(line: string)
    requires line != "" && !InvalidArgs(Split(line))
    ensures var arg := Split(line)[1];
      arg != "" && forall i :: 0 <= i < |arg| ==> IsAlphanumeric(arg[i])
  {
  }

  // ---------------------------------------------------------------------------
  // Sessions, the registry and delivery
  // ---------------------------------------------------------------------------

  predicate Distinct(hs: seq<Handle>) {
    forall i, j :: 0 <= i < j < |hs| ==> hs[i] != hs[j]
  }

  /** s with o written to its PrintWriter. */
  function Written(s: Session, o: Output): Session {
    s.(outbox := s.outbox + [o])
  }

  /** Two session tables with the same handles, phases, ids and rooms. */
  predicate SameShape(ss: map<Handle, Session>, ss': map<Handle, Session>) {
    && ss'.Keys == ss.Keys
    && forall h :: h in ss ==> ss'[h].phase == ss[h].phase && ss'[h].id == ss[h].id && ss'[h].room == ss[h].room
  }

  /** broadcast: println(message) on every registered handler other than self,
      in the order of `order`. */
  function Broadcast(ss: map<Handle, Session>, order: seq<Handle>, self: Handle, message: string): (r: map<Handle, Session>)
    requires forall h :: h in order ==> h in ss
    ensures SameShape(ss, r)
    decreases |order|
  {
    if order == [] then ss
    else
      var h := order[0];
      Broadcast(if h != self then ss[h := Written(ss[h], Println(message))] else ss, order[1..], self, message)
  }

  /** broadcastRoom: println(message) on every other registered handler whose
      room equals `room`. `client.room.equals(...)` throws on a handler whose
      room is still null; the second component tells whether that happened,
      after the handlers visited before it got the message. */
  function BroadcastRoom(ss: map<Handle, Session>, order: seq<Handle>, self: Handle, room: string, message: string)
    : (r: (map<Handle, Session>, bool))
    requires forall h :: h in order ==> h in ss
    ensures SameShape(ss, r.0)
    decreases |order|
  {
    if order == [] then (ss, false)
    else
      var h := order[0];
      if h == self then BroadcastRoom(ss, order[1..], self, room, message)
      else
        match ss[h].room
        case None => (ss, true)
        case Some(r) =>
          BroadcastRoom(if r == room then ss[h := Written(ss[h], Println(message))] else ss, order[1..], self, room, message)
  }

  /** broadcast reaches every registered handler but the sender, once each,
      whatever its room or phase, and touches nothing else. */
  lemma {:induction false} BroadcastDelivers(ss: map<Handle, Session>, order: seq<Handle>, self: Handle, message: string)
    requires forall h :: h in order ==> h in ss
    requires Distinct(order)
    ensures forall h :: h in ss ==>
      Broadcast(ss, order, self, message)[h] ==
        if h in order && h != self then Written(ss[h], Println(message)) else ss[h]
    decreases |order|
  {
    if order != [] {
      var h0 := order[0];
      var ss1 := if h0 != self then ss[h0 := Written(ss[h0], Println(message))] else ss;
      assert Distinct(order[1..]) by {
        forall i, j | 0 <= i < j < |order[1..]| ensures order[1..][i] != order[1..][j] {
          assert order[1..][i] == order[i + 1] && order[1..][j] == order[j + 1];
        }
      }
      assert h0 !in order[1..] by {
        forall i | 0 <= i < |order[1..]| ensures order[1..][i] != h0 {
          assert order[1..][i] == order[i + 1];
        }
      }
      BroadcastDelivers(ss1, order[1..], self, message);
      forall h | h in ss
        ensures Broadcast(ss, order, self, message)[h] ==
          if h in order && h != self then Written(ss[h], Println(message)) else ss[h]
      {
        assert h in order <==> h == h0 || h in order[1..];
      }
    }
  }

  /** broadcastRoom throws exactly when some other registered handler has no
      room yet (it is still choosing its name). */
  lemma {:induction false} BroadcastRoomThrows(ss: map<Handle, Session>, order: seq<Handle>, self: Handle, room: string, message: string)
    requires forall h :: h in order ==> h in ss
    ensures BroadcastRoom(ss, order, self, room, message).1 <==>
      exists h :: h in order && h != self && ss[h].room.None?
    decreases |order|
  {
    if order != [] {
      var h0 := order[0];
      assert forall h :: h in order <==> h == h0 || h in order[1..];
      if h0 == self {
        BroadcastRoomThrows(ss, order[1..], self, room, message);
      } else if ss[h0].room.Some? {
        var ss1 := if ss[h0].room.value == room then ss[h0 := Written(ss[h0], Println(message))] else ss;
        BroadcastRoomThrows(ss1, order[1..], self, room, message);
        assert forall h :: h in ss ==> ss1[h].room == ss[h].room;
      }
    }
  }

  /** broadcastRoom writes the message at most once to each handler, only to
      other registered handlers in `room`; when it does not throw, it writes to
      every one of them. */
  lemma {:induction false} BroadcastRoomDelivers(ss: map<Handle, Session>, order: seq<Handle>, self: Handle, room: string, message: string)
    requires forall h :: h in order ==> h in ss
    requires Distinct(order)
    ensures var (r, threw) := BroadcastRoom(ss, order, self, room, message);
      forall h :: h in ss ==>
        && (r[h] == ss[h] || (r[h] == Written(ss[h], Println(message)) && h in order && h != self && ss[h].room == Some(room)))
        && (!threw && h in order && h != self && ss[h].room == Some(room) ==> r[h] == Written(ss[h], Println(message)))
    decreases |order|
  {
    if order != [] {
      var h0 := order[0];
      assert Distinct(order[1..]) by {
        forall i, j | 0 <= i < j < |order[1..]| ensures order[1..][i] != order[1..][j] {
          assert order[1..][i] == order[i + 1] && order[1..][j] == order[j + 1];
        }
      }
      assert h0 !in order[1..] by {
        forall i | 0 <= i < |order[1..]| ensures order[1..][i] != h0 {
          assert order[1..][i] == order[i + 1];
        }
      }
      assert forall h :: h in order <==> h == h0 || h in order[1..];
      if h0 == self {
        BroadcastRoomDelivers(ss, order[1..], self, room, message);
      } else if ss[h0].room.Some? {
        var ss1 := if ss[h0].room.value == room then ss[h0 := Written(ss[h0], Println(message))] else ss;
        BroadcastRoomDelivers(ss1, order[1..], self, room, message);
        assert forall h :: h in ss ==> ss1[h].room == ss[h].room;
      }
    }
  }

  /** When no other handler in `order` lacks a room, broadcastRoom does not
      throw and writes the message exactly to the other handlers in `room`. */
  lemma BroadcastRoomReachesAll(ss: map<Handle, Session>, order: seq<Handle>, self: Handle, room: string, message: string)
    requires forall h :: h in order ==> h in ss
    requires Distinct(order)
    requires forall h :: h in order && h != self ==> ss[h].room.Some?
    ensures var (r, threw) := BroadcastRoom(ss, order, self, room, message);
      && !threw && r.Keys == ss.Keys
      && forall h :: h in ss ==>
           r[h] == if h in order && h != self && ss[h].room == Some(room) then Written(ss[h], Println(message)) else ss[h]
  {
    BroadcastRoomThrows(ss, order, self, room, message);
    BroadcastRoomDelivers(ss, order, self, room, message);
  }

  /** clients.remove(h). */
  function Without(order: seq<Handle>, h: Handle): (r: seq<Handle>)
    ensures forall x :: x in r <==> x in order && x != h
    ensures Distinct(order) ==> Distinct(r)
  {
    if order == [] then []
    else
      var rest := Without(order[1..], h);
      assert forall x :: x in order <==> x == order[0] || x in order[1..];
      if order[0] == h then rest
      else
        assert Distinct(order) ==> order[0] !in rest by {
          if Distinct(order) {
            forall i | 0 <= i < |order[1..]| ensures order[1..][i] != order[0] {
              assert order[1..][i] == order[i + 1];
            }
          }
        }
        assert Distinct(order) ==> Distinct(order[1..]) by {
          if Distinct(order) {
            forall i, j | 0 <= i < j < |order[1..]| ensures order[1..][i] != order[1..][j] {
              assert order[1..][i] == order[i + 1] && order[1..][j] == order[j + 1];
            }
          }
        }
        [order[0]] + rest
  }

  // ---------------------------------------------------------------------------
  // The invariant of the whole server
  // ---------------------------------------------------------------------------

  /** What a session's phase says about its fields: a session that is choosing
      its name has no room; an active one has an id and a room that exists. */
  predicate Shaped(s: Session, st: Store) {
    match s.phase
    case NameFirst => s.id.None? && s.room.None?
    case NameRetry => s.id.Some? && s.room.None?
    case Active => s.id.Some? && s.room.Some? && s.room.value in st.rooms
    case Closed => true
  }

  /** The invariant the handlers keep: room "Main" exists, the counter is a
      Java int, and the registry holds each session that has not ended, once. */
  predicate WellFormed(w: World) {
    && "Main" in w.store.rooms
    && IsInt32(w.idCounter)
    && Distinct(w.clients)
    && (forall h :: h in w.clients ==> h in w.sessions && w.sessions[h].phase != Closed)
    && (forall h :: h in w.sessions && w.sessions[h].phase != Closed ==> h in w.clients)
    && (forall h :: h in w.sessions ==> Shaped(w.sessions[h], w.store))
  }

  /** Nothing but outboxes and store contents changed, and no room was removed. */
  lemma Reshaped(w: World, w': World)
    requires WellFormed(w)
    requires w.store.rooms.Keys <= w'.store.rooms.Keys
    requires w'.clients == w.clients && w'.idCounter == w.idCounter
    requires SameShape(w.sessions, w'.sessions)
    ensures WellFormed(w')
  {
    forall h | h in w'.sessions ensures Shaped(w'.sessions[h], w'.store) {
      assert Shaped(w.sessions[h], w.store);
    }
  }

  /** No room was removed and no claimed name released between w and w'. */
  predicate StoreGrows(w: World, w': World) {
    w.store.rooms.Keys <= w'.store.rooms.Keys && w.store.names <= w'.store.names
  }

  /** The server before the first connection: "Main" exists, nobody is connected. */
  function Initial(): (w: World)
    ensures WellFormed(w)
  {
    World(Started(), map[], [], 0)
  }

  /** Every registered handler has a session: what the broadcasts need. */
  predicate Registered(w: World) {
    forall h :: h in w.clients ==> h in w.sessions
  }

  /** h is in the read loop, with its id and room set. */
  predicate IsActive(w: World, h: Handle) {
    h in w.sessions && w.sessions[h].phase == Active && w.sessions[h].id.Some? && w.sessions[h].room.Some?
  }

  // ---------------------------------------------------------------------------
  // Handler steps
  // ---------------------------------------------------------------------------

  /** out.println(text) on the session's own writer. */
  function Say(w: World, h: Handle, text: string): World
    requires h in w.sessions
  {
    w.(sessions := w.sessions[h := Written(w.sessions[h], Println(text))])
  }

  /** The finally block of run: the handler leaves the registry and its socket is
      closed. Its id stays in the names set and in its room's member set. */
  function Finish(w: World, h: Handle): World
    requires h in w.sessions
  {
    w.(clients := Without(w.clients, h), sessions := w.sessions[h := w.sessions[h].(phase := Closed)])
  }

  /** An uncaught exception ends the session through the finally block. */
  function Settle(o: Outcome, h: Handle): World
    requires h in o.world.sessions
  {
    if o.crashed then Finish(o.world, h) else o.world
  }

  /** A name has been chosen: "Welcome", addUserToRoom(id, "Main") with its
      result ignored, room := "Main", and "joined" to the other sessions in Main. */
  function Admit(w: World, h: Handle, id: string): World
    requires Registered(w) && h in w.sessions
  {
    var w1 := Say(w, h, SystemMessage("Welcome, " + id));
    var w2 := w1.(store := AddUserToRoom(w1.store, id, "Main").0);
    var w3 := w2.(sessions := w2.sessions[h := w2.sessions[h].(phase := Active, id := Some(id), room := Some("Main"))]);
    var (ss, threw) := BroadcastRoom(w3.sessions, w3.clients, h, "Main", SystemMessage(id + " joined the room"));
    Settle(Outcome(w3.(sessions := ss), threw), h)
  }

  /** The text printed when a non-alphanumeric name is already claimed. */
  const RetryPrompt := ErrorMessage("Invalid username, enter a different username: ")

  /** One evaluation of the naming loop's condition
      `invalidString(id) && !server.setNameToUser(id)`: an alphanumeric name
      is taken at once, without being claimed; any other name is taken when
      setNameToUser claims it, and re-prompted (print, no newline) otherwise. */
  function TryName(w: World, h: Handle, name: string): World
    requires Registered(w) && h in w.sessions
  {
    if !InvalidString(name) then Admit(w, h, name)
    else
      var (st, claimed) := SetNameToUser(w.store, name);
      if claimed then Admit(w.(store := st), h, name)
      else
        var s := w.sessions[h];
        w.(store := st, sessions := w.sessions[h := Written(s.(phase := NameRetry, id := Some(name)), Print(RetryPrompt))])
  }

  /** handlePeople: the members of a room, or an error when the store answers
      with a set equal to {"false"}. */
  function People(w: World, h: Handle, room: string): World
    requires h in w.sessions
  {
    var users := GetUsersInRoom(w.store, room);
    if users == {"false"} then Say(w, h, ErrorMessage("Room " + room + " does not exist."))
    else w.(sessions := w.sessions[h := Written(w.sessions[h], PrintlnListing(SystemPrefix + room, users, AnsiReset))])
  }

  /** handleCreate: rejects a non-alphanumeric name and any spelling of "main",
      then reports what createRoom returned. */
  function Create(w: World, h: Handle, room: string): World
    requires h in w.sessions
  {
    if InvalidString(room) || EqualsIgnoreCase("main", room) then Say(w, h, ErrorMessage("Invalid room name."))
    else
      var (st, created) := CreateRoom(w.store, room);
      if !created then Say(w.(store := st), h, ErrorMessage("Error creating " + room))
      else Say(w.(store := st), h, SystemMessage("Created " + room))
  }

  /** handleJoin: add to the new room; on success remove from the current room
      and Move. A failed removal is reported but the addition stays. */
  function Join(w: World, h: Handle, room: string): (o: Outcome)
    requires Registered(w) && IsActive(w, h)
    ensures o.world.sessions.Keys == w.sessions.Keys
  {
    var id := w.sessions[h].id.value;
    var current := w.sessions[h].room.value;
    var (st1, added) := AddUserToRoom(w.store, id, room);
    if !added then Outcome(Say(w.(store := st1), h, ErrorMessage("Error joining " + room)), false)
    else
      var (st2, removed) := RemoveUserFromRoom(st1, id, current);
      if !removed then Outcome(Say(w.(store := st2), h, ErrorMessage("Could not leave the room")), false)
      else Move(w.(store := st2), h, id, current, room)
  }

  /** The rest of handleJoin once the store has moved the id: "left" to the
      old room, room := the new room, "Joined" to self, "joined" to the new room. */
  function Move(w: World, h: Handle, id: string, current: string, room: string): (o: Outcome)
    requires Registered(w) && h in w.sessions
    ensures o.world.sessions.Keys == w.sessions.Keys
  {
    var (ss1, threw1) := BroadcastRoom(w.sessions, w.clients, h, current, SystemMessage(id + " left the room."));
    var w1 := w.(sessions := ss1);
    if threw1 then Outcome(w1, true)
    else
      var w2 := w1.(sessions := w1.sessions[h := w1.sessions[h].(room := Some(room))]);
      var w3 := Say(w2, h, SystemMessage("Joined " + room));
      var (ss4, threw2) := BroadcastRoom(w3.sessions, w3.clients, h, room, SystemMessage(id + " joined the room"));
      Outcome(w3.(sessions := ss4), threw2)
  }

  /** A chat line: broadcastRoom(userMessage(line)) to the sender's room. */
  function Chat(w: World, h: Handle, line: string): (o: Outcome)
    requires Registered(w) && IsActive(w, h)
    ensures o.world.sessions.Keys == w.sessions.Keys
  {
    var s := w.sessions[h];
    var (ss, threw) := BroadcastRoom(w.sessions, w.clients, h, s.room.value, UserMessage(s.room.value, s.id.value, line));
    Outcome(w.(sessions := ss), threw)
  }

  /** handleCommand for a line that starts with a backslash. */
  function Command(w: World, h: Handle, line: string): (o: Outcome)
    requires Registered(w) && IsActive(w, h)
    requires line != "" && line[0] == '\\'
    ensures o.world.sessions.Keys == w.sessions.Keys
  {
    SplitFirstWord(line);
    var command := Split(line);
    var action := command[0];
    if action == "\\list" then
      if |command| == 1 then
        Outcome(w.(sessions := w.sessions[h := Written(w.sessions[h], PrintlnListing(SystemPrefix, GetAllRooms(w.store), AnsiReset))]), false)
      else if |command| == 2 then Outcome(People(w, h, command[1]), false)
      else Outcome(Say(w, h, ErrorMessage("Invalid argument")), false)
    else if action == "\\create" then
      if InvalidArgs(command) then Outcome(Say(w, h, ErrorMessage("Invalid argument")), false)
      else Outcome(Create(w, h, command[1]), false)
    else if action == "\\join" then
      if InvalidArgs(command) then Outcome(Say(w, h, ErrorMessage("Invalid argument")), false)
      else Join(w, h, command[1])
    else if action == "\\shout" then
      // commandString.substring(action.length() + 1) throws on "\shout" alone
      if |line| < |action| + 1 then Outcome(w, true)
      else Outcome(w.(sessions := Broadcast(w.sessions, w.clients, h, ShoutMessage(w.sessions[h].id.value, line[|action| + 1..]))), false)
    else Outcome(Say(w, h, ErrorMessage("Unknown command: " + action)), false)
  }

  /** The name given to a session that answers the username prompt with an
      empty line: "user_" and the current value of the static counter. */
  function AnonymousId(counter: int): string {
    "user_" + IntToString(counter)
  }

  /** One readLine() of session h and what its handler does with the result. */
  function Step(w: World, h: Handle, input: Input): World
    requires WellFormed(w) && h in w.sessions
  {
    match w.sessions[h].phase
    case Closed => w
    case NameFirst =>
      (match input
       case Line(name) =>
         if name == "" then Admit(w.(idCounter := Increment(w.idCounter)), h, AnonymousId(w.idCounter))
         else TryName(w, h, name)
       case _ => Finish(w, h))   // id.isEmpty() on null, or an IOException
    case NameRetry =>
      (match input
       case Line(name) => TryName(w, h, name)
       case _ => Finish(w, h))   // invalidString(null), or an IOException
    case Active =>
      assert Shaped(w.sessions[h], w.store);
      match input
      case Line(line) =>
        if line == "" then Finish(w, h)   // message.charAt(0) throws
        else if line[0] == '\\' then Settle(Command(w, h, line), h)
        else Settle(Chat(w, h, line), h)
      case _ => Finish(w, h)
  }

  // ---------------------------------------------------------------------------
  // Every step keeps the invariant
  // ---------------------------------------------------------------------------

  lemma SayKeeps(w: World, h: Handle, text: string)
    requires WellFormed(w) && h in w.sessions
    ensures WellFormed(Say(w, h, text)) && Say(w, h, text).store == w.store
  {
    Reshaped(w, Say(w, h, text));
  }

  /** The finally block keeps the registry exactly the set of open sessions. */
  lemma FinishKeeps(w: World, h: Handle)
    requires WellFormed(w) && h in w.sessions
    ensures var r := Finish(w, h);
      && WellFormed(r) && r.store == w.store
      && h !in r.clients && r.sessions[h].phase == Closed
  {
    var r := Finish(w, h);
    forall x | x in r.sessions ensures Shaped(r.sessions[x], r.store) {
      assert Shaped(w.sessions[x], w.store);
    }
  }

  lemma SettleKeeps(o: Outcome, h: Handle)
    requires WellFormed(o.world) && h in o.world.sessions
    ensures WellFormed(Settle(o, h)) && Settle(o, h).store == o.world.store
  {
    if o.crashed {
      FinishKeeps(o.world, h);
    }
  }

  /** Admitting a session that is choosing its name makes it active in "Main",
      which exists. */
  lemma AdmitKeeps(w: World, h: Handle, id: string)
    requires WellFormed(w) && h in w.sessions && w.sessions[h].phase in {NameFirst, NameRetry}
    ensures WellFormed(Admit(w, h, id)) && StoreGrows(w, Admit(w, h, id))
  {
    var w1 := Say(w, h, SystemMessage("Welcome, " + id));
    SayKeeps(w, h, SystemMessage("Welcome, " + id));
    var w2 := w1.(store := AddUserToRoom(w1.store, id, "Main").0);
    Reshaped(w1, w2);
    var w3 := w2.(sessions := w2.sessions[h := w2.sessions[h].(phase := Active, id := Some(id), room := Some("Main"))]);
    assert WellFormed(w3) by {
      forall x | x in w3.sessions ensures Shaped(w3.sessions[x], w3.store) {
        if x != h { assert Shaped(w2.sessions[x], w2.store); }
      }
    }
    var (ss, threw) := BroadcastRoom(w3.sessions, w3.clients, h, "Main", SystemMessage(id + " joined the room"));
    Reshaped(w3, w3.(sessions := ss));
    SettleKeeps(Outcome(w3.(sessions := ss), threw), h);
  }

  lemma TryNameKeeps(w: World, h: Handle, name: string)
    requires WellFormed(w) && h in w.sessions && w.sessions[h].phase in {NameFirst, NameRetry}
    ensures WellFormed(TryName(w, h, name)) && StoreGrows(w, TryName(w, h, name))
  {
    if !InvalidString(name) {
      AdmitKeeps(w, h, name);
    } else {
      var (st, claimed) := SetNameToUser(w.store, name);
      Reshaped(w, w.(store := st));
      if claimed {
        AdmitKeeps(w.(store := st), h, name);
      } else {
        var r := TryName(w, h, name);
        forall x | x in r.sessions ensures Shaped(r.sessions[x], r.store) {
          assert Shaped(w.sessions[x], w.store);
        }
      }
    }
  }

  lemma CreateKeeps(w: World, h: Handle, room: string)
    requires WellFormed(w) && h in w.sessions
    ensures WellFormed(Create(w, h, room)) && StoreGrows(w, Create(w, h, room))
  {
    var st := CreateRoom(w.store, room).0;
    Reshaped(w, w.(store := st));
    SayKeeps(w, h, ErrorMessage("Invalid room name."));
    SayKeeps(w.(store := st), h, ErrorMessage("Error creating " + room));
    SayKeeps(w.(store := st), h, SystemMessage("Created " + room));
  }

  /** Moving a session to an existing room keeps every active room existing. */
  lemma MoveKeeps(w: World, h: Handle, id: string, current: string, room: string)
    requires WellFormed(w) && IsActive(w, h) && room in w.store.rooms
    ensures var o := Move(w, h, id, current, room);
      WellFormed(o.world) && o.world.store == w.store
  {
    var (ss1, threw1) := BroadcastRoom(w.sessions, w.clients, h, current, SystemMessage(id + " left the room."));
    var w1 := w.(sessions := ss1);
    Reshaped(w, w1);
    if !threw1 {
      var w2 := w1.(sessions := w1.sessions[h := w1.sessions[h].(room := Some(room))]);
      assert WellFormed(w2) by {
        forall x | x in w2.sessions ensures Shaped(w2.sessions[x], w2.store) {
          assert Shaped(w1.sessions[x], w1.store);
        }
      }
      var w3 := Say(w2, h, SystemMessage("Joined " + room));
      SayKeeps(w2, h, SystemMessage("Joined " + room));
      var (ss4, threw2) := BroadcastRoom(w3.sessions, w3.clients, h, room, SystemMessage(id + " joined the room"));
      Reshaped(w3, w3.(sessions := ss4));
    }
  }

  lemma JoinKeeps(w: World, h: Handle, room: string)
    requires WellFormed(w) && IsActive(w, h)
    ensures WellFormed(Join(w, h, room).world) && StoreGrows(w, Join(w, h, room).world)
  {
    var id, current := w.sessions[h].id.value, w.sessions[h].room.value;
    var (st1, added) := AddUserToRoom(w.store, id, room);
    Reshaped(w, w.(store := st1));
    if !added {
      SayKeeps(w.(store := st1), h, ErrorMessage("Error joining " + room));
    } else {
      var (st2, removed) := RemoveUserFromRoom(st1, id, current);
      Reshaped(w, w.(store := st2));
      if !removed {
        SayKeeps(w.(store := st2), h, ErrorMessage("Could not leave the room"));
      } else {
        MoveKeeps(w.(store := st2), h, id, current, room);
      }
    }
  }

  lemma CommandKeeps(w: World, h: Handle, line: string)
    requires WellFormed(w) && IsActive(w, h)
    requires line != "" && line[0] == '\\'
    ensures WellFormed(Command(w, h, line).world) && StoreGrows(w, Command(w, h, line).world)
  {
    SplitFirstWord(line);
    var command := Split(line);
    var action := command[0];
    var o := Command(w, h, line);
    if action == "\\list" {
      if |command| == 1 {
        Reshaped(w, o.world);
      } else if |command| == 2 {
        Reshaped(w, o.world);
      } else {
        SayKeeps(w, h, ErrorMessage("Invalid argument"));
      }
    } else if action == "\\create" {
      if InvalidArgs(command) {
        SayKeeps(w, h, ErrorMessage("Invalid argument"));
      } else {
        CreateKeeps(w, h, command[1]);
      }
    } else if action == "\\join" {
      if InvalidArgs(command) {
        SayKeeps(w, h, ErrorMessage("Invalid argument"));
      } else {
        JoinKeeps(w, h, command[1]);
      }
    } else if action == "\\shout" {
      if |line| >= |action| + 1 {
        Reshaped(w, o.world);
      }
    } else {
      SayKeeps(w, h, ErrorMessage("Unknown command: " + action));
    }
  }

  /** Every step keeps the invariant, removes no room and releases no name. */
  lemma StepKeepsWellFormed(w: World, h: Handle, input: Input)
    requires WellFormed(w) && h in w.sessions
    ensures WellFormed(Step(w, h, input)) && StoreGrows(w, Step(w, h, input))
  {
    var s := w.sessions[h];
    assert Shaped(s, w.store);
    match s.phase
    case Closed =>
    case NameFirst =>
      match input {
        case Line(name) =>
          if name == "" {
            AdmitKeeps(w.(idCounter := Increment(w.idCounter)), h, AnonymousId(w.idCounter));
          } else {
            TryNameKeeps(w, h, name);
          }
        case _ => FinishKeeps(w, h);
      }
    case NameRetry =>
      match input {
        case Line(name) => TryNameKeeps(w, h, name);
        case _ => FinishKeeps(w, h);
      }
    case Active =>
      match input {
        case Line(line) =>
          if line == "" {
            FinishKeeps(w, h);
          } else if line[0] == '\\' {
            CommandKeeps(w, h, line);
            SettleKeeps(Command(w, h, line), h);
          } else {
            var o := Chat(w, h, line);
            Reshaped(w, o.world);
            SettleKeeps(o, h);
          }
        case _ => FinishKeeps(w, h);
      }
  }

  // ---------------------------------------------------------------------------
  // Connections and schedules
  // ---------------------------------------------------------------------------

  /** What the server sees: a new connection, or one line read by a session. */
  datatype Event = Connect(handle: Handle) | Read(handle: Handle, input: Input)

  /** The prompt a new session prints before reading its first line. */
  const UsernamePrompt := Println(SystemMessage("Enter username: "))

  /** new ClientHandler registers itself in clients; run then prompts for a name. */
  function Open(w: World, h: Handle): World
    requires h !in w.sessions
  {
    w.(sessions := w.sessions[h := Session(NameFirst, None, None, [UsernamePrompt])], clients := w.clients + [h])
  }

  /** A new session is registered once and is choosing its name. */
  lemma OpenKeeps(w: World, h: Handle)
    requires WellFormed(w) && h !in w.sessions
    ensures var r := Open(w, h);
      && WellFormed(r) && r.store == w.store
      && h in r.clients && r.sessions[h].phase == NameFirst
  {
    var r := Open(w, h);
    assert h !in w.clients;
    forall i, j | 0 <= i < j < |r.clients| ensures r.clients[i] != r.clients[j] {
      if j == |w.clients| {
        assert r.clients[i] == w.clients[i];
      }
    }
    forall x | x in r.sessions ensures Shaped(r.sessions[x], r.store) {
      if x != h { assert Shaped(w.sessions[x], w.store); }
    }
  }

  /** The server after a schedule of events, one at a time. A connection
      always gets a fresh handler object, so a Connect of a handle already in
      use is not a connection and is skipped, as is a Read by an unknown handle. */
  function Run(w: World, events: seq<Event>): (r: World)
    requires WellFormed(w)
    ensures WellFormed(r) && StoreGrows(w, r)
    decreases |events|
  {
    if events == [] then w
    else
      var w1 :=
        match events[0]
        case Connect(h) => if h in w.sessions then w else (OpenKeeps(w, h); Open(w, h))
        case Read(h, input) => if h in w.sessions then (StepKeepsWellFormed(w, h, input); Step(w, h, input)) else w;
      Run(w1, events[1..])
  }
}
