/** The session protocol of the earlier, default-package ClientHandler.java, as
    a state machine over the whole server. Compared with the later handler: a
    handler is never removed from the registry; broadcast compares rooms with
    Objects.equals, so sessions without a room form a room of their own; an
    unknown command is broadcast instead of answered; every name, null
    included, must be claimed; and \join does not check its room. */
module LegacyHandler {
  import opened JavaLang
  import opened LegacyStore

  /** The identity of a ClientHandler object. */
  type Handle = nat

  /** Where a session's thread is in `run`. */
  datatype Phase =
    | Naming    // in the loop that reads and claims a username
    | Active    // in the read loop
    | Closed    // run has returned or thrown; the socket is closed
    | Spinning  // claiming null, already claimed, at the end of the input: the loop never ends

  datatype Session = Session(phase: Phase, id: Option<string>, room: Option<string>, outbox: seq<Output>)

  datatype World = World(store: Store, sessions: map<Handle, Session>, clients: seq<Handle>)

  const NameTaken := "Username not available, enter a different username: "

  function Written(s: Session, o: Output): Session {
    s.(outbox := s.outbox + [o])
  }

  predicate Distinct(hs: seq<Handle>) {
    forall i, j :: 0 <= i < j < |hs| ==> hs[i] != hs[j]
  }

  /** broadcast: println(message) on every other registered handler whose room
      is Objects.equals to `room`; a null room equals a null room. */
  function Broadcast(ss: map<Handle, Session>, order: seq<Handle>, self: Handle, room: Option<string>, message: string)
    : (r: map<Handle, Session>)
    requires forall h :: h in order ==> h in ss
    ensures r.Keys == ss.Keys
    ensures forall h :: h in ss ==> r[h].phase == ss[h].phase && r[h].id == ss[h].id && r[h].room == ss[h].room
    decreases |order|
  {
    if order == [] then ss
    else
      var h := order[0];
      Broadcast(if h != self && ss[h].room == room then ss[h := Written(ss[h], Println(message))] else ss,
                order[1..], self, room, message)
  }

  /** broadcast writes the message once to each other registered handler in
      the same room, closed ones included, and to no one else. */
  lemma {:induction false} BroadcastDelivers(ss: map<Handle, Session>, order: seq<Handle>, self: Handle, room: Option<string>, message: string)
    requires forall h :: h in order ==> h in ss
    requires Distinct(order)
    ensures forall h :: h in ss ==>
      Broadcast(ss, order, self, room, message)[h] ==
        if h in order && h != self && ss[h].room == room then Written(ss[h], Println(message)) else ss[h]
    decreases |order|
  {
    if order != [] {
      var h0 := order[0];
      var ss1 := if h0 != self && ss[h0].room == room then ss[h0 := Written(ss[h0], Println(message))] else ss;
      assert Distinct(order[1..]) by {
        forall i, j | 0 <= i < j < |order[1..]| ensures order[1..][i] != order[1..][j] {
          assert order[1..][i] == order[i + 1] && order[1..][j] == order[j + 1];
        }
      }
      assert h0 !in order[1..] by {
        forall i | 0 <= i < |order[1..]| ensures order[1..][i] != h0 {
          assert order[1..][i] == order[i + 1];
        }
      }
      BroadcastDelivers(ss1, order[1..], self, room, message);
      forall h | h in ss
        ensures Broadcast(ss, order, self, room, message)[h] ==
          if h in order && h != self && ss[h].room == room then Written(ss[h], Println(message)) else ss[h]
      {
        assert h in order <==> h == h0 || h in order[1..];
        assert ss1[h].room == ss[h].room;
      }
    }
  }

  /** The invariant: every handler ever created is registered, once; an active
      session has a name it has claimed, and no two active sessions share one;
      a session still choosing its name has no room. */
  ghost predicate WellFormed(w: World) {
    && Distinct(w.clients)
    && (forall h :: h in w.clients <==> h in w.sessions)
    && (forall h :: h in w.sessions && w.sessions[h].phase == Active ==> w.sessions[h].id.Some? && w.sessions[h].id in w.store.names)
    && (forall h :: h in w.sessions && w.sessions[h].phase == Naming ==> w.sessions[h].room.None?)
    && (forall x, y :: x in w.sessions && y in w.sessions && x != y && w.sessions[x].phase == Active && w.sessions[y].phase == Active
          ==> w.sessions[x].id != w.sessions[y].id)
  }

  /** The server before the first connection: no rooms, no names, no handlers. */
  function Initial(): (w: World)
    ensures WellFormed(w)
  {
    World(Empty(), map[], [])
  }

  /** new ClientHandler adds itself to clients; run prompts for a name. */
  function Open(w: World, h: Handle): World
    requires h !in w.sessions
  {
    w.(sessions := w.sessions[h := Session(Naming, None, None, [Println("Enter username: ")])], clients := w.clients + [h])
  }

  function Emit(w: World, h: Handle, o: Output): World
    requires h in w.sessions
  {
    w.(sessions := w.sessions[h := Written(w.sessions[h], o)])
  }

  /** The thread leaves run; the handler stays registered. */
  function Close(w: World, h: Handle): World
    requires h in w.sessions
  {
    w.(sessions := w.sessions[h := w.sessions[h].(phase := Closed)])
  }

  /** One readLine() of the naming loop and the claim of its result. At the
      end of the input readLine() returns null: a successful claim of null
      welcomes "null" and the read loop ends at once; a failed one loops for
      ever, printing the prompt. */
  function Name(w: World, h: Handle, input: Input): World
    requires h in w.sessions
  {
    var s := w.sessions[h];
    match input
    case ReadError => Close(w, h)
    case Line(t) =>
      var (st, claimed) := SetNameToUser(w.store, Some(t));
      if claimed then w.(store := st, sessions := w.sessions[h := Written(s.(id := Some(t), phase := Active), Println("Welcome, " + t))])
      else w.(sessions := w.sessions[h := Written(s.(id := Some(t)), Println(NameTaken))])
    case EndOfStream =>
      var (st, claimed) := SetNameToUser(w.store, None);
      if claimed then w.(store := st, sessions := w.sessions[h := Written(s.(id := None, phase := Closed), Println("Welcome, null"))])
      else w.(sessions := w.sessions[h := Written(s.(id := None, phase := Spinning), Println(NameTaken))])
  }

  /** create, join or people with its argument room. */
  function Argued(w: World, h: Handle, action: string, room: string): World
    requires h in w.sessions && w.sessions[h].id.Some?
  {
    if action == "create" then
      Emit(w.(store := CreateRoom(w.store, room).0), h, Println("Creating room: " + room))
    else if action == "join" then
      var w1 := Emit(w, h, Println("Joining room: " + room));
      var w2 := w1.(store := AddUserToRoom(w1.store, w.sessions[h].id.value, room).0);
      w2.(sessions := w2.sessions[h := w2.sessions[h].(room := Some(room))])
    else
      Emit(Emit(w, h, Println("Participants in room " + room + ":")), h, PrintlnListing("", GetUsersInRoom(w.store, room), ""))
  }

  /** A line starting with a backslash: the words after it, split on spaces. */
  function Command(w: World, h: Handle, line: string): World
    requires forall x :: x in w.clients ==> x in w.sessions
    requires h in w.sessions && w.sessions[h].id.Some?
    requires line != "" && line[0] == '\\'
  {
    var command := Split(line[1..]);
    var s := w.sessions[h];
    if command == [] then Close(w, h)   // command[0] throws
    else
      var action := command[0];
      if action == "list" then
        Emit(Emit(w, h, Println("Listing rooms: ")), h, PrintlnListing("", GetAllRooms(w.store), ""))
      else if action in {"create", "join", "people"} then
        if |command| < 2 then Close(w, h)   // command[1] throws
        else
          Argued(w, h, action, command[1])
      else w.(sessions := Broadcast(w.sessions, w.clients, h, s.room, "unknown command"))
  }

  /** One readLine() of session h and what its handler does with the result. */
  function Step(w: World, h: Handle, input: Input): World
    requires WellFormed(w) && h in w.sessions
  {
    var s := w.sessions[h];
    match s.phase
    case Naming => Name(w, h, input)
    case Active =>
      (match input
       case Line(t) =>
         if t == "" then Close(w, h)   // charAt(0) throws
         else if t[0] == '\\' then Command(w, h, t)
         else w.(sessions := Broadcast(w.sessions, w.clients, h, s.room, s.id.value + ": " + t))
       case _ => Close(w, h))
    case Closed => w
    case Spinning => w
  }

  // ---------------------------------------------------------------------------
  // The invariant is kept
  // ---------------------------------------------------------------------------

  /** A step that changes no phase, id or name, and no room of a session
      still choosing its name, keeps the invariant. */
  lemma Quiet(w: World, w': World)
    requires WellFormed(w)
    requires w'.clients == w.clients && w'.store.names == w.store.names && w'.sessions.Keys == w.sessions.Keys
    requires forall x :: x in w.sessions ==> w'.sessions[x].phase == w.sessions[x].phase && w'.sessions[x].id == w.sessions[x].id
    requires forall x :: x in w.sessions && w.sessions[x].phase == Naming ==> w'.sessions[x].room == w.sessions[x].room
    ensures WellFormed(w')
  {
  }

  /** Replacing one session keeps the invariant when the new session, if
      active, holds a claimed name that no other active session holds. */
  lemma Replace(w: World, h: Handle, s: Session, names: set<Option<string>>)
    requires WellFormed(w) && h in w.sessions && w.store.names <= names
    requires s.phase == Active ==> s.id.Some? && s.id in names
    requires s.phase == Active ==> forall x :: x in w.sessions && x != h && w.sessions[x].phase == Active ==> w.sessions[x].id != s.id
    requires s.phase == Naming ==> s.room.None?
    ensures WellFormed(w.(store := w.store.(names := names), sessions := w.sessions[h := s]))
  {
  }

  /** Claiming a name keeps names unique among active sessions: a claim
      succeeds only for a name that no active session holds. */
  lemma NameKeeps(w: World, h: Handle, input: Input)
    requires WellFormed(w) && h in w.sessions && w.sessions[h].phase == Naming
    ensures WellFormed(Name(w, h, input)) && Name(w, h, input).clients == w.clients
  {
    var r := Name(w, h, input);
    var s := w.sessions[h];
    match input
    case ReadError =>
      Replace(w, h, r.sessions[h], w.store.names);
    case Line(t) =>
      var (st, claimed) := SetNameToUser(w.store, Some(t));
      if claimed {
        forall x | x in w.sessions && x != h && w.sessions[x].phase == Active
          ensures w.sessions[x].id != Some(t)
        {
          assert w.sessions[x].id in w.store.names;
        }
        Replace(w, h, r.sessions[h], st.names);
        assert r == w.(store := w.store.(names := st.names), sessions := w.sessions[h := r.sessions[h]]);
      } else {
        Replace(w, h, r.sessions[h], w.store.names);
        assert r == w.(store := w.store.(names := w.store.names), sessions := w.sessions[h := r.sessions[h]]);
      }
    case EndOfStream =>
      var (st, claimed) := SetNameToUser(w.store, None);
      Replace(w, h, r.sessions[h], st.names);
      assert r == w.(store := w.store.(names := st.names), sessions := w.sessions[h := r.sessions[h]]);
  }

  /** A command changes no phase but possibly the sender's, and no name. */
  lemma CommandKeeps(w: World, h: Handle, line: string)
    requires WellFormed(w) && h in w.sessions && w.sessions[h].phase == Active
    requires line != "" && line[0] == '\\'
    ensures WellFormed(Command(w, h, line)) && Command(w, h, line).clients == w.clients
    ensures Command(w, h, line).store.names == w.store.names
  {
    var command := Split(line[1..]);
    var r := Command(w, h, line);
    if command == [] || (command[0] in {"create", "join", "people"} && |command| < 2) {
      Replace(w, h, w.sessions[h].(phase := Closed), w.store.names);
      assert r == w.(store := w.store.(names := w.store.names), sessions := w.sessions[h := w.sessions[h].(phase := Closed)]);
    } else if command[0] == "list" {
      Quiet(w, r);
    } else if command[0] in {"create", "join", "people"} {
      ArguedKeeps(w, h, command[0], command[1]);
    } else {
      Quiet(w, r);
    }
  }

  lemma ArguedKeeps(w: World, h: Handle, action: string, room: string)
    requires WellFormed(w) && h in w.sessions && w.sessions[h].phase == Active
    ensures WellFormed(Argued(w, h, action, room)) && Argued(w, h, action, room).clients == w.clients
    ensures Argued(w, h, action, room).store.names == w.store.names
  {
    RoomOperationsAgree(w.store, w.sessions[h].id.value, room);
    Quiet(w, Argued(w, h, action, room));
  }

  lemma StepKeepsWellFormed(w: World, h: Handle, input: Input)
    requires WellFormed(w) && h in w.sessions
    ensures WellFormed(Step(w, h, input))
    ensures Step(w, h, input).clients == w.clients
    ensures w.store.names <= Step(w, h, input).store.names
  {
    var s := w.sessions[h];
    match s.phase
    case Naming => NameKeeps(w, h, input);
    case Active =>
      match input {
        case Line(t) =>
          if t != "" && t[0] == '\\' {
            CommandKeeps(w, h, t);
          } else if t != "" {
            Quiet(w, Step(w, h, input));
          }
        case _ =>
      }
    case Closed =>
    case Spinning =>
  }

  lemma OpenKeeps(w: World, h: Handle)
    requires WellFormed(w) && h !in w.sessions
    ensures WellFormed(Open(w, h)) && h in Open(w, h).clients
  {
    var r := Open(w, h);
    assert h !in w.clients;
    forall i, j | 0 <= i < j < |r.clients| ensures r.clients[i] != r.clients[j] {
      if j == |w.clients| {
        assert r.clients[i] == w.clients[i];
      }
    }
  }

  datatype Event = Connect(handle: Handle) | Read(handle: Handle, input: Input)

  /** The server after a schedule of events; a Connect of a handle in use and
      a Read by an unknown handle are skipped. */
  function Run(w: World, events: seq<Event>): (r: World)
    requires WellFormed(w)
    ensures WellFormed(r) && w.store.names <= r.store.names
    ensures forall h :: h in w.clients ==> h in r.clients
    decreases |events|
  {
    if events == [] then w
    else
      var w1 :=
        match events[0]
        case Connect(h) => if h in w.sessions then w else (OpenKeeps(w, h); Open(w, h))
        case Read(h, input) => if h in w.sessions then (StepKeepsWellFormed(w, h, input); Step(w, h, input)) else w;
      Run(w1, events[1..])
  }
}
