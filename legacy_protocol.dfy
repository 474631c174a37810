/** What the earlier, default-package ClientHandler.java does, stated over
    LegacyHandler.Step: who receives a chat line, what the commands answer and
    change, where they crash, and how a name is claimed. */
module LegacyProtocol {
  import opened JavaLang
  import opened LegacyStore
  import opened LegacyHandler

  /** Session h is in the read loop with a name. */
  predicate Talking(w: World, h: Handle) {
    h in w.sessions && w.sessions[h].phase == Active && w.sessions[h].id.Some?
  }

  // ---------------------------------------------------------------------------
  // Chat
  // ---------------------------------------------------------------------------

  /** A plain line goes, prefixed with the sender's name, to every other
      registered handler whose room equals the sender's: closed sessions and,
      when the sender has no room, sessions still choosing a name included.
      Nobody else receives it and nothing else changes. */
  lemma ChatReachesRoom(w: World, h: Handle, line: string)
    requires WellFormed(w) && Talking(w, h)
    requires line != "" && line[0] != '\\'
    ensures var r := Step(w, h, Line(line));
      && r.store == w.store && r.clients == w.clients && r.sessions.Keys == w.sessions.Keys
      && forall x :: x in w.sessions ==>
           r.sessions[x] ==
             if x != h && w.sessions[x].room == w.sessions[h].room
             then Written(w.sessions[x], Println(w.sessions[h].id.value + ": " + line))
             else w.sessions[x]
  {
    var s := w.sessions[h];
    BroadcastDelivers(w.sessions, w.clients, h, s.room, s.id.value + ": " + line);
  }

  /** A session that has closed stays registered and keeps receiving: the
      closed handler's room is unchanged, so a chat in that room reaches it. */
  lemma ClosedStillReceives(w: World, h: Handle, x: Handle, line: string)
    requires WellFormed(w) && Talking(w, h)
    requires x in w.sessions && x != h && w.sessions[x].phase == Closed
    requires w.sessions[x].room == w.sessions[h].room
    requires line != "" && line[0] != '\\'
    ensures var r := Step(w, h, Line(line));
      && x in r.clients
      && r.sessions[x].outbox == w.sessions[x].outbox + [Println(w.sessions[h].id.value + ": " + line)]
  {
    ChatReachesRoom(w, h, line);
  }

  // ---------------------------------------------------------------------------
  // Commands
  // ---------------------------------------------------------------------------

  /** A command whose first word is none of list, create, join and people is
      announced as "unknown command" to the others in the sender's room; the
      sender receives nothing. */
  lemma UnknownCommandGoesToOthers(w: World, h: Handle, line: string)
    requires WellFormed(w) && Talking(w, h)
    requires line != "" && line[0] == '\\'
    requires Split(line[1..]) != [] && Split(line[1..])[0] !in {"list", "create", "join", "people"}
    ensures var r := Step(w, h, Line(line));
      && r.store == w.store && r.clients == w.clients && r.sessions.Keys == w.sessions.Keys
      && forall x :: x in w.sessions ==>
           r.sessions[x] ==
             if x != h && w.sessions[x].room == w.sessions[h].room
             then Written(w.sessions[x], Println("unknown command"))
             else w.sessions[x]
  {
    BroadcastDelivers(w.sessions, w.clients, h, w.sessions[h].room, "unknown command");
  }

  /** A lone backslash splits into one empty word, an unknown command. */
  lemma BareBackslashIsUnknown(w: World, h: Handle)
    requires WellFormed(w) && Talking(w, h)
    ensures Step(w, h, Line("\\")).sessions[h] == w.sessions[h]
    ensures forall x :: x in w.sessions && x != h && w.sessions[x].room == w.sessions[h].room ==>
      Step(w, h, Line("\\")).sessions[x].outbox == w.sessions[x].outbox + [Println("unknown command")]
  {
    assert "\\"[1..] == "";
    UnknownCommandGoesToOthers(w, h, "\\");
  }

  /** A backslash followed only by spaces splits into no word at all, and
      command[0] throws: the session ends. */
  lemma BlankCommandEndsSession(w: World, h: Handle)
    requires WellFormed(w) && Talking(w, h)
    ensures var r := Step(w, h, Line("\\ "));
      && r.sessions[h].phase == Closed && r.sessions[h].outbox == w.sessions[h].outbox
      && r.store == w.store && r.clients == w.clients
  {
    assert "\\ "[1..] == " ";
    assert Pieces(" "[1..]) == [""];
    assert Pieces(" ") == ["", ""];
    assert DropTrailingEmpty(["", ""][..1]) == [];
    assert Split(" ") == [];
  }

  /** create, join and people without an argument read command[1], which
      throws: the session ends with nothing changed or printed. */
  lemma MissingArgumentEndsSession(w: World, h: Handle, action: string)
    requires WellFormed(w) && Talking(w, h)
    requires action in {"create", "join", "people"}
    ensures var r := Step(w, h, Line("\\" + action));
      && r.sessions[h].phase == Closed && r.sessions[h].outbox == w.sessions[h].outbox
      && r.store == w.store && r.clients == w.clients
  {
    assert ("\\" + action)[1..] == action;
    assert ' ' !in action;
  }

  /** \list answers with a header line and the room names. */
  lemma ListRooms(w: World, h: Handle)
    requires WellFormed(w) && Talking(w, h)
    ensures var r := Step(w, h, Line("\\list"));
      && r.store == w.store && r.clients == w.clients
      && r.sessions == w.sessions[h := w.sessions[h].(outbox := w.sessions[h].outbox +
           [Println("Listing rooms: "), PrintlnListing("", w.store.rooms.Keys, "")])]
  {
    assert "\\list"[1..] == "list";
    assert ' ' !in "list";
    var o := w.sessions[h].outbox;
    assert o + [Println("Listing rooms: ")] + [PrintlnListing("", w.store.rooms.Keys, "")]
        == o + [Println("Listing rooms: "), PrintlnListing("", w.store.rooms.Keys, "")];
  }

  /** \create r announces the creation whether or not r already exists; the
      room exists afterwards, and an existing room keeps its members. */
  lemma CreateIgnoresResult(w: World, h: Handle, room: string)
    requires WellFormed(w) && Talking(w, h)
    requires room != "" && ' ' !in room
    ensures var r := Step(w, h, Line("\\create " + room));
      && r.store.names == w.store.names
      && r.store.rooms == (if room in w.store.rooms then w.store.rooms else w.store.rooms[room := {}])
      && r.clients == w.clients
      && r.sessions == w.sessions[h := Written(w.sessions[h], Println("Creating room: " + room))]
  {
    assert ("\\create " + room)[1..] == "create" + " " + room;
    SplitTwoWords("create", room);
    RoomOperationsAgree(w.store, w.sessions[h].id.value, room);
  }

  /** \join r moves the session's room to r even when no room r exists, and
      never leaves the room it was in: the member set of its old room keeps
      its id. */
  lemma JoinAnyRoom(w: World, h: Handle, room: string)
    requires WellFormed(w) && Talking(w, h)
    requires room != "" && ' ' !in room
    ensures var r := Step(w, h, Line("\\join " + room)); var id := w.sessions[h].id.value;
      && r.sessions[h] == w.sessions[h].(room := Some(room), outbox := w.sessions[h].outbox + [Println("Joining room: " + room)])
      && (forall x :: x in w.sessions && x != h ==> r.sessions[x] == w.sessions[x])
      && r.store.names == w.store.names && r.store.rooms.Keys == w.store.rooms.Keys
      && (room in w.store.rooms ==> r.store.rooms == w.store.rooms[room := w.store.rooms[room] + {id}])
      && (room !in w.store.rooms ==> r.store.rooms == w.store.rooms)
      && r.clients == w.clients
  {
    assert ("\\join " + room)[1..] == "join" + " " + room;
    SplitTwoWords("join", room);
    var id := w.sessions[h].id.value;
    RoomOperationsAgree(w.store, id, room);
    if room in w.store.rooms && id in w.store.rooms[room] {
      assert w.store.rooms[room] + {id} == w.store.rooms[room];
      assert w.store.rooms[room := w.store.rooms[room] + {id}] == w.store.rooms;
    }
  }

  /** \people r lists the members of r; a missing room lists as empty. */
  lemma PeopleListed(w: World, h: Handle, room: string)
    requires WellFormed(w) && Talking(w, h)
    requires room != "" && ' ' !in room
    ensures var r := Step(w, h, Line("\\people " + room));
      && r.store == w.store && r.clients == w.clients
      && r.sessions == w.sessions[h := w.sessions[h].(outbox := w.sessions[h].outbox +
           [Println("Participants in room " + room + ":"),
            PrintlnListing("", if room in w.store.rooms then w.store.rooms[room] else {}, "")])]
  {
    assert ("\\people " + room)[1..] == "people" + " " + room;
    SplitTwoWords("people", room);
    var o := w.sessions[h].outbox;
    var users := if room in w.store.rooms then w.store.rooms[room] else {};
    assert o + [Println("Participants in room " + room + ":")] + [PrintlnListing("", users, "")]
        == o + [Println("Participants in room " + room + ":"), PrintlnListing("", users, "")];
  }

  // ---------------------------------------------------------------------------
  // Naming
  // ---------------------------------------------------------------------------

  /** An unclaimed name is claimed and welcomed, and the session enters the
      read loop without a room. */
  lemma FreeNameClaimed(w: World, h: Handle, name: string)
    requires WellFormed(w) && h in w.sessions && w.sessions[h].phase == Naming
    requires Some(name) !in w.store.names
    ensures var r := Step(w, h, Line(name));
      && r.store.names == w.store.names + {Some(name)} && r.store.rooms == w.store.rooms
      && r.sessions[h] == w.sessions[h].(phase := Active, id := Some(name),
           outbox := w.sessions[h].outbox + [Println("Welcome, " + name)])
      && r.sessions[h].room == None
  {
  }

  /** A claimed name is refused and asked for again. */
  lemma ClaimedNameRefused(w: World, h: Handle, name: string)
    requires WellFormed(w) && h in w.sessions && w.sessions[h].phase == Naming
    requires Some(name) in w.store.names
    ensures var r := Step(w, h, Line(name));
      && r.store == w.store && r.sessions[h].phase == Naming
      && r.sessions[h].outbox == w.sessions[h].outbox + [Println(NameTaken)]
  {
  }

  /** At the end of the input readLine() yields null, which is claimed like a
      name: the first session to do so is welcomed as "null" and ends; any
      later one is refused and never leaves the naming loop. */
  lemma NullName(w: World, h: Handle)
    requires WellFormed(w) && h in w.sessions && w.sessions[h].phase == Naming
    ensures var r := Step(w, h, EndOfStream);
      && r.store.names == w.store.names + {None} && r.clients == w.clients
      && (None !in w.store.names ==>
            r.sessions[h].phase == Closed && r.sessions[h].outbox == w.sessions[h].outbox + [Println("Welcome, null")])
      && (None in w.store.names ==>
            r.sessions[h].phase == Spinning && r.sessions[h].outbox == w.sessions[h].outbox + [Println(NameTaken)])
  {
  }

  /** A session that has closed or spins does not react to input any more. */
  lemma StoppedIsFinal(w: World, h: Handle, input: Input)
    requires WellFormed(w) && h in w.sessions && w.sessions[h].phase in {Closed, Spinning}
    ensures Step(w, h, input) == w
  {
  }
}
