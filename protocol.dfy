/** What the handlers of server/ClientHandler.java promise, stated over Step:
    how a session ends, who receives a chat line or a shout, what each command
    answers and changes, and how a session gets its name. */
module Protocol {
  import opened JavaLang
  import opened RoomStore
  import opened Handler

  /** Some registered session other than h is still choosing its name, so its
      room is null and broadcastRoom throws when it reaches it. */
  predicate SomeoneNaming(w: World, h: Handle) {
    exists x :: x in w.clients && x in w.sessions && x != h && w.sessions[x].phase in {NameFirst, NameRetry}
  }

  /** Under the invariant, the registered sessions without a room are exactly
      the ones still choosing their name. */
  lemma NamingIsRoomless(w: World, h: Handle)
    requires WellFormed(w)
    ensures SomeoneNaming(w, h) <==> exists x :: x in w.clients && x != h && w.sessions[x].room.None?
  {
    if exists x :: x in w.clients && x != h && w.sessions[x].room.None? {
      var x :| x in w.clients && x != h && w.sessions[x].room.None?;
      assert Shaped(w.sessions[x], w.store);
    }
  }

  // ---------------------------------------------------------------------------
  // How a session ends
  // ---------------------------------------------------------------------------

  /** A session that is still open ends when its input ends or fails, at any
      phase: it leaves the registry, and the store is untouched, so its id stays
      in its room's member set and in the set of claimed names. */
  lemma EndOfInputEndsSession(w: World, h: Handle, input: Input)
    requires WellFormed(w) && h in w.sessions && w.sessions[h].phase != Closed
    requires !input.Line?
    ensures var r := Step(w, h, input);
      && r == Finish(w, h)
      && r.store == w.store
      && h !in r.clients && r.sessions[h].phase == Closed
      && r.sessions[h].id == w.sessions[h].id && r.sessions[h].room == w.sessions[h].room
      && forall x :: x in w.clients && x != h ==> x in r.clients
  {
  }

  /** An empty chat line ends the session: charAt(0) throws. */
  lemma EmptyLineEndsSession(w: World, h: Handle)
    requires WellFormed(w) && IsActive(w, h)
    ensures var r := Step(w, h, Line(""));
      r == Finish(w, h) && h !in r.clients && r.store == w.store
  {
  }

  /** A session that has ended ignores everything. */
  lemma ClosedIsFinal(w: World, h: Handle, input: Input)
    requires WellFormed(w) && h in w.sessions && w.sessions[h].phase == Closed
    ensures Step(w, h, input) == w
  {
  }

  // ---------------------------------------------------------------------------
  // Chat lines and shouts
  // ---------------------------------------------------------------------------

  /** A chat line reaches, once, each other registered session in the sender's
      room and no one else. Whenever some other session is still choosing its
      name, broadcastRoom throws on it and the sender's session ends; otherwise
      every session in the room has received the line. */
  lemma ChatReachesRoom(w: World, h: Handle, line: string)
    requires WellFormed(w) && IsActive(w, h)
    requires line != "" && line[0] != '\\'
    ensures var s := w.sessions[h];
      var r := Step(w, h, Line(line));
      var message := Println(UserMessage(s.room.value, s.id.value, line));
      && r.store == w.store && r.sessions.Keys == w.sessions.Keys
      && (h in r.clients <==> !SomeoneNaming(w, h))
      && (forall x :: x in w.sessions && x != h ==>
            r.sessions[x] == w.sessions[x] ||
            (r.sessions[x] == Written(w.sessions[x], message) && x in w.clients && w.sessions[x].room == s.room))
      && (!SomeoneNaming(w, h) ==>
            && r.sessions[h] == s
            && forall x :: x in w.clients && x != h && w.sessions[x].room == s.room ==>
                 r.sessions[x] == Written(w.sessions[x], message))
  {
    var s := w.sessions[h];
    assert Shaped(s, w.store);
    var message := UserMessage(s.room.value, s.id.value, line);
    NamingIsRoomless(w, h);
    BroadcastRoomThrows(w.sessions, w.clients, h, s.room.value, message);
    BroadcastRoomDelivers(w.sessions, w.clients, h, s.room.value, message);
  }

  /** "\shout text" reaches every other registered session, whatever its room,
      even one still choosing its name, and changes nothing else. */
  lemma ShoutReachesEveryone(w: World, h: Handle, text: string)
    requires WellFormed(w) && IsActive(w, h)
    ensures var s := w.sessions[h];
      var r := Step(w, h, Line("\\shout " + text));
      && r.store == w.store && r.clients == w.clients && r.idCounter == w.idCounter
      && r.sessions.Keys == w.sessions.Keys
      && forall x :: x in w.sessions ==>
           r.sessions[x] ==
             if x in w.clients && x != h then Written(w.sessions[x], Println(ShoutMessage(s.id.value, text)))
             else w.sessions[x]
  {
    var s := w.sessions[h];
    assert Shaped(s, w.store);
    var line := "\\shout " + text;
    assert line == "\\shout" + " " + text;
    SplitWordThenSpace("\\shout", text);
    assert line[7..] == text;
    BroadcastDelivers(w.sessions, w.clients, h, ShoutMessage(s.id.value, text));
  }

  /** "\shout" with nothing after it ends the session: substring(7) throws. */
  lemma BareShoutEndsSession(w: World, h: Handle)
    requires WellFormed(w) && IsActive(w, h)
    ensures var r := Step(w, h, Line("\\shout"));
      r == Finish(w, h) && h !in r.clients && r.store == w.store
  {
    assert Split("\\shout") == ["\\shout"];
  }

  // ---------------------------------------------------------------------------
  // Commands that only answer the sender
  // ---------------------------------------------------------------------------

  /** A command line whose first word is none of the four commands is answered
      with one error line to the sender and changes nothing else. */
  lemma UnknownCommand(w: World, h: Handle, line: string)
    requires WellFormed(w) && IsActive(w, h)
    requires line != "" && line[0] == '\\'
    requires Split(line) != [] && Split(line)[0] !in {"\\list", "\\create", "\\join", "\\shout"}
    ensures var r := Step(w, h, Line(line));
      && r.store == w.store && r.clients == w.clients && r.idCounter == w.idCounter
      && r.sessions == w.sessions[h := Written(w.sessions[h], Println(ErrorMessage("Unknown command: " + Split(line)[0])))]
  {
    SplitFirstWord(line);
  }

  /** "\list" lists every room to the sender and changes nothing else. */
  lemma ListRooms(w: World, h: Handle)
    requires WellFormed(w) && IsActive(w, h)
    ensures var r := Step(w, h, Line("\\list"));
      && r.store == w.store && r.clients == w.clients
      && r.sessions == w.sessions[h := Written(w.sessions[h], PrintlnListing(SystemPrefix, w.store.rooms.Keys, AnsiReset))]
  {
    assert Split("\\list") == ["\\list"];
  }

  /** "\list room" lists the members of an existing room, and otherwise says the
      room does not exist; in both cases to the sender only. */
  lemma ListPeople(w: World, h: Handle, room: string)
    requires WellFormed(w) && IsActive(w, h)
    requires room != "" && ' ' !in room
    ensures var r := Step(w, h, Line("\\list " + room));
      var answer :=
        if room in w.store.rooms && w.store.rooms[room] != {"false"} then
          PrintlnListing(SystemPrefix + room, w.store.rooms[room], AnsiReset)
        else Println(ErrorMessage("Room " + room + " does not exist."));
      && r.store == w.store && r.clients == w.clients
      && r.sessions == w.sessions[h := Written(w.sessions[h], answer)]
  {
    assert "\\list " + room == "\\list" + " " + room;
    SplitTwoWords("\\list", room);
    GetUsersInRoomSentinel(w.store, room);
  }

  /** A \list, \create or \join line with the wrong number of words, or a
      non-alphanumeric argument, is answered with "Invalid argument" and changes
      nothing else. */
  lemma InvalidArgument(w: World, h: Handle, line: string)
    requires WellFormed(w) && IsActive(w, h)
    requires line != "" && line[0] == '\\'
    requires var command := Split(line);
      command != [] &&
      ((command[0] == "\\list" && |command| > 2) || (command[0] in {"\\create", "\\join"} && InvalidArgs(command)))
    ensures var r := Step(w, h, Line(line));
      && r.store == w.store && r.clients == w.clients
      && r.sessions == w.sessions[h := Written(w.sessions[h], Println(ErrorMessage("Invalid argument")))]
  {
    SplitFirstWord(line);
  }

  // ---------------------------------------------------------------------------
  // Rooms: \create and \join
  // ---------------------------------------------------------------------------

  /** "\create room" with an alphanumeric room: any spelling of "main" is
      refused; otherwise the room is created exactly when it is new, and the
      sender alone is told which happened. */
  lemma CreateCommand(w: World, h: Handle, room: string)
    requires WellFormed(w) && IsActive(w, h)
    requires room != "" && !InvalidString(room)
    ensures var r := Step(w, h, Line("\\create " + room));
      var reserved := EqualsIgnoreCase("main", room);
      var created := !reserved && room !in w.store.rooms;
      var answer :=
        if reserved then ErrorMessage("Invalid room name.")
        else if created then SystemMessage("Created " + room)
        else ErrorMessage("Error creating " + room);
      && r.store.names == w.store.names
      && r.store.rooms == (if created then w.store.rooms[room := {}] else w.store.rooms)
      && r.clients == w.clients
      && r.sessions == w.sessions[h := Written(w.sessions[h], Println(answer))]
  {
    CreateStep(w, h, room);
  }

  /** A \create line with an alphanumeric room runs handleCreate. */
  lemma CreateStep(w: World, h: Handle, room: string)
    requires WellFormed(w) && IsActive(w, h)
    requires room != "" && !InvalidString(room)
    ensures Step(w, h, Line("\\create " + room)) == Create(w, h, room)
  {
    assert "\\create " + room == "\\create" + " " + room;
    assert ' ' !in room by {
      forall i | 0 <= i < |room| ensures room[i] != ' ' {
        assert IsAlphanumeric(room[i]);
      }
    }
    SplitTwoWords("\\create", room);
  }

  /** "main" is reserved in every case: \create of "MAIN", "Main", "mAiN" and
      the rest changes no room. */
  lemma MainIsReserved(w: World, h: Handle, room: string)
    requires WellFormed(w) && IsActive(w, h)
    requires |room| == 4 && forall i :: 0 <= i < 4 ==> ToLowerAscii(room[i]) == "main"[i]
    ensures Step(w, h, Line("\\create " + room)).store == w.store
  {
    assert !InvalidString(room) by {
      forall i | 0 <= i < |room| ensures IsAlphanumeric(room[i]) {
        assert ToLowerAscii(room[i]) == "main"[i];
      }
    }
    CreateCommand(w, h, room);
  }

  /** "\join room" when room is missing or already has the sender's id: an
      error to the sender and nothing changes. */
  lemma JoinRefused(w: World, h: Handle, room: string)
    requires WellFormed(w) && IsActive(w, h)
    requires room != "" && !InvalidString(room)
    requires var s := w.sessions[h];
      (room !in w.store.rooms || s.id.value in w.store.rooms[room])
    ensures var r := Step(w, h, Line("\\join " + room));
      && r.store == w.store && r.clients == w.clients
      && r.sessions == w.sessions[h := Written(w.sessions[h], Println(ErrorMessage("Error joining " + room)))]
  {
    JoinLine(room);
  }

  /** "\join room" when the sender's id is in room's set but not in the set of
      the room it is in: the id is added to room, the session stays where it
      was, and the sender is told it could not leave. The addition is kept. */
  lemma JoinWithoutLeaving(w: World, h: Handle, room: string)
    requires WellFormed(w) && IsActive(w, h)
    requires room != "" && !InvalidString(room)
    requires var s := w.sessions[h];
      && room in w.store.rooms && s.id.value !in w.store.rooms[room]
      && s.id.value !in w.store.rooms[s.room.value] && s.room.value != room
    ensures var s := w.sessions[h];
      var r := Step(w, h, Line("\\join " + room));
      && r.store == AddUserToRoom(w.store, s.id.value, room).0
      && r.store.rooms[room] == w.store.rooms[room] + {s.id.value}
      && r.clients == w.clients
      && r.sessions == w.sessions[h := Written(s, Println(ErrorMessage("Could not leave the room")))]
  {
    var s := w.sessions[h];
    JoinStep(w, h, room);
    var w1 := w.(store := AddUserToRoom(w.store, s.id.value, room).0);
    assert Join(w, h, room) == Outcome(Say(w1, h, ErrorMessage("Could not leave the room")), false);
  }

  /** "\join room" that succeeds: the sender's id moves from its room's set to
      room's set, its session moves to room and is told so, and Move (see
      MoveMeaning) tells the other sessions of both rooms. This needs every
      other registered session to have chosen its name. */
  lemma JoinMoves(w: World, h: Handle, room: string)
    requires WellFormed(w) && IsActive(w, h)
    requires room != "" && !InvalidString(room)
    requires var s := w.sessions[h];
      && room in w.store.rooms && s.id.value !in w.store.rooms[room]
      && s.id.value in w.store.rooms[s.room.value]
    requires !SomeoneNaming(w, h)
    ensures var s := w.sessions[h];
      var id, current := s.id.value, s.room.value;
      var r := Step(w, h, Line("\\join " + room));
      && current != room
      && r.store.names == w.store.names
      && r.store.rooms == w.store.rooms[current := w.store.rooms[current] - {id}][room := w.store.rooms[room] + {id}]
      && r == Move(w.(store := r.store), h, id, current, room).world
      && r.clients == w.clients
      && r.sessions[h] == Written(s.(room := Some(room)), Println(SystemMessage("Joined " + room)))
  {
    var s := w.sessions[h];
    var id, current := s.id.value, s.room.value;
    JoinStep(w, h, room);
    var st1 := AddUserToRoom(w.store, id, room).0;
    var w2 := w.(store := RemoveUserFromRoom(st1, id, current).0);
    assert Shaped(s, w.store);
    MoveUser(w.store, id, current, room);
    Reshaped(w, w2);
    assert Join(w, h, room) == Move(w2, h, id, current, room);
    MoveMeaning(w2, h, id, current, room);
    var o := Move(w2, h, id, current, room);
    assert Step(w, h, Line("\\join " + room)) == o.world;
    assert o.world.store == w2.store;
  }

  /** "\join room" that moves the id while another registered session is still
      choosing its name: that session's room is null, so the "left" broadcast
      throws after the store has moved the id. The session ends through the
      finally block, its room unchanged, and the move in the store is kept. */
  lemma JoinCrashes(w: World, h: Handle, room: string)
    requires WellFormed(w) && IsActive(w, h)
    requires room != "" && !InvalidString(room)
    requires var s := w.sessions[h];
      && room in w.store.rooms && s.id.value !in w.store.rooms[room]
      && s.id.value in w.store.rooms[s.room.value]
    requires SomeoneNaming(w, h)
    ensures var s := w.sessions[h];
      var id, current := s.id.value, s.room.value;
      var r := Step(w, h, Line("\\join " + room));
      && r.store.names == w.store.names
      && r.store.rooms == w.store.rooms[current := w.store.rooms[current] - {id}][room := w.store.rooms[room] + {id}]
      && r.sessions[h].phase == Closed && r.sessions[h].room == Some(current)
      && h !in r.clients && r.sessions.Keys == w.sessions.Keys
  {
    var s := w.sessions[h];
    var id, current := s.id.value, s.room.value;
    JoinStep(w, h, room);
    var st1 := AddUserToRoom(w.store, id, room).0;
    var w2 := w.(store := RemoveUserFromRoom(st1, id, current).0);
    assert Shaped(s, w.store);
    MoveUser(w.store, id, current, room);
    Reshaped(w, w2);
    assert Join(w, h, room) == Move(w2, h, id, current, room);
    MoveThrows(w2, h, id, current, room);
  }

  /** While another registered session is still choosing its name, Move
      throws in its first broadcast, before the sender's room changes. */
  lemma MoveThrows(w: World, h: Handle, id: string, current: string, room: string)
    requires WellFormed(w) && h in w.sessions
    requires SomeoneNaming(w, h)
    ensures var o := Move(w, h, id, current, room);
      && o.crashed && o.world.store == w.store && o.world.clients == w.clients
      && o.world.sessions[h] == w.sessions[h]
  {
    var leftText := SystemMessage(id + " left the room.");
    NamingIsRoomless(w, h);
    BroadcastRoomThrows(w.sessions, w.clients, h, current, leftText);
    BroadcastRoomDelivers(w.sessions, w.clients, h, current, leftText);
  }

  /** "\join room" of the room the session is in, when its id is missing from
      that room's set (two sessions can share an id): the id is added and
      removed again, so the store ends as it was, and Move tells the room both
      that the sender left and that it joined, or throws as in JoinCrashes. */
  lemma JoinCurrentRoom(w: World, h: Handle)
    requires WellFormed(w) && IsActive(w, h)
    requires var s := w.sessions[h];
      && s.room.value != "" && !InvalidString(s.room.value)
      && s.id.value !in w.store.rooms[s.room.value]
    ensures var s := w.sessions[h];
      var id, room := s.id.value, s.room.value;
      var r := Step(w, h, Line("\\join " + room));
      && r.store == w.store
      && (!SomeoneNaming(w, h) ==>
            && r == Move(w, h, id, room, room).world
            && r.clients == w.clients
            && r.sessions[h] == Written(s, Println(SystemMessage("Joined " + room))))
      && (SomeoneNaming(w, h) ==>
            && r.sessions[h].phase == Closed && r.sessions[h].room == Some(room)
            && h !in r.clients)
  {
    var s := w.sessions[h];
    var id, room := s.id.value, s.room.value;
    assert Shaped(s, w.store);
    JoinStep(w, h, room);
    AddThenRemove(w.store, id, room);
    assert Join(w, h, room) == Move(w, h, id, room, room);
    if SomeoneNaming(w, h) {
      MoveThrows(w, h, id, room, room);
    } else {
      MoveMeaning(w, h, id, room, room);
    }
  }

  /** The broadcasts of a successful \join: the sender moves to room and is
      told so, the active sessions of the old room are told it left and those
      of the new room that it joined, and nothing throws when no other
      registered session is still choosing its name. */
  lemma MoveMeaning(w: World, h: Handle, id: string, current: string, room: string)
    requires WellFormed(w) && IsActive(w, h) && room in w.store.rooms
    requires w.sessions[h].room == Some(current)
    requires !SomeoneNaming(w, h)
    ensures var o := Move(w, h, id, current, room);
      var s := w.sessions[h];
      var left, joined := Println(SystemMessage(id + " left the room.")), Println(SystemMessage(id + " joined the room"));
      && !o.crashed
      && o.world.clients == w.clients && o.world.sessions.Keys == w.sessions.Keys
      && o.world.sessions[h] == Written(s.(room := Some(room)), Println(SystemMessage("Joined " + room)))
      && forall x :: x in w.sessions && x != h ==>
           var t := w.sessions[x];
           var receives := x in w.clients && t.phase == Active;
           o.world.sessions[x] == t.(outbox := t.outbox
             + (if receives && t.room == Some(current) then [left] else [])
             + (if receives && t.room == Some(room) then [joined] else []))
  {
    var s := w.sessions[h];
    var leftText, joinedText := SystemMessage(id + " left the room."), SystemMessage(id + " joined the room");
    forall x | x in w.clients && x != h
      ensures w.sessions[x].room.Some? && (w.sessions[x].phase == Active)
    {
      assert Shaped(w.sessions[x], w.store);
    }
    var ss1 := BroadcastRoom(w.sessions, w.clients, h, current, leftText).0;
    BroadcastRoomReachesAll(w.sessions, w.clients, h, current, leftText);
    var w3 := Say(w.(sessions := ss1[h := ss1[h].(room := Some(room))]), h, SystemMessage("Joined " + room));
    assert forall x :: x in w.clients && x != h ==> w3.sessions[x].room == w.sessions[x].room;
    BroadcastRoomReachesAll(w3.sessions, w3.clients, h, room, joinedText);
  }

  /** A \join line with an alphanumeric room runs handleJoin. */
  lemma JoinStep(w: World, h: Handle, room: string)
    requires WellFormed(w) && IsActive(w, h)
    requires room != "" && !InvalidString(room)
    ensures Step(w, h, Line("\\join " + room)) == Settle(Join(w, h, room), h)
  {
    JoinLine(room);
  }

  /** The words of a \join line with an alphanumeric room. */
  lemma JoinLine(room: string)
    requires room != "" && !InvalidString(room)
    ensures Split("\\join " + room) == ["\\join", room]
  {
    assert "\\join " + room == "\\join" + " " + room;
    assert ' ' !in room by {
      forall i | 0 <= i < |room| ensures room[i] != ' ' {
        assert IsAlphanumeric(room[i]);
      }
    }
    SplitTwoWords("\\join", room);
  }

  // ---------------------------------------------------------------------------
  // Choosing a name
  // ---------------------------------------------------------------------------

  /** What admitting a session with a chosen id does: a welcome line, the id
      added to "Main" when it was not there, the session in "Main". The
      "joined" broadcast throws, ending the new session at once, exactly when
      another registered session is still choosing its name. */
  lemma AdmitMeaning(w: World, h: Handle, id: string)
    requires WellFormed(w) && h in w.sessions && w.sessions[h].phase in {NameFirst, NameRetry}
    ensures var r := Admit(w, h, id);
      && r.store == AddUserToRoom(w.store, id, "Main").0
      && r.idCounter == w.idCounter
      && r.sessions[h].id == Some(id) && r.sessions[h].room == Some("Main")
      && r.sessions[h].outbox == w.sessions[h].outbox + [Println(SystemMessage("Welcome, " + id))]
      && (r.sessions[h].phase == Active <==> !SomeoneNaming(w, h))
      && (h in r.clients <==> !SomeoneNaming(w, h))
  {
    assert h in w.clients;
    NamingIsRoomless(w, h);
    var w1 := Say(w, h, SystemMessage("Welcome, " + id));
    var w2 := w1.(store := AddUserToRoom(w1.store, id, "Main").0);
    var s3 := w2.sessions[h].(phase := Active, id := Some(id), room := Some("Main"));
    var w3 := w2.(sessions := w2.sessions[h := s3]);
    var joined := SystemMessage(id + " joined the room");
    assert forall x :: x in w.clients && x != h ==> w3.sessions[x].room == w.sessions[x].room;
    var (ss, threw) := BroadcastRoom(w3.sessions, w3.clients, h, "Main", joined);
    BroadcastRoomThrows(w3.sessions, w3.clients, h, "Main", joined);
    BroadcastRoomDelivers(w3.sessions, w3.clients, h, "Main", joined);
    assert threw <==> SomeoneNaming(w, h);
    assert ss[h] == s3;
    var w4 := w3.(sessions := ss);
    assert Admit(w, h, id) == Settle(Outcome(w4, threw), h);
    if threw {
      assert Settle(Outcome(w4, threw), h) == Finish(w4, h);
    }
  }

  /** An empty first answer to the username prompt names the session
      "user_" + idCounter and increments the counter, with 32-bit wrap-around;
      the name is not claimed in the names set. */
  lemma AnonymousName(w: World, h: Handle)
    requires WellFormed(w) && h in w.sessions && w.sessions[h].phase == NameFirst
    ensures var r := Step(w, h, Line(""));
      && r.idCounter == Increment(w.idCounter)
      && r.sessions[h].id == Some(AnonymousId(w.idCounter))
      && r.sessions[h].room == Some("Main")
      && r.store.names == w.store.names
      && (r.sessions[h].phase == Active <==> !SomeoneNaming(w, h))
  {
    var w1 := w.(idCounter := Increment(w.idCounter));
    assert WellFormed(w1) by {
      forall x | x in w1.sessions ensures Shaped(w1.sessions[x], w1.store) {
        assert Shaped(w.sessions[x], w.store);
      }
    }
    AdmitMeaning(w1, h, AnonymousId(w.idCounter));
  }

  /** Different counter values give different anonymous names, so the names
      handed out are distinct until the counter wraps all the way round. */
  lemma AnonymousIdInjective(a: int, b: int)
    requires AnonymousId(a) == AnonymousId(b)
    ensures a == b
  {
    assert IntToString(a) == AnonymousId(a)[5..];
    assert IntToString(b) == AnonymousId(b)[5..];
    IntToStringInjective(a, b);
  }

  /** Consecutive anonymous sessions get different names. */
  lemma ConsecutiveAnonymousIds(c: int)
    requires IsInt32(c)
    ensures AnonymousId(c) != AnonymousId(Increment(c))
  {
    if AnonymousId(c) == AnonymousId(Increment(c)) {
      AnonymousIdInjective(c, Increment(c));
    }
  }

  /** An alphanumeric name is taken at once, without consulting or changing
      the names set, so two sessions can end up with the same id. The retry
      loop also takes the empty line as a name. */
  lemma AlphanumericNameTaken(w: World, h: Handle, name: string)
    requires WellFormed(w) && h in w.sessions
    requires w.sessions[h].phase == NameRetry || (w.sessions[h].phase == NameFirst && name != "")
    requires !InvalidString(name)
    ensures var r := Step(w, h, Line(name));
      && r.store.names == w.store.names
      && r.sessions[h].id == Some(name) && r.sessions[h].room == Some("Main")
      && (r.sessions[h].phase == Active <==> !SomeoneNaming(w, h))
      && forall x :: x in w.sessions && x != h && w.sessions[x].id == Some(name) ==> r.sessions[x].id == Some(name)
  {
    AdmitMeaning(w, h, name);
  }

  /** A name with a character outside [a-zA-Z0-9] that nobody has claimed is
      claimed and taken. Anonymous names contain '_' and are never claimed, so
      typing one of them is accepted even while that session is connected. */
  lemma FreeNameClaimed(w: World, h: Handle, name: string)
    requires WellFormed(w) && h in w.sessions
    requires w.sessions[h].phase == NameRetry || (w.sessions[h].phase == NameFirst && name != "")
    requires InvalidString(name) && name !in w.store.names
    ensures var r := Step(w, h, Line(name));
      && r.store.names == w.store.names + {name}
      && r.sessions[h].id == Some(name) && r.sessions[h].room == Some("Main")
      && (r.sessions[h].phase == Active <==> !SomeoneNaming(w, h))
  {
    var w1 := w.(store := SetNameToUser(w.store, name).0);
    Reshaped(w, w1);
    AdmitMeaning(w1, h, name);
  }

  /** A name with a character outside [a-zA-Z0-9] that is already claimed is
      refused: the session re-prompts (print, no newline) and nothing else changes. */
  lemma ClaimedNameRefused(w: World, h: Handle, name: string)
    requires WellFormed(w) && h in w.sessions
    requires w.sessions[h].phase == NameRetry || (w.sessions[h].phase == NameFirst && name != "")
    requires InvalidString(name) && name in w.store.names
    ensures var r := Step(w, h, Line(name));
      && r.store == w.store && r.clients == w.clients && r.idCounter == w.idCounter
      && r.sessions == w.sessions[h := Written(w.sessions[h].(phase := NameRetry, id := Some(name)), Print(RetryPrompt))]
  {
    assert w.store.names + {name} == w.store.names;
  }
}
