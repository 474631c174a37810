/** The ClientHandler objects of server/ClientHandler.java as one object that
    holds what they share and what each of them owns: the static registry
    `clients`, the static `idCounter`, each handler's id, room, phase and
    output, and the Server they all call. Each method does what the handler
    method of the same name does, by updating these fields in place, and is
    proved to end in the state that the function of the same name in Handler
    computes. */
module HandlerObject {
  import opened JavaLang
  import opened RoomStore
  import opened Handler
  import ServerObject

  class Handlers {
    const server: ServerObject.Server
    var sessions: map<Handle, Session>
    var clients: seq<Handle>
    var idCounter: int

    /** The whole server, as a value. */
    function Model(): World
      reads this, server
    {
      World(server.Model(), sessions, clients, idCounter)
    }

    /** The invariant every handler keeps. */
    ghost predicate Valid()
      reads this, server
    {
      WellFormed(Model())
    }

    /** startServer: the server with room "Main" and no connection yet. */
    constructor ()
      ensures Model() == Initial() && Valid()
    {
      server := new ServerObject.Server();
      sessions, clients, idCounter := map[], [], 0;
      new;
      server.StartServer();
    }

    /** out.println(text) on handler h. */
    method Say(h: Handle, text: string)
      requires h in sessions
      modifies this
      ensures Model() == Handler.Say(old(Model()), h, text)
    {
      sessions := sessions[h := Written(sessions[h], Println(text))];
    }

    /** broadcast: println on every registered handler but self, in the
        registry's order. */
    method Broadcast(self: Handle, message: string)
      requires Registered(Model())
      modifies this
      ensures clients == old(clients) && idCounter == old(idCounter)
      ensures sessions == Handler.Broadcast(old(sessions), clients, self, message)
    {
      var i := 0;
      while i < |clients|
        invariant 0 <= i <= |clients|
        invariant clients == old(clients) && idCounter == old(idCounter)
        invariant sessions.Keys == old(sessions).Keys
        invariant Handler.Broadcast(sessions, clients[i..], self, message) == Handler.Broadcast(old(sessions), clients, self, message)
      {
        var x := clients[i];
        assert clients[i..][0] == x && clients[i..][1..] == clients[i + 1..];
        if x != self {
          sessions := sessions[x := Written(sessions[x], Println(message))];
        }
        i := i + 1;
      }
    }

    /** broadcastRoom: println on every other registered handler in room; it
        stops with threw set at the first handler whose room is null. */
    method BroadcastRoom(self: Handle, room: string, message: string) returns (threw: bool)
      requires Registered(Model())
      modifies this
      ensures clients == old(clients) && idCounter == old(idCounter)
      ensures (sessions, threw) == Handler.BroadcastRoom(old(sessions), clients, self, room, message)
    {
      var i := 0;
      while i < |clients|
        invariant 0 <= i <= |clients|
        invariant clients == old(clients) && idCounter == old(idCounter)
        invariant sessions.Keys == old(sessions).Keys
        invariant Handler.BroadcastRoom(sessions, clients[i..], self, room, message) == Handler.BroadcastRoom(old(sessions), clients, self, room, message)
      {
        var x := clients[i];
        assert clients[i..][0] == x && clients[i..][1..] == clients[i + 1..];
        if x != self {
          match sessions[x].room
          case None =>
            return true;
          case Some(r) =>
            if r == room {
              sessions := sessions[x := Written(sessions[x], Println(message))];
            }
        }
        i := i + 1;
      }
      return false;
    }

    /** The finally block: clients.remove(this), then the socket is closed. */
    method Finish(h: Handle)
      requires h in sessions
      modifies this
      ensures Model() == Handler.Finish(old(Model()), h)
    {
      clients := Without(clients, h);
      sessions := sessions[h := sessions[h].(phase := Closed)];
    }

    /** The end of the naming loop: welcome, join "Main", announce. */
    method Admit(h: Handle, id: string)
      requires Registered(Model()) && h in sessions
      modifies this, server
      ensures Model() == Handler.Admit(old(Model()), h, id)
    {
      Say(h, SystemMessage("Welcome, " + id));
      var _ := server.AddUserToRoom(id, "Main");
      sessions := sessions[h := sessions[h].(phase := Active, id := Some(id), room := Some("Main"))];
      var threw := BroadcastRoom(h, "Main", SystemMessage(id + " joined the room"));
      if threw {
        Finish(h);
      }
    }

    /** One pass of the naming loop with the line just read. */
    method TryName(h: Handle, name: string)
      requires Registered(Model()) && h in sessions
      modifies this, server
      ensures Model() == Handler.TryName(old(Model()), h, name)
    {
      if !InvalidString(name) {
        Admit(h, name);
      } else {
        var claimed := server.SetNameToUser(name);
        if claimed {
          Admit(h, name);
        } else {
          var s := sessions[h];
          sessions := sessions[h := Written(s.(phase := NameRetry, id := Some(name)), Print(RetryPrompt))];
        }
      }
    }

    /** handlePeople. */
    method People(h: Handle, room: string)
      requires h in sessions
      modifies this
      ensures Model() == Handler.People(old(Model()), h, room)
    {
      var users := server.GetUsersInRoom(room);
      if users == {"false"} {
        Say(h, ErrorMessage("Room " + room + " does not exist."));
      } else {
        sessions := sessions[h := Written(sessions[h], PrintlnListing(SystemPrefix + room, users, AnsiReset))];
      }
    }

    /** handleCreate. */
    method Create(h: Handle, room: string)
      requires h in sessions
      modifies this, server
      ensures Model() == Handler.Create(old(Model()), h, room)
    {
      if InvalidString(room) || EqualsIgnoreCase("main", room) {
        Say(h, ErrorMessage("Invalid room name."));
      } else {
        var created := server.CreateRoom(room);
        if !created {
          Say(h, ErrorMessage("Error creating " + room));
        } else {
          Say(h, SystemMessage("Created " + room));
        }
      }
    }

    /** handleJoin. */
    method Join(h: Handle, room: string) returns (threw: bool)
      requires Registered(Model()) && IsActive(Model(), h)
      modifies this, server
      ensures var o := Handler.Join(old(Model()), h, room); Model() == o.world && threw == o.crashed
    {
      var id := sessions[h].id.value;
      var current := sessions[h].room.value;
      var added := server.AddUserToRoom(id, room);
      if !added {
        Say(h, ErrorMessage("Error joining " + room));
        return false;
      }
      var removed := server.RemoveUserFromRoom(id, current);
      if !removed {
        Say(h, ErrorMessage("Could not leave the room"));
        return false;
      }
      threw := Move(h, id, current, room);
    }

    /** The broadcasts and the room change of a successful handleJoin. */
    method Move(h: Handle, id: string, current: string, room: string) returns (threw: bool)
      requires Registered(Model()) && h in sessions
      modifies this
      ensures var o := Handler.Move(old(Model()), h, id, current, room); Model() == o.world && threw == o.crashed
    {
      threw := BroadcastRoom(h, current, SystemMessage(id + " left the room."));
      if threw {
        return;
      }
      sessions := sessions[h := sessions[h].(room := Some(room))];
      Say(h, SystemMessage("Joined " + room));
      threw := BroadcastRoom(h, room, SystemMessage(id + " joined the room"));
    }

    /** handleCommand. */
    method Command(h: Handle, line: string) returns (threw: bool)
      requires Registered(Model()) && IsActive(Model(), h)
      requires line != "" && line[0] == '\\'
      modifies this, server
      ensures var o := Handler.Command(old(Model()), h, line); Model() == o.world && threw == o.crashed
    {
      SplitFirstWord(line);
      var command := Split(line);
      var action := command[0];
      threw := false;
      if action == "\\list" {
        if |command| == 1 {
          var all := server.GetAllRooms();
          sessions := sessions[h := Written(sessions[h], PrintlnListing(SystemPrefix, all, AnsiReset))];
        } else if |command| == 2 {
          People(h, command[1]);
        } else {
          Say(h, ErrorMessage("Invalid argument"));
        }
      } else if action == "\\create" {
        if InvalidArgs(command) {
          Say(h, ErrorMessage("Invalid argument"));
        } else {
          Create(h, command[1]);
        }
      } else if action == "\\join" {
        if InvalidArgs(command) {
          Say(h, ErrorMessage("Invalid argument"));
        } else {
          threw := Join(h, command[1]);
        }
      } else if action == "\\shout" {
        if |line| < |action| + 1 {
          threw := true;
        } else {
          Broadcast(h, ShoutMessage(sessions[h].id.value, line[|action| + 1..]));
        }
      } else {
        Say(h, ErrorMessage("Unknown command: " + action));
      }
    }

    /** A new connection: the handler registers itself and prompts for a name. */
    method Connect(h: Handle)
      requires Valid() && h !in sessions
      modifies this
      ensures Model() == Open(old(Model()), h) && Valid()
    {
      OpenKeeps(Model(), h);
      sessions := sessions[h := Session(NameFirst, None, None, [UsernamePrompt])];
      clients := clients + [h];
    }

    /** The body of run's loops for one line read by handler h. */
    method Step(h: Handle, input: Input)
      requires Valid() && h in sessions
      modifies this, server
      ensures Model() == Handler.Step(old(Model()), h, input) && Valid()
    {
      StepKeepsWellFormed(Model(), h, input);
      assert Shaped(sessions[h], server.Model());
      match sessions[h].phase
      case Closed =>
      case NameFirst =>
        match input {
          case Line(name) =>
            if name == "" {
              var counter := idCounter;
              idCounter := Increment(idCounter);
              Admit(h, AnonymousId(counter));
            } else {
              TryName(h, name);
            }
          case _ => Finish(h);
        }
      case NameRetry =>
        match input {
          case Line(name) => TryName(h, name);
          case _ => Finish(h);
        }
      case Active =>
        match input {
          case Line(line) =>
            if line == "" {
              Finish(h);
            } else {
              var threw;
              if line[0] == '\\' {
                threw := Command(h, line);
              } else {
                var s := sessions[h];
                threw := BroadcastRoom(h, s.room.value, UserMessage(s.room.value, s.id.value, line));
              }
              if threw {
                Finish(h);
              }
            }
          case _ => Finish(h);
        }
    }

    /** The server running through a schedule of connections and lines. */
    method Run(events: seq<Event>)
      requires Valid()
      modifies this, server
      ensures Model() == Handler.Run(old(Model()), events) && Valid()
    {
      var i := 0;
      while i < |events|
        invariant 0 <= i <= |events|
        invariant Valid()
        invariant Handler.Run(Model(), events[i..]) == Handler.Run(old(Model()), events)
      {
        assert events[i..][0] == events[i] && events[i..][1..] == events[i + 1..];
        match events[i] {
          case Connect(h) =>
            if h !in sessions {
              Connect(h);
            }
          case Read(h, input) =>
            if h in sessions {
              Step(h, input);
            }
        }
        i := i + 1;
      }
    }
  }
}
