/** The ClientHandler objects of the earlier, default-package
    ClientHandler.java as one object holding the static registry `clients`,
    each handler's id, room, phase and output, and the Server they share. Each
    method updates these fields in place and is proved to end in the state the
    function of the same name in LegacyHandler computes. */
module LegacyHandlerObject {
  import opened JavaLang
  import opened LegacyStore
  import opened LegacyHandler
  import LegacyServerObject

  class Handlers {
    const server: LegacyServerObject.Server
    var sessions: map<Handle, Session>
    var clients: seq<Handle>

    /** The whole server, as a value. */
    function Model(): World
      reads this, server
    {
      World(server.Model(), sessions, clients)
    }

    /** The invariant every handler keeps. */
    ghost predicate Valid()
      reads this, server
    {
      WellFormed(Model())
    }

    /** new Server(): no rooms, no names, no connection yet. */
    constructor ()
      ensures Model() == Initial() && Valid()
    {
      server := new LegacyServerObject.Server();
      sessions, clients := map[], [];
    }

    /** out.println(text) on handler h. */
    method Say(h: Handle, text: string)
      requires h in sessions
      modifies this
      ensures Model() == Emit(old(Model()), h, Println(text))
    {
      sessions := sessions[h := Written(sessions[h], Println(text))];
    }

    /** broadcast: println on every other registered handler whose room is
        Objects.equals to room, in the registry's order. */
    method Broadcast(self: Handle, room: Option<string>, message: string)
      requires forall x :: x in clients ==> x in sessions
      modifies this
      ensures clients == old(clients)
      ensures sessions == LegacyHandler.Broadcast(old(sessions), clients, self, room, message)
    {
      var i := 0;
      while i < |clients|
        invariant 0 <= i <= |clients|
        invariant clients == old(clients)
        invariant sessions.Keys == old(sessions).Keys
        invariant LegacyHandler.Broadcast(sessions, clients[i..], self, room, message)
               == LegacyHandler.Broadcast(old(sessions), clients, self, room, message)
      {
        var x := clients[i];
        assert clients[i..][0] == x && clients[i..][1..] == clients[i + 1..];
        if x != self && sessions[x].room == room {
          sessions := sessions[x := Written(sessions[x], Println(message))];
        }
        i := i + 1;
      }
    }

    /** run returns or throws: the socket is closed, the handler stays registered. */
    method Close(h: Handle)
      requires h in sessions
      modifies this
      ensures Model() == LegacyHandler.Close(old(Model()), h)
    {
      sessions := sessions[h := sessions[h].(phase := Closed)];
    }

    /** One pass of the naming loop with the result of readLine(). */
    method Name(h: Handle, input: Input)
      requires h in sessions
      modifies this, server
      ensures Model() == LegacyHandler.Name(old(Model()), h, input)
    {
      var s := sessions[h];
      match input
      case ReadError =>
        Close(h);
      case Line(t) =>
        var claimed := server.SetNameToUser(Some(t));
        if claimed {
          sessions := sessions[h := Written(s.(id := Some(t), phase := Active), Println("Welcome, " + t))];
        } else {
          sessions := sessions[h := Written(s.(id := Some(t)), Println(NameTaken))];
        }
      case EndOfStream =>
        var claimed := server.SetNameToUser(None);
        if claimed {
          sessions := sessions[h := Written(s.(id := None, phase := Closed), Println("Welcome, null"))];
        } else {
          sessions := sessions[h := Written(s.(id := None, phase := Spinning), Println(NameTaken))];
        }
    }

    /** The create, join and people cases of the command switch. */
    method Argued(h: Handle, action: string, room: string)
      requires h in sessions && sessions[h].id.Some?
      modifies this, server
      ensures Model() == LegacyHandler.Argued(old(Model()), h, action, room)
    {
      if action == "create" {
        var _ := server.CreateRoom(room);
        Say(h, "Creating room: " + room);
      } else if action == "join" {
        Say(h, "Joining room: " + room);
        var _ := server.AddUserToRoom(sessions[h].id.value, room);
        sessions := sessions[h := sessions[h].(room := Some(room))];
      } else {
        var users := server.GetUsersInRoom(room);
        Say(h, "Participants in room " + room + ":");
        sessions := sessions[h := Written(sessions[h], PrintlnListing("", users, ""))];
      }
    }

    /** A line starting with a backslash. */
    method Command(h: Handle, line: string)
      requires forall x :: x in clients ==> x in sessions
      requires h in sessions && sessions[h].id.Some?
      requires line != "" && line[0] == '\\'
      modifies this, server
      ensures Model() == LegacyHandler.Command(old(Model()), h, line)
    {
      var command := Split(line[1..]);
      if command == [] {
        Close(h);
        return;
      }
      var action := command[0];
      if action == "list" {
        var all := server.GetAllRooms();
        Say(h, "Listing rooms: ");
        sessions := sessions[h := Written(sessions[h], PrintlnListing("", all, ""))];
      } else if action in {"create", "join", "people"} {
        if |command| < 2 {
          Close(h);
        } else {
          Argued(h, action, command[1]);
        }
      } else {
        Broadcast(h, sessions[h].room, "unknown command");
      }
    }

    /** A new connection: the handler registers itself and prompts for a name. */
    method Connect(h: Handle)
      requires Valid() && h !in sessions
      modifies this
      ensures Model() == Open(old(Model()), h) && Valid()
    {
      OpenKeeps(Model(), h);
      sessions := sessions[h := Session(Naming, None, None, [Println("Enter username: ")])];
      clients := clients + [h];
    }

    /** The body of run's loops for one readLine() by handler h. */
    method Step(h: Handle, input: Input)
      requires Valid() && h in sessions
      modifies this, server
      ensures Model() == LegacyHandler.Step(old(Model()), h, input) && Valid()
    {
      StepKeepsWellFormed(Model(), h, input);
      var s := sessions[h];
      match s.phase
      case Naming =>
        Name(h, input);
      case Active =>
        match input {
          case Line(t) =>
            if t == "" {
              Close(h);
            } else if t[0] == '\\' {
              Command(h, t);
            } else {
              Broadcast(h, s.room, s.id.value + ": " + t);
            }
          case _ => Close(h);
        }
      case Closed =>
      case Spinning =>
    }

    /** The server running through a schedule of connections and lines. */
    method Run(events: seq<Event>)
      requires Valid()
      modifies this, server
      ensures Model() == LegacyHandler.Run(old(Model()), events) && Valid()
    {
      var i := 0;
      while i < |events|
        invariant 0 <= i <= |events|
        invariant Valid()
        invariant LegacyHandler.Run(Model(), events[i..]) == LegacyHandler.Run(old(Model()), events)
      {
        assert events[i..][0] == events[i] && events[i..][1..] == events[i + 1..];
        match events[i] {
          case Connect(h) =>
            if h !in sessions {
              Connect(h);
            }
          case Read(h, input) =>
            if h in sessions {
              Step(h, input);
            }
        }
        i := i + 1;
      }
    }
  }
}
