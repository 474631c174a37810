/** The class Server of server/Server.java: the rooms map and the names set,
    updated in place by check-and-mutate methods that report success. Each
    method is tied to the store operation of the same name in RoomStore. */
module ServerObject {
  import opened RoomStore

  class Server {
    var rooms: map<string, set<string>>
    var names: set<string>

    /** The store this object holds. */
    function Model(): Store
      reads this
    {
      Store(rooms, names)
    }

    /** new Server(): no rooms and no names. */
    constructor ()
      ensures Model() == Empty()
    {
      rooms, names := map[], {};
    }

    /** What startServer does to the store before accepting connections:
        createRoom("Main"). Called once on a new server, it creates "Main". */
    method StartServer()
      modifies this
      ensures "Main" in rooms && names == old(names)
      ensures rooms == if "Main" in old(rooms) then old(rooms) else old(rooms)["Main" := {}]
      ensures old(Model()) == Empty() ==> Model() == Started()
    {
      var _ := CreateRoom("Main");
    }

    /** Claims name; true exactly when no one had claimed it before. */
    method SetNameToUser(name: string) returns (added: bool)
      modifies this
      ensures added <==> name !in old(names)
      ensures names == old(names) + {name} && rooms == old(rooms)
      ensures (Model(), added) == RoomStore.SetNameToUser(old(Model()), name)
    {
      added := name !in names;
      names := names + {name};
    }

    /** Adds user to room; true exactly when the room exists and the user was
        not in it. On false nothing changes. */
    method AddUserToRoom(user: string, room: string) returns (added: bool)
      modifies this
      ensures added <==> room in old(rooms) && user !in old(rooms)[room]
      ensures rooms == if added then old(rooms)[room := old(rooms)[room] + {user}] else old(rooms)
      ensures names == old(names)
      ensures (Model(), added) == RoomStore.AddUserToRoom(old(Model()), user, room)
    {
      added := room in rooms && user !in rooms[room];
      if added {
        rooms := rooms[room := rooms[room] + {user}];
      }
    }

    /** Removes user from room; true exactly when the room exists and the user
        was in it. Other rooms are untouched; on false nothing changes. */
    method RemoveUserFromRoom(user: string, room: string) returns (removed: bool)
      modifies this
      ensures removed <==> room in old(rooms) && user in old(rooms)[room]
      ensures rooms == if removed then old(rooms)[room := old(rooms)[room] - {user}] else old(rooms)
      ensures names == old(names)
      ensures (Model(), removed) == RoomStore.RemoveUserFromRoom(old(Model()), user, room)
    {
      removed := room in rooms && user in rooms[room];
      if removed {
        rooms := rooms[room := rooms[room] - {user}];
      }
    }

    /** The members of room, or the sentinel {"false"} when there is no such room. */
    method GetUsersInRoom(room: string) returns (users: set<string>)
      ensures room in rooms ==> users == rooms[room]
      ensures room !in rooms ==> users == {"false"}
      ensures users == RoomStore.GetUsersInRoom(Model(), room)
    {
      users := if room in rooms then rooms[room] else {"false"};
    }

    /** Creates an empty room; true exactly when there was no room of that name.
        On false nothing changes. */
    method CreateRoom(room: string) returns (created: bool)
      modifies this
      ensures created <==> room !in old(rooms)
      ensures rooms == if created then old(rooms)[room := {}] else old(rooms)
      ensures names == old(names)
      ensures (Model(), created) == RoomStore.CreateRoom(old(Model()), room)
    {
      created := room !in rooms;
      if created {
        rooms := rooms[room := {}];
      }
    }

    /** A copy of the set of room names. */
    method GetAllRooms() returns (all: set<string>)
      ensures forall r :: r in all <==> r in rooms
      ensures all == RoomStore.GetAllRooms(Model())
    {
      all := rooms.Keys;
    }
  }
}
