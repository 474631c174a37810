/** The class Server of the earlier, default-package Server.java: the same
    check-and-mutate methods over a rooms map and a names set that also holds
    null. Each method is tied to the LegacyStore operation of the same name. */
module LegacyServerObject {
  import opened JavaLang
  import opened LegacyStore

  class Server {
    var rooms: map<string, set<string>>
    var names: set<Option<string>>

    function Model(): Store
      reads this
    {
      Store(rooms, names)
    }

    /** new Server(): no rooms, not even "Main", and no names. */
    constructor ()
      ensures Model() == Empty()
    {
      rooms, names := map[], {};
    }

    /** Claims name (null included); true exactly when it was unclaimed. */
    method SetNameToUser(name: Option<string>) returns (added: bool)
      modifies this
      ensures added <==> name !in old(names)
      ensures names == old(names) + {name} && rooms == old(rooms)
      ensures (Model(), added) == LegacyStore.SetNameToUser(old(Model()), name)
    {
      added := name !in names;
      names := names + {name};
    }

    /** Adds user to room; true exactly when the room exists and the user was
        not in it. */
    method AddUserToRoom(user: string, room: string) returns (added: bool)
      modifies this
      ensures added <==> room in old(rooms) && user !in old(rooms)[room]
      ensures rooms == if added then old(rooms)[room := old(rooms)[room] + {user}] else old(rooms)
      ensures names == old(names)
      ensures (Model(), added) == LegacyStore.AddUserToRoom(old(Model()), user, room)
    {
      added := room in rooms && user !in rooms[room];
      if added {
        rooms := rooms[room := rooms[room] + {user}];
      }
    }

    /** Removes user from room; true exactly when the room exists and the user
        was in it. */
    method RemoveUserFromRoom(user: string, room: string) returns (removed: bool)
      modifies this
      ensures removed <==> room in old(rooms) && user in old(rooms)[room]
      ensures rooms == if removed then old(rooms)[room := old(rooms)[room] - {user}] else old(rooms)
      ensures names == old(names)
      ensures (Model(), removed) == LegacyStore.RemoveUserFromRoom(old(Model()), user, room)
    {
      removed := room in rooms && user in rooms[room];
      if removed {
        rooms := rooms[room := rooms[room] - {user}];
      }
    }

    /** The members of room, or the empty set when there is no such room. */
    method GetUsersInRoom(room: string) returns (users: set<string>)
      ensures room in rooms ==> users == rooms[room]
      ensures room !in rooms ==> users == {}
      ensures users == LegacyStore.GetUsersInRoom(Model(), room)
    {
      users := if room in rooms then rooms[room] else {};
    }

    /** Creates an empty room; true exactly when there was no room of that name. */
    method CreateRoom(room: string) returns (created: bool)
      modifies this
      ensures created <==> room !in old(rooms)
      ensures rooms == if created then old(rooms)[room := {}] else old(rooms)
      ensures names == old(names)
      ensures (Model(), created) == LegacyStore.CreateRoom(old(Model()), room)
    {
      created := room !in rooms;
      if created {
        rooms := rooms[room := {}];
      }
    }

    /** The room names. */
    method GetAllRooms() returns (all: set<string>)
      ensures forall r :: r in all <==> r in rooms
      ensures all == LegacyStore.GetAllRooms(Model())
    {
      all := rooms.Keys;
    }
  }
}
