/** The room and name store of the earlier, default-package Server.java. Its
    names set is a CopyOnWriteArraySet, which also holds null, so a name is an
    Option; the server starts without any room; getUsersInRoom answers a
    missing room with the empty set. The room operations are those of RoomStore. */
module LegacyStore {
  import opened JavaLang
  import RoomStore

  datatype Store = Store(rooms: map<string, set<string>>, names: set<Option<string>>)

  /** new Server(): no rooms and no names; nothing creates "Main". */
  function Empty(): Store {
    Store(map[], {})
  }

  /** The room part, as the store of the later Server. */
  function Rooms(s: Store): RoomStore.Store {
    RoomStore.Store(s.rooms, {})
  }

  /** setNameToUser: names.add(name), where name may be null. */
  function SetNameToUser(s: Store, name: Option<string>): (r: (Store, bool))
    ensures r.1 <==> name !in s.names
    ensures r.0.names == s.names + {name} && r.0.rooms == s.rooms
  {
    (s.(names := s.names + {name}), name !in s.names)
  }

  function AddUserToRoom(s: Store, user: string, room: string): (Store, bool) {
    var (st, added) := RoomStore.AddUserToRoom(Rooms(s), user, room);
    (s.(rooms := st.rooms), added)
  }

  function RemoveUserFromRoom(s: Store, user: string, room: string): (Store, bool) {
    var (st, removed) := RoomStore.RemoveUserFromRoom(Rooms(s), user, room);
    (s.(rooms := st.rooms), removed)
  }

  /** getUsersInRoom: rooms.getOrDefault(room, Set.of()). */
  function GetUsersInRoom(s: Store, room: string): (users: set<string>)
    ensures room in s.rooms ==> users == s.rooms[room]
    ensures room !in s.rooms ==> users == {}
  {
    if room in s.rooms then s.rooms[room] else {}
  }

  function CreateRoom(s: Store, room: string): (Store, bool) {
    var (st, created) := RoomStore.CreateRoom(Rooms(s), room);
    (s.(rooms := st.rooms), created)
  }

  /** getAllRooms: List.copyOf(rooms.keySet()), kept as the set of its elements. */
  function GetAllRooms(s: Store): (all: set<string>)
    ensures forall r :: r in all <==> r in s.rooms
  {
    s.rooms.Keys
  }

  /** The room operations do what they do in the later Server: each succeeds
      exactly when the later one does, changes the rooms as it does, and never
      touches the names. */
  lemma RoomOperationsAgree(s: Store, user: string, room: string)
    ensures var (a, added) := AddUserToRoom(s, user, room);
      && (added <==> room in s.rooms && user !in s.rooms[room])
      && a.rooms == (if added then s.rooms[room := s.rooms[room] + {user}] else s.rooms) && a.names == s.names
    ensures var (d, removed) := RemoveUserFromRoom(s, user, room);
      && (removed <==> room in s.rooms && user in s.rooms[room])
      && d.rooms == (if removed then s.rooms[room := s.rooms[room] - {user}] else s.rooms) && d.names == s.names
    ensures var (c, created) := CreateRoom(s, room);
      && (created <==> room !in s.rooms)
      && c.rooms == (if created then s.rooms[room := {}] else s.rooms) && c.names == s.names
  {
    RoomStore.AddUserToRoomMeaning(Rooms(s), user, room);
    RoomStore.RemoveUserFromRoomMeaning(Rooms(s), user, room);
    RoomStore.CreateRoomOnce(Rooms(s), room);
  }

  /** The empty answer of getUsersInRoom does not tell a missing room from an
      empty one. */
  lemma EmptyAnswerAmbiguous(s: Store, room: string)
    ensures GetUsersInRoom(s, room) == {} <==> room !in s.rooms || s.rooms[room] == {}
  {
  }

  /** null can be claimed as a name, once, like any other name. */
  lemma NullClaimedOnce(s: Store)
    ensures var (s1, first) := SetNameToUser(s, None);
      && (first <==> None !in s.names)
      && None in s1.names
      && SetNameToUser(s1, None) == (s1, false)
  {
    var s1 := SetNameToUser(s, None).0;
    assert s1.names + {None} == s1.names;
  }
}
