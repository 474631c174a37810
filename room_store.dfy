/** The room and name store of server/Server.java, as values: a map from room
    name to the set of its members, and the set of claimed user names. Each
    operation returns the new store and the boolean the Java method returns. */
module RoomStore {

  datatype Store = Store(rooms: map<string, set<string>>, names: set<string>)

  /** new Server(): no rooms, no claimed names. */
  function Empty(): Store {
    Store(map[], {})
  }

  /** The store after startServer has created the room "Main", before the first
      connection is accepted. */
  function Started(): (s: Store)
    ensures s.rooms == map["Main" := {}] && s.names == {}
  {
    CreateRoom(Empty(), "Main").0
  }

  /** setNameToUser: names.add(name). */
  function SetNameToUser(s: Store, name: string): (Store, bool) {
    (s.(names := s.names + {name}), name !in s.names)
  }

  /** addUserToRoom: rooms.containsKey(room) && rooms.get(room).add(user). */
  function AddUserToRoom(s: Store, user: string, room: string): (Store, bool) {
    if room in s.rooms && user !in s.rooms[room] then
      (s.(rooms := s.rooms[room := s.rooms[room] + {user}]), true)
    else
      (s, false)
  }

  /** removeUserFromRoom: rooms.containsKey(room) && rooms.get(room).remove(user). */
  function RemoveUserFromRoom(s: Store, user: string, room: string): (Store, bool) {
    if room in s.rooms && user in s.rooms[room] then
      (s.(rooms := s.rooms[room := s.rooms[room] - {user}]), true)
    else
      (s, false)
  }

  /** getUsersInRoom: rooms.getOrDefault(room, Set.of("false")). */
  function GetUsersInRoom(s: Store, room: string): set<string> {
    if room in s.rooms then s.rooms[room] else {"false"}
  }

  /** createRoom: rooms.putIfAbsent(room, new set) == null. */
  function CreateRoom(s: Store, room: string): (Store, bool) {
    if room in s.rooms then (s, false) else (s.(rooms := s.rooms[room := {}]), true)
  }

  /** getAllRooms: Set.copyOf(rooms.keySet()). */
  function GetAllRooms(s: Store): set<string> {
    s.rooms.Keys
  }

  // ---------------------------------------------------------------------------
  // What each operation promises
  // ---------------------------------------------------------------------------

  /** createRoom succeeds exactly when the room is new, and then the room is
      empty; a second createRoom of the same room fails and changes nothing. */
  lemma CreateRoomOnce(s: Store, room: string)
    ensures var (s1, ok1) := CreateRoom(s, room);
      && (ok1 <==> room !in s.rooms)
      && room in s1.rooms && s1.names == s.names
      && (ok1 ==> s1.rooms == s.rooms[room := {}] && GetUsersInRoom(s1, room) == {})
      && (!ok1 ==> s1 == s)
      && CreateRoom(s1, room) == (s1, false)
  {
  }

  /** addUserToRoom succeeds exactly when the room exists and the user is not
      in it; then exactly that user is added to exactly that room. */
  lemma AddUserToRoomMeaning(s: Store, user: string, room: string)
    ensures var (s1, ok) := AddUserToRoom(s, user, room);
      && (ok <==> room in s.rooms && user !in s.rooms[room])
      && s1.rooms.Keys == s.rooms.Keys && s1.names == s.names
      && (forall r :: r in s.rooms && r != room ==> s1.rooms[r] == s.rooms[r])
      && (room in s.rooms ==> s1.rooms[room] == s.rooms[room] + {user})
      && (!ok ==> s1 == s)
  {
  }

  /** removeUserFromRoom succeeds exactly when the room exists and the user is
      in it; then exactly that user leaves exactly that room. */
  lemma RemoveUserFromRoomMeaning(s: Store, user: string, room: string)
    ensures var (s1, ok) := RemoveUserFromRoom(s, user, room);
      && (ok <==> room in s.rooms && user in s.rooms[room])
      && s1.rooms.Keys == s.rooms.Keys && s1.names == s.names
      && (forall r :: r in s.rooms && r != room ==> s1.rooms[r] == s.rooms[r])
      && (room in s.rooms ==> s1.rooms[room] == s.rooms[room] - {user})
      && (!ok ==> s1 == s)
  {
  }

  /** Adding a user and removing them again restores the store, and the
      removal is the one that succeeds. */
  lemma AddThenRemove(s: Store, user: string, room: string)
    requires AddUserToRoom(s, user, room).1
    ensures RemoveUserFromRoom(AddUserToRoom(s, user, room).0, user, room) == (s, true)
  {
    var s1 := AddUserToRoom(s, user, room).0;
    assert s1.rooms[room] - {user} == s.rooms[room];
    assert s1.rooms[room := s.rooms[room]] == s.rooms;
  }

  /** Removing a member and adding them back restores the store. */
  lemma RemoveThenAdd(s: Store, user: string, room: string)
    requires RemoveUserFromRoom(s, user, room).1
    ensures AddUserToRoom(RemoveUserFromRoom(s, user, room).0, user, room) == (s, true)
  {
    var s1 := RemoveUserFromRoom(s, user, room).0;
    assert s1.rooms[room] + {user} == s.rooms[room];
    assert s1.rooms[room := s.rooms[room]] == s.rooms;
  }

  /** Adding a user to one room and then removing them from another moves the
      user between the two rooms, when they were in the one and not the other. */
  lemma MoveUser(s: Store, user: string, from: string, to: string)
    requires from in s.rooms && to in s.rooms
    requires user in s.rooms[from] && user !in s.rooms[to]
    ensures var (s1, added) := AddUserToRoom(s, user, to);
      var (s2, removed) := RemoveUserFromRoom(s1, user, from);
      && from != to && added && removed && s2.names == s.names
      && s2.rooms == s.rooms[from := s.rooms[from] - {user}][to := s.rooms[to] + {user}]
  {
    var s1 := AddUserToRoom(s, user, to).0;
    assert s1.rooms[from] == s.rooms[from];
  }

  /** getUsersInRoom answers with the member set of an existing room and with
      the sentinel {"false"} for a missing one; the sentinel is also the answer
      for an existing room whose only member is named "false". */
  lemma GetUsersInRoomSentinel(s: Store, room: string)
    ensures room in s.rooms ==> GetUsersInRoom(s, room) == s.rooms[room]
    ensures room !in s.rooms ==> GetUsersInRoom(s, room) == {"false"}
    ensures GetUsersInRoom(s, room) == {"false"} <==> room !in s.rooms || s.rooms[room] == {"false"}
  {
  }

  /** setNameToUser succeeds exactly when the name was unclaimed; the name is
      claimed afterwards either way and the rooms are untouched. */
  lemma SetNameToUserMeaning(s: Store, name: string)
    ensures var (s1, ok) := SetNameToUser(s, name);
      && (ok <==> name !in s.names)
      && s1.names == s.names + {name} && s1.rooms == s.rooms
      && (!ok ==> s1 == s)
  {
  }

  // ---------------------------------------------------------------------------
  // Sequences of operations
  // ---------------------------------------------------------------------------

  /** One call on the store. */
  datatype Op =
    | SetName(name: string)
    | AddUser(user: string, room: string)
    | RemoveUser(user: string, room: string)
    | AddRoom(room: string)

  function Apply(s: Store, op: Op): (Store, bool) {
    match op
    case SetName(n) => SetNameToUser(s, n)
    case AddUser(u, r) => AddUserToRoom(s, u, r)
    case RemoveUser(u, r) => RemoveUserFromRoom(s, u, r)
    case AddRoom(r) => CreateRoom(s, r)
  }

  /** The store after the calls of ops, one after the other. */
  function Replay(s: Store, ops: seq<Op>): Store
    decreases |ops|
  {
    if ops == [] then s else Replay(Apply(s, ops[0]).0, ops[1..])
  }

  /** The results of the calls of ops, in order. */
  function Results(s: Store, ops: seq<Op>): (r: seq<bool>)
    ensures |r| == |ops|
    decreases |ops|
  {
    if ops == [] then [] else [Apply(s, ops[0]).1] + Results(Apply(s, ops[0]).0, ops[1..])
  }

  /** No operation removes a room or releases a name: along any sequence of
      calls, the rooms and the claimed names only grow. */
  lemma {:induction false} ReplayGrows(s: Store, ops: seq<Op>)
    ensures s.rooms.Keys <= Replay(s, ops).rooms.Keys
    ensures s.names <= Replay(s, ops).names
    decreases |ops|
  {
    if ops != [] {
      ReplayGrows(Apply(s, ops[0]).0, ops[1..]);
    }
  }

  /** Membership calls never change the set of rooms or the claimed names. */
  lemma {:induction false} MembershipKeepsRooms(s: Store, ops: seq<Op>)
    requires forall i :: 0 <= i < |ops| ==> ops[i].AddUser? || ops[i].RemoveUser?
    ensures Replay(s, ops).rooms.Keys == s.rooms.Keys
    ensures Replay(s, ops).names == s.names
    decreases |ops|
  {
    if ops != [] {
      MembershipKeepsRooms(Apply(s, ops[0]).0, ops[1..]);
    }
  }

  /** Room "Main" exists from the start of the server on, whatever is called. */
  lemma MainAlwaysExists(ops: seq<Op>)
    ensures "Main" in Replay(Started(), ops).rooms
  {
    ReplayGrows(Started(), ops);
  }

  /** The number of calls in a sequence that returned true. */
  function CountTrue(bs: seq<bool>): nat {
    if bs == [] then 0 else (if bs[0] then 1 else 0) + CountTrue(bs[1..])
  }

  /** Of any number of claims of one name, exactly one succeeds when the name
      was free, and none when it was already claimed. */
  lemma {:induction false} ClaimsOfOneName(s: Store, ops: seq<Op>, name: string)
    requires forall i :: 0 <= i < |ops| ==> ops[i] == SetName(name)
    ensures CountTrue(Results(s, ops)) == if name !in s.names && ops != [] then 1 else 0
    decreases |ops|
  {
    if ops != [] {
      var s1 := Apply(s, ops[0]).0;
      assert name in s1.names;
      ClaimsOfOneName(s1, ops[1..], name);
      assert Results(s, ops)[1..] == Results(s1, ops[1..]);
    }
  }

  /** The scenario of ServerTest.testGetRooms: rooms "1", "2", "3" created on a
      new server are exactly the rooms listed. */
  lemma ThreeRoomsListed()
    ensures var s1 := CreateRoom(Empty(), "1").0;
      var s2 := CreateRoom(s1, "2").0;
      GetAllRooms(CreateRoom(s2, "3").0) == {"1", "2", "3"}
  {
  }

  /** The scenario of ServerTest.testGetUsers and testRemoveUser: "u1" and "u2"
      join a new room and are then its members; after "u1" leaves, it is not. */
  lemma MembersListed()
    ensures var (s1, created) := CreateRoom(Empty(), "room");
      var (s2, added1) := AddUserToRoom(s1, "u1", "room");
      var (s3, added2) := AddUserToRoom(s2, "u2", "room");
      && created && added1 && added2
      && GetUsersInRoom(s3, "room") == {"u1", "u2"}
      && "u1" !in GetUsersInRoom(RemoveUserFromRoom(s3, "u1", "room").0, "room")
  {
  }
}
