# chatcli server core, modelled in Dafny

chatcli is a multi-room chat over TCP. The server keeps a store: a map from
room name to the set of its members' names, plus the set of claimed user
names. For each connection it runs one `ClientHandler`, which:

- asks for a username;
- reads lines;
- treats a line that starts with a backslash as a command (`\list`,
  `\create`, `\join`, `\shout`);
- sends any other line to the sessions in the sender's room.

The repository has two versions of this server core:

- the final one, under `server/`;
- an earlier one, in the default package.

This project models both versions.

Modules, one per file:

| file | module | what it holds |
|---|---|---|
| `java_lang.dfy` | `JavaLang` | the Java library behaviour the handlers depend on: `String.split(" ")` (including how it drops trailing empty strings), 32-bit `int` increment with wrap-around, `Integer.toString`, `equalsIgnoreCase`, and the input and output of a session |
| `room_store.dfy` | `RoomStore` | the store of `server/Server.java` as a value: one function per operation, with lemmas on each operation and on whole sequences of operations |
| `server.dfy` | `ServerObject` | class `Server` with the `rooms` and `names` fields; each method updates them in place and is proved equal to the `RoomStore` function |
| `handler.dfy` | `Handler` | the session protocol of `server/ClientHandler.java` as a state machine; the invariant it keeps is proved preserved by every step |
| `handlers.dfy` | `HandlerObject` | class `Handlers` holding the static registry, the static counter and each handler's fields; the broadcast loops are `while` loops, and every method is proved to end in the state the `Handler` function computes |
| `protocol.dfy` | `Protocol` | what the final handler promises, stated over `Handler.Step` |
| `legacy_store.dfy`, `legacy_server.dfy` | `LegacyStore`, `LegacyServerObject` | the same two layers for the earlier `Server.java` |
| `legacy_handler.dfy`, `legacy_handlers.dfy`, `legacy_protocol.dfy` | `LegacyHandler`, `LegacyHandlerObject`, `LegacyProtocol` | the same three layers for the earlier `ClientHandler.java` |

A session is one of these:

- choosing its name;
- in the read loop;
- closed;
- (earlier version only) spinning in a naming loop that can never end.

Each step of the model is one `readLine()` result for one session:

- a line;
- the end of the input (`null`);
- an `IOException`.

An exception the handler does not catch ends the session through `run`'s `finally` block. Examples:

- `charAt(0)` on an empty line;
- `substring` past the end of `"\shout"`;
- `broadcastRoom` reaching a handler whose room is still `null`;
- in the earlier version, `command[1]` of a command given without an argument.

The model follows the code where it differs from what its comments and names suggest:

- **Alphanumeric names are never claimed.** The naming loop tests `invalidString(id) && !setNameToUser(id)`, so an alphanumeric name is accepted without consulting the names set. Two sessions can therefore share it.
- **Errors say `[Server.Server]: `.** Error lines carry that prefix, while system lines carry `[Server]: `.
- **`\list r` tests equality with `{"false"}`.** It reports "does not exist" whenever the answer equals that set, which also happens for an existing room whose only member is `false`.
- **A failed removal during `\join` is not undone.** The id has already been added to the new room, and it stays there.
- **Earlier version: `join` ignores its own result.** It sets the session's room whether or not the room exists, and never leaves the previous room.
- **Earlier version: an unknown command goes to the others in the room.** The sender is not told.

## Model

| member | source | states |
|---|---|---|
| JavaLang.Split | src/main/java/server/ClientHandler.java:156 | `split(" ")` yields words that contain no space; a line without spaces is exactly one word, itself; an empty line is one empty word; the words are the leading pieces of the line between single spaces, and only trailing empty pieces are dropped, so the last word of a non-empty line is never empty |
| JavaLang.JoinPieces | src/main/java/server/ClientHandler.java:156 | the pieces of a line between single spaces, joined back with single spaces, give the line back |
| JavaLang.SplitFirstWord | src/main/java/server/ClientHandler.java:156-157 | the action of a command line is its text up to the first space, a non-empty word that starts with the line's first character |
| JavaLang.SplitTwoWords | src/main/java/ClientHandler.java:54-55 | two space-free words joined by one space split into exactly those two words |
| JavaLang.Increment | src/main/java/server/ClientHandler.java:207 | `idCounter++` on a Java `int` stays in the 32-bit range and equals the old value plus one modulo 2^32 |
| JavaLang.IntToStringInjective | src/main/java/server/ClientHandler.java:207 | different integers print as different decimal strings |
| JavaLang.EqualsIgnoreCase | src/main/java/server/ClientHandler.java:136 | two strings are equal ignoring case exactly when they have the same length and agree character by character after lower-casing |
| RoomStore.Started | src/main/java/server/Server.java:31-34 | once the server has started, the only room is an empty "Main" and no name is claimed |
| RoomStore.CreateRoomOnce | src/main/java/server/Server.java:95-97 | createRoom returns true exactly when the room is new, and then adds it with no members; a second createRoom of the same room returns false and changes nothing (ServerTest.testCreateRoom) |
| RoomStore.AddUserToRoomMeaning | src/main/java/server/Server.java:66-68 | addUserToRoom returns true exactly when the room exists and the user is not in it; on true, exactly that user joins exactly that room; on false nothing changes; names are untouched |
| RoomStore.RemoveUserFromRoomMeaning | src/main/java/server/Server.java:76-78 | removeUserFromRoom returns true exactly when the room exists and the user is in it; on true, exactly that user leaves that room and other rooms are untouched; on false nothing changes |
| RoomStore.AddThenRemove | src/main/java/server/Server.java:66-78 | a successful add followed by a remove of the same user and room restores the store, and the remove succeeds |
| RoomStore.RemoveThenAdd | src/main/java/server/Server.java:66-78 | a successful remove followed by an add of the same user and room restores the store |
| RoomStore.MoveUser | src/main/java/server/ClientHandler.java:111-121 | adding a user to one room and then removing them from the room they are in moves them between the two member sets and changes nothing else |
| RoomStore.GetUsersInRoomSentinel | src/main/java/server/Server.java:85-87 | getUsersInRoom returns the member set of an existing room and {"false"} for a missing one; the answer equals {"false"} exactly when the room is missing or its only member is "false" |
| RoomStore.SetNameToUserMeaning | src/main/java/server/Server.java:54-56 | setNameToUser returns true exactly when the name was unclaimed; the name is claimed afterwards in either case, and the rooms are untouched |
| RoomStore.ReplayGrows | src/main/java/server/Server.java:54-105 | along any sequence of store calls, the set of rooms and the set of claimed names only grow |
| RoomStore.MembershipKeepsRooms | src/main/java/server/Server.java:66-78 | any sequence of addUserToRoom and removeUserFromRoom calls leaves the set of room names and the claimed names unchanged |
| RoomStore.MainAlwaysExists | src/main/java/server/Server.java:34 | after startServer's createRoom("Main"), the room "Main" exists after any sequence of store calls |
| RoomStore.ClaimsOfOneName | src/main/java/server/Server.java:54-56 | of any number of claims of one name, exactly one succeeds if the name was free, and none succeeds if it was already claimed |
| RoomStore.ThreeRoomsListed | src/test/java/server/ServerTest.java:48-55 | rooms "1", "2" and "3" created on a new server are exactly the rooms getAllRooms lists |
| RoomStore.MembersListed | src/test/java/server/ServerTest.java:30-46 | after "u1" and "u2" join a new room, getUsersInRoom returns exactly {"u1", "u2"}; after "u1" is removed, "u1" is no longer a member |
| ServerObject.Server.constructor | src/main/java/server/Server.java:21-24 | a new Server has no rooms and no names |
| ServerObject.Server.StartServer | src/main/java/server/Server.java:31-34 | startServer creates the empty room "Main" |
| ServerObject.Server.SetNameToUser | src/main/java/server/Server.java:47-56 | returns true exactly when the name was not yet claimed; adds it to the names in place and leaves the rooms alone |
| ServerObject.Server.AddUserToRoom | src/main/java/server/Server.java:58-68 | returns true exactly when the room exists and the user is not a member; on true, only that room's set gains the user |
| ServerObject.Server.RemoveUserFromRoom | src/main/java/server/Server.java:70-78 | returns true exactly when the room exists and holds the user; on true, only that room's set loses the user |
| ServerObject.Server.GetUsersInRoom | src/main/java/server/Server.java:80-87 | returns the room's members, or {"false"} when there is no such room; changes nothing |
| ServerObject.Server.CreateRoom | src/main/java/server/Server.java:89-97 | returns true exactly when the room did not exist, and then adds it with no members; otherwise changes nothing |
| ServerObject.Server.GetAllRooms | src/main/java/server/Server.java:99-105 | returns exactly the set of room names |
| Handler.ShoutLooksLikeMainChat | src/main/java/server/ClientHandler.java:76-82 | a shout is rendered exactly like a chat line sent in room "Main", so receivers cannot tell the two apart |
| Handler.SystemAndErrorDistinct | src/main/java/server/ClientHandler.java:84-90 | no system line equals an error line, and each formatter keeps its text recoverable, since different texts give different lines |
| Handler.InvalidString | src/main/java/server/ClientHandler.java:92-97 | invalidString is true exactly when some character lies outside [a-zA-Z0-9], so the empty string is valid |
| Handler.ValidArgument | src/main/java/server/ClientHandler.java:150-152 | a command that passes invalidArgs has exactly two words, and its argument is a non-empty alphanumeric word |
| Handler.Broadcast | src/main/java/server/ClientHandler.java:57-65 | broadcast changes only outboxes: no handle, phase, id or room changes |
| Handler.BroadcastRoom | src/main/java/server/ClientHandler.java:66-74 | broadcastRoom changes only outboxes, whether or not it throws |
| Handler.BroadcastDelivers | src/main/java/server/ClientHandler.java:57-65 | broadcast writes the message exactly once to every registered handler except the sender, whatever its room or phase, and to nobody else |
| Handler.BroadcastRoomThrows | src/main/java/server/ClientHandler.java:66-74 | broadcastRoom throws exactly when some other registered handler still has a null room |
| Handler.BroadcastRoomDelivers | src/main/java/server/ClientHandler.java:66-74 | broadcastRoom writes the message at most once per handler, and only to other handlers in the room; when it does not throw, every one of them has received it |
| Handler.BroadcastRoomReachesAll | src/main/java/server/ClientHandler.java:66-74 | when no other registered handler lacks a room, broadcastRoom does not throw and writes the message exactly to the other handlers in the room |
| Handler.Without | src/main/java/server/ClientHandler.java:229-231 | clients.remove(h) keeps every other registered handler, drops h, and keeps the registry free of duplicates |
| Handler.Initial | src/main/java/server/Server.java:31-34 | the server before its first connection satisfies the invariant: "Main" exists, the counter is a Java int, and nobody is registered |
| Handler.Join | src/main/java/server/ClientHandler.java:109-132 | handleJoin never adds or removes a session |
| Handler.Move | src/main/java/server/ClientHandler.java:114-127 | the broadcasts and the room change of a successful join never add or remove a session |
| Handler.Chat | src/main/java/server/ClientHandler.java:222-224 | a chat line never adds or removes a session |
| Handler.Command | src/main/java/server/ClientHandler.java:154-194 | handleCommand never adds or removes a session |
| Handler.SayKeeps | src/main/java/server/ClientHandler.java:102-142 | a line written to the sender's own output keeps the invariant and the store |
| Handler.FinishKeeps | src/main/java/server/ClientHandler.java:228-237 | the finally block removes the handler from the registry and closes it; the store is untouched, so its id stays in its room and in the names set; the invariant holds |
| Handler.SettleKeeps | src/main/java/server/ClientHandler.java:219-237 | ending a session on an uncaught exception keeps the invariant and the store |
| Handler.AdmitKeeps | src/main/java/server/ClientHandler.java:214-217 | admitting a named session into "Main" keeps the invariant, removes no room and releases no name |
| Handler.TryNameKeeps | src/main/java/server/ClientHandler.java:209-213 | one pass of the naming loop keeps the invariant, removes no room and releases no name |
| Handler.CreateKeeps | src/main/java/server/ClientHandler.java:134-148 | handleCreate keeps the invariant and only adds rooms |
| Handler.MoveKeeps | src/main/java/server/ClientHandler.java:114-127 | moving a session to an existing room keeps the invariant |
| Handler.JoinKeeps | src/main/java/server/ClientHandler.java:109-132 | handleJoin keeps the invariant and the set of rooms and names only grows |
| Handler.CommandKeeps | src/main/java/server/ClientHandler.java:154-194 | every command keeps the invariant and only adds rooms and names |
| Handler.StepKeepsWellFormed | src/main/java/server/ClientHandler.java:201-238 | every readLine result, in every phase, keeps the invariant ("Main" exists, the counter is a Java int, each open session is registered once, each named session is in an existing room, no session choosing its name has a room) and removes no room or name |
| Handler.OpenKeeps | src/main/java/server/ClientHandler.java:43-55 | registering a new handler keeps the invariant and puts it in the registry |
| Handler.Run | src/main/java/server/Server.java:35-41 | after any schedule of connections and lines, the invariant still holds and no room or name has been lost |
| HandlerObject.Handlers.constructor | src/main/java/server/Server.java:31-34 | the handlers start from a started server: "Main" exists and nobody is connected |
| HandlerObject.Handlers.Say | src/main/java/server/ClientHandler.java:102 | out.println appends exactly one line to the handler's own output |
| HandlerObject.Handlers.Broadcast | src/main/java/server/ClientHandler.java:57-65 | the loop over clients leaves the outputs exactly as Handler.Broadcast computes them, and leaves the registry and counter unchanged |
| HandlerObject.Handlers.BroadcastRoom | src/main/java/server/ClientHandler.java:66-74 | the loop leaves the outputs, and the exception flag, exactly as Handler.BroadcastRoom computes them |
| HandlerObject.Handlers.Finish | src/main/java/server/ClientHandler.java:228-237 | the finally block updates the registry and the session in place, exactly as Handler.Finish computes |
| HandlerObject.Handlers.Admit | src/main/java/server/ClientHandler.java:214-217 | welcome, addUserToRoom("Main"), room := "Main" and the joined notice, exactly as Handler.Admit computes |
| HandlerObject.Handlers.TryName | src/main/java/server/ClientHandler.java:209-213 | one pass of the naming loop, exactly as Handler.TryName computes |
| HandlerObject.Handlers.People | src/main/java/server/ClientHandler.java:99-107 | handlePeople, exactly as Handler.People computes |
| HandlerObject.Handlers.Create | src/main/java/server/ClientHandler.java:134-148 | handleCreate, exactly as Handler.Create computes |
| HandlerObject.Handlers.Join | src/main/java/server/ClientHandler.java:109-132 | handleJoin, state and exception flag exactly as Handler.Join computes |
| HandlerObject.Handlers.Move | src/main/java/server/ClientHandler.java:114-127 | the notices and the room change of a successful join, exactly as Handler.Move computes |
| HandlerObject.Handlers.Command | src/main/java/server/ClientHandler.java:154-194 | handleCommand, state and exception flag exactly as Handler.Command computes |
| HandlerObject.Handlers.Connect | src/main/java/server/ClientHandler.java:43-55 | the constructor registers the handler and the prompt is printed; the invariant is kept |
| HandlerObject.Handlers.Step | src/main/java/server/ClientHandler.java:201-238 | one readLine of run, exactly as Handler.Step computes, keeping the invariant |
| HandlerObject.Handlers.Run | src/main/java/server/Server.java:35-41 | any schedule of connections and lines ends in the state Handler.Run computes, with the invariant kept |
| Protocol.NamingIsRoomless | src/main/java/server/ClientHandler.java:205-216 | under the invariant, a registered handler has no room exactly when it is still choosing its name |
| Protocol.EndOfInputEndsSession | src/main/java/server/ClientHandler.java:205-237 | the end of the input or an IOException ends an open session at any phase: it leaves the registry and the store is untouched |
| Protocol.EmptyLineEndsSession | src/main/java/server/ClientHandler.java:220 | an empty line in the read loop ends the session (charAt(0) throws) |
| Protocol.ClosedIsFinal | src/main/java/server/ClientHandler.java:228-237 | a session that has ended ignores everything |
| Protocol.ChatReachesRoom | src/main/java/server/ClientHandler.java:222-224 | a chat line reaches each other registered handler in the sender's room at most once, and no one else; it throws, ending the sender, exactly when another handler is still naming; otherwise the whole room has it |
| Protocol.ShoutReachesEveryone | src/main/java/server/ClientHandler.java:184-187 | "\shout text" sends text, formatted as a Main chat line, to every other registered handler whatever its room, and changes nothing else |
| Protocol.BareShoutEndsSession | src/main/java/server/ClientHandler.java:185 | "\shout" with nothing after it ends the session, because substring throws and the catch is for IllegalArgumentException only |
| Protocol.UnknownCommand | src/main/java/server/ClientHandler.java:188-193 | an unknown action gives one "Unknown command: <action>" error line to the sender only |
| Protocol.ListRooms | src/main/java/server/ClientHandler.java:159-162 | "\list" lists all rooms to the sender only |
| Protocol.ListPeople | src/main/java/server/ClientHandler.java:163-165 | "\list r" lists r's members, or says r does not exist exactly when the store answers with a set equal to {"false"}, to the sender only |
| Protocol.InvalidArgument | src/main/java/server/ClientHandler.java:166-180 | "\list" with more than two words, or "\create" / "\join" failing invalidArgs, gives "Invalid argument" and changes nothing else |
| Protocol.CreateCommand | src/main/java/server/ClientHandler.java:134-148 | "\create r": any spelling of "main" is refused; otherwise the room is created exactly when it is new, and the sender alone hears "Created r" or "Error creating r" |
| Protocol.CreateStep | src/main/java/server/ClientHandler.java:170-176 | a "\create r" line with an alphanumeric r runs handleCreate(r) |
| Protocol.MainIsReserved | src/main/java/server/ClientHandler.java:136 | "\create" of any case variant of "main" leaves the store unchanged |
| Protocol.JoinRefused | src/main/java/server/ClientHandler.java:111-112 | "\join r" for a missing room, or one already holding the id, gives one error line and changes nothing else |
| Protocol.JoinWithoutLeaving | src/main/java/server/ClientHandler.java:114-118 | when leaving the current room fails, the id stays added to the new room, the session stays where it was, and the sender hears "Could not leave the room" |
| Protocol.JoinMoves | src/main/java/server/ClientHandler.java:109-132 | a successful "\join r" of another room, when no other registered session is still naming, moves the id between the two member sets and the session to r |
| Protocol.JoinCrashes | src/main/java/server/ClientHandler.java:109-121 | the same "\join r" while another registered session is still naming: the store has already moved the id, then the "left" broadcast throws on that session's null room, so the session ends through the finally block, unregistered, with its room unchanged, and the move in the store is kept |
| Protocol.MoveThrows | src/main/java/server/ClientHandler.java:66-72 | while another registered session has no room, the first broadcast of Move throws before the sender's room changes, leaving store and registry as they were |
| Protocol.JoinCurrentRoom | src/main/java/server/ClientHandler.java:109-127 | "\join" of the session's own room when its id is missing from that room's set: the id is added and removed again, so the store ends as it was; the room hears both "left" and "joined" and the sender "Joined", or the session ends as in JoinCrashes when another session is naming |
| Protocol.MoveMeaning | src/main/java/server/ClientHandler.java:119-127 | in order: the old room hears "left" (the new room itself when the two are the same), the session's room becomes r, the sender hears "Joined r", and the new room hears "joined"; nothing throws when nobody else is naming |
| Protocol.JoinStep | src/main/java/server/ClientHandler.java:177-183 | a "\join r" line with an alphanumeric r runs handleJoin(r) |
| Protocol.JoinLine | src/main/java/server/ClientHandler.java:156-157 | "\join r" with an alphanumeric r splits into exactly the action and r |
| Protocol.AdmitMeaning | src/main/java/server/ClientHandler.java:214-217 | a welcome line to the session, the id added to "Main" when it was not already there, and the session in "Main"; the joined notice throws exactly when another handler is still naming |
| Protocol.AnonymousName | src/main/java/server/ClientHandler.java:206-207 | an empty first name gives "user_" + idCounter, increments the counter with wrap-around, and does not claim the name |
| Protocol.AnonymousIdInjective | src/main/java/server/ClientHandler.java:207 | different counter values give different anonymous names |
| Protocol.ConsecutiveAnonymousIds | src/main/java/server/ClientHandler.java:207 | consecutive anonymous sessions get different names, wrap-around included |
| Protocol.AlphanumericNameTaken | src/main/java/server/ClientHandler.java:209 | an alphanumeric name is accepted at once without touching the names set, so it may equal a name already in use |
| Protocol.FreeNameClaimed | src/main/java/server/ClientHandler.java:209-214 | a non-alphanumeric name nobody has claimed is claimed and accepted |
| Protocol.ClaimedNameRefused | src/main/java/server/ClientHandler.java:209-211 | a non-alphanumeric name already claimed is refused with the retry prompt, and nothing else changes |
| LegacyStore.SetNameToUser | src/main/java/Server.java:35-37 | returns true exactly when the name, possibly null, was unclaimed; claims it and leaves the rooms alone |
| LegacyStore.GetUsersInRoom | src/main/java/Server.java:47-49 | returns the room's members, or the empty set for a missing room |
| LegacyStore.GetAllRooms | src/main/java/Server.java:55-57 | returns exactly the room names |
| LegacyStore.RoomOperationsAgree | src/main/java/Server.java:39-53 | addUserToRoom, removeUserFromRoom and createRoom return true exactly when the later version's would, change the rooms the same way, and leave the names alone |
| LegacyStore.EmptyAnswerAmbiguous | src/main/java/Server.java:47-49 | an empty answer from getUsersInRoom means either a missing room or an empty one |
| LegacyStore.NullClaimedOnce | src/main/java/Server.java:35-37 | null can be claimed as a name, once |
| LegacyServerObject.Server.constructor | src/main/java/Server.java:14-17 | a new Server has no rooms, not even "Main", and no names |
| LegacyServerObject.Server.SetNameToUser | src/main/java/Server.java:35-37 | returns true exactly when the name, possibly null, was unclaimed; adds it to the names in place |
| LegacyServerObject.Server.AddUserToRoom | src/main/java/Server.java:39-41 | returns true exactly when the room exists and lacks the user; on true, only that room gains the user |
| LegacyServerObject.Server.RemoveUserFromRoom | src/main/java/Server.java:43-45 | returns true exactly when the room exists and holds the user; on true, only that room loses the user |
| LegacyServerObject.Server.GetUsersInRoom | src/main/java/Server.java:47-49 | returns the room's members, or the empty set for a missing room; changes nothing |
| LegacyServerObject.Server.CreateRoom | src/main/java/Server.java:51-53 | returns true exactly when the room did not exist, and then adds it with no members |
| LegacyServerObject.Server.GetAllRooms | src/main/java/Server.java:55-57 | returns exactly the room names |
| LegacyHandler.Broadcast | src/main/java/ClientHandler.java:31-39 | broadcast changes only outboxes: no handle, phase, id or room changes |
| LegacyHandler.BroadcastDelivers | src/main/java/ClientHandler.java:31-39 | broadcast writes the message once to every other registered handler whose room equals the sender's (two null rooms are equal), closed handlers included, and to nobody else |
| LegacyHandler.Initial | src/main/java/Server.java:14-17 | the server before its first connection satisfies the invariant |
| LegacyHandler.NameKeeps | src/main/java/ClientHandler.java:44-50 | a pass of the naming loop keeps the invariant: a name is accepted only when newly claimed, so no two sessions in the read loop share a name |
| LegacyHandler.CommandKeeps | src/main/java/ClientHandler.java:53-80 | every command keeps the invariant and releases no name |
| LegacyHandler.ArguedKeeps | src/main/java/ClientHandler.java:62-78 | create, join and people keep the invariant and release no name |
| LegacyHandler.StepKeepsWellFormed | src/main/java/ClientHandler.java:41-96 | every readLine result keeps the invariant (each handler registered once, each session in the read loop holding a claimed name no other one holds, no naming session with a room); the registry never changes and no name is released |
| LegacyHandler.OpenKeeps | src/main/java/ClientHandler.java:17-29 | registering a new handler keeps the invariant and puts it in the registry |
| LegacyHandler.Run | src/main/java/Server.java:23-29 | after any schedule of connections and lines, the invariant holds, no name is released and no handler has left the registry |
| LegacyHandlerObject.Handlers.constructor | src/main/java/Server.java:14-17 | the handlers start from an empty server with nobody connected |
| LegacyHandlerObject.Handlers.Say | src/main/java/ClientHandler.java:50 | out.println appends exactly one line to the handler's own output |
| LegacyHandlerObject.Handlers.Broadcast | src/main/java/ClientHandler.java:31-39 | the loop over clients leaves the outputs exactly as LegacyHandler.Broadcast computes them, and leaves the registry unchanged |
| LegacyHandlerObject.Handlers.Close | src/main/java/ClientHandler.java:88-94 | the finally block closes the session and leaves it registered |
| LegacyHandlerObject.Handlers.Name | src/main/java/ClientHandler.java:44-50 | one pass of the naming loop, exactly as LegacyHandler.Name computes |
| LegacyHandlerObject.Handlers.Argued | src/main/java/ClientHandler.java:62-78 | the create, join and people cases, exactly as LegacyHandler.Argued computes |
| LegacyHandlerObject.Handlers.Command | src/main/java/ClientHandler.java:53-80 | the command switch, exactly as LegacyHandler.Command computes |
| LegacyHandlerObject.Handlers.Connect | src/main/java/ClientHandler.java:17-29 | the constructor registers the handler and the prompt is printed; the invariant is kept |
| LegacyHandlerObject.Handlers.Step | src/main/java/ClientHandler.java:41-96 | one readLine of run, exactly as LegacyHandler.Step computes, keeping the invariant |
| LegacyHandlerObject.Handlers.Run | src/main/java/Server.java:23-29 | any schedule of connections and lines ends in the state LegacyHandler.Run computes, with the invariant kept |
| LegacyProtocol.ChatReachesRoom | src/main/java/ClientHandler.java:83 | a chat line goes, as id + ": " + line, to every other registered handler whose room equals the sender's, and to nobody else; nothing else changes |
| LegacyProtocol.ClosedStillReceives | src/main/java/ClientHandler.java:88-94 | a handler whose session has ended stays registered and still receives the chat of its room |
| LegacyProtocol.UnknownCommandGoesToOthers | src/main/java/ClientHandler.java:79-80 | an unknown action sends "unknown command" to the others in the sender's room, and the sender gets nothing |
| LegacyProtocol.BareBackslashIsUnknown | src/main/java/ClientHandler.java:54-55 | a lone backslash is the unknown command "": the sender is unchanged and the others in the room are told |
| LegacyProtocol.BlankCommandEndsSession | src/main/java/ClientHandler.java:54-55 | "\ " splits into no word, command[0] throws, and the session ends without output |
| LegacyProtocol.MissingArgumentEndsSession | src/main/java/ClientHandler.java:62-78 | "\create", "\join" or "\people" without an argument ends the session, because command[1] throws; nothing is printed or changed |
| LegacyProtocol.ListRooms | src/main/java/ClientHandler.java:57-61 | "\list" prints "Listing rooms: " followed by the room names, to the sender only |
| LegacyProtocol.CreateIgnoresResult | src/main/java/ClientHandler.java:62-66 | "\create r" prints "Creating room: r" whether or not r exists; afterwards r exists, and an existing r keeps its members |
| LegacyProtocol.JoinAnyRoom | src/main/java/ClientHandler.java:67-72 | "\join r" sets the session's room to r even when r does not exist; the id is added to r only when r exists, and it stays in the member set of the old room |
| LegacyProtocol.PeopleListed | src/main/java/ClientHandler.java:73-78 | "\people r" prints the header and r's members, or an empty list when r is missing |
| LegacyProtocol.FreeNameClaimed | src/main/java/ClientHandler.java:45-50 | an unclaimed name is claimed and welcomed, and the session enters the read loop with no room |
| LegacyProtocol.ClaimedNameRefused | src/main/java/ClientHandler.java:46-48 | a claimed name is refused with "Username not available, ..." and the session keeps naming |
| LegacyProtocol.NullName | src/main/java/ClientHandler.java:45-52 | at the end of the input, null is claimed: the first such session is welcomed as "null" and ends; every later one is refused and spins in the naming loop |
| LegacyProtocol.StoppedIsFinal | src/main/java/ClientHandler.java:88-94 | a session that has ended or spins ignores every further input |

## Left out

- Threads, `synchronized (clients)` and the concurrent collections. Each handler call is modelled as one atomic step of a single sequential state machine. A schedule of such steps (`Run`) stands for any interleaving that respects those atomic units. Races, such as the unsynchronized static `idCounter++`, are not modelled.
- The accept loop and `main`, including port parsing and console prints. A connection is modelled as the `Connect` event, which covers the handler's constructor and its first prompt.
- A `Connect` of a handle already in use, and a `Read` by an unknown handle: both are skipped, because every Java handler is a fresh object.
- `client/Client.java` and `Client.java` are not part of this model. They are console and socket forwarding loops.
- The socket streams. Input is a `readLine()` result (line, end of input, `IOException`), and output is a per-session list of lines. A line written to a handler whose socket is closed is still recorded in its outbox.
- ANSI colour escapes: kept as plain string constants.
- The regular expression in `invalidString`: replaced by a per-character test for `[a-zA-Z0-9]`.
- The text `Arrays.toString` renders from a hash set: a listing is recorded as the set it lists, because the element order is unspecified. `List.copyOf` in the earlier `getAllRooms` is likewise kept as a set.
- The iteration order of the `HashSet` registry: modelled as registration order. The delivery lemmas hold for any duplicate-free order.
- `equalsIgnoreCase`: modelled as ASCII case folding only.
- LegacyHandler.Step: in the earlier version, claiming `null` when `null` is already claimed loops for ever, printing a prompt on each pass. The model records one prompt and then the terminal `Spinning` phase.
- The `IOException` that `startServer` and the constructors wrap in `RuntimeException`: socket setup is not modelled.
- The outcomes of `handleCreate`'s and `handleJoin`'s catch clauses: with alphanumeric names they are unreachable, and the model omits them.
