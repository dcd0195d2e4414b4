# ChatApp core in Dafny

This project models the core of a real-time chat application: a Node.js server on
socket.io plus a React client. It covers three servers and the client state built
from their events.

- **In-memory server** (`server/index-simple.js`). A `users` map from socket id to
  the announced user, and a `rooms` map from room id to the room's name and member
  set. The handlers for joining, private messages, rooms, typing signals and
  disconnects update both maps.
- **Account server** (`server/index-auth-simple.js`). It adds four things:
  - an account store with registration and login;
  - a user search and an online list;
  - a presence map keyed by socket id;
  - private-message routing that always acknowledges the sender.
- **Database-backed server** (`server/index.js`). It works on User, Room and Message
  collections, plus two in-memory maps that a periodic sweep prunes. Records are
  checked by the two Mongoose schemas `server/models/Message.js` and
  `server/models/Room.js`.
- **Client** (`src/`):
  - the socket context's reducer over incoming events, and its actions that send
    requests;
  - the message box's typing-signal state machine;
  - the typing indicator's sentence;
  - the room panel's slug and current-room marker;
  - the chat screen's routing, title and conversation map.

## How the model is built

- **socket.io** is explicit (`Transport`):
  - a set of (socket, room) pairs;
  - every socket starts in the room named by its own id.
- **Emits.** A handler returns its emits as a list of (recipient set, event):
  - `socket.to(r)` is the room's sockets except the sender;
  - `io.to(r)` is the room's sockets including the sender;
  - `socket.broadcast` is every connected socket except the sender;
  - `io.emit` is every connected socket.
- **JavaScript `Map`s and `Set`s** keep insertion order, and the results depend on
  it (`Array.from(map.values())`, first match with `find`). `JsMap.OMap` is a key
  sequence plus a table.
- **String lengths** are JavaScript's `length`: UTF-16 code units
  (`JsString.Utf16Length`), so a character beyond the Basic Multilingual Plane,
  such as an emoji, counts twice. Every length rule (username, password, message,
  room name, history id) uses it.
- **A missing or empty string** is `""` or `None`, recognised by `Truthy`, as
  JavaScript truthiness does.
- **Server state.** Each server is a class whose fields are its maps. Its methods
  state the whole new state and the emits.
- **Database collections** are sequences; a document's position is its ObjectId.
  Its 24-digit hexadecimal form is `Events.ObjectIdString`. An awaited query runs to
  completion before the next one, so a handler is one step.
- **Saving a document** succeeds exactly when the schema predicate holds. A refused
  save takes the handler's `catch` path.
- **Parameters instead of the environment:**
  - clocks (`now`) and generated ids;
  - the bcrypt hash and comparison;
  - the socket's own id on the client;
  - history loaded over HTTP.
- **Timers.** The sweep is one call. A client timeout firing is an explicit call,
  `MessageInput.InputBox.TimeoutFires`.
- **Pure client code** (the socket context, typing indicator and room panel) is
  functions and lemmas. The message box and the chat screen's selection state are
  classes.

### Typing signals in the database-backed server are never relayed

`DbServer.Server.Typing` relays only for a socket in the in-memory `users` map
(`memUsers`). No handler ever sets an entry of that map or of the in-memory `rooms`
map; they are only read and deleted from. So `DbServer.Server.Valid` holds both
maps empty: the constructor starts them empty, every handler except `Sweep` leaves
them unchanged, and `Sweep` only removes entries. With that invariant,
`DbServer.Server.Typing` ensures `out == []`: in this server no typing signal ever
reaches anybody.

## Model

| member | source | states |
|---|---|---|
| SimpleServer.Server.constructor | server/index-simple.js:32-33 | Both maps start empty, with no connected socket and no room membership. |
| SimpleServer.Server.Connect | server/index-simple.js:45-47 | A connected socket is open and in the room named by its own id; the maps are unchanged. |
| SimpleServer.Server.UserJoin | server/index-simple.js:49-89 | The socket's entry is overwritten with no current room and no other entry changes. The room sets and socket.io rooms are untouched, so an earlier membership survives. The joiner gets `user_joined` then the online list; everybody else gets `user_online`. |
| SimpleServer.OthersOf | server/index-simple.js:76-83 | The online list sent to the joiner holds exactly the registered users other than the joiner. |
| SimpleServer.OnlineUsersList | server/index-simple.js:76-83 | The users other than `self`, and no more entries than users. |
| SimpleServer.OnlineUsersListAppend | server/index-simple.js:76-83 | The list is built entry by entry, so it has one record per user in map order. |
| SimpleServer.Server.PrivateMessage | server/index-simple.js:92-119 | It emits exactly when the sender and the target are both registered, and then sends `receive_message` to the target's socket room and `message_sent` to the sender, both carrying the sender's name, the target id, the text and the time, and changes no state. |
| SimpleServer.Server.JoinRoom | server/index-simple.js:122-181 | An unregistered socket changes nothing. Otherwise the socket leaves its previous room (set and socket.io room) and now records `roomId`; the room is created only if absent, named `roomName \|\| roomId`; the socket is added. The emits are `room_joined`, `user_joined_room` to the others and `room_users`. |
| SimpleServer.WithoutMember | server/index-simple.js:129-134 | Only the left room's set changes, it loses the socket, and no room is deleted even when the set becomes empty. |
| SimpleServer.WithMember | server/index-simple.js:140-149 | The room gets the socket added; an existing room keeps its name and members, and a new one is named `roomName \|\| roomId`. Other rooms and set distinctness are kept. |
| SimpleServer.RoomUsersList | server/index-simple.js:167-175 | The room users sent to the joiner are exactly the room's registered members other than the joiner. |
| SimpleServer.RoomUsersListAppend | server/index-simple.js:167-175 | The list is built member by member, so it has one record per set entry in set order. |
| SimpleServer.Server.RoomMessage | server/index-simple.js:184-208 | It emits iff the sender is registered and its current room is `roomId`. The message then goes to every socket in the room, the sender included; otherwise it is silently dropped. |
| SimpleServer.Server.TypistOf | server/index-simple.js:212-213 | The typing handlers see a sender exactly when its socket is registered, with its name and current room. |
| SimpleServer.Server.Typing | server/index-simple.js:211-247 | The relay of the typing guards, which stores nothing. Nothing is relayed from an unregistered socket. |
| SimpleServer.Vacate | server/index-simple.js:258-273 | The current room loses the socket and survives exactly when another member remains; no other room changes, and no room ends up listing a socket twice. |
| SimpleServer.Server.Disconnect | server/index-simple.js:250-287 | An unknown socket changes nothing besides the transport, so a second disconnect is a no-op. Otherwise only its entry goes and its current room loses it, deleted when that empties it. The remaining members hear `user_left_room` and everybody else `user_offline`. |
| TypingRelay.Relay | server/index-simple.js:211-247 | At most one emit, never to the sender. It is sent iff the sender is known and either the private guard (a target id) or the room guard (a room id equal to the sender's current room) holds. Start and stop carry the same addressing. |
| TypingRelay.RoomSignalStaysInRoom | server/index.js:384-389 | A room typing signal reaches only sockets in the sender's current room. |
| AuthServer.Server.constructor | server/index-auth-simple.js:15-18 | The account store, the presence map and the message log start empty. |
| AuthServer.EmojiUsernameLengths | server/index-auth-simple.js:57-62 | A one-emoji username is 2 code units long and passes the length check; eleven emoji are 22 and fail it. |
| AuthServer.CheckRegistration | server/index-auth-simple.js:50-77 | Each refusal holds exactly when the earlier checks pass and its own check fails, in the route's order: missing field, username `length` (UTF-16 code units) outside 2..20, password `length` under 6, existing username. |
| AuthServer.Server.Register | server/index-auth-simple.js:45-123 | A refusal changes nothing. A success adds exactly one account, under the raw username, with the trimmed username and email, offline. It returns the account without its password. |
| AuthServer.Public | server/index-auth-simple.js:105 | The returned account keeps the username and online flag. |
| AuthServer.Server.Login | server/index-auth-simple.js:125-184 | A missing field and an unknown user or wrong password are refused, the latter two with the same error, and change nothing. A success changes only the account's `lastSeen`. |
| AuthServer.VerifiedAccount | server/index-auth-simple.js:210-228 | It succeeds iff the token's username has an account, and returns that account without its password; otherwise "User not found". |
| AuthServer.Search | server/index-auth-simple.js:235-256 | A blank query is refused with the route's error. Otherwise the result is the first `limit` matches (default 10), online ones first and otherwise in store order, as the stable sort leaves them: accounts other than the caller whose lower-cased name contains the trimmed lower-cased query. |
| AuthServer.Matches | server/index-auth-simple.js:246-250 | Exactly the accounts other than the caller whose lower-cased username contains the query. |
| AuthServer.MatchesAppend | server/index-auth-simple.js:246-250 | The search filter works piece by piece, so the matches keep the store's order. |
| AuthServer.SliceTo | server/index-auth-simple.js:251 | `slice(0, end)`, with a negative end counting from the back. |
| AuthServer.Shown | server/index-auth-simple.js:246-255 | The shown list is the matches from the first on, without passwords: `min(limit, matches)` of them for a non-negative `limit`, and for a negative one all but the last `-limit` (as `slice(0, limit)` does). Every shown account matches. |
| AuthServer.WithStatus | server/index-auth-simple.js:256 | Exactly the accounts with the given online flag. |
| AuthServer.StatusSplitIsPermutation | server/index-auth-simple.js:256 | Splitting by online flag loses and invents nothing. |
| AuthServer.OnlineFirstPermutes | server/index-auth-simple.js:256 | The stable online-first sort is a permutation. |
| AuthServer.OnlineFirstOrders | server/index-auth-simple.js:256 | After the sort no offline account precedes an online one. |
| AuthServer.OnlineList | server/index-auth-simple.js:281-287 | A reordering of the filtered list, each account as often as there, sorted by username: exactly the online accounts other than the caller, without passwords. |
| AuthServer.OnlineOthers | server/index-auth-simple.js:281-286 | Exactly the online accounts other than the caller, without passwords. |
| AuthServer.OnlineOthersAppend | server/index-auth-simple.js:281-286 | The online filter works piece by piece, so the list keeps the store's order. |
| AuthServer.OnlineOthersDistinct | server/index-auth-simple.js:281-286 | If the store's usernames happen to be distinct, the online list names no account twice; registration does not guarantee that (`AuthServer.PaddedUsernameRegistersAgain`). |
| AuthServer.PaddedUsernameRegistersAgain | server/index-auth-simple.js:70-87 | With "bob" registered, " bob" passes every check because the existence check uses the raw name, yet both accounts store the username "bob", and once both are online the online list names "bob" twice. |
| AuthServer.SortByName | server/index-auth-simple.js:287 | Sorted by username and a permutation of its input. |
| AuthServer.InsertByName | server/index-auth-simple.js:287 | Insertion keeps the list sorted and adds exactly the one account. |
| AuthServer.NameLeTotal | server/index-auth-simple.js:287 | The name comparison relates any two names. |
| AuthServer.NameLeTransitive | server/index-auth-simple.js:287 | The name comparison is transitive. |
| AuthServer.NameLeReflexive | server/index-auth-simple.js:287 | The name comparison is reflexive. |
| AuthServer.SortedByNameGlobally | server/index-auth-simple.js:287 | A list sorted pairwise is sorted between any two positions. |
| AuthServer.Server.Connect | server/index-auth-simple.js:341-342 | Only the set of connected sockets changes. |
| AuthServer.Server.UserJoin | server/index-auth-simple.js:344-384 | The socket is recorded as online, even for an unregistered name. A registered account is marked online on this socket. The sender gets the welcome, the others `user_online`, and everybody the updated online list. |
| AuthServer.Server.Disconnect | server/index-auth-simple.js:386-409 | An unknown socket changes nothing else. A known one loses only its presence entry, and its account, if any, is marked offline. The others hear `user_offline` and everybody the updated list. |
| AuthServer.FindSocket | server/index-auth-simple.js:432-433 | The first socket in map order whose entry's user id is the target, or none when no entry has it. |
| AuthServer.Server.PrivateMessage | server/index-auth-simple.js:412-444 | A message from an unknown socket is ignored. Otherwise it is appended to the log, delivered to the target's first online socket if any, and always acknowledged to the sender. |
| DbServer.Server.constructor | server/index.js:90-91 | Empty collections, sessions and in-memory maps. |
| DbServer.Server.Connect | server/index.js:112-113 | A connected socket is open and in its own room; nothing else changes. |
| DbServer.SweepEntries | server/index.js:97-101 | The loop deletes exactly the entries `drop` selects, keeps the others with their values, and keeps their order. |
| DbServer.SweepKeepStep | server/index.js:97-101 | An iteration that keeps its key leaves the visited keys filtered and the rest untouched. |
| DbServer.SweepDropStep | server/index.js:97-101 | An iteration that deletes its key, which occurs once, leaves the visited keys filtered and the rest untouched. |
| DbServer.SweepKeep | server/index.js:97-101 | Keeping an entry preserves the loop's invariant: the visited keys filtered, the rest untouched, every value as before. |
| DbServer.SweepDrop | server/index.js:97-101 | Deleting an entry `drop` selects preserves the same invariant. |
| DbServer.SweptAll | server/index.js:97-101 | After the last key the map is the original filtered, in order. |
| JsMap.KeptKeysHas | server/index.js:97-101 | The filtered key order holds exactly the keys whose value `drop` does not select. |
| JsMap.KeptKeysDistinct | server/index.js:97-101 | Filtering never repeats a key. |
| JsMap.KeptTable | server/index.js:97-101 | The filtered table holds exactly the entries `drop` does not select, with their values. |
| DbServer.Server.Sweep | server/index.js:94-109 | Exactly the user entries whose `lastSeen` is set and more than 600000 ms old go. So do exactly the rooms whose `users` set exists and is empty. Everything else is kept, in order. |
| DbServer.Server.UserJoin | server/index.js:116-177 | A new name creates exactly one user, online on this socket; a known name updates the first user with that name. The socket is bound to the user. The emits are the welcome with the user's ObjectId, the other online users, and `user_online` to the rest. |
| DbServer.OnlinePeers | server/index.js:155-164 | Exactly the online users other than the joiner, with their ObjectIds. |
| DbServer.OnlinePeersSnoc | server/index.js:155-164 | One more user document adds at most its own record, after all the others, so the list has one record per user in collection order. |
| DbServer.Server.PrivateMessage | server/index.js:180-227 | An unknown sender or a target socket no user holds gives "User not found" and stores nothing. A record the schema refuses gives the handler's error. Otherwise the record is stored, and the target and the sender get the same message data. |
| DbServer.Server.JoinRoom | server/index.js:230-315 | An unknown socket gets "User not found". Otherwise the socket leaves its current room, and the room is found or created with the joiner as member, touching no other room. The user records the room. The joiner gets `room_joined` and the active members, and the others `user_joined_room`. A new room the schema refuses leaves the error after the socket has left its old room. |
| DbServer.JoinRoomsEffect | server/index.js:243-276 | The Room collection stays well formed: every room valid and member-duplicate-free, with unique room ids. The joiner is a member of the room with the requested id and no other room changes. The join fails only for a new room with an empty id or a name over 50 UTF-16 code units. |
| DbServer.CreatedRoomShape | server/index.js:249-258 | A created room has the requested id, the name `roomName \|\| roomId`, and the joiner as creator and sole `admin` member. It is private false with 100 members at most, and valid iff the id is non-empty and the name fits 50 UTF-16 code units. |
| DbServer.CreatedRoomStored | server/index.js:249-258 | A created room the schema accepts is a well-formed stored room. |
| DbServer.WithMember | server/index.js:262-270 | The joiner ends up a member. It is appended with role `member` only when not already a member, so no member appears twice. |
| DbServer.WithMemberIdempotent | server/index.js:262-270 | Joining twice is joining once. |
| DbServer.JoinedRoomStored | server/index.js:262-272 | A joined room is still a well-formed stored room. |
| DbServer.RoomTableUpdate | server/models/Room.js:4-8 | Replacing a room by a stored room with the same id keeps room ids unique. |
| DbServer.RoomTableAppend | server/models/Room.js:4-8 | Adding a stored room with a new id keeps room ids unique. |
| DbServer.ActiveMembers | server/index.js:301-307 | Exactly the members whose user has a non-empty socket id other than the caller's, with that socket id and their join time. |
| DbServer.ActiveMembersAppend | server/index.js:301-307 | The list is built member by member, so it has one record per member entry in member order. |
| DbServer.Server.RoomMessage | server/index.js:318-372 | A missing room or sender, or a sender who is not a member, gives an error and nothing else. So does a record the schema refuses. Otherwise the record is stored, the room's activity is stamped, and `receive_message` goes to every socket in the room, the sender included. |
| DbServer.Server.Typing | server/index.js:375-411 | The typing relay, applied only to senders in the in-memory `users` map, which the server's invariant keeps empty: nothing is ever relayed. |
| DbServer.Server.Disconnect | server/index.js:414-454 | An unknown socket changes only the transport. A known user goes offline with no socket and no current room. `user_left_room` goes to the old room only if that room exists, then `user_offline` to everybody else. |
| MessageSchema.Saved | server/models/Message.js:61-64 | Saving sets `edited` to false when absent and stamps the creation time; nothing else changes. |
| MessageSchema.SavedKeepsValidity | server/models/Message.js:4-64 | Defaults and timestamps never decide validity. |
| MessageSchema.PrivateMessageValidity | server/index.js:194-201 | The private record always meets the conditional requirements. It saves iff both usernames and the content are non-empty and the content is at most 500 UTF-16 code units. |
| MessageSchema.RoomMessageValidity | server/index.js:338-345 | The room record always meets the conditional requirements. It saves iff the sender's name, the room id and the content are non-empty and the content is at most 500 UTF-16 code units. |
| MessageSchema.ConditionalRequirementsIndependent | server/models/Message.js:24-50 | Each conditional requirement depends only on `type`: a valid message of one kind stays valid without the other kind's fields. |
| RoomSchema.MemberDefaults | server/models/Room.js:30-38 | A member entry defaults to joined now with role `member`, keeping what is set. |
| RoomSchema.RoomDefaults | server/models/Room.js:40-51 | A room defaults to public, 100 members at most and active now, with every member entry defaulted and set fields kept. |
| RoomSchema.DefaultsKeepValidity | server/models/Room.js:4-51 | Filling in defaults never decides validity. |
| SocketContext.Mounted | src/context/SocketContext.jsx:107 | Mounting creates the socket and changes nothing else. |
| SocketContext.DropUser | src/context/SocketContext.jsx:63 | Exactly the entries with another user id. |
| SocketContext.DropUserAppend | src/context/SocketContext.jsx:63 | The filter works piece by piece, so kept entries keep their order. |
| SocketContext.DropUserIdempotent | src/context/SocketContext.jsx:63 | Filtering the same id twice is filtering once. |
| SocketContext.Receive | src/context/SocketContext.jsx:38-105 | The reducer over every incoming event; no event creates or destroys the socket. |
| SocketContext.UserJoinedSetsId | src/context/SocketContext.jsx:50-53 | `user_joined` keeps the current name and sets the user id to the payload's `userId`; the account server's payload has none, so the id becomes unset. |
| SocketContext.FreshListsExcludeSelf | src/context/SocketContext.jsx:54-56 | `online_users` and `room_users` store exactly the received entries whose user id is not this socket's. |
| SocketContext.OfflineUndoesOnline | src/context/SocketContext.jsx:58-64 | `user_offline` removes every entry of that id and keeps the rest in order. It undoes a preceding `user_online` of the same socket. |
| SocketContext.MessagesAppendInOrder | src/context/SocketContext.jsx:67-73 | `receive_message` and `message_sent` both append exactly one message at the end and change nothing else. |
| SocketContext.RoomJoinedClearsMessages | src/context/SocketContext.jsx:76-80 | `room_joined` sets the current room and empties the messages, keeping the user lists and typing set. |
| SocketContext.ReceiveKeepsTypingDistinct | src/context/SocketContext.jsx:95-105 | Every event keeps the typing ids free of repeats. |
| SocketContext.TypingSetSemantics | src/context/SocketContext.jsx:95-105 | `user_typing` adds the id idempotently, and `user_stopped_typing` removes exactly that id. |
| SocketContext.ConnectUser | src/context/SocketContext.jsx:115-121 | It acts iff there is a socket and the name is non-blank. It then remembers and sends the trimmed name, which is non-empty and trimmed. Otherwise nothing changes. |
| SocketContext.DisconnectUser | src/context/SocketContext.jsx:124-134 | With a socket it resets user, room, messages, both user lists and the typing set; without one, nothing changes. |
| SocketContext.SendPrivateMessage | src/context/SocketContext.jsx:137-144 | A request goes out iff there is a socket and the text is non-blank, and it carries the trimmed text. |
| SocketContext.JoinRoomRequest | src/context/SocketContext.jsx:147-151 | The join request goes out iff there is a socket. |
| SocketContext.SendRoomMessage | src/context/SocketContext.jsx:154-161 | A request goes out iff there is a socket, a current room and a non-blank text. It carries the room's id and the trimmed text. |
| SocketContext.TypingPayload | src/context/SocketContext.jsx:164-182 | A payload exists iff there is a socket and the kind is private, or room with a current room. A private payload names the target and a room payload the current room's id. |
| SocketContext.StartTyping | src/context/SocketContext.jsx:164-172 | `typing_start` goes out exactly when a payload exists, carrying it. |
| SocketContext.StopTyping | src/context/SocketContext.jsx:174-182 | `typing_stop` goes out exactly when `typing_start` would, with the same payload. |
| SocketContext.StartPrivateChat | src/context/SocketContext.jsx:185-201 | The first online user with that name, or a stand-in whose id is the name. |
| MessageInput.TypingTarget | src/components/MessageInput.jsx:32-36 | Private to the selected user's id if a user is selected, otherwise the current room's id, otherwise none. |
| MessageInput.Signal | src/components/MessageInput.jsx:55-59 | At most one typing call, made exactly when there is a target, to that target. |
| MessageInput.InputBox.constructor | src/components/MessageInput.jsx:11-14 | An empty box, not typing, with no timeout armed. |
| MessageInput.InputBox.StopTyping | src/components/MessageInput.jsx:50-65 | The stop signal goes out only while typing. Afterwards the box is not typing and the pending timeout is cleared. |
| MessageInput.InputBox.InputChange | src/components/MessageInput.jsx:25-48 | The text is taken. Typing starts, with one start signal, only on the step from idle to a non-blank text. Any pending timeout is cancelled and exactly one new one is armed. |
| MessageInput.InputBox.TimeoutFires | src/components/MessageInput.jsx:45-47 | A cancelled timeout does nothing. The armed one is the only pending one, and firing it stops typing. |
| MessageInput.InputBox.Submit | src/components/MessageInput.jsx:16-23 | A blank text does nothing. Otherwise the untrimmed text is sent, the box emptied and typing stopped. |
| MessageInput.InputBox.KeyPress | src/components/MessageInput.jsx:67-72 | Enter without Shift submits: with text, the text is sent, the box is emptied, the stop signal goes out if typing, and the timeout is cleared; with none, nothing changes. Any other key, Shift+Enter included, does nothing. |
| TypingIndicator.ResolveName | src/components/TypingIndicator.jsx:13-17 | The first user with the id names it, unless that name is empty; an unresolved id has no name. |
| TypingIndicator.TypingNamesShape | src/components/TypingIndicator.jsx:10-18 | Only non-empty names come out, at most one per id. |
| TypingIndicator.TypingNamesEmpty | src/components/TypingIndicator.jsx:10-22 | The name list is empty, so nothing is shown, exactly when no typing id resolves to a name. |
| TypingIndicator.TypingNamesAppend | src/components/TypingIndicator.jsx:12-17 | Ids resolve one by one, so the names keep the order of the typing set. |
| TypingIndicator.Indicator | src/components/TypingIndicator.jsx:7-32 | Nothing for an empty typing set or when no id resolves; otherwise the sentence for the names resolved in the list the chat context selects. |
| TypingIndicator.DisplayTextShape | src/components/TypingIndicator.jsx:24-32 | One name reads "N is typing..."; two or more read as all but the last joined by ", ", then " and " and the last. |
| TypingIndicator.DisplayTextOfThree | src/components/TypingIndicator.jsx:29-30 | Three names read "A, B and C are typing...". |
| RoomPanel.Collapse | src/components/RoomPanel.jsx:19 | Every white-space run becomes one '-'. The result has no white space, is no longer than the input, and is non-empty for a non-empty input. It starts with '-' after a leading space and keeps lower case. |
| RoomPanel.CollapseWithoutSpace | src/components/RoomPanel.jsx:19 | A text without white space is unchanged. |
| RoomPanel.Slug | src/components/RoomPanel.jsx:19 | The room id has no white space and is non-empty for a non-empty name. |
| RoomPanel.SlugIsFixed | src/components/RoomPanel.jsx:19 | A room id has nothing to trim and is its own slug. |
| RoomPanel.SlugKeepsEdgeSpace | src/components/RoomPanel.jsx:19-20 | The id comes from the untrimmed name, so a leading space gives a leading '-'. |
| RoomPanel.CreateRoom | src/components/RoomPanel.jsx:16-24 | A blank name selects nothing and leaves the form as it is. Otherwise the room with the slug id and the trimmed name is selected, both non-empty, and the form is emptied and hidden. |
| RoomPanel.ToggleForm | src/components/RoomPanel.jsx:36 | The form's visibility flips and the text is kept. |
| RoomPanel.CancelForm | src/components/RoomPanel.jsx:78-81 | The form is hidden and its text forgotten. |
| RoomPanel.AtMostOneMarked | src/components/RoomPanel.jsx:9-14 | Predefined room ids differ, so at most one predefined room is marked current. |
| RoomPanel.JoinedPredefinedIsMarked | src/components/RoomPanel.jsx:97 | In a predefined room, exactly that room carries the marker. |
| ChatInterface.ModeOf | src/components/ChatInterface.jsx:139-146 | A selected user wins over the current room; neither means no chat. |
| ChatInterface.SendMessage | src/components/ChatInterface.jsx:123-131 | Private to the selected user, else to the current room, else nowhere. Nothing goes out without a socket and a non-blank text. |
| ChatInterface.SendFollowsTypingTarget | src/components/ChatInterface.jsx:123-131 | A sent message goes where the message box's typing signal goes, and nothing is sent exactly when there is no target. |
| ChatInterface.Titled | src/components/ChatInterface.jsx:141-145 | A title is its icon, a space and its text. |
| ChatInterface.ChatTitle | src/components/ChatInterface.jsx:139-146 | A private chat is titled with the user's name, a room with its name, otherwise the greeting. |
| ChatInterface.Participants | src/components/ChatInterface.jsx:148-155 | The selected user, else the room's users, else nobody. |
| ChatInterface.TitleMatchesParticipants | src/components/ChatInterface.jsx:139-155 | The title and participants follow the same priority. The private title names the only participant, and the greeting comes exactly when there is no chat, with nobody taking part. |
| ChatInterface.HistoryKey | src/components/ChatInterface.jsx:80-82 | History is requested with `dbUserId \|\| userId` exactly when that id's `length` is 24 UTF-16 code units. |
| ChatInterface.ListedUserHasHistoryKey | src/components/ChatInterface.jsx:80-82 | A user listed by the database-backed server always has its history requested by its ObjectId. |
| ChatInterface.ConversationEntry | src/components/ChatInterface.jsx:46-51 | An entry's `userId` and `dbUserId` are both the record's `userId`. |
| ChatInterface.ConversationMap | src/components/ChatInterface.jsx:44-53 | Every conversation's `userId` is a key, once. |
| ChatInterface.ConversationMapKeys | src/components/ChatInterface.jsx:44-53 | No key but the conversations' ids. |
| ChatInterface.ConversationMapEntries | src/components/ChatInterface.jsx:46-51 | Each entry's `userId` and `dbUserId` equal its key. |
| ChatInterface.ConversationMapLastWins | src/components/ChatInterface.jsx:45-52 | The entry for an id comes from the last record with that id. |
| ChatInterface.ChatView.constructor | src/components/ChatInterface.jsx:30-31 | No user selected, no conversation and no messages. |
| ChatInterface.ChatView.LoadConversations | src/components/ChatInterface.jsx:36-61 | With a signed-in user the conversation map replaces the tracked conversations; nothing else changes. |
| ChatInterface.ChatView.SelectUser | src/components/ChatInterface.jsx:63-100 | The user is selected and remembered in the conversations (`Remember`). The history is shown only for an id of length 24; otherwise the messages are cleared. |
| ChatInterface.Remember | src/components/ChatInterface.jsx:69-75 | A new id is added last with the selected record; every existing entry keeps its record and place, and nothing else is added. |
| ChatInterface.SelectTwiceKeepsFirst | src/components/ChatInterface.jsx:69-75 | Selecting the same id twice in a row: the second selection changes nothing, and the entry is the record known before, or else the first selection's. |
| ChatInterface.ChatView.SelectRoom | src/components/ChatInterface.jsx:102-121 | The selected user is cleared and the room is joined. The room's history is shown, or nothing, and the conversations are kept. |
| Transport.AddToRoomEffect | server/index-simple.js:137 | Joining a room adds the socket to that room and to no other. |
| Transport.RemoveFromRoomEffect | server/index-simple.js:130 | Leaving a room takes the socket out of that room only. |
| Transport.LeaveAllEffect | server/index-simple.js:250 | A closed socket is in no room; every other socket keeps its rooms. |
| Transport.ToOthersIn | server/index-simple.js:160 | `socket.to(room)`: the room's sockets except the sender. |
| Transport.BroadcastFrom | server/index-simple.js:70 | `socket.broadcast`: every connected socket except the sender. |
| JsString.Utf16Length | server/index-auth-simple.js:57 | A string's JavaScript `length`, in UTF-16 code units: at least its character count and at most twice it. |
| JsString.Utf16LengthBasic | server/index-auth-simple.js:57 | Text inside the Basic Multilingual Plane has a `length` equal to its character count. |
| JsString.Utf16LengthAstral | server/index-auth-simple.js:57 | Text made only of characters beyond that plane has a `length` of twice its character count. |
| JsString.Utf16LengthOfEmoji | server/index-auth-simple.js:57 | One emoji is one character with a `length` of 2. |

## Left out

- HTTP and server plumbing: Express, CORS, `/health`, `/ping`, static serving and `listen` are I/O. So are the account server's `/api/users/contacts` route, which always answers an empty list, and its unused `rooms` map.
- Token handling: JWT signing and the `authenticateToken` middleware are crypto. The verify route is modelled from an accepted token's username onward.
- Random and time sources: `generateUserId`, bcrypt, `Date`, `Date.now` and `new Date()` are parameters.
- The message and user REST routes (`server/routes/messages.js`, `server/routes/users.js`) are database queries and are not part of this model.
- `server/models/User.js` is not part of this model. Creating or updating a user document always succeeds in the model.
- Awaited database calls are treated as atomic. Their interleaving across concurrent sockets is concurrency and is left out.
- A malformed request payload that makes a handler throw is left out. Payloads are well-formed records.
- Timers: `setInterval` and `setTimeout` are explicit calls (`DbServer.Server.Sweep`, `MessageInput.InputBox.TimeoutFires`).
- Mongoose `trim` setters on `roomId` and `name`: room ids reach the server from the room panel, which never produces edge white space (`RoomPanel.SlugIsFixed`).
- Entries of the in-memory `users` map carry only the fields the sweep and the typing handlers read.
- Transport behaviour, such as connection upgrade, reconnection and `socket.connect()`/`disconnect()`, is left out. Only connectedness and room membership are modelled.
- React rendering, CSS and the `isOnline` badges are display only.
- MessageInput.InputBox.InputChange: the text box's `maxLength` of 500 (src/components/MessageInput.jsx:86) is not modelled; the model accepts longer text.
- RoomPanel.CreateRoom: the room-name box's `maxLength` of 30 (src/components/RoomPanel.jsx:68) is not modelled; the model accepts longer names. The same holds for the login box's `maxLength` of 20 (src/components/Login.jsx:97).
- The client files `src/context/AuthContext.jsx`, `src/components/Login.jsx`, `src/components/UserSearch.jsx`, `src/components/UserList.jsx`, `src/components/NotificationToast.jsx`, `src/components/MessageList.jsx`, `src/utils/keepAlive.js`, `src/App.jsx` and `src/main.jsx` are network plumbing or render-only, and are not part of this model.
- AuthServer.Search: `limit` is taken as an already-parsed integer. A `limit` that `parseInt` turns into `NaN` (and so an empty result) is not modelled.
- AuthServer.NameLe: `localeCompare` is modelled as code-point order of the characters, not locale collation.
- JsString.Lower: `toLowerCase` lowers ASCII letters only.
- SocketContext.Receive: `user_joined` keeps the current username. In the source, the handler's closure captures `user` at mount, when it is still `null`, so the name is lost. That stale closure is a React runtime effect and is not modelled.
- SocketContext.UserJoinedSetsId: the kept username is the model's; the source's stale closure sets it to undefined.
- SocketContext.Receive: the `roomId` field of a `user_joined_room` entry and the extra fields of server payloads that no client reads are dropped.
- SocketContext.StartPrivateChat: the stand-in's `isOnline: false` flag is dropped; it only affects display.
- MessageInput.InputBox.TimeoutFires: the timeout reads the current `isTyping` rather than the value its closure captured.
- ChatInterface.ConversationEntry: the record's `isOnline` flag is dropped; it only affects display.
- ChatInterface.ChatView.SelectRoom: the history request and the server's `room_joined` (which empties the messages) race. The model applies the history last.
- ChatInterface.ChatView.SelectUser: a history request that fails and one that brings no messages are both `None`; the source clears the list in both cases.
- `maxMembers` is stored but never enforced by the source, so no capacity check is modelled.
