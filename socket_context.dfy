/** The client's socket state of src/context/SocketContext.jsx: every incoming event
    maps the previous state to the next one, and the actions the components call
    turn user input into requests to the server. The socket's own id is a
    parameter; the JavaScript `Set` of typing ids is its insertion-ordered
    elements. */
module SocketContext {
  import opened JsString
  import opened JsMap
  import opened Transport
  import opened Events

  /** `user`: the name the client joined with and the socket id the server
      confirmed; either may be missing. */
  datatype ClientUser = ClientUser(username: Option<string>, userId: Option<SocketId>)

  /** `currentRoom`, the payload of `room_joined`. */
  datatype RoomRef = RoomRef(roomId: string, roomName: string)

  datatype ClientState = ClientState(
    hasSocket: bool,
    connected: bool,
    user: Option<ClientUser>,
    onlineUsers: seq<Peer>,
    messages: seq<ChatMessage>,
    currentRoom: Option<RoomRef>,
    roomUsers: seq<Peer>,
    typingUsers: seq<SocketId>)

  /** What the client receives: the transport's own events and the server's. */
  datatype Incoming = Connected | Disconnected | FromServer(event: Event)

  /** The state before the socket exists. */
  const Initial := ClientState(false, false, None, [], [], None, [], [])

  /** The state once the mount effect has created the socket. */
  function Mounted(st: ClientState): (r: ClientState)
    ensures r.hasSocket && r.(hasSocket := st.hasSocket) == st
  {
    st.(hasSocket := true)
  }

  /** `peers.filter(u => u.userId !== id)`. */
  function DropUser(peers: seq<Peer>, id: string): (r: seq<Peer>)
    ensures |r| <= |peers|
    ensures forall p :: p in r <==> p in peers && p.userId != id
  {
    if peers == [] then []
    else
      var last := peers[|peers| - 1];
      DropUser(peers[..|peers| - 1], id) + (if last.userId != id then [last] else [])
  }

  /** Filtering works piece by piece, so the kept entries stay in their order. */
  lemma {:induction false} DropUserAppend(a: seq<Peer>, b: seq<Peer>, id: string)
    ensures DropUser(a + b, id) == DropUser(a, id) + DropUser(b, id)
    decreases |b|
  {
    if b == [] {
      assert a + b == a;
    } else {
      var front := b[..|b| - 1];
      assert (a + b)[..|a + b| - 1] == a + front;
      DropUserAppend(a, front, id);
    }
  }

  /** Filtering by the same id twice is filtering once. */
  lemma {:induction false} DropUserIdempotent(peers: seq<Peer>, id: string)
    ensures DropUser(DropUser(peers, id), id) == DropUser(peers, id)
    decreases |peers|
  {
    if peers != [] {
      var front, last := peers[..|peers| - 1], peers[|peers| - 1];
      DropUserIdempotent(front, id);
      var kept := if last.userId != id then [last] else [];
      DropUserAppend(DropUser(front, id), kept, id);
      if last.userId != id {
        assert DropUser(kept, id) == DropUser([], id) + kept;
      }
    }
  }

  /** The client's reducer: the state after `input` arrives at the socket `ownId`.
      Events this client does not listen to leave the state as it is. */
  function Receive(st: ClientState, ownId: SocketId, input: Incoming): (r: ClientState)
    ensures r.hasSocket == st.hasSocket
  {
    match input
    case Connected => st.(connected := true)
    case Disconnected => st.(connected := false)
    case FromServer(e) =>
      match e
      case UserJoined(_, userId, _) =>
        st.(user := Some(ClientUser(if st.user.Some? then st.user.value.username else None, Some(userId))))
      // the account server's `user_joined` reaches the same handler without a
      // top-level `userId`, so the id becomes undefined
      case Welcome(_, _, _) =>
        st.(user := Some(ClientUser(if st.user.Some? then st.user.value.username else None, None)))
      case OnlineUsers(peers) => st.(onlineUsers := DropUser(peers, ownId))
      case UserOnline(peer) => st.(onlineUsers := st.onlineUsers + [peer])
      case UserOffline(_, id) => st.(onlineUsers := DropUser(st.onlineUsers, id))
      case ReceiveMessage(m) => st.(messages := st.messages + [m])
      case MessageSent(m) => st.(messages := st.messages + [m])
      case RoomJoined(roomId, roomName) => st.(currentRoom := Some(RoomRef(roomId, roomName)), messages := [])
      case RoomUsers(peers) => st.(roomUsers := DropUser(peers, ownId))
      case UserJoinedRoom(name, id, _) => st.(roomUsers := st.roomUsers + [Peer(name, id, None, None)])
      case UserLeftRoom(_, id, _) => st.(roomUsers := DropUser(st.roomUsers, id))
      case UserTyping(_, id, _, _) => st.(typingUsers := AddLast(st.typingUsers, id))
      case UserStoppedTyping(id, _, _) => st.(typingUsers := Without(st.typingUsers, id))
      case _ => st
  }

  /** In the model, both servers' `user_joined` keep the name the client state
      holds; only the simple and database-backed servers' payload carries the
      socket id, and the account server's leaves the id unset. */
  lemma UserJoinedSetsId(st: ClientState, ownId: SocketId, e: Event)
    requires e.UserJoined? || e.Welcome?
    ensures var u := Receive(st, ownId, FromServer(e)).user;
      && u.Some?
      && u.value.username == (if st.user.Some? then st.user.value.username else None)
      && (e.UserJoined? ==> u.value.userId == Some(e.userId))
      && (e.Welcome? ==> u.value.userId.None?)
  {
  }

  /** The lists the client keeps never hold its own socket right after the server
      sends them: `online_users` and `room_users` drop `ownId`. */
  lemma FreshListsExcludeSelf(st: ClientState, ownId: SocketId, peers: seq<Peer>)
    ensures forall p :: p in Receive(st, ownId, FromServer(OnlineUsers(peers))).onlineUsers <==>
      p in peers && p.userId != ownId
    ensures forall p :: p in Receive(st, ownId, FromServer(RoomUsers(peers))).roomUsers <==>
      p in peers && p.userId != ownId
  {
  }

  /** `user_offline` removes every entry of that socket and keeps the rest in order;
      in particular it undoes a `user_online` of the same socket. */
  lemma OfflineUndoesOnline(st: ClientState, ownId: SocketId, peer: Peer, name: string)
    ensures var st1 := Receive(st, ownId, FromServer(UserOnline(peer)));
      Receive(st1, ownId, FromServer(UserOffline(name, peer.userId))).onlineUsers == DropUser(st.onlineUsers, peer.userId)
    ensures forall p :: p in Receive(st, ownId, FromServer(UserOffline(name, peer.userId))).onlineUsers <==>
      p in st.onlineUsers && p.userId != peer.userId
  {
    var st1 := Receive(st, ownId, FromServer(UserOnline(peer)));
    assert st1.onlineUsers == st.onlineUsers + [peer];
    var st2 := Receive(st1, ownId, FromServer(UserOffline(name, peer.userId)));
    assert st2.onlineUsers == DropUser(st.onlineUsers + [peer], peer.userId);
    DropUserAppend(st.onlineUsers, [peer], peer.userId);
    assert DropUser([peer], peer.userId) == DropUser([], peer.userId) + [];
  }

  /** Messages arrive in order: both message events append exactly one entry at the
      end, and nothing else changes. */
  lemma MessagesAppendInOrder(st: ClientState, ownId: SocketId, m: ChatMessage)
    ensures Receive(st, ownId, FromServer(ReceiveMessage(m))) == st.(messages := st.messages + [m])
    ensures Receive(st, ownId, FromServer(MessageSent(m))) == Receive(st, ownId, FromServer(ReceiveMessage(m)))
  {
  }

  /** Joining a room starts from an empty message list, whatever came before. */
  lemma RoomJoinedClearsMessages(st: ClientState, ownId: SocketId, roomId: string, roomName: string)
    ensures var r := Receive(st, ownId, FromServer(RoomJoined(roomId, roomName)));
      r.messages == [] && r.currentRoom == Some(RoomRef(roomId, roomName))
      && r.onlineUsers == st.onlineUsers && r.roomUsers == st.roomUsers && r.typingUsers == st.typingUsers
  {
  }

  /** The typing ids are a set: every event keeps them free of repeats. */
  lemma ReceiveKeepsTypingDistinct(st: ClientState, ownId: SocketId, input: Incoming)
    requires Distinct(st.typingUsers)
    ensures Distinct(Receive(st, ownId, input).typingUsers)
  {
  }

  /** `user_typing` is idempotent, and `user_stopped_typing` removes exactly that id. */
  lemma TypingSetSemantics(st: ClientState, ownId: SocketId, name: string, id: SocketId, kind: string,
                           room: Option<string>, other: SocketId)
    ensures var st1 := Receive(st, ownId, FromServer(UserTyping(name, id, kind, room)));
      && id in st1.typingUsers
      && Receive(st1, ownId, FromServer(UserTyping(name, id, kind, room))) == st1
    ensures var st2 := Receive(st, ownId, FromServer(UserStoppedTyping(id, kind, room)));
      && id !in st2.typingUsers
      && (other != id ==> (other in st2.typingUsers <==> other in st.typingUsers))
  {
  }

  /** The result of an action: the new state and the requests sent to the server. */
  datatype Step = Step(state: ClientState, sent: seq<Request>)

  /** `connectUser`: with a socket and a non-blank name, remember the trimmed name
      and send `user_join` with it; otherwise nothing happens. */
  function ConnectUser(st: ClientState, username: string): (r: Step)
    ensures r.sent != [] <==> st.hasSocket && HasText(username)
    ensures r.sent == [] ==> r.state == st
    ensures r.sent != [] ==>
      && r.sent == [UserJoin(Trim(username))]
      && r.state == st.(user := Some(ClientUser(Some(Trim(username)), None)))
      && Trim(username) != "" && Trim(Trim(username)) == Trim(username)
  {
    TrimIsEmptyIffBlank(username);
    TrimOfTrimmed(Trim(username));
    if st.hasSocket && HasText(username) then
      Step(st.(user := Some(ClientUser(Some(Trim(username)), None))), [UserJoin(Trim(username))])
    else Step(st, [])
  }

  /** `disconnectUser`: with a socket, forget the user, the room, the messages and
      every list. */
  function DisconnectUser(st: ClientState): (r: ClientState)
    ensures st.hasSocket ==>
      && r.user.None? && r.currentRoom.None? && r.messages == []
      && r.onlineUsers == [] && r.roomUsers == [] && r.typingUsers == []
      && r.hasSocket && r.connected == st.connected
    ensures !st.hasSocket ==> r == st
  {
    if st.hasSocket then
      st.(user := None, currentRoom := None, messages := [], onlineUsers := [], roomUsers := [], typingUsers := [])
    else st
  }

  /** `sendPrivateMessage`: the trimmed text goes to the target, if there is any
      text. */
  function SendPrivateMessage(st: ClientState, targetUserId: string, message: string): (sent: seq<Request>)
    ensures sent != [] <==> st.hasSocket && HasText(message)
    ensures sent != [] ==>
      sent == [PrivateMessage(targetUserId, Trim(message))]
      && Trim(message) != "" && Trim(Trim(message)) == Trim(message)
  {
    TrimIsEmptyIffBlank(message);
    TrimOfTrimmed(Trim(message));
    if st.hasSocket && HasText(message) then [PrivateMessage(targetUserId, Trim(message))] else []
  }

  /** `joinRoom`: the request goes out whenever there is a socket. */
  function JoinRoomRequest(st: ClientState, roomId: string, roomName: string): (sent: seq<Request>)
    ensures sent != [] <==> st.hasSocket
    ensures sent != [] ==> sent == [JoinRoom(roomId, roomName)]
  {
    if st.hasSocket then [JoinRoom(roomId, roomName)] else []
  }

  /** `sendRoomMessage`: the trimmed text goes to the current room, if there is a
      room and any text. */
  function SendRoomMessage(st: ClientState, message: string): (sent: seq<Request>)
    ensures sent != [] <==> st.hasSocket && st.currentRoom.Some? && HasText(message)
    ensures sent != [] ==>
      sent == [RoomMessage(st.currentRoom.value.roomId, Trim(message))]
      && Trim(message) != "" && Trim(Trim(message)) == Trim(message)
  {
    TrimIsEmptyIffBlank(message);
    TrimOfTrimmed(Trim(message));
    if st.hasSocket && st.currentRoom.Some? && HasText(message) then
      [RoomMessage(st.currentRoom.value.roomId, Trim(message))]
    else []
  }

  /** The typing payload of `startTyping` / `stopTyping` for `type` and `targetId`
      (a missing target is the empty string); `None` when nothing is sent. */
  function TypingPayload(st: ClientState, kind: string, targetId: string): (d: Option<TypingData>)
    ensures d.Some? <==> st.hasSocket && (kind == "private" || (kind == "room" && st.currentRoom.Some?))
    ensures d.Some? && kind == "private" ==> d.value == TypingData("private", targetId, "")
    ensures d.Some? && kind != "private" ==> d.value == TypingData("room", "", st.currentRoom.value.roomId)
  {
    if !st.hasSocket then None
    else if kind == "private" then Some(TypingData("private", targetId, ""))
    else if kind == "room" && st.currentRoom.Some? then Some(TypingData("room", "", st.currentRoom.value.roomId))
    else None
  }

  /** `startTyping`. */
  function StartTyping(st: ClientState, kind: string, targetId: string): (sent: seq<Request>)
    ensures sent != [] <==> TypingPayload(st, kind, targetId).Some?
    ensures sent != [] ==> sent == [TypingStart(TypingPayload(st, kind, targetId).value)]
  {
    match TypingPayload(st, kind, targetId)
    case None => []
    case Some(d) => [TypingStart(d)]
  }

  /** `stopTyping`: the same target as `startTyping` would use. */
  function StopTyping(st: ClientState, kind: string, targetId: string): (sent: seq<Request>)
    ensures sent != [] <==> StartTyping(st, kind, targetId) != []
    ensures sent != [] ==> sent == [TypingStop(StartTyping(st, kind, targetId)[0].start)]
  {
    match TypingPayload(st, kind, targetId)
    case None => []
    case Some(d) => [TypingStop(d)]
  }

  /** `startPrivateChat`: the first online user with that name, or a stand-in whose
      id is the name itself. */
  function StartPrivateChat(onlineUsers: seq<Peer>, username: string): (r: Peer)
    ensures r.username == username
    ensures r in onlineUsers || r == Peer(username, username, None, None)
    ensures (exists i :: 0 <= i < |onlineUsers| && onlineUsers[i].username == username) ==>
      exists i :: 0 <= i < |onlineUsers| && onlineUsers[i] == r
        && forall j :: 0 <= j < i ==> onlineUsers[j].username != username
  {
    match FindFirst(onlineUsers, (u: Peer) => u.username == username)
    case Some(i) => onlineUsers[i]
    case None => Peer(username, username, None, None)
  }
}
