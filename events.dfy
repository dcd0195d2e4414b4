/** The payloads that travel between the chat clients and the server, and the
    emits a socket handler produces. */
module Events {
  import opened JsString
  import opened Transport

  /** One user as listed in `online_users`, `room_users`, `user_online`:
      `{ username, userId, dbUserId?, joinedAt? }`. `userId` is a socket id. */
  datatype Peer = Peer(username: string, userId: string, dbUserId: Option<string>, joinedAt: Option<int>)

  /** The `messageData` of `receive_message` / `message_sent`. */
  datatype ChatMessage = ChatMessage(
    dbId: Option<string>,
    from: string,
    fromId: SocketId,
    toId: Option<string>,
    text: string,
    timestamp: int,
    kind: string,
    roomId: Option<string>)

  /** One entry of the account server's `onlineUsers` map, sent in `online_users_updated`. */
  datatype OnlineEntry = OnlineEntry(userId: string, username: string, socketId: SocketId)

  /** The account server's private message record (`private_message_received` / `_sent`). */
  datatype DirectMessage = DirectMessage(
    id: int,
    fromId: string,
    fromUsername: string,
    toId: string,
    text: string,
    timestamp: int,
    kind: string)

  /** Server-to-client events, one constructor per event name. */
  datatype Event =
    | UserJoined(message: string, userId: SocketId, dbUserId: Option<string>)
    | Welcome(welcome: string, accountId: string, accountName: string)
    | UserOnline(peer: Peer)
    | OnlineUsers(peers: seq<Peer>)
    | OnlineUsersUpdated(entries: seq<OnlineEntry>)
    | UserOffline(offlineName: string, offlineId: string)
    | ReceiveMessage(msg: ChatMessage)
    | MessageSent(msg: ChatMessage)
    | PrivateMessageReceived(direct: DirectMessage)
    | PrivateMessageSent(direct: DirectMessage)
    | RoomJoined(roomId: string, roomName: string)
    | UserJoinedRoom(joinerName: string, joinerId: SocketId, joinedRoom: string)
    | RoomUsers(members: seq<Peer>)
    | UserLeftRoom(leaverName: string, leaverId: SocketId, leftRoom: string)
    | UserTyping(typistName: string, typistId: SocketId, typingKind: string, typingRoom: Option<string>)
    | UserStoppedTyping(stopperId: SocketId, stopKind: string, stopRoom: Option<string>)
    | Error(error: string)

  /** One emit: the sockets that receive it and the event. */
  datatype Emit = Emit(to: set<SocketId>, event: Event)

  /** The `typing_start` / `typing_stop` payload `{ type, targetUserId, roomId }`;
      the empty string stands for a missing field. */
  datatype TypingData = TypingData(kind: string, targetUserId: string, roomId: string)

  /** Client-to-server requests. */
  datatype Request =
    | UserJoin(username: string)
    | PrivateMessage(targetUserId: string, message: string)
    | JoinRoom(joinId: string, joinName: string)
    | RoomMessage(roomId: string, roomMessage: string)
    | TypingStart(start: TypingData)
    | TypingStop(stop: TypingData)

  /** One lower-case hexadecimal digit. */
  function HexDigit(d: nat): (c: char)
    requires d < 16
    ensures '0' <= c <= '9' || 'a' <= c <= 'f'
  {
    if d < 10 then ('0' as int + d) as char else ('a' as int + d - 10) as char
  }

  /** The last `width` hexadecimal digits of `n`, most significant first. */
  function Hex(n: nat, width: nat): (r: string)
    ensures |r| == width
    ensures forall i :: 0 <= i < width ==> '0' <= r[i] <= '9' || 'a' <= r[i] <= 'f'
  {
    if width == 0 then [] else Hex(n / 16, width - 1) + [HexDigit(n % 16)]
  }

  /** A MongoDB ObjectId as it reaches a client: 24 hexadecimal digits. */
  function ObjectIdString(id: nat): (r: string)
    ensures |r| == 24
    ensures forall i :: 0 <= i < |r| ==> '0' <= r[i] <= '9' || 'a' <= r[i] <= 'f'
  {
    Hex(id, 24)
  }
}
