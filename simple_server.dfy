/** The in-memory chat server of server/index-simple.js: a `users` map from socket
    id to the announced user and a `rooms` map from room id to its name and member
    set, updated by the socket handlers. Each handler returns its emits. */
module SimpleServer {
  import opened JsString
  import opened JsMap
  import opened Transport
  import opened Events
  import TypingRelay

  /** An entry of `users`: `{ socketId, username, currentRoom, joinedAt }`. */
  datatype User = User(socketId: SocketId, username: string, currentRoom: Option<string>, joinedAt: int)

  /** An entry of `rooms`: `{ name, users: Set }`, the set in insertion order. */
  datatype Room = Room(name: string, users: seq<SocketId>)

  /** `{ username, userId: socketId }`. */
  function PeerOf(u: User): Peer {
    Peer(u.username, u.socketId, None, None)
  }

  /** The `online_users` list: the users other than `self`, in map order. */
  function OnlineUsersList(us: seq<User>, self: SocketId): (r: seq<Peer>)
    ensures |r| <= |us|
    ensures forall p :: p in r <==> exists u :: u in us && u.socketId != self && p == PeerOf(u)
  {
    if us == [] then []
    else (if us[0].socketId != self then [PeerOf(us[0])] else []) + OnlineUsersList(us[1..], self)
  }

  /** The `room_users` list: the room's socket ids in set order, looked up in
      `users`, dropping unknown ids and `self`. */
  function RoomUsersList(ids: seq<SocketId>, users: map<SocketId, User>, self: SocketId): (r: seq<Peer>)
    ensures |r| <= |ids|
    ensures forall p :: p in r <==>
      exists id :: id in ids && id in users && users[id].socketId != self && p == PeerOf(users[id])
  {
    if ids == [] then []
    else
      var head := if ids[0] in users && users[ids[0]].socketId != self then [PeerOf(users[ids[0]])] else [];
      head + RoomUsersList(ids[1..], users, self)
  }

  /** The `online_users` filter works piece by piece: each user appears once per
      entry, in map order. */
  lemma {:induction false} OnlineUsersListAppend(xs: seq<User>, ys: seq<User>, self: SocketId)
    ensures OnlineUsersList(xs + ys, self) == OnlineUsersList(xs, self) + OnlineUsersList(ys, self)
  {
    if xs == [] {
      assert xs + ys == ys;
    } else {
      var head := if xs[0].socketId != self then [PeerOf(xs[0])] else [];
      assert (xs + ys)[0] == xs[0] && (xs + ys)[1..] == xs[1..] + ys;
      assert OnlineUsersList(xs + ys, self) == head + OnlineUsersList(xs[1..] + ys, self);
      OnlineUsersListAppend(xs[1..], ys, self);
      assert OnlineUsersList(xs, self) == head + OnlineUsersList(xs[1..], self);
    }
  }

  /** The `room_users` lookup works piece by piece: each member appears once per
      occurrence in the room's set, in set order. */
  lemma {:induction false} RoomUsersListAppend(xs: seq<SocketId>, ys: seq<SocketId>, users: map<SocketId, User>, self: SocketId)
    ensures RoomUsersList(xs + ys, users, self) == RoomUsersList(xs, users, self) + RoomUsersList(ys, users, self)
  {
    if xs == [] {
      assert xs + ys == ys;
    } else {
      assert (xs + ys)[0] == xs[0] && (xs + ys)[1..] == xs[1..] + ys;
      RoomUsersListAppend(xs[1..], ys, users, self);
    }
  }

  /** The `online_users` list of the `users` map, seen by `self`: exactly the
      registered users other than `self`. */
  function OthersOf(users: OMap<SocketId, User>, self: SocketId): (r: seq<Peer>)
    requires users.Valid()
    ensures forall p :: p in r <==> exists id :: id in users.table && users.table[id].socketId != self && p == PeerOf(users.table[id])
  {
    var vs := users.Values();
    var list := OnlineUsersList(vs, self);
    assert forall p :: p in list <==> exists id :: id in users.table && users.table[id].socketId != self && p == PeerOf(users.table[id]) by {
      forall p ensures p in list ==> exists id :: id in users.table && users.table[id].socketId != self && p == PeerOf(users.table[id]) {
        if p in list {
          var u :| u in vs && u.socketId != self && p == PeerOf(u);
          var i :| 0 <= i < |vs| && vs[i] == u;
          assert users.keys[i] in users.table;
        }
      }
      forall p, id | id in users.table && users.table[id].socketId != self && p == PeerOf(users.table[id]) ensures p in list {
        var i :| 0 <= i < |users.keys| && users.keys[i] == id;
        assert vs[i] == users.table[id];
      }
    }
    list
  }

  /** No room lists a socket twice. */
  ghost predicate MembersDistinct(rooms: map<string, Room>) {
    forall r :: r in rooms ==> Distinct(rooms[r].users)
  }

  /** The room map after `rooms.get(r).users.delete(s)` when `r` exists. */
  function WithoutMember(rooms: map<string, Room>, r: string, s: SocketId): (res: map<string, Room>)
    ensures res.Keys == rooms.Keys
    ensures r in rooms ==> res[r] == rooms[r].(users := Without(rooms[r].users, s)) && s !in res[r].users
    ensures forall x :: x in rooms && x != r ==> res[x] == rooms[x]
    ensures MembersDistinct(rooms) ==> MembersDistinct(res)
  {
    if r in rooms then rooms[r := rooms[r].(users := Without(rooms[r].users, s))] else rooms
  }

  /** The room map after the disconnect handler takes `s` out of room `r` and
      deletes the room when that leaves it empty. */
  function Vacate(rooms: map<string, Room>, r: string, s: SocketId): (res: map<string, Room>)
    ensures forall x :: x != r ==> (x in res <==> x in rooms)
    ensures forall x :: x in res && x != r ==> res[x] == rooms[x]
    ensures r in res <==> r in rooms && exists u :: u in rooms[r].users && u != s
    ensures r in res ==> res[r] == rooms[r].(users := Without(rooms[r].users, s))
    ensures MembersDistinct(rooms) ==> MembersDistinct(res)
  {
    var left := WithoutMember(rooms, r, s);
    assert r in rooms && |left[r].users| != 0 ==> left[r].users[0] in rooms[r].users && left[r].users[0] != s;
    if r in left && |left[r].users| == 0 then left - {r} else left
  }

  /** The room map after "create `roomId` named `roomName || roomId` if absent,
      then add `s` to its set". */
  function WithMember(rooms: map<string, Room>, roomId: string, roomName: string, s: SocketId)
    : (res: map<string, Room>)
    ensures res.Keys == rooms.Keys + {roomId}
    ensures res[roomId].name == if roomId in rooms then rooms[roomId].name else OrElse(roomName, roomId)
    ensures forall x :: x in res[roomId].users <==> x == s || (roomId in rooms && x in rooms[roomId].users)
    ensures forall x :: x in rooms && x != roomId ==> res[x] == rooms[x]
    ensures MembersDistinct(rooms) ==> MembersDistinct(res)
  {
    var base := if roomId in rooms then rooms[roomId] else Room(OrElse(roomName, roomId), []);
    rooms[roomId := base.(users := AddLast(base.users, s))]
  }

  /** The welcome text of `user_joined`. */
  function WelcomeText(username: string): string {
    "Welcome to the chat, " + username + "!"
  }

  class Server {
    /** Sockets the transport holds open. */
    var connected: set<SocketId>
    /** socket.io room membership. */
    var adapter: Adapter
    /** `users`: socket id -> user. */
    var users: OMap<SocketId, User>
    /** `rooms`: room id -> room. */
    var rooms: map<string, Room>

    ghost predicate Valid()
      reads this
    {
      && users.Valid()
      && (forall id :: id in users.table ==> users.table[id].socketId == id)
      && MembersDistinct(rooms)
    }

    constructor ()
      ensures Valid()
      ensures connected == {} && adapter == {} && users == EmptyMap() && rooms == map[]
    {
      connected, adapter, users, rooms := {}, {}, EmptyMap(), map[];
    }

    /** A socket connects: it is open and in the room named by its id. */
    method Connect(s: SocketId)
      requires Valid()
      modifies this
      ensures Valid()
      ensures connected == old(connected) + {s} && adapter == AddToRoom(old(adapter), s, s)
      ensures users == old(users) && rooms == old(rooms)
    {
      connected := connected + {s};
      adapter := AddToRoom(adapter, s, s);
    }

    /** `user_join` (server/index-simple.js:49-89). */
    method UserJoin(s: SocketId, username: string, now: int) returns (out: seq<Emit>)
      requires Valid()
      modifies this
      ensures Valid()
      // the entry for `s` is overwritten with no current room; no other entry changes
      ensures users.table == old(users.table)[s := User(s, username, None, now)]
      ensures users.keys == if s in old(users.table) then old(users.keys) else old(users.keys) + [s]
      // room sets and socket.io rooms are untouched: an earlier membership survives
      ensures rooms == old(rooms) && adapter == old(adapter) && connected == old(connected)
      ensures |out| == 3
      ensures out[0] == Emit({s}, UserJoined(WelcomeText(username), s, None))
      ensures out[1] == Emit(connected - {s}, UserOnline(Peer(username, s, None, None)))
      ensures out[2] == Emit({s}, OnlineUsers(OthersOf(users, s)))
    {
      users := users.Set(s, User(s, username, None, now));
      var list := OthersOf(users, s);
      out := [Emit({s}, UserJoined(WelcomeText(username), s, None)),
              Emit(connected - {s}, UserOnline(Peer(username, s, None, None))),
              Emit({s}, OnlineUsers(list))];
    }

    /** `private_message` (server/index-simple.js:92-119). */
    method PrivateMessage(s: SocketId, targetUserId: string, message: string, now: int)
      returns (out: seq<Emit>)
      requires Valid()
      ensures out != [] <==> s in users.table && targetUserId in users.table
      ensures out != [] ==>
        && |out| == 2
        && out[0].to == ToOthersIn(adapter, targetUserId, s)
        && out[1].to == {s}
        && out[0].event.ReceiveMessage? && out[1].event.MessageSent?
        && out[0].event.msg == out[1].event.msg
        && out[0].event.msg == ChatMessage(None, users.table[s].username, s, Some(targetUserId), message, now, "private", None)
    {
      if s in users.table && targetUserId in users.table {
        var data := ChatMessage(None, users.table[s].username, s, Some(targetUserId), message, now, "private", None);
        out := [Emit(ToOthersIn(adapter, targetUserId, s), ReceiveMessage(data)), Emit({s}, MessageSent(data))];
      } else {
        out := [];
      }
    }

    /** `join_room` (server/index-simple.js:122-181). */
    method JoinRoom(s: SocketId, roomId: string, roomName: string) returns (out: seq<Emit>)
      requires Valid()
      modifies this
      ensures Valid()
      ensures connected == old(connected)
      ensures s !in old(users.table) ==> out == [] && users == old(users) && rooms == old(rooms) && adapter == old(adapter)
      ensures s in old(users.table) ==>
        var prev := old(users.table[s].currentRoom);
        var left := if Truthy(prev) then RemoveFromRoom(old(adapter), s, prev.value) else old(adapter);
        // the user now records the new room; the map order is unchanged
        && users.keys == old(users.keys)
        && users.table == old(users.table)[s := old(users.table[s]).(currentRoom := Some(roomId))]
        && adapter == AddToRoom(left, s, roomId)
        // the room left loses `s` but is never deleted; `roomId` is found or created
        && rooms == WithMember(if Truthy(prev) then WithoutMember(old(rooms), prev.value, s) else old(rooms),
                               roomId, roomName, s)
        && out == [Emit({s}, RoomJoined(roomId, rooms[roomId].name)),
                   Emit(ToOthersIn(adapter, roomId, s), UserJoinedRoom(old(users.table[s].username), s, roomId)),
                   Emit({s}, RoomUsers(RoomUsersList(rooms[roomId].users, users.table, s)))]
    {
      if s !in users.table {
        return [];
      }
      var user := users.table[s];
      var left, remaining := adapter, rooms;
      if Truthy(user.currentRoom) {
        var prev := user.currentRoom.value;
        left := RemoveFromRoom(adapter, s, prev);
        remaining := WithoutMember(rooms, prev, s);
      }
      var joined := AddToRoom(left, s, roomId);
      var renamed := users.Set(s, user.(currentRoom := Some(roomId)));
      var withJoiner := WithMember(remaining, roomId, roomName, s);
      var members := RoomUsersList(withJoiner[roomId].users, renamed.table, s);
      out := [Emit({s}, RoomJoined(roomId, withJoiner[roomId].name)),
              Emit(ToOthersIn(joined, roomId, s), UserJoinedRoom(user.username, s, roomId)),
              Emit({s}, RoomUsers(members))];
      adapter, users, rooms := joined, renamed, withJoiner;
    }

    /** `room_message` (server/index-simple.js:184-208): delivered to the whole
        room, sender included, only from a user whose current room it is. */
    method RoomMessage(s: SocketId, roomId: string, message: string, now: int) returns (out: seq<Emit>)
      requires Valid()
      ensures out != [] <==> s in users.table && users.table[s].currentRoom == Some(roomId)
      ensures out != [] ==>
        && |out| == 1
        && out[0].to == Members(adapter, roomId)
        && out[0].event == ReceiveMessage(ChatMessage(None, users.table[s].username, s, None, message, now, "room", Some(roomId)))
    {
      if s in users.table && users.table[s].currentRoom == Some(roomId) {
        var data := ChatMessage(None, users.table[s].username, s, None, message, now, "room", Some(roomId));
        out := [Emit(Members(adapter, roomId), ReceiveMessage(data))];
      } else {
        out := [];
      }
    }

    /** The typing handlers' view of socket `s`. */
    function TypistOf(s: SocketId): (t: Option<TypingRelay.Typist>)
      reads this
      ensures t.Some? <==> s in users.table
      ensures t.Some? ==> t.value == TypingRelay.Typist(users.table[s].username, users.table[s].currentRoom)
    {
      if s in users.table then Some(TypingRelay.Typist(users.table[s].username, users.table[s].currentRoom)) else None
    }

    /** `typing_start` / `typing_stop` (server/index-simple.js:211-247): relayed,
        never stored, so nothing expires on the server. */
    method Typing(s: SocketId, data: TypingData, starting: bool) returns (out: seq<Emit>)
      requires Valid()
      ensures out == TypingRelay.Relay(adapter, s, TypistOf(s), data, starting)
      ensures out != [] ==> s in users.table
    {
      out := TypingRelay.Relay(adapter, s, TypistOf(s), data, starting);
    }

    /** `disconnect` (server/index-simple.js:250-287), after socket.io has closed
        the socket and taken it out of every room. */
    method Disconnect(s: SocketId) returns (out: seq<Emit>)
      requires Valid()
      modifies this
      ensures Valid()
      ensures connected == old(connected) - {s} && adapter == LeaveAll(old(adapter), s)
      // a socket that never announced itself (or a second disconnect) changes nothing else
      ensures s !in old(users.table) ==> out == [] && users == old(users) && rooms == old(rooms)
      ensures s in old(users.table) ==>
        var u := old(users.table[s]);
        var cur := u.currentRoom;
        var inRoom := Truthy(cur) && cur.value in old(rooms);
        && users.table == old(users.table) - {s}
        && users.keys == Without(old(users.keys), s)
        // the current room loses `s`, and goes away when that empties it
        && rooms == (if inRoom then Vacate(old(rooms), cur.value, s) else old(rooms))
        // the remaining members hear `user_left_room`, then everybody else `user_offline`
        && out == (if inRoom then [Emit(ToOthersIn(adapter, cur.value, s), UserLeftRoom(u.username, s, cur.value))] else [])
                  + [Emit(connected - {s}, UserOffline(u.username, s))]
    {
      connected := connected - {s};
      adapter := LeaveAll(adapter, s);
      if s !in users.table {
        return [];
      }
      var user := users.table[s];
      var left := rooms;
      out := [];
      if Truthy(user.currentRoom) && user.currentRoom.value in rooms {
        var r := user.currentRoom.value;
        left := Vacate(rooms, r, s);
        out := [Emit(ToOthersIn(adapter, r, s), UserLeftRoom(user.username, s, r))];
      }
      users, rooms := users.Delete(s), left;
      out := out + [Emit(connected - {s}, UserOffline(user.username, s))];
    }
  }
}
