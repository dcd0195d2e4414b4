/** The database-backed chat server of server/index.js. The MongoDB collections
    become sequences whose positions are the documents' ObjectIds; each awaited
    query runs to completion before the next, so a handler is one step. Beside the
    database the server keeps two in-memory maps, `users` and `rooms`, which only
    the periodic sweep and the typing handlers read. */
module DbServer {
  import opened JsString
  import opened JsMap
  import opened Transport
  import opened Events
  import opened TypingRelay
  import opened MessageSchema
  import opened RoomSchema

  /** A User document, with the fields the handlers read and write. */
  datatype DbUser = DbUser(
    username: string,
    socketId: Option<SocketId>,
    isOnline: bool,
    lastSeen: int,
    currentRoom: Option<string>)

  /** An entry of the in-memory `users` map (socket id -> user). */
  datatype MemUser = MemUser(username: string, currentRoom: Option<string>, lastSeen: Option<int>)

  /** An entry of the in-memory `rooms` map (room id -> room). */
  datatype MemRoom = MemRoom(name: string, users: Option<set<SocketId>>)

  /** How long the sweep lets a user entry sit after `lastSeen`, in milliseconds. */
  const StaleAfter := 600000

  /** The sweep's test for a user entry: `lastSeen` set and more than ten minutes old. */
  predicate Stale(now: int, u: MemUser) {
    u.lastSeen.Some? && now - u.lastSeen.value > StaleAfter
  }

  /** `Stale` at time `now`, as the filter the sweep applies. */
  function StaleAt(now: int): MemUser -> bool {
    (u: MemUser) => Stale(now, u)
  }

  /** The sweep's test for a room entry: a `users` set that exists and is empty. */
  predicate EmptyRoom(r: MemRoom) {
    r.users.Some? && r.users.value == {}
  }

  /** Filtering one more key of the loop's key order. */
  lemma KeptPrefixStep<K(!new), V>(all: seq<K>, table: map<K, V>, drop: V -> bool, i: nat)
    requires (forall k :: k in all ==> k in table) && i < |all|
    ensures KeptKeys(all[..i + 1], table, drop)
      == KeptKeys(all[..i], table, drop) + (if drop(table[all[i]]) then [] else [all[i]])
  {
    assert all[..i + 1] == all[..i] + [all[i]];
    KeptKeysSnoc(all[..i], all[i], table, drop);
  }

  /** One iteration of the sweep loop that keeps its key: the keys already visited
      are filtered, the rest not yet. */
  lemma SweepKeepStep<K(!new), V>(all: seq<K>, table: map<K, V>, drop: V -> bool, i: nat, keys: seq<K>)
    requires (forall k :: k in all ==> k in table) && i < |all| && !drop(table[all[i]])
    requires keys == KeptKeys(all[..i], table, drop) + all[i..]
    ensures keys == KeptKeys(all[..i + 1], table, drop) + all[i + 1..]
  {
    KeptPrefixStep(all, table, drop, i);
    assert all[i..] == [all[i]] + all[i + 1..];
  }

  /** One iteration of the sweep loop that deletes its key: removing it from the
      current order leaves the visited keys filtered and the rest not yet. */
  lemma SweepDropStep<K(!new), V>(all: seq<K>, table: map<K, V>, drop: V -> bool, i: nat, keys: seq<K>)
    requires (forall k :: k in all ==> k in table) && i < |all| && drop(table[all[i]])
    requires all[i] !in all[..i] && all[i] !in all[i + 1..]
    requires keys == KeptKeys(all[..i], table, drop) + all[i..]
    ensures Without(keys, all[i]) == KeptKeys(all[..i + 1], table, drop) + all[i + 1..]
  {
    var k, after := all[i], all[i + 1..];
    var kept := KeptKeys(all[..i], table, drop);
    KeptPrefixStep(all, table, drop, i);
    assert keys == kept + [k] + after by {
      assert all[i..] == [k] + after;
    }
    KeptKeysOmits(all[..i], table, drop, k);
    WithoutBetween(kept, k, after);
  }

  /** What the sweep loop keeps after visiting the first `i` keys of `m`: those
      keys filtered by `drop`, the rest untouched, every entry's value as before. */
  ghost predicate SweptUpTo<K(!new), V>(m: OMap<K, V>, drop: V -> bool, i: nat, r: OMap<K, V>)
    requires m.Valid()
  {
    i <= |m.keys| && r.Valid()
    && r.keys == KeptKeys(m.keys[..i], m.table, drop) + m.keys[i..]
    && forall k :: k in r.table ==> k in m.table && r.table[k] == m.table[k]
  }

  /** Visiting a key the sweep keeps. */
  lemma SweepKeep<K(!new), V>(m: OMap<K, V>, drop: V -> bool, i: nat, r: OMap<K, V>)
    requires m.Valid() && i < |m.keys| && SweptUpTo(m, drop, i, r) && !drop(m.table[m.keys[i]])
    ensures SweptUpTo(m, drop, i + 1, r)
  {
    SweepKeepStep(m.keys, m.table, drop, i, r.keys);
  }

  /** Visiting a key the sweep deletes. */
  lemma SweepDrop<K(!new), V>(m: OMap<K, V>, drop: V -> bool, i: nat, r: OMap<K, V>)
    requires m.Valid() && i < |m.keys| && SweptUpTo(m, drop, i, r) && drop(m.table[m.keys[i]])
    ensures SweptUpTo(m, drop, i + 1, r.Delete(m.keys[i]))
  {
    DistinctAt(m.keys, i);
    SweepDropStep(m.keys, m.table, drop, i, r.keys);
  }

  /** After the last key: exactly the entries `drop` rejects are gone. */
  lemma SweptAll<K(!new), V>(m: OMap<K, V>, drop: V -> bool, r: OMap<K, V>)
    requires m.Valid() && SweptUpTo(m, drop, |m.keys|, r)
    ensures r.keys == KeptKeys(m.keys, m.table, drop)
    ensures r.table == KeptTable(m.table, drop)
  {
    assert m.keys[..|m.keys|] == m.keys;
    KeptKeysHas(m.keys, m.table, drop);
  }

  /** One `for (const [key, value] of map.entries()) if (drop(value)) map.delete(key)`
      loop of the sweep (server/index.js:97-101 and 104-108): the entries `drop`
      rejects leave the map, the others keep their order and values. */
  method SweepEntries<K(==, !new), V>(m: OMap<K, V>, drop: V -> bool) returns (r: OMap<K, V>)
    requires m.Valid()
    ensures r.Valid()
    ensures r.keys == KeptKeys(m.keys, m.table, drop)
    ensures r.table == KeptTable(m.table, drop)
  {
    r := m;
    var i := 0;
    assert m.keys[..0] == [] && m.keys[0..] == m.keys;
    while i < |m.keys|
      invariant SweptUpTo(m, drop, i, r)
    {
      var k := m.keys[i];
      if drop(m.table[k]) {
        SweepDrop(m, drop, i, r);
        r := r.Delete(k);
      } else {
        SweepKeep(m, drop, i, r);
      }
      i := i + 1;
    }
    SweptAll(m, drop, r);
  }

  /** The peer record of user `id` in `online_users`; a null socket id is sent as "". */
  function OnlinePeer(u: DbUser, id: nat): Peer {
    Peer(u.username, if u.socketId.Some? then u.socketId.value else "", Some(ObjectIdString(id)), None)
  }

  /** `User.find({ isOnline: true, _id: { $ne: self } })` mapped to peers, in
      collection order, from position `from` on. */
  function OnlinePeers(users: seq<DbUser>, self: nat, from: nat): (r: seq<Peer>)
    requires from <= |users|
    ensures forall p :: p in r <==>
      exists j :: from <= j < |users| && j != self && users[j].isOnline && p == OnlinePeer(users[j], j)
    decreases |users| - from
  {
    if from == |users| then []
    else
      (if from != self && users[from].isOnline then [OnlinePeer(users[from], from)] else [])
      + OnlinePeers(users, self, from + 1)
  }

  /** One more user document at the end of the collection adds at most its own
      peer record, after all the others: the list follows collection order. */
  lemma {:induction false} OnlinePeersSnoc(users: seq<DbUser>, u: DbUser, self: nat, from: nat)
    requires from <= |users|
    ensures OnlinePeers(users + [u], self, from)
      == OnlinePeers(users, self, from) + (if |users| != self && u.isOnline then [OnlinePeer(u, |users|)] else [])
    decreases |users| - from
  {
    var us := users + [u];
    if from < |users| {
      var head := if from != self && users[from].isOnline then [OnlinePeer(users[from], from)] else [];
      assert us[from] == users[from];
      assert OnlinePeers(us, self, from) == head + OnlinePeers(us, self, from + 1);
      OnlinePeersSnoc(users, u, self, from + 1);
      assert OnlinePeers(users, self, from) == head + OnlinePeers(users, self, from + 1);
    } else {
      assert OnlinePeers(us, self, from + 1) == [];
    }
  }

  /** The `activeMembers` of `join_room`: members whose user has a non-empty socket
      id other than the caller's, with that socket id and their join time. */
  function ActiveMembers(members: seq<MemberDoc>, users: seq<DbUser>, self: SocketId): (r: seq<Peer>)
    requires forall m :: m in members ==> m.user.Some? && m.user.value < |users|
    ensures forall p :: p in r <==>
      exists m :: m in members && Truthy(users[m.user.value].socketId) && users[m.user.value].socketId.value != self
                  && p == Peer(users[m.user.value].username, users[m.user.value].socketId.value, None, m.joinedAt)
  {
    if members == [] then []
    else
      var m := members[0];
      var u := users[m.user.value];
      (if Truthy(u.socketId) && u.socketId.value != self then [Peer(u.username, u.socketId.value, None, m.joinedAt)] else [])
      + ActiveMembers(members[1..], users, self)
  }

  /** The active-member filter works piece by piece: one record per member entry,
      in the room's member order. */
  lemma {:induction false} ActiveMembersAppend(xs: seq<MemberDoc>, ys: seq<MemberDoc>, users: seq<DbUser>, self: SocketId)
    requires forall m :: m in xs + ys ==> m.user.Some? && m.user.value < |users|
    ensures ActiveMembers(xs + ys, users, self) == ActiveMembers(xs, users, self) + ActiveMembers(ys, users, self)
  {
    if xs == [] {
      assert xs + ys == ys;
    } else {
      assert (xs + ys)[0] == xs[0] && (xs + ys)[1..] == xs[1..] + ys;
      ActiveMembersAppend(xs[1..], ys, users, self);
    }
  }

  /** The room `join_room` creates for user `uid` (server/index.js:249-258), with the
      schema's defaults. */
  function CreatedRoom(roomId: string, roomName: string, uid: nat, now: int): RoomDoc {
    RoomDefaults(RoomDoc(Some(roomId), Some(OrElse(roomName, roomId)), None, Some(uid),
                         [MemberDoc(Some(uid), Some(now), Some("admin"))], None, None, None), now)
  }

  /** A created room has the joiner as creator and sole member, an admin, and is
      stored exactly when its id is non-empty and its name fits 50 characters. */
  lemma CreatedRoomShape(roomId: string, roomName: string, uid: nat, now: int)
    ensures var r := CreatedRoom(roomId, roomName, uid, now);
      && r.roomId == Some(roomId) && r.name == Some(OrElse(roomName, roomId)) && r.creator == Some(uid)
      && r.members == [MemberDoc(Some(uid), Some(now), Some("admin"))]
      && r.isPrivate == Some(false) && r.maxMembers == Some(DefaultMaxMembers)
      && NoDuplicateMembers(r.members) && IsMember(r.members, uid)
      && (ValidRoom(r) <==> roomId != "" && Utf16Length(OrElse(roomName, roomId)) <= MaxNameLength)
  {
    var r := CreatedRoom(roomId, roomName, uid, now);
    assert r.members[0] == MemberDefaults(MemberDoc(Some(uid), Some(now), Some("admin")), now);
    assert r.members == [MemberDoc(Some(uid), Some(now), Some("admin"))];
  }

  /** An existing room after `uid` joins: the user is appended, with the default
      role, only when not already a member. */
  function WithMember(room: RoomDoc, uid: nat, now: int): (r: RoomDoc)
    ensures IsMember(r.members, uid)
    ensures NoDuplicateMembers(room.members) ==> NoDuplicateMembers(r.members)
    ensures IsMember(room.members, uid) ==> r == room
    ensures !IsMember(room.members, uid) ==>
      r == room.(members := room.members + [MemberDoc(Some(uid), Some(now), Some("member"))])
  {
    if IsMember(room.members, uid) then room
    else
      var m := MemberDefaults(MemberDoc(Some(uid), Some(now), None), now);
      var r := room.(members := room.members + [m]);
      assert r.members[|room.members|].user == Some(uid);
      r
  }

  /** Re-joining never duplicates a member: joining twice is joining once. */
  lemma WithMemberIdempotent(room: RoomDoc, uid: nat, now: int, later: int)
    ensures WithMember(WithMember(room, uid, now), uid, later) == WithMember(room, uid, now)
  {
  }

  /** A stored room: valid, with defaults filled in, and a member list that refers to
      existing users, each at most once. */
  ghost predicate StoredRoom(r: RoomDoc, userCount: nat) {
    && ValidRoom(r)
    && NoDuplicateMembers(r.members)
    && forall m :: m in r.members ==> m.user.Some? && m.user.value < userCount && m.role.Some?
  }

  /** The Room collection as the server keeps it: every room stored, and `roomId`
      unique, so a `findOne({ roomId })` names at most one room. */
  ghost predicate RoomTable(rooms: seq<RoomDoc>, userCount: nat) {
    && (forall i :: 0 <= i < |rooms| ==> StoredRoom(rooms[i], userCount))
    && (forall i, j :: 0 <= i < j < |rooms| ==> rooms[i].roomId != rooms[j].roomId)
  }

  /** Replacing a room by a stored room with the same id keeps the table. */
  lemma RoomTableUpdate(rooms: seq<RoomDoc>, n: nat, ri: nat, room: RoomDoc)
    requires RoomTable(rooms, n) && ri < |rooms|
    requires StoredRoom(room, n) && room.roomId == rooms[ri].roomId
    ensures RoomTable(rooms[ri := room], n)
  {
  }

  /** Adding a stored room whose id no room has keeps the table. */
  lemma RoomTableAppend(rooms: seq<RoomDoc>, n: nat, room: RoomDoc)
    requires RoomTable(rooms, n) && StoredRoom(room, n)
    requires forall i :: 0 <= i < |rooms| ==> rooms[i].roomId != room.roomId
    ensures RoomTable(rooms + [room], n)
  {
  }

  /** The room a join leaves behind is stored like the room before it. */
  lemma JoinedRoomStored(room: RoomDoc, n: nat, uid: nat, now: int)
    requires StoredRoom(room, n) && uid < n
    ensures StoredRoom(WithMember(room, uid, now).(lastActivity := Some(now)), n)
  {
    var r := WithMember(room, uid, now).(lastActivity := Some(now));
    forall m | m in r.members ensures m.user.Some? && m.user.value < n && m.role.Some? && ValidRole(m.role) {
      if m !in room.members {
        assert m == MemberDoc(Some(uid), Some(now), Some("member"));
      }
    }
  }

  /** A room `join_room` creates, once the schema accepts it, is stored. */
  lemma CreatedRoomStored(roomId: string, roomName: string, uid: nat, now: int, n: nat)
    requires uid < n && ValidRoom(CreatedRoom(roomId, roomName, uid, now))
    ensures StoredRoom(CreatedRoom(roomId, roomName, uid, now), n)
    ensures StoredRoom(CreatedRoom(roomId, roomName, uid, now).(lastActivity := Some(now)), n)
  {
    CreatedRoomShape(roomId, roomName, uid, now);
  }

  /** The outcome of the room part of `join_room`: the room's position, the room
      the handler reports, and the Room collection afterwards. */
  datatype Joined = Joined(index: nat, room: RoomDoc, rooms: seq<RoomDoc>)

  /** Find the room by id, or create it with `uid` as admin; add `uid` as a member
      once and stamp the activity time. `None` when a new room is refused by the
      schema (server/index.js:243-276). */
  function JoinRooms(rooms: seq<RoomDoc>, uid: nat, roomId: string, roomName: string, now: int): Option<Joined> {
    var found := FindFirst(rooms, HasRoomId(roomId));
    if found.None? then
      var created := CreatedRoom(roomId, roomName, uid, now);
      if !ValidRoom(created) then None
      else Some(Joined(|rooms|, created, rooms + [created.(lastActivity := Some(now))]))
    else
      var room := WithMember(rooms[found.value], uid, now);
      Some(Joined(found.value, room, rooms[found.value := room.(lastActivity := Some(now))]))
  }

  /** A join keeps the Room collection well formed, puts the joiner in the room with
      the requested id, and touches no other room; it fails only for a new room whose
      id is empty or whose name is longer than 50 UTF-16 code units. */
  lemma JoinRoomsEffect(rooms: seq<RoomDoc>, n: nat, uid: nat, roomId: string, roomName: string, now: int)
    requires RoomTable(rooms, n) && uid < n
    ensures var j := JoinRooms(rooms, uid, roomId, roomName, now);
      && (j.None? <==> FindFirst(rooms, HasRoomId(roomId)).None?
                       && !(roomId != "" && Utf16Length(OrElse(roomName, roomId)) <= MaxNameLength))
      && (j.Some? ==>
            && RoomTable(j.value.rooms, n)
            && j.value.index < |j.value.rooms|
            && j.value.rooms[j.value.index] == j.value.room.(lastActivity := Some(now))
            && j.value.room.roomId == Some(roomId)
            && IsMember(j.value.room.members, uid)
            && (forall i :: 0 <= i < |rooms| && i != j.value.index ==> j.value.rooms[i] == rooms[i])
            && |j.value.rooms| == |rooms| + (if FindFirst(rooms, HasRoomId(roomId)).None? then 1 else 0))
  {
    var found := FindFirst(rooms, HasRoomId(roomId));
    CreatedRoomShape(roomId, roomName, uid, now);
    if found.None? {
      var created := CreatedRoom(roomId, roomName, uid, now);
      if ValidRoom(created) {
        CreatedRoomStored(roomId, roomName, uid, now, n);
        RoomTableAppend(rooms, n, created.(lastActivity := Some(now)));
      }
    } else {
      var room := WithMember(rooms[found.value], uid, now);
      JoinedRoomStored(rooms[found.value], n, uid, now);
      RoomTableUpdate(rooms, n, found.value, room.(lastActivity := Some(now)));
    }
  }

  /** The position of the room with id `roomId`: `Room.findOne({ roomId })`. */
  function HasRoomId(roomId: string): RoomDoc -> bool {
    (r: RoomDoc) => r.roomId == Some(roomId)
  }

  /** `User.findOne({ username })`. */
  function HasUsername(username: string): DbUser -> bool {
    (u: DbUser) => u.username == username
  }

  /** `User.findOne({ socketId })`. */
  function HasSocket(s: SocketId): DbUser -> bool {
    (u: DbUser) => u.socketId == Some(s)
  }

  /** The collections refer only to stored users and hold only documents their
      schemas accept. */
  ghost predicate StoredState(users: seq<DbUser>, rooms: seq<RoomDoc>, messages: seq<MessageDoc>,
                              session: map<SocketId, nat>) {
    && (forall s :: s in session ==> session[s] < |users|)
    && RoomTable(rooms, |users|)
    && (forall i :: 0 <= i < |messages| ==> ValidMessage(messages[i]))
  }

  /** A successful join keeps the collections stored, and the room it reports has
      a name and members that are all stored users. */
  lemma JoinStored(users: seq<DbUser>, rooms: seq<RoomDoc>, messages: seq<MessageDoc>, session: map<SocketId, nat>,
                   uid: nat, roomId: string, roomName: string, now: int)
    requires StoredState(users, rooms, messages, session) && uid < |users|
    requires JoinRooms(rooms, uid, roomId, roomName, now).Some?
    ensures var j := JoinRooms(rooms, uid, roomId, roomName, now).value;
      && StoredState(users[uid := users[uid].(currentRoom := Some(roomId))], j.rooms, messages, session)
      && j.room.name.Some?
      && forall m :: m in j.room.members ==> m.user.Some? && m.user.value < |users|
  {
    var j := JoinRooms(rooms, uid, roomId, roomName, now).value;
    JoinRoomsEffect(rooms, |users|, uid, roomId, roomName, now);
    assert j.room.members == j.rooms[j.index].members;
    assert StoredRoom(j.rooms[j.index], |users|);
  }

  /** A saved room message and the room's activity stamp keep the collections
      stored. */
  lemma SaveStored(users: seq<DbUser>, rooms: seq<RoomDoc>, messages: seq<MessageDoc>, session: map<SocketId, nat>,
                   ri: nat, doc: MessageDoc, now: int)
    requires StoredState(users, rooms, messages, session) && ri < |rooms| && ValidMessage(doc)
    ensures StoredState(users, rooms[ri := rooms[ri].(lastActivity := Some(now))], messages + [Saved(doc, now)], session)
  {
    SavedKeepsValidity(doc, now);
    RoomTableUpdate(rooms, |users|, ri, rooms[ri].(lastActivity := Some(now)));
  }

  class Server {
    /** The User collection; a user's ObjectId is its position. */
    var users: seq<DbUser>
    /** The Room collection; a room's ObjectId is its position. */
    var rooms: seq<RoomDoc>
    /** The Message collection; a message's ObjectId is its position. */
    var messages: seq<MessageDoc>
    /** `socket.userId` of each socket that has sent `user_join`. */
    var session: map<SocketId, nat>
    var connected: set<SocketId>
    var adapter: Adapter
    /** The in-memory `users` map (server/index.js:90). */
    var memUsers: OMap<SocketId, MemUser>
    /** The in-memory `rooms` map (server/index.js:91). */
    var memRooms: OMap<string, MemRoom>

    /** The in-memory maps are only ever read and deleted from, never set, so they
        stay empty. */
    ghost predicate Valid()
      reads this
    {
      && memUsers.Valid() && memRooms.Valid() && Stored()
      && memUsers.keys == [] && memRooms.keys == []
    }

    ghost predicate Stored()
      reads this`users, this`rooms, this`messages, this`session
    {
      StoredState(users, rooms, messages, session)
    }

    constructor ()
      ensures Valid()
      ensures users == [] && rooms == [] && messages == [] && session == map[]
      ensures connected == {} && adapter == {}
      ensures memUsers == EmptyMap() && memRooms == EmptyMap()
    {
      users, rooms, messages, session := [], [], [], map[];
      connected, adapter := {}, {};
      memUsers, memRooms := EmptyMap(), EmptyMap();
    }

    /** A socket connects and joins the room named by its id. */
    method Connect(s: SocketId)
      requires Valid()
      modifies this
      ensures Valid()
      ensures connected == old(connected) + {s} && adapter == AddToRoom(old(adapter), s, s)
      ensures users == old(users) && rooms == old(rooms) && messages == old(messages) && session == old(session)
      ensures memUsers == old(memUsers) && memRooms == old(memRooms)
    {
      connected := connected + {s};
      adapter := AddToRoom(adapter, s, s);
    }

    /** The ten-minute cleanup (server/index.js:94-109), as one call at time `now`:
        exactly the stale user entries and the empty rooms go, the rest stay in
        order. */
    method Sweep(now: int)
      requires Valid()
      modifies this
      ensures Valid()
      ensures memUsers == OMap(KeptKeys(old(memUsers.keys), old(memUsers.table), StaleAt(now)),
                               KeptTable(old(memUsers.table), StaleAt(now)))
      ensures memRooms == OMap(KeptKeys(old(memRooms.keys), old(memRooms.table), EmptyRoom),
                               KeptTable(old(memRooms.table), EmptyRoom))
      ensures users == old(users) && rooms == old(rooms) && messages == old(messages) && session == old(session)
      ensures connected == old(connected) && adapter == old(adapter)
    {
      var keptUsers := SweepEntries(memUsers, StaleAt(now));
      var keptRooms := SweepEntries(memRooms, EmptyRoom);
      assert Stored();
      memUsers, memRooms := keptUsers, keptRooms;
    }

    /** `user_join` (server/index.js:116-177): find the user by name or create it,
        mark it online on this socket, remember it on the socket, and announce. */
    method UserJoin(s: SocketId, username: string, now: int) returns (out: seq<Emit>, uid: nat)
      requires Valid()
      modifies this
      ensures Valid()
      ensures rooms == old(rooms) && messages == old(messages) && connected == old(connected) && adapter == old(adapter)
      ensures memUsers == old(memUsers) && memRooms == old(memRooms)
      ensures session == old(session)[s := uid]
      // a new name creates exactly one user, online on this socket
      ensures FindFirst(old(users), HasUsername(username)).None? ==>
        uid == |old(users)| && users == old(users) + [DbUser(username, Some(s), true, now, None)]
      // a known name updates the first user with that name
      ensures FindFirst(old(users), HasUsername(username)).Some? ==>
        uid == FindFirst(old(users), HasUsername(username)).value
        && users == old(users)[uid := old(users)[uid].(socketId := Some(s), isOnline := true, lastSeen := now)]
      ensures out == [Emit({s}, UserJoined("Welcome to the chat, " + username + "!", s, Some(ObjectIdString(uid)))),
                      Emit({s}, OnlineUsers(OnlinePeers(users, uid, 0))),
                      Emit(BroadcastFrom(connected, s), UserOnline(Peer(username, s, Some(ObjectIdString(uid)), None)))]
    {
      var found := FindFirst(users, HasUsername(username));
      if found.None? {
        uid := |users|;
        users := users + [DbUser(username, Some(s), true, now, None)];
      } else {
        uid := found.value;
        users := users[uid := users[uid].(socketId := Some(s), isOnline := true, lastSeen := now)];
      }
      session := session[s := uid];
      out := [Emit({s}, UserJoined("Welcome to the chat, " + username + "!", s, Some(ObjectIdString(uid)))),
              Emit({s}, OnlineUsers(OnlinePeers(users, uid, 0))),
              Emit(BroadcastFrom(connected, s), UserOnline(Peer(username, s, Some(ObjectIdString(uid)), None)))];
    }

    /** `private_message` (server/index.js:180-227). The recipient is the first user
        whose `socketId` is the target; a record the Message schema refuses is not
        stored and the sender gets the catch block's error. */
    method PrivateMessage(s: SocketId, targetUserId: string, message: string, now: int) returns (out: seq<Emit>)
      requires Valid()
      modifies this
      ensures Valid()
      ensures users == old(users) && rooms == old(rooms) && session == old(session)
      ensures connected == old(connected) && adapter == old(adapter)
      ensures memUsers == old(memUsers) && memRooms == old(memRooms)
      ensures s !in session || FindFirst(users, HasSocket(targetUserId)).None? ==>
        out == [Emit({s}, Error("User not found"))] && messages == old(messages)
      ensures s in session && FindFirst(users, HasSocket(targetUserId)).Some? ==>
        var sender := users[session[s]];
        var rid := FindFirst(users, HasSocket(targetUserId)).value;
        var doc := PrivateMessageDoc(session[s], sender.username, rid, users[rid].username, message);
        && (!ValidMessage(doc) ==> out == [Emit({s}, Error("Failed to send message"))] && messages == old(messages))
        && (ValidMessage(doc) ==>
              var md := ChatMessage(Some(ObjectIdString(|old(messages)|)), sender.username, s, Some(targetUserId),
                                    message, now, "private", None);
              && messages == old(messages) + [Saved(doc, now)]
              && out == [Emit(ToOthersIn(adapter, targetUserId, s), ReceiveMessage(md)), Emit({s}, MessageSent(md))])
    {
      var found := FindFirst(users, HasSocket(targetUserId));
      if s !in session || found.None? {
        return [Emit({s}, Error("User not found"))];
      }
      var sender := users[session[s]];
      var rid := found.value;
      var doc := PrivateMessageDoc(session[s], sender.username, rid, users[rid].username, message);
      if !ValidMessage(doc) {
        return [Emit({s}, Error("Failed to send message"))];
      }
      SavedKeepsValidity(doc, now);
      var md := ChatMessage(Some(ObjectIdString(|messages|)), sender.username, s, Some(targetUserId),
                            message, now, "private", None);
      messages := messages + [Saved(doc, now)];
      out := [Emit(ToOthersIn(adapter, targetUserId, s), ReceiveMessage(md)), Emit({s}, MessageSent(md))];
    }

    /** `join_room` (server/index.js:230-315): leave the current room, find or create
        the room, add the user as a member once, and report the room's active
        members. A new room the Room schema refuses is not stored; the socket has
        already left its old room when the error goes out. */
    method JoinRoom(s: SocketId, roomId: string, roomName: string, now: int) returns (out: seq<Emit>)
      requires Valid()
      modifies this
      ensures Valid()
      ensures messages == old(messages) && session == old(session) && connected == old(connected)
      ensures memUsers == old(memUsers) && memRooms == old(memRooms)
      ensures s !in session ==>
        out == [Emit({s}, Error("User not found"))]
        && users == old(users) && rooms == old(rooms) && adapter == old(adapter)
      ensures s in session ==>
        var uid := session[s];
        var user := old(users)[uid];
        var left := LeaveCurrent(old(adapter), s, if user.currentRoom.Some? then user.currentRoom.value else "");
        var j := JoinRooms(old(rooms), uid, roomId, roomName, now);
        if j.None? then
          out == [Emit({s}, Error("Failed to join room"))]
          && users == old(users) && rooms == old(rooms) && adapter == left
        else
          && rooms == j.value.rooms
          && users == old(users)[uid := user.(currentRoom := Some(roomId))]
          && adapter == AddToRoom(left, s, roomId)
          && out == [Emit({s}, RoomJoined(roomId, j.value.room.name.value)),
                     Emit(ToOthersIn(adapter, roomId, s), UserJoinedRoom(user.username, s, roomId)),
                     Emit({s}, RoomUsers(ActiveMembers(j.value.room.members, users, s)))]
    {
      if s !in session {
        return [Emit({s}, Error("User not found"))];
      }
      var uid := session[s];
      var user := users[uid];
      var left := LeaveCurrent(adapter, s, if user.currentRoom.Some? then user.currentRoom.value else "");
      var j := JoinRooms(rooms, uid, roomId, roomName, now);
      if j.None? {
        adapter := left;
        return [Emit({s}, Error("Failed to join room"))];
      }
      JoinStored(users, rooms, messages, session, uid, roomId, roomName, now);
      var room := j.value.room;
      var joinedAdapter := AddToRoom(left, s, roomId);
      var newUsers := users[uid := user.(currentRoom := Some(roomId))];
      out := [Emit({s}, RoomJoined(roomId, room.name.value)),
              Emit(ToOthersIn(joinedAdapter, roomId, s), UserJoinedRoom(user.username, s, roomId)),
              Emit({s}, RoomUsers(ActiveMembers(room.members, newUsers, s)))];
      adapter, users, rooms := joinedAdapter, newUsers, j.value.rooms;
    }

    /** `room_message` (server/index.js:318-372): only a member of an existing room
        may post; the message goes to every socket in the room, the sender's too. */
    method RoomMessage(s: SocketId, roomId: string, message: string, now: int) returns (out: seq<Emit>)
      requires Valid()
      modifies this
      ensures Valid()
      ensures users == old(users) && session == old(session) && connected == old(connected) && adapter == old(adapter)
      ensures memUsers == old(memUsers) && memRooms == old(memRooms)
      ensures s !in session || FindFirst(old(rooms), HasRoomId(roomId)).None? ==>
        out == [Emit({s}, Error("Room or user not found"))] && rooms == old(rooms) && messages == old(messages)
      ensures s in session && FindFirst(old(rooms), HasRoomId(roomId)).Some? ==>
        var ri := FindFirst(old(rooms), HasRoomId(roomId)).value;
        var sender := users[session[s]];
        var doc := RoomMessageDoc(session[s], sender.username, ri, roomId, message);
        if !IsMember(old(rooms)[ri].members, session[s]) then
          out == [Emit({s}, Error("You are not a member of this room"))] && rooms == old(rooms) && messages == old(messages)
        else if !ValidMessage(doc) then
          out == [Emit({s}, Error("Failed to send room message"))] && rooms == old(rooms) && messages == old(messages)
        else
          && messages == old(messages) + [Saved(doc, now)]
          && rooms == old(rooms)[ri := old(rooms)[ri].(lastActivity := Some(now))]
          && out == [Emit(Members(adapter, roomId),
                          ReceiveMessage(ChatMessage(Some(ObjectIdString(|old(messages)|)), sender.username, s, None,
                                                     message, now, "room", Some(roomId))))]
    {
      var found := FindFirst(rooms, HasRoomId(roomId));
      if s !in session || found.None? {
        return [Emit({s}, Error("Room or user not found"))];
      }
      var ri := found.value;
      var sender := users[session[s]];
      if !IsMember(rooms[ri].members, session[s]) {
        return [Emit({s}, Error("You are not a member of this room"))];
      }
      var doc := RoomMessageDoc(session[s], sender.username, ri, roomId, message);
      if !ValidMessage(doc) {
        return [Emit({s}, Error("Failed to send room message"))];
      }
      SaveStored(users, rooms, messages, session, ri, doc, now);
      var mid := |messages|;
      var stamped := rooms[ri := rooms[ri].(lastActivity := Some(now))];
      messages, rooms := messages + [Saved(doc, now)], stamped;
      out := [Emit(Members(adapter, roomId),
                   ReceiveMessage(ChatMessage(Some(ObjectIdString(mid)), sender.username, s, None,
                                              message, now, "room", Some(roomId))))];
    }

    /** The sender as the typing handlers see it: its in-memory `users` entry. */
    function MemTypist(s: SocketId): Option<Typist>
      reads this
    {
      if s in memUsers.table then Some(Typist(memUsers.table[s].username, memUsers.table[s].currentRoom)) else None
    }

    /** `typing_start` (`starting`) and `typing_stop` (server/index.js:375-411):
        relayed only for a sender in the in-memory `users` map, which no handler
        ever fills. */
    method Typing(s: SocketId, data: TypingData, starting: bool) returns (out: seq<Emit>)
      requires Valid()
      ensures out == Relay(adapter, s, MemTypist(s), data, starting)
      ensures s !in memUsers.table ==> out == []
      ensures out == []
    {
      out := Relay(adapter, s, MemTypist(s), data, starting);
    }

    /** `disconnect` (server/index.js:414-454), after the transport has closed the
        socket and taken it out of every room. The user goes offline even when it
        has since joined again from another socket. */
    method Disconnect(s: SocketId, now: int) returns (out: seq<Emit>)
      requires Valid()
      modifies this
      ensures Valid()
      ensures connected == old(connected) - {s} && adapter == LeaveAll(old(adapter), s)
      ensures rooms == old(rooms) && messages == old(messages)
      ensures memUsers == old(memUsers) && memRooms == old(memRooms)
      ensures session == old(session) - {s}
      ensures s !in old(session) ==> out == [] && users == old(users)
      ensures s in old(session) ==>
        var uid := old(session)[s];
        var u := old(users)[uid];
        var inRoom := Truthy(u.currentRoom);
        && users == old(users)[uid := u.(isOnline := false, lastSeen := now, socketId := None,
                                          currentRoom := if inRoom then None else u.currentRoom)]
        && out == (if inRoom && FindFirst(rooms, HasRoomId(u.currentRoom.value)).Some?
                   then [Emit(ToOthersIn(adapter, u.currentRoom.value, s),
                              UserLeftRoom(u.username, s, u.currentRoom.value))]
                   else [])
                  + [Emit(BroadcastFrom(connected, s), UserOffline(u.username, s))]
    {
      connected := connected - {s};
      adapter := LeaveAll(adapter, s);
      if s !in session {
        return [];
      }
      var uid := session[s];
      session := session - {s};
      var u := users[uid];
      out := [];
      var inRoom := Truthy(u.currentRoom);
      if inRoom && FindFirst(rooms, HasRoomId(u.currentRoom.value)).Some? {
        out := [Emit(ToOthersIn(adapter, u.currentRoom.value, s), UserLeftRoom(u.username, s, u.currentRoom.value))];
      }
      users := users[uid := u.(isOnline := false, lastSeen := now, socketId := None,
                               currentRoom := if inRoom then None else u.currentRoom)];
      out := out + [Emit(BroadcastFrom(connected, s), UserOffline(u.username, s))];
    }
  }
}
