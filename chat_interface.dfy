/** The chat screen of src/components/ChatInterface.jsx: which conversation is open
    (a selected user before the current room), where a typed message goes, the
    title and participants shown, and the map of private conversations. Chat
    history comes from the message routes, which are not part of this model: a
    loaded history is a parameter, `None` when the request brings no messages or
    fails. */
module ChatInterface {
  import opened JsString
  import opened JsMap
  import opened Events
  import opened SocketContext
  import opened MessageInput

  /** What the screen shows: a private chat, a room, or neither. */
  datatype Mode = PrivateChat(user: Peer) | RoomChat(room: RoomRef) | NoChat

  /** A selected user wins over the current room. */
  function ModeOf(selectedUser: Option<Peer>, currentRoom: Option<RoomRef>): (m: Mode)
    ensures selectedUser.Some? ==> m == PrivateChat(selectedUser.value)
    ensures selectedUser.None? && currentRoom.Some? ==> m == RoomChat(currentRoom.value)
    ensures m.NoChat? <==> selectedUser.None? && currentRoom.None?
  {
    if selectedUser.Some? then PrivateChat(selectedUser.value)
    else if currentRoom.Some? then RoomChat(currentRoom.value)
    else NoChat
  }

  /** `handleSendMessage`: a private message to the selected user, else a room
      message, else nothing; the socket context then applies its own checks. */
  function SendMessage(st: ClientState, selectedUser: Option<Peer>, message: string): (sent: seq<Request>)
    ensures selectedUser.Some? ==> sent == SendPrivateMessage(st, selectedUser.value.userId, message)
    ensures selectedUser.None? ==> sent == SendRoomMessage(st, message)
    ensures sent != [] ==> st.hasSocket && HasText(message)
    ensures selectedUser.None? && st.currentRoom.None? ==> sent == []
  {
    match ModeOf(selectedUser, st.currentRoom)
    case PrivateChat(u) => SendPrivateMessage(st, u.userId, message)
    case RoomChat(_) => SendRoomMessage(st, message)
    case NoChat => []
  }

  /** A message typed in the box goes where the box's typing signal goes: to the
      selected user's socket, or to the current room. */
  lemma SendFollowsTypingTarget(st: ClientState, selectedUser: Option<Peer>, message: string)
    requires st.hasSocket && HasText(message)
    ensures var t := TypingTarget(selectedUser, st.currentRoom);
      && (t.None? <==> SendMessage(st, selectedUser, message) == [])
      && (t.Some? && t.value.kind == "private" ==>
            SendMessage(st, selectedUser, message) == [PrivateMessage(t.value.id, Trim(message))])
      && (t.Some? && t.value.kind == "room" ==>
            SendMessage(st, selectedUser, message) == [RoomMessage(t.value.id, Trim(message))])
  {
  }

  /** A title: an icon, a space and a text. */
  function Titled(icon: char, text: string): (title: string)
    ensures |title| == |text| + 2 && title[0] == icon && title[1..] == " " + text
  {
    [icon] + " " + text
  }

  const PrivateIcon := '\U{1F4AC}'
  const RoomIcon := '\U{1F3E0}'
  const WaveIcon := '\U{1F44B}'
  const NoChatText := "Select a user or join a room to start chatting"

  /** `getChatTitle`. */
  function ChatTitle(selectedUser: Option<Peer>, currentRoom: Option<RoomRef>): (title: string)
    ensures selectedUser.Some? ==> title == Titled(PrivateIcon, "Private chat with " + selectedUser.value.username)
    ensures selectedUser.None? && currentRoom.Some? ==> title == Titled(RoomIcon, currentRoom.value.roomName)
  {
    match ModeOf(selectedUser, currentRoom)
    case PrivateChat(u) => Titled(PrivateIcon, "Private chat with " + u.username)
    case RoomChat(r) => Titled(RoomIcon, r.roomName)
    case NoChat => Titled(WaveIcon, NoChatText)
  }

  /** `getChatParticipants`: the selected user, else the room's users, else nobody. */
  function Participants(selectedUser: Option<Peer>, currentRoom: Option<RoomRef>, roomUsers: seq<Peer>)
    : (r: seq<Peer>)
    ensures selectedUser.Some? ==> r == [selectedUser.value]
    ensures selectedUser.None? && currentRoom.Some? ==> r == roomUsers
    ensures selectedUser.None? && currentRoom.None? ==> r == []
  {
    match ModeOf(selectedUser, currentRoom)
    case PrivateChat(u) => [u]
    case RoomChat(_) => roomUsers
    case NoChat => []
  }

  /** Title and participants follow the same priority: the title names the only
      participant of a private chat, and the greeting title comes exactly when
      nobody takes part. */
  lemma TitleMatchesParticipants(selectedUser: Option<Peer>, currentRoom: Option<RoomRef>, roomUsers: seq<Peer>)
    ensures var ps := Participants(selectedUser, currentRoom, roomUsers);
      var title := ChatTitle(selectedUser, currentRoom);
      && (selectedUser.Some? ==> |ps| == 1 && title == Titled(PrivateIcon, "Private chat with " + ps[0].username))
      && (title == Titled(WaveIcon, NoChatText) <==> ModeOf(selectedUser, currentRoom).NoChat?)
      && (title == Titled(WaveIcon, NoChatText) ==> ps == [])
  {
    var title := ChatTitle(selectedUser, currentRoom);
    assert title[0] == WaveIcon <==> ModeOf(selectedUser, currentRoom).NoChat?;
  }

  /** The length of a MongoDB ObjectId in hexadecimal digits. */
  const ObjectIdLength := 24

  /** The id `handleUserSelect` loads history with: `dbUserId || userId`, when it is
      24 characters long. */
  function HistoryKey(u: Peer): (key: Option<string>)
    ensures key.Some? ==> Utf16Length(key.value) == ObjectIdLength
    ensures Truthy(u.dbUserId) ==> (key.Some? <==> Utf16Length(u.dbUserId.value) == ObjectIdLength)
    ensures Truthy(u.dbUserId) && key.Some? ==> key.value == u.dbUserId.value
    ensures !Truthy(u.dbUserId) ==> (key.Some? <==> Utf16Length(u.userId) == ObjectIdLength)
    ensures !Truthy(u.dbUserId) && key.Some? ==> key.value == u.userId
  {
    var id := OrElse(if u.dbUserId.Some? then u.dbUserId.value else "", u.userId);
    if Utf16Length(id) == ObjectIdLength then Some(id) else None
  }

  /** A user listed by the database-backed server carries its ObjectId, so its
      history is always requested by that id, whatever its socket id is. */
  lemma ListedUserHasHistoryKey(username: string, socketId: string, id: nat, joinedAt: Option<int>)
    ensures HistoryKey(Peer(username, socketId, Some(ObjectIdString(id)), joinedAt)) == Some(ObjectIdString(id))
  {
    Utf16LengthBasic(ObjectIdString(id));
  }

  /** A private-conversation entry built from a `conversations` record: the id is
      used both as the socket id and as the database id. */
  datatype Conversation = Conversation(userId: string, username: string)

  function ConversationEntry(c: Conversation): (p: Peer)
    ensures p.userId == c.userId && p.dbUserId == Some(c.userId) && p.username == c.username
  {
    Peer(c.username, c.userId, Some(c.userId), None)
  }

  /** The `conversationMap`: one entry per `userId`, in first-seen order; a later
      record with the same id replaces the earlier one. */
  function ConversationMap(convs: seq<Conversation>): (m: OMap<string, Peer>)
    ensures m.Valid()
    ensures forall i :: 0 <= i < |convs| ==> convs[i].userId in m.table
  {
    if convs == [] then EmptyMap()
    else
      var front, last := convs[..|convs| - 1], convs[|convs| - 1];
      assert forall i :: 0 <= i < |front| ==> convs[i] == front[i];
      ConversationMap(front).Set(last.userId, ConversationEntry(last))
  }

  /** The map holds no key but the records' ids. */
  lemma {:induction false} ConversationMapKeys(convs: seq<Conversation>)
    ensures forall k :: k in ConversationMap(convs).table ==> exists i :: 0 <= i < |convs| && convs[i].userId == k
  {
    if convs != [] {
      var front, last := convs[..|convs| - 1], convs[|convs| - 1];
      var m, mf := ConversationMap(convs), ConversationMap(front);
      assert m.table == mf.table[last.userId := ConversationEntry(last)];
      ConversationMapKeys(front);
      forall k | k in m.table
        ensures exists i :: 0 <= i < |convs| && convs[i].userId == k
      {
        if k == last.userId {
          assert convs[|convs| - 1].userId == k;
        } else {
          var i :| 0 <= i < |front| && front[i].userId == k;
          assert convs[i] == front[i];
        }
      }
    }
  }

  /** Each entry is keyed by its own `userId`. */
  lemma {:induction false} ConversationMapEntries(convs: seq<Conversation>)
    ensures forall k :: k in ConversationMap(convs).table ==>
      ConversationMap(convs).table[k].userId == k && ConversationMap(convs).table[k].dbUserId == Some(k)
  {
    if convs != [] {
      var front, last := convs[..|convs| - 1], convs[|convs| - 1];
      var m, mf := ConversationMap(convs), ConversationMap(front);
      assert m.table == mf.table[last.userId := ConversationEntry(last)];
      ConversationMapEntries(front);
    }
  }

  /** The entry for an id is built from the last record with that id. */
  lemma {:induction false} ConversationMapLastWins(convs: seq<Conversation>, i: nat)
    requires i < |convs|
    requires forall j :: i < j < |convs| ==> convs[j].userId != convs[i].userId
    ensures ConversationMap(convs).table[convs[i].userId] == ConversationEntry(convs[i])
  {
    var front, last := convs[..|convs| - 1], convs[|convs| - 1];
    if i < |convs| - 1 {
      assert front[i] == convs[i];
      ConversationMapLastWins(front, i);
    }
  }

  class ChatView {
    var selectedUser: Option<Peer>
    /** `privateChatUsers`, keyed by `userId`. */
    var privateChatUsers: OMap<string, Peer>
    /** The message list on screen (the socket context's `messages`, which the view
        replaces through `setMessages`). */
    var messages: seq<ChatMessage>

    ghost predicate Valid()
      reads this
    {
      privateChatUsers.Valid()
    }

    constructor ()
      ensures Valid()
      ensures selectedUser.None? && privateChatUsers == EmptyMap() && messages == []
    {
      selectedUser, privateChatUsers, messages := None, EmptyMap(), [];
    }

    /** Loading the recent conversations: with a signed-in user, the conversation
        map replaces `privateChatUsers`. */
    method LoadConversations(signedIn: bool, convs: seq<Conversation>)
      requires Valid()
      modifies this
      ensures Valid()
      ensures privateChatUsers == (if signedIn then ConversationMap(convs) else old(privateChatUsers))
      ensures selectedUser == old(selectedUser) && messages == old(messages)
    {
      if signedIn {
        privateChatUsers := ConversationMap(convs);
      }
    }

    /** `handleUserSelect`: open the private chat, remember the user unless its
        `userId` is known already, and show its history when the id looks like an
        ObjectId; otherwise the list is emptied. Returns the id history was
        requested with. */
    method SelectUser(u: Peer, history: Option<seq<ChatMessage>>) returns (requested: Option<string>)
      requires Valid()
      modifies this
      ensures Valid()
      ensures selectedUser == Some(u)
      ensures privateChatUsers == Remember(old(privateChatUsers), u)
      ensures requested == HistoryKey(u)
      ensures messages == (if requested.Some? && history.Some? then history.value else [])
    {
      selectedUser := Some(u);
      privateChatUsers := Remember(privateChatUsers, u);
      requested := HistoryKey(u);
      if requested.Some? && history.Some? {
        messages := history.value;
      } else {
        messages := [];
      }
    }

    /** `handleRoomSelect`: leave the private chat, ask to join the room, and show
        the room's history (or nothing). Returns the room passed to `joinRoom`. */
    method SelectRoom(room: RoomRef, history: Option<seq<ChatMessage>>) returns (joined: RoomRef)
      requires Valid()
      modifies this
      ensures Valid()
      ensures selectedUser.None? && joined == room
      ensures privateChatUsers == old(privateChatUsers)
      ensures messages == (if history.Some? then history.value else [])
    {
      selectedUser := None;
      joined := room;
      messages := if history.Some? then history.value else [];
    }
  }

  /** What `handleUserSelect` does to the private-chat map: a user not yet in it is
      added last, a known one leaves it as it was. */
  function Remember(m: OMap<string, Peer>, u: Peer): (r: OMap<string, Peer>)
    requires m.Valid()
    ensures r.Valid()
    ensures u.userId in r.table
    ensures forall k :: k in m.table ==> k in r.table && r.table[k] == m.table[k]
    ensures forall k :: k in r.table ==> k in m.table || k == u.userId
    ensures u.userId !in m.table ==> r.keys == m.keys + [u.userId] && r.table[u.userId] == u
    ensures |m.keys| <= |r.keys| <= |m.keys| + 1 && r.keys[..|m.keys|] == m.keys
  {
    if u.userId in m.table then m else m.Set(u.userId, u)
  }

  /** Two selections of the same id in a row: the second changes nothing, and the
      entry is the record known before, or else the first selection's. */
  lemma {:induction false} SelectTwiceKeepsFirst(m: OMap<string, Peer>, first: Peer, second: Peer)
    requires m.Valid() && first.userId == second.userId
    ensures Remember(Remember(m, first), second) == Remember(m, first)
    ensures Remember(Remember(m, first), second).table[second.userId]
      == if first.userId in m.table then m.table[first.userId] else first
  {
    var m1 := Remember(m, first);
    assert second.userId in m1.table;
  }
}
