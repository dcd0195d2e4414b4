/** The "… is typing" line of src/components/TypingIndicator.jsx: the typing socket
    ids are resolved to names through the list that fits the chat, and the names are
    put into one sentence. `None` stands for rendering nothing. */
module TypingIndicator {
  import opened JsString
  import opened JsMap
  import opened Transport
  import opened Events

  /** The name shown for socket `id`: the first entry of `users` with that id, if its
      name is not empty (`filter(Boolean)` drops an empty name like a missing one). */
  function ResolveName(users: seq<Peer>, id: SocketId): (r: Option<string>)
    ensures r.Some? ==> r.value != "" && exists i :: 0 <= i < |users| && users[i].userId == id && users[i].username == r.value
    ensures r.Some? ==> var i := FindFirst(users, (u: Peer) => u.userId == id); i.Some? && users[i.value].username == r.value
    ensures r.None? <==>
      FindFirst(users, (u: Peer) => u.userId == id).None?
      || users[FindFirst(users, (u: Peer) => u.userId == id).value].username == ""
  {
    match FindFirst(users, (u: Peer) => u.userId == id)
    case None => None
    case Some(i) => if users[i].username != "" then Some(users[i].username) else None
  }

  /** `getTypingUsernames`: the resolved names, in the order of the typing ids. */
  function TypingNames(typing: seq<SocketId>, users: seq<Peer>): seq<string> {
    if typing == [] then [] else NameOf(users, typing[0]) + TypingNames(typing[1..], users)
  }

  /** The name of one id as a list: empty when the id does not resolve. */
  function NameOf(users: seq<Peer>, id: SocketId): seq<string> {
    match ResolveName(users, id) case Some(n) => [n] case None => []
  }

  /** Only non-empty names come out, at most one per id. */
  lemma {:induction false} TypingNamesShape(typing: seq<SocketId>, users: seq<Peer>)
    ensures |TypingNames(typing, users)| <= |typing|
    ensures forall i :: 0 <= i < |TypingNames(typing, users)| ==> TypingNames(typing, users)[i] != ""
  {
    if typing != [] {
      TypingNamesShape(typing[1..], users);
    }
  }

  /** No name comes out exactly when no id resolves. */
  lemma {:induction false} TypingNamesEmpty(typing: seq<SocketId>, users: seq<Peer>)
    ensures TypingNames(typing, users) == [] <==> forall id :: id in typing ==> ResolveName(users, id).None?
  {
    if typing != [] {
      assert forall id :: id in typing <==> id == typing[0] || id in typing[1..];
      TypingNamesEmpty(typing[1..], users);
    }
  }

  /** The ids resolve one by one, so the names keep the order of the ids. */
  lemma {:induction false} TypingNamesAppend(a: seq<SocketId>, b: seq<SocketId>, users: seq<Peer>)
    ensures TypingNames(a + b, users) == TypingNames(a, users) + TypingNames(b, users)
  {
    if a == [] {
      assert a + b == b;
    } else {
      assert (a + b)[0] == a[0] && (a + b)[1..] == a[1..] + b;
      TypingNamesAppend(a[1..], b, users);
    }
  }

  /** The list the names come from: room members in a room, online users
      otherwise. */
  function RelevantUsers(chatContext: string, roomUsers: seq<Peer>, onlineUsers: seq<Peer>): seq<Peer> {
    if chatContext == "room" then roomUsers else onlineUsers
  }

  /** `displayText` for one or more names. */
  function DisplayText(names: seq<string>): (text: string)
    requires names != []
  {
    if |names| == 1 then names[0] + " is typing..."
    else if |names| == 2 then names[0] + " and " + names[1] + " are typing..."
    else Join(names[..|names| - 1], ", ") + " and " + names[|names| - 1] + " are typing..."
  }

  /** The two-name case is the general rule for two: every list of two or more names
      reads "all but the last joined by commas, and the last". */
  lemma DisplayTextShape(names: seq<string>)
    requires names != []
    ensures |names| == 1 ==> DisplayText(names) == names[0] + " is typing..."
    ensures |names| >= 2 ==>
      DisplayText(names) == Join(names[..|names| - 1], ", ") + " and " + names[|names| - 1] + " are typing..."
  {
    if |names| == 2 {
      assert names[..1] == [names[0]];
    }
  }

  /** With three names the sentence is "A, B and C are typing...". */
  lemma DisplayTextOfThree(a: string, b: string, c: string)
    ensures DisplayText([a, b, c]) == a + ", " + b + " and " + c + " are typing..."
  {
    assert [a, b, c][..2] == [a] + [b];
    JoinSnoc([a], b, ", ");
  }

  /** What the component renders: nothing for an empty typing set or when no id
      resolves, otherwise the sentence for the resolved names. */
  function Indicator(typing: seq<SocketId>, chatContext: string, roomUsers: seq<Peer>, onlineUsers: seq<Peer>)
    : (r: Option<string>)
    ensures typing == [] ==> r.None?
    ensures r.None? <==>
      forall id :: id in typing ==> ResolveName(RelevantUsers(chatContext, roomUsers, onlineUsers), id).None?
    ensures r.Some? ==>
      var names := TypingNames(typing, RelevantUsers(chatContext, roomUsers, onlineUsers));
      names != [] && r.value == DisplayText(names)
  {
    if typing == [] then None
    else
      var names := TypingNames(typing, RelevantUsers(chatContext, roomUsers, onlineUsers));
      TypingNamesEmpty(typing, RelevantUsers(chatContext, roomUsers, onlineUsers));
      if names == [] then None else Some(DisplayText(names))
  }
}
