/** The Message document of server/models/Message.js: the fields a stored chat
    message has, the schema's validity rules, and its defaults. ObjectIds are
    natural numbers; an absent field is `None`. */
module MessageSchema {
  import opened JsString

  datatype MessageDoc = MessageDoc(
    sender: Option<nat>,
    senderUsername: Option<string>,
    content: Option<string>,
    kind: Option<string>,
    recipient: Option<nat>,
    recipientUsername: Option<string>,
    room: Option<nat>,
    roomId: Option<string>,
    edited: Option<bool>,
    createdAt: Option<int>)

  const MaxContentLength := 500

  /** The schema's validators; `required` on a String path is JavaScript
      truthiness (`Truthy`). The conditional requirements look only at `kind`:
      a private message needs its recipient, a room message its room. */
  predicate ValidMessage(m: MessageDoc) {
    && m.sender.Some?
    && Truthy(m.senderUsername)
    && Truthy(m.content) && Utf16Length(m.content.value) <= MaxContentLength
    && m.kind.Some? && m.kind.value in {"private", "room"}
    && (m.kind == Some("private") ==> m.recipient.Some? && Truthy(m.recipientUsername))
    && (m.kind == Some("room") ==> m.room.Some? && Truthy(m.roomId))
  }

  /** What saving adds: `edited` defaults to false, and `createdAt` is stamped. */
  function Saved(m: MessageDoc, now: int): (r: MessageDoc)
    ensures r.edited.Some? && (m.edited.None? ==> r.edited == Some(false))
    ensures r.createdAt == Some(now)
    ensures r.(edited := m.edited, createdAt := m.createdAt) == m
  {
    m.(edited := if m.edited.Some? then m.edited else Some(false), createdAt := Some(now))
  }

  /** Defaults and timestamps never decide validity. */
  lemma SavedKeepsValidity(m: MessageDoc, now: int)
    ensures ValidMessage(Saved(m, now)) <==> ValidMessage(m)
  {
  }

  /** The private message record of server/index.js:194-201. */
  function PrivateMessageDoc(sender: nat, senderName: string, recipient: nat, recipientName: string, content: string)
    : MessageDoc
  {
    MessageDoc(Some(sender), Some(senderName), Some(content), Some("private"),
               Some(recipient), Some(recipientName), None, None, None, None)
  }

  /** The room message record of server/index.js:338-345. */
  function RoomMessageDoc(sender: nat, senderName: string, room: nat, roomId: string, content: string): MessageDoc {
    MessageDoc(Some(sender), Some(senderName), Some(content), Some("room"),
               None, None, Some(room), Some(roomId), None, None)
  }

  /** A private record always meets the conditional requirements; whether it saves
      depends only on the two usernames and the content. */
  lemma PrivateMessageValidity(sender: nat, senderName: string, recipient: nat, recipientName: string, content: string)
    ensures ValidMessage(PrivateMessageDoc(sender, senderName, recipient, recipientName, content)) <==>
      senderName != "" && recipientName != "" && content != "" && Utf16Length(content) <= MaxContentLength
  {
  }

  /** A room record always meets the conditional requirements; whether it saves
      depends only on the sender's name, the room id and the content. */
  lemma RoomMessageValidity(sender: nat, senderName: string, room: nat, roomId: string, content: string)
    ensures ValidMessage(RoomMessageDoc(sender, senderName, room, roomId, content)) <==>
      senderName != "" && roomId != "" && content != "" && Utf16Length(content) <= MaxContentLength
  {
  }

  /** The conditional requirements of one kind never ask for the other kind's
      fields: a valid private message stays valid without room fields, and the
      other way round. */
  lemma ConditionalRequirementsIndependent(m: MessageDoc)
    requires ValidMessage(m)
    ensures m.kind == Some("private") ==> ValidMessage(m.(room := None, roomId := None))
    ensures m.kind == Some("room") ==> ValidMessage(m.(recipient := None, recipientUsername := None))
  {
  }
}
