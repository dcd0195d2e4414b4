/** Forwarding of `typing_start` / `typing_stop`, identical in both socket servers
    (server/index-simple.js:211-247 and server/index.js:375-411). The server keeps
    no typing state of its own: it relays the signal and forgets it. */
module TypingRelay {
  import opened JsString
  import opened Transport
  import opened Events

  /** The sender as the typing handlers see it. */
  datatype Typist = Typist(username: string, currentRoom: Option<string>)

  /** The private branch's guard: `data.type === 'private' && data.targetUserId`. */
  predicate PrivateSignal(data: TypingData) {
    data.kind == "private" && data.targetUserId != ""
  }

  /** The room branch's guard: `data.type === 'room' && data.roomId &&
      sender.currentRoom === data.roomId`. */
  predicate RoomSignal(sender: Typist, data: TypingData) {
    data.kind == "room" && data.roomId != "" && sender.currentRoom == Some(data.roomId)
  }

  /** The emits of `typing_start` (`starting`) or `typing_stop` from socket `s`,
      whose registered record is `sender` (None when the socket is unknown). */
  function Relay(adapter: Adapter, s: SocketId, sender: Option<Typist>, data: TypingData, starting: bool)
    : (out: seq<Emit>)
    ensures |out| <= 1
    ensures out != [] <==> sender.Some? && (PrivateSignal(data) || RoomSignal(sender.value, data))
    ensures out != [] ==> s !in out[0].to
    ensures out != [] && PrivateSignal(data) ==>
      out[0].to == ToOthersIn(adapter, data.targetUserId, s)
      && (if starting then out[0].event == UserTyping(sender.value.username, s, "private", None)
          else out[0].event == UserStoppedTyping(s, "private", None))
    ensures out != [] && !PrivateSignal(data) ==>
      out[0].to == ToOthersIn(adapter, data.roomId, s)
      && (if starting then out[0].event == UserTyping(sender.value.username, s, "room", Some(data.roomId))
          else out[0].event == UserStoppedTyping(s, "room", Some(data.roomId)))
  {
    match sender
    case None => []
    case Some(t) =>
      if PrivateSignal(data) then
        var ev := if starting then UserTyping(t.username, s, "private", None)
                  else UserStoppedTyping(s, "private", None);
        [Emit(ToOthersIn(adapter, data.targetUserId, s), ev)]
      else if RoomSignal(t, data) then
        var ev := if starting then UserTyping(t.username, s, "room", Some(data.roomId))
                  else UserStoppedTyping(s, "room", Some(data.roomId));
        [Emit(ToOthersIn(adapter, data.roomId, s), ev)]
      else []
  }

  /** A room signal only ever reaches sockets in the sender's current room. */
  lemma RoomSignalStaysInRoom(adapter: Adapter, s: SocketId, sender: Typist, data: TypingData, starting: bool,
                              x: SocketId)
    requires !PrivateSignal(data)
    requires Relay(adapter, s, Some(sender), data, starting) != []
    requires x in Relay(adapter, s, Some(sender), data, starting)[0].to
    ensures sender.currentRoom.Some? && (x, sender.currentRoom.value) in adapter && x != s
  {
  }
}
