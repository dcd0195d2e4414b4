/** The message box of src/components/MessageInput.jsx: the text being written, an
    `isTyping` flag and one re-armed timeout that ends the typing signal after a
    second without input. The timer queue is explicit: `pending` holds the timeouts
    armed and neither cleared nor fired, and a firing is a call of `TimeoutFires`.
    The component's props `selectedUser` and `currentRoom` are parameters. */
module MessageInput {
  import opened JsString
  import opened Events
  import opened SocketContext

  /** How long the box waits after the last keystroke, in milliseconds. */
  const TypingTimeout := 1000

  /** Where a typing signal goes: `startTyping(kind, id)` / `stopTyping(kind, id)`. */
  datatype Target = Target(kind: string, id: string)

  /** One call of the socket context's `startTyping` (`start`) or `stopTyping`. */
  datatype TypingCall = TypingCall(start: bool, target: Target)

  /** The selected user first, then the current room, then nowhere
      (src/components/MessageInput.jsx:32-36 and 55-59). */
  function TypingTarget(selectedUser: Option<Peer>, currentRoom: Option<RoomRef>): (t: Option<Target>)
    ensures selectedUser.Some? ==> t == Some(Target("private", selectedUser.value.userId))
    ensures selectedUser.None? && currentRoom.Some? ==> t == Some(Target("room", currentRoom.value.roomId))
    ensures t.None? <==> selectedUser.None? && currentRoom.None?
  {
    if selectedUser.Some? then Some(Target("private", selectedUser.value.userId))
    else if currentRoom.Some? then Some(Target("room", currentRoom.value.roomId))
    else None
  }

  /** The typing call for the current target, if there is one. */
  function Signal(start: bool, selectedUser: Option<Peer>, currentRoom: Option<RoomRef>): (calls: seq<TypingCall>)
    ensures |calls| <= 1
    ensures calls != [] <==> TypingTarget(selectedUser, currentRoom).Some?
    ensures calls != [] ==> calls[0].start == start && calls[0].target == TypingTarget(selectedUser, currentRoom).value
  {
    match TypingTarget(selectedUser, currentRoom)
    case None => []
    case Some(t) => [TypingCall(start, t)]
  }

  /** A key press submits exactly on Enter without Shift. */
  predicate SubmitsOn(key: string, shiftKey: bool) {
    key == "Enter" && !shiftKey
  }

  class InputBox {
    var message: string
    var isTyping: bool
    /** `typingTimeoutRef.current`. */
    var timeout: Option<nat>
    /** The timeouts armed and neither cleared nor fired. */
    var pending: set<nat>
    /** The id the next `setTimeout` returns. */
    var nextTimer: nat

    /** At most one timeout is ever pending, and the ref names it. */
    ghost predicate Valid()
      reads this
    {
      && (timeout.None? ==> pending == {})
      && (timeout.Some? ==> pending == {timeout.value} && timeout.value < nextTimer)
    }

    constructor ()
      ensures Valid()
      ensures message == "" && !isTyping && timeout.None? && pending == {}
    {
      message, isTyping, timeout, pending, nextTimer := "", false, None, {}, 1;
    }

    /** `handleStopTyping`: the stop signal goes out only while typing; the pending
        timeout is always cleared. */
    method StopTyping(selectedUser: Option<Peer>, currentRoom: Option<RoomRef>) returns (calls: seq<TypingCall>)
      requires Valid()
      modifies this
      ensures Valid()
      ensures calls == (if old(isTyping) then Signal(false, selectedUser, currentRoom) else [])
      ensures !isTyping && timeout.None? && pending == {}
      ensures message == old(message) && nextTimer == old(nextTimer)
    {
      calls := [];
      if isTyping {
        isTyping := false;
        calls := Signal(false, selectedUser, currentRoom);
      }
      if timeout.Some? {
        pending := pending - {timeout.value};
        timeout := None;
      }
    }

    /** `handleInputChange`: take the new text; start typing on the step from idle
        to a non-blank text; replace any pending timeout by a fresh one. */
    method InputChange(value: string, selectedUser: Option<Peer>, currentRoom: Option<RoomRef>)
      returns (calls: seq<TypingCall>)
      requires Valid()
      modifies this
      ensures Valid()
      ensures message == value
      ensures isTyping == (old(isTyping) || HasText(value))
      ensures calls == (if !old(isTyping) && HasText(value) then Signal(true, selectedUser, currentRoom) else [])
      ensures timeout == Some(old(nextTimer)) && pending == {old(nextTimer)} && nextTimer == old(nextTimer) + 1
      ensures old(timeout).Some? ==> old(timeout).value !in pending
    {
      message := value;
      calls := [];
      if !isTyping && HasText(value) {
        isTyping := true;
        calls := Signal(true, selectedUser, currentRoom);
      }
      if timeout.Some? {
        pending := pending - {timeout.value};
      }
      timeout := Some(nextTimer);
      pending := pending + {nextTimer};
      nextTimer := nextTimer + 1;
    }

    /** The armed timeout `id` runs its callback, `handleStopTyping`; a cleared
        timeout never runs. */
    method TimeoutFires(id: nat, selectedUser: Option<Peer>, currentRoom: Option<RoomRef>)
      returns (calls: seq<TypingCall>)
      requires Valid()
      modifies this
      ensures Valid()
      ensures id !in old(pending) ==>
        calls == [] && message == old(message) && isTyping == old(isTyping)
        && timeout == old(timeout) && pending == old(pending) && nextTimer == old(nextTimer)
      ensures id in old(pending) ==>
        && old(timeout) == Some(id)
        && calls == (if old(isTyping) then Signal(false, selectedUser, currentRoom) else [])
        && !isTyping && timeout.None? && pending == {}
        && message == old(message) && nextTimer == old(nextTimer)
    {
      calls := [];
      if id in pending {
        calls := StopTyping(selectedUser, currentRoom);
      }
    }

    /** `handleSubmit`: a non-blank text goes to `onSendMessage` untrimmed, the box
        is emptied and typing stops; a blank text does nothing. */
    method Submit(selectedUser: Option<Peer>, currentRoom: Option<RoomRef>)
      returns (sent: Option<string>, calls: seq<TypingCall>)
      requires Valid()
      modifies this
      ensures Valid()
      ensures !HasText(old(message)) ==>
        sent.None? && calls == [] && message == old(message) && isTyping == old(isTyping)
        && timeout == old(timeout) && pending == old(pending) && nextTimer == old(nextTimer)
      ensures HasText(old(message)) ==>
        && sent == Some(old(message)) && message == ""
        && calls == (if old(isTyping) then Signal(false, selectedUser, currentRoom) else [])
        && !isTyping && timeout.None? && pending == {} && nextTimer == old(nextTimer)
    {
      if !HasText(message) {
        return None, [];
      }
      sent := Some(message);
      message := "";
      calls := StopTyping(selectedUser, currentRoom);
    }

    /** `handleKeyPress`: Enter without Shift submits; any other key does nothing. */
    method KeyPress(key: string, shiftKey: bool, selectedUser: Option<Peer>, currentRoom: Option<RoomRef>)
      returns (sent: Option<string>, calls: seq<TypingCall>)
      requires Valid()
      modifies this
      ensures Valid()
      ensures !SubmitsOn(key, shiftKey) ==>
        sent.None? && calls == [] && message == old(message) && isTyping == old(isTyping)
        && timeout == old(timeout) && pending == old(pending) && nextTimer == old(nextTimer)
      // Enter alone is `handleSubmit`, with its whole effect
      ensures SubmitsOn(key, shiftKey) && !HasText(old(message)) ==>
        sent.None? && calls == [] && message == old(message) && isTyping == old(isTyping)
        && timeout == old(timeout) && pending == old(pending) && nextTimer == old(nextTimer)
      ensures SubmitsOn(key, shiftKey) && HasText(old(message)) ==>
        && sent == Some(old(message)) && message == ""
        && calls == (if old(isTyping) then Signal(false, selectedUser, currentRoom) else [])
        && !isTyping && timeout.None? && pending == {} && nextTimer == old(nextTimer)
    {
      sent, calls := None, [];
      if SubmitsOn(key, shiftKey) {
        sent, calls := Submit(selectedUser, currentRoom);
      }
    }
  }
}
