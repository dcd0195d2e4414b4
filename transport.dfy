/** socket.io's delivery model, made explicit: which sockets are connected,
    which rooms each socket is in, and who receives an emit.

    A socket belongs to the room named by its own id from the moment it connects,
    so `socket.to(id)` addresses one socket the same way `socket.to(room)`
    addresses a room. */
module Transport {

  type SocketId = string

  /** The room adapter: socket `s` is in room `r` when `(s, r)` is in the relation. */
  type Adapter = set<(SocketId, string)>

  /** The sockets in `room`. */
  function Members(adapter: Adapter, room: string): (r: set<SocketId>)
    ensures forall s :: s in r <==> (s, room) in adapter
  {
    set p | p in adapter && p.1 == room :: p.0
  }

  /** `socket.join(room)`. */
  function AddToRoom(adapter: Adapter, s: SocketId, room: string): Adapter {
    adapter + {(s, room)}
  }

  /** `socket.leave(room)`. */
  function RemoveFromRoom(adapter: Adapter, s: SocketId, room: string): Adapter {
    adapter - {(s, room)}
  }

  /** `if (current) socket.leave(current)`: leave the room the user was in, if any. */
  function LeaveCurrent(adapter: Adapter, s: SocketId, current: string): Adapter {
    if current != "" then RemoveFromRoom(adapter, s, current) else adapter
  }

  /** What socket.io does when a socket closes: it leaves every room. */
  function LeaveAll(adapter: Adapter, s: SocketId): Adapter {
    set p | p in adapter && p.0 != s
  }

  /** Joining a room adds the socket to that room and to no other. */
  lemma AddToRoomEffect(adapter: Adapter, s: SocketId, room: string, other: string)
    ensures Members(AddToRoom(adapter, s, room), room) == Members(adapter, room) + {s}
    ensures other != room ==> Members(AddToRoom(adapter, s, room), other) == Members(adapter, other)
  {
  }

  /** Leaving a room takes the socket out of that room and of no other. */
  lemma RemoveFromRoomEffect(adapter: Adapter, s: SocketId, room: string, other: string)
    ensures Members(RemoveFromRoom(adapter, s, room), room) == Members(adapter, room) - {s}
    ensures other != room ==> Members(RemoveFromRoom(adapter, s, room), other) == Members(adapter, other)
  {
  }

  /** A closed socket is in no room, and every other socket keeps its rooms. */
  lemma LeaveAllEffect(adapter: Adapter, s: SocketId, room: string)
    ensures Members(LeaveAll(adapter, s), room) == Members(adapter, room) - {s}
  {
  }

  /** `socket.to(room)`: the room's sockets except the sender. */
  function ToOthersIn(adapter: Adapter, room: string, sender: SocketId): (r: set<SocketId>)
    ensures sender !in r
    ensures forall s :: s in r <==> (s, room) in adapter && s != sender
  {
    Members(adapter, room) - {sender}
  }

  /** `socket.broadcast`: every connected socket except the sender. */
  function BroadcastFrom(connected: set<SocketId>, sender: SocketId): (r: set<SocketId>)
    ensures sender !in r
    ensures forall s :: s in r <==> s in connected && s != sender
  {
    connected - {sender}
  }
}
