/** The room registry of the realtime layer. Every authenticated socket has
    joined exactly one private room, named by its user's id, so the registry
    is a map from socket id to user id and a user's room is the set of sockets
    that map to that user. */
module Presence {
  import opened UserModel

  type SocketId = nat

  type Registry = map<SocketId, UserId>

  /** The sockets currently in the room named by `u`. */
  function Room(reg: Registry, u: UserId): set<SocketId>
  {
    set s | s in reg && reg[s] == u
  }

  /** `io.in(u).fetchSockets()` returns at least one socket. */
  predicate Online(reg: Registry, u: UserId)
  {
    exists s :: s in reg && reg[s] == u
  }

  lemma OnlineIffRoomNonEmpty(reg: Registry, u: UserId)
    ensures Online(reg, u) <==> Room(reg, u) != {}
  {
    if Online(reg, u) {
      var s :| s in reg && reg[s] == u;
      assert s in Room(reg, u);
    }
  }

  /** A join adds the socket to its own user's room and to no other. */
  lemma RoomAfterJoin(reg: Registry, s: SocketId, u: UserId, v: UserId)
    requires s !in reg
    ensures Room(reg[s := u], v) == if v == u then Room(reg, v) + {s} else Room(reg, v)
  {
  }

  /** A disconnect removes the socket from the room it was in and from nothing else. */
  lemma RoomAfterLeave(reg: Registry, s: SocketId, v: UserId)
    ensures Room(reg - {s}, v) == Room(reg, v) - {s}
  {
  }

  /** Two tabs of one user are both tracked; closing one leaves the other. */
  lemma TwoTabsThenLeave(reg: Registry, u: UserId, s1: SocketId, s2: SocketId)
    requires s1 !in reg && s2 !in reg && s1 != s2
    ensures Room(reg[s1 := u][s2 := u] - {s1}, u) == Room(reg, u) + {s2}
  {
    RoomAfterJoin(reg, s1, u, u);
    RoomAfterJoin(reg[s1 := u], s2, u, u);
    RoomAfterLeave(reg[s1 := u][s2 := u], s1, u);
  }
}
