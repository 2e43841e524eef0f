/**
 * Rooms as the handlers of server/index.js touch them: `socket.join(roomId)`
 * adds a socket to a named room, and `io.to(name).emit(...)` addresses the
 * room with that name. The table records only the `socket.join` calls the
 * handlers make. socket.io's own bookkeeping is not in it: the room named
 * by each socket's id, and the removal of a socket from every room when it
 * disconnects.
 */
module Rooms {
  import opened Signals

  type RoomTable = map<string, set<SocketId>>

  /** The sockets the handlers joined to room `r`; none if no handler joined one. */
  function Members(rooms: RoomTable, r: string): set<SocketId> {
    if r in rooms then rooms[r] else {}
  }

  /**
   * The sockets the handlers joined to an emission's target room. This is
   * not who socket.io delivers to: an emission addressed to a socket id has
   * none here unless some handler joined a room of that name.
   */
  function JoinedToTarget<S, X>(rooms: RoomTable, e: Emission<S, X>): set<SocketId> {
    Members(rooms, e.target)
  }

  /** `socket.join(r)` for socket `s`: `s` joins room `r`; no other room changes and nobody leaves. */
  function AddMember(rooms: RoomTable, r: string, s: SocketId): (rooms': RoomTable)
    ensures Members(rooms', r) == Members(rooms, r) + {s}
    ensures forall q :: q != r ==> Members(rooms', q) == Members(rooms, q)
    ensures rooms'.Keys == rooms.Keys + {r}
  {
    rooms[r := Members(rooms, r) + {s}]
  }

  /**
   * What `room:join` from socket `s` emits, in order: `user:joined` with the
   * email and `s` to the requested room, then the request object itself,
   * unchanged, back to `s` as `room:join`.
   */
  function JoinEmissions<S, X>(s: SocketId, data: JoinData<X>): (out: seq<Emission<S, X>>)
    ensures |out| == 2
    ensures out[0].target == data.roomId && out[0].event == USER_JOINED
    ensures out[0].payload.UserJoined? && out[0].payload.email == data.email && out[0].payload.socketId == s
    ensures out[1].target == s && out[1].event == ROOM_JOIN && out[1].payload == JoinEcho(data)
  {
    [Emission(data.roomId, USER_JOINED, UserJoined(data.email, s)),
     Emission(s, ROOM_JOIN, JoinEcho(data))]
  }

  /**
   * Because the joiner is joined to the room before `user:joined` is sent,
   * the notice's target room holds every earlier joiner and the joiner.
   */
  lemma JoinNoticeReachesJoiner<S, X>(rooms: RoomTable, s: SocketId, data: JoinData<X>)
    ensures var notice := JoinEmissions<S, X>(s, data)[0];
            && JoinedToTarget(AddMember(rooms, data.roomId, s), notice) == Members(rooms, data.roomId) + {s}
            && s in JoinedToTarget(AddMember(rooms, data.roomId, s), notice)
  {
  }
}
