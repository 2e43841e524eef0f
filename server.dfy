/**
 * The connection handlers of server/index.js over the server's state: the
 * two registry maps (module-level `Map`s in the source) and the room table
 * socket.io keeps. `room:join` and `disconnect` update that state in place;
 * the four relay events leave it alone.
 */
module Server {
  import opened Signals
  import opened EmailRegistry
  import opened Rooms
  import opened SignalRelay
  import opened EventLoop

  class SignalServer {
    var emailToSocketId: map<string, SocketId>
    var socketIdToEmail: map<SocketId, string>
    /** The `socket.join` calls the handlers have made (not socket.io's full membership). */
    var rooms: RoomTable

    /** The two registry maps as one value. */
    function Registered(): Registry
      reads this
    {
      Registry(emailToSocketId, socketIdToEmail)
    }

    /** The server as it starts: both maps empty, no room joined. */
    constructor ()
      ensures Registered() == Empty && rooms == map[]
    {
      emailToSocketId := map[];
      socketIdToEmail := map[];
      rooms := map[];
    }

    /** The `room:join` handler for socket `s`. */
    method RoomJoin<S, X>(s: SocketId, data: JoinData<X>) returns (out: seq<Emission<S, X>>)
      modifies this
      ensures Registered() == Join(old(Registered()), s, data.email)
      ensures rooms == AddMember(old(rooms), data.roomId, s)
      ensures out == JoinEmissions(s, data)
      ensures JoinedToTarget(rooms, out[0]) == Members(old(rooms), data.roomId) + {s}
    {
      var email, roomId := data.email, data.roomId;
      emailToSocketId := emailToSocketId[email := s];
      socketIdToEmail := socketIdToEmail[s := email];
      rooms := AddMember(rooms, roomId, s);
      out := [Emission(roomId, USER_JOINED, UserJoined(email, s))];
      out := out + [Emission(s, ROOM_JOIN, JoinEcho(data))];
    }

    /** The `disconnect` handler for socket `s`. It makes no `socket.join` call and removes nobody from a room. */
    method Disconnect(s: SocketId)
      modifies this
      ensures Registered() == Leave(old(Registered()), s)
      ensures rooms == old(rooms)
    {
      if s in socketIdToEmail {
        var email := socketIdToEmail[s];
        if Truthy(email) {
          emailToSocketId := emailToSocketId - {email};
          socketIdToEmail := socketIdToEmail - {s};
        }
      }
    }

    /**
     * One event arriving on socket `s`, handed to the handler registered
     * under its name. The relay events change no state and emit exactly one
     * message; `disconnect` emits nothing.
     */
    method Handle<S, X>(s: SocketId, ev: Inbound<S, X>) returns (out: seq<Emission<S, X>>)
      modifies this
      ensures Registered() == Apply(old(Registered()), Step(s, ev))
      ensures ev.RoomJoin? ==>
                && Registered() == Join(old(Registered()), s, ev.data.email)
                && rooms == AddMember(old(rooms), ev.data.roomId, s)
                && out == JoinEmissions(s, ev.data)
      ensures ev.IsRelay() ==> unchanged(this) && out == [Relay(s, ev)]
      ensures ev.Disconnect? ==>
                && Registered() == Leave(old(Registered()), s)
                && rooms == old(rooms)
                && out == []
    {
      match ev
      case RoomJoin(data) =>
        out := RoomJoin(s, data);
      case CallIncoming(_, _) =>
        out := [OnCallIncoming(s, ev)];
      case CallAccepted(_, _) =>
        out := [OnCallAccepted(s, ev)];
      case NegotiationNeeded(_, _) =>
        out := [OnNegotiationNeeded(s, ev)];
      case NegotiationDone(_, _) =>
        out := [OnNegotiationDone(s, ev)];
      case Disconnect =>
        Disconnect(s);
        out := [];
    }
  }

  /**
   * What a caller of the class can conclude from its contracts alone: the
   * same email joins from two sockets, and the first socket's disconnect
   * removes the email's entry although it points at the second socket.
   * The handlers remove nobody from a room, so the recorded `socket.join`
   * calls still hold both sockets (socket.io itself drops `s1` from its
   * rooms on disconnect, which is not modelled).
   */
  method DuplicateEmailScenario<S, X>(s1: SocketId, s2: SocketId, email: string, r: string, rest: X)
    returns (server: SignalServer)
    requires s1 != s2 && Truthy(email)
    ensures email !in server.emailToSocketId
    ensures s2 in server.socketIdToEmail && server.socketIdToEmail[s2] == email
    ensures s1 !in server.socketIdToEmail
    ensures Members(server.rooms, r) == {s1, s2}
  {
    server := new SignalServer();
    var out1: seq<Emission<S, X>> := server.RoomJoin(s1, JoinData(email, r, rest));
    var out2: seq<Emission<S, X>> := server.RoomJoin(s2, JoinData(email, r, rest));
    assert server.emailToSocketId[email] == s2;
    server.Disconnect(s1);
  }
}
