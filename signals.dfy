/**
 * The wire vocabulary of the socket.io signalling server (server/index.js):
 * the events a client may send, the payloads the server emits, and the
 * emission record `io.to(target).emit(event, payload)`.
 *
 * `S` stands for a WebRTC session description (an offer or an answer).
 * It is a type parameter with no characteristics, so no function of this
 * model can inspect, build or alter one: whatever description leaves the
 * server is one that came in.
 * `X` stands for the fields of a `room:join` request other than `email`
 * and `roomId`; the server echoes them back without looking at them.
 */
module Signals {

  /** A socket.io connection id. socket.io also uses it as the name of a room that holds that socket. */
  type SocketId = string

  // Inbound and outbound event names used by the handlers.
  const ROOM_JOIN := "room:join"
  const USER_JOINED := "user:joined"
  const CALL_INCOMING := "call:incoming"
  const CALL_ACCEPTED := "call:accepted"
  const NEGOTIATION_NEEDED := "peer:negotiation:needed"
  const NEGOTIATION_DONE := "peer:negotiation:done"
  const NEGOTIATION_FINAL := "peer:negotiation:final"
  const DISCONNECT := "disconnect"

  /** The object a client sends with `room:join`. */
  datatype JoinData<X> = JoinData(email: string, roomId: string, rest: X)

  /** One event received on a socket, with the fields its handler destructures. */
  datatype Inbound<S, X> =
    | RoomJoin(data: JoinData<X>)
    | CallIncoming(to: SocketId, offer: S)
    | CallAccepted(offererId: SocketId, answer: S)
    | NegotiationNeeded(answererId: SocketId, offer: S)
    | NegotiationDone(offererId: SocketId, answer: S)
    | Disconnect
  {
    /** The event name the handler is registered under. */
    function Name(): string {
      match this
      case RoomJoin(_) => ROOM_JOIN
      case CallIncoming(_, _) => CALL_INCOMING
      case CallAccepted(_, _) => CALL_ACCEPTED
      case NegotiationNeeded(_, _) => NEGOTIATION_NEEDED
      case NegotiationDone(_, _) => NEGOTIATION_DONE
      case Disconnect => DISCONNECT
    }

    /** The four events that only forward a session description to another socket. */
    predicate IsRelay() {
      CallIncoming? || CallAccepted? || NegotiationNeeded? || NegotiationDone?
    }

    /** Relay events that carry an offer (the sender is the offerer). */
    predicate CarriesOffer() {
      CallIncoming? || NegotiationNeeded?
    }

    /** The socket id the sender names as the recipient of a relay event. */
    function Addressee(): SocketId
      requires IsRelay()
    {
      match this
      case CallIncoming(to, _) => to
      case CallAccepted(o, _) => o
      case NegotiationNeeded(a, _) => a
      case NegotiationDone(o, _) => o
    }

    /** The session description a relay event carries. */
    function Description(): S
      requires IsRelay()
    {
      match this
      case CallIncoming(_, d) => d
      case CallAccepted(_, d) => d
      case NegotiationNeeded(_, d) => d
      case NegotiationDone(_, d) => d
    }
  }

  /** The payload of one emission. */
  datatype Payload<S, X> =
    | UserJoined(email: string, socketId: SocketId)
    | JoinEcho(data: JoinData<X>)
    | FromOfferer(offererId: SocketId, offer: S)
    | FromAnswerer(answererId: SocketId, answer: S)
  {
    predicate IsSignal() {
      FromOfferer? || FromAnswerer?
    }

    /** The socket id the server stamped on a forwarded description. */
    function Stamp(): SocketId
      requires IsSignal()
    {
      match this
      case FromOfferer(o, _) => o
      case FromAnswerer(a, _) => a
    }

    /** The forwarded session description. */
    function Description(): S
      requires IsSignal()
    {
      match this
      case FromOfferer(_, d) => d
      case FromAnswerer(_, d) => d
    }
  }

  /**
   * `io.to(target).emit(event, payload)`: a message addressed to the room
   * named `target`. Delivery is socket.io's business; the model only says
   * what is emitted and to which name.
   */
  datatype Emission<S, X> = Emission(target: string, event: string, payload: Payload<S, X>)
}
