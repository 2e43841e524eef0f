/**
 * The four relay handlers of server/index.js. Each turns one event from
 * socket `sender` into exactly one emission addressed to the socket the
 * sender named, stamped with the sender's id, with the session description
 * passed on as it came. None of them reads or writes server state.
 */
module SignalRelay {
  import opened Signals

  /** `call:incoming {to, offer}` goes to `to` as `call:incoming {offererId: sender, offer}`. */
  function OnCallIncoming<S, X>(sender: SocketId, ev: Inbound<S, X>): (e: Emission<S, X>)
    requires ev.CallIncoming?
    ensures e.target == ev.Addressee() && e.event == ev.Name()
    ensures e.payload.FromOfferer? && e.payload.Stamp() == sender
    ensures e.payload.Description() == ev.Description()
  {
    Emission(ev.to, CALL_INCOMING, FromOfferer(sender, ev.offer))
  }

  /** `call:accepted {offererId, answer}` goes to the offerer as `call:accepted {answererId: sender, answer}`. */
  function OnCallAccepted<S, X>(sender: SocketId, ev: Inbound<S, X>): (e: Emission<S, X>)
    requires ev.CallAccepted?
    ensures e.target == ev.Addressee() && e.event == ev.Name()
    ensures e.payload.FromAnswerer? && e.payload.Stamp() == sender
    ensures e.payload.Description() == ev.Description()
  {
    Emission(ev.offererId, CALL_ACCEPTED, FromAnswerer(sender, ev.answer))
  }

  /** `peer:negotiation:needed {answererId, offer}` goes to the answerer under the same name, stamped `offererId: sender`. */
  function OnNegotiationNeeded<S, X>(sender: SocketId, ev: Inbound<S, X>): (e: Emission<S, X>)
    requires ev.NegotiationNeeded?
    ensures e.target == ev.Addressee() && e.event == ev.Name()
    ensures e.payload.FromOfferer? && e.payload.Stamp() == sender
    ensures e.payload.Description() == ev.Description()
  {
    Emission(ev.answererId, NEGOTIATION_NEEDED, FromOfferer(sender, ev.offer))
  }

  /** `peer:negotiation:done {offererId, answer}` is renamed: it goes to the offerer as `peer:negotiation:final {answererId: sender, answer}`. */
  function OnNegotiationDone<S, X>(sender: SocketId, ev: Inbound<S, X>): (e: Emission<S, X>)
    requires ev.NegotiationDone?
    ensures e.target == ev.Addressee() && e.event == NEGOTIATION_FINAL && e.event != ev.Name()
    ensures e.payload.FromAnswerer? && e.payload.Stamp() == sender
    ensures e.payload.Description() == ev.Description()
  {
    Emission(ev.offererId, NEGOTIATION_FINAL, FromAnswerer(sender, ev.answer))
  }

  /**
   * socket.io's dispatch of a relay event to its handler. Uniformly: the
   * emission goes to the addressee, carries the sender's id in the role
   * matching what the sender sent (offerer for an offer, answerer for an
   * answer) and the description unchanged, and keeps the inbound event
   * name except that `peer:negotiation:done` becomes `peer:negotiation:final`.
   */
  function Relay<S, X>(sender: SocketId, ev: Inbound<S, X>): (e: Emission<S, X>)
    requires ev.IsRelay()
    ensures e.target == ev.Addressee()
    ensures e.payload.IsSignal() && e.payload.Stamp() == sender
    ensures e.payload.Description() == ev.Description()
    ensures e.payload.FromOfferer? <==> ev.CarriesOffer()
    ensures e.event == if ev.NegotiationDone? then NEGOTIATION_FINAL else ev.Name()
  {
    match ev
    case CallIncoming(_, _) => OnCallIncoming(sender, ev)
    case CallAccepted(_, _) => OnCallAccepted(sender, ev)
    case NegotiationNeeded(_, _) => OnNegotiationNeeded(sender, ev)
    case NegotiationDone(_, _) => OnNegotiationDone(sender, ev)
  }

  /**
   * The call handshake closes: `a` offers a call to `b`; `b` accepts by
   * naming the `offererId` it received, as the client page does; the
   * answer then lands at `a`, stamped with `b`.
   */
  lemma CallRoundTrip<S, X>(a: SocketId, b: SocketId, offer: S, answer: S)
    ensures var delivered := OnCallIncoming<S, X>(a, CallIncoming(b, offer));
            var back := OnCallAccepted<S, X>(b, CallAccepted(delivered.payload.offererId, answer));
            && delivered.target == b && delivered.payload == FromOfferer(a, offer)
            && back.target == a && back.event == CALL_ACCEPTED && back.payload == FromAnswerer(b, answer)
  {
  }

  /**
   * Renegotiation closes the same way: `a` asks `b` to renegotiate; `b`
   * replies `peer:negotiation:done` to the `offererId` it received; `a`
   * gets `peer:negotiation:final` stamped with `b`.
   */
  lemma NegotiationRoundTrip<S, X>(a: SocketId, b: SocketId, offer: S, answer: S)
    ensures var delivered := OnNegotiationNeeded<S, X>(a, NegotiationNeeded(b, offer));
            var back := OnNegotiationDone<S, X>(b, NegotiationDone(delivered.payload.offererId, answer));
            && delivered.target == b && delivered.payload == FromOfferer(a, offer)
            && back.target == a && back.event == NEGOTIATION_FINAL && back.payload == FromAnswerer(b, answer)
  {
  }
}
