/**
 The per-packet decision of forwardRTP (internal/media/session/forward.go): what is
 counted, what is dropped and what leaves on the other leg. Source acceptance, RTP
 decoding and DTMF decoding are inputs.
 */
module MediaForward {
  import opened Wrap
  import opened RtpTracker
  import opened RtpRewriter
  import opened Sdp
  import opened SdpNegotiation

  predicate CanSend(c: RemoteConfig) { c.direction == SendRecv || c.direction == SendOnly }

  predicate CanReceive(c: RemoteConfig) { c.direction == SendRecv || c.direction == RecvOnly }

  /** A decoded packet with what was found out about it before the decision. */
  datatype Arrival = Arrival(packet: Packet, accepted: bool, wellFormed: bool, dtmfDecodes: bool)

  predicate BothConfigured(source: Option<RemoteConfig>, destination: Option<RemoteConfig>) {
    source.Some? && destination.Some?
  }

  /** The packet reaches the tracker: accepted, well formed, between configured legs and under a mapped payload type. */
  predicate Counted(a: Arrival, source: Option<RemoteConfig>, destination: Option<RemoteConfig>) {
    && a.accepted && a.wellFormed && BothConfigured(source, destination)
    && PayloadMapping(a.packet.payloadType, source.value, destination.value).Some?
  }

  /** New, and both directions allow it. */
  predicate Due(class_: PacketClass, source: RemoteConfig, destination: RemoteConfig) {
    class_ != PacketDuplicate && CanSend(source) && CanReceive(destination)
  }

  predicate BadDtmf(a: Arrival, source: RemoteConfig) {
    source.hasDTMF && a.packet.payloadType == source.dtmfPT && !a.dtmfDecodes
  }

  /**
   One turn of the loop. The tracker sees exactly the counted packets; a packet leaves exactly when it is new
   and both directions allow it, as the next packet of the outbound stream under the mapped payload type. A packet
   between legs not yet configured is passed over.
   */
  method Forward(a: Arrival, source: Option<RemoteConfig>, destination: Option<RemoteConfig>, tracker: Tracker,
    rewriter: Rewriter)
    returns (out: Option<Packet>, invalid: bool)
    requires tracker.Valid() && rewriter.Valid()
    modifies tracker, tracker.seen, tracker.seenValid, rewriter
    ensures tracker.Valid() && rewriter.Valid()
    ensures tracker.Model() ==
      if && a.accepted && a.wellFormed && source.Some? && destination.Some?
         && PayloadMapping(a.packet.payloadType, source.value, destination.value).Some?
      then Observed(old(tracker.Model()), a.packet).0 else old(tracker.Model())
    ensures out.Some? <==>
      && a.accepted && a.wellFormed && source.Some? && destination.Some?
      && PayloadMapping(a.packet.payloadType, source.value, destination.value).Some?
      && (source.value.hasDTMF && a.packet.payloadType == source.value.dtmfPT ==> a.dtmfDecodes)
      && Observed(old(tracker.Model()), a.packet).1 != PacketDuplicate
      && (source.value.direction == SendRecv || source.value.direction == SendOnly)
      && (destination.value.direction == SendRecv || destination.value.direction == RecvOnly)
    ensures out.Some? ==>
      && Some(out.value.payloadType) == PayloadMapping(a.packet.payloadType, source.value, destination.value)
      && out.value.payload == a.packet.payload
      && rewriter.inputs == old(rewriter.inputs) + [a.packet] && rewriter.outputs == old(rewriter.outputs) + [out.value]
    ensures out.None? ==> rewriter.inputs == old(rewriter.inputs) && rewriter.outputs == old(rewriter.outputs)
    ensures invalid <==>
      || !a.accepted || !a.wellFormed
      || (BothConfigured(source, destination) &&
          if Counted(a, source, destination)
          then BadDtmf(a, source.value)
            && Due(Observed(old(tracker.Model()), a.packet).1, source.value, destination.value)
          else true)
  {
    out, invalid := None, false;
    if !a.accepted || !a.wellFormed {
      return None, true;
    }
    if source.None? || destination.None? {
      return;
    }
    var payload := PayloadMapping(a.packet.payloadType, source.value, destination.value);
    if payload.None? {
      return None, true;
    }
    var class_ := tracker.Observe(a.packet);
    if class_ == PacketDuplicate || !CanSend(source.value) || !CanReceive(destination.value) {
      return;
    }
    if source.value.hasDTMF && a.packet.payloadType == source.value.dtmfPT && !a.dtmfDecodes {
      return None, true;
    }
    var packet := rewriter.Rewrite(a.packet, payload.value);
    out := Some(packet);
  }
}
