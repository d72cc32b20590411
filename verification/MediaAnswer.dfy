/**
 Offer/answer state of one session (applyMediaAnswer in internal/sip/b2bua/engine.go,
 handleReInviteCommand in in_dialog.go, Configure in internal/media/session/session.go):
 an answer is applied completely or not at all, the mapping is fixed once chosen, and
 when the legs are in step with what the callee was acknowledged.
 */
module MediaAnswer {
  import opened Wrap
  import opened Sdp
  import opened SdpRoundTrip
  import opened SdpNegotiation
  import opened CallActor
  import opened CallMailbox

  /** The remote side of one leg and the source ports learned for it; 0 means none. */
  datatype Leg = Leg(remote: Option<RemoteConfig>, learnedRtp: uint16, learnedRtcp: uint16)

  /** endpoint.configure: a new address forgets the learned ports. */
  function Configured(l: Leg, c: RemoteConfig): Leg {
    if l.remote.None? || l.remote.value.rtp != c.rtp || l.remote.value.rtcp != c.rtcp then Leg(Some(c), 0, 0)
    else l.(remote := Some(c))
  }

  /** The leg reaches endpoint e under these payload types; learned ports are kept only for an address already known. */
  ghost predicate Reaches(before: Leg, l: Leg, e: Endpoint, audioPT: uint8, dtmfPT: uint8, hasDTMF: bool) {
    && l.remote.Some? && l.remote.value.rtp == e.rtp && l.remote.value.rtcp == e.rtcp
    && l.remote.value.direction == e.direction
    && l.remote.value.audioPT == audioPT && l.remote.value.dtmfPT == dtmfPT && l.remote.value.hasDTMF == hasDTMF
    && (if before.remote.Some? && before.remote.value.rtp == e.rtp && before.remote.value.rtcp == e.rtcp
        then l.learnedRtp == before.learnedRtp && l.learnedRtcp == before.learnedRtcp
        else l.learnedRtp == 0 && l.learnedRtcp == 0)
  }

  /** What the callee's side of a re-INVITE brought back. */
  datatype Exchange = NoResponse | Response(code: int, body: Option<Description>, acked: bool)

  /**
   Unconfirmed: the answer is applied but the change of state did not come back as done, and the caller is sent 500.
   */
  datatype Outcome = Accepted(answer: Description) | Refused(code: int) | Unconfirmed

  /** The last offer sent to the callee and the body of its 2xx response. */
  datatype Dialog = Dialog(invite: Description, answer: Option<Description>)

  /** The last exchange the callee was acknowledged: the caller's offer and the answer, if it can be used. */
  datatype Accord = Accord(offer: Endpoint, answer: Option<Endpoint>)

  function StateFor(d: Direction): CallState { if d != SendRecv then Held else Answered }

  /** The mapping an answer to `offer` leads to: negotiated, and equal to the one already chosen if there is one. */
  function AgreedWith(offer: Endpoint, answer: Endpoint, chosen: Option<Mapping>): Option<Mapping> {
    var m := Negotiate(offer, answer);
    if m.Err? || (chosen.Some? && chosen.value != m.value) then None else Some(m.value)
  }

  /**
   The code a re-INVITE is refused with, if it is: nothing but the request, the callee and the mapping can refuse it.
   */
  function Refusal(request: Option<Description>, exchange: Exchange, chosen: Option<Mapping>): Option<int> {
    if request.None? || ParseAudio(request.value).Err? then Some(488)
    else if exchange.NoResponse? then Some(408)
    else if exchange.code < 200 || exchange.code >= 300 then Some(exchange.code)
    else if !exchange.acked then Some(503)
    else if exchange.body.None? || ParseAudio(exchange.body.value).Err? then Some(488)
    else if AgreedWith(ParseAudio(request.value).value, ParseAudio(exchange.body.value).value, chosen).None? then
      Some(488)
    else None
  }

  /** 488 for what cannot be used, 408 for silence, the callee's own code, 503 for a failed ACK, in this order. */
  lemma RefusalMeans(request: Option<Description>, exchange: Exchange, chosen: Option<Mapping>)
    ensures var r := Refusal(request, exchange, chosen);
      && (Usable(request).None? ==> r == Some(488))
      && (Usable(request).Some? && exchange.NoResponse? ==> r == Some(408))
      && (Usable(request).Some? && exchange.Response? && !(200 <= exchange.code <= 299) ==> r == Some(exchange.code))
      && (Usable(request).Some? && exchange.Response? && 200 <= exchange.code <= 299 && !exchange.acked ==>
          r == Some(503))
      && (Usable(request).Some? && exchange.Response? && 200 <= exchange.code <= 299 && exchange.acked ==>
            var e := Usable(exchange.body);
            var ok := e.Some? && var m := Negotiate(Usable(request).value, e.value);
              m.Ok? && (chosen.None? || chosen.value == m.value);
            r == if ok then None else Some(488))
  {
  }

  /** The callee answers a usable offer with 2xx. */
  predicate Is2xx(request: Option<Description>, exchange: Exchange) {
    request.Some? && ParseAudio(request.value).Ok? && exchange.Response? && 200 <= exchange.code < 300
  }

  predicate IsAcked2xx(request: Option<Description>, exchange: Exchange) { Is2xx(request, exchange) && exchange.acked }

  function Usable(body: Option<Description>): Option<Endpoint> {
    if body.Some? && ParseAudio(body.value).Ok? then Some(ParseAudio(body.value).value) else None
  }

  /** Where a request for `target` leaves a call once it is served. */
  function Reached(before: CallState, target: CallState, accepted: bool): CallState {
    if before == target || accepted then target else before
  }

  lemma AnswerIsPrintable(offer: Endpoint, answer: Endpoint, m: Mapping)
    requires ParsedCodecs(offer.codecs) && ParsedCodecs(answer.codecs) && SevenBit(offer.codecs)
    requires Negotiate(offer, answer) == Ok(m)
    ensures var cs := CodecListForAnswer(m); AllSupported(cs) && SevenBit(cs) && Coherent(cs)
  {
    var cs := CodecListForAnswer(m);
    AnswerIsFromOffer(offer, answer, m);
    forall i | 0 <= i < |cs| ensures IsSupported(cs[i]) && cs[i].payloadType < 128 {
      assert cs[i] in offer.codecs;
    }
    forall i, j | 0 <= i < j < |cs| && cs[i].payloadType == cs[j].payloadType ensures cs[i] == cs[j] {
      assert cs[i] in offer.codecs && cs[j] in offer.codecs;
    }
  }

  lemma {:induction false} CoherentCodecs(cs: seq<Codec>)
    requires ParsedCodecs(cs)
    ensures Coherent(cs)
  {
    forall i, j | 0 <= i < j < |cs| && cs[i].payloadType == cs[j].payloadType ensures cs[i] == cs[j] {
      assert cs[i] in cs && cs[j] in cs;
    }
  }

  lemma {:induction false} PrintedIsRead(host: Host, port: uint16, cs: seq<Codec>, d: Direction)
    requires host.Host? && 0 < port < 65535 && AllSupported(cs) && SevenBit(cs) && Coherent(cs) && HasAudioCodec(cs)
    ensures ParseAudio(Built(AddrPort(host, port), AddrPort(host, U16(port + 1)), cs, d)) ==
      Ok(Endpoint(AddrPort(host, port), AddrPort(host, port + 1), d, cs))
  {
    var rtp, rtcp := AddrPort(host, port), AddrPort(host, U16(port + 1));
    assert rtcp == AddrPort(host, port + 1);
    RoundTrip(rtp, rtcp, cs, d);
  }

  class Session {
    const advertised: Host
    const callerPort: uint16
    const calleePort: uint16
    const box: Mailbox
    var callerOffer: Endpoint
    var mediaMapping: Option<Mapping>
    var callerAnswer: Option<Description>
    var caller: Leg
    var callee: Leg
    var mediaStarted: bool
    var dialog: Dialog
    /** The answer the legs are configured from. */
    ghost var calleeAnswer: Endpoint
    ghost var acknowledged: Option<Accord>

    ghost predicate Valid()
      reads this
    {
      && advertised.Host?
      && ParsedCodecs(callerOffer.codecs)
      && (mediaMapping.Some? ==> Applied(mediaMapping.value)) && (callerAnswer.Some? ==> mediaMapping.Some?)
    }

    /** Both legs carry the mapping negotiated between the caller's offer and the callee's answer. */
    ghost predicate Applied(m: Mapping)
      reads this
    {
      && ParsedCodecs(calleeAnswer.codecs) && Negotiate(callerOffer, calleeAnswer) == Ok(m)
      && caller.remote == Some(CallerConfig(callerOffer, m)) && callee.remote == Some(CalleeConfig(calleeAnswer, m))
      && mediaStarted && callerAnswer.Some?
    }

    /** Both legs are configured from the exchange the callee was last acknowledged. */
    ghost predicate InStep()
      reads this
    {
      && acknowledged.Some? && acknowledged.value.answer.Some? && mediaMapping.Some?
      && var offer, answer, m := acknowledged.value.offer, acknowledged.value.answer.value, mediaMapping.value;
      && Negotiate(offer, answer) == Ok(m)
      && caller.remote == Some(CallerConfig(offer, m)) && callee.remote == Some(CalleeConfig(answer, m))
    }

    /** What is sent to the callee for an offer of the caller. */
    function Outbound(offer: Endpoint): Description
    {
      Built(AddrPort(advertised, calleePort), AddrPort(advertised, U16(calleePort + 1)), offer.codecs, offer.direction)
    }

    twostate predicate MediaUnchanged()
      reads this
    {
      && callerOffer == old(callerOffer) && mediaMapping == old(mediaMapping) && callerAnswer == old(callerAnswer)
      && caller == old(caller) && callee == old(callee) && mediaStarted == old(mediaStarted)
      && calleeAnswer == old(calleeAnswer)
    }

    constructor (advertised: Host, callerPort: uint16, calleePort: uint16, offer: Endpoint, box: Mailbox)
      requires advertised.Host? && ParsedCodecs(offer.codecs)
      ensures Valid() && callerOffer == offer && mediaMapping.None? && callerAnswer.None? && acknowledged.None?
      ensures this.box == box && dialog == Dialog(Outbound(offer), None)
    {
      this.advertised, this.callerPort, this.calleePort, this.box := advertised, callerPort, calleePort, box;
      callerOffer, calleeAnswer, acknowledged := offer, offer, None;
      mediaMapping, callerAnswer, mediaStarted := None, None, false;
      caller, callee := Leg(None, 0, 0), Leg(None, 0, 0);
      var rtp, rtcp := AddrPort(advertised, calleePort), AddrPort(advertised, U16(calleePort + 1));
      dialog := Dialog(Built(rtp, rtcp, offer.codecs, offer.direction), None);
    }

    /** The state after an answer that was applied: both legs, the mapping and the caller's answer set together. */
    twostate predicate AppliedAnswer(answer: Endpoint, m: Mapping, reply: Description)
      reads this
    {
      && calleeAnswer == answer && callerOffer == old(callerOffer)
      && mediaMapping == Some(m) && Applied(m)
      && caller == Configured(old(caller), CallerConfig(callerOffer, m))
      && callee == Configured(old(callee), CalleeConfig(answer, m))
      && Reaches(old(caller), caller, callerOffer, m.callerPT, m.callerDTMFPT, m.hasDTMF)
      && Reaches(old(callee), callee, answer, m.calleePT, m.calleeDTMFPT, m.hasDTMF)
      && callerAnswer == Some(reply) && dialog == old(dialog) && acknowledged == old(acknowledged)
      && reply == Reply(m, answer.direction)
    }

    function Agreed(answer: Endpoint): Option<Mapping>
      reads this
    {
      AgreedWith(callerOffer, answer, mediaMapping)
    }

    /**
     applyMediaAnswer for the offer in `callerOffer`: on an error nothing has changed; otherwise everything is
     set together, and a mapping already chosen is kept.
     */
    method ApplyMediaAnswer(body: Option<Description>) returns (r: Result<Description>)
      requires advertised.Host? && ParsedCodecs(callerOffer.codecs)
      modifies this
      ensures r.Err? ==> unchanged(this)
      ensures r.Ok? <==> body.Some? && ParseAudio(body.value).Ok? && old(Agreed(ParseAudio(body.value).value)).Some?
      ensures r.Ok? ==>
        && AppliedAnswer(ParseAudio(body.value).value, old(Agreed(ParseAudio(body.value).value)).value, r.value)
        && (old(mediaMapping).Some? ==> mediaMapping == old(mediaMapping))
    {
      if body.None? {
        return Err(NoAudio);
      }
      var parsed := ParseAudio(body.value);
      if parsed.Err? {
        return Err(parsed.error);
      }
      ParsedIsCoherent(body.value);
      r := ApplyParsed(parsed.value);
    }

    /** Both legs, or neither for a mapping that names no codec. */
    method Configure(answer: Endpoint, m: Mapping) returns (ok: bool)
      modifies `caller, `callee, `calleeAnswer
      ensures ok <==> m.name != "" && m.clockRate != 0
      ensures ok ==>
        && caller == Configured(old(caller), CallerConfig(callerOffer, m))
        && callee == Configured(old(callee), CalleeConfig(answer, m)) && calleeAnswer == answer
      ensures !ok ==> unchanged(this)
    {
      if m.name == "" || m.clockRate == 0 {
        return false;
      }
      caller := Configured(caller, CallerConfig(callerOffer, m));
      callee := Configured(callee, CalleeConfig(answer, m));
      calleeAnswer := answer;
      return true;
    }

    /** What the caller is answered, as text. */
    function Reply(m: Mapping, d: Direction): Description {
      Built(AddrPort(advertised, callerPort), AddrPort(advertised, U16(callerPort + 1)), CodecListForAnswer(m), d)
    }

    /** The caller reads from the answer the caller leg's own address and ports, the direction and the agreed codecs. */
    lemma ReplyIsRead(offer: Endpoint, answer: Endpoint, m: Mapping)
      requires advertised.Host? && 0 < callerPort < 65535 && ParsedCodecs(offer.codecs) && ParsedCodecs(answer.codecs)
      requires SevenBit(offer.codecs) && Negotiate(offer, answer) == Ok(m)
      ensures ParseAudio(Reply(m, answer.direction)) == Ok(
        Endpoint(AddrPort(advertised, callerPort), AddrPort(advertised, callerPort + 1), answer.direction,
                 CodecListForAnswer(m)))
    {
      AnswerIsFromOffer(offer, answer, m);
      AnswerIsPrintable(offer, answer, m);
      PrintedIsRead(advertised, callerPort, CodecListForAnswer(m), answer.direction);
    }

    /** The callee reads from what it is sent the callee leg's own address and ports, and the caller's offer. */
    lemma OutboundIsRead(offer: Endpoint)
      requires advertised.Host? && 0 < calleePort < 65535 && ParsedCodecs(offer.codecs)
      requires SevenBit(offer.codecs) && HasAudioCodec(offer.codecs)
      ensures ParseAudio(Outbound(offer)) == Ok(
        Endpoint(AddrPort(advertised, calleePort), AddrPort(advertised, calleePort + 1), offer.direction, offer.codecs))
    {
      CoherentCodecs(offer.codecs);
      PrintedIsRead(advertised, calleePort, offer.codecs, offer.direction);
    }

    /** Printing the answer cannot fail for a negotiated mapping, so nothing after Configure can. */
    method BuildReply(m: Mapping, d: Direction) returns (r: Result<Description>)
      requires advertised.Host? && HasAudioCodec(CodecListForAnswer(m))
      ensures r == Ok(Reply(m, d))
    {
      var rtp, rtcp := AddrPort(advertised, callerPort), AddrPort(advertised, U16(callerPort + 1));
      r := BuildAudio(rtp, rtcp, CodecListForAnswer(m), Some(d));
    }

    /** The mapping for the answer, which must be the one already chosen. */
    method NegotiateAnswer(answer: Endpoint) returns (r: Result<Mapping>)
      requires ParsedCodecs(callerOffer.codecs) && ParsedCodecs(answer.codecs)
      ensures r.Ok? <==> Agreed(answer).Some?
      ensures r.Ok? ==>
        && Agreed(answer) == Some(r.value) && Negotiate(callerOffer, answer) == r
        && r.value.name != "" && r.value.clockRate != 0 && HasAudioCodec(CodecListForAnswer(r.value))
    {
      r := Negotiate(callerOffer, answer);
      if r.Ok? {
        AnswerIsFromOffer(callerOffer, answer, r.value);
        if mediaMapping.Some? && mediaMapping.value != r.value {
          return Err(NoCommonCodec);
        }
      }
    }

    /** applyMediaAnswer after parsing. */
    method ApplyParsed(answer: Endpoint) returns (r: Result<Description>)
      requires advertised.Host? && ParsedCodecs(callerOffer.codecs) && ParsedCodecs(answer.codecs)
      modifies this
      ensures r.Err? ==> unchanged(this)
      ensures r.Ok? <==> old(Agreed(answer)).Some?
      ensures r.Ok? ==> AppliedAnswer(answer, old(Agreed(answer)).value, r.value)
    {
      var negotiated := NegotiateAnswer(answer);
      if negotiated.Err? {
        return Err(negotiated.error);
      }
      var m := negotiated.value;
      var configured := Configure(answer, m);
      if !configured {
        return Err(NoCommonCodec);
      }
      mediaMapping := Some(m);
      r := BuildReply(m, answer.direction);
      callerAnswer := Some(r.value);
      mediaStarted := true;
    }

    /** The new offer stays only with an answer that was applied. */
    method ApplyForOffer(offer: Endpoint, body: Option<Description>) returns (r: Result<Description>)
      requires Valid() && ParsedCodecs(offer.codecs)
      modifies this
      ensures r.Err? ==> unchanged(this)
      ensures r.Ok? <==>
        body.Some? && ParseAudio(body.value).Ok?
          && AgreedWith(offer, ParseAudio(body.value).value, old(mediaMapping)).Some?
      ensures r.Ok? ==>
        && Valid() && callerOffer == offer && callerAnswer == Some(r.value) && mediaMapping.Some?
        && ParseAudio(body.value) == Ok(calleeAnswer) && dialog == old(dialog) && acknowledged == old(acknowledged)
        && (old(mediaMapping).Some? ==> mediaMapping == old(mediaMapping))
    {
      var previousOffer := callerOffer;
      callerOffer := offer;
      r := ApplyMediaAnswer(body);
      if r.Err? {
        callerOffer := previousOffer;
      }
    }

    /**
     The final answer to the first INVITE: its body, if it has one, is applied; with an answer for the caller it is
     acknowledged, and then the legs are in step with it.
     */
    method HandleAnswer(hasBody: bool, body: Option<Description>, acked: bool) returns (refused: Option<int>)
      requires Valid()
      modifies this
      ensures Valid() && (old(mediaMapping).Some? ==> mediaMapping == old(mediaMapping))
      ensures dialog == old(dialog).(answer := if hasBody then body else None)
      ensures refused.None? <==>
        && acked
        && if hasBody then Usable(body).Some? && old(Agreed(Usable(body).value)).Some? else old(callerAnswer).Some?
      ensures refused == Some(503) ==> !acked
      ensures refused.Some? ==> refused == Some(503) || refused == Some(488)
      ensures refused == Some(488) <==>
        if hasBody then Usable(body).None? || old(Agreed(Usable(body).value)).None? else old(callerAnswer).None?
      ensures refused.None? ==> InStep() && acknowledged == Some(Accord(callerOffer, Some(calleeAnswer)))
      ensures refused.None? ==> callerOffer == old(callerOffer) && (hasBody ==> Usable(body) == Some(calleeAnswer))
    {
      dialog := dialog.(answer := if hasBody then body else None);
      if hasBody {
        var r := ApplyMediaAnswer(body);
        if r.Err? {
          return Some(488);
        }
      }
      if callerAnswer.None? {
        return Some(488);
      }
      if !acked {
        return Some(503);
      }
      acknowledged := Some(Accord(callerOffer, Some(calleeAnswer)));
      return None;
    }

    /**
     The exchange with the callee. A refusal leaves the media as it was, but the dialog has moved on with any 2xx; an
     acknowledged 2xx puts the legs in step exactly when it is not refused.
     */
    method Relay(request: Option<Description>, exchange: Exchange) returns (refused: Option<int>)
      requires Valid()
      modifies this
      ensures Valid() && (old(mediaMapping).Some? ==> mediaMapping == old(mediaMapping))
      ensures refused == Refusal(request, exchange, old(mediaMapping))
      ensures refused.Some? ==> MediaUnchanged()
      ensures refused.None? ==>
        && request.Some? && ParseAudio(request.value) == Ok(callerOffer) && callerAnswer.Some? && mediaMapping.Some?
        && exchange.Response? && Usable(exchange.body) == Some(calleeAnswer)
      ensures dialog ==
        if Is2xx(request, exchange) then Dialog(Outbound(ParseAudio(request.value).value), exchange.body)
          else old(dialog)
      ensures acknowledged ==
        if IsAcked2xx(request, exchange) then Some(Accord(ParseAudio(request.value).value, Usable(exchange.body)))
        else old(acknowledged)
    {
      if request.None? || ParseAudio(request.value).Err? {
        return Some(488);
      }
      var offer := ParseAudio(request.value).value;
      ParsedIsCoherent(request.value);
      var rtp, rtcp := AddrPort(advertised, calleePort), AddrPort(advertised, U16(calleePort + 1));
      var outbound := BuildAudio(rtp, rtcp, offer.codecs, Some(offer.direction));
      if outbound.Err? {
        return Some(488);
      }
      if exchange.NoResponse? {
        return Some(408);
      }
      if exchange.code < 200 || exchange.code >= 300 {
        return Some(exchange.code);
      }
      dialog := Dialog(outbound.value, exchange.body);
      if !exchange.acked {
        return Some(503);
      }
      acknowledged := Some(Accord(offer, Usable(exchange.body)));
      var answer := ApplyForOffer(offer, exchange.body);
      return if answer.Err? then Some(488) else None;
    }

    /**
     After an acknowledged 2xx the legs are in step exactly when it is not refused; otherwise that stays as it was.
     */
    twostate lemma StepIff(new request: Option<Description>, new exchange: Exchange)
      requires old(Valid()) && Valid() && (old(mediaMapping).Some? ==> mediaMapping == old(mediaMapping))
      requires Refusal(request, exchange, old(mediaMapping)).Some? ==> MediaUnchanged()
      requires Refusal(request, exchange, old(mediaMapping)).None? ==>
        && request.Some? && ParseAudio(request.value) == Ok(callerOffer) && mediaMapping.Some?
        && exchange.Response? && Usable(exchange.body) == Some(calleeAnswer)
      requires acknowledged ==
        if IsAcked2xx(request, exchange) then Some(Accord(ParseAudio(request.value).value, Usable(exchange.body)))
        else old(acknowledged)
      ensures InStep() <==>
        if IsAcked2xx(request, exchange) then Refusal(request, exchange, old(mediaMapping)).None? else old(InStep())
    {
    }

    /**
     handleReInviteCommand once nothing is pending. `service` says how the wait for the change of state ends and
     `change` holds what the environment answers to it. It is answered with 500 exactly when everything before
     succeeded and the change was not served in time or refused for a new state; a change that was queued is made all
     the same once the mailbox is worked off.
     */
    method HandleReInvite(request: Option<Description>, exchange: Exchange, change: Request, service: Service)
      returns (outcome: Outcome)
      requires Valid() && box.Valid()
      modifies this, box, box.actor
      ensures Valid() && box.Valid() && (old(mediaMapping).Some? ==> mediaMapping == old(mediaMapping))
      ensures (if outcome.Refused? then Some(outcome.code) else None) == Refusal(request, exchange, old(mediaMapping))
      ensures outcome.Refused? ==> MediaUnchanged() && unchanged(box) && unchanged(box.actor)
      ensures dialog ==
        if Is2xx(request, exchange) then Dialog(Outbound(ParseAudio(request.value).value), exchange.body)
          else old(dialog)
      ensures acknowledged ==
        if IsAcked2xx(request, exchange) then Some(Accord(ParseAudio(request.value).value, Usable(exchange.body)))
        else old(acknowledged)
      ensures InStep() <==> if IsAcked2xx(request, exchange) then !outcome.Refused? else old(InStep())
      ensures !outcome.Refused? ==>
        && request.Some? && ParseAudio(request.value) == Ok(callerOffer) && callerAnswer.Some?
        && exchange.Response? && Usable(exchange.body) == Some(calleeAnswer)
      ensures outcome.Accepted? ==> callerAnswer == Some(outcome.answer)
      ensures outcome.Unconfirmed? <==>
        && Refusal(request, exchange, old(mediaMapping)).None?
        && (old(box.closed) || service != InTime
            || (!change.accepted
              && old(box.Outlook()).call.state != StateFor(ParseAudio(request.value).value.direction)))
      ensures !outcome.Refused? && !old(box.closed) && (service == InTime || service == Late) ==>
        && !box.closed && (service == InTime ==> box.queued == [])
        && box.Outlook().call.state ==
           Reached(old(box.Outlook()).call.state, StateFor(callerOffer.direction), change.accepted)
      ensures !outcome.Refused? && !old(box.closed) && (service == InTime || service == Late) ==>
        && (change.accepted ==> (box.Outlook().call.state == Held <==> callerOffer.direction != SendRecv))
        && (change.accepted ==> (box.Outlook().call.state == Answered <==> callerOffer.direction == SendRecv))
        && (!change.accepted ==> box.Outlook().call.state == old(box.Outlook()).call.state)
      ensures !outcome.Refused? && service == NotQueued ==>
        box.Outlook() == old(box.Outlook()) && box.closed == old(box.closed)
      ensures old(box.closed) ==> box.closed && box.Outlook() == old(box.Outlook())
      ensures box.closed == (old(box.closed) || (!outcome.Refused? && service.Cancelled?))
    {
      var refused := Relay(request, exchange);
      StepIff(request, exchange);
      if refused.Some? {
        return Refused(refused.value);
      }
      var done := ChangeState(StateFor(callerOffer.direction), change, service);
      return if done then Accepted(callerAnswer.value) else Unconfirmed;
    }

    /** Asks for Answered or Held; what is queued is served before it. */
    method ChangeState(target: CallState, change: Request, service: Service) returns (done: bool)
      requires box.Valid() && InCall(target)
      modifies box, box.actor
      ensures box.Valid()
      ensures done <==>
        !old(box.closed) && service == InTime && (change.accepted || old(box.Outlook()).call.state == target)
      ensures !old(box.closed) && (service == InTime || service == Late) ==>
        && !box.closed && (service == InTime ==> box.queued == [])
        && box.Outlook().call.state == Reached(old(box.Outlook()).call.state, target, change.accepted)
      ensures service == NotQueued ==> box.Outlook() == old(box.Outlook()) && box.closed == old(box.closed)
      ensures old(box.closed) ==> box.closed && box.Outlook() == old(box.Outlook())
      ensures box.closed == (old(box.closed) || service.Cancelled?)
    {
      var r := change.(state := target);
      ghost var before, queued := box.actor.Model(), box.queued;
      if !box.closed {
        CalmStays(before, queued);
        CalmStep(Settled(before, queued), r);
        SettledAppend(before, queued, r);
      }
      var result := box.Transition(r, service);
      done := result == Replied(Done);
    }
  }

  // ---- Many re-INVITEs ----

  datatype Command = Command(request: Option<Description>, exchange: Exchange, change: Request, service: Service)

  predicate Acks(c: Command) { IsAcked2xx(c.request, c.exchange) }

  predicate IsApplied(c: Command, chosen: Option<Mapping>) { Refusal(c.request, c.exchange, chosen).None? }

  /** The last acknowledged answer, if there is one, was applied. */
  predicate LastWasApplied(cs: seq<Command>, chosen: Option<Mapping>) {
    if cs == [] then true
    else if Acks(cs[|cs| - 1]) then IsApplied(cs[|cs| - 1], chosen)
    else LastWasApplied(cs[..|cs| - 1], chosen)
  }

  ghost predicate IsLastAcked(cs: seq<Command>, l: int) {
    -1 <= l < |cs| && (l >= 0 ==> Acks(cs[l])) && forall i :: l < i < |cs| ==> !Acks(cs[i])
  }

  lemma {:induction false} LastMeans(cs: seq<Command>, chosen: Option<Mapping>, l: int)
    requires IsLastAcked(cs, l)
    ensures LastWasApplied(cs, chosen) <==> l < 0 || IsApplied(cs[l], chosen)
  {
    if l < |cs| - 1 {
      assert !Acks(cs[|cs| - 1]);
      LastMeans(cs[..|cs| - 1], chosen, l);
    }
  }

  /** The command's change of state is made: its answer is applied, the request queued and its event accepted. */
  predicate IsMade(c: Command, chosen: Option<Mapping>) {
    IsApplied(c, chosen) && (c.service == InTime || c.service == Late) && c.change.accepted
  }

  /** The command meets the actor's cancellation. */
  predicate Closes(c: Command, chosen: Option<Mapping>) { IsApplied(c, chosen) && c.service.Cancelled? }

  /** The caller offers to send and to receive. */
  predicate OffersBoth(c: Command) {
    c.request.Some? && ParseAudio(c.request.value).Ok? && ParseAudio(c.request.value).value.direction == SendRecv
  }

  /** The state a command leaves in a running call. */
  function After(before: CallState, c: Command, chosen: Option<Mapping>): CallState {
    if !IsMade(c, chosen) then before else if OffersBoth(c) then Answered else Held
  }

  /** The state commands leave in a call whose actor keeps running. */
  function AfterAll(before: CallState, cs: seq<Command>, chosen: Option<Mapping>): CallState {
    if cs == [] then before else After(AfterAll(before, cs[..|cs| - 1], chosen), cs[|cs| - 1], chosen)
  }

  ghost predicate IsLastMade(cs: seq<Command>, chosen: Option<Mapping>, l: int) {
    -1 <= l < |cs| && (l >= 0 ==> IsMade(cs[l], chosen)) && forall i :: l < i < |cs| ==> !IsMade(cs[i], chosen)
  }

  lemma {:induction false} LastMadePrefix(cs: seq<Command>, chosen: Option<Mapping>, l: int)
    requires IsLastMade(cs, chosen, l) && l < |cs| - 1
    ensures IsLastMade(cs[..|cs| - 1], chosen, l) && !IsMade(cs[|cs| - 1], chosen)
  {
    var p := cs[..|cs| - 1];
    forall i | l < i < |p| ensures !IsMade(p[i], chosen) {
      assert p[i] == cs[i];
    }
  }

  /** The state is that of the last change made: Held exactly when its offer was not sendrecv. */
  lemma {:induction false} AfterMeans(before: CallState, cs: seq<Command>, chosen: Option<Mapping>, l: int)
    requires IsLastMade(cs, chosen, l)
    ensures AfterAll(before, cs, chosen) == if l < 0 then before else if OffersBoth(cs[l]) then Answered else Held
  {
    if l < |cs| - 1 {
      LastMadePrefix(cs, chosen, l);
      AfterMeans(before, cs[..|cs| - 1], chosen, l);
    }
  }

  /** Whether the legs are in step, and the state the call is in or comes to; None once the actor is closed. */
  datatype Standing = Standing(inStep: bool, state: Option<CallState>)

  function Next(st: Standing, c: Command, chosen: Option<Mapping>): Standing {
    Standing(
      if Acks(c) then IsApplied(c, chosen) else st.inStep,
      if st.state.None? || Closes(c, chosen) then None else Some(After(st.state.value, c, chosen)))
  }

  function NextAll(st: Standing, cs: seq<Command>, chosen: Option<Mapping>): Standing {
    if cs == [] then st else Next(NextAll(st, cs[..|cs| - 1], chosen), cs[|cs| - 1], chosen)
  }

  lemma {:induction false} NextAllNext(st: Standing, cs: seq<Command>, chosen: Option<Mapping>, i: nat)
    requires i < |cs|
    ensures NextAll(st, cs[..i + 1], chosen) == Next(NextAll(st, cs[..i], chosen), cs[i], chosen)
  {
    assert cs[..i + 1][..i] == cs[..i];
  }

  predicate AnyCloses(cs: seq<Command>, chosen: Option<Mapping>) {
    cs != [] && (Closes(cs[|cs| - 1], chosen) || AnyCloses(cs[..|cs| - 1], chosen))
  }

  /**
   In step if the last acknowledged answer was applied, open if no command closed the actor, in the state made last.
   */
  lemma {:induction false} StandingMeans(st: Standing, cs: seq<Command>, chosen: Option<Mapping>)
    requires st.inStep
    ensures var r := NextAll(st, cs, chosen);
      && (r.inStep <==> LastWasApplied(cs, chosen))
      && (r.state.None? <==> st.state.None? || AnyCloses(cs, chosen))
      && (r.state.Some? ==> st.state.Some? && r.state.value == AfterAll(st.state.value, cs, chosen))
  {
    if cs != [] {
      StandingMeans(st, cs[..|cs| - 1], chosen);
    }
  }

  ghost function StandingOf(s: Session): Standing
    reads s, s.box, s.box.actor
  {
    Standing(s.InStep(), if s.box.closed then None else Some(s.box.Outlook().call.state))
  }

  method HandleCommand(s: Session, c: Command)
    requires s.Valid() && s.box.Valid() && s.mediaMapping.Some?
    modifies s, s.box, s.box.actor
    ensures s.Valid() && s.box.Valid() && s.mediaMapping == old(s.mediaMapping)
    ensures StandingOf(s) == Next(old(StandingOf(s)), c, old(s.mediaMapping))
  {
    var _ := s.HandleReInvite(c.request, c.exchange, c.change, c.service);
  }

  method HandleCommands(s: Session, cs: seq<Command>)
    requires s.Valid() && s.box.Valid() && s.mediaMapping.Some?
    modifies s, s.box, s.box.actor
    ensures s.Valid() && s.box.Valid() && s.mediaMapping == old(s.mediaMapping)
    ensures StandingOf(s) == NextAll(old(StandingOf(s)), cs, old(s.mediaMapping))
  {
    ghost var st, chosen := StandingOf(s), s.mediaMapping;
    for i := 0 to |cs|
      invariant s.Valid() && s.box.Valid() && s.mediaMapping == chosen
      invariant StandingOf(s) == NextAll(st, cs[..i], chosen)
    {
      NextAllNext(st, cs, chosen, i);
      HandleCommand(s, cs[i]);
    }
    assert cs[..|cs|] == cs;
  }

  /**
   Over any re-INVITEs of an answered call the mapping stays, and the legs are in step with what the callee was last
   acknowledged exactly when that answer was not refused. While the actor runs the call's state is that of the last
   change made.
   */
  method HandleReInvites(s: Session, cs: seq<Command>)
    requires s.Valid() && s.box.Valid() && s.InStep()
    modifies s, s.box, s.box.actor
    ensures s.Valid() && s.box.Valid() && s.mediaMapping == old(s.mediaMapping)
    ensures s.InStep() <==> LastWasApplied(cs, old(s.mediaMapping))
    ensures s.box.closed <==> old(s.box.closed) || AnyCloses(cs, old(s.mediaMapping))
    ensures !s.box.closed ==>
      s.box.Outlook().call.state == AfterAll(old(s.box.Outlook().call.state), cs, old(s.mediaMapping))
  {
    StandingMeans(StandingOf(s), cs, s.mediaMapping);
    HandleCommands(s, cs);
  }

  // ---- Re-INVITEs that end half way ----

  function Party(address: string, d: Direction): Endpoint {
    Endpoint(AddrPort(Host(address), 4000), AddrPort(Host(address), 4001), d, [Codec("PCMU", 0, 8000)])
  }

  function PartyText(address: string, d: Direction): Description {
    Built(AddrPort(Host(address), 4000), AddrPort(Host(address), 4001), [Codec("PCMU", 0, 8000)], d)
  }

  lemma PartyParses(address: string, d: Direction)
    ensures ParseAudio(PartyText(address, d)) == Ok(Party(address, d)) && ParsedCodecs(Party(address, d).codecs)
  {
    var e := Party(address, d);
    assert IsAudio(e.codecs[0]) && IsSupported(e.codecs[0]);
    RoundTripIff(e.rtp, e.rtcp, e.codecs, d);
  }

  /** Two parties agree on PCMU, and a mapping once chosen is chosen again. */
  lemma PartiesAgree(a: string, b: string, d: Direction, e: Direction)
    ensures Negotiate(Party(a, d), Party(b, e)) == Ok(Mapping("PCMU", 8000, 0, 0, 0, 0, false))
  {
    var c := Codec("PCMU", 0, 8000);
    assert IsAudio(c) && Matches(c, c) && c.name != "TELEPHONE-EVENT";
    assert [c][1..] == [];
    assert FindMatch([c], c) == Some(c) && FindCodec([c], "TELEPHONE-EVENT") == None;
  }

  /** A call answered with sendrecv media between the two parties. */
  method AnsweredSession() returns (s: Session)
    ensures fresh(s) && fresh(s.box) && fresh(s.box.actor) && s.Valid() && s.InStep()
    ensures !s.box.closed && s.box.queued == [] && s.box.actor.call.state == Answered
    ensures s.callerOffer == Party("a", SendRecv) && s.calleeAnswer == Party("b", SendRecv)
    ensures s.mediaMapping == Some(Mapping("PCMU", 8000, 0, 0, 0, 0, false))
  {
    PartyParses("a", SendRecv);
    PartyParses("b", SendRecv);
    PartiesAgree("a", "b", SendRecv, SendRecv);
    var actor := new CallActor("call");
    var _ := actor.Apply(Request(Routing, "", 1, 1, true));
    var _ := actor.Apply(Request(Answered, "", 2, 2, true));
    var box := new Mailbox(actor);
    s := new Session(Host("pbx"), 5000, 5002, Party("a", SendRecv), box);
    var _ := s.HandleAnswer(true, Some(PartyText("b", SendRecv)), true);
  }

  lemma HoldIsNotRefused()
    ensures Refusal(Some(PartyText("a", SendOnly)), Response(200, Some(PartyText("b", RecvOnly)), true),
                    Some(Mapping("PCMU", 8000, 0, 0, 0, 0, false))).None?
    ensures ParseAudio(PartyText("a", SendOnly)) == Ok(Party("a", SendOnly))
    ensures ParseAudio(PartyText("b", RecvOnly)) == Ok(Party("b", RecvOnly))
  {
    PartyParses("a", SendOnly);
    PartyParses("b", RecvOnly);
    PartiesAgree("a", "b", SendOnly, RecvOnly);
  }

  /** A hold of an answered call under the given service and publisher. */
  method Hold(accepted: bool, service: Service) returns (s: Session, outcome: Outcome)
    requires service == InTime || service == Late
    ensures fresh(s) && fresh(s.box) && fresh(s.box.actor) && s.Valid() && s.box.Valid() && !s.box.closed
    ensures outcome.Unconfirmed? <==> !(service == InTime && accepted)
    ensures s.callerOffer == Party("a", SendOnly) && s.calleeAnswer == Party("b", RecvOnly) && s.InStep()
    ensures s.caller.remote.Some? && s.caller.remote.value.direction == SendOnly
    ensures s.callee.remote.Some? && s.callee.remote.value.direction == RecvOnly
    ensures s.box.Outlook().call.state == if accepted then Held else Answered
    ensures service == InTime ==> s.box.queued == []
  {
    s := AnsweredSession();
    HoldIsNotRefused();
    assert RunAll(s.box.actor.Model(), []).0 == s.box.actor.Model();
    outcome := s.HandleReInvite(
      Some(PartyText("a", SendOnly)), Response(200, Some(PartyText("b", RecvOnly)), true),
      Request(Held, "", 3, 3, accepted), service);
  }

  /**
   The change of state is refused: the caller is sent 500 and the call stays Answered, but offer, legs and answer are
   those of the hold.
   */
  method RefusedHoldStays() returns (s: Session, outcome: Outcome)
    ensures outcome == Unconfirmed && s.box.actor.call.state == Answered
    ensures s.callerOffer == Party("a", SendOnly) && s.calleeAnswer == Party("b", RecvOnly)
    ensures s.caller.remote.Some? && s.caller.remote.value.direction == SendOnly
  {
    s, outcome := Hold(false, InTime);
    assert RunAll(s.box.actor.Model(), []).0 == s.box.actor.Model();
  }

  /** The change of state is served too late: the caller is sent 500 and the call is put on hold all the same. */
  method TimedOutHoldIsMade() returns (s: Session, outcome: Outcome)
    ensures outcome == Unconfirmed && s.box.queued == [] && s.box.actor.call.state == Held
    ensures s.callerOffer == Party("a", SendOnly)
  {
    s, outcome := Hold(true, Late);
    assert s.box.queued[..|s.box.queued|] == s.box.queued;
    s.box.Serve(|s.box.queued|);
  }

  /**
   A 200 without a usable body is acknowledged and then refused with 488: the dialog holds the new exchange, the legs
   the old one, and they are out of step.
   */
  method UnusableAnswerIsAcknowledged() returns (s: Session, outcome: Outcome)
    ensures outcome == Refused(488) && !s.InStep()
    ensures s.dialog == Dialog(s.Outbound(Party("a", SendOnly)), None)
    ensures s.callerOffer == Party("a", SendRecv) && s.calleeAnswer == Party("b", SendRecv)
  {
    s := AnsweredSession();
    PartyParses("a", SendOnly);
    outcome := s.HandleReInvite(
      Some(PartyText("a", SendOnly)), Response(200, None, true), Request(Held, "", 3, 3, true), InTime);
  }
}
