/**
 Choosing a codec for the two legs and mapping payload types between them
 (internal/sip/sdp/audio.go, internal/media/session/forward.go; section 6.1 of RFC 3264).
 */
module SdpNegotiation {
  import opened Wrap
  import opened Sdp
  import opened SdpRoundTrip

  datatype Mapping = Mapping(
    name: string, clockRate: uint32, callerPT: uint8, calleePT: uint8, callerDTMFPT: uint8, calleeDTMFPT: uint8,
      hasDTMF: bool)

  predicate Matches(a: Codec, b: Codec) { a.name == b.name && a.clockRate == b.clockRate }

  /** The first codec with the name. */
  function FindCodec(cs: seq<Codec>, name: string): Option<Codec> {
    if cs == [] then None else if cs[0].name == name then Some(cs[0]) else FindCodec(cs[1..], name)
  }

  function FindMatch(cs: seq<Codec>, c: Codec): Option<Codec> {
    if cs == [] then None else if Matches(cs[0], c) then Some(cs[0]) else FindMatch(cs[1..], c)
  }

  function MappingOf(offered: Codec, answered: Codec, callerDTMF: Option<Codec>, calleeDTMF: Option<Codec>): Mapping {
    var m := Mapping(answered.name, answered.clockRate, offered.payloadType, answered.payloadType, 0, 0, false);
    if callerDTMF.Some? && calleeDTMF.Some? then
      m.(hasDTMF := true, callerDTMFPT := callerDTMF.value.payloadType, calleeDTMFPT := calleeDTMF.value.payloadType)
    else m
  }

  /** Negotiate over the answer's codecs from position i on. */
  function NegotiateFrom(offer: seq<Codec>, answer: seq<Codec>, i: nat): Result<Mapping>
    requires i <= |answer|
    decreases |answer| - i
  {
    if i == |answer| then Err(NoCommonCodec)
    else if !IsAudio(answer[i]) || FindMatch(offer, answer[i]).None? then NegotiateFrom(offer, answer, i + 1)
    else
      Ok(MappingOf(FindMatch(offer, answer[i]).value, answer[i],
                   FindCodec(offer, "TELEPHONE-EVENT"), FindCodec(answer, "TELEPHONE-EVENT")))
  }

  function Negotiate(offer: Endpoint,
    answer: Endpoint): Result<Mapping> { NegotiateFrom(offer.codecs, answer.codecs, 0) }

  lemma {:induction false} FindCodecMeans(cs: seq<Codec>, name: string)
    ensures FindCodec(cs, name).Some? ==> FindCodec(cs, name).value in cs && FindCodec(cs, name).value.name == name
    ensures FindCodec(cs, name).None? ==> forall c :: c in cs ==> c.name != name
  {
    if cs != [] {
      FindCodecMeans(cs[1..], name);
      assert cs == [cs[0]] + cs[1..];
    }
  }

  lemma {:induction false} FindMatchMeans(cs: seq<Codec>, a: Codec)
    ensures FindMatch(cs, a).Some? ==> FindMatch(cs, a).value in cs && Matches(FindMatch(cs, a).value, a)
    ensures FindMatch(cs, a).None? ==> forall c :: c in cs ==> !Matches(c, a)
  {
    if cs != [] {
      FindMatchMeans(cs[1..], a);
      assert cs == [cs[0]] + cs[1..];
    }
  }

  predicate Common(offer: seq<Codec>, a: Codec) { IsAudio(a) && exists c :: c in offer && Matches(c, a) }

  /**
   Negotiation picks the first audio codec of the answer that the offer also has, and fails only when there is none.
   */
  lemma {:induction false} NegotiatesFirstCommon(offer: seq<Codec>, answer: seq<Codec>, i: nat) returns (j: nat)
    requires i <= |answer|
    ensures i <= j <= |answer|
    ensures forall k :: i <= k < j ==> !Common(offer, answer[k])
    ensures j == |answer| <==> NegotiateFrom(offer, answer, i) == Err(NoCommonCodec)
    ensures j < |answer| ==>
      && Common(offer, answer[j]) && FindMatch(offer, answer[j]).Some?
      && NegotiateFrom(offer, answer, i) ==
         Ok(MappingOf(FindMatch(offer, answer[j]).value, answer[j], FindCodec(offer, "TELEPHONE-EVENT"),
           FindCodec(answer, "TELEPHONE-EVENT")))
    decreases |answer| - i
  {
    if i == |answer| {
      j := i;
    } else {
      FindMatchMeans(offer, answer[i]);
      if IsAudio(answer[i]) && FindMatch(offer, answer[i]).Some? {
        j := i;
      } else {
        j := NegotiatesFirstCommon(offer, answer, i + 1);
      }
    }
  }

  // ---- Parsed endpoints ----

  /** Position i is the first of the name. */
  ghost predicate IsFirstNamed(cs: seq<Codec>, name: string, i: int) {
    0 <= i < |cs| && cs[i].name == name && forall j :: 0 <= j < i ==> cs[j].name != name
  }

  lemma {:induction false} FindCodecFirst(cs: seq<Codec>, name: string) returns (i: int)
    ensures if FindCodec(cs, name).Some? then IsFirstNamed(cs, name, i) && FindCodec(cs, name) == Some(cs[i])
            else forall j :: 0 <= j < |cs| ==> cs[j].name != name
  {
    i := 0;
    if cs != [] && cs[0].name != name {
      var k := FindCodecFirst(cs[1..], name);
      i := k + 1;
      assert forall j :: 1 <= j < |cs| ==> cs[j] == cs[1..][j - 1];
    }
  }

  ghost predicate IsFirstMatch(cs: seq<Codec>, a: Codec, i: int) {
    && 0 <= i < |cs| && cs[i].name == a.name && cs[i].clockRate == a.clockRate
    && forall j :: 0 <= j < i ==> cs[j].name != a.name || cs[j].clockRate != a.clockRate
  }

  lemma {:induction false} FindMatchFirst(cs: seq<Codec>, a: Codec) returns (i: int)
    requires FindMatch(cs, a).Some?
    ensures IsFirstMatch(cs, a, i) && FindMatch(cs, a) == Some(cs[i])
  {
    i := 0;
    if !Matches(cs[0], a) {
      var k := FindMatchFirst(cs[1..], a);
      i := k + 1;
      assert forall j :: 1 <= j < |cs| ==> cs[j] == cs[1..][j - 1];
    }
  }

  /** m maps the codec answer[j] to its first match offer[i], and DTMF to DTMF exactly when both sides list it. */
  ghost predicate IsMappingOf(m: Mapping, offer: seq<Codec>, answer: seq<Codec>, i: int, j: int) {
    && 0 <= j < |answer| && IsFirstMatch(offer, answer[j], i)
    && m.name == answer[j].name && m.clockRate == answer[j].clockRate
    && m.callerPT == offer[i].payloadType && m.calleePT == answer[j].payloadType
    && (m.hasDTMF <==> HasEvents(offer) && HasEvents(answer))
    && (m.hasDTMF ==> forall k :: IsFirstNamed(offer, "TELEPHONE-EVENT", k) ==> m.callerDTMFPT == offer[k].payloadType)
    && (m.hasDTMF ==> forall k :: IsFirstNamed(answer, "TELEPHONE-EVENT", k) ==>
        m.calleeDTMFPT == answer[k].payloadType)
  }

  ghost predicate HasEvents(cs: seq<Codec>) { exists k :: IsFirstNamed(cs, "TELEPHONE-EVENT", k) }

  lemma EventsFound(cs: seq<Codec>)
    ensures FindCodec(cs, "TELEPHONE-EVENT").Some? <==> HasEvents(cs)
    ensures forall k :: IsFirstNamed(cs, "TELEPHONE-EVENT", k) ==> FindCodec(cs, "TELEPHONE-EVENT") == Some(cs[k])
  {
    var i := FindCodecFirst(cs, "TELEPHONE-EVENT");
  }

  /** The first codec of the answer that is G.711 and offered is mapped to the offer's first like it. */
  lemma NegotiationMeans(offer: seq<Codec>, answer: seq<Codec>) returns (i: int, j: int)
    ensures NegotiateFrom(offer, answer, 0).Err? ==> forall k :: 0 <= k < |answer| ==> !Common(offer, answer[k])
    ensures NegotiateFrom(offer, answer, 0).Ok? ==>
      && IsMappingOf(NegotiateFrom(offer, answer, 0).value, offer, answer, i, j)
      && (answer[j].name == "PCMU" || answer[j].name == "PCMA")
      && forall k :: 0 <= k < j ==> !Common(offer, answer[k])
  {
    i := 0;
    j := NegotiatesFirstCommon(offer, answer, 0);
    if j < |answer| {
      i := FindMatchFirst(offer, answer[j]);
      EventsFound(offer);
      EventsFound(answer);
    }
  }

  lemma {:induction false} RtpMapsKeyed(attributes: seq<Attribute>)
    ensures var m := RtpMaps(attributes); m.Some? ==> forall p :: p in m.value ==> m.value[p].payloadType == p
  {
    if attributes != [] {
      RtpMapsKeyed(attributes[..|attributes| - 1]);
    }
  }

  lemma {:induction false} FormatsAreKeyed(m: CodecMap, formats: seq<string>)
    requires forall p :: p in m ==> m[p].payloadType == p
    ensures forall c :: c in FormatCodecs(m, formats) ==> CodecOf(m, c.payloadType) == Some(c) && c.payloadType < 128
  {
    if formats != [] {
      FormatsAreKeyed(m, formats[..|formats| - 1]);
    }
  }

  /** Every codec is supported and a payload type names one codec. */
  ghost predicate ParsedCodecs(cs: seq<Codec>) {
    AllSupported(cs) && forall a, b :: a in cs && b in cs && a.payloadType == b.payloadType ==> a == b
  }

  /** In a parsed endpoint every codec is supported, one is audio, and a payload type names one codec. */
  lemma ParsedIsCoherent(d: Description)
    requires ParseAudio(d).Ok?
    ensures var cs := ParseAudio(d).value.codecs;
      ParsedCodecs(cs) && SevenBit(cs) && HasAudioCodec(cs)
  {
    var media := AudioMedia(d.media).value;
    var m := RtpMaps(media.attributes).value;
    var cs := ParseAudio(d).value.codecs;
    RtpMapsKeyed(media.attributes);
    FormatsAreKeyed(m, media.formats);
    FormatsAreSupported(m, media.formats);
    forall i | 0 <= i < |cs| ensures cs[i].payloadType < 128 {
      assert cs[i] in cs;
    }
  }

  // ---- Forwarding ----

  datatype RemoteConfig = RemoteConfig(
    rtp: AddrPort, rtcp: AddrPort, audioPT: uint8, dtmfPT: uint8, hasDTMF: bool, direction: Direction)

  function CallerConfig(e: Endpoint, m: Mapping): RemoteConfig {
    RemoteConfig(e.rtp, e.rtcp, m.callerPT, m.callerDTMFPT, m.hasDTMF, e.direction)
  }

  function CalleeConfig(e: Endpoint, m: Mapping): RemoteConfig {
    RemoteConfig(e.rtp, e.rtcp, m.calleePT, m.calleeDTMFPT, m.hasDTMF, e.direction)
  }

  function PayloadMapping(input: uint8, source: RemoteConfig, destination: RemoteConfig): Option<uint8> {
    if input == source.audioPT then Some(destination.audioPT)
    else if source.hasDTMF && destination.hasDTMF && input == source.dtmfPT then Some(destination.dtmfPT)
    else None
  }

  /** Audio goes to audio and, where both legs have DTMF and the type is not the audio's, DTMF to DTMF. */
  lemma MappedIff(input: uint8, source: RemoteConfig, destination: RemoteConfig, output: uint8)
    ensures PayloadMapping(input, source, destination) == Some(output) <==>
      || (input == source.audioPT && output == destination.audioPT)
      || (&& source.audioPT != input == source.dtmfPT && output == destination.dtmfPT
          && source.hasDTMF && destination.hasDTMF)
  {
  }

  /** p names a codec on the source leg, q one on the destination leg, and they are the same codec. */
  ghost predicate SameMeaning(source: seq<Codec>, p: uint8, destination: seq<Codec>, q: uint8) {
    exists c, c' :: c in source && c' in destination && c.payloadType == p && c'.payloadType == q && Matches(c, c')
  }

  /** What a negotiated mapping says about the two codec lists. */
  ghost predicate Sound(m: Mapping, offer: seq<Codec>, answer: seq<Codec>) {
    && IsAudio(Codec(m.name, m.callerPT, m.clockRate)) && m.clockRate == 8000
    && Codec(m.name, m.callerPT, m.clockRate) in offer && Codec(m.name, m.calleePT, m.clockRate) in answer
    && (m.hasDTMF ==>
        Codec("TELEPHONE-EVENT", m.callerDTMFPT, 8000) in offer
          && Codec("TELEPHONE-EVENT", m.calleeDTMFPT, 8000) in answer)
    && (!m.hasDTMF ==> m.callerDTMFPT == 0 && m.calleeDTMFPT == 0)
  }

  lemma {:induction false} SupportedRate(cs: seq<Codec>, c: Codec)
    requires AllSupported(cs) && c in cs
    ensures c.clockRate == 8000 && c == Codec(c.name, c.payloadType, 8000)
  {
  }

  lemma {:induction false} NegotiatedIsSound(offer: seq<Codec>, answer: seq<Codec>)
    requires AllSupported(offer) && AllSupported(answer) && NegotiateFrom(offer, answer, 0).Ok?
    ensures Sound(NegotiateFrom(offer, answer, 0).value, offer, answer)
  {
    var j := NegotiatesFirstCommon(offer, answer, 0);
    FindMatchMeans(offer, answer[j]);
    SupportedRate(answer, answer[j]);
    SupportedRate(offer, FindMatch(offer, answer[j]).value);
    FindCodecMeans(offer, "TELEPHONE-EVENT");
    FindCodecMeans(answer, "TELEPHONE-EVENT");
    if FindCodec(offer, "TELEPHONE-EVENT").Some? {
      SupportedRate(offer, FindCodec(offer, "TELEPHONE-EVENT").value);
    }
    if FindCodec(answer, "TELEPHONE-EVENT").Some? {
      SupportedRate(answer, FindCodec(answer, "TELEPHONE-EVENT").value);
    }
  }

  lemma {:induction false} LegsAreUnambiguous(m: Mapping, offer: seq<Codec>, answer: seq<Codec>)
    requires ParsedCodecs(offer) && ParsedCodecs(answer) && Sound(m, offer, answer) && m.hasDTMF
    ensures m.callerPT != m.callerDTMFPT && m.calleePT != m.calleeDTMFPT
  {
    assert Codec(m.name, m.callerPT, 8000) != Codec("TELEPHONE-EVENT", m.callerDTMFPT, 8000);
    assert Codec(m.name, m.calleePT, 8000) != Codec("TELEPHONE-EVENT", m.calleeDTMFPT, 8000);
  }

  /**
   Between parsed endpoints every forwarded payload type keeps its codec name and clock rate in either
   direction, and mapping back returns the original.
   */
  lemma ForwardingKeepsMeaning(offer: Endpoint, answer: Endpoint, m: Mapping, input: uint8)
    requires ParsedCodecs(offer.codecs) && ParsedCodecs(answer.codecs) && Negotiate(offer, answer) == Ok(m)
    ensures var out := PayloadMapping(input, CallerConfig(offer, m), CalleeConfig(answer, m));
      && (out.Some? <==> input == m.callerPT || (m.hasDTMF && input == m.callerDTMFPT))
      && (out.Some? ==> SameMeaning(offer.codecs, input, answer.codecs, out.value)
                        && PayloadMapping(out.value, CalleeConfig(answer, m), CallerConfig(offer, m)) == Some(input))
    ensures var out := PayloadMapping(input, CalleeConfig(answer, m), CallerConfig(offer, m));
      && (out.Some? <==> input == m.calleePT || (m.hasDTMF && input == m.calleeDTMFPT))
      && (out.Some? ==> SameMeaning(answer.codecs, input, offer.codecs, out.value)
                        && PayloadMapping(out.value, CallerConfig(offer, m), CalleeConfig(answer, m)) == Some(input))
  {
    NegotiatedIsSound(offer.codecs, answer.codecs);
    var a, b := Codec(m.name, m.callerPT, 8000), Codec(m.name, m.calleePT, 8000);
    assert Matches(a, b) && a in offer.codecs && b in answer.codecs;
    if m.hasDTMF {
      LegsAreUnambiguous(m, offer.codecs, answer.codecs);
      var t, u := Codec("TELEPHONE-EVENT", m.callerDTMFPT, 8000), Codec("TELEPHONE-EVENT", m.calleeDTMFPT, 8000);
      assert Matches(t, u) && t in offer.codecs && u in answer.codecs;
    }
  }

  function CodecListForAnswer(m: Mapping): seq<Codec> {
    [Codec(m.name, m.callerPT, m.clockRate)]
    + (if m.hasDTMF then [Codec("TELEPHONE-EVENT", m.callerDTMFPT, 8000)] else [])
  }

  /** The answer to the caller offers only codecs of its own offer, under its own payload types, and can be built. */
  lemma AnswerIsFromOffer(offer: Endpoint, answer: Endpoint, m: Mapping)
    requires ParsedCodecs(offer.codecs) && ParsedCodecs(answer.codecs) && Negotiate(offer, answer) == Ok(m)
    ensures forall c :: c in CodecListForAnswer(m) ==> c in offer.codecs
    ensures forall c :: c in CodecListForAnswer(m) <==>
      c == Codec(m.name, m.callerPT, 8000) || (m.hasDTMF && c == Codec("TELEPHONE-EVENT", m.callerDTMFPT, 8000))
    ensures HasAudioCodec(CodecListForAnswer(m)) && m.name != "" && m.clockRate != 0
  {
    NegotiatedIsSound(offer.codecs, answer.codecs);
    assert IsAudio(CodecListForAnswer(m)[0]);
  }
}
