/**
 SDP audio descriptions (internal/sip/sdp/audio.go): parsing, building and
 negotiation. The wire form is left to the SDP library; a description here is its
 parsed structure, and the texts inside formats and attributes are kept as text.
 */
module Sdp {
  import opened Wrap
  import opened SdpText

  datatype Direction = SendRecv | SendOnly | RecvOnly | Inactive

  datatype Codec = Codec(name: string, payloadType: uint8, clockRate: uint32)

  /** What a connection address parses to. */
  datatype Host = Unparsable | Unspecified | Host(address: string)

  datatype AddrPort = AddrPort(host: Host, port: uint16)

  datatype Endpoint = Endpoint(rtp: AddrPort, rtcp: AddrPort, direction: Direction, codecs: seq<Codec>)

  datatype Attribute = Attribute(key: string, value: string)

  datatype Media = Media(
    kind: string, port: int, protos: seq<string>, connection: Option<Host>, formats: seq<string>,
      attributes: seq<Attribute>)

  datatype Description = Description(connection: Option<Host>, attributes: seq<Attribute>, media: seq<Media>)

  datatype Error =
    | NoAudio | UnsupportedProfile | InvalidAddress | InvalidRtcp | InvalidRtpMap | InvalidLocal | NoCommonCodec

  datatype Result<+T> = Ok(value: T) | Err(error: Error)

  // ---- Codecs ----

  predicate IsSupported(c: Codec) {
    c.clockRate == 8000 && (c.name == "PCMU" || c.name == "PCMA" || c.name == "TELEPHONE-EVENT")
  }

  predicate IsAudio(c: Codec) { c.name == "PCMU" || c.name == "PCMA" }

  predicate HasAudioCodec(cs: seq<Codec>) { exists i :: 0 <= i < |cs| && IsAudio(cs[i]) }

  /** The value of one rtpmap attribute. */
  function ParseRtpMap(value: string): Option<Codec> {
    var fields := Fields(value);
    if |fields| != 2 then None
    else
      var payload := ParseUint(fields[0], 128);
      var encoding := SplitSlash(fields[1]);
      if payload.None? || |encoding| < 2 then None
      else
        var clockRate := ParseUint(encoding[1], 0x1_0000_0000);
        if clockRate.None? then None else Some(Codec(ToUpper(encoding[0]), payload.value, clockRate.value))
  }

  type CodecMap = map<uint8, Codec>

  /** The payload types the rtpmap attributes define; None if one of them is malformed. */
  function RtpMaps(attributes: seq<Attribute>): Option<CodecMap> {
    if attributes == [] then Some(map[])
    else
      var k := |attributes| - 1;
      AddRtpMap(RtpMaps(attributes[..k]), attributes[k])
  }

  function AddRtpMap(m: Option<CodecMap>, attribute: Attribute): Option<CodecMap> {
    if m.None? || attribute.key != "rtpmap" then m
    else
      var codec := ParseRtpMap(attribute.value);
      if codec.None? then None else Some(m.value[codec.value.payloadType := codec.value])
  }

  /** The codec a payload type stands for; 0 and 8 have static meanings. */
  function CodecOf(m: CodecMap, payload: uint8): Option<Codec> {
    if payload in m then Some(m[payload])
    else if payload == 0 then Some(Codec("PCMU", 0, 8000))
    else if payload == 8 then Some(Codec("PCMA", 8, 8000))
    else None
  }

  function FormatCodec(m: CodecMap, format: string): Option<Codec> {
    var payload := ParseUint(format, 128);
    if payload.None? then None
    else
      var codec := CodecOf(m, payload.value);
      if codec.Some? && IsSupported(codec.value) then codec else None
  }

  /** The supported codecs of the formats, in order. */
  function FormatCodecs(m: CodecMap, formats: seq<string>): seq<Codec> {
    if formats == [] then []
    else
      var k := |formats| - 1;
      var codec := FormatCodec(m, formats[k]);
      FormatCodecs(m, formats[..k]) + (if codec.Some? then [codec.value] else [])
  }

  function CodecsOf(media: Media): Result<seq<Codec>> {
    var m := RtpMaps(media.attributes);
    if m.None? then Err(InvalidRtpMap)
    else
      var cs := FormatCodecs(m.value, media.formats);
      if HasAudioCodec(cs) then Ok(cs) else Err(NoAudio)
  }

  /** parseCodecs as the source runs it: one pass over the attributes, one over the formats. */
  method ParseCodecs(media: Media) returns (r: Result<seq<Codec>>)
    ensures r == CodecsOf(media)
  {
    var rtpMaps: CodecMap := map[];
    for i := 0 to |media.attributes|
      invariant RtpMaps(media.attributes[..i]) == Some(rtpMaps)
    {
      var attribute := media.attributes[i];
      assert media.attributes[..i + 1][..i] == media.attributes[..i];
      if attribute.key == "rtpmap" {
        var codec := ParseRtpMap(attribute.value);
        if codec.None? {
          FailsForGood(media.attributes, i + 1);
          return Err(InvalidRtpMap);
        }
        rtpMaps := rtpMaps[codec.value.payloadType := codec.value];
      }
    }
    assert media.attributes[..|media.attributes|] == media.attributes;
    var codecs: seq<Codec> := [];
    for i := 0 to |media.formats|
      invariant codecs == FormatCodecs(rtpMaps, media.formats[..i])
    {
      assert media.formats[..i + 1][..i] == media.formats[..i];
      var codec := FormatCodec(rtpMaps, media.formats[i]);
      if codec.Some? {
        codecs := codecs + [codec.value];
      }
    }
    assert media.formats[..|media.formats|] == media.formats;
    r := if HasAudioCodec(codecs) then Ok(codecs) else Err(NoAudio);
  }

  lemma {:induction false} FailsForGood(attributes: seq<Attribute>, k: nat)
    requires k <= |attributes| && RtpMaps(attributes[..k]).None?
    ensures RtpMaps(attributes).None?
    decreases |attributes| - k
  {
    if k == |attributes| {
      assert attributes[..k] == attributes;
    } else {
      assert attributes[..k + 1][..k] == attributes[..k];
      FailsForGood(attributes, k + 1);
    }
  }

  // ---- Descriptions ----

  /** The first attribute with the key. */
  function Find(attributes: seq<Attribute>, key: string): Option<string> {
    if attributes == [] then None
    else if attributes[0].key == key then Some(attributes[0].value)
    else Find(attributes[1..], key)
  }

  function DirectionText(d: Direction): string {
    match d
    case SendRecv => "sendrecv"
    case SendOnly => "sendonly"
    case RecvOnly => "recvonly"
    case Inactive => "inactive"
  }

  predicate Marked(d: Description, m: Media, direction: Direction) {
    Find(m.attributes, DirectionText(direction)).Some? || Find(d.attributes, DirectionText(direction)).Some?
  }

  function MediaDirection(d: Description, m: Media): Direction {
    if Marked(d, m, Inactive) then Inactive
    else if Marked(d, m, SendOnly) then SendOnly
    else if Marked(d, m, RecvOnly) then RecvOnly
    else SendRecv
  }

  function AudioMedia(media: seq<Media>): Option<Media> {
    if media == [] then None
    else if media[0].kind == "audio" then Some(media[0])
    else AudioMedia(media[1..])
  }

  function RtcpPort(m: Media): Option<uint16> {
    var value := Find(m.attributes, "rtcp");
    if value.None? then Some(U16(m.port + 1))
    else
      var fields := Fields(value.value);
      if fields == [] then None
      else
        var port := ParseUint(fields[0], 0x1_0000);
        if port.None? || port.value == 0 then None else Some(port.value)
  }

  function ParseAudio(d: Description): Result<Endpoint> {
    var found := AudioMedia(d.media);
    if found.None? || found.value.port <= 0 || found.value.port > 65535 then Err(NoAudio)
    else
      var m := found.value;
      if m.protos != ["RTP", "AVP"] then Err(UnsupportedProfile)
      else
        var host := if m.connection.Some? then m.connection.value
                    else if d.connection.Some? then d.connection.value else Unparsable;
        if !host.Host? then Err(InvalidAddress)
        else
          var rtcpPort := RtcpPort(m);
          if rtcpPort.None? then Err(InvalidRtcp)
          else
            var codecs := CodecsOf(m);
            if codecs.Err? then Err(codecs.error)
            else Ok(Endpoint(AddrPort(host, m.port), AddrPort(host, rtcpPort.value), MediaDirection(d, m),
              codecs.value))
  }

  function RtpMapText(c: Codec): string { Itoa(c.payloadType) + " " + (c.name + "/" + Itoa(c.clockRate)) }

  function CodecAttributes(c: Codec): seq<Attribute> {
    [Attribute("rtpmap", RtpMapText(c))]
    + (if c.name == "TELEPHONE-EVENT" then [Attribute("fmtp", Itoa(c.payloadType) + " 0-16")] else [])
  }

  function AllCodecAttributes(cs: seq<Codec>): seq<Attribute> {
    if cs == [] then []
    else
      var k := |cs| - 1;
      AllCodecAttributes(cs[..k]) + (if IsSupported(cs[k]) then CodecAttributes(cs[k]) else [])
  }

  function AllFormats(cs: seq<Codec>): seq<string> {
    if cs == [] then []
    else
      var k := |cs| - 1;
      AllFormats(cs[..k]) + (if IsSupported(cs[k]) then [Itoa(cs[k].payloadType)] else [])
  }

  function Trailer(rtcpPort: uint16, direction: Direction): seq<Attribute> {
    [Attribute("rtcp", Itoa(rtcpPort)), Attribute(DirectionText(direction), ""), Attribute("ptime", "20")]
  }

  function Built(rtp: AddrPort, rtcp: AddrPort, cs: seq<Codec>, direction: Direction): Description {
    var attributes := AllCodecAttributes(cs) + Trailer(rtcp.port, direction);
    Description(Some(rtp.host), [], [Media("audio", rtp.port, ["RTP", "AVP"], None, AllFormats(cs), attributes)])
  }

  predicate CanBuild(rtp: AddrPort, rtcp: AddrPort, cs: seq<Codec>) {
    !rtp.host.Unparsable? && rtp.host == rtcp.host && HasAudioCodec(cs)
  }

  /** BuildAudio; an absent direction means sendrecv. */
  method BuildAudio(rtp: AddrPort, rtcp: AddrPort, cs: seq<Codec>, direction: Option<Direction>)
    returns (r: Result<Description>)
    ensures r.Ok? <==> CanBuild(rtp, rtcp, cs)
    ensures r.Err? ==> r.error == if rtp.host.Unparsable? || rtp.host != rtcp.host then InvalidLocal else NoAudio
    ensures r.Ok? ==> r.value == Built(rtp, rtcp, cs, if direction.Some? then direction.value else SendRecv)
  {
    if rtp.host.Unparsable? || rtp.host != rtcp.host {
      return Err(InvalidLocal);
    }
    if !HasAudioCodec(cs) {
      return Err(NoAudio);
    }
    var d := if direction.Some? then direction.value else SendRecv;
    var formats: seq<string> := [];
    var attributes: seq<Attribute> := [];
    for i := 0 to |cs|
      invariant formats == AllFormats(cs[..i]) && attributes == AllCodecAttributes(cs[..i])
    {
      var c := cs[i];
      assert cs[..i + 1][..i] == cs[..i];
      if IsSupported(c) {
        formats := formats + [Itoa(c.payloadType)];
        var more := [Attribute("rtpmap", Itoa(c.payloadType) + " " + (c.name + "/" + Itoa(c.clockRate)))];
        if c.name == "TELEPHONE-EVENT" {
          more := more + [Attribute("fmtp", Itoa(c.payloadType) + " 0-16")];
        }
        attributes := attributes + more;
      }
    }
    assert cs[..|cs|] == cs;
    attributes := attributes + [Attribute("rtcp", Itoa(rtcp.port)), Attribute(DirectionText(d), ""),
      Attribute("ptime", "20")];
    r := Ok(Description(Some(rtp.host), [], [Media("audio", rtp.port, ["RTP", "AVP"], None, formats, attributes)]));
  }
}
