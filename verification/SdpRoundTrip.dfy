/**
 Building a description and parsing it again (internal/sip/sdp/audio.go): exactly
 which codec lists and ports come back as they were.
 */
module SdpRoundTrip {
  import opened Wrap
  import opened SdpText
  import opened Sdp

  // ---- One rtpmap attribute ----

  predicate Plain(s: string) { forall i :: 0 <= i < |s| ==> !IsSpace(s[i]) && s[i] != '/' }

  lemma ItoaPlain(n: nat)
    ensures Plain(Itoa(n)) && Solid(Itoa(n))
  {
    DecimalOfItoa(n);
  }

  predicate Capitals(s: string) { forall i :: 0 <= i < |s| ==> 'A' <= s[i] <= 'Z' || s[i] == '-' }

  lemma CapitalsJoin(a: string, b: string)
    requires Capitals(a) && Capitals(b)
    ensures Capitals(a + b)
  {
  }

  lemma CapitalsArePlain(s: string)
    requires Capitals(s)
    ensures Plain(s) && ToUpper(s) == s
  {
    UpperStays(s);
  }

  lemma NamePlain(c: Codec)
    requires IsSupported(c)
    ensures Plain(c.name) && c.name != [] && ToUpper(c.name) == c.name
  {
    CapitalsJoin("TELE", "PHONE");
    CapitalsJoin("-EV", "ENT");
    CapitalsJoin("TELE" + "PHONE", "-EV" + "ENT");
    assert "TELEPHONE-EVENT" == ("TELE" + "PHONE") + ("-EV" + "ENT");
    CapitalsArePlain(c.name);
  }

  lemma EncodingSolid(name: string, n: nat)
    requires Plain(name) && name != []
    ensures Solid(name + "/" + Itoa(n))
  {
    ItoaPlain(n);
  }

  /** The text of a supported codec parses back to it, unless its payload type needs more than seven bits. */
  lemma RtpMapInverse(c: Codec)
    requires IsSupported(c)
    ensures ParseRtpMap(RtpMapText(c)) == if c.payloadType < 128 then Some(c) else None
  {
    var pt, enc := Itoa(c.payloadType), c.name + "/" + Itoa(c.clockRate);
    NamePlain(c);
    ItoaPlain(c.payloadType);
    ItoaPlain(c.clockRate);
    EncodingSolid(c.name, c.clockRate);
    FieldsOfTwo(pt, enc);
    SplitOnce(c.name, Itoa(c.clockRate));
    DecimalOfItoa(c.payloadType);
    DecimalOfItoa(c.clockRate);
  }

  // ---- The attributes of a list ----

  /** The payload types of a list; a later codec replaces an earlier one. */
  function MapOf(cs: seq<Codec>): CodecMap {
    if cs == [] then map[]
    else
      var k := |cs| - 1;
      MapOf(cs[..k])[cs[k].payloadType := cs[k]]
  }

  ghost predicate AllSupported(cs: seq<Codec>) { forall i :: 0 <= i < |cs| ==> IsSupported(cs[i]) }

  ghost predicate SevenBit(cs: seq<Codec>) { forall i :: 0 <= i < |cs| ==> cs[i].payloadType < 128 }

  /** No payload type names two codecs. */
  ghost predicate Coherent(cs: seq<Codec>) {
    forall i, j :: 0 <= i < j < |cs| && cs[i].payloadType == cs[j].payloadType ==> cs[i] == cs[j]
  }

  lemma {:induction false} RtpMapsAppend(a: seq<Attribute>, x: Attribute)
    ensures RtpMaps(a + [x]) == AddRtpMap(RtpMaps(a), x)
  {
    assert (a + [x])[..|a|] == a;
  }

  lemma {:induction false} CodecAttributesAppend(a: seq<Attribute>, c: Codec)
    requires IsSupported(c)
    ensures RtpMaps(a + CodecAttributes(c)) ==
      (if RtpMaps(a).None? || c.payloadType >= 128 then None else Some(RtpMaps(a).value[c.payloadType := c]))
  {
    RtpMapInverse(c);
    var x := Attribute("rtpmap", RtpMapText(c));
    RtpMapsAppend(a, x);
    if c.name == "TELEPHONE-EVENT" {
      var y := Attribute("fmtp", Itoa(c.payloadType) + " 0-16");
      assert a + CodecAttributes(c) == (a + [x]) + [y];
      RtpMapsAppend(a + [x], y);
    } else {
      assert a + CodecAttributes(c) == a + [x];
    }
  }

  lemma {:induction false} SevenBitSplit(cs: seq<Codec>)
    requires cs != []
    ensures SevenBit(cs) <==> SevenBit(cs[..|cs| - 1]) && cs[|cs| - 1].payloadType < 128
  {
    var k := |cs| - 1;
    assert cs == cs[..k] + [cs[k]];
  }

  lemma {:induction false} MapsOfList(cs: seq<Codec>)
    requires AllSupported(cs)
    ensures RtpMaps(AllCodecAttributes(cs)) == if SevenBit(cs) then Some(MapOf(cs)) else None
  {
    if cs != [] {
      var k := |cs| - 1;
      MapsOfList(cs[..k]);
      SevenBitSplit(cs);
      var a := AllCodecAttributes(cs[..k]);
      CodecAttributesAppend(a, cs[k]);
      assert AllCodecAttributes(cs) == a + CodecAttributes(cs[k]);
    }
  }

  lemma DirectionIsNoRtpMap(d: Direction)
    ensures DirectionText(d) != "rtpmap"
  {
    assert DirectionText(d)[0] != 'r' || d == RecvOnly;
    assert "rtpmap"[1] == 't' && "recvonly"[1] == 'e';
  }

  lemma {:induction false} TrailerAddsNothing(a: seq<Attribute>, port: uint16, d: Direction)
    ensures RtpMaps(a + Trailer(port, d)) == RtpMaps(a)
  {
    var t := Trailer(port, d);
    RtpMapsAppend(a, t[0]);
    RtpMapsAppend(a + [t[0]], t[1]);
    RtpMapsAppend(a + [t[0]] + [t[1]], t[2]);
    DirectionIsNoRtpMap(d);
    assert a + t == a + [t[0]] + [t[1]] + [t[2]];
  }

  // ---- The formats of a list ----

  function Lookup(m: CodecMap, cs: seq<Codec>): seq<Codec>
    requires forall i :: 0 <= i < |cs| ==> cs[i].payloadType in m
  {
    seq(|cs|, i requires 0 <= i < |cs| => m[cs[i].payloadType])
  }

  lemma {:induction false} FormatsOfList(m: CodecMap, cs: seq<Codec>)
    requires AllSupported(cs) && SevenBit(cs)
    requires forall i :: 0 <= i < |cs| ==> cs[i].payloadType in m && IsSupported(m[cs[i].payloadType])
    ensures FormatCodecs(m, AllFormats(cs)) == Lookup(m, cs)
  {
    if cs != [] {
      var k := |cs| - 1;
      FormatsOfList(m, cs[..k]);
      DecimalOfItoa(cs[k].payloadType);
      var f := AllFormats(cs[..k]) + [Itoa(cs[k].payloadType)];
      assert f[..|f| - 1] == AllFormats(cs[..k]);
      assert Lookup(m, cs) == Lookup(m, cs[..k]) + [m[cs[k].payloadType]];
    }
  }

  /** A payload type of the list is mapped to one of the codecs that carry it. */
  lemma {:induction false} MapOfMeans(cs: seq<Codec>, i: nat) returns (j: nat)
    requires i < |cs|
    ensures j < |cs| && cs[j].payloadType == cs[i].payloadType
    ensures cs[i].payloadType in MapOf(cs) && MapOf(cs)[cs[i].payloadType] == cs[j]
  {
    var k := |cs| - 1;
    if cs[i].payloadType == cs[k].payloadType {
      j := k;
    } else {
      j := MapOfMeans(cs[..k], i);
    }
  }

  lemma {:induction false} MapOfHas(cs: seq<Codec>)
    requires AllSupported(cs)
    ensures forall i :: 0 <= i < |cs| ==> cs[i].payloadType in MapOf(cs) && IsSupported(MapOf(cs)[cs[i].payloadType])
  {
    forall i | 0 <= i < |cs| ensures cs[i].payloadType in MapOf(cs) && IsSupported(MapOf(cs)[cs[i].payloadType]) {
      var j := MapOfMeans(cs, i);
    }
  }

  /** Looking the payload types up again gives the list exactly when it is coherent. */
  lemma {:induction false} LookupIff(cs: seq<Codec>)
    requires forall i :: 0 <= i < |cs| ==> cs[i].payloadType in MapOf(cs)
    ensures Lookup(MapOf(cs), cs) == cs <==> Coherent(cs)
  {
    var r := Lookup(MapOf(cs), cs);
    if Coherent(cs) {
      forall i | 0 <= i < |cs| ensures r[i] == cs[i] {
        var j := MapOfMeans(cs, i);
        assert i < j || j < i || i == j;
      }
    } else {
      var i, j :| 0 <= i < j < |cs| && cs[i].payloadType == cs[j].payloadType && cs[i] != cs[j];
      assert r[i] == r[j];
    }
  }

  // ---- Attribute lookup ----

  lemma {:induction false} FindInBoth(a: seq<Attribute>, b: seq<Attribute>, key: string)
    ensures Find(a + b, key) == if Find(a, key).Some? then Find(a, key) else Find(b, key)
  {
    if a == [] {
      assert a + b == b;
    } else {
      assert (a + b)[1..] == a[1..] + b;
      FindInBoth(a[1..], b, key);
    }
  }

  lemma FindThree(x: Attribute, y: Attribute, z: Attribute, key: string)
    ensures Find([x, y, z], key) == if x.key == key then Some(x.value) else if y.key == key then Some(y.value)
                                    else if z.key == key then Some(z.value) else None
  {
    assert [x, y, z] == [x] + ([y] + [z]);
    FindInBoth([x], [y] + [z], key);
    FindInBoth([y], [z], key);
  }

  lemma OneCodecHides(c: Codec, key: string)
    requires key != "rtpmap" && key != "fmtp"
    ensures Find(CodecAttributes(c), key).None?
  {
    var x := Attribute("rtpmap", RtpMapText(c));
    if c.name == "TELEPHONE-EVENT" {
      FindInBoth([x], [Attribute("fmtp", Itoa(c.payloadType) + " 0-16")], key);
    } else {
      assert CodecAttributes(c) == [x];
    }
  }

  lemma {:induction false} CodecAttributesHide(cs: seq<Codec>, key: string)
    requires key != "rtpmap" && key != "fmtp"
    ensures Find(AllCodecAttributes(cs), key).None?
  {
    if cs != [] {
      var k := |cs| - 1;
      CodecAttributesHide(cs[..k], key);
      var more := if IsSupported(cs[k]) then CodecAttributes(cs[k]) else [];
      OneCodecHides(cs[k], key);
      FindInBoth(AllCodecAttributes(cs[..k]), more, key);
    }
  }

  lemma DirectionKeys(d: Direction)
    ensures DirectionText(d) != "rtpmap" && DirectionText(d) != "fmtp" && DirectionText(d) != "rtcp"
      && DirectionText(d) != "ptime"
  {
    DirectionIsNoRtpMap(d);
    assert |DirectionText(d)| == 8;
  }

  lemma DirectionsDiffer(d: Direction, e: Direction)
    requires d != e
    ensures DirectionText(d) != DirectionText(e)
  {
    assert DirectionText(d)[0] != DirectionText(e)[0] || DirectionText(d)[4] != DirectionText(e)[4];
  }

  lemma {:induction false} MarkedIff(rtp: AddrPort, rtcp: AddrPort, cs: seq<Codec>, d: Direction, e: Direction)
    ensures var b := Built(rtp, rtcp, cs, d); Marked(b, b.media[0], e) <==> d == e
  {
    var t := Trailer(rtcp.port, d);
    DirectionKeys(e);
    CodecAttributesHide(cs, DirectionText(e));
    FindInBoth(AllCodecAttributes(cs), t, DirectionText(e));
    FindThree(t[0], t[1], t[2], DirectionText(e));
    if d != e {
      DirectionsDiffer(d, e);
    }
  }

  lemma {:induction false} DirectionSurvives(rtp: AddrPort, rtcp: AddrPort, cs: seq<Codec>, d: Direction)
    ensures var b := Built(rtp, rtcp, cs, d); MediaDirection(b, b.media[0]) == d
  {
    MarkedIff(rtp, rtcp, cs, d, Inactive);
    MarkedIff(rtp, rtcp, cs, d, SendOnly);
    MarkedIff(rtp, rtcp, cs, d, RecvOnly);
  }

  lemma {:induction false} RtcpSurvives(rtp: AddrPort, rtcp: AddrPort, cs: seq<Codec>, d: Direction)
    ensures RtcpPort(Built(rtp, rtcp, cs, d).media[0]) == if rtcp.port == 0 then None else Some(rtcp.port)
  {
    CodecAttributesHide(cs, "rtcp");
    FindInBoth(AllCodecAttributes(cs), Trailer(rtcp.port, d), "rtcp");
    ItoaPlain(rtcp.port);
    FieldsOfOne(Itoa(rtcp.port));
    DecimalOfItoa(rtcp.port);
  }

  // ---- The whole description ----

  /** When the list consists of supported codecs, parsing reads it back through its payload types. */
  lemma {:induction false} CodecsSurvive(rtp: AddrPort, rtcp: AddrPort, cs: seq<Codec>, d: Direction)
    requires AllSupported(cs) && HasAudioCodec(cs)
    ensures CodecsOf(Built(rtp, rtcp, cs, d).media[0]) == Ok(cs) <==> SevenBit(cs) && Coherent(cs)
  {
    MapsOfList(cs);
    TrailerAddsNothing(AllCodecAttributes(cs), rtcp.port, d);
    if SevenBit(cs) {
      MapOfHas(cs);
      FormatsOfList(MapOf(cs), cs);
      LookupIff(cs);
    }
  }

  lemma {:induction false} FormatsAreSupported(m: CodecMap, formats: seq<string>)
    ensures AllSupported(FormatCodecs(m, formats))
  {
    if formats != [] {
      FormatsAreSupported(m, formats[..|formats| - 1]);
    }
  }

  /**
   Building and parsing returns the same codec list in order, the same direction and the same ports exactly
   when every codec is supported, payload types fit seven bits and name one codec each, and the address and
   ports are usable.
   */
  lemma {:induction false} RoundTripIff(rtp: AddrPort, rtcp: AddrPort, cs: seq<Codec>, d: Direction)
    requires CanBuild(rtp, rtcp, cs)
    ensures ParseAudio(Built(rtp, rtcp, cs, d)) == Ok(Endpoint(rtp, rtcp, d, cs)) <==>
      AllSupported(cs) && SevenBit(cs) && Coherent(cs) && rtp.host.Host? && rtp.port > 0 && rtcp.port > 0
  {
    var m := Built(rtp, rtcp, cs, d).media[0];
    DirectionSurvives(rtp, rtcp, cs, d);
    RtcpSurvives(rtp, rtcp, cs, d);
    if AllSupported(cs) {
      CodecsSurvive(rtp, rtcp, cs, d);
    } else if CodecsOf(m).Ok? {
      FormatsAreSupported(RtpMaps(m.attributes).value, m.formats);
    }
  }

  /** The supported codecs of a list, in order. */
  function Supported(cs: seq<Codec>): seq<Codec> {
    if cs == [] then []
    else Supported(cs[..|cs| - 1]) + (if IsSupported(cs[|cs| - 1]) then [cs[|cs| - 1]] else [])
  }

  /** Codecs that are not supported are left out of what is printed. */
  lemma {:induction false} UnsupportedIsLeftOut(cs: seq<Codec>)
    ensures AllSupported(Supported(cs))
    ensures AllFormats(cs) == AllFormats(Supported(cs)) && AllCodecAttributes(cs) == AllCodecAttributes(Supported(cs))
  {
    if cs != [] {
      var k := |cs| - 1;
      UnsupportedIsLeftOut(cs[..k]);
      if IsSupported(cs[k]) {
        var all := Supported(cs);
        assert all[..|all| - 1] == Supported(cs[..k]);
      } else {
        assert Supported(cs) == Supported(cs[..k]) && AllFormats(cs) == AllFormats(cs[..k]);
        assert AllCodecAttributes(cs) == AllCodecAttributes(cs[..k]);
      }
    }
  }

  lemma {:induction false} EventsAnnounced(cs: seq<Codec>, i: nat)
    requires i < |cs| && IsSupported(cs[i]) && cs[i].name == "TELEPHONE-EVENT"
    ensures Attribute("fmtp", Itoa(cs[i].payloadType) + " 0-16") in AllCodecAttributes(cs)
  {
    if i < |cs| - 1 {
      EventsAnnounced(cs[..|cs| - 1], i);
    }
  }

  /**
   What a printed description says beyond what parsing reads back: one audio media, the direction and ptime in words.
   */
  lemma PrintedTexts(rtp: AddrPort, rtcp: AddrPort, cs: seq<Codec>, d: Direction)
    ensures var b := Built(rtp, rtcp, cs, d);
      && b.connection == Some(rtp.host) && b.attributes == [] && |b.media| == 1
      && b.media[0].kind == "audio" && b.media[0].protos == ["RTP", "AVP"] && b.media[0].connection.None?
      && b.media[0].port == rtp.port && Attribute("ptime", "20") in b.media[0].attributes
      && (d == SendRecv ==> Attribute("sendrecv", "") in b.media[0].attributes)
      && (forall i :: 0 <= i < |cs| && IsSupported(cs[i]) && cs[i].name == "TELEPHONE-EVENT" ==>
            Attribute("fmtp", Itoa(cs[i].payloadType) + " 0-16") in b.media[0].attributes)
  {
    var all := Built(rtp, rtcp, cs, d).media[0].attributes;
    var n := |AllCodecAttributes(cs)|;
    assert all[n + 1] == Attribute(DirectionText(d), "") && all[n + 2] == Attribute("ptime", "20");
    forall i | 0 <= i < |cs| && IsSupported(cs[i]) && cs[i].name == "TELEPHONE-EVENT"
      ensures Attribute("fmtp", Itoa(cs[i].payloadType) + " 0-16") in all
    {
      EventsAnnounced(cs, i);
    }
  }

  lemma {:induction false} RoundTrip(rtp: AddrPort, rtcp: AddrPort, cs: seq<Codec>, d: Direction)
    requires CanBuild(rtp, rtcp, cs) && AllSupported(cs) && SevenBit(cs) && Coherent(cs)
    requires rtp.host.Host? && rtp.port > 0 && rtcp.port > 0
    ensures ParseAudio(Built(rtp, rtcp, cs, d)) == Ok(Endpoint(rtp, rtcp, d, cs))
  {
    RoundTripIff(rtp, rtcp, cs, d);
  }

  /** One PCMU codec under payload type 128 is printed and not read back. */
  lemma HighPayloadTypeIsLost(address: string, d: Direction)
    ensures var at, rtcp, cs := AddrPort(Host(address), 4000), AddrPort(Host(address), 4001),
      [Codec("PCMU", 128, 8000)];
      CanBuild(at, rtcp, cs) && ParseAudio(Built(at, rtcp, cs, d)) != Ok(Endpoint(at, rtcp, d, cs))
  {
    var at, rtcp, cs := AddrPort(Host(address), 4000), AddrPort(Host(address), 4001), [Codec("PCMU", 128, 8000)];
    assert IsAudio(cs[0]) && cs[0].payloadType >= 128;
    RoundTripIff(at, rtcp, cs, d);
  }

  /** So is an ordinary description of an unspecified address. */
  lemma UnspecifiedHostIsLost(d: Direction)
    ensures var at, rtcp, cs := AddrPort(Unspecified, 4000), AddrPort(Unspecified, 4001), [Codec("PCMU", 0, 8000)];
      CanBuild(at, rtcp, cs) && ParseAudio(Built(at, rtcp, cs, d)) != Ok(Endpoint(at, rtcp, d, cs))
  {
    var at, rtcp, cs := AddrPort(Unspecified, 4000), AddrPort(Unspecified, 4001), [Codec("PCMU", 0, 8000)];
    assert IsAudio(cs[0]);
    RoundTripIff(at, rtcp, cs, d);
  }
}
