/**
 What parsing an arbitrary audio description returns, said of its texts alone
 (internal/sip/sdp/audio.go; sections 5.14 and 6 of RFC 4566 and the static payload
 types of RFC 3551).
 */
module SdpMeaning {
  import opened Wrap
  import opened SdpText
  import opened Sdp

  // ---- One rtpmap attribute ----

  /** The text of an rtpmap attribute, taken apart. */
  datatype Spelling = Spelling(
    lead: string, payload: string, gap: string, name: string, rate: string, extra: string, tail: string)
  {
    function Encoding(): string { name + "/" + (rate + extra) }

    function Whole(): string { lead + payload + gap + Encoding() + tail }

    /** Two fields between spaces, the second a name and a rate, perhaps followed by more parts. */
    ghost predicate Valid() {
      && Blank(lead) && Solid(payload) && gap != [] && Blank(gap) && Solid(Encoding()) && Blank(tail)
      && '/' !in name && '/' !in rate && (extra == [] || extra[0] == '/')
    }

    /** Payload type below 128, 32-bit clock rate, and the name in capitals. */
    ghost predicate Says(c: Codec) {
      && Spelled(payload, c.payloadType) && c.payloadType < 128 && Spelled(rate, c.clockRate)
      && |c.name| == |name|
      && forall i :: 0 <= i < |name| ==>
        c.name[i] as int == if 'a' <= name[i] <= 'z' then name[i] as int - 'a' as int + 'A' as int else name[i] as int
    }
  }

  ghost predicate Spells(value: string, c: Codec) { exists t: Spelling :: t.Valid() && t.Says(c) && t.Whole() == value }

  lemma EncodingSplits(t: Spelling)
    requires t.Valid()
    ensures var parts := SplitSlash(t.Encoding()); |parts| >= 2 && parts[0] == t.name && parts[1] == t.rate
  {
    SplitFirst(t.name, t.rate + t.extra);
    if t.extra == [] {
      assert t.rate + t.extra == t.rate;
      SplitNoSlash(t.rate);
    } else {
      assert t.rate + t.extra == t.rate + "/" + t.extra[1..];
      SplitFirst(t.rate, t.extra[1..]);
    }
  }

  lemma WholeFields(t: Spelling)
    requires t.Valid()
    ensures Fields(t.Whole()) == [t.payload, t.Encoding()]
  {
    var e, afterGap := t.Encoding(), t.Encoding() + t.tail;
    assert t.Whole() == t.lead + (t.payload + (t.gap + afterGap));
    FieldsSkip(t.lead, t.payload + (t.gap + afterGap));
    FieldsTake(t.payload, t.gap + afterGap);
    FieldsSkip(t.gap, afterGap);
    FieldsTake(e, t.tail);
    FieldsNone(t.tail);
  }

  lemma SaysUpper(t: Spelling, c: Codec)
    requires t.Says(c)
    ensures c.name == ToUpper(t.name)
  {
    UpperMeans(t.name);
  }

  lemma SpelledParses(t: Spelling, c: Codec)
    requires t.Valid() && t.Says(c)
    ensures ParseRtpMap(t.Whole()) == Some(c)
  {
    WholeFields(t);
    EncodingSplits(t);
    SaysUpper(t, c);
    DecimalIff(t.payload, c.payloadType);
    DecimalIff(t.rate, c.clockRate);
  }

  /** The two fields of a text, with the spaces around them. */
  lemma TwoFields(s: string) returns (lead: string, a: string, gap: string, b: string, tail: string)
    requires |Fields(s)| == 2
    ensures s == lead + a + gap + b + tail && Fields(s) == [a, b] && Solid(a) && Solid(b)
    ensures Blank(lead) && gap != [] && Blank(gap) && Blank(tail)
  {
    var rest;
    lead, a, rest := FieldsFirst(s);
    gap, b, tail := FieldsFirst(rest);
    FieldsNone(tail);
    assert rest == gap + b + tail;
    assert s == lead + a + gap + b + tail;
  }

  /** A text of at least two parts begins with the first two. */
  lemma TwoParts(e: string) returns (extra: string)
    requires |SplitSlash(e)| >= 2
    ensures var parts := SplitSlash(e);
      && e == parts[0] + "/" + (parts[1] + extra) && (extra == [] || extra[0] == '/')
      && '/' !in parts[0] && '/' !in parts[1]
  {
    var parts := SplitSlash(e);
    SplitMeans(e);
    var rest := parts[1..];
    extra := if |parts| == 2 then [] else "/" + Join(rest[1..]);
    assert Join(rest) == parts[1] + extra;
  }

  lemma ParsedIsSpelled(value: string)
    requires ParseRtpMap(value).Some?
    ensures Spells(value, ParseRtpMap(value).value)
  {
    var c := ParseRtpMap(value).value;
    var lead, a, gap, b, tail := TwoFields(value);
    var parts := SplitSlash(b);
    var extra := TwoParts(b);
    var t := Spelling(lead, a, gap, parts[0], parts[1], extra, tail);
    assert t.Encoding() == b && t.Valid() && t.Whole() == value;
    DecimalIff(a, c.payloadType);
    DecimalIff(parts[1], c.clockRate);
    UpperMeans(parts[0]);
    assert t.Says(c);
  }

  /** An rtpmap is read as a codec exactly when it spells it. */
  lemma RtpMapIff(value: string, c: Codec)
    ensures ParseRtpMap(value) == Some(c) <==> Spells(value, c)
  {
    if ParseRtpMap(value) == Some(c) {
      ParsedIsSpelled(value);
    }
    if Spells(value, c) {
      var t: Spelling :| t.Valid() && t.Says(c) && t.Whole() == value;
      SpelledParses(t, c);
    }
  }

  // ---- All rtpmap attributes ----

  /** The attribute is an rtpmap that spells c. */
  ghost predicate Maps(a: Attribute, c: Codec) { a.key == "rtpmap" && Spells(a.value, c) }

  ghost predicate MapsType(a: Attribute, payload: int) { exists c :: Maps(a, c) && c.payloadType == payload }

  ghost predicate Malformed(a: Attribute) { a.key == "rtpmap" && forall c :: !Spells(a.value, c) }

  /** The last rtpmap for the payload type spells c. */
  ghost predicate LastMaps(attributes: seq<Attribute>, payload: int, c: Codec) {
    exists i :: 0 <= i < |attributes| && IsLastMap(attributes, i, payload, c)
  }

  ghost predicate IsLastMap(attributes: seq<Attribute>, i: int, payload: int, c: Codec)
    requires 0 <= i < |attributes|
  {
    Maps(attributes[i], c) && c.payloadType == payload && forall j :: i < j < |attributes| ==>
      !MapsType(attributes[j], payload)
  }

  ghost predicate NoneMaps(attributes: seq<Attribute>, payload: int) {
    forall i :: 0 <= i < |attributes| ==> !MapsType(attributes[i], payload)
  }

  ghost predicate AnyMalformed(attributes: seq<Attribute>) {
    exists i :: 0 <= i < |attributes| && Malformed(attributes[i])
  }

  lemma MapsIff(a: Attribute, c: Codec)
    ensures Maps(a, c) <==> a.key == "rtpmap" && ParseRtpMap(a.value) == Some(c)
  {
    RtpMapIff(a.value, c);
  }

  lemma MapsTypeIff(a: Attribute, payload: int)
    ensures MapsType(a, payload) <==>
      a.key == "rtpmap" && ParseRtpMap(a.value).Some? && ParseRtpMap(a.value).value.payloadType == payload
  {
    if MapsType(a, payload) {
      var c :| Maps(a, c) && c.payloadType == payload;
      MapsIff(a, c);
    } else if a.key == "rtpmap" && ParseRtpMap(a.value).Some? {
      MapsIff(a, ParseRtpMap(a.value).value);
    }
  }

  lemma MalformedIff(a: Attribute)
    ensures Malformed(a) <==> a.key == "rtpmap" && ParseRtpMap(a.value).None?
  {
    if ParseRtpMap(a.value).Some? {
      RtpMapIff(a.value, ParseRtpMap(a.value).value);
    } else {
      forall c ensures !Spells(a.value, c) {
        RtpMapIff(a.value, c);
      }
    }
  }

  lemma {:induction false} LastMapsNext(attributes: seq<Attribute>, a: Attribute, payload: int, c: Codec)
    ensures LastMaps(attributes + [a], payload, c) <==>
      if MapsType(a, payload) then Maps(a, c) && c.payloadType == payload else LastMaps(attributes, payload, c)
    ensures NoneMaps(attributes + [a], payload) <==> NoneMaps(attributes, payload) && !MapsType(a, payload)
  {
    var all := attributes + [a];
    var n := |attributes|;
    assert all[n] == a && forall i :: 0 <= i < n ==> all[i] == attributes[i];
    if LastMaps(all, payload, c) {
      var i :| 0 <= i < |all| && IsLastMap(all, i, payload, c);
      if i < n {
        assert !MapsType(all[n], payload);
        assert IsLastMap(attributes, i, payload, c);
      } else {
        assert MapsType(a, payload);
      }
    }
    if MapsType(a, payload) && Maps(a, c) && c.payloadType == payload {
      assert IsLastMap(all, n, payload, c);
    }
    if !MapsType(a, payload) && LastMaps(attributes, payload, c) {
      var i :| 0 <= i < n && IsLastMap(attributes, i, payload, c);
      assert IsLastMap(all, i, payload, c);
    }
  }

  lemma {:induction false} AnyMalformedNext(attributes: seq<Attribute>, a: Attribute)
    ensures AnyMalformed(attributes + [a]) <==> AnyMalformed(attributes) || Malformed(a)
  {
    var all := attributes + [a];
    assert all[|attributes|] == a && forall i :: 0 <= i < |attributes| ==> all[i] == attributes[i];
    if AnyMalformed(attributes) {
      var i :| 0 <= i < |attributes| && Malformed(attributes[i]);
      assert Malformed(all[i]);
    }
  }

  /** The table built from the attributes is right about one payload type. */
  ghost predicate RightAbout(m: CodecMap, attributes: seq<Attribute>, payload: uint8) {
    && (payload in m <==> !NoneMaps(attributes, payload))
    && forall c :: LastMaps(attributes, payload, c) <==> payload in m && m[payload] == c
  }

  lemma {:induction false} RightNext(m: CodecMap, attributes: seq<Attribute>, a: Attribute, payload: uint8)
    requires RightAbout(m, attributes, payload) && AddRtpMap(Some(m), a).Some?
    ensures RightAbout(AddRtpMap(Some(m), a).value, attributes + [a], payload)
  {
    MapsTypeIff(a, payload);
    var next := AddRtpMap(Some(m), a).value;
    forall c ensures LastMaps(attributes + [a], payload, c) <==> payload in next && next[payload] == c {
      LastMapsNext(attributes, a, payload, c);
      MapsIff(a, c);
    }
    LastMapsNext(attributes, a, payload, Codec("", 0, 0));
  }

  /** The attributes make a table exactly when none is malformed, and it holds the last rtpmap of each payload type. */
  lemma {:induction false} TableMeans(attributes: seq<Attribute>)
    ensures RtpMaps(attributes).None? <==> AnyMalformed(attributes)
    ensures RtpMaps(attributes).Some? ==>
      forall payload: uint8 :: RightAbout(RtpMaps(attributes).value, attributes, payload)
  {
    if attributes != [] {
      var k := |attributes| - 1;
      var a := attributes[k];
      assert attributes == attributes[..k] + [a];
      TableMeans(attributes[..k]);
      AnyMalformedNext(attributes[..k], a);
      MalformedIff(a);
      if RtpMaps(attributes).Some? {
        forall payload: uint8 ensures RightAbout(RtpMaps(attributes).value, attributes, payload) {
          RightNext(RtpMaps(attributes[..k]).value, attributes[..k], a, payload);
        }
      }
    }
  }

  // ---- The formats ----

  /** Payload types 0 and 8 stand for the G.711 codecs where no rtpmap says otherwise. */
  predicate IsStatic(payload: int, c: Codec) {
    (payload == 0 && c == Codec("PCMU", 0, 8000)) || (payload == 8 && c == Codec("PCMA", 8, 8000))
  }

  predicate IsUsed(c: Codec) { c.clockRate == 8000 && c.name in {"PCMU", "PCMA", "TELEPHONE-EVENT"} }

  ghost predicate Stands(attributes: seq<Attribute>, payload: int, c: Codec) {
    LastMaps(attributes, payload, c) || (NoneMaps(attributes, payload) && IsStatic(payload, c))
  }

  /** The format is the number of a payload type below 128 that stands for the supported codec c. */
  ghost predicate Denotes(media: Media, format: string, c: Codec) {
    exists n: nat :: Spelled(format, n) && n < 128 && Stands(media.attributes, n, c) && IsUsed(c)
  }

  lemma StandsIff(m: CodecMap, attributes: seq<Attribute>, payload: uint8, c: Codec)
    requires RtpMaps(attributes) == Some(m)
    ensures CodecOf(m, payload) == Some(c) <==> Stands(attributes, payload, c)
  {
    TableMeans(attributes);
    assert RightAbout(m, attributes, payload);
  }

  lemma FormatMeans(media: Media, m: CodecMap, format: string, c: Codec)
    requires RtpMaps(media.attributes) == Some(m)
    ensures FormatCodec(m, format) == Some(c) <==> Denotes(media, format, c)
  {
    if FormatCodec(m, format) == Some(c) {
      var n := ParseUint(format, 128).value;
      DecimalIff(format, n);
      StandsIff(m, media.attributes, n, c);
    }
    if Denotes(media, format, c) {
      var n: nat :| Spelled(format, n) && n < 128 && Stands(media.attributes, n, c) && IsUsed(c);
      DecimalIff(format, n);
      StandsIff(m, media.attributes, n, c);
    }
  }

  /** cs are the codecs the formats denote, in order, formats that denote none left out. */
  ghost predicate Lists(media: Media, formats: seq<string>, cs: seq<Codec>) {
    if formats == [] then cs == []
    else
      var k := |formats| - 1;
      if exists c :: Denotes(media, formats[k], c) then
        cs != [] && Denotes(media, formats[k], cs[|cs| - 1]) && Lists(media, formats[..k], cs[..|cs| - 1])
      else Lists(media, formats[..k], cs)
  }

  lemma {:induction false} FormatsMean(media: Media, m: CodecMap, formats: seq<string>)
    requires RtpMaps(media.attributes) == Some(m)
    ensures Lists(media, formats, FormatCodecs(m, formats))
  {
    if formats != [] {
      var k := |formats| - 1;
      FormatsMean(media, m, formats[..k]);
      var codec := FormatCodec(m, formats[k]);
      if codec.Some? {
        FormatMeans(media, m, formats[k], codec.value);
        assert FormatCodecs(m, formats)[..|FormatCodecs(m, formats)| - 1] == FormatCodecs(m, formats[..k]);
      } else {
        forall c ensures !Denotes(media, formats[k], c) {
          FormatMeans(media, m, formats[k], c);
        }
        assert FormatCodecs(m, formats) == FormatCodecs(m, formats[..k]);
      }
    }
  }

  ghost predicate NamesAudio(cs: seq<Codec>) {
    exists i :: 0 <= i < |cs| && (cs[i].name == "PCMU" || cs[i].name == "PCMA")
  }

  /** What the codecs of a media description are, or which error it is. */
  ghost predicate CodecsMean(media: Media, r: Result<seq<Codec>>) {
    if AnyMalformed(media.attributes) then r == Err(InvalidRtpMap)
    else exists cs :: Lists(media, media.formats, cs) && r == if NamesAudio(cs) then Ok(cs) else Err(NoAudio)
  }

  /** Parsing any media description returns the codecs its texts denote. */
  lemma ParsedCodecsMean(media: Media)
    ensures CodecsMean(media, CodecsOf(media))
  {
    TableMeans(media.attributes);
    if !AnyMalformed(media.attributes) {
      FormatsMean(media, RtpMaps(media.attributes).value, media.formats);
      var cs := FormatCodecs(RtpMaps(media.attributes).value, media.formats);
      assert NamesAudio(cs) <==> HasAudioCodec(cs);
      assert Lists(media, media.formats, cs);
    }
  }

  // ---- The rest of a description ----

  ghost predicate IsFirst(attributes: seq<Attribute>, key: string, i: int) {
    0 <= i < |attributes| && attributes[i].key == key && forall j :: 0 <= j < i ==> attributes[j].key != key
  }

  ghost predicate Has(attributes: seq<Attribute>, key: string) {
    exists i :: 0 <= i < |attributes| && attributes[i].key == key
  }

  lemma {:induction false} FindMeans(attributes: seq<Attribute>, key: string)
    ensures Find(attributes, key).Some? <==> Has(attributes, key)
    ensures forall i :: IsFirst(attributes, key, i) ==> Find(attributes, key) == Some(attributes[i].value)
  {
    if attributes != [] {
      FindMeans(attributes[1..], key);
      if attributes[0].key != key {
        if Has(attributes[1..], key) {
          var i :| 0 <= i < |attributes| - 1 && attributes[1..][i].key == key;
          assert attributes[i + 1].key == key;
        }
        forall i | IsFirst(attributes, key, i) ensures Find(attributes, key) == Some(attributes[i].value) {
          assert IsFirst(attributes[1..], key, i - 1);
        }
      }
    }
  }

  ghost predicate Says(d: Description, m: Media, key: string) { Has(m.attributes, key) || Has(d.attributes, key) }

  /**
   Inactive, sendonly and recvonly are looked for in this order, in the media and in the session; otherwise sendrecv.
   */
  lemma DirectionMeans(d: Description, m: Media)
    ensures var r := MediaDirection(d, m);
      && (r == Inactive <==> Says(d, m, "inactive"))
      && (r == SendOnly <==> !Says(d, m, "inactive") && Says(d, m, "sendonly"))
      && (r == RecvOnly <==> !Says(d, m, "inactive") && !Says(d, m, "sendonly") && Says(d, m, "recvonly"))
  {
    FindMeans(m.attributes, "inactive");
    FindMeans(d.attributes, "inactive");
    FindMeans(m.attributes, "sendonly");
    FindMeans(d.attributes, "sendonly");
    FindMeans(m.attributes, "recvonly");
    FindMeans(d.attributes, "recvonly");
  }

  /** The text begins, after spaces, with n, followed by a space or nothing. */
  ghost predicate BeginsWith(value: string, n: nat) {
    exists blank, digits, rest ::
      value == blank + digits + rest && Blank(blank) && Solid(digits) && Spelled(digits, n)
      && (rest == [] || IsSpace(rest[0]))
  }

  lemma BeginsIff(value: string, n: nat)
    ensures BeginsWith(value, n) <==> Fields(value) != [] && Decimal(Fields(value)[0]) == Some(n)
  {
    if BeginsWith(value, n) {
      var blank, digits, rest :|
        value == blank + digits + rest && Blank(blank) && Solid(digits) && Spelled(digits, n)
        && (rest == [] || IsSpace(rest[0]));
      assert value == blank + (digits + rest);
      FieldsSkip(blank, digits + rest);
      FieldsTake(digits, rest);
      DecimalIff(digits, n);
    }
    if Fields(value) != [] && Decimal(Fields(value)[0]) == Some(n) {
      var blank, digits, rest := FieldsFirst(value);
      DecimalIff(digits, n);
    }
  }

  /** The next port where no rtcp attribute is; otherwise the non-zero port the first one begins with, if it does. */
  lemma RtcpPortMeans(m: Media)
    ensures !Has(m.attributes, "rtcp") ==>
      RtcpPort(m) == Some(if m.port % 65536 == 65535 then 0 else m.port % 65536 + 1)
    ensures forall i, n: nat :: IsFirst(m.attributes, "rtcp", i) ==>
      (RtcpPort(m) == Some(n) <==> BeginsWith(m.attributes[i].value, n) && 0 < n < 65536)
    ensures Has(m.attributes, "rtcp") ==> exists i :: IsFirst(m.attributes, "rtcp", i)
  {
    FindMeans(m.attributes, "rtcp");
    if Has(m.attributes, "rtcp") {
      var i := FirstIndex(m.attributes, "rtcp");
    }
    forall i, n: nat | IsFirst(m.attributes, "rtcp", i)
      ensures RtcpPort(m) == Some(n) <==> BeginsWith(m.attributes[i].value, n) && 0 < n < 65536
    {
      BeginsIff(m.attributes[i].value, n);
    }
  }

  lemma {:induction false} FirstIndex(attributes: seq<Attribute>, key: string) returns (i: nat)
    requires Has(attributes, key)
    ensures IsFirst(attributes, key, i)
  {
    i := 0;
    while attributes[i].key != key
      invariant i < |attributes| && forall j :: 0 <= j < i ==> attributes[j].key != key
      decreases |attributes| - i
    {
      var k :| 0 <= k < |attributes| && attributes[k].key == key;
      i := i + 1;
    }
  }

  ghost predicate IsFirstAudio(media: seq<Media>, i: int) {
    0 <= i < |media| && media[i].kind == "audio" && forall j :: 0 <= j < i ==> media[j].kind != "audio"
  }

  lemma {:induction false} AudioMediaMeans(media: seq<Media>)
    ensures AudioMedia(media).None? <==> forall i :: 0 <= i < |media| ==> media[i].kind != "audio"
    ensures forall i :: IsFirstAudio(media, i) ==> AudioMedia(media) == Some(media[i])
  {
    if media != [] {
      AudioMediaMeans(media[1..]);
      if media[0].kind != "audio" {
        forall i | IsFirstAudio(media, i) ensures AudioMedia(media) == Some(media[i]) {
          assert IsFirstAudio(media[1..], i - 1);
        }
        if AudioMedia(media).None? {
          forall i | 0 <= i < |media| ensures media[i].kind != "audio" {
            assert i > 0 ==> media[i] == media[1..][i - 1];
          }
        } else {
          var i :| 0 <= i < |media| - 1 && media[1..][i].kind == "audio";
          assert media[i + 1].kind == "audio";
        }
      }
    }
  }

  /** The media's own address goes before the session's. */
  function AddressOf(d: Description, m: Media): Host {
    match (m.connection, d.connection)
    case (Some(own), _) => own
    case (None, Some(shared)) => shared
    case (None, None) => Unparsable
  }

  /** A description is read from its first audio media: each error in its turn, or every part of the endpoint. */
  lemma ParseAudioMeans(d: Description, i: int)
    requires IsFirstAudio(d.media, i)
    ensures var m, r := d.media[i], ParseAudio(d);
      if m.port < 1 || m.port > 65535 then r == Err(NoAudio)
      else if m.protos != ["RTP", "AVP"] then r == Err(UnsupportedProfile)
      else if !AddressOf(d, m).Host? then r == Err(InvalidAddress)
      else if RtcpPort(m).None? then r == Err(InvalidRtcp)
      else if r.Err? then CodecsMean(m, Err(r.error))
      else
        && CodecsMean(m, Ok(r.value.codecs)) && r.value.rtp == AddrPort(AddressOf(d, m), m.port)
        && r.value.rtcp == AddrPort(AddressOf(d, m), RtcpPort(m).value)
        && r.value.direction == MediaDirection(d, m)
  {
    AudioMediaMeans(d.media);
    ParsedCodecsMean(d.media[i]);
  }

  lemma NoAudioMeans(d: Description)
    requires forall i :: 0 <= i < |d.media| ==> d.media[i].kind != "audio"
    ensures ParseAudio(d) == Err(NoAudio)
  {
    AudioMediaMeans(d.media);
  }

  // ---- Texts that printing never produces ----

  lemma {:induction false} NoMaps(attributes: seq<Attribute>)
    requires forall i :: 0 <= i < |attributes| ==> attributes[i].key != "rtpmap"
    ensures RtpMaps(attributes) == Some(map[])
  {
    if attributes != [] {
      NoMaps(attributes[..|attributes| - 1]);
    }
  }

  /** Without any rtpmap the format 0 alone is PCMU and the format 8 alone is PCMA, both at 8000. */
  lemma StaticFormat(media: Media)
    requires forall i :: 0 <= i < |media.attributes| ==> media.attributes[i].key != "rtpmap"
    ensures media.formats == ["0"] ==> CodecsOf(media) == Ok([Codec("PCMU", 0, 8000)])
    ensures media.formats == ["8"] ==> CodecsOf(media) == Ok([Codec("PCMA", 8, 8000)])
  {
    NoMaps(media.attributes);
    OneFormat("0", Codec("PCMU", 0, 8000));
    OneFormat("8", Codec("PCMA", 8, 8000));
  }

  lemma OneFormat(format: string, c: Codec)
    requires IsAudio(c) && c.clockRate == 8000 && CodecOf(map[], c.payloadType) == Some(c)
    requires c.payloadType < 10 && format == [DigitChar(c.payloadType)]
    ensures FormatCodecs(map[], [format]) == [c] && HasAudioCodec([c])
  {
    assert format == Itoa(c.payloadType) && [format][..0] == [];
    DecimalOfItoa(c.payloadType);
    assert IsAudio([c][0]);
  }

  /** A name in any letters is read in capitals. */
  lemma AnyLetters(payload: nat, name: string, rate: nat)
    requires payload < 128 && rate < 0x1_0000_0000 && Solid(name) && '/' !in name
    ensures ParseRtpMap(Itoa(payload) + " " + (name + "/" + Itoa(rate))) == Some(Codec(ToUpper(name), payload, rate))
  {
    DecimalOfItoa(payload);
    DecimalOfItoa(rate);
    var encoding := name + "/" + Itoa(rate);
    DigitsPlain(Itoa(payload));
    DigitsPlain(Itoa(rate));
    assert Solid(encoding);
    FieldsOfTwo(Itoa(payload), encoding);
    SplitOnce(name, Itoa(rate));
  }

  lemma DigitsPlain(s: string)
    requires s != [] && forall i :: 0 <= i < |s| ==> IsDigit(s[i])
    ensures Solid(s) && '/' !in s
  {
  }

  lemma {:induction false} UpperConcat(a: string, b: string)
    ensures ToUpper(a + b) == ToUpper(a) + ToUpper(b)
  {
    if a == [] {
      assert a + b == b;
    } else {
      UpperConcat(a[1..], b);
      assert (a + b)[1..] == a[1..] + b;
    }
  }

  lemma UpperOf(small: string, capital: string)
    requires |small| == |capital|
    requires forall i :: 0 <= i < |small| ==> capital[i] == UpperChar(small[i])
    ensures ToUpper(small) == capital
  {
    UpperMeans(small);
  }

  lemma UpperPieces(a: string, b: string, c: string)
    ensures ToUpper(a + b + c) == ToUpper(a) + ToUpper(b) + ToUpper(c)
  {
    UpperConcat(a + b, c);
    UpperConcat(a, b);
  }

  /** The name of DTMF events in small letters, in three pieces, is read as the one that is supported. */
  lemma TelephoneEvent()
    ensures ToUpper("telep" + "hone-" + "event") == "TELEP" + "HONE-" + "EVENT"
  {
    UpperOf("telep", "TELEP");
    UpperOf("hone-", "HONE-");
    UpperOf("event", "EVENT");
    UpperPieces("telep", "hone-", "event");
  }
}
