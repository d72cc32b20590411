/**
 RTCP round-trip time (internal/media/session/rtcp.go and endpoint.go): compact NTP
 times, the delay since the last sender report and the difference that is stored,
 all modulo 2^32 (sections 4 and 6.4.1 of RFC 3550). Times are nanoseconds of the
 wall clock of the node that reads them.
 */
module RtcpRoundTrip {
  import opened Wrap

  const NTP_EPOCH_OFFSET := 2208988800

  type uint64 = x: int | 0 <= x < 0x1_0000_0000_0000_0000

  /** ntpTimestamp: seconds in the upper half, a binary fraction in the lower. */
  function NtpTimestamp(t: int): uint64 {
    U32(t / 1_000_000_000 + NTP_EPOCH_OFFSET) * 0x1_0000_0000 + (t % 1_000_000_000) * 0x1_0000_0000 / 1_000_000_000
  }

  function CompactNtp(v: uint64): uint32 { U32(v / 0x1_0000) }

  function Compact(t: int): uint32 { CompactNtp(NtpTimestamp(t)) }

  /** int64(x): the representative of x modulo 2^64 in -2^63 .. 2^63 - 1. */
  function I64(x: int): int {
    var r := x % 0x1_0000_0000_0000_0000;
    if r < 0x8000_0000_0000_0000 then r else r - 0x1_0000_0000_0000_0000
  }

  /** Go's quotient, truncated toward zero. */
  function TruncDiv(a: int, b: int): int
    requires b > 0
  {
    if a >= 0 then a / b else -((-a) / b)
  }

  /** The Delay field of a reception report written at `now`. */
  function Delay(lastSR: uint32, receivedAt: int, now: int): uint32 {
    if lastSR == 0 || receivedAt == 0 || now <= receivedAt then 0
    else
      var units := TruncDiv(I64((now - receivedAt) * 65536), 1_000_000_000) % 0x1_0000_0000_0000_0000;
      if units < 0xFFFF_FFFF then units else 0xFFFF_FFFF
  }

  datatype ReceptionReport = ReceptionReport(ssrc: uint32, lastSenderReport: uint32, delay: uint32)

  datatype ControlPacket =
    | SenderReport(ssrc: uint32, ntpTime: uint64, reports: seq<ReceptionReport>)
    | ReceiverReport(ssrc: uint32, reports: seq<ReceptionReport>)

  /** The round trip in units of 1/65536 s stored for a report, if one is. */
  function RttUnits(lastSR: uint32, delay: uint32, lastSentSR: uint32, receivedAt: int): Option<uint32> {
    var arrival := Compact(receivedAt);
    if lastSR == 0 || lastSR != lastSentSR then None
    else if arrival > U32(lastSR + delay) then Some(U32(U32(arrival - lastSR) - delay))
    else None
  }

  function RttNanos(units: uint32): int { units * 1_000_000_000 / 65536 }

  /** The first report about our stream. */
  function Ours(reports: seq<ReceptionReport>, ssrc: uint32): Option<ReceptionReport> {
    if reports == [] then None
    else if reports[0].ssrc == ssrc then Some(reports[0])
    else Ours(reports[1..], ssrc)
  }

  /** The report that counts is the first with our SSRC. */
  lemma {:induction false} OursMeans(reports: seq<ReceptionReport>, ssrc: uint32, i: nat)
    requires i < |reports| && reports[i].ssrc == ssrc && forall j :: 0 <= j < i ==> reports[j].ssrc != ssrc
    ensures Ours(reports, ssrc) == Some(reports[i])
  {
    if i > 0 {
      OursMeans(reports[1..], ssrc, i - 1);
    }
  }

  lemma {:induction false} NoneIsOurs(reports: seq<ReceptionReport>, ssrc: uint32)
    requires forall j :: 0 <= j < |reports| ==> reports[j].ssrc != ssrc
    ensures Ours(reports, ssrc).None?
  {
    if reports != [] {
      NoneIsOurs(reports[1..], ssrc);
    }
  }

  class Endpoint {
    var lastSentSR: uint32
    var lastRemoteSR: uint32
    var lastRemoteSRNanos: int
    var rttNanos: int

    constructor ()
      ensures lastSentSR == 0 && lastRemoteSR == 0 && lastRemoteSRNanos == 0 && rttNanos == 0
    {
      lastSentSR, lastRemoteSR, lastRemoteSRNanos, rttNanos := 0, 0, 0, 0;
    }

    /** writeRTCP: reports on the inbound stream, if it has an SSRC, inside a sender report once packets were sent. */
    method Write(inboundSsrc: uint32, senderSsrc: uint32, senderPackets: nat, now: int) returns (packet: ControlPacket)
      modifies this`lastSentSR
      ensures lastSentSR == if senderPackets > 0 then Compact(now) else old(lastSentSR)
      ensures packet.SenderReport? <==> senderPackets > 0
      ensures packet.SenderReport? ==> CompactNtp(packet.ntpTime) == lastSentSR
      ensures packet.ssrc == senderSsrc
      ensures packet.reports == if inboundSsrc == 0 then []
                                else [ReceptionReport(inboundSsrc, lastRemoteSR,
                                  Delay(lastRemoteSR, lastRemoteSRNanos, now))]
    {
      var reports := [];
      if inboundSsrc != 0 {
        reports := [ReceptionReport(inboundSsrc, lastRemoteSR, Delay(lastRemoteSR, lastRemoteSRNanos, now))];
      }
      if senderPackets > 0 {
        var ntp := NtpTimestamp(now);
        lastSentSR := CompactNtp(ntp);
        packet := SenderReport(senderSsrc, ntp, reports);
      } else {
        packet := ReceiverReport(senderSsrc, reports);
      }
    }

    /** readRTCP for one decoded packet. */
    method Read(packet: ControlPacket, senderSsrc: uint32, now: int)
      modifies this`lastRemoteSR, this`lastRemoteSRNanos, this`rttNanos
      ensures packet.SenderReport? ==> lastRemoteSR == CompactNtp(packet.ntpTime) && lastRemoteSRNanos == now
      ensures packet.ReceiverReport? ==>
        lastRemoteSR == old(lastRemoteSR) && lastRemoteSRNanos == old(lastRemoteSRNanos)
      ensures rttNanos == StoredRtt(packet.reports, senderSsrc, lastSentSR, now, old(rttNanos))
    {
      if packet.SenderReport? {
        lastRemoteSR := CompactNtp(packet.ntpTime);
        lastRemoteSRNanos := now;
      }
      UpdateRemoteReport(packet.reports, senderSsrc, now);
    }

    method UpdateRemoteReport(reports: seq<ReceptionReport>, senderSsrc: uint32, receivedAt: int)
      modifies this`rttNanos
      ensures rttNanos == StoredRtt(reports, senderSsrc, lastSentSR, receivedAt, old(rttNanos))
      ensures Ours(reports, senderSsrc).None? || Ours(reports, senderSsrc).value.lastSenderReport != lastSentSR ==>
        rttNanos == old(rttNanos)
    {
      for i := 0 to |reports|
        invariant rttNanos == old(rttNanos)
        invariant Ours(reports, senderSsrc) == Ours(reports[i..], senderSsrc)
      {
        var report := reports[i];
        if report.ssrc == senderSsrc {
          if report.lastSenderReport != 0 && report.lastSenderReport == lastSentSR {
            var arrival := CompactNtp(NtpTimestamp(receivedAt));
            if arrival > U32(report.lastSenderReport + report.delay) {
              var rttUnits := U32(U32(arrival - report.lastSenderReport) - report.delay);
              rttNanos := RttNanos(rttUnits);
            }
          }
          return;
        }
      }
    }
  }

  function StoredRtt(reports: seq<ReceptionReport>, ssrc: uint32, lastSentSR: uint32, receivedAt: int, before: int)
    : int
  {
    var report := Ours(reports, ssrc);
    if report.None? then before
    else
      var units := RttUnits(report.value.lastSenderReport, report.value.delay, lastSentSR, receivedAt);
      if units.None? then before else RttNanos(units.value)
  }

  // ---- Compact time is the real time in units of 1/65536 s ----

  /** Whole units since the NTP epoch. */
  function Units(t: int): int { t * 65536 / 1_000_000_000 + NTP_EPOCH_OFFSET * 65536 }

  lemma FractionUnits(n: int)
    requires 0 <= n < 1_000_000_000
    ensures (n * 0x1_0000_0000 / 1_000_000_000) / 0x1_0000 == n * 65536 / 1_000_000_000
    ensures 0 <= n * 0x1_0000_0000 / 1_000_000_000 < 0x1_0000_0000
  {
  }

  lemma UnitsSplit(t: int)
    ensures t * 65536 / 1_000_000_000 == (t / 1_000_000_000) * 65536 + (t % 1_000_000_000) * 65536 / 1_000_000_000
  {
  }

  lemma HighPart(h: int, f: int)
    requires 0 <= f
    ensures (h * 0x1_0000_0000 + f) / 0x1_0000 == h * 0x1_0000 + f / 0x1_0000
  {
  }

  lemma AddTurns(x: int, turns: int)
    ensures U32(x + turns * 0x1_0000_0000) == U32(x)
  {
  }

  lemma CompactParts(s: int, f: int)
    requires 0 <= f < 0x1_0000_0000
    ensures U32((U32(s) * 0x1_0000_0000 + f) / 0x1_0000) == U32(s * 0x1_0000 + f / 0x1_0000)
  {
    HighPart(U32(s), f);
    var turns := s / 0x1_0000_0000;
    assert s == U32(s) + turns * 0x1_0000_0000;
    AddTurns(U32(s) * 0x1_0000 + f / 0x1_0000, turns * 0x1_0000);
  }

  lemma CompactIsUnits(t: int)
    ensures Compact(t) == U32(Units(t))
  {
    var n := t % 1_000_000_000;
    var s := t / 1_000_000_000 + NTP_EPOCH_OFFSET;
    FractionUnits(n);
    CompactParts(s, n * 0x1_0000_0000 / 1_000_000_000);
    assert Units(t) == s * 65536 + n * 65536 / 1_000_000_000 by {
      UnitsSplit(t);
    }
  }

  lemma UnitsError(t: int, t': int)
    ensures -1_000_000_000 < (Units(t') - Units(t)) * 1_000_000_000 - (t' - t) * 65536 < 1_000_000_000
  {
  }

  /** Under 2^47 ns the product fits int64; the field then holds the elapsed units, or its maximum. */
  lemma DelayIsElapsed(lastSR: uint32, receivedAt: int, now: int)
    requires lastSR != 0 && receivedAt != 0 && 0 <= now - receivedAt < 0x8000_0000_0000
    ensures var units := (now - receivedAt) * 65536 / 1_000_000_000;
      Delay(lastSR, receivedAt, now) == if units < 0xFFFF_FFFF then units else 0xFFFF_FFFF
  {
    var e := now - receivedAt;
    assert 0 <= e * 65536 < 0x8000_0000_0000_0000;
    assert I64(e * 65536) == e * 65536;
  }

  /** Without a report, or with a clock that went back, there is no delay to report. */
  lemma NoDelay(lastSR: uint32, receivedAt: int, now: int)
    requires lastSR == 0 || receivedAt == 0 || now <= receivedAt
    ensures Delay(lastSR, receivedAt, now) == 0
  {
  }

  // ---- One exchange: report sent at t1 and received at t2, answered at t3, answer received at t4 ----

  function AnsweredDelay(t1: int, t2: int, t3: int): uint32 { Delay(Compact(t1), t2, t3) }

  /** The difference the arithmetic stands for, before it is reduced to 32 bits. */
  function Difference(t1: int, t2: int, t3: int, t4: int): int { Units(t4) - Units(t1) - AnsweredDelay(t1, t2, t3) }

  function Stored(t1: int, t2: int, t3: int, t4: int): Option<uint32> {
    RttUnits(Compact(t1), AnsweredDelay(t1, t2, t3), Compact(t1), t4)
  }

  /** The path takes no negative time and the difference fits the 32 bits it is kept in; zero marks an absent time. */
  ghost predicate Admissible(t1: int, t2: int, t3: int, t4: int) {
    && Compact(t1) != 0 && t2 != 0
    && 0 <= t3 - t2 <= t4 - t1
    && Difference(t1, t2, t3, t4) < 0x1_0000_0000
  }

  /** A round trip of r units lies more than x - 1 and less than x + 2, where x is the true one. */
  ghost predicate Within(r: int, t1: int, t2: int, t3: int, t4: int) {
    var x := ((t4 - t1) - (t3 - t2)) * 65536;
    x - 1_000_000_000 < r * 1_000_000_000 < x + 2_000_000_000
  }

  ghost predicate Accurate(t1: int, t2: int, t3: int, t4: int) {
    var r := Stored(t1, t2, t3, t4);
    Admissible(t1, t2, t3, t4) && r.Some? ==> Within(r.value, t1, t2, t3, t4)
  }

  /** A stored value is the difference modulo 2^32, wherever the wraps fall. */
  lemma StoredIsDifference(t1: int, t2: int, t3: int, t4: int)
    ensures var r := Stored(t1, t2, t3, t4);
      r.Some? ==> r.value == U32(Difference(t1, t2, t3, t4))
  {
    CompactIsUnits(t1);
    CompactIsUnits(t4);
    ModTwice(Units(t4), Units(t1), AnsweredDelay(t1, t2, t3));
  }

  lemma Reduced(d: int)
    requires 0 <= d < 0x1_0000_0000
    ensures U32(d) == d
  {
  }

  lemma ModTwice(a: int, b: int, d: int)
    ensures U32(U32(U32(a) - U32(b)) - d) == U32(a - b - d)
  {
  }

  /** Of two values less than a turn apart, the later reduces to the greater exactly when no turn lies between. */
  lemma SameTurnIff(a: int, b: int)
    requires 0 <= b - a < 0x1_0000_0000
    ensures U32(b) > U32(a) <==> b > a && a / 0x1_0000_0000 == b / 0x1_0000_0000
  {
  }

  /**
   An exchange whose difference fits is stored exactly when the report's time is not zero, the difference is positive
   and no turn of the compact time lies between the report's time plus the delay and the arrival.
   */
  lemma StoredIff(t1: int, t2: int, t3: int, t4: int)
    requires 0 <= Difference(t1, t2, t3, t4) < 0x1_0000_0000
    ensures var due := Units(t1) + AnsweredDelay(t1, t2, t3);
      Stored(t1, t2, t3, t4).Some? <==>
        Compact(t1) != 0 && Difference(t1, t2, t3, t4) > 0 && due / 0x1_0000_0000 == Units(t4) / 0x1_0000_0000
  {
    CompactIsUnits(t1);
    CompactIsUnits(t4);
    AddModulo(Units(t1), AnsweredDelay(t1, t2, t3));
    SameTurnIff(Units(t1) + AnsweredDelay(t1, t2, t3), Units(t4));
  }

  /** A round trip of one second around the start of a turn, answered at once, is not stored. */
  lemma TurnIsDropped()
    ensures var t1, t4 := 33151_500_000_000, 33152_500_000_000;
      && Admissible(t1, 1, 1, t4) && Difference(t1, 1, 1, t4) == 65536 && Stored(t1, 1, 1, t4).None?
  {
    var t1, t4 := 33151_500_000_000, 33152_500_000_000;
    assert Units(t1) == 33707 * 0x1_0000_0000 - 32768 && Units(t4) == 33707 * 0x1_0000_0000 + 32768;
    assert AnsweredDelay(t1, 1, 1) == 0;
    CompactIsUnits(t1);
    WholeTurns(33706, 0x1_0000_0000 - 32768);
    StoredIff(t1, 1, 1, t4);
  }

  /** How far the field falls short of the elapsed time, in units of 10^-9 of a unit. */
  lemma DelayError(t1: int, t2: int, t3: int)
    requires Compact(t1) != 0 && t2 != 0 && 0 <= t3 - t2 < 0x8000_0000_0000
    ensures var short := (t3 - t2) * 65536 - AnsweredDelay(t1, t2, t3) * 1_000_000_000;
      if t3 - t2 < 65536_000_000_000 then 0 <= short < 1_000_000_000
      else AnsweredDelay(t1, t2, t3) == 0xFFFF_FFFF
  {
    DelayIsElapsed(Compact(t1), t2, t3);
  }

  lemma ErrorsAddUp(units: int, delay: int, path: int, e: int)
    requires -1_000_000_000 < units * 1_000_000_000 - path * 65536 < 1_000_000_000 && 0 <= e <= path
    requires 0 <= e * 65536 - delay * 1_000_000_000 < 1_000_000_000 || (e == 65536_000_000_000 && delay == 0xFFFF_FFFF)
    ensures (path - e) * 65536 - 1_000_000_000 < (units - delay) * 1_000_000_000 < (path - e) * 65536 + 2_000_000_000
    ensures units - delay >= 0
  {
  }

  /** Up to 65536 s at the peer, every stored round trip is accurate, across every wrap of the compact time. */
  lemma RttIsAccurate(t1: int, t2: int, t3: int, t4: int)
    requires t3 - t2 <= 65536_000_000_000
    ensures Accurate(t1, t2, t3, t4)
  {
    if Admissible(t1, t2, t3, t4) {
      StoredIsDifference(t1, t2, t3, t4);
      DelayError(t1, t2, t3);
      UnitsError(t1, t4);
      ErrorsAddUp(Units(t4) - Units(t1), AnsweredDelay(t1, t2, t3), t4 - t1, t3 - t2);
      Reduced(Difference(t1, t2, t3, t4));
    }
  }

  /**
   Beyond it the field is clipped and some exchange is misjudged: t1 leaves the largest fraction of a
   unit and t4 none, so the clipping shows in full.
   */
  lemma ClippedDelayMisjudges(e: int) returns (t1: int, t4: int)
    requires 65536_000_000_000 < e < 131071_000_000_000
    ensures !Accurate(t1, 1, 1 + e, t4)
  {
    t1 := 33152_001_663_208;
    var k := (t1 + e + 1953124) / 1953125;
    t4 := k * 1953125;
    assert Units(t1) == 33707 * 0x1_0000_0000 + 108;
    WholeUnits(k);
    CompactIsUnits(t1);
    DelayError(t1, 1, 1 + e);
    var d := Difference(t1, 1, 1 + e, t4);
    ClippedDifference(e, t4, d);
    Reduced(d);
    ClippedIsStored(e, t1, t4);
    StoredIsDifference(t1, 1, 1 + e, t4);
  }

  lemma WholeUnits(k: int)
    ensures Units(k * 1953125) == 128 * k + NTP_EPOCH_OFFSET * 65536
  {
    assert k * 1953125 * 65536 == 128 * k * 1_000_000_000;
    ExactQuotient(128 * k);
  }

  lemma ExactQuotient(a: int)
    ensures a * 1_000_000_000 / 1_000_000_000 == a
  {
  }

  lemma ClippedDifference(e: int, t4: int, d: int)
    requires 65536_000_000_000 < e < 131071_000_000_000
    requires 0 <= t4 - 33152_001_663_208 - e < 1953125
    requires (d + 0xFFFF_FFFF + 33707 * 0x1_0000_0000 + 108 - NTP_EPOCH_OFFSET * 65536) * 1_000_000_000 == t4 * 65536
    ensures d * 1_000_000_000 >= (t4 - 33152_001_663_208 - e) * 65536 + 2_000_000_000
    ensures 0 < d < 0x1_0000_0000 - 108
  {
  }

  lemma ClippedIsStored(e: int, t1: int, t4: int)
    requires Units(t1) == 33707 * 0x1_0000_0000 + 108 && AnsweredDelay(t1, 1, 1 + e) == 0xFFFF_FFFF
    requires 0 < Difference(t1, 1, 1 + e, t4) < 0x1_0000_0000 - 108
    ensures Stored(t1, 1, 1 + e, t4).Some?
  {
    CompactIsUnits(t1);
    CompactIsUnits(t4);
    WholeTurns(33707, 108);
    WholeTurns(33708, 107 + Difference(t1, 1, 1 + e, t4));
    WholeTurns(1, 107);
  }

  lemma WholeTurns(turns: int, d: int)
    requires 0 <= d < 0x1_0000_0000
    ensures U32(turns * 0x1_0000_0000 + d) == d
  {
  }

  /** Close to two turns of the field, an early t1 in its turn still gets a far too large value stored. */
  lemma SecondTurnMisjudges(e: int)
    requires 131071_000_000_000 <= e < 131071_999_984_741
    ensures !Accurate(33152_000_015_259, 1, 1 + e, 33152_000_015_259 + e)
  {
    var t1 := 33152_000_015_259;
    var t4 := t1 + e;
    assert Units(t1) == 33707 * 0x1_0000_0000 + 1;
    CompactIsUnits(t1);
    CompactIsUnits(t4);
    DelayError(t1, 1, 1 + e);
    var d := Difference(t1, 1, 1 + e, t4);
    SecondTurnDifference(e, Units(t4) - Units(t1));
    WholeTurns(33707, 1);
    WholeTurns(33708, d);
    WholeTurns(1, 0);
    Reduced(d);
    StoredIsDifference(t1, 1, 1 + e, t4);
  }

  lemma SecondTurnDifference(e: int, units: int)
    requires 131071_000_000_000 <= e < 131071_999_984_741
    requires units == (33152_000_015_259 + e) * 65536 / 1_000_000_000 - 33152_000_015_259 * 65536 / 1_000_000_000
    ensures 0x8000_0000 < units - 0xFFFF_FFFF < 0x1_0000_0000
  {
  }

  /** The instants whose compact time is 1 start 13824 billionths into a unit. */
  lemma FractionOfOne(t: int)
    requires Compact(t) == 1
    ensures t * 65536 % 1_000_000_000 >= 13824
  {
    CompactIsUnits(t);
    var turns := Units(t) / 0x1_0000_0000;
    SmallestFraction(t, turns * 65536 - NTP_EPOCH_OFFSET, t * 65536 % 1_000_000_000);
  }

  lemma SmallestFraction(t: int, k: int, f: int)
    requires t * 65536 == (1 + k * 65536) * 1_000_000_000 + f && f >= 0
    ensures f >= 13824
  {
    var z := t - k * 1_000_000_000;
    assert f == 65536 * z - 1_000_000_000;
  }

  /**
   Nothing is stored for a difference two short of a full turn, except by an exchange that started at compact time 1.
   */
  lemma StoredNearTurn(s: uint32, a: int)
    requires s != 0 && a == s + 0x1_FFFF_FFFE && U32(a) > U32(s + 0xFFFF_FFFF)
    ensures s == 1
  {
  }

  /** Beyond two turns of the field no value is stored that the bound speaks of. */
  lemma LongDelayIsVacuous(t1: int, t2: int, t3: int, t4: int)
    requires 131071_999_984_741 <= t3 - t2 < 0x8000_0000_0000 && Admissible(t1, t2, t3, t4)
    ensures Stored(t1, t2, t3, t4).None?
  {
    DelayError(t1, t2, t3);
    var units := Units(t4) - Units(t1);
    LargestDifference(t1, t4, units);
    if Stored(t1, t2, t3, t4).Some? {
      CompactIsUnits(t1);
      CompactIsUnits(t4);
      var turns := Units(t1) / 0x1_0000_0000;
      AddTurns(Compact(t1) + units, turns);
      StoredNearTurn(Compact(t1), Compact(t1) + units);
      FractionOfOne(t1);
      assert false;
    }
  }

  lemma LargestDifference(t1: int, t4: int, units: int)
    requires t4 - t1 >= 131071_999_984_741 && units == Units(t4) - Units(t1) && units <= 0x1_FFFF_FFFE
    ensures units == 0x1_FFFF_FFFE && t1 * 65536 % 1_000_000_000 < 13824
  {
  }

  /**
   The bound holds for every exchange exactly when the peer takes at most 65536 s, or all but two turns of the field.
   */
  lemma RttAccurateIff(e: int)
    requires e < 0x8000_0000_0000
    ensures (forall t1, t2, t3, t4 :: t3 - t2 == e ==> Accurate(t1, t2, t3, t4)) <==>
      e <= 65536_000_000_000 || e >= 131071_999_984_741
  {
    if e <= 65536_000_000_000 {
      forall t1, t2, t3, t4 | t3 - t2 == e ensures Accurate(t1, t2, t3, t4) {
        RttIsAccurate(t1, t2, t3, t4);
      }
    } else if e < 131071_000_000_000 {
      var t1, t4 := ClippedDelayMisjudges(e);
      assert !Accurate(t1, 1, 1 + e, t4);
    } else if e < 131071_999_984_741 {
      SecondTurnMisjudges(e);
    } else {
      forall t1, t2, t3, t4 | t3 - t2 == e ensures Accurate(t1, t2, t3, t4) {
        if Admissible(t1, t2, t3, t4) {
          LongDelayIsVacuous(t1, t2, t3, t4);
        }
      }
    }
  }

  /** The nanoseconds kept are the units' length rounded down. */
  lemma NanosOfUnits(units: uint32)
    ensures RttNanos(units) * 65536 <= units * 1_000_000_000 < RttNanos(units) * 65536 + 65536
  {
  }

  /** Stays at the peer for which every stored round trip is within the bound. */
  predicate IsSafeStay(e: int) { e <= 65536_000_000_000 || 131071_999_984_741 <= e < 0x8000_0000_0000 }

  /**
   Four operations on two nodes: what node `a` keeps afterwards is the difference modulo 2^32, and whenever the stay
   at the peer is safe it is within the bound, in units and in the nanoseconds kept.
   */
  method Exchange(a: Endpoint, b: Endpoint, ssrcA: uint32, ssrcB: uint32, inboundA: uint32,
                  packetsA: nat, packetsB: nat,
                  t1: int, t2: int, t3: int, t4: int) returns (r: Option<uint32>)
    requires a != b && ssrcA != 0 && packetsA > 0
    modifies a, b
    ensures a.rttNanos == if r.Some? then RttNanos(r.value) else old(a.rttNanos)
    ensures r.Some? ==> r.value == U32(Difference(t1, t2, t3, t4))
    ensures r.Some? && Admissible(t1, t2, t3, t4) && IsSafeStay(t3 - t2) ==> Within(r.value, t1, t2, t3, t4)
    ensures r.Some? && Admissible(t1, t2, t3, t4) && IsSafeStay(t3 - t2) ==>
      var x := (t4 - t1) - (t3 - t2);
      x * 65536 - 1_000_000_000 - 65536 < a.rttNanos * 65536 < x * 65536 + 2_000_000_000
  {
    var sr := a.Write(inboundA, ssrcA, packetsA, t1);
    b.Read(sr, ssrcB, t2);
    var rr := b.Write(ssrcA, ssrcB, packetsB, t3);
    a.Read(rr, ssrcA, t4);
    r := Stored(t1, t2, t3, t4);
    StoredIsDifference(t1, t2, t3, t4);
    if r.Some? {
      NanosOfUnits(r.value);
    }
    if t3 - t2 <= 65536_000_000_000 {
      RttIsAccurate(t1, t2, t3, t4);
    } else if Admissible(t1, t2, t3, t4) && IsSafeStay(t3 - t2) {
      LongDelayIsVacuous(t1, t2, t3, t4);
    }
  }
}
