/**
 What the counters published for a stream mean, said of its history alone: the last
 sequence number, and packets, duplicates, reordered packets and SSRC changes as counts
 (internal/media/rtp/stats.go).
 */
module RtpCounters {
  import opened Wrap
  import opened RtpTracker
  import opened RtpHistory
  import opened RtpLoss

  // ---- The last sequence number ----

  lemma PublishedSequence(s: State, p: Packet)
    requires Aligned(s)
    ensures var t := Observed(s, p).0;
      && t.stats.lastSequence == t.head.cycles + p.sequence && t.stats.ssrc == p.ssrc
      && t.stats.packets == s.stats.packets + 1
  {
    ArrivalEffect(s, p);
    NoOverflow(Observed(s, p).0.head.cycles, p.sequence);
  }

  lemma NoOverflow(cycles: uint32, q: uint16)
    requires cycles % 0x1_0000 == 0
    ensures U32(cycles + q) == cycles + q
  {
  }

  lemma TurnOf(cycles: int, q: uint16)
    requires cycles % 0x1_0000 == 0
    ensures U16(cycles + q) == q && (cycles + q) / 0x1_0000 == cycles / 0x1_0000
  {
  }

  /**
   After any stream the published number is that of the last packet in the turn of the extended maximum, so it is the
   extended maximum exactly when the last packet carries the maximum's number.
   */
  lemma {:induction false} LastSequenceIff(ps: seq<Packet>)
    requires ps != []
    ensures var s, last := Run(ps), ps[|ps| - 1];
      && U16(s.stats.lastSequence) == last.sequence && s.stats.lastSequence / 0x1_0000 == s.head.Extended() / 0x1_0000
      && (s.stats.lastSequence == s.head.Extended() <==> last.sequence == s.head.maxSeq)
      && s.stats.ssrc == last.ssrc
  {
    var k := |ps| - 1;
    RunLast(ps);
    AlwaysAligned(ps);
    if k == 0 {
      FirstArrival(ps);
      NoOverflow(0, ps[0].sequence);
    } else {
      AlwaysAligned(ps[..k]);
      PublishedSequence(Run(ps[..k]), ps[k]);
    }
    TurnOf(Run(ps).head.cycles, ps[k].sequence);
    TurnOf(Run(ps).head.cycles, Run(ps).head.maxSeq);
  }

  /**
   When the last packet is a new maximum, the published number is its true number offset by the first, modulo 2^32.
   */
  lemma {:induction false} LastSequenceIsMaximum(ps: seq<Packet>, ns: seq<int>)
    requires Carries(ps, ns) && |ns| > 1
    requires forall i :: 0 < i < |ns| ==> AcceptedInHalfRange(ns, i)
    requires var k := |ns| - 1; ns[k] > AcceptedMax(ns[..k]) && !Repeats(ns[..k], ns[k])
    ensures Run(ps).stats.lastSequence == Frame(ns[0], ns[|ns| - 1])
  {
    var k := |ns| - 1;
    assert ps[..|ps|] == ps && ns[..|ns|] == ns;
    ExtendedIsMaximum(ps, ns, |ns|);
    AcceptedNext(ns, k);
    AlwaysAligned(ps);
    MaximumModulo(Run(ps).head, ns[0], ns[k]);
    LastSequenceIff(ps);
  }

  // ---- The counters ----

  datatype Kind = Duplicate | Late | NewSource

  /** The sender of the last packet before k that is no duplicate. */
  function LastSource(ps: seq<Packet>, ns: seq<int>, k: nat): uint32
    requires 0 < k <= |ps| == |ns|
  {
    if k == 1 || !Repeats(ns[..k - 1], ns[k - 1]) then ps[k - 1].ssrc else LastSource(ps, ns, k - 1)
  }

  /**
   Packet i repeats the last number of its slot; is new but below the maximum so far; is new and of another sender.
   */
  predicate Is(kind: Kind, ps: seq<Packet>, ns: seq<int>, i: nat)
    requires i < |ps| == |ns|
  {
    match kind
    case Duplicate => Repeats(ns[..i], ns[i])
    case Late => i > 0 && !Repeats(ns[..i], ns[i]) && ns[i] < AcceptedMax(ns[..i])
    case NewSource => i > 0 && !Repeats(ns[..i], ns[i]) && ps[i].ssrc != LastSource(ps, ns, i)
  }

  /** How many of the first k packets are of the kind. */
  function Count(kind: Kind, ps: seq<Packet>, ns: seq<int>, k: nat): nat
    requires k <= |ps| == |ns|
  {
    if k == 0 then 0 else Count(kind, ps, ns, k - 1) + (if Is(kind, ps, ns, k - 1) then 1 else 0)
  }

  ghost predicate Counted(s: State, ps: seq<Packet>, ns: seq<int>, k: nat)
    requires 0 < k <= |ps| == |ns|
  {
    && s.stats.packets == k && s.stats.duplicates == Count(Duplicate, ps, ns, k)
    && s.stats.reordered == Count(Late, ps, ns, k) && s.stats.ssrcChanges == Count(NewSource, ps, ns, k)
    && s.head.ssrc == LastSource(ps, ns, k)
  }

  /** What one packet adds, from its hit, its signed distance and its sender. */
  lemma CountStep(s: State, p: Packet)
    requires s.head.started
    ensures var t := Observed(s, p).0;
      && t.stats.packets == s.stats.packets + 1
      && t.stats.duplicates == s.stats.duplicates + (if HitsSlot(s, p) then 1 else 0)
      && t.stats.reordered ==
         s.stats.reordered + (if !HitsSlot(s, p) && I16(p.sequence - s.head.maxSeq) < 0 then 1 else 0)
      && t.stats.ssrcChanges == s.stats.ssrcChanges + (if !HitsSlot(s, p) && p.ssrc != s.head.ssrc then 1 else 0)
      && t.head.ssrc == (if HitsSlot(s, p) then s.head.ssrc else p.ssrc)
    ensures Observed(s, p).1 ==
      if HitsSlot(s, p) then PacketDuplicate
      else if I16(p.sequence - s.head.maxSeq) < 0 then PacketReordered else PacketNew
  {
  }

  /** For an accepted packet the signed distance is the true one. */
  lemma {:induction false} TrueDistance(ps: seq<Packet>, ns: seq<int>, k: nat)
    requires Carries(ps, ns) && 0 < k < |ns| && MaximumAt(ps, ns, k) && InHalfRange(ns[k], AcceptedMax(ns[..k]))
    ensures I16(ps[k].sequence - Run(ps[..k]).head.maxSeq) == ns[k] - AcceptedMax(ns[..k])
  {
    AlwaysAligned(ps[..k]);
    FrameDelta(Run(ps[..k]).head, ps[k].sequence, ns[0], AcceptedMax(ns[..k]), ns[k]);
  }

  lemma {:induction false} CountedFirst(ps: seq<Packet>, ns: seq<int>)
    requires Carries(ps, ns) && ns != []
    ensures Counted(Run(ps[..1]), ps, ns, 1)
  {
    FirstArrival(ps[..1]);
    assert ps[..1][..0] == [] && ns[..0] == [];
  }

  lemma {:induction false} CountedNext(ps: seq<Packet>, ns: seq<int>, k: nat)
    requires Carries(ps, ns) && 0 < k < |ns| && Counted(Run(ps[..k]), ps, ns, k)
    requires MaximumAt(ps, ns, k) && AcceptedInHalfRange(ns, k)
    ensures Counted(Run(ps[..k + 1]), ps, ns, k + 1)
  {
    var s := Run(ps[..k]);
    DuplicateIff(ps[..k], ns[..k], ps[k], ns[k]);
    AlwaysAligned(ps[..k]);
    if !Repeats(ns[..k], ns[k]) {
      TrueDistance(ps, ns, k);
    }
    CountStep(s, ps[k]);
    assert ps[..k + 1] == ps[..k] + [ps[k]];
    RunAppend(ps[..k], ps[k]);
  }

  /** The counters are counts over the history, for every stream whose accepted packets stay within the half range. */
  lemma {:induction false} CountersAreCounts(ps: seq<Packet>, ns: seq<int>, k: nat)
    requires Carries(ps, ns) && 0 < k <= |ns|
    requires forall i :: 0 < i < k ==> AcceptedInHalfRange(ns, i)
    ensures Counted(Run(ps[..k]), ps, ns, k)
  {
    if k == 1 {
      CountedFirst(ps, ns);
    } else {
      CountersAreCounts(ps, ns, k - 1);
      ExtendedIsMaximum(ps, ns, k - 1);
      assert AcceptedInHalfRange(ns, k - 1);
      CountedNext(ps, ns, k - 1);
    }
  }

  /** The class told for a packet is the kind it is counted under. */
  lemma {:induction false} ClassIff(ps: seq<Packet>, ns: seq<int>, k: nat)
    requires Carries(ps, ns) && 0 < k < |ns|
    requires forall i :: 0 < i <= k ==> AcceptedInHalfRange(ns, i)
    ensures var c := Observed(Run(ps[..k]), ps[k]).1;
      (c == PacketDuplicate <==> Is(Duplicate, ps, ns, k)) && (c == PacketReordered <==> Is(Late, ps, ns, k))
  {
    ExtendedIsMaximum(ps, ns, k);
    assert AcceptedInHalfRange(ns, k);
    DuplicateIff(ps[..k], ns[..k], ps[k], ns[k]);
    AlwaysAligned(ps[..k]);
    if !Repeats(ns[..k], ns[k]) {
      TrueDistance(ps, ns, k);
    }
    CountStep(Run(ps[..k]), ps[k]);
  }
}
