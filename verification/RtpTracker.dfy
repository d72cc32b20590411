/**
 Sequence accounting of one inbound RTP stream (internal/media/rtp/stats.go).
 `State` and `Observed` specify the tracker as a value; class `Tracker` is the
 in-place form with its two 128-slot arrays.
 */
module RtpTracker {
  import opened Wrap

  datatype Packet = Packet(sequence: uint16, ssrc: uint32, timestamp: uint32, payloadType: uint8, payload: seq<uint8>)

  datatype PacketClass = PacketNew | PacketReordered | PacketDuplicate

  /** The published counters. */
  datatype Stats = Stats(
    packets: nat, lost: nat, duplicates: nat, reordered: nat, ssrcChanges: nat, ssrc: uint32, lastSequence: uint32)

  /** The slots of the sequenceWindow = 128 table; a slot never written is None. */
  type Table = t: seq<Option<uint16>> | |t| == 128 witness seq(128, _ => None)

  /** The fields private to the read loop, apart from the table. */
  datatype Head = Head(started: bool, ssrc: uint32, maxSeq: uint16, cycles: uint32) {
    /** The 32-bit extended maximum of section 6.4.1 of RFC 3550. */
    function Extended(): int { cycles + maxSeq }
  }

  datatype State = State(table: Table, head: Head, stats: Stats)

  function Slot(n: int): (i: nat)
    ensures i < 128
  {
    n % 128
  }

  function Initial(): State {
    State(seq(128, _ => None), Head(false, 0, 0, 0), Stats(0, 0, 0, 0, 0, 0, 0))
  }

  predicate HitsSlot(s: State, p: Packet) {
    s.table[Slot(p.sequence)] == Some(p.sequence)
  }

  function PublishArrival(t: Stats, cycles: uint32, p: Packet): Stats {
    t.(packets := t.packets + 1, ssrc := p.ssrc, lastSequence := U32(cycles + p.sequence))
  }

  /** The private fields after a packet that is not a duplicate. */
  function NextHead(h: Head, p: Packet): Head {
    if !h.started then Head(true, p.ssrc, p.sequence, h.cycles)
    else if I16(p.sequence - h.maxSeq) > 0 then
      Head(true, p.ssrc, p.sequence, if p.sequence < h.maxSeq then U32(h.cycles + 0x1_0000) else h.cycles)
    else h.(ssrc := p.ssrc)
  }

  /** The counters after a packet that is not a duplicate, before it is published. */
  function NextStats(t: Stats, h: Head, p: Packet): Stats {
    if !h.started then t
    else
      var u := if p.ssrc != h.ssrc then t.(ssrcChanges := t.ssrcChanges + 1) else t;
      var delta := I16(p.sequence - h.maxSeq);
      if delta > 0 then u.(lost := u.lost + delta - 1)
      else if delta < 0 then u.(reordered := u.reordered + 1, lost := if u.lost == 0 then 0 else u.lost - 1)
      else u
  }

  function Observed(s: State, p: Packet): (r: (State, PacketClass)) {
    if HitsSlot(s, p) then
      var t := s.stats.(duplicates := s.stats.duplicates + 1);
      (s.(stats := PublishArrival(t, s.head.cycles, p)), PacketDuplicate)
    else
      var h := NextHead(s.head, p);
      (State(s.table[Slot(p.sequence) := Some(p.sequence)], h,
             PublishArrival(NextStats(s.stats, s.head, p), h.cycles, p)),
       if s.head.started && I16(p.sequence - s.head.maxSeq) < 0 then PacketReordered else PacketNew)
  }

  /** The tracker after a whole stream of arrivals. */
  function Run(ps: seq<Packet>): State {
    if ps == [] then Initial() else Observed(Run(ps[..|ps| - 1]), ps[|ps| - 1]).0
  }

  lemma SlotOfU16(n: int)
    ensures Slot(U16(n)) == Slot(n)
  {
  }

  lemma {:induction false} RunAppend(ps: seq<Packet>, p: Packet)
    ensures Run(ps + [p]) == Observed(Run(ps), p).0
  {
    assert (ps + [p])[..|ps|] == ps;
  }

  class Tracker {
    var head: Head
    const seen: array<uint16>
    const seenValid: array<bool>
    var published: Stats

    ghost predicate Valid()
      reads this
    {
      seen.Length == 128 && seenValid.Length == 128
    }

    ghost function Slots(): Table
      requires Valid()
      reads this, seen, seenValid
    {
      seq(128, i requires 0 <= i < 128 && Valid() reads this, seen, seenValid =>
        if seenValid[i] then Some(seen[i]) else None)
    }

    ghost function Model(): State
      requires Valid()
      reads this, seen, seenValid
    {
      State(Slots(), head, published)
    }

    constructor ()
      ensures Valid() && Model() == Initial()
      ensures fresh(seen) && fresh(seenValid)
    {
      head := Head(false, 0, 0, 0);
      seen := new uint16[128](_ => 0);
      seenValid := new bool[128](_ => false);
      published := Stats(0, 0, 0, 0, 0, 0, 0);
    }

    /** Accounts for one packet as `Observed` specifies. */
    method Observe(p: Packet) returns (class_: PacketClass)
      requires Valid()
      modifies this, seen, seenValid
      ensures Valid()
      ensures (Model(), class_) == Observed(old(Model()), p)
    {
      var index := p.sequence % 128;
      assert old(Slots())[index] == Some(p.sequence) <==> seenValid[index] && seen[index] == p.sequence;
      if seenValid[index] && seen[index] == p.sequence {
        published := published.(duplicates := published.duplicates + 1);
        Publish(p);
        assert Slots() == old(Slots());
        return PacketDuplicate;
      }
      seenValid[index] := true;
      seen[index] := p.sequence;
      class_ := PacketNew;
      if !head.started {
        head := head.(started := true, maxSeq := p.sequence, ssrc := p.ssrc);
      } else {
        class_ := Advance(p);
      }
      Publish(p);
      assert Slots() == old(Slots())[Slot(p.sequence) := Some(p.sequence)];
    }

    /** The branch of `Observe` for a stream that has started. */
    method Advance(p: Packet) returns (class_: PacketClass)
      requires head.started
      modifies this
      ensures head == NextHead(old(head), p) && published == NextStats(old(published), old(head), p)
      ensures class_ == if I16(p.sequence - old(head).maxSeq) < 0 then PacketReordered else PacketNew
    {
      class_ := PacketNew;
      if p.ssrc != head.ssrc {
        published := published.(ssrcChanges := published.ssrcChanges + 1);
        head := head.(ssrc := p.ssrc);
      }
      var delta := I16(p.sequence - head.maxSeq);
      if delta > 0 {
        if p.sequence < head.maxSeq {
          head := head.(cycles := U32(head.cycles + 0x1_0000));
        }
        if delta > 1 {
          published := published.(lost := published.lost + (delta - 1));
        }
        head := head.(maxSeq := p.sequence);
      } else if delta < 0 {
        class_ := PacketReordered;
        published := published.(reordered := published.reordered + 1);
        DecrementLost();
      }
    }

    /** The loss counter has one writer, so its compare-and-swap loop succeeds at once. */
    method DecrementLost()
      modifies this
      ensures head == old(head)
      ensures published == old(published).(lost := if old(published).lost == 0 then 0 else old(published).lost - 1)
    {
      if published.lost != 0 {
        published := published.(lost := published.lost - 1);
      }
    }

    method Publish(p: Packet)
      modifies this
      ensures head == old(head) && published == PublishArrival(old(published), head.cycles, p)
    {
      published := published.(packets := published.packets + 1, ssrc := p.ssrc);
      published := published.(lastSequence := U32(head.cycles + p.sequence));
    }
  }
}
