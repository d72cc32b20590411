/**
 The outbound stream of one leg (internal/media/rtp/rewriter.go): whatever arrives,
 the packets written are consecutive, carry one SSRC and keep timestamp differences.
 */
module RtpRewriter {
  import opened Wrap
  import opened RtpTracker

  class Rewriter {
    const ssrc: uint32
    var sequence: uint16
    var timestamp: uint32
    var inputBase: uint32
    const outputBase: uint32
    var initialized: bool
    var packets: nat
    var lastTimestamp: uint32

    /** What has been fed in and written out so far, in order. */
    ghost var inputs: seq<Packet>
    ghost var outputs: seq<Packet>
    ghost const firstSequence: uint16

    ghost predicate Valid()
      reads this
    {
      && IsRewrite(inputs, outputs, ssrc, firstSequence, outputBase)
      && initialized == (inputs != [])
      && packets == |inputs|
      && (inputs == [] ==> sequence == firstSequence && lastTimestamp == 0)
      && (inputs != [] ==> sequence == U16(firstSequence + |inputs| - 1) && inputBase == inputs[0].timestamp
                           && lastTimestamp == timestamp == outputs[|outputs| - 1].timestamp)
    }

    /** The three identifiers are the bytes of the random seed. */
    constructor (ssrc: uint32, sequence: uint16, timestamp: uint32)
      ensures Valid() && inputs == [] && outputs == []
      ensures this.ssrc == ssrc && firstSequence == sequence && outputBase == timestamp
    {
      this.ssrc, this.sequence, this.firstSequence := ssrc, sequence, sequence;
      this.timestamp, this.outputBase, this.inputBase := timestamp, timestamp, 0;
      this.initialized, this.packets, this.lastTimestamp := false, 0, 0;
      this.inputs, this.outputs := [], [];
    }

    method Rewrite(input: Packet, outputPayloadType: uint8) returns (output: Packet)
      requires Valid()
      modifies this
      ensures Valid() && inputs == old(inputs) + [input] && outputs == old(outputs) + [output]
      ensures output.payloadType == outputPayloadType && output.payload == input.payload
    {
      if !initialized {
        initialized := true;
        inputBase := input.timestamp;
      } else {
        Successor(firstSequence + |inputs|);
        sequence := U16(sequence + 1);
      }
      timestamp := U32(outputBase + input.timestamp - inputBase);
      output := Packet(sequence, ssrc, timestamp, outputPayloadType, input.payload);
      packets := packets + 1;
      lastTimestamp := timestamp;
      RewriteAppend(inputs, outputs, ssrc, firstSequence, outputBase, input, output);
      inputs, outputs := inputs + [input], outputs + [output];
    }
  }

  /** `outs` is what a rewriter with these identifiers makes of `ins`. */
  ghost predicate IsRewrite(ins: seq<Packet>, outs: seq<Packet>, ssrc: uint32, first: uint16, base: uint32) {
    && |outs| == |ins|
    && forall k :: 0 <= k < |outs| ==>
      && outs[k].ssrc == ssrc && outs[k].sequence == U16(first + k)
      && outs[k].timestamp == U32(base + ins[k].timestamp - ins[0].timestamp)
  }

  lemma {:induction false} RewriteAppend(ins: seq<Packet>, outs: seq<Packet>, ssrc: uint32, first: uint16,
    base: uint32, i: Packet, o: Packet)
    requires IsRewrite(ins, outs, ssrc, first, base)
    requires o.ssrc == ssrc && o.sequence == U16(first + |ins|)
    requires o.timestamp == U32(base + i.timestamp - (ins + [i])[0].timestamp)
    ensures IsRewrite(ins + [i], outs + [o], ssrc, first, base)
  {
  }

  /** Any two output timestamps differ modulo 2^32 exactly as the inputs did. */
  lemma {:induction false} TimestampsKeepDistance(ins: seq<Packet>, outs: seq<Packet>, ssrc: uint32, first: uint16,
    base: uint32, i: nat, j: nat)
    requires IsRewrite(ins, outs, ssrc, first, base) && i < |ins| && j < |ins|
    ensures U32(outs[j].timestamp - outs[i].timestamp) == U32(ins[j].timestamp - ins[i].timestamp)
  {
    ModDifference(base + ins[i].timestamp - ins[0].timestamp, base + ins[j].timestamp - ins[0].timestamp);
  }

  lemma ModDifference(a: int, b: int)
    ensures U32(U32(b) - U32(a)) == U32(b - a)
  {
  }

  // ---- A tracker fed the rewriter's output ----

  /** Before number k of a consecutive stream every slot written holds one of the 128 numbers before it. */
  ghost predicate SlotsRecent(t: Table, first: uint16, k: nat) {
    forall i :: 0 <= i < 128 ==> SlotRecent(t[i], i, first + k)
  }

  /** Slot i holds nothing, or a number of its own residue 1 to 128 before x. */
  ghost predicate SlotRecent(entry: Option<uint16>, i: int, x: int) {
    entry.Some? ==> 1 <= U16(x - entry.value) <= 128 && Slot(entry.value) == i
  }

  ghost predicate Smooth(s: State, first: uint16, k: nat, ssrc: uint32) {
    && SlotsRecent(s.table, first, k)
    && s.stats.lost == 0 && s.stats.reordered == 0 && s.stats.duplicates == 0 && s.stats.ssrcChanges == 0
    && s.head.started == (k > 0)
    && (k > 0 ==> s.head.maxSeq == U16(first + k - 1) && s.head.ssrc == ssrc)
  }

  lemma NextIsFresh(s: State, p: Packet, first: uint16, k: nat)
    requires SlotsRecent(s.table, first, k) && p.sequence == U16(first + k)
    ensures !HitsSlot(s, p)
  {
    var q := p.sequence;
    ResidueOf(first + k - q, (first + k) / 0x1_0000, 0);
    assert SlotRecent(s.table[Slot(q)], Slot(q), first + k);
  }

  lemma AgesByOne(x: int, v: uint16)
    requires 1 <= U16(x - v) <= 128
    ensures U16(x + 1 - v) == U16(x - v) + 1
    ensures U16(x - v) == 128 ==> Slot(v) == Slot(x)
  {
    var turns := (x - v) / 0x1_0000;
    ResidueOf(x + 1 - v, turns, U16(x - v) + 1);
    if U16(x - v) == 128 {
      SlotShift(v, turns);
    }
  }

  lemma ResidueOf(y: int, turns: int, r: int)
    requires y == turns * 0x1_0000 + r && 0 <= r < 0x1_0000
    ensures U16(y) == r
  {
  }

  lemma SlotShift(v: int, turns: int)
    ensures Slot(v + turns * 0x1_0000 + 128) == Slot(v)
  {
    assert v + turns * 0x1_0000 + 128 == v + (turns * 512 + 1) * 128;
  }

  lemma SlotAges(entry: Option<uint16>, i: int, x: int)
    requires SlotRecent(entry, i, x) && i != Slot(x)
    ensures SlotRecent(entry, i, x + 1)
  {
    if entry.Some? {
      AgesByOne(x, entry.value);
    }
  }

  lemma SlotFills(x: int)
    ensures Slot(U16(x)) == Slot(x) && SlotRecent(Some(U16(x)), Slot(x), x + 1)
  {
    SlotOfU16(x);
    ResidueOf(x + 1 - U16(x), x / 0x1_0000, 1);
  }

  lemma SlotsStayRecent(t: Table, first: uint16, k: nat)
    requires SlotsRecent(t, first, k)
    ensures SlotsRecent(t[Slot(U16(first + k)) := Some(U16(first + k))], first, k + 1)
  {
    SlotFills(first + k);
    forall i | 0 <= i < 128 && i != Slot(first + k) ensures SlotRecent(t[i], i, first + k + 1) {
      SlotAges(t[i], i, first + k);
    }
  }

  lemma SmoothStep(s: State, p: Packet, first: uint16, k: nat, ssrc: uint32)
    requires Smooth(s, first, k, ssrc) && p.sequence == U16(first + k) && p.ssrc == ssrc
    ensures Smooth(Observed(s, p).0, first, k + 1, ssrc)
  {
    NextIsFresh(s, p, first, k);
    SlotsStayRecent(s.table, first, k);
    OneAhead(first + k);
  }

  lemma Successor(x: int)
    ensures U16(U16(x - 1) + 1) == U16(x)
  {
  }

  lemma OneAhead(x: int)
    ensures I16(U16(x) - U16(x - 1)) == 1
  {
  }

  /**
   Whatever the input, a tracker of the rewritten stream never reports loss, reordering, duplicates or SSRC changes.
   */
  lemma {:induction false} RewrittenStreamIsSmooth(ins: seq<Packet>, outs: seq<Packet>, ssrc: uint32, first: uint16,
    base: uint32, k: nat)
    requires IsRewrite(ins, outs, ssrc, first, base) && k <= |outs|
    ensures Smooth(Run(outs[..k]), first, k, ssrc)
  {
    if k > 0 {
      RewrittenStreamIsSmooth(ins, outs, ssrc, first, base, k - 1);
      SmoothStep(Run(outs[..k - 1]), outs[k - 1], first, k - 1, ssrc);
      assert outs[..k] == outs[..k - 1] + [outs[k - 1]];
      RunAppend(outs[..k - 1], outs[k - 1]);
    }
  }
}
