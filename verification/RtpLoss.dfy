/**
 The loss counter and the extended maximum over whole streams: a conservation law
 that needs no assumption, the extended maximum across any number of wraps, and the
 exact condition under which `lost` is the number of integers never observed
 (appendices A.1 and A.3 of RFC 3550).
 */
module RtpLoss {
  import opened Wrap
  import opened RtpTracker
  import opened RtpHistory

  // ---- One arrival ----

  ghost predicate Aligned(s: State) { s.head.started && s.head.cycles % 0x1_0000 == 0 }

  /** t follows s by an arrival at signed distance delta that did or did not hit its slot. */
  ghost predicate Moves(s: State, hit: bool, delta: int, t: State) {
    && t.head.Extended() == (if hit || delta <= 0 then s.head.Extended() else U32(s.head.Extended() + delta))
    && t.stats.lost == (if hit || delta == 0 then s.stats.lost
                        else if delta > 0 then s.stats.lost + delta - 1
                        else if s.stats.lost == 0 then 0 else s.stats.lost - 1)
    && t.stats.packets - t.stats.duplicates == s.stats.packets - s.stats.duplicates + (if hit then 0 else 1)
  }

  lemma ExtendedForward(h: Head, q: uint16)
    requires h.cycles % 0x1_0000 == 0 && I16(q - h.maxSeq) > 0
    ensures var c := if q < h.maxSeq then U32(h.cycles + 0x1_0000) else h.cycles;
      c % 0x1_0000 == 0 && c + q == U32(h.Extended() + I16(q - h.maxSeq))
  {
    assert I16(q - h.maxSeq) == if q < h.maxSeq then q - h.maxSeq + 0x1_0000 else q - h.maxSeq;
  }

  /** How one arrival moves the loss counter and the extended maximum. */
  lemma ArrivalEffect(s: State, p: Packet)
    requires Aligned(s)
    ensures Aligned(Observed(s, p).0)
    ensures Moves(s, HitsSlot(s, p), I16(p.sequence - s.head.maxSeq), Observed(s, p).0)
  {
    if I16(p.sequence - s.head.maxSeq) > 0 {
      ExtendedForward(s.head, p.sequence);
    }
  }

  lemma {:induction false} FirstArrival(ps: seq<Packet>)
    requires |ps| == 1
    ensures var s := Run(ps);
      s.head == Head(true, ps[0].ssrc, ps[0].sequence, 0) && s.stats.lost == 0 && s.stats.packets == 1
        && s.stats.duplicates == 0
  {
    assert ps == [] + [ps[0]];
    RunAppend([], ps[0]);
  }

  // ---- Conservation, for every input ----

  /** advance: sum of the forward moves; stopped: decrements stopped at zero; stalls: non-duplicates at distance 0. */
  datatype Ledger = Ledger(advance: nat, stopped: nat, stalls: nat)

  function Book(l: Ledger, hit: bool, delta: int, lost: nat): Ledger {
    if hit then l
    else if delta > 0 then l.(advance := l.advance + delta)
    else if delta == 0 then l.(stalls := l.stalls + 1)
    else if lost == 0 then l.(stopped := l.stopped + 1)
    else l
  }

  function LedgerOf(ps: seq<Packet>): Ledger {
    if |ps| <= 1 then Ledger(0, 0, 0)
    else
      var k := |ps| - 1;
      var s := Run(ps[..k]);
      Book(LedgerOf(ps[..k]), HitsSlot(s, ps[k]), I16(ps[k].sequence - s.head.maxSeq), s.stats.lost)
  }

  ghost predicate Balanced(s: State, l: Ledger, first: uint16) {
    && s.stats.lost + (s.stats.packets - s.stats.duplicates) == l.advance + 1 + l.stopped + l.stalls
    && s.head.Extended() == U32(first + l.advance)
  }

  lemma BalanceStep(s: State, l: Ledger, first: uint16, hit: bool, delta: int, t: State)
    requires Balanced(s, l, first) && Moves(s, hit, delta, t)
    ensures Balanced(t, Book(l, hit, delta, s.stats.lost), first)
  {
    AddModulo(first + l.advance, delta);
  }

  lemma BalanceArrival(s: State, l: Ledger, first: uint16, p: Packet, t: State, l': Ledger)
    requires Aligned(s) && Balanced(s, l, first) && t == Observed(s, p).0
    requires l' == Book(l, HitsSlot(s, p), I16(p.sequence - s.head.maxSeq), s.stats.lost)
    ensures Balanced(t, l', first)
  {
    ArrivalEffect(s, p);
    BalanceStep(s, l, first, HitsSlot(s, p), I16(p.sequence - s.head.maxSeq), t);
  }

  lemma {:induction false} LedgerLast(ps: seq<Packet>)
    requires |ps| > 1
    ensures var k := |ps| - 1;
      var s := Run(ps[..k]);
      LedgerOf(ps) == Book(LedgerOf(ps[..k]), HitsSlot(s, ps[k]), I16(ps[k].sequence - s.head.maxSeq), s.stats.lost)
  {
  }

  lemma {:induction false} RunLast(ps: seq<Packet>)
    requires ps != []
    ensures Run(ps) == Observed(Run(ps[..|ps| - 1]), ps[|ps| - 1]).0
  {
    assert ps == ps[..|ps| - 1] + [ps[|ps| - 1]];
    RunAppend(ps[..|ps| - 1], ps[|ps| - 1]);
  }

  lemma {:induction false} AlwaysAligned(ps: seq<Packet>)
    requires ps != []
    ensures Aligned(Run(ps))
  {
    var k := |ps| - 1;
    if k == 0 {
      FirstArrival(ps);
    } else {
      AlwaysAligned(ps[..k]);
      RunLast(ps);
      ArrivalEffect(Run(ps[..k]), ps[k]);
    }
  }

  /** Lost plus distinct packets exceeds the extended range by exactly the stopped decrements and the stalls. */
  lemma {:induction false} Conservation(ps: seq<Packet>)
    requires ps != []
    ensures Balanced(Run(ps), LedgerOf(ps), ps[0].sequence)
  {
    var k := |ps| - 1;
    if k == 0 {
      FirstArrival(ps);
    } else {
      Conservation(ps[..k]);
      AlwaysAligned(ps[..k]);
      RunLast(ps);
      LedgerLast(ps);
      BalanceArrival(Run(ps[..k]), LedgerOf(ps[..k]), ps[0].sequence, ps[k], Run(ps), LedgerOf(ps));
    }
  }

  // ---- The extended maximum ----

  /** The true number m in the tracker's 32-bit frame, whose origin is set by the first packet. */
  function Frame(first: int, m: int): uint32 { U32(m - first + U16(first)) }

  ghost predicate InHalfRange(n: int, m: int) { -32768 <= n - m <= 32767 }

  lemma MaximumModulo(h: Head, first: int, m: int)
    requires h.cycles % 0x1_0000 == 0 && h.Extended() == Frame(first, m)
    ensures h.maxSeq == U16(m)
  {
  }

  lemma SignedDistance(m: int, n: int)
    requires InHalfRange(n, m)
    ensures I16(U16(n) - U16(m)) == n - m
  {
    assert (U16(n) - U16(m) - (n - m)) % 0x1_0000 == 0;
  }

  lemma FrameDelta(h: Head, q: uint16, first: int, m: int, n: int)
    requires h.cycles % 0x1_0000 == 0 && h.Extended() == Frame(first, m)
    requires q == U16(n) && InHalfRange(n, m)
    ensures I16(q - h.maxSeq) == n - m
    ensures U32(h.Extended() + (n - m)) == Frame(first, n)
  {
    MaximumModulo(h, first, m);
    SignedDistance(m, n);
    FrameShift(first, m, n - m);
  }

  lemma FrameShift(first: int, m: int, d: int)
    ensures U32(Frame(first, m) + d) == Frame(first, m + d)
  {
  }

  /** The arrival of n at a tracker that holds the maximum m. */
  lemma ArrivalMoves(s: State, p: Packet, first: int, n: int, m: int)
    requires Aligned(s) && s.head.Extended() == Frame(first, m) && p.sequence == U16(n)
    ensures HitsSlot(s, p) ==> Moves(s, true, 0, Observed(s, p).0)
    ensures InHalfRange(n, m) ==> Moves(s, HitsSlot(s, p), n - m, Observed(s, p).0)
    ensures InHalfRange(n, m) ==> U32(s.head.Extended() + (n - m)) == Frame(first, n)
  {
    ArrivalEffect(s, p);
    if InHalfRange(n, m) {
      FrameDelta(s.head, p.sequence, first, m, n);
    }
  }

  lemma {:induction false} NumberedArrival(ps: seq<Packet>, ns: seq<int>, p: Packet, n: int, m: int)
    requires Carries(ps, ns) && ns != [] && p.sequence == U16(n)
    requires Run(ps).head.Extended() == Frame(ns[0], m)
    ensures Repeats(ns, n) ==> Moves(Run(ps), true, 0, Run(ps + [p]))
    ensures InHalfRange(n, m) ==> Moves(Run(ps), Repeats(ns, n), n - m, Run(ps + [p]))
    ensures InHalfRange(n, m) ==> U32(Run(ps).head.Extended() + (n - m)) == Frame(ns[0], n)
  {
    AlwaysAligned(ps);
    DuplicateIff(ps, ns, p, n);
    RunAppend(ps, p);
    ArrivalMoves(Run(ps), p, ns[0], n, m);
  }

  lemma {:induction false} MovesAt(ps: seq<Packet>, ns: seq<int>, k: nat, m: int)
    requires Carries(ps, ns) && 0 < k < |ns|
    requires Run(ps[..k]).head.Extended() == Frame(ns[0], m)
    ensures Repeats(ns[..k], ns[k]) ==> Moves(Run(ps[..k]), true, 0, Run(ps[..k + 1]))
    ensures InHalfRange(ns[k], m) ==>
      && Moves(Run(ps[..k]), Repeats(ns[..k], ns[k]), ns[k] - m, Run(ps[..k + 1]))
      && U32(Run(ps[..k]).head.Extended() + (ns[k] - m)) == Frame(ns[0], ns[k])
  {
    NumberedArrival(ps[..k], ns[..k], ps[k], ns[k], m);
    assert ps[..k + 1] == ps[..k] + [ps[k]];
  }

  /** The maximum over the numbers not classed Duplicate. */
  function AcceptedMax(ns: seq<int>): int
    requires ns != []
  {
    var k := |ns| - 1;
    if k == 0 then ns[0]
    else
      var m := AcceptedMax(ns[..k]);
      if !Repeats(ns[..k], ns[k]) && ns[k] > m then ns[k] else m
  }

  ghost predicate AcceptedInHalfRange(ns: seq<int>, k: nat)
    requires 0 < k < |ns|
  {
    Repeats(ns[..k], ns[k]) || InHalfRange(ns[k], AcceptedMax(ns[..k]))
  }

  lemma {:induction false} AcceptedNext(ns: seq<int>, k: nat)
    requires 0 < k < |ns|
    ensures var m := AcceptedMax(ns[..k]);
      AcceptedMax(ns[..k + 1]) == if !Repeats(ns[..k], ns[k]) && ns[k] > m then ns[k] else m
  {
    assert ns[..k + 1][..k] == ns[..k];
  }

  lemma MaximumStep(s: State, t: State, repeats: bool, first: int, m: int, n: int)
    requires s.head.Extended() == Frame(first, m)
    requires if repeats then Moves(s, true, 0, t)
      else Moves(s, false, n - m, t) && U32(s.head.Extended() + (n - m)) == Frame(first, n)
    ensures t.head.Extended() == Frame(first, if !repeats && n > m then n else m)
  {
  }

  ghost predicate MaximumAt(ps: seq<Packet>, ns: seq<int>, k: nat)
    requires Carries(ps, ns) && 0 < k <= |ns|
  {
    Run(ps[..k]).head.Extended() == Frame(ns[0], AcceptedMax(ns[..k]))
  }

  lemma {:induction false} MaximumFirst(ps: seq<Packet>, ns: seq<int>)
    requires Carries(ps, ns) && ns != []
    ensures MaximumAt(ps, ns, 1)
  {
    FirstArrival(ps[..1]);
  }

  lemma {:induction false} MaximumNext(ps: seq<Packet>, ns: seq<int>, k: nat)
    requires Carries(ps, ns) && 0 < k < |ns| && MaximumAt(ps, ns, k) && AcceptedInHalfRange(ns, k)
    ensures MaximumAt(ps, ns, k + 1)
  {
    var m, n := AcceptedMax(ns[..k]), ns[k];
    MovesAt(ps, ns, k, m);
    MaximumStep(Run(ps[..k]), Run(ps[..k + 1]), Repeats(ns[..k], n), ns[0], m, n);
    AcceptedNext(ns, k);
  }

  /** cycles + maxSeq is the true maximum over any number of wraps, modulo 2^32, after every packet. */
  lemma {:induction false} ExtendedIsMaximum(ps: seq<Packet>, ns: seq<int>, k: nat)
    requires Carries(ps, ns) && 0 < k <= |ns|
    requires forall i :: 0 < i < k ==> AcceptedInHalfRange(ns, i)
    ensures Run(ps[..k]).head.Extended() == Frame(ns[0], AcceptedMax(ns[..k]))
  {
    if k == 1 {
      MaximumFirst(ps, ns);
    } else {
      ExtendedIsMaximum(ps, ns, k - 1);
      assert AcceptedInHalfRange(ns, k - 1);
      MaximumNext(ps, ns, k - 1);
    }
  }

  // ---- The number of integers never observed ----

  ghost function Interval(lo: int, hi: int): (r: set<int>)
    requires lo <= hi
    ensures |r| == hi - lo && forall x :: x in r <==> lo <= x < hi
    decreases hi - lo
  {
    if lo == hi then {} else Interval(lo, hi - 1) + {hi - 1}
  }

  ghost predicate Sound(t: Truth) {
    t.first in t.seen && t.max in t.seen && forall x :: x in t.seen ==> x <= t.max
  }

  /** The integers from the first number to the maximum that were never observed. */
  ghost function Missing(t: Truth): set<int>
    requires t.first <= t.max
  {
    Interval(t.first, t.max + 1) - t.seen
  }

  lemma MissingMember(t: Truth, x: int)
    requires t.first <= x <= t.max && x !in t.seen
    ensures Missing(t) != {}
  {
    assert x in Missing(t);
  }

  lemma MissingForward(t: Truth, n: int)
    requires Sound(t) && n > t.max
    ensures |Missing(NextTruth(t, n))| == |Missing(t)| + (n - t.max - 1)
  {
    var gap := Interval(t.max + 1, n);
    assert Missing(NextTruth(t, n)) == Missing(t) + gap;
    assert Missing(t) !! gap;
  }

  lemma MissingBack(t: Truth, n: int)
    requires Sound(t) && n <= t.max
    ensures |Missing(NextTruth(t, n))| == |Missing(t)| - (if t.first <= n && n !in t.seen then 1 else 0)
  {
    assert Missing(NextTruth(t, n)) == Missing(t) - {n};
  }

  lemma {:induction false} TruthSound(ns: seq<int>)
    requires ns != []
    ensures Sound(TruthOf(ns)) && TruthOf(ns).first == ns[0]
  {
    TruthMeans(ns);
  }

  /** Both figures are right: the loss and the extended maximum. */
  ghost predicate Exact(s: State, t: Truth)
    requires t.first <= t.max
  {
    s.stats.lost == |Missing(t)| && s.head.Extended() == Frame(t.first, t.max)
  }

  /**
   The arrivals that spoil the account: a first arrival taken for a duplicate of a number 2^16 or more
   away, and a late number that is not missing (a repeat whose slot was overwritten, or one before the
   first) but cancels a loss.
   */
  ghost predicate Misread(t: Truth, repeats: bool, n: int)
    requires t.first <= t.max
  {
    if repeats then n !in t.seen && t.first <= n
    else n < t.max && (n in t.seen || n < t.first) && Missing(t) != {}
  }

  lemma FrameDiffers(first: int, m: int, n: int)
    requires m < n <= m + 32767
    ensures Frame(first, m) != Frame(first, n)
  {
    FrameShift(first, m, n - m);
  }

  lemma ExactForward(s: State, t: Truth, repeats: bool, n: int, s': State)
    requires Sound(t) && Exact(s, t) && t.max < n <= t.max + 32767
    requires Moves(s, repeats, n - t.max, s')
    requires U32(s.head.Extended() + (n - t.max)) == Frame(t.first, n)
    ensures Exact(s', NextTruth(t, n)) <==> !Misread(t, repeats, n)
  {
    MissingForward(t, n);
    FrameDiffers(t.first, t.max, n);
  }

  lemma ExactBack(s: State, t: Truth, repeats: bool, n: int, s': State)
    requires Sound(t) && Exact(s, t) && n <= t.max
    requires Moves(s, repeats, n - t.max, s')
    ensures Exact(s', NextTruth(t, n)) <==> !Misread(t, repeats, n)
  {
    MissingBack(t, n);
    assert |Missing(t)| == 0 <==> Missing(t) == {};
    if t.first <= n && n !in t.seen {
      MissingMember(t, n);
    }
  }

  ghost predicate ExactAt(ps: seq<Packet>, ns: seq<int>, k: nat)
    requires Carries(ps, ns) && 0 < k <= |ns|
  {
    TruthSound(ns[..k]);
    Exact(Run(ps[..k]), TruthOf(ns[..k]))
  }

  ghost predicate HalfRangeAt(ns: seq<int>, k: nat)
    requires 0 < k < |ns|
  {
    InHalfRange(ns[k], TruthOf(ns[..k]).max)
  }

  ghost predicate MisreadAt(ns: seq<int>, k: nat)
    requires 0 < k < |ns|
  {
    TruthSound(ns[..k]);
    Misread(TruthOf(ns[..k]), Repeats(ns[..k], ns[k]), ns[k])
  }

  lemma {:induction false} TruthNext(ns: seq<int>, k: nat)
    requires 0 < k < |ns|
    ensures TruthOf(ns[..k + 1]) == NextTruth(TruthOf(ns[..k]), ns[k])
  {
    assert ns[..k + 1][..k] == ns[..k];
  }

  lemma {:induction false} ExactNext(ps: seq<Packet>, ns: seq<int>, k: nat)
    requires Carries(ps, ns) && 0 < k < |ns| && HalfRangeAt(ns, k) && ExactAt(ps, ns, k)
    ensures ExactAt(ps, ns, k + 1) <==> !MisreadAt(ns, k)
  {
    var t := TruthOf(ns[..k]);
    TruthSound(ns[..k]);
    MovesAt(ps, ns, k, t.max);
    TruthNext(ns, k);
    if ns[k] > t.max {
      ExactForward(Run(ps[..k]), t, Repeats(ns[..k], ns[k]), ns[k], Run(ps[..k + 1]));
    } else {
      ExactBack(Run(ps[..k]), t, Repeats(ns[..k], ns[k]), ns[k], Run(ps[..k + 1]));
    }
  }

  lemma {:induction false} ExactPrefix(ps: seq<Packet>, ns: seq<int>, k: nat)
    requires Carries(ps, ns) && 0 < k <= |ns|
    requires forall i :: 0 < i < k ==> HalfRangeAt(ns, i)
    requires forall i :: 0 < i < k ==> !MisreadAt(ns, i)
    ensures ExactAt(ps, ns, k)
  {
    if k == 1 {
      FirstArrival(ps[..1]);
      assert Missing(TruthOf(ns[..1])) == {};
    } else {
      ExactPrefix(ps, ns, k - 1);
      ExactNext(ps, ns, k - 1);
    }
  }

  /** Loss and extended maximum are right after every packet exactly when no arrival is misread. */
  lemma {:induction false} LossExactIff(ps: seq<Packet>, ns: seq<int>)
    requires Carries(ps, ns)
    requires forall k :: 0 < k < |ns| ==> HalfRangeAt(ns, k)
    ensures (forall k :: 0 < k <= |ns| ==> ExactAt(ps, ns, k)) <==> (forall k :: 0 < k < |ns| ==> !MisreadAt(ns, k))
  {
    if forall k :: 0 < k <= |ns| ==> ExactAt(ps, ns, k) {
      forall k | 0 < k < |ns| ensures !MisreadAt(ns, k) {
        ExactNext(ps, ns, k);
        assert ExactAt(ps, ns, k + 1);
      }
    }
    if forall k :: 0 < k < |ns| ==> !MisreadAt(ns, k) {
      forall k | 0 < k <= |ns| ensures ExactAt(ps, ns, k) {
        ExactPrefix(ps, ns, k);
      }
    }
  }

  /** The first arrival that is misread makes loss or extended maximum wrong. */
  lemma {:induction false} FirstMisreadMiscounts(ps: seq<Packet>, ns: seq<int>, k: nat)
    requires Carries(ps, ns) && 0 < k < |ns| && MisreadAt(ns, k) && HalfRangeAt(ns, k)
    requires forall i :: 0 < i < k ==> HalfRangeAt(ns, i) && !MisreadAt(ns, i)
    ensures ExactAt(ps, ns, k) && !ExactAt(ps, ns, k + 1)
  {
    ExactPrefix(ps, ns, k);
    ExactNext(ps, ns, k);
  }

  lemma {:induction false} FourthMiscounts(ps: seq<Packet>, ns: seq<int>)
    requires |ns| == 4 && Carries(ps, ns) && HalfRangeAt(ns, 1) && HalfRangeAt(ns, 2) && HalfRangeAt(ns, 3)
    requires !MisreadAt(ns, 1) && !MisreadAt(ns, 2) && MisreadAt(ns, 3)
    ensures ExactAt(ps, ns, 3) && !ExactAt(ps, ns, 4)
  {
    FirstMisreadMiscounts(ps, ns, 3);
  }

  lemma {:induction false} TruthOfOne(ns: seq<int>)
    requires ns != []
    ensures TruthOf(ns[..1]) == Truth(ns[0], ns[0], {ns[0]})
  {
    assert ns[..1] == [ns[0]];
  }

  lemma {:induction false} LastAlikeNext(ns: seq<int>, k: nat, n: int)
    requires k < |ns|
    ensures LastAlike(ns[..k + 1], n) == if Slot(n) == Slot(ns[k]) then Some(ns[k]) else LastAlike(ns[..k], n)
  {
    assert ns[..k + 1] == ns[..k] + [ns[k]];
    LastAlikeAppend(ns[..k], ns[k], n);
  }

  lemma {:induction false} FarJumpTruth(ns: seq<int>, a: int)
    requires ns == [a, a + 32767, a + 65533, a + 65536]
    ensures TruthOf(ns[..1]) == Truth(a, a, {a}) && TruthOf(ns[..2]) == Truth(a, a + 32767, {a, a + 32767})
    ensures TruthOf(ns[..3]) == Truth(a, a + 65533, {a, a + 32767, a + 65533})
  {
    TruthOfOne(ns);
    TruthNext(ns, 1);
    TruthNext(ns, 2);
  }

  lemma FarSlots(a: int)
    ensures Slot(a + 65536) == Slot(a) && Slot(a + 65536) != Slot(a + 32767) && Slot(a + 65536) != Slot(a + 65533)
  {
    SlotMultiple(a, 512);
    SlotDiffers(a + 32767, 256, 1);
    SlotDiffers(a + 65533, 0, 3);
    assert a + 32767 + 256 * 128 + 1 == a + 65536 && a + 65533 + 0 * 128 + 3 == a + 65536;
  }

  lemma TurnLooksAlike(a: int)
    ensures U16(a + 65536) == U16(a)
  {
  }

  lemma SlotDiffers(m: int, q: int, r: int)
    requires 0 < r < 128
    ensures Slot(m + q * 128 + r) != Slot(m)
  {
    SlotMultiple(m + r, q);
  }

  lemma SlotMultiple(m: int, q: int)
    ensures Slot(m + q * 128) == Slot(m)
  {
  }

  lemma {:induction false} FarJumpRepeats(ns: seq<int>, a: int)
    requires ns == [a, a + 32767, a + 65533, a + 65536]
    ensures Repeats(ns[..3], a + 65536)
  {
    FarSlots(a);
    TurnLooksAlike(a);
    LastAlikeNext(ns, 0, a + 65536);
    LastAlikeNext(ns, 1, a + 65536);
    LastAlikeNext(ns, 2, a + 65536);
  }

  /** The number one turn after the first looks like the first, which is still in its slot. */
  lemma {:induction false} FarJumpIsMisread(ns: seq<int>, a: int)
    requires ns == [a, a + 32767, a + 65533, a + 65536]
    ensures MisreadAt(ns, 3) && HalfRangeAt(ns, 3)
  {
    FarJumpTruth(ns, a);
    FarJumpRepeats(ns, a);
  }

  lemma {:induction false} FarJumpStart(ns: seq<int>, a: int)
    requires ns == [a, a + 32767, a + 65533, a + 65536]
    ensures !MisreadAt(ns, 1) && HalfRangeAt(ns, 1) && !MisreadAt(ns, 2) && HalfRangeAt(ns, 2)
  {
    FarJumpTruth(ns, a);
    LastAlikeNext(ns, 0, a + 32767);
    LastAlikeNext(ns, 0, a + 65533);
    LastAlikeNext(ns, 1, a + 65533);
    assert ns[..0] == [];
  }

  /**
   Packets numbered a, a + 32767, a + 65533 and a + 65536: the last is taken for the first and the account goes wrong.
   */
  lemma {:induction false} FarJumpMiscounts(ps: seq<Packet>, ns: seq<int>, a: int)
    requires ns == [a, a + 32767, a + 65533, a + 65536] && Carries(ps, ns)
    ensures ExactAt(ps, ns, 3) && !ExactAt(ps, ns, 4)
  {
    FarJumpStart(ns, a);
    FarJumpIsMisread(ns, a);
    FourthMiscounts(ps, ns);
  }

  lemma {:induction false} LateRepeatTruth(ns: seq<int>, a: int)
    requires ns == [a, a + 128, a]
    ensures TruthOf(ns[..1]) == Truth(a, a, {a}) && TruthOf(ns[..2]) == Truth(a, a + 128, {a, a + 128})
  {
    TruthOfOne(ns);
    TruthNext(ns, 1);
  }

  /** A late number already seen that its slot has forgotten is misread while another is missing. */
  lemma SeenIsMisread(t: Truth, n: int, missing: int)
    requires t.first <= missing <= t.max && missing !in t.seen && n < t.max && n in t.seen
    ensures Misread(t, false, n)
  {
    MissingMember(t, missing);
  }

  lemma {:induction false} LateRepeatForgets(ns: seq<int>, a: int)
    requires ns == [a, a + 128, a]
    ensures !Repeats(ns[..2], a)
  {
    assert Slot(a + 128) == Slot(a) && U16(a + 128) != U16(a);
    LastAlikeNext(ns, 1, a);
  }

  lemma {:induction false} LateRepeatIsMisread(ns: seq<int>, a: int)
    requires ns == [a, a + 128, a]
    ensures MisreadAt(ns, 2) && HalfRangeAt(ns, 2)
  {
    LateRepeatTruth(ns, a);
    LateRepeatForgets(ns, a);
    SeenIsMisread(TruthOf(ns[..2]), a, a + 1);
  }

  lemma {:induction false} LateRepeatStart(ns: seq<int>, a: int)
    requires ns == [a, a + 128, a]
    ensures !MisreadAt(ns, 1) && HalfRangeAt(ns, 1)
  {
    LateRepeatTruth(ns, a);
    LastAlikeNext(ns, 0, a + 128);
  }

  /**
   Packets numbered a, a + 128 and a again: the repeat no longer finds its slot and cancels the loss of another
   number.
   */
  lemma {:induction false} LateRepeatMiscounts(ps: seq<Packet>, ns: seq<int>, a: int)
    requires ns == [a, a + 128, a] && Carries(ps, ns)
    ensures ExactAt(ps, ns, 2) && !ExactAt(ps, ns, 3)
  {
    LateRepeatStart(ns, a);
    LateRepeatIsMisread(ns, a);
    FirstMisreadMiscounts(ps, ns, 2);
  }

  /** A number inside the tracker's design limits. */
  ghost predicate WellPaced(ns: seq<int>, k: nat)
    requires 0 < k < |ns|
  {
    && ns[k] >= ns[0] && TruthOf(ns[..k]).max - 128 < ns[k] <= TruthOf(ns[..k]).max + 32767
    && (ns[k] !in ns[..k] ==> !Repeats(ns[..k], ns[k]))
  }

  lemma {:induction false} WellPacedIsRead(ns: seq<int>, k: nat)
    requires 0 < k < |ns| && forall i :: 0 < i < |ns| ==> WellPaced(ns, i)
    ensures HalfRangeAt(ns, k) && !MisreadAt(ns, k)
  {
    assert WellPaced(ns, k);
    TruthMeans(ns[..k]);
    if ns[k] in ns[..k] {
      forall i | 0 < i < k + 1 ensures RecentAt(ns[..k] + [ns[k]], i) {
        assert WellPaced(ns, i);
        assert (ns[..k] + [ns[k]])[..i] == ns[..i];
      }
      RepeatIsCaught(ns[..k], ns[k]);
    }
  }

  /** For such a stream the loss counter is the number of integers from the first to the maximum never observed. */
  lemma {:induction false} LossIsMissing(ps: seq<Packet>, ns: seq<int>)
    requires Carries(ps, ns) && ns != []
    requires forall k :: 0 < k < |ns| ==> WellPaced(ns, k)
    ensures Sound(TruthOf(ns)) && Run(ps).stats.lost == |Missing(TruthOf(ns))|
  {
    forall k | 0 < k < |ns| ensures HalfRangeAt(ns, k) && !MisreadAt(ns, k) {
      WellPacedIsRead(ns, k);
    }
    TruthSound(ns);
    ExactPrefix(ps, ns, |ns|);
    assert ps[..|ps|] == ps && ns[..|ns|] == ns;
  }
}
