/**
 What the tracker's 128 slots mean against the full history. A stream is a
 sequence `ns` of true, unbounded numbers; the packets carry them modulo 2^16.
 */
module RtpHistory {
  import opened Wrap
  import opened RtpTracker

  ghost predicate Carries(ps: seq<Packet>, ns: seq<int>) {
    |ps| == |ns| && forall k :: 0 <= k < |ns| ==> ps[k].sequence == U16(ns[k])
  }

  /** The most recent number of the history with the same residue modulo 128 as n. */
  function LastAlike(ns: seq<int>, n: int): Option<int> {
    if ns == [] then None
    else
      var k := |ns| - 1;
      if Slot(ns[k]) == Slot(n) then Some(ns[k]) else LastAlike(ns[..k], n)
  }

  /** The last number of n's residue class agrees with n modulo 2^16. */
  predicate Repeats(ns: seq<int>, n: int) {
    var m := LastAlike(ns, n);
    m.Some? && U16(m.value) == U16(n)
  }

  function Truncated(n: Option<int>): Option<uint16> {
    if n.None? then None else Some(U16(n.value))
  }

  ghost predicate TableAgrees(t: Table, ns: seq<int>) {
    forall i :: 0 <= i < 128 ==> t[i] == Truncated(LastAlike(ns, i))
  }

  lemma {:induction false} LastAlikeIsAlike(ns: seq<int>, n: int)
    ensures LastAlike(ns, n) == LastAlike(ns, Slot(n))
    ensures LastAlike(ns, n).Some? ==> Slot(LastAlike(ns, n).value) == Slot(n) && LastAlike(ns, n).value in ns
  {
    if ns != [] {
      LastAlikeIsAlike(ns[..|ns| - 1], n);
    }
  }

  lemma {:induction false} LastAlikeAppend(ns: seq<int>, n: int, i: int)
    ensures LastAlike(ns + [n], i) == if Slot(i) == Slot(n) then Some(n) else LastAlike(ns, i)
  {
    assert (ns + [n])[..|ns|] == ns;
  }

  lemma {:induction false} TableStep(s: State, ns: seq<int>, p: Packet, n: int)
    requires TableAgrees(s.table, ns) && p.sequence == U16(n)
    ensures TableAgrees(Observed(s, p).0.table, ns + [n])
  {
    SlotOfU16(n);
    forall i | 0 <= i < 128
      ensures Observed(s, p).0.table[i] == Truncated(LastAlike(ns + [n], i))
    {
      LastAlikeAppend(ns, n, i);
    }
  }

  /** The table holds, for every residue, the last number of that residue. */
  lemma {:induction false} TableIsHistory(ps: seq<Packet>, ns: seq<int>)
    requires Carries(ps, ns)
    ensures TableAgrees(Run(ps).table, ns)
  {
    if ps != [] {
      var k := |ps| - 1;
      TableIsHistory(ps[..k], ns[..k]);
      TableStep(Run(ps[..k]), ns[..k], ps[k], ns[k]);
      assert ns == ns[..k] + [ns[k]];
    }
  }

  /** A packet is classed Duplicate exactly when the last one of its residue had the same 16-bit number. */
  lemma {:induction false} DuplicateIff(ps: seq<Packet>, ns: seq<int>, p: Packet, n: int)
    requires Carries(ps, ns) && p.sequence == U16(n)
    ensures Observed(Run(ps), p).1 == PacketDuplicate <==> Repeats(ns, n)
    ensures HitsSlot(Run(ps), p) <==> Repeats(ns, n)
  {
    TableIsHistory(ps, ns);
    LastAlikeIsAlike(ns, n);
    SlotOfU16(n);
  }

  // ---- The reference account ----

  /** What is true of a stream: its first number, its maximum and the numbers seen. */
  datatype Truth = Truth(first: int, max: int, seen: set<int>)

  function NextTruth(t: Truth, n: int): Truth {
    Truth(t.first, if n > t.max then n else t.max, t.seen + {n})
  }

  function TruthOf(ns: seq<int>): Truth
    requires ns != []
  {
    var k := |ns| - 1;
    if k == 0 then Truth(ns[0], ns[0], {ns[0]}) else NextTruth(TruthOf(ns[..k]), ns[k])
  }

  lemma {:induction false} TruthMeans(ns: seq<int>)
    requires ns != []
    ensures var t := TruthOf(ns);
      t.first == ns[0] && t.max in ns && (forall x :: x in ns ==> x <= t.max) && (forall x :: x in t.seen <==> x in ns)
  {
    var k := |ns| - 1;
    if k > 0 {
      TruthMeans(ns[..k]);
      assert ns == ns[..k] + [ns[k]];
    }
  }

  // ---- Inside the window ----

  /** The k-th number is less than 128 below the maximum before it. */
  ghost predicate RecentAt(ns: seq<int>, k: nat)
    requires 0 < k < |ns|
  {
    ns[k] > TruthOf(ns[..k]).max - 128
  }

  ghost predicate Recent(ns: seq<int>) {
    forall k :: 0 < k < |ns| ==> RecentAt(ns, k)
  }

  lemma {:induction false} RecentPrefix(ns: seq<int>, k: nat)
    requires Recent(ns) && k <= |ns|
    ensures Recent(ns[..k])
  {
    forall i | 0 < i < k ensures RecentAt(ns[..k], i) {
      assert RecentAt(ns, i);
      assert ns[..k][..i] == ns[..i];
    }
  }

  lemma SlotGap(m: int, n: int)
    requires Slot(m) == Slot(n) && m > n - 128
    ensures m >= n
  {
  }

  lemma {:induction false} LastAlikeRecent(ns: seq<int>, n: int)
    requires Recent(ns) && n in ns
    ensures LastAlike(ns, n).Some? && LastAlike(ns, n).value >= n
  {
    var k := |ns| - 1;
    assert ns == ns[..k] + [ns[k]];
    if ns[k] != n {
      if Slot(ns[k]) == Slot(n) {
        TruthMeans(ns[..k]);
        assert RecentAt(ns, k);
        SlotGap(ns[k], n);
      } else {
        RecentPrefix(ns, k);
        LastAlikeRecent(ns[..k], n);
      }
    }
  }

  /** While packets stay inside the window, every repeat is reported as a duplicate. */
  lemma {:induction false} RepeatIsCaught(ns: seq<int>, n: int)
    requires Recent(ns + [n]) && n in ns
    ensures Repeats(ns, n)
  {
    var all := ns + [n];
    assert all[..|ns|] == ns;
    RecentPrefix(all, |ns|);
    LastAlikeRecent(ns, n);
    LastAlikeIsAlike(ns, n);
    TruthMeans(ns);
    assert RecentAt(all, |ns|);
    SlotGap(n, LastAlike(ns, n).value);
  }

  /** While every packet is less than 128 below the running maximum, every repeat is reported as a duplicate. */
  lemma {:induction false} RepeatIsReported(ps: seq<Packet>, ns: seq<int>, p: Packet, n: int)
    requires Carries(ps, ns) && p.sequence == U16(n) && Recent(ns + [n]) && n in ns
    ensures Observed(Run(ps), p).1 == PacketDuplicate
  {
    RepeatIsCaught(ns, n);
    DuplicateIff(ps, ns, p, n);
  }
}
