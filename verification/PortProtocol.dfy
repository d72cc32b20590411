/**
 The port pool under concurrent callers (internal/media/portalloc/pool.go): every
 channel operation, counter update and bind of Acquire and Release is one step, and
 steps of different callers interleave freely. A thread is one Acquire call and then
 the life of the lease it returned.
 */
module PortProtocol {
  import opened Wrap
  import opened PortPool

  datatype Phase =
    | Searching    // in the loop, before the select
    | Binding      // received `port`
    | Counting     // bound `port`, before inUse is raised
    | PuttingBack  // in the deferred function
    | Empty        // returned without a lease
    | Live         // the lease is with the caller
    | Closing      // inside once.Do, marked released
    | Returning    // uncounted, about to send
    | Returned

  datatype Thread = Thread(phase: Phase, failed: seq<int>, port: Option<int>)

  datatype State = State(queue: seq<int>, inUse: int, threads: seq<Thread>)

  datatype Step =
    | Start               // Acquire is called
    | Take(i: nat)        // receives a port
    | GiveUp(i: nat)      // queue empty, context cancelled or attempts used up
    | BindFails(i: nat)
    | BindSucceeds(i: nat)
    | Count(i: nat)
    | PutBack(i: nat)     // deferred send of one failed port
    | Finish(i: nat)
    | Release(i: nat)     // a Release call enters once.Do, or finds it entered before
    | Uncount(i: nat)
    | SendBack(i: nat)

  predicate Enabled(s: State, step: Step, capacity: nat) {
    if step.Start? then true
    else
      && step.i < |s.threads|
      && var t := s.threads[step.i];
      match step
      case Take(_) => t.phase == Searching && |t.failed| < capacity && s.queue != []
      case GiveUp(_) => t.phase == Searching
      case BindFails(_) => t.phase == Binding && t.port.Some?
      case BindSucceeds(_) => t.phase == Binding
      case Count(_) => t.phase == Counting
      case PutBack(_) => t.phase == PuttingBack && t.failed != [] && |s.queue| < capacity
      case Finish(_) => t.phase == PuttingBack && t.failed == []
      case Release(_) => t.phase in {Live, Closing, Returning, Returned}
      case Uncount(_) => t.phase == Closing
      case SendBack(_) => t.phase == Returning && t.port.Some? && |s.queue| < capacity
  }

  /** The thread that takes the step, afterwards. */
  function NextThread(s: State, step: Step, capacity: nat): Thread
    requires Enabled(s, step, capacity) && !step.Start?
  {
    var t := s.threads[step.i];
    match step
    case Take(_) => t.(phase := Binding, port := Some(s.queue[0]))
    case GiveUp(_) => t.(phase := PuttingBack)
    case BindFails(_) => Thread(Searching, t.failed + [t.port.value], None)
    case BindSucceeds(_) => t.(phase := Counting)
    case Count(_) => t.(phase := PuttingBack)
    case PutBack(_) => t.(failed := t.failed[1..])
    case Finish(_) => t.(phase := if t.port.Some? then Live else Empty)
    case Release(_) => if t.phase == Live then t.(phase := Closing) else t
    case Uncount(_) => t.(phase := Returning)
    case SendBack(_) => t.(phase := Returned, port := None)
  }

  function NextQueue(s: State, step: Step, capacity: nat): seq<int>
    requires Enabled(s, step, capacity)
  {
    match step
    case Take(_) => s.queue[1..]
    case PutBack(i) => s.queue + [s.threads[i].failed[0]]
    case SendBack(i) => s.queue + [s.threads[i].port.value]
    case _ => s.queue
  }

  function Next(s: State, step: Step, capacity: nat): State
    requires Enabled(s, step, capacity)
  {
    if step.Start? then s.(threads := s.threads + [Thread(Searching, [], None)])
    else
      State(NextQueue(s, step, capacity),
            if step.Count? then s.inUse + 1 else if step.Uncount? then s.inUse - 1 else s.inUse,
            s.threads[step.i := NextThread(s, step, capacity)])
  }

  // ---- Conservation of ports ----

  /** How often p occurs in s: the multiplicity, port by port and without the multiset. */
  function Times(s: seq<int>, p: int): nat {
    if s == [] then 0 else (if s[0] == p then 1 else 0) + Times(s[1..], p)
  }

  lemma {:induction false} TimesIsMultiplicity(s: seq<int>, p: int)
    ensures Times(s, p) == multiset(s)[p]
  {
    if s != [] {
      TimesIsMultiplicity(s[1..], p);
      assert s == [s[0]] + s[1..];
      CountFirst(s[0], s[1..], p);
    }
  }

  lemma {:induction false} TimesAppend(s: seq<int>, x: int, p: int)
    ensures Times(s + [x], p) == Times(s, p) + (if x == p then 1 else 0)
  {
    if s != [] {
      TimesAppend(s[1..], x, p);
      assert (s + [x])[1..] == s[1..] + [x];
    }
  }

  function HeldBy(t: Thread, p: int): nat { Times(t.failed, p) + (if t.port == Some(p) then 1 else 0) }

  function HeldByAll(ts: seq<Thread>, p: int): nat {
    if ts == [] then 0 else HeldByAll(ts[..|ts| - 1], p) + HeldBy(ts[|ts| - 1], p)
  }

  function Size(t: Thread): nat { |t.failed| + (if t.port.Some? then 1 else 0) }

  function SizeOfAll(ts: seq<Thread>): nat {
    if ts == [] then 0 else SizeOfAll(ts[..|ts| - 1]) + Size(ts[|ts| - 1])
  }

  /** 1 while the thread's lease is in the inUse counter. */
  function Counted(t: Thread): nat {
    if (t.phase == PuttingBack && t.port.Some?) || t.phase == Live || t.phase == Closing then 1 else 0
  }

  function CountedIn(ts: seq<Thread>): nat {
    if ts == [] then 0 else CountedIn(ts[..|ts| - 1]) + Counted(ts[|ts| - 1])
  }

  /** Which phases hold a port. */
  ghost predicate Sane(t: Thread) {
    && (t.phase in {Binding, Counting, Live, Closing, Returning} ==> t.port.Some?)
    && (t.phase in {Searching, Empty, Returned} ==> t.port.None?)
    && (t.phase in {Empty, Live, Closing, Returning, Returned} ==> t.failed == [])
  }

  /** Queued and held ports are together the configured ones, and the counter counts the leases. */
  ghost predicate Partition(s: State, all: seq<int>) {
    && (forall p :: Times(s.queue, p) + HeldByAll(s.threads, p) == Times(all, p))
    && |s.queue| + SizeOfAll(s.threads) == |all|
    && s.inUse == CountedIn(s.threads)
    && forall i :: 0 <= i < |s.threads| ==> Sane(s.threads[i])
  }

  lemma {:induction false} UpdateThread(ts: seq<Thread>, i: nat, t: Thread, p: int)
    requires i < |ts|
    ensures HeldByAll(ts[i := t], p) == HeldByAll(ts, p) + HeldBy(t, p) - HeldBy(ts[i], p)
  {
    var k := |ts| - 1;
    if i == k {
      assert ts[i := t][..k] == ts[..k];
    } else {
      UpdateThread(ts[..k], i, t, p);
      assert ts[i := t][..k] == ts[..k][i := t];
    }
  }

  lemma {:induction false} UpdateSizes(ts: seq<Thread>, i: nat, t: Thread)
    requires i < |ts|
    ensures SizeOfAll(ts[i := t]) == SizeOfAll(ts) + Size(t) - Size(ts[i])
    ensures CountedIn(ts[i := t]) == CountedIn(ts) + Counted(t) - Counted(ts[i])
  {
    var k := |ts| - 1;
    if i == k {
      assert ts[i := t][..k] == ts[..k];
    } else {
      UpdateSizes(ts[..k], i, t);
      assert ts[i := t][..k] == ts[..k][i := t];
    }
  }

  /** Queue and moving thread together keep their ports. */
  lemma StepKeepsPort(s: State, step: Step, capacity: nat, p: int)
    requires Enabled(s, step, capacity) && !step.Start? && Sane(s.threads[step.i])
    ensures Times(NextQueue(s, step, capacity), p) + HeldBy(NextThread(s, step, capacity), p)
         == Times(s.queue, p) + HeldBy(s.threads[step.i], p)
  {
    var t := s.threads[step.i];
    match step
    case BindFails(_) => TimesAppend(t.failed, t.port.value, p);
    case PutBack(_) => TimesAppend(s.queue, t.failed[0], p);
    case SendBack(_) => TimesAppend(s.queue, t.port.value, p);
    case _ =>
  }

  lemma StepKeepsSize(s: State, step: Step, capacity: nat)
    requires Enabled(s, step, capacity) && !step.Start? && Sane(s.threads[step.i])
    ensures var t, t' := s.threads[step.i], NextThread(s, step, capacity);
      && Sane(t')
      && |NextQueue(s, step, capacity)| + Size(t') == |s.queue| + Size(t)
      && Next(s, step, capacity).inUse - Counted(t') == s.inUse - Counted(t)
  {
  }

  lemma PortKept(s: State, step: Step, capacity: nat, p: int)
    requires Enabled(s, step, capacity) && !step.Start? && Sane(s.threads[step.i])
    ensures var s' := Next(s, step, capacity);
      Times(s'.queue, p) + HeldByAll(s'.threads, p) == Times(s.queue, p) + HeldByAll(s.threads, p)
  {
    StepKeepsPort(s, step, capacity, p);
    UpdateThread(s.threads, step.i, NextThread(s, step, capacity), p);
  }

  lemma {:induction false} StartKeeps(s: State, all: seq<int>)
    requires Partition(s, all)
    ensures Partition(s.(threads := s.threads + [Thread(Searching, [], None)]), all)
  {
    var ts := s.threads + [Thread(Searching, [], None)];
    assert ts[..|s.threads|] == s.threads;
    forall p ensures HeldByAll(ts, p) == HeldByAll(s.threads, p) {
    }
  }

  lemma SizesKept(s: State, step: Step, capacity: nat)
    requires Enabled(s, step, capacity) && !step.Start? && Sane(s.threads[step.i])
    ensures var s' := Next(s, step, capacity);
      && |s'.queue| + SizeOfAll(s'.threads) == |s.queue| + SizeOfAll(s.threads)
      && s'.inUse - CountedIn(s'.threads) == s.inUse - CountedIn(s.threads)
      && |s'.threads| == |s.threads| && Sane(s'.threads[step.i])
      && forall j :: 0 <= j < |s.threads| && j != step.i ==> s'.threads[j] == s.threads[j]
  {
    StepKeepsSize(s, step, capacity);
    UpdateSizes(s.threads, step.i, NextThread(s, step, capacity));
  }

  lemma {:induction false} PartitionStep(s: State, step: Step, capacity: nat, all: seq<int>)
    requires Partition(s, all) && Enabled(s, step, capacity)
    ensures Partition(Next(s, step, capacity), all)
  {
    var s' := Next(s, step, capacity);
    if step.Start? {
      StartKeeps(s, all);
    } else {
      SizesKept(s, step, capacity);
      forall p ensures Times(s'.queue, p) + HeldByAll(s'.threads, p) == Times(all, p) {
        PortKept(s, step, capacity, p);
      }
    }
  }

  // ---- Whole runs ----

  ghost predicate IsRun(all: seq<int>, ss: seq<State>, steps: seq<Step>) {
    && |ss| == |steps| + 1 && ss[0] == State(all, 0, [])
    && forall k :: 0 <= k < |steps| ==> Enabled(ss[k], steps[k], |all|) && ss[k + 1] == Next(ss[k], steps[k], |all|)
  }

  /** The queue New fills for a configuration. */
  function Configured(cfg: Config): seq<int>
    requires ValidConfig(cfg)
  {
    EvenPorts(cfg.startPort, cfg.endPort)
  }

  /** In every interleaving, queued ports, ports of calls in flight and leased ports partition the configured ones. */
  lemma {:induction false} PortsArePartitioned(all: seq<int>, ss: seq<State>, steps: seq<Step>, k: nat)
    requires IsRun(all, ss, steps) && k < |ss|
    ensures Partition(ss[k], all)
  {
    if k > 0 {
      PortsArePartitioned(all, ss, steps, k - 1);
      PartitionStep(ss[k - 1], steps[k - 1], |all|, all);
    }
  }

  lemma {:induction false} HeldTwice(ts: seq<Thread>, i: nat, j: nat, p: int)
    requires i < |ts| && j < |ts|
    ensures HeldByAll(ts, p) >= (if i == j then HeldBy(ts[i], p) else HeldBy(ts[i], p) + HeldBy(ts[j], p))
  {
    var k := |ts| - 1;
    if i < k && j < k {
      HeldTwice(ts[..k], i, j, p);
    } else if i < k {
      HeldTwice(ts[..k], i, i, p);
    } else if j < k {
      HeldTwice(ts[..k], j, j, p);
    }
  }

  /** A held port is an even configured one, and neither queued nor held by another thread. */
  lemma HeldAlone(cfg: Config, s: State, i: nat, p: int)
    requires ValidConfig(cfg) && Partition(s, Configured(cfg)) && i < |s.threads| && HeldBy(s.threads[i], p) > 0
    ensures p % 2 == 0 && Times(s.queue, p) == 0
    ensures forall j :: 0 <= j < |s.threads| && j != i ==> HeldBy(s.threads[j], p) == 0
  {
    HeldTwice(s.threads, i, i, p);
    EvenPortsOnce(cfg.startPort, cfg.endPort, p);
    TimesIsMultiplicity(Configured(cfg), p);
    forall j | 0 <= j < |s.threads| && j != i ensures HeldBy(s.threads[j], p) == 0 {
      HeldTwice(s.threads, i, j, p);
    }
  }

  /** Two threads never hold the same pair, so no RTP or RTCP port is shared; and a held pair is not queued. */
  lemma {:induction false} NoSharedPort(cfg: Config, ss: seq<State>, steps: seq<Step>, k: nat, i: nat, p: int)
    requires ValidConfig(cfg) && IsRun(Configured(cfg), ss, steps) && k < |ss|
    requires i < |ss[k].threads| && HeldBy(ss[k].threads[i], p) > 0
    ensures Times(ss[k].queue, p) == 0
    ensures forall j, q :: 0 <= j < |ss[k].threads| && j != i && HeldBy(ss[k].threads[j], q) > 0 ==>
      {p, p + 1} !! {q, q + 1}
  {
    PortsArePartitioned(Configured(cfg), ss, steps, k);
    HeldAlone(cfg, ss[k], i, p);
    forall j, q | 0 <= j < |ss[k].threads| && j != i && HeldBy(ss[k].threads[j], q) > 0
      ensures {p, p + 1} !! {q, q + 1}
    {
      HeldAlone(cfg, ss[k], j, q);
    }
  }

  lemma {:induction false} SizeCounts(ts: seq<Thread>, i: nat)
    requires i < |ts|
    ensures SizeOfAll(ts) >= Size(ts[i])
  {
    if i < |ts| - 1 {
      SizeCounts(ts[..|ts| - 1], i);
    }
  }

  /** A thread about to send a port back always finds room in the channel. */
  lemma {:induction false} SendNeverBlocks(all: seq<int>, ss: seq<State>, steps: seq<Step>, k: nat, i: nat)
    requires IsRun(all, ss, steps) && k < |ss| && i < |ss[k].threads|
    requires var t := ss[k].threads[i]; t.phase == Returning || (t.phase == PuttingBack && t.failed != [])
    ensures |ss[k].queue| < |all|
  {
    PortsArePartitioned(all, ss, steps, k);
    SizeCounts(ss[k].threads, i);
  }

  // ---- Exactly-once release ----

  function Sends(steps: seq<Step>, i: nat): nat {
    if steps == [] then 0
    else Sends(steps[..|steps| - 1], i) + (if steps[|steps| - 1] == SendBack(i) then 1 else 0)
  }

  /**
   However often Release is called, a lease sends its port back at most once, and exactly once when it has returned.
   */
  lemma {:induction false} ReleasedExactlyOnce(all: seq<int>, ss: seq<State>, steps: seq<Step>, k: nat, i: nat)
    requires IsRun(all, ss, steps) && k < |ss|
    ensures Sends(steps[..k], i) == if i < |ss[k].threads| && ss[k].threads[i].phase == Returned then 1 else 0
  {
    if k > 0 {
      ReleasedExactlyOnce(all, ss, steps, k - 1, i);
      assert steps[..k][..k - 1] == steps[..k - 1];
      assert Enabled(ss[k - 1], steps[k - 1], |all|);
    }
  }

  lemma {:induction false} NoneCounted(ts: seq<Thread>)
    requires forall i :: 0 <= i < |ts| ==> ts[i].phase in {Empty, Returned}
    ensures CountedIn(ts) == 0
  {
    if ts != [] {
      NoneCounted(ts[..|ts| - 1]);
    }
  }

  lemma {:induction false} NothingHeld(ts: seq<Thread>, p: int)
    requires forall i :: 0 <= i < |ts| ==> ts[i].phase in {Empty, Returned} && Sane(ts[i])
    ensures HeldByAll(ts, p) == 0
  {
    if ts != [] {
      NothingHeld(ts[..|ts| - 1], p);
    }
  }

  /**
   Once every call has ended and every lease is returned, InUse is zero and the queue holds every port as often as at
   first.
   */
  lemma {:induction false} QuietPoolIsFull(all: seq<int>, ss: seq<State>, steps: seq<Step>, k: nat)
    requires IsRun(all, ss, steps) && k < |ss|
    requires forall i :: 0 <= i < |ss[k].threads| ==> ss[k].threads[i].phase in {Empty, Returned}
    ensures ss[k].inUse == 0 && forall p :: Times(ss[k].queue, p) == Times(all, p)
  {
    PortsArePartitioned(all, ss, steps, k);
    NoneCounted(ss[k].threads);
    forall p ensures Times(ss[k].queue, p) == Times(all, p) {
      NothingHeld(ss[k].threads, p);
    }
  }
}
