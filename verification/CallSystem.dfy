/**
 Many call actors publishing to one bus that one consumer writes out: in every
 interleaving each row is the replay of a prefix of its own call's log
 (internal/core/call/actor.go, internal/event/call_bus.go,
 internal/platform/mysql/store.go).
 */
module CallSystem {
  import opened Wrap
  import opened CallActor
  import opened CallRecord

  /** logs: what each call got accepted by the bus; lost: the event whose write failed and stopped the consumer. */
  datatype System = System(
    actors: map<string, Actor>, logs: map<string, seq<Event>>, bus: seq<Event>, written: seq<Event>, rows: Table,
    lost: seq<Event>)

  datatype Step =
    | Open(id: string, at: int, accepted: bool)
    | Ask(id: string, request: Request)
    | Consume(commits: bool)

  function CreatedEvent(id: string, at: int): Event { Event(1, id, New, None, "", at) }

  predicate Enabled(s: System, step: Step, capacity: nat) {
    match step
    case Open(id, _, accepted) => id !in s.logs && (accepted ==> |s.bus| < capacity)
    case Ask(id, r) => id in s.actors && id in s.logs && (r.accepted ==> |s.bus| < capacity)
    case Consume(_) => s.bus != [] && s.lost == []
  }

  function Next(s: System, step: Step, capacity: nat): System
    requires Enabled(s, step, capacity)
  {
    match step
    case Open(id, at, accepted) =>
      if !accepted then s.(logs := s.logs[id := []])
      else
        var e := CreatedEvent(id, at);
        s.(actors := s.actors[id := Created(id).(sequence := 1)], logs := s.logs[id := [e]], bus := s.bus + [e])
    case Ask(id, r) =>
      var (a, _, es) := Applied(s.actors[id], r);
      s.(actors := s.actors[id := a], logs := s.logs[id := s.logs[id] + es], bus := s.bus + es)
    case Consume(commits) =>
      var e := s.bus[0];
      if commits then s.(bus := s.bus[1..], written := s.written + [e], rows := Written(s.rows, e))
      else s.(bus := s.bus[1..], lost := [e])
  }

  // ---- Invariants ----

  function LogOf(s: System, id: string): seq<Event> { if id in s.logs then s.logs[id] else [] }

  /** The created event, then a delivered path, with growing sequence numbers throughout. */
  ghost predicate GoodLog(log: seq<Event>, id: string, a: Actor) {
    && log != [] && a.callId == id && a.sequence >= 1
    && log[0].sequence == 1 && log[0].callId == id && log[0].newState.None?
    && Delivered(log[1..], New, a)
    && forall i :: 1 <= i < |log| ==> log[i].sequence > 1
  }

  /** Everything accepted is written, lost or queued, call by call and in order. */
  ghost predicate Flow(s: System) {
    forall id :: Of(s.written + s.lost + s.bus, id) == LogOf(s, id)
  }

  /** Running calls have good logs; a call whose created event was refused has none. */
  ghost predicate LogsGood(actors: map<string, Actor>, logs: map<string, seq<Event>>) {
    && (forall id :: id in actors ==> id in logs && GoodLog(logs[id], id, actors[id]))
    && (forall id :: id in logs && id !in actors ==> logs[id] == [])
  }

  ghost predicate Inv(s: System, capacity: nat) {
    && Flow(s)
    && s.rows == WrittenAll(map[], s.written)
    && |s.bus| <= capacity
    && LogsGood(s.actors, s.logs)
  }

  lemma {:induction false} LogsGoodUpdate(actors: map<string, Actor>, logs: map<string, seq<Event>>, id: string,
    a: Actor, log: seq<Event>)
    requires LogsGood(actors, logs) && GoodLog(log, id, a)
    ensures LogsGood(actors[id := a], logs[id := log])
  {
  }

  lemma {:induction false} GoodLogAppend(log: seq<Event>, id: string, a: Actor, b: Actor, es: seq<Event>)
    requires GoodLog(log, id, a) && Delivered(log[1..] + es, New, b)
    requires b.callId == a.callId && b.sequence >= a.sequence && |es| <= 1
    requires es != [] ==> es[0].sequence == a.sequence + 1
    ensures GoodLog(log + es, id, b)
  {
    assert (log + es)[1..] == log[1..] + es;
  }

  lemma {:induction false} GoodLogStep(log: seq<Event>, id: string, a: Actor, r: Request)
    requires GoodLog(log, id, a)
    ensures GoodLog(log + Applied(a, r).2, id, Applied(a, r).0)
  {
    DeliveredStep(log[1..], New, a, r);
    AppliedShape(a, r);
    GoodLogAppend(log, id, a, Applied(a, r).0, Applied(a, r).2);
  }

  lemma FreshLogIsGood(id: string, at: int)
    ensures GoodLog([CreatedEvent(id, at)], id, Created(id).(sequence := 1))
  {
    assert [CreatedEvent(id, at)][1..] == [];
  }

  /** Events of one call added at the end of the bus and of that call's log. */
  lemma {:induction false} FlowAppend(all: seq<Event>, es: seq<Event>, id: string, other: string)
    requires |es| <= 1 && (es != [] ==> es[0].callId == id)
    ensures Of(all + es, other) == if other == id then Of(all, other) + es else Of(all, other)
  {
    if es == [] {
      assert all + es == all && Of(all, other) + es == Of(all, other);
    } else {
      assert es == [es[0]];
      OfAppend(all, es[0], other);
    }
  }

  lemma {:induction false} FlowGrows(s: System, s': System, id: string, es: seq<Event>)
    requires Flow(s) && |es| <= 1 && (es != [] ==> es[0].callId == id)
    requires s'.written == s.written && s'.lost == s.lost && s'.bus == s.bus + es
    requires s'.logs == s.logs[id := LogOf(s, id) + es]
    ensures Flow(s')
  {
    var all := s.written + s.lost + s.bus;
    assert s'.written + s'.lost + s'.bus == all + es;
    forall other ensures Of(all + es, other) == LogOf(s', other) {
      FlowAppend(all, es, id, other);
    }
  }

  lemma FlowShifts(s: System, s': System)
    requires Flow(s) && s'.written + s'.lost + s'.bus == s.written + s.lost + s.bus
    requires forall id :: LogOf(s', id) == LogOf(s, id)
    ensures Flow(s')
  {
    forall id ensures Of(s'.written + s'.lost + s'.bus, id) == LogOf(s', id) {
      assert Of(s.written + s.lost + s.bus, id) == LogOf(s, id);
    }
  }

  /** The head of the bus goes to the written events or to the lost ones, which are its only place. */
  lemma {:induction false} HeadMoves(written: seq<Event>, lost: seq<Event>, bus: seq<Event>)
    requires lost == [] && bus != []
    ensures (written + [bus[0]]) + lost + bus[1..] == written + lost + bus
    ensures written + [bus[0]] + bus[1..] == written + lost + bus
  {
    assert bus == [bus[0]] + bus[1..];
  }

  lemma ConsumeKeeps(s: System, commits: bool, capacity: nat)
    requires Inv(s, capacity) && Enabled(s, Consume(commits), capacity)
    ensures Inv(Next(s, Consume(commits), capacity), capacity)
  {
    var s' := Next(s, Consume(commits), capacity);
    HeadMoves(s.written, s.lost, s.bus);
    FlowShifts(s, s');
    WrittenAllAppend(map[], s.written, s.bus[0]);
  }

  lemma AskKeeps(s: System, id: string, r: Request, capacity: nat)
    requires Inv(s, capacity) && Enabled(s, Ask(id, r), capacity)
    ensures Inv(Next(s, Ask(id, r), capacity), capacity)
  {
    var (a, _, es) := Applied(s.actors[id], r);
    GoodLogStep(s.logs[id], id, s.actors[id], r);
    AppliedShape(s.actors[id], r);
    LogsGoodUpdate(s.actors, s.logs, id, a, s.logs[id] + es);
    FlowGrows(s, Next(s, Ask(id, r), capacity), id, Applied(s.actors[id], r).2);
  }

  lemma {:induction false} OpenAccepted(s: System, id: string, log: seq<Event>, a: Actor, capacity: nat)
    requires Inv(s, capacity) && id !in s.logs && |s.bus| < capacity
    requires GoodLog(log, id, a) && |log| == 1
    ensures Inv(s.(actors := s.actors[id := a], logs := s.logs[id := log], bus := s.bus + log), capacity)
  {
    assert LogOf(s, id) == [] && [] + log == log;
    LogsGoodUpdate(s.actors, s.logs, id, a, log);
    FlowGrows(s, s.(actors := s.actors[id := a], logs := s.logs[id := log], bus := s.bus + log), id, log);
  }

  lemma LogsGoodEmpty(actors: map<string, Actor>, logs: map<string, seq<Event>>, id: string)
    requires LogsGood(actors, logs) && id !in logs
    ensures LogsGood(actors, logs[id := []])
  {
    assert id !in actors;
  }

  lemma OpenRefused(s: System, id: string, capacity: nat)
    requires Inv(s, capacity) && id !in s.logs
    ensures Inv(s.(logs := s.logs[id := []]), capacity)
  {
    LogsGoodEmpty(s.actors, s.logs, id);
    var s' := s.(logs := s.logs[id := []]);
    forall other ensures LogOf(s', other) == LogOf(s, other) {
    }
    FlowShifts(s, s');
  }

  lemma OpenKeeps(s: System, id: string, at: int, accepted: bool, capacity: nat)
    requires Inv(s, capacity) && Enabled(s, Open(id, at, accepted), capacity)
    ensures Inv(Next(s, Open(id, at, accepted), capacity), capacity)
  {
    if accepted {
      FreshLogIsGood(id, at);
      OpenAccepted(s, id, [CreatedEvent(id, at)], Created(id).(sequence := 1), capacity);
    } else {
      OpenRefused(s, id, capacity);
    }
  }

  // ---- Whole runs ----

  ghost predicate IsRun(ss: seq<System>, steps: seq<Step>, capacity: nat) {
    && |ss| == |steps| + 1 && ss[0] == System(map[], map[], [], [], map[], [])
    && forall k :: 0 <= k < |steps| ==>
        Enabled(ss[k], steps[k], capacity) && ss[k + 1] == Next(ss[k], steps[k], capacity)
  }

  lemma {:induction false} InvAlways(ss: seq<System>, steps: seq<Step>, capacity: nat, k: nat)
    requires IsRun(ss, steps, capacity) && k < |ss|
    ensures Inv(ss[k], capacity)
  {
    if k > 0 {
      InvAlways(ss, steps, capacity, k - 1);
      match steps[k - 1]
      case Open(id, at, accepted) => OpenKeeps(ss[k - 1], id, at, accepted, capacity);
      case Ask(id, r) => AskKeeps(ss[k - 1], id, r, capacity);
      case Consume(commits) => ConsumeKeeps(ss[k - 1], commits, capacity);
    }
  }

  /** A prefix of a good log holds the end of the call exactly when its last event is the end. */
  lemma {:induction false} EndedIff(log: seq<Event>, id: string, a: Actor, n: nat)
    requires GoodLog(log, id, a) && 0 < n <= |log|
    ensures (exists i :: 0 <= i < n && EntersEnd(log[i])) <==> EntersEnd(log[n - 1])
  {
    TerminalIsLast(log[1..], New, a.call.state, a.sequence);
    forall i | 0 <= i < n - 1 ensures !EntersEnd(log[i]) {
      if i > 0 {
        assert log[i] == log[1..][i - 1];
      }
    }
  }

  /**
   Whatever prefix of the bus has been written, a call's row shows exactly the first n events of its own log; it has an
   end time exactly when its state is terminal, and then the whole log has been written.
   */
  lemma {:induction false} RowIsOwnReplay(ss: seq<System>, steps: seq<Step>, capacity: nat, k: nat, id: string)
    returns (n: nat)
    requires IsRun(ss, steps, capacity) && k < |ss|
    ensures var s := ss[k];
      && n <= |LogOf(s, id)| && Of(s.written, id) == LogOf(s, id)[..n]
      && Get(s.rows, id) == Replay(LogOf(s, id)[..n])
      && (id in s.rows <==> n > 0)
      && (id in s.rows ==> Shows(s.rows[id], LogOf(s, id)[..n]))
      && (id in s.rows ==>
            (s.rows[id].endedAt.Some? <==> s.rows[id].state == Some(Terminated) || s.rows[id].state == Some(Failed)))
      && (id in s.rows && s.rows[id].endedAt.Some? ==> n == |LogOf(s, id)|)
  {
    InvAlways(ss, steps, capacity, k);
    var s := ss[k];
    RowsAreReplays(s.written, id);
    LogSplits(s, id);
    n := |Of(s.written, id)|;
    var log := LogOf(s, id);
    assert log[..n] == Of(s.written, id);
    if n > 0 {
      ReplayMeans(log[..n]);
      RowEnds(log, id, s.actors[id], n, s.rows[id]);
    }
  }

  lemma {:induction false} RowEnds(log: seq<Event>, id: string, a: Actor, n: nat, row: Row)
    requires GoodLog(log, id, a) && 0 < n <= |log| && Shows(row, log[..n])
    ensures row.endedAt.Some? <==> row.state == Some(Terminated) || row.state == Some(Failed)
    ensures row.endedAt.Some? ==> n == |log|
  {
    EndedIff(log, id, a, n);
    assert forall i :: 0 <= i < n ==> log[..n][i] == log[i];
    if EntersEnd(log[n - 1]) {
      TerminalIsLast(log[1..], New, a.call.state, a.sequence);
      assert log[n - 1] == log[1..][n - 2];
    }
  }

  // ---- The key of call_events ----

  lemma {:induction false} LogIncreases(log: seq<Event>, id: string, a: Actor, i: nat, j: nat)
    requires GoodLog(log, id, a) && i < j < |log|
    ensures log[i].sequence < log[j].sequence
  {
    if i < j - 1 {
      LogIncreases(log, id, a, i, j - 1);
    }
    if j > 1 {
      assert log[1..][j - 1] == log[j] && log[1..][j - 2] == log[j - 1];
    }
  }

  lemma {:induction false} OfHas(es: seq<Event>, i: nat) returns (j: nat)
    requires i < |es|
    ensures j < |Of(es, es[i].callId)| && Of(es, es[i].callId)[j] == es[i]
  {
    var k := |es| - 1;
    if i == k {
      j := |Of(es, es[i].callId)| - 1;
    } else {
      j := OfHas(es[..k], i);
    }
  }

  lemma LogSplits(s: System, id: string)
    requires Flow(s)
    ensures LogOf(s, id) == Of(s.written, id) + Of(s.lost + s.bus, id)
  {
    assert s.written + s.lost + s.bus == s.written + (s.lost + s.bus);
    OfConcat(s.written, s.lost + s.bus, id);
  }

  lemma {:induction false} HeadIsNew(s: System, capacity: nat, i: nat)
    requires Inv(s, capacity) && s.bus != [] && i < |s.written| && s.written[i].callId == s.bus[0].callId
    ensures s.written[i].sequence < s.bus[0].sequence
  {
    var id := s.bus[0].callId;
    var log, rest := LogOf(s, id), s.lost + s.bus;
    LogSplits(s, id);
    assert rest[|s.lost|] == s.bus[0];
    var n := OfHas(s.written, i);
    var m := OfHas(rest, |s.lost|);
    LogIncreases(log, id, s.actors[id], n, |Of(s.written, id)| + m);
  }

  /** No event is written twice under one key: an insert into call_events never meets its key. */
  lemma {:induction false} KeysAreNew(ss: seq<System>, steps: seq<Step>, capacity: nat, k: nat, i: nat)
    requires IsRun(ss, steps, capacity) && k < |ss| && ss[k].bus != [] && i < |ss[k].written|
    ensures KeyOf(ss[k].written[i]) != KeyOf(ss[k].bus[0])
  {
    InvAlways(ss, steps, capacity, k);
    if ss[k].written[i].callId == ss[k].bus[0].callId {
      HeadIsNew(ss[k], capacity, i);
    }
  }
}
