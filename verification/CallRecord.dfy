/**
 From call events to call records: the bounded bus with one consumer
 (internal/event/call_bus.go) and the row each event is folded into
 (internal/platform/mysql/store.go). A table is a map and each write is atomic.
 */
module CallRecord {
  import opened Wrap
  import opened CallActor

  datatype Row = Row(
    state: Option<CallState>, startedAt: int, answeredAt: Option<int>, endedAt: Option<int>, cause: string,
    updatedAt: int)

  function AnswerTime(e: Event): Option<int> { if e.newState == Some(Answered) then Some(e.occurredAt) else None }

  predicate EndsCall(e: Event) { e.newState.Some? && IsTerminal(e.newState.value) }

  function EndTime(e: Event): Option<int> { if EndsCall(e) then Some(e.occurredAt) else None }

  function Coalesce<T>(a: Option<T>, b: Option<T>): Option<T> { if a.Some? then a else b }

  /** The insert, or the update of the row already there. */
  function Upserted(row: Option<Row>, e: Event): Row {
    if row.None? then Row(e.newState, e.occurredAt, AnswerTime(e), EndTime(e), e.reason, e.occurredAt)
    else
      var r := row.value;
      Row(e.newState, r.startedAt, Coalesce(r.answeredAt, AnswerTime(e)), Coalesce(EndTime(e), r.endedAt),
          if e.reason == "" then r.cause else e.reason, e.occurredAt)
  }

  type Table = map<string, Row>

  function Get(t: Table, id: string): Option<Row> { if id in t then Some(t[id]) else None }

  function Written(t: Table, e: Event): Table { t[e.callId := Upserted(Get(t, e.callId), e)] }

  function WrittenAll(t: Table, es: seq<Event>): Table {
    if es == [] then t else Written(WrittenAll(t, es[..|es| - 1]), es[|es| - 1])
  }

  lemma {:induction false} WrittenAllAppend(t: Table, es: seq<Event>, e: Event)
    ensures WrittenAll(t, es + [e]) == Written(WrittenAll(t, es), e)
  {
    assert (es + [e])[..|es|] == es;
  }

  /** The primary key of call_events. */
  datatype EventKey = EventKey(callId: string, sequence: nat)

  function KeyOf(e: Event): EventKey { EventKey(e.callId, e.sequence) }

  class Store {
    var calls: Table
    var callEvents: map<EventKey, Event>

    constructor ()
      ensures calls == map[] && callEvents == map[]
    {
      calls, callEvents := map[], map[];
    }

    /**
     Updates the row of the event's call and inserts the event as one transaction; one that fails, or that would insert
     a key again, changes nothing.
     */
    method WriteCallEvent(e: Event, commits: bool) returns (ok: bool)
      modifies this
      ensures ok == (commits && KeyOf(e) !in old(callEvents))
      ensures calls == if ok then Written(old(calls), e) else old(calls)
      ensures callEvents == if ok then old(callEvents)[KeyOf(e) := e] else old(callEvents)
    {
      if !commits || KeyOf(e) in callEvents {
        return false;
      }
      if e.callId !in calls {
        calls := calls[e.callId := Row(e.newState, e.occurredAt, AnswerTime(e), EndTime(e), e.reason, e.occurredAt)];
      } else {
        var r := calls[e.callId];
        r := r.(state := e.newState, updatedAt := e.occurredAt);
        if r.answeredAt.None? {
          r := r.(answeredAt := AnswerTime(e));
        }
        if EndsCall(e) {
          r := r.(endedAt := Some(e.occurredAt));
        }
        if e.reason != "" {
          r := r.(cause := e.reason);
        }
        calls := calls[e.callId := r];
      }
      callEvents := callEvents[KeyOf(e) := e];
      return true;
    }
  }

  class CallBus {
    const capacity: nat
    var events: seq<Event>

    constructor (capacity: nat)
      requires capacity > 0
      ensures this.capacity == capacity && events == []
    {
      this.capacity, events := capacity, [];
    }

    /** Enqueues at the end, or fails on a cancelled context; a full bus leaves only the second. */
    method Publish(e: Event, cancelled: bool) returns (ok: bool)
      requires |events| <= capacity && (|events| == capacity ==> cancelled)
      modifies this
      ensures ok == !cancelled && |events| <= capacity
      ensures events == if ok then old(events) + [e] else old(events)
    {
      ok := !cancelled;
      if ok {
        events := events + [e];
      }
    }

    /**
     Run: writes queued events one by one in order until cancellation after n of them or a failed write. The
     tables hold exactly the events before the failure, and the event that failed is gone from the queue.
     */
    method Run(store: Store, commits: nat -> bool, n: nat) returns (written: nat)
      requires n <= |events|
      modifies this, store
      ensures written <= n && (forall i :: 0 <= i < written ==> commits(i))
      ensures store.calls == WrittenAll(old(store.calls), old(events)[..written])
      ensures store.callEvents.Keys == old(store.callEvents).Keys + Keys(old(events)[..written])
      ensures events == if written < n then old(events)[written + 1..] else old(events)[n..]
      ensures written < n ==>
        !commits(written) || KeyOf(old(events)[written]) in old(store.callEvents).Keys + Keys(old(events)[..written])
    {
      written := 0;
      while written < n
        invariant written <= n && events == old(events)[written..]
        invariant forall i :: 0 <= i < written ==> commits(i)
        invariant store.calls == WrittenAll(old(store.calls), old(events)[..written])
        invariant store.callEvents.Keys == old(store.callEvents).Keys + Keys(old(events)[..written])
      {
        var e := events[0];
        events := events[1..];
        var ok := store.WriteCallEvent(e, commits(written));
        if !ok {
          return;
        }
        assert old(events)[..written + 1] == old(events)[..written] + [e];
        WrittenAllAppend(old(store.calls), old(events)[..written], e);
        KeysAppend(old(events)[..written], e);
        written := written + 1;
      }
    }
  }

  function Keys(es: seq<Event>): set<EventKey> { set i | 0 <= i < |es| :: KeyOf(es[i]) }

  lemma {:induction false} KeysAppend(es: seq<Event>, e: Event)
    ensures Keys(es + [e]) == Keys(es) + {KeyOf(e)}
  {
    forall k ensures k in Keys(es + [e]) <==> k in Keys(es) + {KeyOf(e)} {
      if k in Keys(es) {
        var i :| 0 <= i < |es| && KeyOf(es[i]) == k;
        assert (es + [e])[i] == es[i];
      }
      assert (es + [e])[|es|] == e;
    }
  }

  // ---- What a row means ----

  function Replay(es: seq<Event>): Option<Row> {
    if es == [] then None else Some(Upserted(Replay(es[..|es| - 1]), es[|es| - 1]))
  }

  predicate EntersAnswered(e: Event) { e.newState == Some(Answered) }

  predicate EntersEnd(e: Event) { e.newState == Some(Terminated) || e.newState == Some(Failed) }

  /** Event i is the first that answers the call. */
  ghost predicate IsFirstAnswer(es: seq<Event>, i: int) {
    0 <= i < |es| && EntersAnswered(es[i]) && forall j :: 0 <= j < i ==> !EntersAnswered(es[j])
  }

  /** Event i is the last that ends the call. */
  ghost predicate IsLastEnd(es: seq<Event>, i: int) {
    0 <= i < |es| && EntersEnd(es[i]) && forall j :: i < j < |es| ==> !EntersEnd(es[j])
  }

  /** Event i is the last that gives a reason. */
  ghost predicate IsLastReason(es: seq<Event>, i: int) {
    0 <= i < |es| && es[i].reason != "" && forall j :: i < j < |es| ==> es[j].reason == ""
  }

  ghost predicate AnswerShown(row: Row, es: seq<Event>) {
    && (row.answeredAt.None? <==> forall i :: 0 <= i < |es| ==> !EntersAnswered(es[i]))
    && forall i :: IsFirstAnswer(es, i) ==> row.answeredAt == Some(es[i].occurredAt)
  }

  ghost predicate EndShown(row: Row, es: seq<Event>) {
    && (row.endedAt.None? <==> forall i :: 0 <= i < |es| ==> !EntersEnd(es[i]))
    && forall i :: IsLastEnd(es, i) ==> row.endedAt == Some(es[i].occurredAt)
  }

  ghost predicate CauseShown(row: Row, es: seq<Event>) {
    && ((forall i :: 0 <= i < |es| ==> es[i].reason == "") ==> row.cause == "")
    && forall i :: IsLastReason(es, i) ==> row.cause == es[i].reason
  }

  /**
   What the row of a call with these events shows: the last state and its time, the time of the first event, of the
   first answer despite hold and resume and of the last end, and the last reason given.
   */
  ghost predicate Shows(row: Row, es: seq<Event>) {
    && es != [] && row.state == es[|es| - 1].newState && row.updatedAt == es[|es| - 1].occurredAt
    && row.startedAt == es[0].occurredAt
    && AnswerShown(row, es) && EndShown(row, es) && CauseShown(row, es)
  }

  lemma {:induction false} AnswerNext(row: Row, es: seq<Event>, e: Event)
    requires AnswerShown(row, es)
    ensures AnswerShown(Upserted(Some(row), e), es + [e])
  {
    var all := es + [e];
    assert forall i :: 0 <= i < |es| ==> all[i] == es[i];
    assert all[|es|] == e;
    forall i | IsFirstAnswer(all, i) ensures Upserted(Some(row), e).answeredAt == Some(all[i].occurredAt) {
      if i < |es| {
        assert IsFirstAnswer(es, i);
      } else {
        assert forall j :: 0 <= j < |es| ==> !EntersAnswered(es[j]);
      }
    }
  }

  lemma {:induction false} EndNext(row: Row, es: seq<Event>, e: Event)
    requires EndShown(row, es)
    ensures EndShown(Upserted(Some(row), e), es + [e])
  {
    var all := es + [e];
    assert forall i :: 0 <= i < |es| ==> all[i] == es[i];
    assert all[|es|] == e;
    forall i | IsLastEnd(all, i) ensures Upserted(Some(row), e).endedAt == Some(all[i].occurredAt) {
      if i < |es| {
        assert IsLastEnd(es, i) && !EntersEnd(all[|es|]);
      }
    }
  }

  lemma {:induction false} CauseNext(row: Row, es: seq<Event>, e: Event)
    requires CauseShown(row, es)
    ensures CauseShown(Upserted(Some(row), e), es + [e])
  {
    var all := es + [e];
    assert forall i :: 0 <= i < |es| ==> all[i] == es[i];
    assert all[|es|] == e;
    forall i | IsLastReason(all, i) ensures Upserted(Some(row), e).cause == all[i].reason {
      if i < |es| {
        assert IsLastReason(es, i) && all[|es|].reason == "";
      }
    }
  }

  /** Folding a call's events one by one leaves the row that shows them. */
  lemma {:induction false} ReplayMeans(es: seq<Event>)
    requires es != []
    ensures Replay(es).Some? && Shows(Replay(es).value, es)
  {
    var k := |es| - 1;
    var e := es[k];
    if k > 0 {
      ReplayMeans(es[..k]);
      var row := Replay(es[..k]).value;
      AnswerNext(row, es[..k], e);
      EndNext(row, es[..k], e);
      CauseNext(row, es[..k], e);
      assert es == es[..k] + [e];
    } else {
      assert es[..0] == [];
    }
  }

  // ---- Many calls on one bus ----

  /** The events of one call, in order. */
  function Of(es: seq<Event>, id: string): seq<Event> {
    if es == [] then []
    else
      var k := |es| - 1;
      Of(es[..k], id) + (if es[k].callId == id then [es[k]] else [])
  }

  lemma {:induction false} OfAppend(es: seq<Event>, e: Event, id: string)
    ensures Of(es + [e], id) == Of(es, id) + (if e.callId == id then [e] else [])
  {
    assert (es + [e])[..|es|] == es;
  }

  lemma {:induction false} OfConcat(a: seq<Event>, b: seq<Event>, id: string)
    ensures Of(a + b, id) == Of(a, id) + Of(b, id)
  {
    if b == [] {
      assert a + b == a;
    } else {
      var k := |b| - 1;
      assert a + b == (a + b[..k]) + [b[k]];
      OfAppend(a + b[..k], b[k], id);
      OfConcat(a, b[..k], id);
    }
  }

  /** Writing any interleaving of calls leaves in each row the replay of that call's own events. */
  lemma {:induction false} RowsAreReplays(es: seq<Event>, id: string)
    ensures Get(WrittenAll(map[], es), id) == Replay(Of(es, id))
  {
    if es != [] {
      var k := |es| - 1;
      RowsAreReplays(es[..k], id);
      if es[k].callId == id {
        var own := Of(es[..k], id) + [es[k]];
        assert own[..|own| - 1] == Of(es[..k], id);
      } else {
        assert Of(es[..k], id) + [] == Of(es[..k], id);
      }
    }
  }
}
