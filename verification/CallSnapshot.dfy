/**
 What a call's snapshot shows after refused publishes (internal/core/call/actor.go): a
 refused change of state is taken back, but the times and the cause written for it
 stay, and the next event that is delivered makes them visible.
 */
module CallSnapshot {
  import opened Wrap
  import opened CallActor

  ghost predicate StepAt(actors: seq<Actor>, rs: seq<Request>, k: int)
    requires |actors| == |rs| + 1 && 0 <= k < |rs|
  {
    actors[k + 1] == Applied(actors[k], rs[k]).0
  }

  /** The actor before each request and after the last. */
  ghost predicate IsRun(actors: seq<Actor>, rs: seq<Request>, id: string) {
    |actors| == |rs| + 1 && actors[0] == Created(id) && forall k :: 0 <= k < |rs| ==> StepAt(actors, rs, k)
  }

  lemma {:induction false} RunIsRunAll(actors: seq<Actor>, rs: seq<Request>, id: string, k: nat)
    requires IsRun(actors, rs, id) && k < |actors|
    ensures actors[k] == RunAll(Created(id), rs[..k]).0
  {
    if k > 0 {
      RunIsRunAll(actors, rs, id, k - 1);
      assert rs[..k][..k - 1] == rs[..k - 1] && StepAt(actors, rs, k - 1);
    }
  }

  /** The request asks for an allowed change of state. */
  predicate Effective(a: Actor, r: Request) { r.state != a.call.state && AllowedTransition(a.call.state, r.state) }

  predicate DeliveredAt(actors: seq<Actor>, rs: seq<Request>, i: int)
    requires |actors| == |rs| + 1 && 0 <= i < |rs|
  {
    Effective(actors[i], rs[i]) && rs[i].accepted
  }

  /** An allowed change of state whose publish was refused. */
  predicate RefusedAt(actors: seq<Actor>, rs: seq<Request>, i: int)
    requires |actors| == |rs| + 1 && 0 <= i < |rs|
  {
    Effective(actors[i], rs[i]) && !rs[i].accepted
  }

  ghost predicate Enters(log: seq<Event>, s: CallState) { exists e :: e in log && e.newState == Some(s) }

  ghost predicate DeliveredBefore(actors: seq<Actor>, rs: seq<Request>, k: nat, s: CallState)
    requires |actors| == |rs| + 1 && k <= |rs|
  {
    exists i :: 0 <= i < k && rs[i].state == s && DeliveredAt(actors, rs, i)
  }

  lemma {:induction false} EntersAppend(log: seq<Event>, es: seq<Event>, s: CallState)
    ensures Enters(log + es, s) <==> Enters(log, s) || Enters(es, s)
  {
    if Enters(log, s) {
      var e :| e in log && e.newState == Some(s);
      assert e in log + es;
    }
    if Enters(es, s) {
      var e :| e in es && e.newState == Some(s);
      assert e in log + es;
    }
  }

  lemma EntersNow(a: Actor, r: Request, s: CallState)
    ensures Enters(Applied(a, r).2, s) <==> r.state == s && Effective(a, r) && r.accepted
  {
    if Effective(a, r) && r.accepted {
      assert EventOf(a, a.call.state, r) in Applied(a, r).2;
    }
  }

  lemma {:induction false} LogNext(actors: seq<Actor>, rs: seq<Request>, id: string, k: nat)
    requires IsRun(actors, rs, id) && k < |rs|
    ensures RunAll(Created(id), rs[..k + 1]).1 == RunAll(Created(id), rs[..k]).1 + Applied(actors[k], rs[k]).2
  {
    RunIsRunAll(actors, rs, id, k);
    assert rs[..k + 1] == rs[..k] + [rs[k]];
    RunAllAppend(Created(id), rs[..k], rs[k]);
  }

  lemma {:induction false} DeliveredBeforeNext(actors: seq<Actor>, rs: seq<Request>, k: nat, s: CallState)
    requires |actors| == |rs| + 1 && k < |rs|
    ensures DeliveredBefore(actors, rs, k + 1, s) <==>
      DeliveredBefore(actors, rs, k, s) || (rs[k].state == s && DeliveredAt(actors, rs, k))
  {
  }

  /** The log has an event that enters state s exactly when a request for it was delivered. */
  lemma {:induction false} LoggedIff(actors: seq<Actor>, rs: seq<Request>, id: string, k: nat, s: CallState)
    requires IsRun(actors, rs, id) && k <= |rs|
    ensures Enters(RunAll(Created(id), rs[..k]).1, s) <==> DeliveredBefore(actors, rs, k, s)
  {
    if k > 0 {
      var log, es := RunAll(Created(id), rs[..k - 1]).1, Applied(actors[k - 1], rs[k - 1]).2;
      LoggedIff(actors, rs, id, k - 1, s);
      LogNext(actors, rs, id, k - 1);
      EntersAppend(log, es, s);
      EntersNow(actors[k - 1], rs[k - 1], s);
      DeliveredBeforeNext(actors, rs, k - 1, s);
    }
  }

  /** Request d is the last one delivered. */
  ghost predicate LastDelivered(actors: seq<Actor>, rs: seq<Request>, d: nat)
    requires |actors| == |rs| + 1
  {
    d < |rs| && DeliveredAt(actors, rs, d) && forall i :: d < i < |rs| ==> !DeliveredAt(actors, rs, i)
  }

  /** Request n is the last answer delivered up to d; -1 if none was. */
  ghost predicate LastAnswer(actors: seq<Actor>, rs: seq<Request>, n: int, d: nat)
    requires |actors| == |rs| + 1 && d < |rs|
  {
    && -1 <= n <= d
    && (n >= 0 ==> rs[n].state == Answered && DeliveredAt(actors, rs, n))
    && forall i :: n < i <= d && rs[i].state == Answered ==> !DeliveredAt(actors, rs, i)
  }

  function AnswerOf(rs: seq<Request>, n: int): Option<int>
    requires n < |rs|
  {
    if n < 0 then None else Some(rs[n].now)
  }

  /** The last refused request after n and before k that asks for an answer; n if there is none. */
  function LastAsked(actors: seq<Actor>, rs: seq<Request>, n: int, k: int): (l: int)
    requires |actors| == |rs| + 1 && -1 <= n < k <= |rs|
    ensures n <= l < k
    ensures l > n ==> rs[l].state == Answered && RefusedAt(actors, rs, l)
    ensures forall i :: l < i < k && rs[i].state == Answered ==> !RefusedAt(actors, rs, i)
    decreases k
  {
    if k == n + 1 then n
    else if RefusedAt(actors, rs, k - 1) && rs[k - 1].state == Answered then k - 1
    else LastAsked(actors, rs, n, k - 1)
  }

  /** The last refused request before k that asks for a terminal state; -1 if there is none. */
  function LastEndAsked(actors: seq<Actor>, rs: seq<Request>, k: nat): (l: int)
    requires |actors| == |rs| + 1 && k <= |rs|
    ensures -1 <= l < k
    ensures l >= 0 ==> IsTerminal(rs[l].state) && RefusedAt(actors, rs, l)
    ensures forall i :: l < i < k && IsTerminal(rs[i].state) ==> !RefusedAt(actors, rs, i)
  {
    if k == 0 then -1
    else if RefusedAt(actors, rs, k - 1) && IsTerminal(rs[k - 1].state) then k - 1
    else LastEndAsked(actors, rs, k - 1)
  }

  /** Times and cause are written whether or not the publish is accepted; the snapshot is the call as last delivered. */
  lemma StepWrites(a: Actor, r: Request)
    ensures var b := Applied(a, r).0;
      && b.call.answeredAt == (if Effective(a, r) && r.state == Answered then Some(r.now) else a.call.answeredAt)
      && b.call.endedAt == (if Effective(a, r) && IsTerminal(r.state) then Some(r.now) else a.call.endedAt)
      && b.call.cause == (if Effective(a, r) && IsTerminal(r.state) then r.reason else a.call.cause)
      && b.snapshot == (if Effective(a, r) && r.accepted then b.call else a.snapshot)
      && b.call.state == (if Effective(a, r) && r.accepted then r.state else a.call.state)
      && b.sequence == a.sequence + (if Effective(a, r) then 1 else 0)
  {
  }

  /** How many of the first k requests were published or refused by the publisher. */
  function Attempts(actors: seq<Actor>, rs: seq<Request>, k: nat): nat
    requires k <= |rs| < |actors|
  {
    if k == 0 then 0 else Attempts(actors, rs, k - 1) + (if Effective(actors[k - 1], rs[k - 1]) then 1 else 0)
  }

  /** Sequence numbers count attempts to publish, so a refused one leaves a gap in the delivered log. */
  lemma {:induction false} SequenceCounts(actors: seq<Actor>, rs: seq<Request>, id: string, k: nat)
    requires IsRun(actors, rs, id) && k <= |rs|
    ensures actors[k].sequence == Attempts(actors, rs, k)
  {
    if k > 0 {
      SequenceCounts(actors, rs, id, k - 1);
      assert StepAt(actors, rs, k - 1);
      StepWrites(actors[k - 1], rs[k - 1]);
    }
  }

  lemma {:induction false} SnapshotIsLastDelivered(actors: seq<Actor>, rs: seq<Request>, id: string, d: nat, k: nat)
    requires IsRun(actors, rs, id) && LastDelivered(actors, rs, d) && d < k <= |rs|
    ensures actors[k].snapshot == actors[d + 1].call
  {
    assert StepAt(actors, rs, k - 1);
    StepWrites(actors[k - 1], rs[k - 1]);
    if d < k - 1 {
      SnapshotIsLastDelivered(actors, rs, id, d, k - 1);
      assert !DeliveredAt(actors, rs, k - 1);
    }
  }

  /** Between answers the call shows the last answer asked for, delivered or not. */
  lemma {:induction false} AnswerWritten(actors: seq<Actor>, rs: seq<Request>, id: string, n: int, k: nat, d: nat)
    requires IsRun(actors, rs, id) && d < |rs| && LastAnswer(actors, rs, n, d) && n < k <= d + 1
    ensures actors[k].call.answeredAt == AnswerOf(rs, LastAsked(actors, rs, n, k))
  {
    if k > 0 {
      assert StepAt(actors, rs, k - 1);
      StepWrites(actors[k - 1], rs[k - 1]);
    }
    if n < k - 1 {
      AnswerWritten(actors, rs, id, n, k - 1, d);
      assert rs[k - 1].state == Answered ==> !DeliveredAt(actors, rs, k - 1);
    }
  }

  /** Before a terminal event is delivered the call shows the last end that was refused, if any. */
  lemma {:induction false} EndWritten(actors: seq<Actor>, rs: seq<Request>, id: string, k: nat)
    requires IsRun(actors, rs, id) && k <= |rs|
    requires forall i :: 0 <= i < k && IsTerminal(rs[i].state) ==> !DeliveredAt(actors, rs, i)
    ensures var l := LastEndAsked(actors, rs, k);
      && actors[k].call.endedAt == (if l >= 0 then Some(rs[l].now) else None)
      && actors[k].call.cause == (if l >= 0 then rs[l].reason else "")
  {
    if k > 0 {
      EndWritten(actors, rs, id, k - 1);
      assert StepAt(actors, rs, k - 1);
      StepWrites(actors[k - 1], rs[k - 1]);
      assert IsTerminal(rs[k - 1].state) ==> !DeliveredAt(actors, rs, k - 1);
    }
  }

  /** After a terminal state was delivered nothing is. */
  lemma {:induction false} TerminalStays(actors: seq<Actor>, rs: seq<Request>, id: string, i: nat, k: nat)
    requires IsRun(actors, rs, id) && i < k < |rs| && IsTerminal(rs[i].state) && DeliveredAt(actors, rs, i)
    ensures actors[k].call.state == rs[i].state && !DeliveredAt(actors, rs, k)
  {
    assert StepAt(actors, rs, k - 1);
    StepWrites(actors[k - 1], rs[k - 1]);
    if i < k - 1 {
      TerminalStays(actors, rs, id, i, k - 1);
    }
  }

  ghost predicate AnswerRefusedBetween(actors: seq<Actor>, rs: seq<Request>, n: int, d: nat)
    requires |actors| == |rs| + 1 && -1 <= n && d < |rs|
  {
    exists i :: n < i < d && rs[i].state == Answered && RefusedAt(actors, rs, i)
  }

  ghost predicate EndRefusedBefore(actors: seq<Actor>, rs: seq<Request>, d: nat)
    requires |actors| == |rs| + 1 && d < |rs|
  {
    exists i :: 0 <= i < d && IsTerminal(rs[i].state) && RefusedAt(actors, rs, i)
  }

  /**
   The snapshot's answer time is that of the last answer delivered, and absent if there is none, exactly when no
   answer was refused between it and the last event delivered, or the last one refused read the same time.
   */
  lemma {:induction false} AnswerTimeIff(actors: seq<Actor>, rs: seq<Request>, id: string, d: nat, n: int)
    requires IsRun(actors, rs, id) && LastDelivered(actors, rs, d) && LastAnswer(actors, rs, n, d)
    ensures actors[|rs|].snapshot.answeredAt == AnswerOf(rs, n) <==>
      || !AnswerRefusedBetween(actors, rs, n, d)
      || (n >= 0 && rs[LastAsked(actors, rs, n, d)].now == rs[n].now)
  {
    SnapshotIsLastDelivered(actors, rs, id, d, |rs|);
    AnswerWritten(actors, rs, id, n, d + 1, d);
    if n < d {
      assert LastAsked(actors, rs, n, d + 1) == LastAsked(actors, rs, n, d);
    }
  }

  /**
   The snapshot shows the end of a delivered terminal event; before one it shows none exactly when no terminal
   state was refused, and otherwise time and cause of the last one refused.
   */
  lemma {:induction false} EndTimeIff(actors: seq<Actor>, rs: seq<Request>, id: string, d: nat)
    requires IsRun(actors, rs, id) && LastDelivered(actors, rs, d)
    ensures var l, shown := LastEndAsked(actors, rs, d), actors[|rs|].snapshot;
      if IsTerminal(rs[d].state) then shown.endedAt == Some(rs[d].now) && shown.cause == rs[d].reason
      else
        && (shown.endedAt == None && shown.cause == "" <==> !EndRefusedBefore(actors, rs, d))
        && (EndRefusedBefore(actors, rs, d) ==>
            l >= 0 && shown.endedAt == Some(rs[l].now) && shown.cause == rs[l].reason)
  {
    SnapshotIsLastDelivered(actors, rs, id, d, |rs|);
    assert StepAt(actors, rs, d);
    StepWrites(actors[d], rs[d]);
    forall i | 0 <= i < d && IsTerminal(rs[i].state) ensures !DeliveredAt(actors, rs, i) {
      if DeliveredAt(actors, rs, i) {
        TerminalStays(actors, rs, id, i, d);
      }
    }
    EndWritten(actors, rs, id, d);
  }

  // ---- Runs in which they show ----

  /** A refused answer shows as an answer time although no answer was ever delivered. */
  lemma RefusedAnswerShows(id: string)
    ensures var rs := [Request(Routing, "", 1, 1, true), Request(Answered, "", 2, 2, false),
      Request(Terminating, "", 3, 3, true)];
      var (a, log) := RunAll(Created(id), rs);
      a.snapshot.answeredAt == Some(2) && forall e :: e in log ==> e.newState != Some(Answered)
  {
    var r0, r1, r2 := Request(Routing, "", 1, 1, true), Request(Answered, "", 2, 2, false),
      Request(Terminating, "", 3, 3, true);
    var a0 := Created(id);
    var a1 := Applied(a0, r0).0;
    var a2 := Applied(a1, r1).0;
    assert a1.call == Call(Routing, None, None, "") && a2.call == Call(Routing, Some(2), None, "");
    RunOfThree(a0, r0, r1, r2);
  }

  lemma RunOfThree(a: Actor, r0: Request, r1: Request, r2: Request)
    ensures var (b, _, es0) := Applied(a, r0);
      var (c, _, es1) := Applied(b, r1);
      var (d, _, es2) := Applied(c, r2);
      RunAll(a, [r0]) == (b, es0) && RunAll(a, [r0, r1]) == (c, es0 + es1)
        && RunAll(a, [r0, r1, r2]) == (d, es0 + es1 + es2)
  {
    RunAllAppend(a, [], r0);
    RunAllAppend(a, [r0], r1);
    RunAllAppend(a, [r0, r1], r2);
    assert [] + Applied(a, r0).2 == Applied(a, r0).2 && [] + [r0] == [r0] && [r0] + [r1] == [r0, r1]
      && [r0, r1] + [r2] == [r0, r1, r2];
  }

  /** A failure whose event is refused shows as an end time and a cause in a call that is then cancelled. */
  lemma RefusedFailureShows(id: string)
    ensures var rs := [Request(Routing, "", 1, 1, true), Request(Failed, "no route", 2, 2, false),
                       ToTerminating(Request(New, "", 3, 3, true))];
      RunAll(Created(id), rs).0.snapshot == Call(Terminating, None, Some(2), "no route")
  {
    var r0, r1 := Request(Routing, "", 1, 1, true), Request(Failed, "no route", 2, 2, false);
    var r2 := ToTerminating(Request(New, "", 3, 3, true));
    var a1 := Applied(Created(id), r0).0;
    var a2 := Applied(a1, r1).0;
    assert a1.call == Call(Routing, None, None, "") && a2.call == Call(Routing, None, Some(2), "no route");
    RunOfThree(Created(id), r0, r1, r2);
  }
}
