/**
 The single-writer call actor (internal/core/call/actor.go): guarded transitions that
 are published or rolled back, and the log of events that reached the publisher.
 */
module CallActor {
  import opened Wrap

  datatype CallState = New | Routing | Ringing | EarlyMedia | Answered | Held | Terminating | Terminated | Failed

  predicate AllowedTransition(from: CallState, to: CallState) {
    match from
    case New => to == Routing || to == Failed || to == Terminating
    case Routing => to == Ringing || to == EarlyMedia || to == Answered || to == Failed || to == Terminating
    case Ringing => to == EarlyMedia || to == Answered || to == Failed || to == Terminating
    case EarlyMedia => to == Answered || to == Failed || to == Terminating
    case Answered => to == Held || to == Terminating
    case Held => to == Answered || to == Terminating
    case Terminating => to == Terminated || to == Failed
    case Terminated => false
    case Failed => false
  }

  predicate IsTerminal(s: CallState) { s == Terminated || s == Failed }

  /** The "created" event carries the initial state as old state and no new state. */
  datatype Event = Event(
    sequence: nat, callId: string, oldState: CallState, newState: Option<CallState>, reason: string, occurredAt: int)

  datatype Call = Call(state: CallState, answeredAt: Option<int>, endedAt: Option<int>, cause: string)

  datatype Actor = Actor(callId: string, call: Call, sequence: nat, snapshot: Call)

  /** One request with what the environment answers: the two clock readings and whether the publisher accepts. */
  datatype Request = Request(state: CallState, reason: string, now: int, publishedAt: int, accepted: bool)

  datatype Reply = Done | Invalid | NotPublished

  function Created(callId: string): Actor {
    var call := Call(New, None, None, "");
    Actor(callId, call, 0, call)
  }

  function EventOf(a: Actor, old_: CallState, r: Request): Event {
    Event(a.sequence + 1, a.callId, old_, Some(r.state), r.reason, r.publishedAt)
  }

  /** The call with the requested state written into it. */
  function Entered(c: Call, r: Request): Call {
    Call(r.state,
         if r.state == Answered then Some(r.now) else c.answeredAt,
         if IsTerminal(r.state) then Some(r.now) else c.endedAt,
         if IsTerminal(r.state) then r.reason else c.cause)
  }

  /** apply: the actor afterwards, the reply and the event delivered, if any. Only the state is rolled back. */
  function Applied(a: Actor, r: Request): (Actor, Reply, seq<Event>) {
    if r.state == a.call.state then (a, Done, [])
    else if !AllowedTransition(a.call.state, r.state) then (a, Invalid, [])
    else
      var c := Entered(a.call, r);
      if r.accepted then (Actor(a.callId, c, a.sequence + 1, c), Done, [EventOf(a, a.call.state, r)])
      else (a.(call := c.(state := a.call.state), sequence := a.sequence + 1), NotPublished, [])
  }

  // ---- The delivered log ----

  /** An unbroken path of allowed transitions from `start` to `end`, with growing sequence numbers. */
  ghost predicate Path(log: seq<Event>, start: CallState, end: CallState, sequence: nat) {
    && (forall i :: 0 <= i < |log| ==>
          log[i].newState.Some? && AllowedTransition(log[i].oldState, log[i].newState.value)
            && log[i].sequence <= sequence)
    && (forall i :: 0 < i < |log| ==>
        log[i].oldState == log[i - 1].newState.value && log[i].sequence > log[i - 1].sequence)
    && (if log == [] then end == start else log[0].oldState == start && log[|log| - 1].newState == Some(end))
  }

  lemma {:induction false} PathExtends(log: seq<Event>, start: CallState, end: CallState, sequence: nat, e: Event)
    requires Path(log, start, end, sequence) && e.oldState == end && e.sequence == sequence + 1
    requires e.newState.Some? && AllowedTransition(end, e.newState.value)
    ensures Path(log + [e], start, e.newState.value, sequence + 1)
  {
  }

  /** `log` is what actor a has delivered since it was in state `start`. */
  ghost predicate Delivered(log: seq<Event>, start: CallState, a: Actor) {
    Path(log, start, a.call.state, a.sequence) && forall i :: 0 <= i < |log| ==> log[i].callId == a.callId
  }

  /**
   What one request leaves: nothing delivered and the state kept, or one event from the old state to the requested
   one.
   */
  lemma AppliedShape(a: Actor, r: Request)
    ensures var (b, _, es) := Applied(a, r);
      && b.callId == a.callId && b.sequence >= a.sequence && |es| <= 1
      && (es == [] ==> b.call.state == a.call.state)
      && (es != [] ==>
            && es[0].callId == a.callId && es[0].sequence == b.sequence == a.sequence + 1
            && es[0].oldState == a.call.state && es[0].newState == Some(b.call.state)
            && AllowedTransition(a.call.state, b.call.state)
            && es[0].reason == r.reason && es[0].occurredAt == r.publishedAt && b.call.state == r.state)
  {
  }

  /** From where each state is entered. */
  lemma EnteredFrom(s: CallState)
    ensures AllowedTransition(s, Routing) <==> s == New
    ensures AllowedTransition(s, Ringing) <==> s == Routing
    ensures AllowedTransition(s, EarlyMedia) <==> s == Routing || s == Ringing
    ensures AllowedTransition(s, Answered) <==> s == Routing || s == Ringing || s == EarlyMedia || s == Held
    ensures AllowedTransition(s, Held) <==> s == Answered
    ensures AllowedTransition(s, Terminating) <==> !IsTerminal(s) && s != Terminating
    ensures AllowedTransition(s, Terminated) <==> s == Terminating
    ensures AllowedTransition(s, Failed) <==> !IsTerminal(s) && s != Answered && s != Held
    ensures !AllowedTransition(s, New)
  {
  }

  lemma {:induction false} DeliveredGrows(log: seq<Event>, start: CallState, a: Actor, b: Actor, es: seq<Event>)
    requires Delivered(log, start, a) && b.callId == a.callId && b.sequence >= a.sequence && |es| <= 1
    requires es == [] ==> b.call.state == a.call.state
    requires es != [] ==>
      && es[0].callId == a.callId && es[0].sequence == b.sequence == a.sequence + 1
      && es[0].oldState == a.call.state && es[0].newState == Some(b.call.state)
      && AllowedTransition(a.call.state, b.call.state)
    ensures Delivered(log + es, start, b)
  {
    if es == [] {
      assert log + es == log;
    } else {
      assert es == [es[0]];
      PathExtends(log, start, a.call.state, a.sequence, es[0]);
    }
  }

  lemma {:induction false} DeliveredStep(log: seq<Event>, start: CallState, a: Actor, r: Request)
    requires Delivered(log, start, a)
    ensures Delivered(log + Applied(a, r).2, start, Applied(a, r).0)
  {
    AppliedShape(a, r);
    DeliveredGrows(log, start, a, Applied(a, r).0, Applied(a, r).2);
  }

  function RunAll(a: Actor, rs: seq<Request>): (Actor, seq<Event>) {
    if rs == [] then (a, [])
    else
      var k := |rs| - 1;
      var (b, log) := RunAll(a, rs[..k]);
      (Applied(b, rs[k]).0, log + Applied(b, rs[k]).2)
  }

  lemma {:induction false} RunAllAppend(a: Actor, rs: seq<Request>, r: Request)
    ensures var (b, log) := RunAll(a, rs);
      RunAll(a, rs + [r]) == (Applied(b, r).0, log + Applied(b, r).2)
  {
    assert (rs + [r])[..|rs|] == rs;
  }

  lemma {:induction false} FollowsNext(start: Actor, rs: seq<Request>, r: Request, first: seq<Event>, a: Actor,
                                       log: seq<Event>)
    requires a == RunAll(start, rs).0 && log == first + RunAll(start, rs).1
    ensures Applied(a, r).0 == RunAll(start, rs + [r]).0 && log + Applied(a, r).2 == first + RunAll(start, rs + [r]).1
  {
    RunAllAppend(start, rs, r);
    assert log + Applied(a, r).2 == first + (RunAll(start, rs).1 + Applied(a, r).2);
  }

  /** Whatever is requested and whichever publishes fail, the delivered events form a path to the current state. */
  lemma {:induction false} DeliveredPath(a: Actor, rs: seq<Request>)
    ensures Delivered(RunAll(a, rs).1, a.call.state, RunAll(a, rs).0)
  {
    if rs != [] {
      var k := |rs| - 1;
      DeliveredPath(a, rs[..k]);
      DeliveredStep(RunAll(a, rs[..k]).1, a.call.state, RunAll(a, rs[..k]).0, rs[k]);
    }
  }

  /** Nothing is delivered after a terminal event. */
  lemma {:induction false} TerminalIsLast(log: seq<Event>, start: CallState, end: CallState, sequence: nat)
    requires Path(log, start, end, sequence)
    ensures forall i :: 0 <= i < |log| && IsTerminal(log[i].newState.value) ==> i == |log| - 1 && IsTerminal(end)
  {
    forall i | 0 <= i < |log| - 1 ensures !IsTerminal(log[i].newState.value) {
      var f := log[i + 1];
      assert f.oldState == log[i].newState.value && AllowedTransition(f.oldState, f.newState.value);
    }
  }

  // ---- Progress ----

  function Rank(s: CallState): nat {
    match s
    case New => 6
    case Routing => 5
    case Ringing => 4
    case EarlyMedia => 3
    case Answered => 2
    case Held => 2
    case Terminating => 1
    case Terminated => 0
    case Failed => 0
  }

  predicate IsHoldOrResume(e: Event) {
    (e.oldState == Answered && e.newState == Some(Held)) || (e.oldState == Held && e.newState == Some(Answered))
  }

  function Drops(log: seq<Event>): nat {
    if log == [] then 0 else Drops(log[..|log| - 1]) + (if IsHoldOrResume(log[|log| - 1]) then 0 else 1)
  }

  lemma EventDrops(e: Event)
    requires e.newState.Some? && AllowedTransition(e.oldState, e.newState.value)
    ensures Rank(e.newState.value) + (if IsHoldOrResume(e) then 0 else 1) <= Rank(e.oldState)
  {
  }

  lemma {:induction false} PathPrefix(log: seq<Event>, start: CallState, end: CallState, sequence: nat)
    requires Path(log, start, end, sequence) && log != []
    ensures Path(log[..|log| - 1], start, log[|log| - 1].oldState, sequence)
  {
  }

  /** Every transition other than hold and resume lowers the rank, so a call makes at most six of them. */
  lemma {:induction false} RankDrops(log: seq<Event>, start: CallState, end: CallState, sequence: nat)
    requires Path(log, start, end, sequence)
    ensures Drops(log) + Rank(end) <= Rank(start)
  {
    if log != [] {
      var k := |log| - 1;
      PathPrefix(log, start, end, sequence);
      RankDrops(log[..k], start, log[k].oldState, sequence);
      EventDrops(log[k]);
    }
  }

  /** The requests a cancelled context makes, one after the other. */
  function ToTerminating(r: Request): Request { r.(state := Terminating, reason := "context canceled") }

  function ToTerminated(r: Request): Request { r.(state := Terminated, reason := "context canceled") }

  /** The first `steps` of the two. */
  function Cancelling(r1: Request, r2: Request, steps: nat): seq<Request> {
    if steps == 0 then [] else if steps == 1 then [ToTerminating(r1)] else [ToTerminating(r1), ToTerminated(r2)]
  }

  /** Cancellation fails only where the publisher refuses, and a call is terminal exactly when it has succeeded. */
  lemma CancellationReplies(a: Actor, r1: Request, r2: Request)
    requires !IsTerminal(a.call.state)
    ensures var (b, reply1, _) := Applied(a, ToTerminating(r1));
      var (c, reply2, _) := Applied(b, ToTerminated(r2));
      && !IsTerminal(b.call.state) && (reply1 != Done ==> !r1.accepted)
      && (reply1 == Done ==> (reply2 == Done <==> IsTerminal(c.call.state)) && (reply2 != Done ==> !r2.accepted))
  {
  }

  /** Cancellation from any non-terminal state reaches Terminated when the publisher accepts. */
  lemma CancellationTerminates(a: Actor, r1: Request, r2: Request)
    requires !IsTerminal(a.call.state) && r1.accepted && r2.accepted
    ensures var (b, reply1, es1) := Applied(a, ToTerminating(r1));
      var (c, reply2, es2) := Applied(b, ToTerminated(r2));
      && reply1 == Done && reply2 == Done
      && c.call.state == Terminated && c.snapshot == c.call && c.call.cause == "context canceled"
      && |es1| == (if a.call.state == Terminating then 0 else 1) && |es2| == 1
      && es2[0].reason == "context canceled" && (es1 != [] ==> es1[0].reason == "context canceled")
  {
    assert AllowedTransition(a.call.state, Terminating) || a.call.state == Terminating;
  }

  // ---- The actor in place ----

  class CallActor {
    const callId: string
    var call: Call
    var sequence: nat
    var snapshot: Call
    /** Events accepted by the publisher, in order. */
    var delivered: seq<Event>

    ghost function Model(): Actor
      reads this
    {
      Actor(callId, call, sequence, snapshot)
    }

    constructor (callId: string)
      ensures Model() == Created(callId) && delivered == []
    {
      this.callId := callId;
      call := Call(New, None, None, "");
      snapshot := Call(New, None, None, "");
      sequence, delivered := 0, [];
    }

    method Apply(r: Request) returns (reply: Reply)
      modifies this
      ensures var (b, rep, es) := Applied(old(Model()), r);
        Model() == b && reply == rep && delivered == old(delivered) + es
    {
      if r.state == call.state {
        return Done;
      }
      if !AllowedTransition(call.state, r.state) {
        return Invalid;
      }
      var oldState := call.state;
      call := call.(state := r.state);
      if r.state == Answered {
        call := call.(answeredAt := Some(r.now));
      }
      if IsTerminal(r.state) {
        call := call.(endedAt := Some(r.now), cause := r.reason);
      }
      sequence := sequence + 1;
      if !r.accepted {
        call := call.(state := oldState);
        return NotPublished;
      }
      delivered := delivered + [Event(sequence, callId, oldState, Some(r.state), r.reason, r.publishedAt)];
      snapshot := call;
      return Done;
    }

    /** The actor and what it delivered are those of a run over `asked` after the created event. */
    ghost predicate Follows(createdAt: int, asked: seq<Request>)
      reads this
    {
      && Model() == RunAll(Created(callId).(sequence := 1), asked).0
      && delivered == [Event(1, callId, New, None, "", createdAt)] + RunAll(Created(callId).(sequence := 1), asked).1
    }

    /**
     Run: the created event, then the first `handled` mailbox requests in order, then `cancelled` steps of
     cancellation. It stops early only in a terminal state, cancels only outside one, and succeeds exactly in one.
     */
    method Run(createdAt: int, createdAccepted: bool, mailbox: seq<Request>, r1: Request, r2: Request)
      returns (ok: bool, handled: nat, cancelled: nat)
      requires Model() == Created(callId) && delivered == []
      modifies this
      ensures !createdAccepted ==> !ok && delivered == [] && call == old(call)
      ensures handled <= |mailbox| && cancelled <= 2
      ensures createdAccepted ==>
        && Follows(createdAt, mailbox[..handled] + Cancelling(r1, r2, cancelled))
        && (ok <==> IsTerminal(call.state))
        && (handled < |mailbox| ==> ok && cancelled == 0)
        && (cancelled == 0 ==> ok)
        && (cancelled == 1 ==> !r1.accepted) && (cancelled == 2 && !ok ==> !r2.accepted)
    {
      handled, cancelled := 0, 0;
      sequence := sequence + 1;
      if !createdAccepted {
        return false, 0, 0;
      }
      delivered := [Event(sequence, callId, call.state, None, "", createdAt)];
      while handled < |mailbox|
        invariant handled <= |mailbox| && Follows(createdAt, mailbox[..handled])
      {
        var reply := Step(mailbox[handled], createdAt, mailbox[..handled]);
        assert mailbox[..handled + 1] == mailbox[..handled] + [mailbox[handled]];
        handled := handled + 1;
        if reply == Done && IsTerminal(call.state) {
          assert mailbox[..handled] + Cancelling(r1, r2, 0) == mailbox[..handled];
          return true, handled, 0;
        }
      }
      assert mailbox[..handled] == mailbox;
      if IsTerminal(call.state) {
        assert mailbox + Cancelling(r1, r2, 0) == mailbox;
        return true, handled, 0;
      }
      ok, cancelled := Cancel(createdAt, mailbox, r1, r2);
    }

    method Cancel(createdAt: int, ghost asked: seq<Request>, r1: Request, r2: Request) returns (ok: bool, steps: nat)
      requires Follows(createdAt, asked) && !IsTerminal(call.state)
      modifies this
      ensures 1 <= steps <= 2 && Follows(createdAt, asked + Cancelling(r1, r2, steps))
      ensures ok <==> IsTerminal(call.state)
      ensures (steps == 1 ==> !r1.accepted) && (steps == 2 && !ok ==> !r2.accepted)
    {
      CancellationReplies(Model(), r1, r2);
      var reply := Step(ToTerminating(r1), createdAt, asked);
      if reply != Done {
        return false, 1;
      }
      reply := Step(ToTerminated(r2), createdAt, asked + Cancelling(r1, r2, 1));
      assert asked + Cancelling(r1, r2, 1) + [ToTerminated(r2)] == asked + Cancelling(r1, r2, 2);
      return reply == Done, 2;
    }

    method Step(r: Request, ghost createdAt: int, ghost asked: seq<Request>) returns (reply: Reply)
      requires Follows(createdAt, asked)
      modifies this
      ensures Follows(createdAt, asked + [r])
      ensures Model() == Applied(old(Model()), r).0 && reply == Applied(old(Model()), r).1
    {
      ghost var first := [Event(1, callId, New, None, "", createdAt)];
      FollowsNext(Created(callId).(sequence := 1), asked, r, first, Model(), delivered);
      reply := Apply(r);
    }
  }
}
