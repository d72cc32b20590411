/**
 Asking the call actor for a change of state (Actor.Transition against Actor.Run in
 internal/core/call/actor.go, transition and handleHangup in internal/sip/b2bua/engine.go):
 the wait may end before the actor has served the request, and the actor may be cancelled
 before it does.
 */
module CallMailbox {
  import opened Wrap
  import opened CallActor

  /** How the wait for one request ends. */
  datatype Service =
    | InTime     // served, with everything queued before it
    | Late       // the wait ends while the request is queued or being published
    | NotQueued  // the wait ends with the mailbox still full
    | Cancelled(served: nat, r1: Request, r2: Request)  // the actor is cancelled first, after serving some of the queue

  datatype Ending = Replied(reply: Reply) | TimedOut | Closed

  /** Requests that leave a call answered or held. */
  predicate Calm(rs: seq<Request>) { forall i :: 0 <= i < |rs| ==> rs[i].state == Answered || rs[i].state == Held }

  predicate InCall(s: CallState) { s == Answered || s == Held }

  /** The actor once everything queued is served. */
  function Settled(a: Actor, queued: seq<Request>): Actor { RunAll(a, queued).0 }

  /** The actor after a cancelled context: Terminating and, once that is published, Terminated. */
  function Shut(a: Actor, r1: Request, r2: Request): Actor {
    if IsTerminal(a.call.state) then a
    else
      var (b, reply, _) := Applied(a, ToTerminating(r1));
      if reply != Done then b else Applied(b, ToTerminated(r2)).0
  }

  lemma {:induction false} SettledAppend(a: Actor, queued: seq<Request>, r: Request)
    ensures Settled(a, queued + [r]) == Applied(Settled(a, queued), r).0
  {
    RunAllAppend(a, queued, r);
  }

  /** A hold or resume is never invalid in a call and changes the state exactly when it is new and accepted. */
  lemma CalmStep(a: Actor, r: Request)
    requires InCall(a.call.state) && InCall(r.state)
    ensures var (b, reply, _) := Applied(a, r);
      && reply == (if a.call.state == r.state || r.accepted then Done else NotPublished)
      && b.call.state == (if reply == Done then r.state else a.call.state)
  {
  }

  lemma {:induction false} CalmStays(a: Actor, queued: seq<Request>)
    requires InCall(a.call.state) && Calm(queued)
    ensures InCall(Settled(a, queued).call.state)
  {
    if queued != [] {
      var k := |queued| - 1;
      CalmStays(a, queued[..k]);
      CalmStep(Settled(a, queued[..k]), queued[k]);
    }
  }

  /** The actor with its mailbox, seen from the one session that asks it. */
  class Mailbox {
    const actor: CallActor
    var queued: seq<Request>
    var closed: bool

    /** While the actor runs the call is answered or held, and stays so with what is queued. */
    ghost predicate Valid()
      reads this, actor
    {
      !closed ==> InCall(actor.call.state) && Calm(queued)
    }

    ghost function Outlook(): Actor
      reads this, actor
    {
      if closed then actor.Model() else Settled(actor.Model(), queued)
    }

    constructor (actor: CallActor)
      ensures this.actor == actor && queued == [] && !closed
    {
      this.actor, queued, closed := actor, [], false;
    }

    /** Serves the first n of what is queued, in order. */
    method Serve(n: nat)
      requires n <= |queued|
      modifies this`queued, actor
      ensures actor.Model() == Settled(old(actor.Model()), old(queued)[..n]) && queued == old(queued)[n..]
    {
      ghost var all := queued;
      for i := 0 to n
        invariant queued == all[i..] && actor.Model() == Settled(old(actor.Model()), all[..i])
      {
        SettledAppend(old(actor.Model()), all[..i], all[i]);
        assert all[..i + 1] == all[..i] + [all[i]];
        var _ := actor.Apply(queued[0]);
        queued := queued[1..];
      }
    }

    /**
     Transition: the reply if the actor serves the request in time. A request that was queued is served later all the
     same; a cancelled actor ends the call itself and serves nothing more.
     */
    method Transition(r: Request, service: Service) returns (result: Ending)
      requires !closed ==> Calm(queued)
      modifies this, actor
      ensures old(closed) ==> result == Closed && closed && actor.Model() == old(actor.Model()) && queued == old(queued)
      ensures !old(closed) ==>
        match service
        case InTime =>
          var (b, reply, _) := Applied(old(Outlook()), r);
          result == Replied(reply) && actor.Model() == b && queued == []
            && closed == (reply == Done && IsTerminal(b.call.state))
        case Late => result == TimedOut && actor.Model() == old(actor.Model()) && queued == old(queued) + [r] && !closed
        case NotQueued => result == TimedOut && actor.Model() == old(actor.Model()) && queued == old(queued) && !closed
        case Cancelled(served, r1, r2) =>
          var n := if served < |old(queued)| then served else |old(queued)|;
          result == Closed && closed && actor.Model() == Shut(Settled(old(actor.Model()), old(queued)[..n]), r1, r2)
    {
      if closed {
        return Closed;
      }
      match service
      case InTime =>
        assert queued[..|queued|] == queued;
        Serve(|queued|);
        var reply := actor.Apply(r);
        closed := reply == Done && IsTerminal(actor.call.state);
        return Replied(reply);
      case Late =>
        queued := queued + [r];
        return TimedOut;
      case NotQueued =>
        return TimedOut;
      case Cancelled(served, r1, r2) =>
        Serve(if served < |queued| then served else |queued|);
        Shutdown(r1, r2);
        return Closed;
    }

    /** The actor's own end when its context is cancelled. */
    method Shutdown(r1: Request, r2: Request)
      modifies this`closed, actor
      ensures closed && actor.Model() == Shut(old(actor.Model()), r1, r2)
    {
      if !IsTerminal(actor.call.state) {
        var reply := actor.Apply(ToTerminating(r1));
        if reply == Done {
          reply := actor.Apply(ToTerminated(r2));
        }
      }
      closed := true;
    }

    /**
     handleHangup, also on shutdown: the other side is sent BYE exactly when the actor serves the request for
     Terminating before it is cancelled and the event is published; no request is ever an invalid transition.
     */
    method HandleHangup(terminating: Request, first: Service, terminated: Request, second: Service)
      returns (bye: bool, results: seq<Ending>)
      requires Valid()
      modifies this, actor
      ensures bye <==> !old(closed) && first == InTime && terminating.accepted
      ensures Replied(Invalid) !in results
      ensures bye && second == InTime ==>
        closed == terminated.accepted && actor.call.state == if terminated.accepted then Terminated else Terminating
      ensures !bye && !old(closed) && first == InTime ==>
        !closed && actor.Model().call.state == old(Outlook()).call.state
      ensures !old(closed) && first.Cancelled? && first.r1.accepted && first.r2.accepted ==>
        closed && actor.call.state == Terminated
    {
      if !closed {
        CalmStays(actor.Model(), queued);
        forall n | 0 <= n <= |queued| ensures InCall(Settled(actor.Model(), queued[..n]).call.state) {
          CalmStays(actor.Model(), queued[..n]);
        }
      }
      var result := Transition(terminating.(state := Terminating), first);
      results := [result];
      if result != Replied(Done) {
        return false, results;
      }
      result := Transition(terminated.(state := Terminated), second);
      return true, results + [result];
    }
  }

  /** An answered call on shutdown, its actor cancelled before it serves the hangup: the call ends without a BYE. */
  method ShutdownSendsNoBye() returns (box: Mailbox, bye: bool)
    ensures !bye && box.closed && box.actor.call.state == Terminated
  {
    var actor := new CallActor("call");
    var _ := actor.Apply(Request(Routing, "", 1, 1, true));
    var _ := actor.Apply(Request(Answered, "", 2, 2, true));
    box := new Mailbox(actor);
    var ok := Request(Terminating, "", 3, 3, true);
    var results;
    bye, results := box.HandleHangup(ok, Cancelled(0, ok, ok), ok, InTime);
  }
}
