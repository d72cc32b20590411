/**
 The state changes a session asks of its call actor (session.run and
 terminate in internal/sip/b2bua/engine.go): routing, the callee's provisional
 responses, its final one, and the end of the call. The theorem says exactly when one
 of them is an invalid transition.
 */
module CallSetup {
  import opened Wrap
  import opened CallActor

  /**
   A response of the callee with what its handling meets: usable media, the actor's environment, the caller reachable.
   */
  datatype Response = Response(code: int, hasBody: bool, mediaUsable: bool, env: Request, relayed: bool)

  /** How the wait for the final response ends. */
  datatype Final =
    | Unanswered(env: Request)  // failed before the INVITE, refused, cancelled, unusable media, or no ACK
    | Answer(env: Request, callerTold: bool, terminating: Request, terminated: Request)

  /** Provisional responses other than 100 are acted upon. */
  predicate IsProgress(r: Response) { r.code < 200 && r.code != 100 }

  predicate IsEarly(r: Response) { r.code == 183 && r.hasBody }

  predicate Rings(r: Response) { r.code == 180 || (r.code == 183 && !r.hasBody) }

  function Asked(r: Response): Option<CallState> {
    if IsEarly(r) then Some(EarlyMedia) else if Rings(r) then Some(Ringing) else None
  }

  /** OnResponse: the actor afterwards, the replies it gave and whether the wait goes on. */
  function Heard(a: Actor, r: Response): (Actor, seq<Reply>, bool) {
    if !IsProgress(r) then (a, [], true)
    else if IsEarly(r) && !r.mediaUsable then (a, [], false)
    else if Asked(r).None? then (a, [], r.relayed)
    else
      var (b, reply, _) := Applied(a, r.env.(state := Asked(r).value));
      (b, [reply], reply == Done && r.relayed)
  }

  function HeardAll(a: Actor, rs: seq<Response>): (Actor, seq<Reply>, bool) {
    if rs == [] then (a, [], true)
    else
      var k := |rs| - 1;
      var (b, replies, waiting) := HeardAll(a, rs[..k]);
      if !waiting then (b, replies, false)
      else
        var (c, more, still) := Heard(b, rs[k]);
        (c, replies + more, still)
  }

  /** The end of the set-up: Failed, or Answered and then Terminating and Terminated if the caller cannot be told. */
  function Concluded(a: Actor, f: Final): (Actor, seq<Reply>, bool) {
    if f.Unanswered? then
      var (b, reply, _) := Applied(a, f.env.(state := Failed));
      (b, [reply], false)
    else
      var (b, reply, _) := Applied(a, f.env.(state := Answered));
      if reply != Done || f.callerTold then (b, [reply], reply == Done)
      else
        var (c, reply1, _) := Applied(b, f.terminating.(state := Terminating));
        var (d, reply2, _) := Applied(c, f.terminated.(state := Terminated));
        (d, [reply, reply1, reply2], false)
  }

  /** run: the actor, all replies and whether the command loop is entered. A wait that breaks off ends in Failed. */
  function Setup(a: Actor, routing: Request, rs: seq<Response>, f: Final, failing: Request): (Actor, seq<Reply>, bool) {
    var (b, reply, _) := Applied(a, routing.(state := Routing));
    if reply != Done then (b, [reply], false)
    else
      var (c, replies, waiting) := HeardAll(b, rs);
      var (d, more, looping) := Concluded(c, if waiting then f else Unanswered(failing));
      (d, [reply] + replies + more, looping)
  }

  /** 100 and final responses change nothing, 180 and 183 ask for a state, and any other progress is only passed on. */
  lemma ResponseMeans(a: Actor, r: Response)
    ensures r.code == 100 || r.code >= 200 ==> Heard(a, r) == (a, [], true)
    ensures r.code < 200 && r.code != 100 && r.code != 180 && r.code != 183 ==> Heard(a, r) == (a, [], r.relayed)
    ensures r.code == 183 && r.hasBody && !r.mediaUsable ==> Heard(a, r) == (a, [], false)
    ensures r.code == 180 || (r.code == 183 && (!r.hasBody || r.mediaUsable)) ==>
      var (b, reply, _) := Applied(a, r.env.(state := if r.code == 183 && r.hasBody then EarlyMedia else Ringing));
      Heard(a, r) == (b, [reply], reply == Done && r.relayed)
  {
  }

  method Run(actor: CallActor, routing: Request, rs: seq<Response>, f: Final, failing: Request)
    returns (replies: seq<Reply>, looping: bool)
    modifies actor
    ensures (actor.Model(), replies, looping) == Setup(old(actor.Model()), routing, rs, f, failing)
  {
    var reply := actor.Apply(routing.(state := Routing));
    if reply != Done {
      return [reply], false;
    }
    ghost var routed := actor.Model();
    var heard: seq<Reply> := [];
    var waiting := true;
    var i := 0;
    while i < |rs| && waiting
      invariant i <= |rs| && (actor.Model(), heard, waiting) == HeardAll(routed, rs[..i])
    {
      HeardAllAppend(routed, rs[..i], rs[i]);
      assert rs[..i + 1] == rs[..i] + [rs[i]];
      var more;
      more, waiting := OnResponse(actor, rs[i]);
      heard := heard + more;
      i := i + 1;
    }
    StoppedStays(routed, rs, i);
    var more;
    more, looping := Conclude(actor, if waiting then f else Unanswered(failing));
    replies := [reply] + heard + more;
  }

  method OnResponse(actor: CallActor, r: Response) returns (replies: seq<Reply>, waiting: bool)
    modifies actor
    ensures (actor.Model(), replies, waiting) == Heard(old(actor.Model()), r)
  {
    if r.code >= 200 || r.code == 100 {
      return [], true;
    }
    replies := [];
    if r.code == 183 && r.hasBody {
      if !r.mediaUsable {
        return [], false;
      }
      var reply := actor.Apply(r.env.(state := EarlyMedia));
      replies := [reply];
      if reply != Done {
        return replies, false;
      }
    } else if r.code == 180 || r.code == 183 {
      var reply := actor.Apply(r.env.(state := Ringing));
      replies := [reply];
      if reply != Done {
        return replies, false;
      }
    }
    return replies, r.relayed;
  }

  method Conclude(actor: CallActor, f: Final) returns (replies: seq<Reply>, looping: bool)
    modifies actor
    ensures (actor.Model(), replies, looping) == Concluded(old(actor.Model()), f)
  {
    if f.Unanswered? {
      var reply := actor.Apply(f.env.(state := Failed));
      return [reply], false;
    }
    var reply := actor.Apply(f.env.(state := Answered));
    if reply != Done || f.callerTold {
      return [reply], reply == Done;
    }
    var reply1 := actor.Apply(f.terminating.(state := Terminating));
    var reply2 := actor.Apply(f.terminated.(state := Terminated));
    return [reply, reply1, reply2], false;
  }

  lemma {:induction false} HeardAllAppend(a: Actor, rs: seq<Response>, r: Response)
    ensures var (b, replies, waiting) := HeardAll(a, rs);
      HeardAll(a, rs + [r]) ==
        if !waiting then (b, replies, false) else var (c, more, still) := Heard(b, r); (c, replies + more, still)
  {
    assert (rs + [r])[..|rs|] == rs;
  }

  lemma {:induction false} StoppedStays(a: Actor, rs: seq<Response>, i: nat)
    requires i <= |rs| && (i == |rs| || !HeardAll(a, rs[..i]).2)
    ensures HeardAll(a, rs) == HeardAll(a, rs[..i])
    decreases |rs| - i
  {
    if i == |rs| {
      assert rs[..i] == rs;
    } else {
      HeardAllAppend(a, rs[..i], rs[i]);
      assert rs[..i + 1] == rs[..i] + [rs[i]];
      StoppedStays(a, rs, i + 1);
    }
  }

  // ---- When a transition is invalid ----

  function NextStage(stage: CallState, r: Response): CallState {
    if IsEarly(r) then EarlyMedia else if Rings(r) && stage != EarlyMedia then Ringing else stage
  }

  /** How far undisturbed responses have brought the call. */
  function Stage(rs: seq<Response>): CallState {
    if rs == [] then Routing else NextStage(Stage(rs[..|rs| - 1]), rs[|rs| - 1])
  }

  lemma {:induction false} StageMeans(rs: seq<Response>)
    ensures Stage(rs) == EarlyMedia <==> exists i :: 0 <= i < |rs| && rs[i].code == 183 && rs[i].hasBody
    ensures Stage(rs) == Routing <==> forall i :: 0 <= i < |rs| ==> rs[i].code != 180 && rs[i].code != 183
    ensures Stage(rs) == Routing || Stage(rs) == Ringing || Stage(rs) == EarlyMedia
  {
    if rs != [] {
      StageMeans(rs[..|rs| - 1]);
      assert rs == rs[..|rs| - 1] + [rs[|rs| - 1]];
    }
  }

  /** Breaks the wait off: unusable media, a refused event for a new state, or an unreachable caller. */
  predicate Breaks(stage: CallState, r: Response) {
    && IsProgress(r)
    && (|| (IsEarly(r) && !r.mediaUsable)
        || (Asked(r).Some? && Asked(r).value != stage && !r.env.accepted)
        || !r.relayed)
  }

  /** Rings although early media has begun. */
  predicate Late(stage: CallState, r: Response) { Rings(r) && stage == EarlyMedia }

  predicate BreaksOff(rs: seq<Response>, k: int)
    requires 0 <= k < |rs|
  {
    Breaks(Stage(rs[..k]), rs[k])
  }

  predicate RingsLate(rs: seq<Response>, k: int)
    requires 0 <= k < |rs|
  {
    Late(Stage(rs[..k]), rs[k])
  }

  /** A late ringing response is reached: nothing before it breaks the wait off. */
  ghost predicate RingsTooLate(rs: seq<Response>) {
    exists j :: 0 <= j < |rs| && RingsLate(rs, j) && forall k :: 0 <= k < j ==> !BreaksOff(rs, k)
  }

  ghost predicate Undisturbed(rs: seq<Response>) {
    forall k :: 0 <= k < |rs| ==> !BreaksOff(rs, k) && !RingsLate(rs, k)
  }

  predicate InSetup(s: CallState) { s == Routing || s == Ringing || s == EarlyMedia }

  /** One response at the stage reached. */
  lemma HeardStep(a: Actor, r: Response)
    requires InSetup(a.call.state)
    ensures var stage := a.call.state;
      var (b, replies, waiting) := Heard(a, r);
      && (Invalid in replies <==> Late(stage, r)) && (waiting <==> !Breaks(stage, r) && !Late(stage, r))
      && InSetup(b.call.state) && (waiting ==> b.call.state == NextStage(stage, r))
  {
  }

  lemma {:induction false} PrefixFacts(rs: seq<Response>)
    requires rs != []
    ensures var k := |rs| - 1;
      && (Undisturbed(rs) <==> Undisturbed(rs[..k]) && !BreaksOff(rs, k) && !RingsLate(rs, k))
      && (RingsTooLate(rs) <==> RingsTooLate(rs[..k]) || (Undisturbed(rs[..k]) && RingsLate(rs, k)))
  {
    var k := |rs| - 1;
    var p := rs[..k];
    assert forall i :: 0 <= i < k ==> p[..i] == rs[..i] && p[i] == rs[i];
    assert forall i :: 0 <= i < k ==> BreaksOff(p, i) == BreaksOff(rs, i) && RingsLate(p, i) == RingsLate(rs, i);
    if RingsTooLate(rs) && !RingsTooLate(p) {
      assert forall i :: 0 <= i < k ==> !BreaksOff(p, i);
    }
    if RingsTooLate(p) {
      var j :| 0 <= j < |p| && RingsLate(p, j) && forall i :: 0 <= i < j ==> !BreaksOff(p, i);
      assert RingsLate(rs, j);
    }
    if Undisturbed(p) && RingsLate(rs, k) {
      assert forall i :: 0 <= i < k ==> !BreaksOff(rs, i);
    }
  }

  lemma {:induction false} HeardAllMeans(a: Actor, rs: seq<Response>)
    requires a.call.state == Routing
    ensures var (b, replies, waiting) := HeardAll(a, rs);
      && (Invalid in replies <==> RingsTooLate(rs)) && (waiting <==> Undisturbed(rs))
      && InSetup(b.call.state) && (waiting ==> b.call.state == Stage(rs))
  {
    if rs != [] {
      var k := |rs| - 1;
      HeardAllMeans(a, rs[..k]);
      PrefixFacts(rs);
      var (b, replies, waiting) := HeardAll(a, rs[..k]);
      if waiting {
        HeardStep(b, rs[k]);
      }
    }
  }

  /** The caller cannot be told of the answer and the event that ends the call is refused. */
  predicate EndsTooSoon(f: Final) { f.Answer? && f.env.accepted && !f.callerTold && !f.terminating.accepted }

  lemma ConcludedMeans(a: Actor, f: Final)
    requires InSetup(a.call.state)
    ensures var (b, replies, looping) := Concluded(a, f);
      && (Invalid in replies <==> EndsTooSoon(f))
      && (looping <==> f.Answer? && f.env.accepted && f.callerTold) && (looping ==> b.call.state == Answered)
  {
  }

  /**
   A call that is set up asks for an invalid transition exactly when the callee rings after early media began, with
   nothing breaking the wait off before, or when an answer the caller cannot be told of is followed by a refused
   Terminating; in the command loop the call is Answered.
   */
  lemma SetupInvalidIff(a: Actor, routing: Request, rs: seq<Response>, f: Final, failing: Request)
    requires a.call.state == New
    ensures var (b, replies, looping) := Setup(a, routing, rs, f, failing);
      && (Invalid in replies <==> routing.accepted && (RingsTooLate(rs) || (Undisturbed(rs) && EndsTooSoon(f))))
      && (looping <==> routing.accepted && Undisturbed(rs) && f.Answer? && f.env.accepted && f.callerTold)
      && (looping ==> b.call.state == Answered)
  {
    var (b, reply, _) := Applied(a, routing.(state := Routing));
    if reply == Done {
      HeardAllMeans(b, rs);
      ConcludedMeans(HeardAll(b, rs).0, if HeardAll(b, rs).2 then f else Unanswered(failing));
    }
  }

  /** 183 with a session description and then 180 fails the call although every event is accepted. */
  lemma RingingAfterEarlyMediaFails(a: Actor, ok: Request, f: Final)
    requires a.call.state == New && ok.accepted
    ensures var rs := [Response(183, true, true, ok, true), Response(180, false, false, ok, true)];
      var (b, replies, _) := Setup(a, ok, rs, f, ok);
      Invalid in replies && b.call.state == Failed
  {
    var rs := [Response(183, true, true, ok, true), Response(180, false, false, ok, true)];
    assert rs[..1] == [rs[0]] && rs[..0] == [];
    StageMeans(rs[..1]);
    assert IsEarly(rs[..1][0]);
    assert RingsLate(rs, 1) && !BreaksOff(rs, 0);
    var b := Applied(a, ok.(state := Routing)).0;
    HeardAllMeans(b, rs);
    SetupInvalidIff(a, ok, rs, f, ok);
  }
}
