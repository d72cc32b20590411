/**
 Bookkeeping of re-INVITE transactions in one B2BUA session
 (internal/sip/b2bua/in_dialog.go and the command loop of engine.go). Handler threads,
 the command loop, ACKs, watcher goroutines and teardown share one pending slot under a
 lock; each critical section is one step and steps interleave freely. What the network
 and the media negotiation decide is left open.
 */
module ReInvite {
  import opened Wrap

  /** One re-INVITE server transaction: its handler call, its watcher and what was done to it. */
  datatype Transaction = Transaction(
    cseq: nat, handler: Handler, enqueued: bool, handled: bool,
    pended: bool,      // was put into the pending slot
    watched: bool,     // its watcher goroutine is waiting
    taken: nat,        // took out of the slot by callers that have not called Terminate yet
    terminated: nat)   // Terminate calls made by this bookkeeping

  datatype Handler = Arrived | Begun | Waiting | Finishing | Ended

  datatype Loop =
    | Idle
    | Checking(t: nat)            // handleReInviteCommand entered
    | Peeked(t: nat, other: nat)  // hasPendingReInvite saw another transaction
    | Completing(t: nat, other: nat)
    | Negotiating(t: nat)         // nothing pending; offer, answer and state change under way
    | Ending                      // the command loop has left
    | Closed                      // deferred completion done, session over

  datatype State = State(
    slot: Option<nat>, slotCSeq: nat, busy: bool, mailbox: seq<nat>, loop: Loop, txns: seq<Transaction>)

  datatype Step =
    | Arrive(cseq: nat)
    | Begin(t: nat)       // beginReInvite, or a 491 answer
    | Reject(t: nat)      // the dialog refuses the request
    | Enqueue(t: nat)
    | NotEnqueued(t: nat) // mailbox full for too long, or session over
    | Wake(t: nat)        // the command was handled
    | TimeOut(t: nat)     // 408, or session over
    | Finish(t: nat)      // deferred finishReInvite
    | Dequeue
    | Peek
    | AckPolled           // hasPendingReInvite finds an ACK waiting
    | AckAbsent           // it finds none: 491
    | CompleteOther
    | Fail                // any error answer after the check
    | SetPending
    | End                 // hangup, cancellation or media failure
    | Teardown
    | Ack(cseq: nat)
    | WatchFires(t: nat)  // ACK or end of the watched transaction
    | WatchQuits(t: nat)  // session over
    | Terminate(t: nat)

  function Fresh(cseq: nat): Transaction { Transaction(cseq, Arrived, false, false, false, false, 0, 0) }

  function Update(s: State, t: nat, x: Transaction): State
    requires t < |s.txns|
  {
    s.(txns := s.txns[t := x])
  }

  /** Empties the slot if it holds t; the caller must then terminate t. */
  function TakeIf(s: State, t: nat): State
    requires t < |s.txns|
  {
    if s.slot == Some(t) then Update(s, t, s.txns[t].(taken := s.txns[t].taken + 1)).(slot := None, slotCSeq := 0)
      else s
  }

  predicate HasTransaction(step: Step) {
    step.Begin? || step.Reject? || step.Enqueue? || step.NotEnqueued? || step.Wake? || step.TimeOut? || step.Finish?
    || step.WatchFires? || step.WatchQuits? || step.Terminate?
  }

  predicate LoopIn(s: State) {
    match s.loop
    case Checking(t) => t < |s.txns|
    case Peeked(t, other) => t < |s.txns| && other < |s.txns|
    case Completing(t, other) => t < |s.txns| && other < |s.txns|
    case Negotiating(t) => t < |s.txns|
    case _ => true
  }

  /** Every index in the state names a transaction. */
  predicate InRange(s: State) {
    && (s.slot.Some? ==> s.slot.value < |s.txns|)
    && (forall k :: 0 <= k < |s.mailbox| ==> s.mailbox[k] < |s.txns|)
    && LoopIn(s)
  }

  predicate Enabled(s: State, step: Step, capacity: nat) {
    && (HasTransaction(step) ==> step.t < |s.txns|)
    && match step
       case Arrive(_) => true
       case Begin(t) => s.txns[t].handler == Arrived
       case Reject(t) => s.txns[t].handler == Begun
       case Enqueue(t) => s.txns[t].handler == Begun && |s.mailbox| < capacity
       case NotEnqueued(t) => s.txns[t].handler == Begun
       case Wake(t) => s.txns[t].handler == Waiting && s.txns[t].handled
       case TimeOut(t) => s.txns[t].handler == Waiting
       case Finish(t) => s.txns[t].handler == Finishing
       case Dequeue => s.loop.Idle? && s.mailbox != []
       case Peek => s.loop.Checking?
       case AckPolled => s.loop.Peeked?
       case AckAbsent => s.loop.Peeked?
       case CompleteOther => s.loop.Completing?
       case Fail => s.loop.Negotiating?
       case SetPending => s.loop.Negotiating?
       case End => s.loop.Idle?
       case Teardown => s.loop.Ending?
       case Ack(_) => true
       case WatchFires(t) => s.txns[t].watched
       case WatchQuits(t) => s.txns[t].watched && s.loop.Closed?
       case Terminate(t) => s.txns[t].taken > 0
  }

  /** Steps of handler calls. */
  function HandlerNext(s: State, step: Step): State
    requires HasTransaction(step) && step.t < |s.txns|
  {
    var x := s.txns[step.t];
    match step
    case Begin(t) =>
      if s.busy || s.slot.Some? then Update(s, t, x.(handler := Ended))
      else Update(s, t, x.(handler := Begun)).(busy := true)
    case Reject(t) => Update(s, t, x.(handler := Finishing))
    case Enqueue(t) => Update(s, t, x.(handler := Waiting, enqueued := true)).(mailbox := s.mailbox + [t])
    case NotEnqueued(t) => Update(s, t, x.(handler := Waiting))
    case Wake(t) => Update(s, t, x.(handler := Finishing))
    case TimeOut(t) => Update(s, t, x.(handler := Finishing))
    case Finish(t) => Update(s, t, x.(handler := Ended)).(busy := false)
    case _ => s
  }

  /** Steps of the command loop. */
  function LoopNext(s: State, step: Step): State
    requires InRange(s) && Enabled(s, step, 0)
  {
    match step
    case Dequeue => s.(loop := Checking(s.mailbox[0]), mailbox := s.mailbox[1..])
    case Peek => s.(loop := if s.slot.None? then Negotiating(s.loop.t) else Peeked(s.loop.t, s.slot.value))
    case AckPolled => s.(loop := Completing(s.loop.t, s.loop.other))
    case AckAbsent => Update(s, s.loop.t, s.txns[s.loop.t].(handled := true)).(loop := Idle)
    case CompleteOther => TakeIf(s, s.loop.other).(loop := Negotiating(s.loop.t))
    case Fail => Update(s, s.loop.t, s.txns[s.loop.t].(handled := true)).(loop := Idle)
    case SetPending =>
      var x := s.txns[s.loop.t];
      Update(s, s.loop.t, x.(handled := true, pended := true, watched := true))
        .(loop := Idle, slot := Some(s.loop.t), slotCSeq := x.cseq)
    case End => s.(loop := Ending)
    case Teardown => (if s.slot.Some? then TakeIf(s, s.slot.value) else s).(loop := Closed)
    case _ => s
  }

  /** Steps of ACK handlers, watchers and Terminate calls. */
  function OtherNext(s: State, step: Step): State
    requires InRange(s) && Enabled(s, step, 0)
  {
    match step
    case Arrive(c) => s.(txns := s.txns + [Fresh(c)])
    case Ack(c) => if s.slot.Some? && s.slotCSeq == c then TakeIf(s, s.slot.value) else s
    case WatchFires(t) =>
      var u := TakeIf(s, t);
      Update(u, t, u.txns[t].(watched := false))
    case WatchQuits(t) => Update(s, t, s.txns[t].(watched := false))
    case Terminate(t) => Update(s, t, s.txns[t].(taken := s.txns[t].taken - 1, terminated := s.txns[t].terminated + 1))
    case _ => s
  }

  predicate OfHandler(step: Step) {
    step.Begin? || step.Reject? || step.Enqueue? || step.NotEnqueued? || step.Wake? || step.TimeOut? || step.Finish?
  }

  predicate OfLoop(step: Step) {
    step.Dequeue? || step.Peek? || step.AckPolled? || step.AckAbsent? || step.CompleteOther? || step.Fail?
    || step.SetPending? || step.End? || step.Teardown?
  }

  function Next(s: State, step: Step, capacity: nat): State
    requires InRange(s) && Enabled(s, step, capacity)
  {
    if OfHandler(step) then HandlerNext(s, step)
    else if OfLoop(step) then LoopNext(s, step)
    else OtherNext(s, step)
  }

  // ---- What every step keeps ----

  /** The transaction the command loop is working on. */
  function Current(l: Loop): Option<nat> {
    match l
    case Checking(t) => Some(t)
    case Peeked(t, _) => Some(t)
    case Completing(t, _) => Some(t)
    case Negotiating(t) => Some(t)
    case _ => None
  }

  /** Past the check, and after the session, nothing is pending; the loop alone fills the slot. */
  ghost predicate SlotInv(s: State) {
    && (s.loop.Negotiating? || s.loop.Closed? ==> s.slot.None?)
    && (s.loop.Peeked? || s.loop.Completing? ==> s.slot == None || s.slot == Some(s.loop.other))
    && (s.slot.Some? ==> s.slot.value < |s.txns| && s.txns[s.slot.value].cseq == s.slotCSeq)
    && (s.slot.None? ==> s.slotCSeq == 0)
  }

  function InSlot(s: State, t: nat): nat { if s.slot == Some(t) then 1 else 0 }

  /** A transaction that was made pending is in the slot, taken out, or terminated: one of them, once. */
  ghost predicate AccountInv(s: State) {
    forall t :: 0 <= t < |s.txns| ==>
      s.txns[t].terminated + s.txns[t].taken + InSlot(s, t) == if s.txns[t].pended then 1 else 0
  }

  predicate Open(x: Transaction) { x.enqueued && !x.handled && !x.pended }

  predicate Unsent(x: Transaction) { !x.enqueued && !x.handled && !x.pended }

  /** A command is in the mailbox once, or with the loop, or handled. */
  ghost predicate MailInv(s: State) {
    && (forall k :: 0 <= k < |s.mailbox| ==> s.mailbox[k] < |s.txns| && Open(s.txns[s.mailbox[k]]))
    && (forall k, l :: 0 <= k < l < |s.mailbox| ==> s.mailbox[k] != s.mailbox[l])
    && (Current(s.loop).Some? ==>
          var t := Current(s.loop).value;
          t < |s.txns| && Open(s.txns[t]) && forall k :: 0 <= k < |s.mailbox| ==> s.mailbox[k] != t)
    && forall t :: 0 <= t < |s.txns| && (s.txns[t].handler == Arrived || s.txns[t].handler == Begun) ==>
        Unsent(s.txns[t])
  }

  predicate Critical(x: Transaction) { x.handler == Begun || x.handler == Waiting || x.handler == Finishing }

  /** The busy flag is held by exactly one handler call. */
  ghost predicate BusyInv(s: State) {
    && (forall t :: 0 <= t < |s.txns| && Critical(s.txns[t]) ==> s.busy)
    && (forall t, u :: 0 <= t < u < |s.txns| ==> !Critical(s.txns[t]) || !Critical(s.txns[u]))
    && (s.busy ==> exists t :: 0 <= t < |s.txns| && Critical(s.txns[t]))
  }

  ghost predicate Inv(s: State) { InRange(s) && SlotInv(s) && AccountInv(s) && MailInv(s) && BusyInv(s) }

  lemma HandlerKeeps(s: State, step: Step, capacity: nat)
    requires InRange(s) && SlotInv(s) && AccountInv(s) && Enabled(s, step, capacity) && OfHandler(step)
    ensures var s' := HandlerNext(s, step); InRange(s') && SlotInv(s') && AccountInv(s')
  {
  }

  lemma EnqueueKeepsMail(s: State, t: nat, capacity: nat)
    requires MailInv(s) && Enabled(s, Enqueue(t), capacity)
    ensures MailInv(HandlerNext(s, Enqueue(t)))
  {
    var s' := HandlerNext(s, Enqueue(t));
    assert Unsent(s.txns[t]) && Open(s'.txns[t]);
    assert forall u :: 0 <= u < |s.txns| && u != t ==> s'.txns[u] == s.txns[u];
  }

  lemma HandlerKeepsMail(s: State, step: Step, capacity: nat)
    requires MailInv(s) && Enabled(s, step, capacity) && OfHandler(step) && !step.Enqueue?
    ensures MailInv(HandlerNext(s, step))
  {
    var s' := HandlerNext(s, step);
    assert s'.mailbox == s.mailbox && s'.loop == s.loop;
    assert forall u :: 0 <= u < |s.txns| ==> Open(s'.txns[u]) == Open(s.txns[u]);
  }

  lemma HandlerKeepsBusy(s: State, step: Step, capacity: nat)
    requires BusyInv(s) && Enabled(s, step, capacity) && OfHandler(step)
    ensures BusyInv(HandlerNext(s, step))
  {
    var s' := HandlerNext(s, step);
    if s'.busy {
      if step.Begin? && !s.busy {
        assert Critical(s'.txns[step.t]);
      } else {
        var t :| 0 <= t < |s.txns| && Critical(s.txns[t]);
        assert Critical(s'.txns[t]);
      }
    }
  }

  lemma LoopKeepsSlot(s: State, step: Step)
    requires Inv(s) && Enabled(s, step, 0) && OfLoop(step)
    ensures var s' := LoopNext(s, step); InRange(s') && SlotInv(s') && AccountInv(s')
  {
  }

  lemma DequeueKeepsMail(s: State)
    requires InRange(s) && MailInv(s) && Enabled(s, Dequeue, 0)
    ensures MailInv(LoopNext(s, Dequeue))
  {
  }

  lemma LoopKeepsMail(s: State, step: Step)
    requires InRange(s) && MailInv(s) && Enabled(s, step, 0) && OfLoop(step) && !step.Dequeue?
    ensures MailInv(LoopNext(s, step))
  {
    var s' := LoopNext(s, step);
    assert s'.mailbox == s.mailbox && (Current(s'.loop) == None || Current(s'.loop) == Current(s.loop));
    assert forall t :: 0 <= t < |s.txns| && Some(t) != Current(s.loop) ==> SameCommand(s'.txns[t], s.txns[t]);
  }

  /** Steps outside the handlers leave every handler phase and the busy flag alone. */
  lemma BusyFrame(s: State, s': State)
    requires BusyInv(s) && s'.busy == s.busy && |s.txns| <= |s'.txns|
    requires forall t :: 0 <= t < |s.txns| ==> s'.txns[t].handler == s.txns[t].handler
    requires forall t :: |s.txns| <= t < |s'.txns| ==> s'.txns[t].handler == Arrived
    ensures BusyInv(s')
  {
    if s.busy {
      var t :| 0 <= t < |s.txns| && Critical(s.txns[t]);
      assert Critical(s'.txns[t]);
    }
  }

  lemma OtherKeeps(s: State, step: Step)
    requires InRange(s) && SlotInv(s) && AccountInv(s) && Enabled(s, step, 0) && !OfHandler(step) && !OfLoop(step)
    ensures var s' := OtherNext(s, step); InRange(s') && SlotInv(s') && AccountInv(s')
  {
  }

  predicate SameCommand(x: Transaction, y: Transaction) {
    x.handler == y.handler && x.enqueued == y.enqueued && x.handled == y.handled && x.pended == y.pended
  }

  lemma OtherKeepsMail(s: State, step: Step)
    requires InRange(s) && MailInv(s) && Enabled(s, step, 0) && !OfHandler(step) && !OfLoop(step)
    ensures MailInv(OtherNext(s, step))
  {
    var s' := OtherNext(s, step);
    assert s'.mailbox == s.mailbox && s'.loop == s.loop;
    assert forall t :: 0 <= t < |s.txns| ==> SameCommand(s'.txns[t], s.txns[t]);
  }

  lemma LoopKeepsBusy(s: State, step: Step)
    requires InRange(s) && BusyInv(s) && Enabled(s, step, 0) && OfLoop(step)
    ensures BusyInv(LoopNext(s, step))
  {
    BusyFrame(s, LoopNext(s, step));
  }

  lemma OtherKeepsBusy(s: State, step: Step)
    requires InRange(s) && BusyInv(s) && Enabled(s, step, 0) && !OfHandler(step) && !OfLoop(step)
    ensures BusyInv(OtherNext(s, step))
  {
    BusyFrame(s, OtherNext(s, step));
  }

  lemma HandlerStep(s: State, step: Step, capacity: nat)
    requires Inv(s) && Enabled(s, step, capacity) && OfHandler(step)
    ensures Inv(HandlerNext(s, step))
  {
    HandlerKeeps(s, step, capacity);
    HandlerKeepsBusy(s, step, capacity);
    if step.Enqueue? {
      EnqueueKeepsMail(s, step.t, capacity);
    } else {
      HandlerKeepsMail(s, step, capacity);
    }
  }

  lemma LoopStep(s: State, step: Step)
    requires Inv(s) && Enabled(s, step, 0) && OfLoop(step)
    ensures Inv(LoopNext(s, step))
  {
    LoopKeepsSlot(s, step);
    LoopKeepsBusy(s, step);
    if step.Dequeue? {
      DequeueKeepsMail(s);
    } else {
      LoopKeepsMail(s, step);
    }
  }

  lemma OtherStep(s: State, step: Step)
    requires Inv(s) && Enabled(s, step, 0) && !OfHandler(step) && !OfLoop(step)
    ensures Inv(OtherNext(s, step))
  {
    OtherKeeps(s, step);
    OtherKeepsBusy(s, step);
    OtherKeepsMail(s, step);
  }

  lemma InvStep(s: State, step: Step, capacity: nat)
    requires Inv(s) && Enabled(s, step, capacity)
    ensures Inv(Next(s, step, capacity))
  {
    if OfHandler(step) {
      HandlerStep(s, step, capacity);
    } else if OfLoop(step) {
      LoopStep(s, step);
    } else {
      OtherStep(s, step);
    }
  }

  /** A command that was queued is in the mailbox, with the loop, or handled. */
  ghost predicate Waits(s: State, t: int)
    requires 0 <= t < |s.txns|
  {
    s.txns[t].enqueued && !s.txns[t].handled ==> t in s.mailbox || Current(s.loop) == Some(t)
  }

  ghost predicate NothingLost(s: State) { forall t :: 0 <= t < |s.txns| ==> Waits(s, t) }

  lemma HandlerLosesNothing(s: State, step: Step, capacity: nat)
    requires NothingLost(s) && Enabled(s, step, capacity) && OfHandler(step)
    ensures NothingLost(HandlerNext(s, step))
  {
    var s' := HandlerNext(s, step);
    forall t | 0 <= t < |s'.txns| ensures Waits(s', t) {
      assert Waits(s, t);
    }
  }

  lemma LoopLosesNothing(s: State, step: Step)
    requires NothingLost(s) && InRange(s) && Enabled(s, step, 0) && OfLoop(step)
    ensures NothingLost(LoopNext(s, step))
  {
    var s' := LoopNext(s, step);
    forall t | 0 <= t < |s'.txns| ensures Waits(s', t) {
      assert Waits(s, t);
      if step.Dequeue? && t in s.mailbox {
        assert s.mailbox == [s.mailbox[0]] + s.mailbox[1..];
      }
    }
  }

  lemma OtherLosesNothing(s: State, step: Step)
    requires NothingLost(s) && InRange(s) && Enabled(s, step, 0) && !OfHandler(step) && !OfLoop(step)
    ensures NothingLost(OtherNext(s, step))
  {
    var s' := OtherNext(s, step);
    forall t | 0 <= t < |s'.txns| ensures Waits(s', t) {
      assert t < |s.txns| ==> Waits(s, t);
    }
  }

  /** Whatever is pending has a watcher. */
  ghost predicate PendingWatched(s: State) { s.slot.Some? ==> s.slot.value < |s.txns| && s.txns[s.slot.value].watched }

  lemma WatchStep(s: State, step: Step, capacity: nat)
    requires PendingWatched(s) && InRange(s) && SlotInv(s) && Enabled(s, step, capacity)
    ensures PendingWatched(Next(s, step, capacity))
  {
  }

  // ---- Whole runs ----

  ghost predicate IsRun(ss: seq<State>, steps: seq<Step>, capacity: nat) {
    && |ss| == |steps| + 1 && ss[0] == State(None, 0, false, [], Idle, [])
    && forall k :: 0 <= k < |steps| ==>
      InRange(ss[k]) && Enabled(ss[k], steps[k], capacity) && ss[k + 1] == Next(ss[k], steps[k], capacity)
  }

  lemma {:induction false} InvAlways(ss: seq<State>, steps: seq<Step>, capacity: nat, k: nat)
    requires IsRun(ss, steps, capacity) && k < |ss|
    ensures Inv(ss[k])
  {
    if k > 0 {
      InvAlways(ss, steps, capacity, k - 1);
      InvStep(ss[k - 1], steps[k - 1], capacity);
    }
  }

  /** No command is dropped: whatever was queued is answered, being worked on, or still in the mailbox. */
  lemma {:induction false} NoCommandLost(ss: seq<State>, steps: seq<Step>, capacity: nat, k: nat)
    requires IsRun(ss, steps, capacity) && k < |ss|
    ensures NothingLost(ss[k])
  {
    if k > 0 {
      NoCommandLost(ss, steps, capacity, k - 1);
      if OfHandler(steps[k - 1]) {
        HandlerLosesNothing(ss[k - 1], steps[k - 1], capacity);
      } else if OfLoop(steps[k - 1]) {
        LoopLosesNothing(ss[k - 1], steps[k - 1]);
      } else {
        OtherLosesNothing(ss[k - 1], steps[k - 1]);
      }
    }
  }

  /** A pending transaction is always watched, so its end clears the slot even if its ACK never comes. */
  lemma {:induction false} AlwaysWatched(ss: seq<State>, steps: seq<Step>, capacity: nat, k: nat)
    requires IsRun(ss, steps, capacity) && k < |ss|
    ensures PendingWatched(ss[k])
  {
    if k > 0 {
      AlwaysWatched(ss, steps, capacity, k - 1);
      InvAlways(ss, steps, capacity, k - 1);
      WatchStep(ss[k - 1], steps[k - 1], capacity);
    }
  }

  /** Setting the pending slot never overwrites an occupied one, even with commands whose handler gave up. */
  lemma {:induction false} NeverOverwrites(ss: seq<State>, steps: seq<Step>, capacity: nat, k: nat)
    requires IsRun(ss, steps, capacity) && k < |steps| && steps[k].SetPending?
    ensures ss[k].slot.None?
    ensures var t := ss[k].loop.t; t < |ss[k].txns| && !ss[k].txns[t].pended && ss[k + 1].slot == Some(t)
  {
    InvAlways(ss, steps, capacity, k);
  }

  /** When the session is over, every transaction made pending has been taken for termination once, and none twice. */
  lemma {:induction false} TerminatedOnce(ss: seq<State>, steps: seq<Step>, capacity: nat, k: nat, t: nat)
    requires IsRun(ss, steps, capacity) && k < |ss| && t < |ss[k].txns|
    ensures var x := ss[k].txns[t];
      && x.terminated <= 1 && (x.terminated == 1 ==> x.pended)
      && (ss[k].loop.Closed? && x.taken == 0 ==> x.terminated == if x.pended then 1 else 0)
  {
    InvAlways(ss, steps, capacity, k);
  }

  lemma EmptiedBy(s: State, step: Step, capacity: nat, u: nat)
    requires InRange(s) && SlotInv(s) && Enabled(s, step, capacity) && s.slot == Some(u)
      && Next(s, step, capacity).slot != Some(u)
    ensures var s' := Next(s, step, capacity);
      s'.slot == None && u < |s'.txns| && s'.txns[u].taken == s.txns[u].taken + 1
    ensures || step == WatchFires(u) || step == Ack(s.txns[u].cseq) || step.Teardown?
      || (step.CompleteOther? && s.loop.other == u)
  {
    assert !OfHandler(step);
  }

  /** An occupied slot is emptied only on behalf of its own transaction: old watchers and other ACKs leave it alone. */
  lemma {:induction false} OnlyItsOwn(ss: seq<State>, steps: seq<Step>, capacity: nat, k: nat, u: nat)
    requires IsRun(ss, steps, capacity) && k < |steps| && ss[k].slot == Some(u) && ss[k + 1].slot != Some(u)
    ensures u < |ss[k].txns| && u < |ss[k + 1].txns|
    ensures ss[k + 1].slot == None && ss[k + 1].txns[u].taken == ss[k].txns[u].taken + 1
    ensures || steps[k] == WatchFires(u) || steps[k] == Ack(ss[k].txns[u].cseq) || steps[k].Teardown?
            || (steps[k].CompleteOther? && ss[k].loop.other == u)
  {
    InvAlways(ss, steps, capacity, k);
    EmptiedBy(ss[k], steps[k], capacity, u);
  }

  /** A re-INVITE is admitted only when no other is being handled and none awaits its ACK. */
  lemma {:induction false} AdmittedAlone(ss: seq<State>, steps: seq<Step>, capacity: nat, k: nat, t: nat)
    requires IsRun(ss, steps, capacity) && k < |steps| && steps[k] == Begin(t)
    ensures ss[k + 1].txns[t].handler == Begun <==>
      ss[k].slot.None? && forall u :: 0 <= u < |ss[k].txns| ==> !Critical(ss[k].txns[u])
  {
    InvAlways(ss, steps, capacity, k);
  }
}
