/**
 The methods of in_dialog.go that guard the pending re-INVITE of a session. Each is
 proved to carry out its step of the protocol in ReInvite; the protocol state is a ghost
 companion of the session's fields.
 */
module ReInviteSlot {
  import opened Wrap
  import opened ReInvite

  class Session {
    var pendingReInvite: Option<nat>
    var pendingCSeq: nat
    var reInviteBusy: bool
    ghost var protocol: State

    ghost predicate Valid()
      reads this
    {
      Inv(protocol) && pendingReInvite == protocol.slot && pendingCSeq == protocol.slotCSeq
        && reInviteBusy == protocol.busy
    }

    constructor ()
      ensures Valid() && protocol == State(None, 0, false, [], Idle, [])
    {
      pendingReInvite, pendingCSeq, reInviteBusy := None, 0, false;
      protocol := State(None, 0, false, [], Idle, []);
    }

    method BeginReInvite(t: nat) returns (admitted: bool)
      requires Valid() && Enabled(protocol, Begin(t), 0)
      modifies this
      ensures Valid() && protocol == Next(old(protocol), Begin(t), 0)
      ensures admitted <==> protocol.txns[t].handler == Begun
      ensures admitted <==>
        old(pendingReInvite).None? && forall u :: 0 <= u < |old(protocol).txns| ==> !Critical(old(protocol).txns[u])
    {
      InvStep(protocol, Begin(t), 0);
      protocol := Next(protocol, Begin(t), 0);
      if reInviteBusy || pendingReInvite.Some? {
        return false;
      }
      reInviteBusy := true;
      return true;
    }

    method FinishReInvite(ghost t: nat)
      requires Valid() && Enabled(protocol, Finish(t), 0)
      modifies this
      ensures Valid() && protocol == Next(old(protocol), Finish(t), 0)
      ensures forall u :: 0 <= u < |protocol.txns| ==> !Critical(protocol.txns[u])
    {
      InvStep(protocol, Finish(t), 0);
      protocol := Next(protocol, Finish(t), 0);
      reInviteBusy := false;
    }

    /** The slot is found empty, although the method does not look. */
    method SetPendingReInvite(t: nat, cseq: nat)
      requires Valid() && Enabled(protocol, SetPending, 0) && t == protocol.loop.t && cseq == protocol.txns[t].cseq
      modifies this
      ensures Valid() && protocol == Next(old(protocol), SetPending, 0)
      ensures old(pendingReInvite).None? && pendingReInvite == Some(t) && pendingCSeq == cseq
    {
      InvStep(protocol, SetPending, 0);
      protocol := Next(protocol, SetPending, 0);
      pendingReInvite, pendingCSeq := Some(t), cseq;
    }

    /** Session end: whatever is pending is terminated, and nothing is pending any more. */
    method CompletePendingReInvite()
      requires Valid() && Enabled(protocol, Teardown, 0)
      modifies this
      ensures Valid() && pendingReInvite.None?
      ensures protocol == AfterTermination(Next(old(protocol), Teardown, 0), old(pendingReInvite))
      ensures old(pendingReInvite).Some? ==> TerminatedNow(old(protocol), protocol, old(pendingReInvite).value)
    {
      var transaction := pendingReInvite;
      InvStep(protocol, Teardown, 0);
      protocol := Next(protocol, Teardown, 0);
      pendingReInvite, pendingCSeq := None, 0;
      Terminate(transaction);
    }

    /** An ACK clears and terminates the pending transaction exactly when it carries its CSeq. */
    method CompletePendingReInviteCSeq(cseq: nat)
      requires Valid()
      modifies this
      ensures Valid()
      ensures old(pendingReInvite).Some? && old(protocol.txns[pendingReInvite.value].cseq) == cseq ==>
        pendingReInvite.None? && TerminatedNow(old(protocol), protocol, old(pendingReInvite).value)
      ensures !(old(pendingReInvite).Some? && old(protocol.txns[pendingReInvite.value].cseq) == cseq) ==>
        pendingReInvite == old(pendingReInvite) && protocol == old(protocol)
    {
      var transaction := pendingReInvite;
      InvStep(protocol, Ack(cseq), 0);
      protocol := Next(protocol, Ack(cseq), 0);
      if transaction.Some? && pendingCSeq == cseq {
        pendingReInvite, pendingCSeq := None, 0;
      } else {
        transaction := None;
      }
      Terminate(transaction);
    }

    /** Clears and terminates exactly the transaction it was called for; a watcher of another leaves the slot alone. */
    method CompletePendingReInviteTransaction(expected: nat, ghost step: Step)
      requires Valid() && CompletesFor(protocol, step, expected)
      modifies this
      ensures Valid()
      ensures old(pendingReInvite) == Some(expected) ==>
        pendingReInvite.None? && TerminatedNow(old(protocol), protocol, expected)
      ensures old(pendingReInvite) != Some(expected) ==>
        pendingReInvite == old(pendingReInvite) && protocol == Next(old(protocol), step, 0)
      ensures step == CompleteOther ==> protocol.loop == Negotiating(old(protocol).loop.t)
    {
      var transaction := pendingReInvite;
      CompletionStep(protocol, step, expected);
      protocol := Next(protocol, step, 0);
      if transaction == Some(expected) {
        pendingReInvite, pendingCSeq := None, 0;
      } else {
        transaction := None;
      }
      Terminate(transaction);
    }

    /** The check at the head of a re-INVITE command, with whether an ACK waits at the pending transaction. */
    method HasPendingReInvite(acked: bool) returns (pending: bool)
      requires Valid() && Enabled(protocol, Peek, 0)
      modifies this
      ensures Valid()
      ensures pending <==> old(pendingReInvite).Some? && !acked
      ensures pending ==> pendingReInvite == old(pendingReInvite) && protocol.loop.Idle?
      ensures !pending ==> pendingReInvite.None? && protocol.loop == Negotiating(old(protocol).loop.t)
      ensures !pending && old(pendingReInvite).Some? ==>
        TerminatedNow(old(protocol), protocol, old(pendingReInvite).value)
    {
      var transaction := pendingReInvite;
      Advance(Peek);
      if transaction.None? {
        return false;
      }
      if acked {
        CompleteAcked(transaction.value);
        return false;
      }
      Advance(AckAbsent);
      return true;
    }

    method CompleteAcked(t: nat)
      requires Valid() && protocol.loop.Peeked? && protocol.loop.other == t && pendingReInvite == Some(t)
      modifies this
      ensures Valid() && pendingReInvite.None? && protocol.loop == Negotiating(old(protocol).loop.t)
      ensures TerminatedNow(old(protocol), protocol, t)
    {
      Advance(AckPolled);
      CompletePendingReInviteTransaction(t, CompleteOther);
    }

    /** Steps of the loop that leave the slot alone. */
    ghost method Advance(step: Step)
      requires Valid() && Enabled(protocol, step, 0) && (step.Peek? || step.AckPolled? || step.AckAbsent?)
      modifies `protocol
      ensures Valid() && protocol.slot == old(protocol).slot && |protocol.txns| == |old(protocol).txns|
      ensures step.Peek? && protocol.slot.None? ==> protocol.loop == Negotiating(old(protocol).loop.t)
      ensures step.Peek? && protocol.slot.Some? ==> protocol.loop == Peeked(old(protocol).loop.t, protocol.slot.value)
      ensures step.AckPolled? ==> protocol.loop == Completing(old(protocol).loop.t, old(protocol).loop.other)
      ensures step.AckAbsent? ==> protocol.loop == Idle
      ensures forall u :: 0 <= u < |protocol.txns| ==> protocol.txns[u].terminated == old(protocol).txns[u].terminated
    {
      InvStep(protocol, step, 0);
      protocol := Next(protocol, step, 0);
    }

    method Terminate(transaction: Option<nat>)
      requires Valid() && (transaction.Some? ==> Enabled(protocol, ReInvite.Terminate(transaction.value), 0))
      modifies `protocol
      ensures Valid() && protocol == AfterTermination(old(protocol), transaction)
    {
      if transaction.Some? {
        InvStep(protocol, ReInvite.Terminate(transaction.value), 0);
        protocol := Next(protocol, ReInvite.Terminate(transaction.value), 0);
      }
    }
  }

  /** The protocol steps in which completePendingReInviteTransaction is called for t. */
  ghost predicate CompletesFor(s: State, step: Step, t: nat)
    requires InRange(s)
  {
    Enabled(s, step, 0) && (step == WatchFires(t) || (step == CompleteOther && s.loop.other == t))
  }

  lemma CompletionStep(s: State, step: Step, t: nat)
    requires Inv(s) && CompletesFor(s, step, t)
    ensures var s' := Next(s, step, 0);
      && Inv(s') && |s'.txns| == |s.txns| && t < |s.txns| && s'.busy == s.busy
          && s'.txns[t].terminated == s.txns[t].terminated
      && (s.slot == Some(t) ==>
          s'.slot == None && s'.slotCSeq == 0 && s'.txns[t].taken == 1 && s.txns[t].terminated == 0)
      && (s.slot != Some(t) ==> s'.slot == s.slot && s'.slotCSeq == s.slotCSeq)
  {
    InvStep(s, step, 0);
  }

  ghost function AfterTermination(s: State, transaction: Option<nat>): State
    requires InRange(s) && (transaction.Some? ==> Enabled(s, ReInvite.Terminate(transaction.value), 0))
  {
    if transaction.Some? then Next(s, ReInvite.Terminate(transaction.value), 0) else s
  }

  /** Transaction t was not terminated before and is terminated once now. */
  ghost predicate TerminatedNow(before: State, after: State, t: nat) {
    t < |before.txns| && t < |after.txns| && before.txns[t].terminated == 0 && after.txns[t].terminated == 1
  }
}
