/**
  Whole-run results of the URB protocol: for every interleaving of the receiver, the libusb
  callbacks and the sender.
 */
module UrbTheorems {
  import opened UsbIp
  import opened UrbHandler
  import opened UrbProtocol
  import opened UrbTracking
  import opened UrbAnswers

  /** Receiver events that answer nothing and accept nothing. */
  predicate Quiet(r: ReceiverEvent) {
    r.RejectRemoved? || r.SubmitOk? || r.SubmitError? || r.WakeReply? || r.Disconnect? || r.Drained?
  }

  lemma OutstandingQuiet(st: State, r: ReceiverEvent)
    requires Outstanding(st) && ReceiverEnabled(st, r) && Quiet(r)
    ensures Outstanding(ReceiverStep(st, r))
  {
    var st' := ReceiverStep(st, r);
    assert st'.past.commands == st.past.commands && st'.past.submits == st.past.submits
           && st'.past.unlinks == st.past.unlinks && st'.h.transfers == st.h.transfers;
    assert Owed(st'.receiver) == Owed(st.receiver) && Unprocessed(st'.receiver) == Unprocessed(st.receiver);
  }

  lemma VerdictsQuiet(st: State, r: ReceiverEvent)
    requires Verdicts(st) && ReceiverEnabled(st, r) && Quiet(r)
    ensures Verdicts(ReceiverStep(st, r))
  {
  }

  lemma OutstandingReceiverStep(st: State, r: ReceiverEvent)
    requires Outstanding(st) && ReceiverEnabled(st, r) && !Quiet(r)
    requires DistinctSeqnums(ReceiverStep(st, r).past.commands)
    requires st.receiver.Failed? ==> st.receiver.s in st.h.transfers
    ensures Outstanding(ReceiverStep(st, r))
  {
    match r
    case AcceptSubmit(c) => OutstandingByAcceptSubmit(st, c);
    case DispatchSubmit => OutstandingByDispatch(st);
    case EraseFailed => OutstandingByErase(st);
    case EnqueueReply => OutstandingByReply(st);
    case AcceptUnlink(target, cmd) => OutstandingByAcceptUnlink(st, target, cmd);
    case UnlinkLocked =>
      if st.receiver.target in st.h.transfers { OutstandingByMark(st); } else { OutstandingByLateUnlink(st); }
  }

  lemma OutstandingCallbackStep(st: State, id: nat, c: CallbackEvent)
    requires Outstanding(st) && CallbackEnabled(st, id, c)
    ensures Outstanding(CallbackStep(st, id, c))
  {
    match c
    case Locked => if st.callbacks[id].s in st.h.transfers { OutstandingByComplete(st, id); }
    case AbortErase => if st.callbacks[id].s in st.h.transfers { OutstandingByAbort(st, id); }
    case _ =>
  }

  lemma VerdictsReceiverStep(st: State, r: ReceiverEvent)
    requires Outstanding(st) && Verdicts(st) && ReceiverEnabled(st, r) && !Quiet(r)
    requires DistinctSeqnums(ReceiverStep(st, r).past.commands)
    ensures Verdicts(ReceiverStep(st, r))
  {
    match r
    case AcceptSubmit(c) => VerdictsByAcceptSubmit(st, c);
    case EnqueueReply => VerdictsByReply(st);
    case AcceptUnlink(target, cmd) => VerdictsByAcceptUnlink(st, target, cmd);
    case UnlinkLocked =>
      if st.receiver.target in st.h.transfers { VerdictsByMark(st); } else { VerdictsByLateUnlink(st); }
    case DispatchSubmit =>
    case EraseFailed =>
  }

  lemma VerdictsCallbackStep(st: State, id: nat, c: CallbackEvent)
    requires Outstanding(st) && Verdicts(st) && CallbackEnabled(st, id, c) && DistinctSeqnums(st.past.commands)
    ensures Verdicts(CallbackStep(st, id, c))
  {
    match c
    case Locked => if st.callbacks[id].s in st.h.transfers { VerdictsByComplete(st, id); }
    case AbortErase => if st.callbacks[id].s in st.h.transfers { VerdictsByAbort(st, id); }
    case _ =>
  }

  ghost predicate FoundIn(st: State) { Found(st.past.submits, st.past.unlinks, st.h.transfers) }

  lemma FoundByAccept(st: State, c: Submit)
    requires FoundIn(st) && SubmitsKnown(st.past.commands, st.past.submits) && ReceiverEnabled(st, AcceptSubmit(c))
    requires DistinctSeqnums(st.past.commands + [CmdSubmit(c.seqnum)])
    ensures FoundIn(ReceiverStep(st, AcceptSubmit(c)))
  {
    Fresh(st.past.commands, CmdSubmit(c.seqnum));
  }

  /** The receiver's own replies go to transfers that no unlink has found. */
  lemma FoundByReceiverReply(st: State, r: ReceiverEvent)
    requires FoundIn(st) && ReceiverEnabled(st, r) && (r.EraseFailed? || r.EnqueueReply?)
    requires WaitingExact(st.past.submits, st.h.transfers, Owed(st.receiver))
    requires ThreadsAgree(st.h.transfers, st.h.clientDisconnected, st.receiver, st.callbacks)
    ensures FoundIn(ReceiverStep(st, r))
  {
  }

  lemma FoundReceiverStep(st: State, r: ReceiverEvent)
    requires Outstanding(st) && FoundIn(st) && ReceiverEnabled(st, r) && !Quiet(r)
    requires DistinctSeqnums(ReceiverStep(st, r).past.commands)
    ensures FoundIn(ReceiverStep(st, r))
  {
    match r
    case AcceptSubmit(c) => FoundByAccept(st, c);
    case DispatchSubmit => FoundByDispatch(st);
    case EraseFailed => FoundByReceiverReply(st, r);
    case EnqueueReply => FoundByReceiverReply(st, r);
    case AcceptUnlink(_, _) =>
    case UnlinkLocked => FoundByUnlink(st);
  }

  lemma FoundByUnlink(st: State)
    requires Outstanding(st) && FoundIn(st) && st.receiver.Unlinking?
    ensures FoundIn(Unlink(st))
  {
    if st.receiver.target in st.h.transfers {
      FoundByMark(st.past.submits, st.past.unlinks, st.h.transfers, st.receiver.target, st.receiver.cmd);
    }
  }

  lemma FoundCallbackStep(st: State, id: nat, c: CallbackEvent)
    requires Outstanding(st) && FoundIn(st) && CallbackEnabled(st, id, c)
    ensures FoundIn(CallbackStep(st, id, c))
  {
  }

  lemma AnswersReceiverStep(st: State, r: ReceiverEvent)
    requires Answers(st) && ReceiverEnabled(st, r)
    requires DistinctSeqnums(ReceiverStep(st, r).past.commands)
    requires st.receiver.Failed? ==> st.receiver.s in st.h.transfers
    ensures Answers(ReceiverStep(st, r))
  {
    if Quiet(r) {
      AnswersQuiet(st, r);
    } else {
      OutstandingReceiverStep(st, r);
      VerdictsReceiverStep(st, r);
      FoundReceiverStep(st, r);
    }
  }

  lemma AnswersQuiet(st: State, r: ReceiverEvent)
    requires Answers(st) && ReceiverEnabled(st, r) && Quiet(r)
    ensures Answers(ReceiverStep(st, r))
  {
    OutstandingQuiet(st, r);
    VerdictsQuiet(st, r);
  }

  lemma AnswersCallbackStep(st: State, id: nat, c: CallbackEvent)
    requires Answers(st) && CallbackEnabled(st, id, c) && DistinctSeqnums(st.past.commands)
    ensures Answers(CallbackStep(st, id, c))
  {
    OutstandingCallbackStep(st, id, c);
    VerdictsCallbackStep(st, id, c);
    FoundCallbackStep(st, id, c);
  }

  lemma AnswersSenderStep(st: State, s: SenderEvent)
    requires Answers(st) && SenderEnabled(st, s)
    ensures Answers(SenderStep(st, s))
  {
  }

  lemma AnswersStep(st: State, e: Event)
    requires Tracked(st) && Answers(st) && Enabled(st, e)
    requires DistinctSeqnums(Step(st, e).past.commands)
    ensures Answers(Step(st, e))
  {
    match e
    case Receive(r) => AnswersReceiverStep(st, r);
    case Call(id, c) => AnswersCallbackStep(st, id, c);
    case Send(s) => AnswersSenderStep(st, s);
    case HotUnplug =>
    case RequestStop =>
  }

  lemma DistinctBefore(st: State, e: Event)
    requires Enabled(st, e) && DistinctSeqnums(Step(st, e).past.commands)
    ensures DistinctSeqnums(st.past.commands)
  {
    if e.Receive? && e.r.AcceptSubmit? {
      Fresh(st.past.commands, CmdSubmit(e.r.c.seqnum));
    } else if e.Receive? && e.r.AcceptUnlink? {
      Fresh(st.past.commands, CmdUnlink(e.r.cmd, e.r.target));
    } else if e.Receive? {
      ReceiverAcceptsNone(st, e.r);
    } else if e.Call? {
      CallbackAcceptsNone(st, e.id, e.c);
    }
  }

  lemma ReceiverAcceptsNone(st: State, r: ReceiverEvent)
    requires ReceiverEnabled(st, r) && !r.AcceptSubmit? && !r.AcceptUnlink?
    ensures ReceiverStep(st, r).past.commands == st.past.commands
  {
  }

  lemma CallbackAcceptsNone(st: State, id: nat, c: CallbackEvent)
    requires CallbackEnabled(st, id, c)
    ensures CallbackStep(st, id, c).past.commands == st.past.commands
  {
  }

  lemma {:induction false} RunAnswers(es: seq<Event>)
    requires Exec(es).Some? && DistinctSeqnums(Exec(es).value.past.commands)
    ensures Answers(Exec(es).value)
  {
    if es != [] {
      var front, e := es[..|es| - 1], es[|es| - 1];
      var prev := Exec(front).value;
      DistinctBefore(prev, e);
      RunAnswers(front);
      RunInvariant(front);
      AnswersStep(prev, e);
    }
  }

  /** Everything the proofs know about a reachable state of a client with distinct numbers. */
  lemma ReachableFacts(st: State)
    requires Reachable(st) && DistinctSeqnums(st.past.commands)
    ensures Tracked(st) && Buffered(st) && Answers(st)
  {
    var es :| Exec(es) == Some(st);
    RunInvariant(es);
    RunAnswers(es);
  }

  /** The client sees the result of a transfer before the confirmation of an unlink that came
      after it, and that confirmation then reports that the transfer had completed. */
  lemma SubmitAnsweredFirst(st: State, s: Seqnum, c: Seqnum, i: nat, j: nat)
    requires Reachable(st) && DistinctSeqnums(st.past.commands)
    requires Precedes(st.past.commands, s, c)
    requires i < |st.sender.sent| && st.sender.sent[i].RetSubmit? && st.sender.sent[i].seqnum == s
    requires j < |st.sender.sent| && st.sender.sent[j].RetUnlink? && st.sender.sent[j].seqnum == c
    ensures i < j && st.sender.sent[j].status == STATUS_OK
  {
    ReachableFacts(st);
    assert st.sender.sent[i] == st.past.log[i] && st.sender.sent[j] == st.past.log[j];
  }

  /** An unlink that found its target in flight. */
  predicate FoundInFlight(past: History, c: Seqnum, s: Seqnum) {
    c in past.unlinks && !past.unlinks[c].Late? && past.unlinks[c].target == s
  }

  /** Unlink c found submit s in flight and has its one RET_UNLINK. */
  predicate AnsweredBy(past: History, c: Seqnum, s: Seqnum) {
    FoundInFlight(past, c, s) && CountUnlinks(past.log, c) == 1
  }

  /** A submit that an unlink found in flight gets no RET_SUBMIT. */
  lemma UnlinkedNotAnswered(st: State, c: Seqnum, s: Seqnum)
    requires Reachable(st) && DistinctSeqnums(st.past.commands) && FoundInFlight(st.past, c, s)
    ensures CountSubmits(st.past.log, s) == 0
  {
    ReachableFacts(st);
  }

  /** No disconnect, no command being processed, and the pending counter back at zero. */
  predicate AtRest(st: State) { st.receiver.Idle? && st.h.pending == 0 }

  lemma RestSettled(st: State)
    requires Reachable(st) && DistinctSeqnums(st.past.commands) && AtRest(st)
    ensures forall s :: s in st.past.submits ==> st.past.submits[s].BySubmit? || st.past.submits[s].ByUnlink?
    ensures forall c :: c in st.past.unlinks ==> Replied(st.past.unlinks[c]) || st.past.unlinks[c].Overwritten?
  {
    ReachableFacts(st);
    assert st.h.transfers == map[];
  }

  /** At rest every accepted submit has exactly one answer: its RET_SUBMIT if no unlink found it in
      flight, and otherwise one RET_UNLINK of such an unlink and no RET_SUBMIT. */
  lemma SubmitAnsweredExactlyOnce(st: State, s: Seqnum)
    requires Reachable(st) && DistinctSeqnums(st.past.commands) && AtRest(st)
    requires CmdSubmit(s) in st.past.commands
    ensures (exists c :: FoundInFlight(st.past, c, s)) ==>
              CountSubmits(st.past.log, s) == 0 && exists c :: AnsweredBy(st.past, c, s)
    ensures !(exists c :: FoundInFlight(st.past, c, s)) ==> CountSubmits(st.past.log, s) == 1
    ensures forall c, c' :: AnsweredBy(st.past, c, s) && AnsweredBy(st.past, c', s) ==> c == c'
  {
    ReachableFacts(st);
    RestSettled(st);
    ExactlyOneAnswer(st.past, st.h.transfers, s);
  }

  lemma ExactlyOneAnswer(past: History, transfers: map<Seqnum, Args>, s: Seqnum)
    requires Found(past.submits, past.unlinks, transfers) && CountsExact(past.submits, past.unlinks, past.log)
    requires s in past.submits && (past.submits[s].BySubmit? || past.submits[s].ByUnlink?)
    requires past.submits[s].ByUnlink? ==>
               past.submits[s].cmd in past.unlinks && past.unlinks[past.submits[s].cmd] == Confirmed(s)
    ensures (exists c :: FoundInFlight(past, c, s)) ==>
              CountSubmits(past.log, s) == 0 && exists c :: AnsweredBy(past, c, s)
    ensures !(exists c :: FoundInFlight(past, c, s)) ==> CountSubmits(past.log, s) == 1
    ensures forall c, c' :: AnsweredBy(past, c, s) && AnsweredBy(past, c', s) ==> c == c'
  {
    if past.submits[s].ByUnlink? {
      assert FoundInFlight(past, past.submits[s].cmd, s);
      assert AnsweredBy(past, past.submits[s].cmd, s);
    }
  }

  /** At rest an accepted unlink has exactly one RET_UNLINK, unless a later unlink of the same
      transfer overwrote it while the transfer was in flight; then it has none. */
  lemma UnlinkAnsweredExactlyOnce(st: State, c: Seqnum, target: Seqnum)
    requires Reachable(st) && DistinctSeqnums(st.past.commands) && AtRest(st)
    requires CmdUnlink(c, target) in st.past.commands
    ensures c in st.past.unlinks
    ensures CountUnlinks(st.past.log, c) == if st.past.unlinks[c].Overwritten? then 0 else 1
    ensures !Displaced(st.past.commands, c) ==> CountUnlinks(st.past.log, c) == 1
  {
    ReachableFacts(st);
    RestSettled(st);
  }

  /** The step that loses an unlink's reply, and the guard that decides it: the receiver processes an
      unlink of a transfer that is in flight and already marked. */
  lemma OverwriteExactly(st: State, c: Seqnum)
    requires Reachable(st) && DistinctSeqnums(st.past.commands) && st.receiver.Unlinking?
    requires c in st.past.unlinks && !st.past.unlinks[c].Overwritten?
    ensures Unlink(st).past.unlinks[c].Overwritten? <==>
              st.receiver.target in st.h.transfers && st.h.transfers[st.receiver.target].unlinking
              && st.h.transfers[st.receiver.target].unlinkCmd == c
  {
    ReachableFacts(st);
  }

  /** Once on_disconnection has drained, only a hot unplug can still flag the device, and that only
      while the server's table lists it as in use; so a device is never flagged by its own transfers
      after it was given back. */
  lemma NoFlagAfterDrain(st: State, e: Event)
    requires Reachable(st) && st.receiver.Closed? && Enabled(st, e) && e != HotUnplug
    ensures Step(st, e).h.deviceRemoved == st.h.deviceRemoved
  {
    PendingCountExact(st);
  }
}
