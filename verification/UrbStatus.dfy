/**
  What the answers say: the status of every reply in terms of what libusb reported, and which submits reach
  libusb.
 */
module UrbStatus {
  import opened UsbIp
  import opened UrbHandler
  import opened UrbProtocol
  import opened UrbTracking
  import opened UrbAnswers
  import opened UrbTheorems

  /** The status words of the protocol for libusb's results, as the client must see them. */
  function WireStatus(result: TransferStatus, shortNotOk: bool): int {
    match result
    case Completed => 0
    case Error => if shortNotOk then -32 else 0
    case Stall | TimedOut | Overflow => -32
    case Cancelled => -104
    case NoDevice => -108
    case Unknown => -2
  }

  /** The status of the RET_SUBMIT that a verdict leads to. */
  function StatusFor(v: Verdict): int {
    match v
    case Reported(result, shortNotOk) => WireStatus(result, shortNotOk)
    case Untracked(c) => if c.kind == Control && c.tweakHandled then 0 else -32
    case NotSubmitted => -32
  }

  // ---- one verdict per submit, and the status that follows from it ----

  /** Submits on their way to libusb or with it have no verdict yet. */
  ghost predicate OpenUnjudged(receiver: Receiver, callbacks: map<nat, Callback>, verdicts: map<Seqnum, Verdict>) {
    && (receiver.Accepted? ==> receiver.submit.seqnum !in verdicts)
    && (receiver.Registered? ==> receiver.s !in verdicts)
    && forall id :: id in callbacks && callbacks[id].InFlight? ==> callbacks[id].s !in verdicts
  }

  /** The statuses about to be queued. */
  ghost predicate PendingStatuses(receiver: Receiver, callbacks: map<nat, Callback>, verdicts: map<Seqnum, Verdict>) {
    && (receiver.Failed? ==> receiver.s in verdicts && verdicts[receiver.s] == NotSubmitted)
    && (receiver.Replying? ==> receiver.s in verdicts && receiver.status == StatusFor(verdicts[receiver.s]))
    && forall id :: id in callbacks && callbacks[id].Completing? ==>
         && callbacks[id].s in verdicts && verdicts[callbacks[id].s].Reported?
         && callbacks[id].status == StatusFor(verdicts[callbacks[id].s])
  }

  /** A reply carries the status its submit's verdict leads to; a confirmed unlink that of its target's
      result, a late one 0. */
  predicate Truthful(past: History, r: Response) {
    match r
    case RetSubmit(s, status) => s in past.verdicts && status == StatusFor(past.verdicts[s])
    case RetUnlink(c, status) =>
      && c in past.unlinks && Replied(past.unlinks[c])
      && (past.unlinks[c].Late? ==> status == 0)
      && var t := past.unlinks[c].target;
         past.unlinks[c].Confirmed? ==>
           t in past.verdicts && past.verdicts[t].Reported? && status == StatusFor(past.verdicts[t])
  }

  ghost predicate AllTruthful(past: History) { forall i :: 0 <= i < |past.log| ==> Truthful(past, past.log[i]) }

  ghost predicate Judged(st: State) {
    && st.past.verdicts.Keys <= st.past.submits.Keys
    && OpenUnjudged(st.receiver, st.callbacks, st.past.verdicts)
    && PendingStatuses(st.receiver, st.callbacks, st.past.verdicts)
    && AllTruthful(st.past)
  }

  /** The history grew by at most one true reply and changed no verdict and no answered unlink. */
  lemma {:induction false} StayTruthful(past: History, past': History)
    requires AllTruthful(past)
    requires past'.log == past.log || exists r :: past'.log == past.log + [r] && Truthful(past', r)
    requires forall s :: s in past.verdicts ==> s in past'.verdicts && past'.verdicts[s] == past.verdicts[s]
    requires forall c :: c in past.unlinks && Replied(past.unlinks[c]) ==>
               c in past'.unlinks && past'.unlinks[c] == past.unlinks[c]
    ensures AllTruthful(past')
  {
    forall i | 0 <= i < |past'.log| ensures Truthful(past', past'.log[i]) {
      if i < |past.log| {
        assert past'.log[i] == past.log[i];
        assert Truthful(past, past.log[i]);
      }
    }
  }

  lemma {:induction false} JudgedByAccept(st: State, c: Submit)
    requires Judged(st) && Outstanding(st) && ReceiverEnabled(st, AcceptSubmit(c))
    requires DistinctSeqnums(st.past.commands + [CmdSubmit(c.seqnum)])
    ensures Judged(ReceiverStep(st, AcceptSubmit(c)))
  {
    Fresh(st.past.commands, CmdSubmit(c.seqnum));
    StayTruthful(st.past, ReceiverStep(st, AcceptSubmit(c)).past);
  }

  lemma {:induction false} JudgedByDispatch(st: State)
    requires Judged(st) && Outstanding(st) && Tracked(st) && st.receiver.Accepted?
    ensures Judged(Dispatch(st))
  {
    StayTruthful(st.past, Dispatch(st).past);
  }

  lemma {:induction false} JudgedBySubmitError(st: State, disconnect: bool)
    requires Judged(st) && Outstanding(st) && Tracked(st) && st.receiver.Registered?
    ensures Judged(ReceiverStep(st, SubmitError(disconnect)))
  {
    StayTruthful(st.past, ReceiverStep(st, SubmitError(disconnect)).past);
  }

  lemma {:induction false} JudgedByUnlink(st: State)
    requires Judged(st) && Outstanding(st) && st.receiver.Unlinking?
    ensures Judged(Unlink(st))
  {
    StayTruthful(st.past, Unlink(st).past);
  }

  lemma {:induction false} JudgedReceiverStep(st: State, r: ReceiverEvent)
    requires Judged(st) && Outstanding(st) && Tracked(st) && ReceiverEnabled(st, r)
    requires DistinctSeqnums(ReceiverStep(st, r).past.commands)
    ensures Judged(ReceiverStep(st, r))
  {
    match r
    case AcceptSubmit(c) => JudgedByAccept(st, c);
    case DispatchSubmit => JudgedByDispatch(st);
    case SubmitError(disconnect) => JudgedBySubmitError(st, disconnect);
    case UnlinkLocked => JudgedByUnlink(st);
    case EnqueueReply => StayTruthful(st.past, Reply(st).past);
    case _ => JudgedElsewhere(st, r);
  }

  lemma {:induction false} JudgedElsewhere(st: State, r: ReceiverEvent)
    requires Judged(st) && Tracked(st) && ReceiverEnabled(st, r)
    requires !r.AcceptSubmit? && !r.DispatchSubmit? && !r.SubmitError? && !r.UnlinkLocked? && !r.EnqueueReply?
    ensures Judged(ReceiverStep(st, r))
  {
    if r.SubmitOk? || r.EraseFailed? {
      JudgedBySubmitted(st, r);
    } else {
      StayTruthful(st.past, ReceiverStep(st, r).past);
    }
  }

  lemma {:induction false} JudgedBySubmitted(st: State, r: ReceiverEvent)
    requires Judged(st) && Tracked(st) && ReceiverEnabled(st, r) && (r.SubmitOk? || r.EraseFailed?)
    ensures Judged(ReceiverStep(st, r))
  {
    StayTruthful(st.past, ReceiverStep(st, r).past);
  }

  lemma {:induction false} JudgedByEnter(st: State, id: nat, result: TransferStatus, shortNotOk: bool)
    requires Judged(st) && Outstanding(st) && Tracked(st) && id in st.callbacks && st.callbacks[id].InFlight?
    ensures Judged(EnterCallback(st, id, result, shortNotOk))
  {
    var st' := EnterCallback(st, id, result, shortNotOk);
    StayTruthful(st.past, st'.past);
    OnlyJudged(st, id);
    assert ReportedStatus(result, shortNotOk) == WireStatus(result, shortNotOk);
    PendingByEnter(st.receiver, st.callbacks, st.past.verdicts, id, st'.callbacks[id], Reported(result, shortNotOk));
  }

  lemma {:induction false} PendingByEnter(receiver: Receiver, callbacks: map<nat, Callback>,
                                          verdicts: map<Seqnum, Verdict>, id: nat, c: Callback, v: Verdict)
    requires OpenUnjudged(receiver, callbacks, verdicts) && PendingStatuses(receiver, callbacks, verdicts)
    requires id in callbacks && callbacks[id].InFlight? && v.Reported?
    requires var s := callbacks[id].s;
             && (receiver.Accepted? ==> receiver.submit.seqnum != s) && (receiver.Registered? ==> receiver.s != s)
             && (forall k :: k in callbacks && k != id && callbacks[k].InFlight? ==> callbacks[k].s != s)
             && (c == Aborting(s) || c == Completing(s, StatusFor(v)))
    ensures OpenUnjudged(receiver, callbacks[id := c], verdicts[callbacks[id].s := v])
    ensures PendingStatuses(receiver, callbacks[id := c], verdicts[callbacks[id].s := v])
  {
  }

  /** Nobody else is about to be judged, or has been, under the number of a transfer in flight. */
  lemma {:induction false} OnlyJudged(st: State, id: nat)
    requires Judged(st) && Outstanding(st) && Tracked(st) && id in st.callbacks && st.callbacks[id].InFlight?
    ensures var s := st.callbacks[id].s;
            && s in st.past.submits && s !in st.past.verdicts
            && (st.receiver.Accepted? ==> st.receiver.submit.seqnum != s)
            && (st.receiver.Registered? ==> st.receiver.s != s)
            && forall k :: k in st.callbacks && k != id && st.callbacks[k].InFlight? ==> st.callbacks[k].s != s
  {
  }

  lemma {:induction false} JudgedByComplete(st: State, id: nat)
    requires Judged(st) && Outstanding(st) && id in st.callbacks && st.callbacks[id].Completing?
    requires st.callbacks[id].s in st.h.transfers
    ensures Judged(Complete(st, id))
  {
    StayTruthful(st.past, Complete(st, id).past);
  }

  lemma {:induction false} JudgedCallbackStep(st: State, id: nat, c: CallbackEvent)
    requires Judged(st) && Outstanding(st) && Tracked(st) && CallbackEnabled(st, id, c)
    ensures Judged(CallbackStep(st, id, c))
  {
    match c
    case Enter(result, shortNotOk) => JudgedByEnter(st, id, result, shortNotOk);
    case Locked => JudgedByComplete(st, id);
    case _ => StayTruthful(st.past, CallbackStep(st, id, c).past);
  }

  lemma {:induction false} JudgedStep(st: State, e: Event)
    requires Judged(st) && Outstanding(st) && Tracked(st) && Enabled(st, e)
    requires DistinctSeqnums(Step(st, e).past.commands)
    ensures Judged(Step(st, e))
  {
    match e
    case Receive(r) => JudgedReceiverStep(st, r);
    case Call(id, c) => JudgedCallbackStep(st, id, c);
    case Send(s) => assert SenderStep(st, s).past == st.past;
    case HotUnplug =>
    case RequestStop =>
  }

  lemma {:induction false} RunJudged(es: seq<Event>)
    requires Exec(es).Some? && DistinctSeqnums(Exec(es).value.past.commands)
    ensures Judged(Exec(es).value)
  {
    if es != [] {
      var front, e := es[..|es| - 1], es[|es| - 1];
      var prev := Exec(front).value;
      DistinctBefore(prev, e);
      RunJudged(front);
      RunInvariant(front);
      RunAnswers(front);
      JudgedStep(prev, e);
    }
  }

  /** In every run of a client with distinct numbers each reply says what happened: RET_SUBMIT the status
      of libusb's result for its transfer, or of the early exit that answered it; the RET_UNLINK of an
      unlink that stopped a transfer that transfer's status, and of one that came late 0. */
  lemma {:induction false} RepliesCarryResults(st: State, i: nat)
    requires Reachable(st) && DistinctSeqnums(st.past.commands) && i < |st.past.log|
    ensures st.past.log[i].RetSubmit? ==>
              var s := st.past.log[i].seqnum;
              s in st.past.verdicts && st.past.log[i].status == StatusFor(st.past.verdicts[s])
    ensures st.past.log[i].RetUnlink? ==>
              var c := st.past.log[i].seqnum;
              && c in st.past.unlinks && (st.past.unlinks[c].Late? || st.past.unlinks[c].Confirmed?)
              && (st.past.unlinks[c].Late? ==> st.past.log[i].status == 0)
              && (st.past.unlinks[c].Confirmed? ==>
                    var t := st.past.unlinks[c].target;
                    && t in st.past.verdicts && st.past.verdicts[t].Reported?
                    && st.past.log[i].status
                       == WireStatus(st.past.verdicts[t].result, st.past.verdicts[t].shortNotOk))
  {
    var es :| Exec(es) == Some(st);
    RunJudged(es);
    assert Truthful(st.past, st.past.log[i]);
  }

  lemma {:induction false} VerdictKept(st: State, e: Event, s: Seqnum)
    requires OpenUnjudged(st.receiver, st.callbacks, st.past.verdicts) && Enabled(st, e) && s in st.past.verdicts
    ensures s in Step(st, e).past.verdicts && Step(st, e).past.verdicts[s] == st.past.verdicts[s]
  {
    match e
    case Receive(r) => ReceiverKeepsVerdict(st, r, s);
    case Call(id, c) => CallbackKeepsVerdict(st, id, c, s);
    case _ =>
  }

  lemma {:induction false} ReceiverKeepsVerdict(st: State, r: ReceiverEvent, s: Seqnum)
    requires OpenUnjudged(st.receiver, st.callbacks, st.past.verdicts) && ReceiverEnabled(st, r)
    requires s in st.past.verdicts
    ensures s in ReceiverStep(st, r).past.verdicts && ReceiverStep(st, r).past.verdicts[s] == st.past.verdicts[s]
  {
  }

  lemma {:induction false} CallbackKeepsVerdict(st: State, id: nat, c: CallbackEvent, s: Seqnum)
    requires OpenUnjudged(st.receiver, st.callbacks, st.past.verdicts) && CallbackEnabled(st, id, c)
    requires s in st.past.verdicts
    ensures var past := CallbackStep(st, id, c).past; s in past.verdicts && past.verdicts[s] == st.past.verdicts[s]
  {
  }

  /** What is decided stays decided. */
  lemma {:induction false} VerdictsStand(st: State, e: Event, s: Seqnum)
    requires Reachable(st) && Enabled(st, e) && DistinctSeqnums(Step(st, e).past.commands) && s in st.past.verdicts
    ensures s in Step(st, e).past.verdicts && Step(st, e).past.verdicts[s] == st.past.verdicts[s]
  {
    DistinctBefore(st, e);
    var es :| Exec(es) == Some(st);
    RunJudged(es);
    VerdictKept(st, e, s);
  }

  // ---- which submits reach libusb ----

  /** A control request that nobody handled and whose wLength fits the buffer, or a transfer of a known
      kind to an interface. */
  predicate Submittable(c: Submit) {
    || (c.kind == Control && !c.tweakHandled && c.wLength <= c.bufferLength)
    || (c.hasInterface && (c.kind == Bulk || c.kind == Interrupt || c.kind == Isochronous))
  }

  /** receive_urb hands a submit to libusb exactly if it is submittable and its number is not in flight,
      as a new entry of the table; every other one leaves the table alone and is answered 0 if it is a
      control request already carried out, and -32 otherwise. */
  lemma {:induction false} SubmittedExactly(st: State)
    requires Reachable(st) && st.receiver.Accepted?
    ensures var c, st' := st.receiver.submit, Dispatch(st);
            && (st'.receiver.Registered? <==> Submittable(c) && c.seqnum !in st.h.transfers)
            && (st'.receiver.Registered? ==>
                  && st'.h.transfers == st.h.transfers[c.seqnum := Args(st.nextId, false, 0)]
                  && st'.h.pending == st.h.pending + 1
                  && forall s :: s in st.h.transfers ==> st.h.transfers[s].id != st.nextId)
            && (!st'.receiver.Registered? ==>
                  && st'.h == st.h
                  && st'.receiver
                     == Replying(c.seqnum, if c.kind == Control && c.tweakHandled then 0 else -32, false))
  {
    var es :| Exec(es) == Some(st);
    RunInvariant(es);
  }
}
