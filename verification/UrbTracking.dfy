/**
  What every step of the URB protocol keeps about the in-flight table, the pending counter and
  the send queue, whatever sequence numbers the client chooses.
 */
module UrbTracking {
  import opened UsbIp
  import opened SendQueue
  import opened UrbHandler
  import opened UrbProtocol

  /** Callbacks that have left the table but not yet decremented the counter. */
  function Departing(callbacks: map<nat, Callback>): set<nat> {
    set id | id in callbacks && !BeforeErase(callbacks[id])
  }

  /** The receiver holds a table entry that libusb does not own (yet, or any more). */
  predicate ReceiverHolds(r: Receiver, s: Seqnum, id: nat) {
    || r == Registered(s, id)
    || (r.Failed? && r.s == s)
  }

  ghost predicate EntriesOwned(transfers: map<Seqnum, Args>, receiver: Receiver, callbacks: map<nat, Callback>,
                               nextId: nat) {
    && (forall s :: s in transfers ==>
          var id := transfers[s].id;
          && id < nextId
          && (ReceiverHolds(receiver, s, id) <==> id !in callbacks)
          && (id in callbacks ==> BeforeErase(callbacks[id]) && callbacks[id].s == s))
    && (receiver.Registered? ==> receiver.s in transfers && transfers[receiver.s].id == receiver.id)
    && (receiver.Failed? ==> receiver.s in transfers)
  }

  ghost predicate CallbacksTracked(transfers: map<Seqnum, Args>, callbacks: map<nat, Callback>, nextId: nat) {
    forall id :: id in callbacks ==>
      && id < nextId
      && (BeforeErase(callbacks[id]) ==> callbacks[id].s in transfers && transfers[callbacks[id].s].id == id)
  }

  ghost predicate FlagsAgree(h: Handler, receiver: Receiver) {
    && (h.connected <==> !receiver.Closed?)
    && (h.clientDisconnected <==> receiver.Draining? || receiver.Closed?)
    && (receiver.Closed? ==> h.pending == 0)
  }

  /** The table, the running callbacks and pending_count_ agree. */
  ghost predicate Tracked(st: State) {
    && EntriesOwned(st.h.transfers, st.receiver, st.callbacks, st.nextId)
    && CallbacksTracked(st.h.transfers, st.callbacks, st.nextId)
    && st.h.pending == |st.h.transfers| + |Departing(st.callbacks)|
    && FlagsAgree(st.h, st.receiver)
  }

  lemma DepartingAdd(callbacks: map<nat, Callback>, id: nat, c: Callback)
    ensures BeforeErase(c) && (id in callbacks ==> BeforeErase(callbacks[id])) ==>
              Departing(callbacks[id := c]) == Departing(callbacks)
    ensures id in callbacks && !BeforeErase(c) && !BeforeErase(callbacks[id]) ==>
              Departing(callbacks[id := c]) == Departing(callbacks)
    ensures id in callbacks && BeforeErase(callbacks[id]) && !BeforeErase(c) ==>
              |Departing(callbacks[id := c])| == |Departing(callbacks)| + 1
  {
    if id in callbacks && BeforeErase(callbacks[id]) && !BeforeErase(c) {
      assert Departing(callbacks[id := c]) == Departing(callbacks) + {id};
    }
  }

  lemma RegisterOwned(transfers: map<Seqnum, Args>, receiver: Receiver, callbacks: map<nat, Callback>, nextId: nat,
                      s: Seqnum)
    requires EntriesOwned(transfers, receiver, callbacks, nextId) && CallbacksTracked(transfers, callbacks, nextId)
    requires receiver.Accepted? && s !in transfers
    ensures var t := transfers[s := Args(nextId, false, 0)];
            && EntriesOwned(t, Registered(s, nextId), callbacks, nextId + 1)
            && CallbacksTracked(t, callbacks, nextId + 1) && |t| == |transfers| + 1
  {
  }

  /** Replacing an entry by one with the same identity changes no ownership. */
  lemma RemarkOwned(transfers: map<Seqnum, Args>, receiver: Receiver, callbacks: map<nat, Callback>, nextId: nat,
                    s: Seqnum, a: Args)
    requires EntriesOwned(transfers, receiver, callbacks, nextId) && CallbacksTracked(transfers, callbacks, nextId)
    requires receiver.Unlinking? && s in transfers && a.id == transfers[s].id
    ensures var t := transfers[s := a];
            EntriesOwned(t, Idle, callbacks, nextId) && CallbacksTracked(t, callbacks, nextId) && |t| == |transfers|
  {
    assert transfers[s := a].Keys == transfers.Keys;
  }

  lemma TrackedByDispatch(st: State)
    requires Tracked(st) && st.receiver.Accepted?
    ensures Tracked(Dispatch(st))
  {
    var s := st.receiver.submit.seqnum;
    if Route(st.receiver.submit).Track? && s !in st.h.transfers {
      RegisterOwned(st.h.transfers, st.receiver, st.callbacks, st.nextId, s);
    }
  }

  lemma TrackedBySubmit(st: State)
    requires Tracked(st) && st.receiver.Registered?
    ensures Tracked(st.(callbacks := st.callbacks[st.receiver.id := InFlight(st.receiver.s)], receiver := Idle))
  {
    DepartingAdd(st.callbacks, st.receiver.id, InFlight(st.receiver.s));
  }

  lemma TrackedByErase(st: State)
    requires Tracked(st) && st.receiver.Failed?
    ensures Tracked(st.(h := Unregister(st.h, st.receiver.s),
                        receiver := Replying(st.receiver.s, STATUS_EPIPE, st.receiver.disconnect)))
  {
  }

  lemma TrackedByUnlink(st: State)
    requires Tracked(st) && st.receiver.Unlinking?
    ensures Tracked(Unlink(st))
  {
    if st.receiver.target in st.h.transfers {
      var a := st.h.transfers[st.receiver.target];
      RemarkOwned(st.h.transfers, st.receiver, st.callbacks, st.nextId, st.receiver.target,
                  a.(unlinking := true, unlinkCmd := st.receiver.cmd));
    }
  }

  lemma TrackedByComplete(st: State, id: nat)
    requires Tracked(st) && id in st.callbacks && st.callbacks[id].Completing?
    ensures st.callbacks[id].s in st.h.transfers && Tracked(Complete(st, id))
  {
    DepartingAdd(st.callbacks, id, Answered);
  }

  lemma TrackedByAbort(st: State, id: nat)
    requires Tracked(st) && id in st.callbacks && st.callbacks[id].Aborting?
    ensures st.callbacks[id].s in st.h.transfers && Tracked(Abort(st, id))
  {
    DepartingAdd(st.callbacks, id, Erased);
  }

  /** A callback that moves on without crossing its erase changes nothing that is tracked. */
  lemma TrackedByMove(st: State, id: nat, c: Callback)
    requires Tracked(st) && id in st.callbacks
    requires BeforeErase(c) == BeforeErase(st.callbacks[id])
    requires BeforeErase(c) ==> c.s == st.callbacks[id].s
    ensures Tracked(st.(callbacks := st.callbacks[id := c]))
  {
    DepartingAdd(st.callbacks, id, c);
  }

  lemma TrackedByEnter(st: State, id: nat, result: TransferStatus, shortNotOk: bool)
    requires Tracked(st) && id in st.callbacks && st.callbacks[id].InFlight?
    ensures Tracked(EnterCallback(st, id, result, shortNotOk))
  {
    TrackedByMove(st, id, EnterCallback(st, id, result, shortNotOk).callbacks[id]);
  }

  lemma TrackedByDecrement(st: State, id: nat)
    requires Tracked(st) && At(st, id, Freed)
    ensures Tracked(st.(h := Decrement(st.h), callbacks := st.callbacks - {id}))
  {
    assert Departing(st.callbacks - {id}) == Departing(st.callbacks) - {id};
  }

  lemma TrackedReceiverStep(st: State, r: ReceiverEvent)
    requires Tracked(st) && ReceiverEnabled(st, r)
    ensures Tracked(ReceiverStep(st, r))
  {
    match r
    case DispatchSubmit => TrackedByDispatch(st);
    case SubmitOk => TrackedBySubmit(st);
    case EraseFailed => TrackedByErase(st);
    case UnlinkLocked => TrackedByUnlink(st);
    case _ => TrackedElsewhere(st, r);
  }

  /** The receiver moved without a table entry in hand. */
  lemma OwnedFrame(transfers: map<Seqnum, Args>, r: Receiver, r': Receiver, callbacks: map<nat, Callback>, nextId: nat)
    requires EntriesOwned(transfers, r, callbacks, nextId)
    requires !r.Registered? && !r.Failed? && !r'.Registered? && !r'.Failed?
    ensures EntriesOwned(transfers, r', callbacks, nextId)
  {
  }

  /** Steps that leave the table, the counter and the callbacks alone. */
  lemma TrackedElsewhere(st: State, r: ReceiverEvent)
    requires Tracked(st) && ReceiverEnabled(st, r)
    requires !r.DispatchSubmit? && !r.SubmitOk? && !r.EraseFailed? && !r.UnlinkLocked?
    ensures Tracked(ReceiverStep(st, r))
  {
    if r.SubmitError? {
    } else {
      OwnedFrame(st.h.transfers, st.receiver, ReceiverStep(st, r).receiver, st.callbacks, st.nextId);
    }
  }

  lemma TrackedCallbackStep(st: State, id: nat, c: CallbackEvent)
    requires Tracked(st) && CallbackEnabled(st, id, c)
    ensures Tracked(CallbackStep(st, id, c))
  {
    match c
    case Enter(result, shortNotOk) => TrackedByEnter(st, id, result, shortNotOk);
    case Locked => TrackedByComplete(st, id);
    case AbortErase => TrackedByAbort(st, id);
    case Wake => TrackedByMove(st, id, Woken);
    case Free => TrackedByMove(st, id, Freed);
    case DecrementPending => TrackedByDecrement(st, id);
  }

  lemma TrackedSenderStep(st: State, s: SenderEvent)
    requires Tracked(st) && SenderEnabled(st, s)
    ensures Tracked(SenderStep(st, s))
  {
  }

  lemma TrackedStep(st: State, e: Event)
    requires Tracked(st) && Enabled(st, e)
    ensures Tracked(Step(st, e))
  {
    match e
    case Receive(r) => TrackedReceiverStep(st, r);
    case Call(id, c) => TrackedCallbackStep(st, id, c);
    case Send(s) => TrackedSenderStep(st, s);
    case HotUnplug =>
    case RequestStop =>
  }

  /** Some producer has enqueued and not yet stored has_data. */
  ghost predicate OwesWakeup(st: State) {
    st.receiver.Waking? || exists id :: At(st, id, Answered)
  }

  /** The double buffer loses, repeats and reorders nothing until the final clear, and data never
      sits in the write buffer without a raised flag or a wakeup still to come. */
  ghost predicate Buffered(st: State) {
    && st.sender.sent <= st.past.log
    && |st.sender.hand| <= 1
    && (!st.cleared ==> st.sender.sent + st.sender.hand + Backlog(st.q) == st.past.log)
    && (st.cleared ==> st.receiver.Closed? && !st.sender.running)
    && (st.q.write != [] ==> st.q.hasData || OwesWakeup(st))
  }

  lemma BufferedPost(st: State, r: Response)
    requires Buffered(st) && !st.cleared
    ensures var p := Post(st, r);
            p.sender.sent + p.sender.hand + Backlog(p.q) == p.past.log && p.sender.sent <= p.past.log
  {
    assert st.sender.sent + st.sender.hand + (Backlog(st.q) + [r])
           == st.sender.sent + st.sender.hand + Backlog(st.q) + [r];
  }

  /** Only an open connection enqueues, so an enqueue never follows the final clear. */
  lemma BufferedByComplete(st: State, id: nat)
    requires Tracked(st) && Buffered(st) && id in st.callbacks && st.callbacks[id].Completing?
    ensures st.callbacks[id].s in st.h.transfers && Buffered(Complete(st, id))
  {
    assert st.callbacks[id].s in st.h.transfers;
    var s := st.callbacks[id].s;
    assert !st.cleared;
    BufferedPost(st, Completion(s, st.h.transfers[s], st.callbacks[id].status));
    assert At(Complete(st, id), id, Answered);
  }

  lemma BufferedByUnlink(st: State)
    requires Buffered(st) && st.receiver.Unlinking?
    ensures Buffered(Unlink(st))
  {
    BufferedPost(st, RetUnlink(st.receiver.cmd, STATUS_OK));
    OwesWakeupFrame(st, Unlink(st));
  }

  /** Whoever owed a wakeup still owes it while the callbacks stand still. */
  lemma OwesWakeupFrame(st: State, st': State)
    requires st.callbacks == st'.callbacks && (st.receiver.Waking? ==> st'.receiver.Waking?)
    ensures OwesWakeup(st) ==> OwesWakeup(st')
  {
    if OwesWakeup(st) && !st.receiver.Waking? {
      var id :| At(st, id, Answered);
      assert At(st', id, Answered);
    }
  }

  lemma OwesWakeupMove(st: State, st': State, id: nat, c: Callback)
    requires id in st.callbacks && st.callbacks[id] != Answered
    requires st'.callbacks == st.callbacks[id := c] || st'.callbacks == st.callbacks - {id}
    requires st'.receiver == st.receiver
    ensures OwesWakeup(st) ==> OwesWakeup(st')
  {
    if OwesWakeup(st) && !st.receiver.Waking? {
      var k :| At(st, k, Answered);
      assert At(st', k, Answered);
    }
  }

  lemma BufferedBySubmit(st: State)
    requires Tracked(st) && Buffered(st) && st.receiver.Registered?
    ensures Buffered(ReceiverStep(st, SubmitOk))
  {
    if OwesWakeup(st) {
      var k :| At(st, k, Answered);
      assert At(ReceiverStep(st, SubmitOk), k, Answered);
    }
  }

  lemma BufferedReceiverStep(st: State, r: ReceiverEvent)
    requires Buffered(st) && ReceiverEnabled(st, r) && !r.SubmitOk?
    ensures Buffered(ReceiverStep(st, r))
  {
    var st' := ReceiverStep(st, r);
    match r
    case UnlinkLocked => BufferedByUnlink(st);
    case EnqueueReply => BufferedPost(st, RetSubmit(st.receiver.s, st.receiver.status));
    case WakeReply =>
    case _ => OwesWakeupFrame(st, st');
  }

  lemma BufferedCallbackStep(st: State, id: nat, c: CallbackEvent)
    requires Tracked(st) && Buffered(st) && CallbackEnabled(st, id, c)
    ensures Buffered(CallbackStep(st, id, c))
  {
    var st' := CallbackStep(st, id, c);
    match c
    case Locked => BufferedByComplete(st, id);
    case Wake =>
    case DecrementPending => OwesWakeupMove(st, st', id, Freed);
    case Enter(_, _) => OwesWakeupMove(st, st', id, st'.callbacks[id]);
    case AbortErase =>
      TrackedByAbort(st, id);
      OwesWakeupMove(st, st', id, Erased);
    case Free => OwesWakeupMove(st, st', id, Freed);
  }

  lemma BufferedSenderStep(st: State, s: SenderEvent)
    requires Buffered(st) && SenderEnabled(st, s)
    ensures Buffered(SenderStep(st, s))
  {
    var st' := SenderStep(st, s);
    OwesWakeupFrame(st, st');
    match s
    case PopFront =>
      assert st.q.read == [st.q.read[0]] + st.q.read[1..];
      assert st.sender.sent + [st.q.read[0]] + (st.q.read[1..] + st.q.write)
             == st.sender.sent + [] + (st.q.read + st.q.write);
    case _ =>
  }

  lemma BufferedStep(st: State, e: Event)
    requires Tracked(st) && Buffered(st) && Enabled(st, e)
    ensures Buffered(Step(st, e))
  {
    match e
    case Receive(r) => if r.SubmitOk? { BufferedBySubmit(st); } else { BufferedReceiverStep(st, r); }
    case Call(id, c) => BufferedCallbackStep(st, id, c);
    case Send(s) => BufferedSenderStep(st, s);
    case _ => OwesWakeupFrame(st, Step(st, e));
  }

  lemma {:induction false} RunInvariant(es: seq<Event>)
    requires Exec(es).Some?
    ensures Tracked(Exec(es).value) && Buffered(Exec(es).value)
  {
    if es != [] {
      RunInvariant(es[..|es| - 1]);
      var prev := Exec(es[..|es| - 1]).value;
      TrackedStep(prev, es[|es| - 1]);
      BufferedStep(prev, es[|es| - 1]);
    }
  }

  /** A step that reads the handler's responder pointer. */
  predicate UsesResponder(st: State, e: Event)
    requires Enabled(st, e)
  {
    || e == Receive(EnqueueReply)
    || e == Receive(WakeReply)
    || (e == Receive(UnlinkLocked) && st.receiver.target !in st.h.transfers)
    || (e.Call? && (e.c.Enter? || e.c == Locked || e.c == Wake))
  }

  /** pending_count_ is exactly the table plus the callbacks still finishing; when the wait of
      on_disconnection ends the table is empty and no callback runs, and no thread ever follows
      the responder pointer after it was cleared. */
  lemma PendingCountExact(st: State)
    requires Reachable(st)
    ensures st.h.pending == |st.h.transfers| + |Departing(st.callbacks)|
    ensures (st.receiver.Draining? && st.h.pending == 0) || st.receiver.Closed? ==>
              st.h.transfers == map[] && st.callbacks == map[]
    ensures forall e :: Enabled(st, e) && UsesResponder(st, e) ==> st.h.connected
  {
    var es :| Exec(es) == Some(st);
    RunInvariant(es);
    if st.h.pending == 0 && (st.receiver.Draining? || st.receiver.Closed?) {
      assert st.h.transfers == map[];
      assert Departing(st.callbacks) == {};
      assert forall id :: id in st.callbacks ==> id in Departing(st.callbacks);
    }
  }

  /** Until the buffers are cleared, what was written, is in hand and is buffered is everything
      enqueued, in order; what was written is a prefix of it even afterwards. */
  lemma NothingLostOrReordered(st: State)
    requires Reachable(st)
    ensures st.sender.sent <= st.past.log
    ensures !st.cleared ==> st.sender.sent + st.sender.hand + st.q.read + st.q.write == st.past.log
    ensures st.q.write != [] ==> st.q.hasData || OwesWakeup(st)
  {
    var es :| Exec(es) == Some(st);
    RunInvariant(es);
  }
}
