/**
  What the schedule of events alone says about a state: when the device counts as removed, when the loops end,
  and that no thread is ever stuck.
 */
module UrbSchedule {
  import opened UsbIp
  import opened UrbProtocol
  import opened UrbTracking

  /** The client disconnected during this schedule. */
  function Disconnected(es: seq<Event>): bool {
    es != [] && (es[|es| - 1] == Receive(Disconnect) || Disconnected(es[..|es| - 1]))
  }

  /** libusb refused a transfer in a way that ends the session, and the reply is not out yet. */
  function Doomed(es: seq<Event>): bool {
    if es == [] then false
    else
      match es[|es| - 1]
      case Receive(SubmitError(disconnect)) => disconnect
      case Receive(WakeReply) => false
      case _ => Doomed(es[..|es| - 1])
  }

  /** The schedule shows that the device is gone: it was unplugged, a transfer reported it missing while the
      client was there, or the reply to such a refused transfer went out. */
  function Lost(es: seq<Event>): bool {
    if es == [] then false
    else
      var front := es[..|es| - 1];
      || Lost(front)
      || match es[|es| - 1]
         case HotUnplug => true
         case Call(_, Enter(result, _)) => result == NoDevice && !Disconnected(front)
         case Receive(WakeReply) => Doomed(front)
         case _ => false
  }

  /** The last thing the receiver did ended its loop: it met a submit for a device that is gone, or finished
      answering a refused transfer that ends the session. */
  function LoopEnded(es: seq<Event>): bool {
    if es == [] then false
    else
      match es[|es| - 1]
      case Receive(RejectRemoved) => true
      case Receive(WakeReply) => Doomed(es[..|es| - 1])
      case Receive(_) => false
      case _ => LoopEnded(es[..|es| - 1])
  }

  predicate OwesDisconnect(r: Receiver) { (r.Failed? || r.Replying? || r.Waking?) && r.disconnect }

  /** What the schedule shows of the flags. */
  predicate Shown(st: State, es: seq<Event>) {
    && (st.h.clientDisconnected <==> Disconnected(es))
    && (OwesDisconnect(st.receiver) <==> Doomed(es))
    && (st.h.deviceRemoved <==> Lost(es))
    && (st.receiver.Leaving? <==> LoopEnded(es))
    && (st.stop <==> RequestStop in es) && (!st.sender.running ==> st.stop)
  }

  lemma {:induction false} ShownByReceiver(st: State, es: seq<Event>, r: ReceiverEvent)
    requires Shown(st, es) && ReceiverEnabled(st, r)
    ensures Shown(ReceiverStep(st, r), es + [Receive(r)])
  {
    assert (es + [Receive(r)])[..|es|] == es;
  }

  lemma {:induction false} ShownByCallback(st: State, es: seq<Event>, id: nat, c: CallbackEvent)
    requires Shown(st, es) && CallbackEnabled(st, id, c)
    ensures Shown(CallbackStep(st, id, c), es + [Call(id, c)])
  {
    assert (es + [Call(id, c)])[..|es|] == es;
  }

  lemma {:induction false} ShownByOther(st: State, es: seq<Event>, e: Event)
    requires Shown(st, es) && Enabled(st, e) && !e.Receive?
    ensures Shown(Step(st, e), es + [e])
  {
    assert (es + [e])[..|es|] == es;
    if e.Call? { ShownByCallback(st, es, e.id, e.c); }
  }

  lemma {:induction false} RunShown(es: seq<Event>)
    requires Exec(es).Some?
    ensures Shown(Exec(es).value, es)
  {
    if es != [] {
      var front, e := es[..|es| - 1], es[|es| - 1];
      RunShown(front);
      assert front + [e] == es;
      if e.Receive? {
        ShownByReceiver(Exec(front).value, front, e.r);
      } else {
        ShownByOther(Exec(front).value, front, e);
      }
    }
  }

  /** In every run the device is flagged as removed exactly if the schedule of events shows it gone, and
      from then on no command is accepted. */
  lemma {:induction false} RemovedExactly(es: seq<Event>)
    requires Exec(es).Some?
    ensures Exec(es).value.h.deviceRemoved <==> Lost(es)
    ensures forall r: ReceiverEvent :: Lost(es) && (r.AcceptSubmit? || r.AcceptUnlink?) ==>
                                         !Enabled(Exec(es).value, Receive(r))
  {
    RunShown(es);
  }

  /** The receive loop ends on an error exactly if the schedule shows one of the two, and the sender leaves only
      after a stop was requested. */
  lemma {:induction false} LoopsEndExactly(es: seq<Event>)
    requires Exec(es).Some?
    ensures Exec(es).value.receiver.Leaving? <==> LoopEnded(es)
    ensures !Exec(es).value.sender.running ==> RequestStop in es
  {
    RunShown(es);
  }

  /** No thread is ever stuck: the receiver can go on unless it is done or waits for callbacks to finish; every
      callback can go on, and finds its transfer where it needs it; and the sender can go on unless it is done
      or waits for work. */
  lemma {:induction false} NothingStuck(st: State)
    requires Reachable(st)
    ensures st.receiver.Closed? || (st.receiver.Draining? && st.callbacks != map[])
            || exists r: ReceiverEvent :: Enabled(st, Receive(r))
    ensures forall id :: id in st.callbacks ==> exists c: CallbackEvent :: Enabled(st, Call(id, c))
    ensures forall id :: id in st.callbacks && BeforeErase(st.callbacks[id]) ==> st.callbacks[id].s in st.h.transfers
    ensures st.sender.running ==>
              || (exists s: SenderEvent :: Enabled(st, Send(s)))
              || (st.sender.hand == [] && st.q.read == [] && !st.q.hasData && !st.stop)
  {
    var es :| Exec(es) == Some(st);
    RunInvariant(es);
    ReceiverFree(st);
    forall id | id in st.callbacks ensures exists c: CallbackEvent :: Enabled(st, Call(id, c)) {
      CallbackFree(st, id);
    }
    if st.sender.running {
      assert st.stop ==> Enabled(st, Send(Exit));
      assert st.sender.hand != [] ==> Enabled(st, Send(Write));
      assert st.sender.hand == [] && st.q.read != [] ==> Enabled(st, Send(PopFront));
      assert st.sender.hand == [] && st.q.read == [] && st.q.hasData ==> Enabled(st, Send(TakeOver));
    }
  }

  lemma {:induction false} ReceiverFree(st: State)
    requires Tracked(st)
    ensures st.receiver.Closed? || (st.receiver.Draining? && st.callbacks != map[])
            || exists r: ReceiverEvent :: Enabled(st, Receive(r))
  {
    match st.receiver
    case Idle => assert Enabled(st, Receive(Disconnect));
    case Accepted(_) => assert Enabled(st, Receive(DispatchSubmit));
    case Registered(_, _) => assert Enabled(st, Receive(SubmitOk));
    case Failed(_, _) => assert Enabled(st, Receive(EraseFailed));
    case Replying(_, _, _) => assert Enabled(st, Receive(EnqueueReply));
    case Waking(_) => assert Enabled(st, Receive(WakeReply));
    case Unlinking(_, _) => assert Enabled(st, Receive(UnlinkLocked));
    case Leaving => assert Enabled(st, Receive(Disconnect));
    case Draining =>
      if st.callbacks == map[] {
        assert forall s :: s !in st.h.transfers;
        assert Departing(st.callbacks) == {};
        assert Enabled(st, Receive(Drained));
      }
    case Closed =>
  }

  lemma {:induction false} CallbackFree(st: State, id: nat)
    requires id in st.callbacks
    ensures exists c: CallbackEvent :: Enabled(st, Call(id, c))
  {
    match st.callbacks[id]
    case InFlight(_) => assert Enabled(st, Call(id, Enter(Completed, false)));
    case Completing(_, _) => assert Enabled(st, Call(id, Locked));
    case Aborting(_) => assert Enabled(st, Call(id, AbortErase));
    case Answered => assert Enabled(st, Call(id, Wake));
    case Woken => assert Enabled(st, Call(id, Free));
    case Erased => assert Enabled(st, Call(id, Free));
    case Freed => assert Enabled(st, Call(id, DecrementPending));
  }
}
