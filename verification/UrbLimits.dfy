/**
  Concrete runs of the URB protocol that show where its promises end, and the exact conditions.
 */
module UrbLimits {
  import opened UsbIp
  import opened SendQueue
  import opened UrbHandler
  import opened UrbProtocol
  import opened UrbAnswers
  import opened UrbTheorems

  const BULK := Submit(1, Bulk, true, false, 0, 64)

  lemma ExecSnoc(es: seq<Event>, e: Event, st: State)
    requires Exec(es) == Some(st) && Enabled(st, e)
    ensures Exec(es + [e]) == Some(Step(st, e))
  {
    assert (es + [e])[..|es|] == es;
  }

  lemma ReachableSnoc(st: State, e: Event)
    requires Reachable(st) && Enabled(st, e)
    ensures Reachable(Step(st, e))
  {
    var es :| Exec(es) == Some(st);
    ExecSnoc(es, e, st);
  }

  /** Submit 1 is in flight. */
  function OneInFlight(): State {
    State(Handler(map[1 := Args(0, false, 0)], 1, false, false, true), EMPTY, Idle, map[0 := InFlight(1)], 1,
          Sender(true, [], []), false, false, History([], [CmdSubmit(1)], map[1 := Waiting], map[], map[]))
  }

  lemma ReachOneInFlight()
    ensures Reachable(OneInFlight())
  {
    assert Exec([]) == Some(INITIAL);
    ReachableSnoc(INITIAL, Receive(AcceptSubmit(BULK)));
    var s1 := Step(INITIAL, Receive(AcceptSubmit(BULK)));
    ReachableSnoc(s1, Receive(DispatchSubmit));
    var s2 := Step(s1, Receive(DispatchSubmit));
    ReachableSnoc(s2, Receive(SubmitOk));
    assert Step(s2, Receive(SubmitOk)) == OneInFlight();
  }

  /** Submit 1 is in flight and has been unlinked by commands 2 and 3. */
  function TwiceUnlinked(): State {
    State(Handler(map[1 := Args(0, true, 3)], 1, false, false, true), EMPTY, Idle, map[0 := InFlight(1)], 1,
          Sender(true, [], []), false, false,
          History([], [CmdSubmit(1), CmdUnlink(2, 1), CmdUnlink(3, 1)], map[1 := Waiting],
                  map[2 := Overwritten(1), 3 := Marked(1)], map[]))
  }

  lemma ReachTwiceUnlinked()
    ensures Reachable(TwiceUnlinked())
  {
    ReachOneInFlight();
    var s3 := OneInFlight();
    ReachableSnoc(s3, Receive(AcceptUnlink(1, 2)));
    var s4 := Step(s3, Receive(AcceptUnlink(1, 2)));
    ReachableSnoc(s4, Receive(UnlinkLocked));
    var s5 := Step(s4, Receive(UnlinkLocked));
    ReachableSnoc(s5, Receive(AcceptUnlink(1, 3)));
    var s6 := Step(s5, Receive(AcceptUnlink(1, 3)));
    ReachableSnoc(s6, Receive(UnlinkLocked));
    assert Step(s6, Receive(UnlinkLocked)) == TwiceUnlinked();
  }

  /** With two unlinks of one transfer in flight the server comes to rest with the first unlink
      unanswered, so "every unlink gets a RET_UNLINK" is false without the overwrite guard. */
  lemma DoubleUnlinkLosesReply()
    ensures exists st :: Reachable(st) && DistinctSeqnums(st.past.commands) && AtRest(st)
                         && CmdUnlink(2, 1) in st.past.commands && CountUnlinks(st.past.log, 2) == 0
  {
    var s0 := TwiceUnlinked();
    ReachTwiceUnlinked();
    ReachableSnoc(s0, Call(0, Enter(Cancelled, false)));
    var s1 := Step(s0, Call(0, Enter(Cancelled, false)));
    ReachableSnoc(s1, Call(0, Locked));
    var s2 := Step(s1, Call(0, Locked));
    ReachableSnoc(s2, Call(0, Wake));
    var s3 := Step(s2, Call(0, Wake));
    ReachableSnoc(s3, Call(0, Free));
    var s4 := Step(s3, Call(0, Free));
    ReachableSnoc(s4, Call(0, DecrementPending));
    var s5 := Step(s4, Call(0, DecrementPending));
    assert s5.past.log == [RetUnlink(3, STATUS_ECONNRESET)];
    assert CountUnlinks([RetUnlink(3, STATUS_ECONNRESET)], 2) == 0;
    assert s5.past.commands[1] == CmdUnlink(2, 1);
  }

  // ---- a wakeup that comes too late ----

  /** The sender would swap, but there is nothing to swap in. */
  predicate Spinning(st: State) {
    st.sender.running && st.sender.hand == [] && st.q == Queue([], [], true)
  }

  /** The swap leaves the raised flag alone when the write buffer is empty: exactly then the sender's
      wait returns at once, again and again. */
  lemma SpinsExactly(st: State)
    requires SenderEnabled(st, TakeOver) && !st.stop
    ensures SenderStep(st, TakeOver) == st <==> Spinning(st)
  {
  }

  /** A producer woke the sender after the sender last took data over. */
  function WokenSince(es: seq<Event>): bool {
    if es == [] then false
    else
      var front := es[..|es| - 1];
      match es[|es| - 1]
      case Receive(WakeReply) => true
      case Call(_, Wake) => true
      case Send(TakeOver) => WokenSince(front) && Exec(front).Some? && Exec(front).value.q.write == []
      case _ => WokenSince(front)
  }

  lemma {:induction false} FlagStep(st: State, e: Event)
    requires Enabled(st, e)
    ensures Step(st, e).q.hasData
            == match e
               case Receive(WakeReply) => true
               case Call(_, Wake) => true
               case Send(TakeOver) => st.q.hasData && st.q.write == []
               case _ => st.q.hasData
  {
  }

  /** In every run the flag is up exactly if a wakeup came after the sender last took data over: taking data
      over lowers it, and looking into an empty buffer does not. */
  lemma {:induction false} FlagExactly(es: seq<Event>)
    requires Exec(es).Some?
    ensures Exec(es).value.q.hasData <==> WokenSince(es)
  {
    if es != [] {
      FlagExactly(es[..|es| - 1]);
      FlagStep(Exec(es[..|es| - 1]).value, es[|es| - 1]);
    }
  }

  /** The steps that start it: a wakeup over empty buffers while the sender waits, or the end of a write
      during which a wakeup came for data already taken. */
  predicate StartsSpinning(st: State, e: Event) {
    && st.sender.running
    && match e
       case Receive(r) => r.WakeReply? && st.sender.hand == [] && st.q == EMPTY
       case Call(_, c) => c.Wake? && st.sender.hand == [] && st.q == EMPTY
       case Send(s) => s.Write? && st.sender.hand != [] && st.q == Queue([], [], true)
       case _ => false
  }

  /** In every run the sender starts to spin at exactly these steps. */
  lemma SpinStartsExactly(st: State, e: Event)
    requires Reachable(st) && Enabled(st, e) && !Spinning(st)
    ensures Spinning(Step(st, e)) <==> StartsSpinning(st, e)
  {
    match e
    case Receive(r) => SpinStartsReceiver(st, r);
    case Call(id, c) => SpinStartsCallback(st, id, c);
    case Send(_) =>
    case HotUnplug =>
    case RequestStop =>
  }

  lemma SpinStartsReceiver(st: State, r: ReceiverEvent)
    requires ReceiverEnabled(st, r) && !Spinning(st)
    ensures Spinning(ReceiverStep(st, r)) <==> StartsSpinning(st, Receive(r))
  {
  }

  lemma SpinStartsCallback(st: State, id: nat, c: CallbackEvent)
    requires CallbackEnabled(st, id, c) && !Spinning(st)
    ensures Spinning(CallbackStep(st, id, c)) <==> StartsSpinning(st, Call(id, c))
  {
  }

  /** It keeps doing so until something is enqueued or the session stops. */
  lemma SpinsUntilEnqueue(st: State, e: Event)
    requires Spinning(st) && Enabled(st, e) && e != Send(Exit) && Step(st, e).past.log == st.past.log
    ensures Spinning(Step(st, e))
  {
    match e
    case Receive(r) => SpinReceiver(st, r);
    case Call(id, c) => SpinCallback(st, id, c);
    case Send(_) =>
    case HotUnplug =>
    case RequestStop =>
  }

  lemma SpinReceiver(st: State, r: ReceiverEvent)
    requires Spinning(st) && ReceiverEnabled(st, r) && ReceiverStep(st, r).past.log == st.past.log
    ensures Spinning(ReceiverStep(st, r))
  {
  }

  lemma SpinCallback(st: State, id: nat, c: CallbackEvent)
    requires Spinning(st) && CallbackEnabled(st, id, c) && CallbackStep(st, id, c).past.log == st.past.log
    ensures Spinning(CallbackStep(st, id, c))
  {
  }

  /** Submit 1 has been answered but its callback has not woken the sender; the receiver has answered
      an unlink of an unknown number meanwhile and did wake it. */
  function TwoAnswered(): State {
    State(Handler(map[], 1, false, false, true), Queue([RetSubmit(1, STATUS_OK), RetUnlink(2, STATUS_OK)], [], true),
          Idle,
          map[0 := Answered], 1, Sender(true, [], []), false, false,
          History([RetSubmit(1, STATUS_OK), RetUnlink(2, STATUS_OK)], [CmdSubmit(1), CmdUnlink(2, 5)],
                  map[1 := BySubmit], map[2 := Late(5)], map[1 := Reported(Completed, false)]))
  }

  /** Submit 1 has been answered, its callback has not woken the sender, and nothing else has happened. */
  function OneAnswered(): State {
    State(Handler(map[], 1, false, false, true), Queue([RetSubmit(1, STATUS_OK)], [], false), Idle,
          map[0 := Answered], 1, Sender(true, [], []), false, false,
          History([RetSubmit(1, STATUS_OK)], [CmdSubmit(1)], map[1 := BySubmit], map[],
                  map[1 := Reported(Completed, false)]))
  }

  lemma ReachOneAnswered()
    ensures Reachable(OneAnswered())
  {
    ReachOneInFlight();
    var s3 := OneInFlight();
    ReachableSnoc(s3, Call(0, Enter(Completed, false)));
    var s4 := Step(s3, Call(0, Enter(Completed, false)));
    ReachableSnoc(s4, Call(0, Locked));
    assert Step(s4, Call(0, Locked)) == OneAnswered();
  }

  lemma ReachTwoAnswered()
    ensures Reachable(TwoAnswered())
  {
    ReachOneAnswered();
    var s5 := OneAnswered();
    ReachableSnoc(s5, Receive(AcceptUnlink(5, 2)));
    var s6 := Step(s5, Receive(AcceptUnlink(5, 2)));
    ReachableSnoc(s6, Receive(UnlinkLocked));
    var s7 := Step(s6, Receive(UnlinkLocked));
    ReachableSnoc(s7, Receive(WakeReply));
    assert Step(s7, Receive(WakeReply)) == TwoAnswered();
  }

  /** The sender takes both answers with one swap, and the late wakeup then makes it spin. */
  lemma LateWakeupSpins()
    ensures exists st :: Reachable(st) && Spinning(st) && !st.stop && Step(st, Send(TakeOver)) == st
  {
    ReachTwoAnswered();
    var s0 := TwoAnswered();
    ReachableSnoc(s0, Send(TakeOver));
    var s1 := Step(s0, Send(TakeOver));
    ReachableSnoc(s1, Send(PopFront));
    var s2 := Step(s1, Send(PopFront));
    ReachableSnoc(s2, Send(Write));
    var s3 := Step(s2, Send(Write));
    ReachableSnoc(s3, Send(PopFront));
    var s4 := Step(s3, Send(PopFront));
    ReachableSnoc(s4, Send(Write));
    var s5 := Step(s4, Send(Write));
    ReachableSnoc(s5, Call(0, Wake));
    var s6 := Step(s5, Call(0, Wake));
    assert Spinning(s6);
    SpinsExactly(s6);
  }
}
