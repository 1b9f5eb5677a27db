/**
  How many RET_SUBMITs and RET_UNLINKs a sequence number can get, whatever numbers the client chooses.
 */
module UrbCounts {
  import opened UsbIp
  import opened UrbHandler
  import opened UrbProtocol
  import opened UrbTracking
  import opened UrbAnswers

  /** How many accepted submits carry this number. */
  function SubmitsWith(commands: seq<Command>, s: Seqnum): nat {
    if commands == [] then 0
    else
      var n := |commands| - 1;
      SubmitsWith(commands[..n], s) + if commands[n] == CmdSubmit(s) then 1 else 0
  }

  /** Answers still to come for this number: its table entry, and a reply the receiver owes. */
  function ToCome(transfers: map<Seqnum, Args>, owed: Option<Seqnum>, s: Seqnum): nat {
    (if s in transfers then 1 else 0) + if owed == Some(s) then 1 else 0
  }

  /** Every RET_SUBMIT, queued or still to come, belongs to a submit of its own. */
  ghost predicate Covered(commands: seq<Command>, log: seq<Response>, transfers: map<Seqnum, Args>,
                          owed: Option<Seqnum>) {
    forall s: Seqnum :: CountSubmits(log, s) + ToCome(transfers, owed, s) <= SubmitsWith(commands, s)
  }

  ghost predicate CoveredIn(st: State) {
    Covered(st.past.commands, st.past.log, st.h.transfers, Owed(st.receiver))
  }

  lemma {:induction false} SubmitsSnoc(commands: seq<Command>, x: Command)
    ensures forall s: Seqnum ::
              SubmitsWith(commands + [x], s) == SubmitsWith(commands, s) + if x == CmdSubmit(s) then 1 else 0
  {
    assert (commands + [x])[..|commands|] == commands;
  }

  lemma {:induction false} CoveredByAccept(st: State, x: Command, receiver: Receiver)
    requires CoveredIn(st) && Owed(st.receiver).None?
    requires Owed(receiver) == (if x.CmdSubmit? then Some(x.seqnum) else None)
    ensures Covered(st.past.commands + [x], st.past.log, st.h.transfers, Owed(receiver))
  {
    SubmitsSnoc(st.past.commands, x);
  }

  /** The receiver's own answers: the owed RET_SUBMIT, or a RET_UNLINK. */
  lemma {:induction false} CoveredByReply(st: State, r: ReceiverEvent)
    requires CoveredIn(st) && ReceiverEnabled(st, r) && (r.EnqueueReply? || r.UnlinkLocked?)
    ensures CoveredIn(ReceiverStep(st, r))
  {
    if r.EnqueueReply? {
      CountAppend(st.past.log, RetSubmit(st.receiver.s, st.receiver.status));
    } else {
      CountAppend(st.past.log, RetUnlink(st.receiver.cmd, STATUS_OK));
    }
  }

  lemma {:induction false} CoveredQuietly(st: State, r: ReceiverEvent)
    requires CoveredIn(st) && ReceiverEnabled(st, r) && (st.receiver.Failed? ==> st.receiver.s in st.h.transfers)
    requires !r.AcceptSubmit? && !r.AcceptUnlink? && !r.EnqueueReply? && !r.UnlinkLocked?
    ensures CoveredIn(ReceiverStep(st, r))
  {
  }

  lemma {:induction false} CoveredReceiverStep(st: State, r: ReceiverEvent)
    requires CoveredIn(st) && ReceiverEnabled(st, r) && (st.receiver.Failed? ==> st.receiver.s in st.h.transfers)
    ensures CoveredIn(ReceiverStep(st, r))
  {
    match r
    case AcceptSubmit(c) => CoveredByAccept(st, CmdSubmit(c.seqnum), Accepted(c));
    case AcceptUnlink(target, cmd) => CoveredByAccept(st, CmdUnlink(cmd, target), Unlinking(target, cmd));
    case EnqueueReply => CoveredByReply(st, r);
    case UnlinkLocked => CoveredByReply(st, r);
    case _ => CoveredQuietly(st, r);
  }

  lemma {:induction false} CoveredCallbackStep(st: State, id: nat, c: CallbackEvent)
    requires CoveredIn(st) && CallbackEnabled(st, id, c)
    ensures CoveredIn(CallbackStep(st, id, c))
  {
    if c.Locked? && st.callbacks[id].s in st.h.transfers {
      var s := st.callbacks[id].s;
      CountAppend(st.past.log, Completion(s, st.h.transfers[s], st.callbacks[id].status));
    }
  }

  lemma {:induction false} CoveredStep(st: State, e: Event)
    requires Tracked(st) && CoveredIn(st) && Enabled(st, e)
    ensures CoveredIn(Step(st, e))
  {
    match e
    case Receive(r) => CoveredReceiverStep(st, r);
    case Call(id, c) => CoveredCallbackStep(st, id, c);
    case Send(_) =>
    case HotUnplug =>
    case RequestStop =>
  }

  // ---- unlinks ----

  /** How many accepted unlinks carry this number. */
  function UnlinksWith(commands: seq<Command>, c: Seqnum): nat {
    if commands == [] then 0
    else
      var x := commands[|commands| - 1];
      UnlinksWith(commands[..|commands| - 1], c) + if x.CmdUnlink? && x.seqnum == c then 1 else 0
  }

  /** The transfers in flight that the unlink with this number has marked. */
  function Marks(transfers: map<Seqnum, Args>, c: Seqnum): set<Seqnum> {
    set s | s in transfers && transfers[s].unlinking && transfers[s].unlinkCmd == c
  }

  /** Every RET_UNLINK, queued or still to come, belongs to an unlink of its own. */
  ghost predicate Matched(commands: seq<Command>, log: seq<Response>, transfers: map<Seqnum, Args>,
                          todo: Option<Command>) {
    forall c: Seqnum ::
      CountUnlinks(log, c) + |Marks(transfers, c)| + (if todo.Some? && todo.value.seqnum == c then 1 else 0)
      <= UnlinksWith(commands, c)
  }

  ghost predicate MatchedIn(st: State) {
    Matched(st.past.commands, st.past.log, st.h.transfers, Unprocessed(st.receiver))
  }

  lemma {:induction false} UnlinksSnoc(commands: seq<Command>, x: Command)
    ensures forall c: Seqnum ::
              UnlinksWith(commands + [x], c)
              == UnlinksWith(commands, c) + if x.CmdUnlink? && x.seqnum == c then 1 else 0
  {
    assert (commands + [x])[..|commands|] == commands;
  }

  lemma {:induction false} MarksRemove(transfers: map<Seqnum, Args>, s: Seqnum, c: Seqnum)
    ensures Marks(transfers - {s}, c) == Marks(transfers, c) - {s}
    ensures |Marks(transfers - {s}, c)| == |Marks(transfers, c)| - if s in Marks(transfers, c) then 1 else 0
  {
  }

  lemma {:induction false} MarksUpdate(transfers: map<Seqnum, Args>, s: Seqnum, a: Args, c: Seqnum)
    ensures |Marks(transfers[s := a], c)|
            == |Marks(transfers, c) - {s}| + if a.unlinking && a.unlinkCmd == c then 1 else 0
  {
    var m := Marks(transfers, c) - {s};
    assert Marks(transfers[s := a], c) == if a.unlinking && a.unlinkCmd == c then m + {s} else m;
  }

  lemma {:induction false} MatchedByAccept(st: State, x: Command, todo: Option<Command>)
    requires MatchedIn(st) && Unprocessed(st.receiver).None? && todo == (if x.CmdUnlink? then Some(x) else None)
    ensures Matched(st.past.commands + [x], st.past.log, st.h.transfers, todo)
  {
    UnlinksSnoc(st.past.commands, x);
  }

  lemma {:induction false} MatchedByDispatch(st: State)
    requires MatchedIn(st) && st.receiver.Accepted?
    ensures MatchedIn(Dispatch(st))
  {
    var s := st.receiver.submit.seqnum;
    forall c: Seqnum
      ensures s !in st.h.transfers ==>
                |Marks(st.h.transfers[s := Args(st.nextId, false, 0)], c)| == |Marks(st.h.transfers, c)|
    {
      MarksUpdate(st.h.transfers, s, Args(st.nextId, false, 0), c);
      if s !in st.h.transfers {
        assert Marks(st.h.transfers, c) - {s} == Marks(st.h.transfers, c);
      }
    }
  }

  lemma {:induction false} MatchedByErase(st: State)
    requires MatchedIn(st) && st.receiver.Failed?
    ensures MatchedIn(ReceiverStep(st, EraseFailed))
  {
    forall c: Seqnum ensures |Marks(st.h.transfers - {st.receiver.s}, c)| <= |Marks(st.h.transfers, c)| {
      MarksRemove(st.h.transfers, st.receiver.s, c);
    }
  }

  lemma {:induction false} MatchedByUnlink(st: State)
    requires MatchedIn(st) && st.receiver.Unlinking?
    ensures MatchedIn(Unlink(st))
  {
    var target, cmd := st.receiver.target, st.receiver.cmd;
    if target in st.h.transfers {
      var a := st.h.transfers[target].(unlinking := true, unlinkCmd := cmd);
      forall c: Seqnum
        ensures |Marks(st.h.transfers[target := a], c)| <= |Marks(st.h.transfers, c)| + if c == cmd then 1 else 0
      {
        MarksUpdate(st.h.transfers, target, a, c);
      }
    } else {
      CountAppend(st.past.log, RetUnlink(cmd, STATUS_OK));
    }
  }

  lemma {:induction false} MatchedReceiverStep(st: State, r: ReceiverEvent)
    requires MatchedIn(st) && ReceiverEnabled(st, r)
    ensures MatchedIn(ReceiverStep(st, r))
  {
    match r
    case AcceptSubmit(c) => MatchedByAccept(st, CmdSubmit(c.seqnum), None);
    case AcceptUnlink(target, cmd) => MatchedByAccept(st, CmdUnlink(cmd, target), Some(CmdUnlink(cmd, target)));
    case DispatchSubmit => MatchedByDispatch(st);
    case EraseFailed => MatchedByErase(st);
    case EnqueueReply => CountAppend(st.past.log, RetSubmit(st.receiver.s, st.receiver.status));
    case UnlinkLocked => MatchedByUnlink(st);
    case _ =>
  }

  lemma {:induction false} MatchedByComplete(st: State, id: nat)
    requires MatchedIn(st) && id in st.callbacks && st.callbacks[id].Completing?
    requires st.callbacks[id].s in st.h.transfers
    ensures MatchedIn(Complete(st, id))
  {
    var s := st.callbacks[id].s;
    CountAppend(st.past.log, Completion(s, st.h.transfers[s], st.callbacks[id].status));
    forall c: Seqnum
      ensures |Marks(st.h.transfers - {s}, c)|
              == |Marks(st.h.transfers, c)| - if s in Marks(st.h.transfers, c) then 1 else 0
    {
      MarksRemove(st.h.transfers, s, c);
    }
  }

  lemma {:induction false} MatchedByAbort(st: State, id: nat)
    requires MatchedIn(st) && id in st.callbacks && st.callbacks[id].Aborting?
    requires st.callbacks[id].s in st.h.transfers
    ensures MatchedIn(Abort(st, id))
  {
    var s := st.callbacks[id].s;
    forall c: Seqnum ensures |Marks(st.h.transfers - {s}, c)| <= |Marks(st.h.transfers, c)| {
      MarksRemove(st.h.transfers, s, c);
    }
  }

  lemma {:induction false} MatchedCallbackStep(st: State, id: nat, c: CallbackEvent)
    requires MatchedIn(st) && CallbackEnabled(st, id, c)
    ensures MatchedIn(CallbackStep(st, id, c))
  {
    match c
    case Locked => if st.callbacks[id].s in st.h.transfers { MatchedByComplete(st, id); }
    case AbortErase => if st.callbacks[id].s in st.h.transfers { MatchedByAbort(st, id); }
    case _ =>
  }

  lemma {:induction false} MatchedStep(st: State, e: Event)
    requires MatchedIn(st) && Enabled(st, e)
    ensures MatchedIn(Step(st, e))
  {
    match e
    case Receive(r) => MatchedReceiverStep(st, r);
    case Call(id, c) => MatchedCallbackStep(st, id, c);
    case Send(_) =>
    case HotUnplug =>
    case RequestStop =>
  }

  // ---- all runs ----

  lemma {:induction false} RunCovered(es: seq<Event>)
    requires Exec(es).Some?
    ensures CoveredIn(Exec(es).value) && MatchedIn(Exec(es).value)
  {
    if es == [] {
      assert forall c: Seqnum :: Marks(map[], c) == {};
    } else {
      var prev := Exec(es[..|es| - 1]).value;
      RunCovered(es[..|es| - 1]);
      RunInvariant(es[..|es| - 1]);
      CoveredStep(prev, es[|es| - 1]);
      MatchedStep(prev, es[|es| - 1]);
    }
  }

  /** A number never gets more RET_SUBMITs than submits with it were accepted, nor more RET_UNLINKs than
      unlinks, however the client numbers its commands. */
  lemma {:induction false} NeverOveranswered(st: State, x: Seqnum)
    requires Reachable(st)
    ensures CountSubmits(st.sender.sent, x) <= CountSubmits(st.past.log, x) <= SubmitsWith(st.past.commands, x)
    ensures CountUnlinks(st.sender.sent, x) <= CountUnlinks(st.past.log, x) <= UnlinksWith(st.past.commands, x)
  {
    var es :| Exec(es) == Some(st);
    RunCovered(es);
    RunInvariant(es);
    CountPrefix(st.sender.sent, st.past.log, x);
  }

  /** No two submits share a number; unlinks may be numbered in any way. */
  ghost predicate DistinctSubmits(commands: seq<Command>) {
    forall i, j :: 0 <= i < j < |commands| && commands[i].CmdSubmit? ==> !Clash(commands[i], commands[j])
  }

  /** No two unlinks share a number; submits may be numbered in any way. */
  ghost predicate DistinctUnlinks(commands: seq<Command>) {
    forall i, j :: 0 <= i < j < |commands| && commands[i].CmdUnlink? ==> !Clash(commands[i], commands[j])
  }

  lemma {:induction false} SubmitsWithPositive(commands: seq<Command>, s: Seqnum)
    requires SubmitsWith(commands, s) > 0
    ensures exists i :: 0 <= i < |commands| && commands[i] == CmdSubmit(s)
  {
    var n := |commands| - 1;
    if commands[n] != CmdSubmit(s) {
      SubmitsWithPositive(commands[..n], s);
      var i :| 0 <= i < n && commands[..n][i] == CmdSubmit(s);
      assert commands[i] == CmdSubmit(s);
    }
  }

  lemma {:induction false} UnlinksWithPositive(commands: seq<Command>, c: Seqnum)
    requires UnlinksWith(commands, c) > 0
    ensures exists i :: 0 <= i < |commands| && commands[i].CmdUnlink? && commands[i].seqnum == c
  {
    var n := |commands| - 1;
    if !(commands[n].CmdUnlink? && commands[n].seqnum == c) {
      UnlinksWithPositive(commands[..n], c);
      var i :| 0 <= i < n && commands[..n][i].CmdUnlink? && commands[..n][i].seqnum == c;
      assert commands[i] == commands[..n][i];
    }
  }

  lemma {:induction false} DistinctCount(commands: seq<Command>, x: Seqnum)
    ensures DistinctSubmits(commands) ==> SubmitsWith(commands, x) <= 1
    ensures DistinctUnlinks(commands) ==> UnlinksWith(commands, x) <= 1
  {
    if commands != [] {
      var n := |commands| - 1;
      var front := commands[..n];
      DistinctCount(front, x);
      assert forall i :: 0 <= i < n ==> front[i] == commands[i];
      if SubmitsWith(front, x) > 0 {
        SubmitsWithPositive(front, x);
      }
      if UnlinksWith(front, x) > 0 {
        UnlinksWithPositive(front, x);
      }
    }
  }

  /** At most one RET_SUBMIT per number if submit numbers are distinct, and at most one RET_UNLINK if
      unlink numbers are. */
  lemma {:induction false} AnsweredAtMostOnce(st: State, x: Seqnum)
    requires Reachable(st)
    ensures DistinctSubmits(st.past.commands) ==> CountSubmits(st.sender.sent, x) <= CountSubmits(st.past.log, x) <= 1
    ensures DistinctUnlinks(st.past.commands) ==> CountUnlinks(st.sender.sent, x) <= CountUnlinks(st.past.log, x) <= 1
  {
    NeverOveranswered(st, x);
    DistinctCount(st.past.commands, x);
  }
}
