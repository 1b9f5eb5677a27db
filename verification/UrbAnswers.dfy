/**
  How every submit and unlink is answered, for clients that number their commands distinctly.
 */
module UrbAnswers {
  import opened UsbIp
  import opened UrbHandler
  import opened UrbProtocol

  /** Two submits, or two unlinks, with the same sequence number. */
  predicate Clash(x: Command, y: Command) { x.seqnum == y.seqnum && x.CmdSubmit? == y.CmdSubmit? }

  /** The client's side of the contract: no two submits share a number, and no two unlinks do. */
  ghost predicate DistinctSeqnums(commands: seq<Command>) {
    forall i, j :: 0 <= i < j < |commands| ==> !Clash(commands[i], commands[j])
  }

  /** Submit s was accepted before the unlink c that names it. */
  ghost predicate Precedes(commands: seq<Command>, s: Seqnum, c: Seqnum) {
    exists i, j :: 0 <= i < j < |commands| && commands[i] == CmdSubmit(s) && commands[j] == CmdUnlink(c, s)
  }

  /** The submit whose RET_SUBMIT the receiver itself still has to queue. */
  function Owed(r: Receiver): Option<Seqnum> {
    if r.Accepted? then Some(r.submit.seqnum) else if r.Replying? then Some(r.s) else None
  }

  /** The unlink accepted but not yet through its lock region. */
  function Unprocessed(r: Receiver): Option<Command> {
    if r.Unlinking? then Some(CmdUnlink(r.cmd, r.target)) else None
  }

  ghost predicate SubmitsKnown(commands: seq<Command>, sf: map<Seqnum, SubmitFate>) {
    forall s :: s in sf <==> CmdSubmit(s) in commands
  }

  ghost predicate UnlinksKnown(commands: seq<Command>, uf: map<Seqnum, UnlinkFate>, todo: Option<Command>) {
    && (forall c :: c in uf ==> CmdUnlink(c, uf[c].target) in commands)
    && (forall c, t :: CmdUnlink(c, t) in commands ==> c in uf || todo == Some(CmdUnlink(c, t)))
    && (todo.Some? ==> commands != [] && commands[|commands| - 1] == todo.value && todo.value.seqnum !in uf)
  }

  /** A submit waits exactly while it is in the table or the receiver owes its reply. */
  ghost predicate WaitingExact(sf: map<Seqnum, SubmitFate>, transfers: map<Seqnum, Args>, owed: Option<Seqnum>) {
    && (forall s :: s in transfers || owed == Some(s) <==> s in sf && sf[s].Waiting?)
    && (owed.Some? ==> owed.value !in transfers)
  }

  /** Marked unlinks and marked table entries correspond one to one. */
  ghost predicate MarksAgree(uf: map<Seqnum, UnlinkFate>, transfers: map<Seqnum, Args>) {
    && (forall s :: s in transfers && transfers[s].unlinking ==>
          transfers[s].unlinkCmd in uf && uf[transfers[s].unlinkCmd] == Marked(s))
    && (forall c :: c in uf && uf[c].Marked? ==>
          uf[c].target in transfers && transfers[uf[c].target].unlinking && transfers[uf[c].target].unlinkCmd == c)
  }

  /** A submit that an unlink found in flight never gets a RET_SUBMIT: it stays marked as long as
      it waits, and then ends otherwise. */
  ghost predicate Found(sf: map<Seqnum, SubmitFate>, uf: map<Seqnum, UnlinkFate>, transfers: map<Seqnum, Args>) {
    forall c :: c in uf && !uf[c].Late? ==>
      && uf[c].target in sf
      && !sf[uf[c].target].BySubmit?
      && (uf[c].Confirmed? ==> sf[uf[c].target] == ByUnlink(c))
      && (sf[uf[c].target].Waiting? ==> uf[c].target in transfers && transfers[uf[c].target].unlinking)
  }

  predicate Replied(f: UnlinkFate) { f.Late? || f.Confirmed? }

  ghost predicate CountsExact(sf: map<Seqnum, SubmitFate>, uf: map<Seqnum, UnlinkFate>, log: seq<Response>) {
    && (forall s: Seqnum :: CountSubmits(log, s) == if s in sf && sf[s].BySubmit? then 1 else 0)
    && (forall c: Seqnum :: CountUnlinks(log, c) == if c in uf && Replied(uf[c]) then 1 else 0)
  }

  ghost predicate UnlinkAnswers(commands: seq<Command>, sf: map<Seqnum, SubmitFate>, uf: map<Seqnum, UnlinkFate>) {
    && (forall s :: s in sf && sf[s].ByUnlink? ==> sf[s].cmd in uf && uf[sf[s].cmd] == Confirmed(s))
    && (forall c :: c in uf && uf[c].Overwritten? ==> Displaced(commands, c))
    && (forall s, c :: Precedes(commands, s, c) && s in sf && sf[s].Waiting? && c in uf ==> !Replied(uf[c]))
  }

  /** A later unlink named the same transfer as c. */
  ghost predicate Displaced(commands: seq<Command>, c: Seqnum) {
    exists i, j :: 0 <= i < j < |commands| && commands[i].CmdUnlink? && commands[j].CmdUnlink?
      && commands[i].seqnum == c && commands[j].target == commands[i].target
  }

  ghost predicate GivenUpOnlyAfterDisconnect(sf: map<Seqnum, SubmitFate>, uf: map<Seqnum, UnlinkFate>,
                                             disconnected: bool) {
    && (forall s :: s in sf && sf[s].Dropped? ==> disconnected)
    && (forall c :: c in uf && uf[c].Abandoned? ==> disconnected)
  }

  /** RET_SUBMIT comes before the RET_UNLINK of a later unlink, which then reports success. */
  ghost predicate Ordered(commands: seq<Command>, log: seq<Response>) {
    forall s, c, i, j ::
      Precedes(commands, s, c) && 0 <= i < |log| && 0 <= j < |log|
      && log[i].RetSubmit? && log[i].seqnum == s && log[j].RetUnlink? && log[j].seqnum == c
      ==> i < j && log[j].status == STATUS_OK
  }

  /** The receiver cannot have unlinked a transfer it is still submitting, and callbacks take the
      abort path only after the disconnect flag. */
  ghost predicate ThreadsAgree(transfers: map<Seqnum, Args>, disconnected: bool, receiver: Receiver,
                               callbacks: map<nat, Callback>) {
    && ((receiver.Registered? || receiver.Failed?) && receiver.s in transfers ==> !transfers[receiver.s].unlinking)
    && (forall id :: id in callbacks && callbacks[id].Aborting? ==> disconnected)
  }

  /** Which commands are outstanding, and where. */
  ghost predicate Outstanding(st: State) {
    && ThreadsAgree(st.h.transfers, st.h.clientDisconnected, st.receiver, st.callbacks)
    && SubmitsKnown(st.past.commands, st.past.submits)
    && UnlinksKnown(st.past.commands, st.past.unlinks, Unprocessed(st.receiver))
    && WaitingExact(st.past.submits, st.h.transfers, Owed(st.receiver))
    && MarksAgree(st.past.unlinks, st.h.transfers)
  }

  /** What has been queued for the commands that are not. */
  ghost predicate Verdicts(st: State) {
    && CountsExact(st.past.submits, st.past.unlinks, st.past.log)
    && UnlinkAnswers(st.past.commands, st.past.submits, st.past.unlinks)
    && GivenUpOnlyAfterDisconnect(st.past.submits, st.past.unlinks, st.h.clientDisconnected)
    && Ordered(st.past.commands, st.past.log)
  }

  ghost predicate Answers(st: State) {
    Outstanding(st) && Verdicts(st) && Found(st.past.submits, st.past.unlinks, st.h.transfers)
  }

  // ---- growth of the command history ----

  lemma PrecedesGrow(commands: seq<Command>, x: Command, s: Seqnum, c: Seqnum)
    requires DistinctSeqnums(commands + [x])
    ensures Precedes(commands, s, c) ==> Precedes(commands + [x], s, c)
    ensures Precedes(commands + [x], s, c) ==>
              Precedes(commands, s, c) || (x == CmdUnlink(c, s) && CmdSubmit(s) in commands)
  {
    var cs := commands + [x];
    if Precedes(commands, s, c) {
      var i, j :| 0 <= i < j < |commands| && commands[i] == CmdSubmit(s) && commands[j] == CmdUnlink(c, s);
      assert cs[i] == CmdSubmit(s) && cs[j] == CmdUnlink(c, s);
    }
    if Precedes(cs, s, c) {
      var i, j :| 0 <= i < j < |cs| && cs[i] == CmdSubmit(s) && cs[j] == CmdUnlink(c, s);
      assert commands[i] == CmdSubmit(s);
    }
  }

  lemma DisplacedGrow(commands: seq<Command>, x: Command, c: Seqnum)
    requires Displaced(commands, c)
    ensures Displaced(commands + [x], c)
  {
    var i, j :| 0 <= i < j < |commands| && commands[i].CmdUnlink? && commands[j].CmdUnlink?
      && commands[i].seqnum == c && commands[j].target == commands[i].target;
    var cs := commands + [x];
    assert cs[i] == commands[i] && cs[j] == commands[j];
  }

  lemma Fresh(commands: seq<Command>, x: Command)
    requires DistinctSeqnums(commands + [x])
    ensures DistinctSeqnums(commands)
    ensures forall y :: y in commands ==> !Clash(y, x)
  {
    var cs := commands + [x];
    forall i, j | 0 <= i < j < |commands| ensures !Clash(commands[i], commands[j]) {
      assert cs[i] == commands[i] && cs[j] == commands[j];
    }
    forall y | y in commands ensures !Clash(y, x) {
      var i :| 0 <= i < |commands| && commands[i] == y;
      assert cs[i] == y && cs[|commands|] == x;
    }
  }

  lemma PrecedesIn(commands: seq<Command>, s: Seqnum, c: Seqnum)
    requires Precedes(commands, s, c)
    ensures CmdSubmit(s) in commands && CmdUnlink(c, s) in commands
  {
  }

  // ---- growth of the response log ----

  /** Appending RET_SUBMIT(s) keeps the order if no unlink of s that came later has been answered. */
  lemma OrderedSubmit(commands: seq<Command>, log: seq<Response>, s: Seqnum, status: int)
    requires Ordered(commands, log)
    requires forall c :: Precedes(commands, s, c) ==> CountUnlinks(log, c) == 0
    ensures Ordered(commands, log + [RetSubmit(s, status)])
  {
    var log' := log + [RetSubmit(s, status)];
    forall s', c, i, j |
      Precedes(commands, s', c) && 0 <= i < |log'| && 0 <= j < |log'|
      && log'[i].RetSubmit? && log'[i].seqnum == s' && log'[j].RetUnlink? && log'[j].seqnum == c
      ensures i < j && log'[j].status == STATUS_OK
    {
      CountPositive(log, j);
      assert log'[j] == log[j];
      if i < |log| { assert log'[i] == log[i]; }
    }
  }

  /** Appending RET_UNLINK(c) keeps the order if it reports success, or if the transfer it names
      got no RET_SUBMIT. */
  lemma OrderedUnlink(commands: seq<Command>, log: seq<Response>, c: Seqnum, status: int)
    requires Ordered(commands, log)
    requires forall s :: Precedes(commands, s, c) && CountSubmits(log, s) > 0 ==> status == STATUS_OK
    ensures Ordered(commands, log + [RetUnlink(c, status)])
  {
    var log' := log + [RetUnlink(c, status)];
    forall s, c', i, j |
      Precedes(commands, s, c') && 0 <= i < |log'| && 0 <= j < |log'|
      && log'[i].RetSubmit? && log'[i].seqnum == s && log'[j].RetUnlink? && log'[j].seqnum == c'
      ensures i < j && log'[j].status == STATUS_OK
    {
      assert log'[i] == log[i];
      CountPositive(log, i);
      if j < |log| { assert log'[j] == log[j]; }
    }
  }

  lemma OrderedGrow(commands: seq<Command>, x: Command, log: seq<Response>)
    requires Ordered(commands, log) && DistinctSeqnums(commands + [x])
    requires x.CmdUnlink? ==> CountUnlinks(log, x.seqnum) == 0
    ensures Ordered(commands + [x], log)
  {
    forall s, c, i, j |
      Precedes(commands + [x], s, c) && 0 <= i < |log| && 0 <= j < |log|
      && log[i].RetSubmit? && log[i].seqnum == s && log[j].RetUnlink? && log[j].seqnum == c
      ensures i < j && log[j].status == STATUS_OK
    {
      PrecedesGrow(commands, x, s, c);
      CountPositive(log, j);
    }
  }

  // ---- the steps that touch the bookkeeping ----

  lemma UnlinkAnswersGrow(commands: seq<Command>, x: Command, sf: map<Seqnum, SubmitFate>, uf: map<Seqnum, UnlinkFate>)
    requires UnlinkAnswers(commands, sf, uf) && DistinctSeqnums(commands + [x])
    requires x.CmdUnlink? ==> x.seqnum !in uf
    ensures UnlinkAnswers(commands + [x], sf, uf)
  {
    forall c | c in uf && uf[c].Overwritten? ensures Displaced(commands + [x], c) {
      DisplacedGrow(commands, x, c);
    }
    forall s, c | Precedes(commands + [x], s, c) && s in sf && sf[s].Waiting? && c in uf
      ensures !Replied(uf[c])
    {
      PrecedesGrow(commands, x, s, c);
    }
  }

  /** A submit nobody named before starts to wait. */
  lemma StartWaiting(commands: seq<Command>, sf: map<Seqnum, SubmitFate>, transfers: map<Seqnum, Args>, s: Seqnum)
    requires SubmitsKnown(commands, sf) && WaitingExact(sf, transfers, None)
    requires DistinctSeqnums(commands + [CmdSubmit(s)])
    ensures SubmitsKnown(commands + [CmdSubmit(s)], sf[s := Waiting])
    ensures WaitingExact(sf[s := Waiting], transfers, Some(s))
  {
    Fresh(commands, CmdSubmit(s));
    assert Clash(CmdSubmit(s), CmdSubmit(s));
  }

  lemma StartWaitingAnswers(commands: seq<Command>, sf: map<Seqnum, SubmitFate>, uf: map<Seqnum, UnlinkFate>, s: Seqnum)
    requires SubmitsKnown(commands, sf) && UnlinkAnswers(commands, sf, uf)
    requires DistinctSeqnums(commands + [CmdSubmit(s)])
    ensures UnlinkAnswers(commands + [CmdSubmit(s)], sf[s := Waiting], uf)
  {
    var x := CmdSubmit(s);
    Fresh(commands, x);
    UnlinkAnswersGrow(commands, x, sf, uf);
    forall s', k | Precedes(commands + [x], s', k) ensures s' != s {
      PrecedesGrow(commands, x, s', k);
      if Precedes(commands, s', k) { PrecedesIn(commands, s', k); }
    }
  }

  lemma OutstandingByAcceptSubmit(st: State, c: Submit)
    requires Outstanding(st) && ReceiverEnabled(st, AcceptSubmit(c))
    requires DistinctSeqnums(st.past.commands + [CmdSubmit(c.seqnum)])
    ensures Outstanding(ReceiverStep(st, AcceptSubmit(c)))
  {
    StartWaiting(st.past.commands, st.past.submits, st.h.transfers, c.seqnum);
  }

  lemma VerdictsByAcceptSubmit(st: State, c: Submit)
    requires Verdicts(st) && ReceiverEnabled(st, AcceptSubmit(c)) && SubmitsKnown(st.past.commands, st.past.submits)
    requires DistinctSeqnums(st.past.commands + [CmdSubmit(c.seqnum)])
    ensures Verdicts(ReceiverStep(st, AcceptSubmit(c)))
  {
    Fresh(st.past.commands, CmdSubmit(c.seqnum));
    StartWaitingAnswers(st.past.commands, st.past.submits, st.past.unlinks, c.seqnum);
    OrderedGrow(st.past.commands, CmdSubmit(c.seqnum), st.past.log);
  }

  lemma OutstandingByAcceptUnlink(st: State, target: Seqnum, cmd: Seqnum)
    requires Outstanding(st) && ReceiverEnabled(st, AcceptUnlink(target, cmd))
    requires DistinctSeqnums(st.past.commands + [CmdUnlink(cmd, target)])
    ensures Outstanding(ReceiverStep(st, AcceptUnlink(target, cmd)))
  {
    Fresh(st.past.commands, CmdUnlink(cmd, target));
  }

  lemma VerdictsByAcceptUnlink(st: State, target: Seqnum, cmd: Seqnum)
    requires Verdicts(st) && ReceiverEnabled(st, AcceptUnlink(target, cmd))
    requires DistinctSeqnums(st.past.commands + [CmdUnlink(cmd, target)])
    requires UnlinksKnown(st.past.commands, st.past.unlinks, None)
    ensures Verdicts(ReceiverStep(st, AcceptUnlink(target, cmd)))
  {
    var x := CmdUnlink(cmd, target);
    Fresh(st.past.commands, x);
    UnlinkAnswersGrow(st.past.commands, x, st.past.submits, st.past.unlinks);
    OrderedGrow(st.past.commands, x, st.past.log);
  }

  lemma OutstandingByDispatch(st: State)
    requires Outstanding(st) && st.receiver.Accepted?
    ensures Outstanding(Dispatch(st))
  {
  }

  lemma FoundByDispatch(st: State)
    requires Found(st.past.submits, st.past.unlinks, st.h.transfers) && st.receiver.Accepted?
    ensures Found(st.past.submits, st.past.unlinks, Dispatch(st).h.transfers)
  {
  }

  lemma OutstandingByErase(st: State)
    requires Outstanding(st) && st.receiver.Failed? && st.receiver.s in st.h.transfers
    ensures Outstanding(ReceiverStep(st, EraseFailed))
  {
  }

  lemma OutstandingByReply(st: State)
    requires Outstanding(st) && st.receiver.Replying?
    ensures Outstanding(Reply(st))
  {
  }

  lemma VerdictsByReply(st: State)
    requires Verdicts(st) && st.receiver.Replying?
    requires st.receiver.s in st.past.submits && st.past.submits[st.receiver.s].Waiting?
    ensures Verdicts(Reply(st))
  {
    ReplyCounts(st.past.commands, st.past.submits, st.past.unlinks, st.past.log, st.receiver.s, st.receiver.status);
  }

  /** A RET_SUBMIT for a waiting submit settles it. */
  lemma ReplyCounts(commands: seq<Command>, sf: map<Seqnum, SubmitFate>, uf: map<Seqnum, UnlinkFate>,
                    log: seq<Response>, s: Seqnum, status: int)
    requires CountsExact(sf, uf, log) && Ordered(commands, log) && UnlinkAnswers(commands, sf, uf)
    requires s in sf && sf[s].Waiting?
    ensures CountsExact(sf[s := BySubmit], uf, log + [RetSubmit(s, status)])
    ensures Ordered(commands, log + [RetSubmit(s, status)])
  {
    CountAppend(log, RetSubmit(s, status));
    OrderedSubmit(commands, log, s, status);
  }

  lemma OutstandingByLateUnlink(st: State)
    requires Outstanding(st) && st.receiver.Unlinking? && st.receiver.target !in st.h.transfers
    ensures Outstanding(Unlink(st))
  {
  }

  lemma VerdictsByLateUnlink(st: State)
    requires Verdicts(st) && st.receiver.Unlinking? && st.receiver.target !in st.h.transfers
    requires DistinctSeqnums(st.past.commands)
    requires UnlinksKnown(st.past.commands, st.past.unlinks, Some(CmdUnlink(st.receiver.cmd, st.receiver.target)))
    requires WaitingExact(st.past.submits, st.h.transfers, None)
    ensures Verdicts(Unlink(st))
  {
    var cmd := st.receiver.cmd;
    OrderedUnlink(st.past.commands, st.past.log, cmd, STATUS_OK);
    CountAppend(st.past.log, RetUnlink(cmd, STATUS_OK));
  }

  function Displace(uf: map<Seqnum, UnlinkFate>, a: Args, target: Seqnum, cmd: Seqnum): map<Seqnum, UnlinkFate> {
    (if a.unlinking then uf[a.unlinkCmd := Overwritten(target)] else uf)[cmd := Marked(target)]
  }

  lemma NewMark(commands: seq<Command>, uf: map<Seqnum, UnlinkFate>, transfers: map<Seqnum, Args>, target: Seqnum,
                cmd: Seqnum)
    requires MarksAgree(uf, transfers) && UnlinksKnown(commands, uf, Some(CmdUnlink(cmd, target)))
    requires target in transfers
    ensures MarksAgree(Displace(uf, transfers[target], target, cmd),
                       transfers[target := transfers[target].(unlinking := true, unlinkCmd := cmd)])
    ensures UnlinksKnown(commands, Displace(uf, transfers[target], target, cmd), None)
  {
  }

  lemma OutstandingByMark(st: State)
    requires Outstanding(st) && st.receiver.Unlinking? && st.receiver.target in st.h.transfers
    ensures Outstanding(Unlink(st))
  {
    NewMark(st.past.commands, st.past.unlinks, st.h.transfers, st.receiver.target, st.receiver.cmd);
  }

  lemma VerdictsByMark(st: State)
    requires Verdicts(st) && st.receiver.Unlinking? && st.receiver.target in st.h.transfers
    requires st.past.commands != []
    requires st.past.commands[|st.past.commands| - 1] == CmdUnlink(st.receiver.cmd, st.receiver.target)
    requires st.receiver.cmd !in st.past.unlinks
    requires var a := st.h.transfers[st.receiver.target];
             a.unlinking ==> a.unlinkCmd in st.past.unlinks && st.past.unlinks[a.unlinkCmd].Marked?
                             && CmdUnlink(a.unlinkCmd, st.receiver.target) in st.past.commands
    ensures Verdicts(Unlink(st))
  {
    var a := st.h.transfers[st.receiver.target];
  }

  lemma FoundByMark(sf: map<Seqnum, SubmitFate>, uf: map<Seqnum, UnlinkFate>, transfers: map<Seqnum, Args>,
                    target: Seqnum, cmd: Seqnum)
    requires Found(sf, uf, transfers) && target in transfers && target in sf && sf[target].Waiting?
    ensures Found(sf, Displace(uf, transfers[target], target, cmd),
                  transfers[target := transfers[target].(unlinking := true, unlinkCmd := cmd)])
  {
  }

  /** A transfer leaves the table for good: its submit stops waiting with outcome f, and the unlink
      that marked it, if any, ends with outcome g. */
  lemma Settle(commands: seq<Command>, sf: map<Seqnum, SubmitFate>, uf: map<Seqnum, UnlinkFate>,
               transfers: map<Seqnum, Args>, owed: Option<Seqnum>, todo: Option<Command>,
               s: Seqnum, f: SubmitFate, g: UnlinkFate)
    requires SubmitsKnown(commands, sf) && WaitingExact(sf, transfers, owed) && MarksAgree(uf, transfers)
    requires UnlinksKnown(commands, uf, todo)
    requires s in transfers && !f.Waiting? && !g.Marked? && g.target == s
    ensures var uf' := if transfers[s].unlinking then uf[transfers[s].unlinkCmd := g] else uf;
            && SubmitsKnown(commands, sf[s := f])
            && WaitingExact(sf[s := f], transfers - {s}, owed)
            && MarksAgree(uf', transfers - {s})
            && UnlinksKnown(commands, uf', todo)
  {
  }

  lemma SettleAnswers(commands: seq<Command>, sf: map<Seqnum, SubmitFate>, uf: map<Seqnum, UnlinkFate>,
                      transfers: map<Seqnum, Args>, s: Seqnum, f: SubmitFate, g: UnlinkFate)
    requires UnlinkAnswers(commands, sf, uf) && MarksAgree(uf, transfers) && DistinctSeqnums(commands)
    requires s in transfers && s in sf && sf[s].Waiting? && !f.Waiting?
    requires transfers[s].unlinking ==> CmdUnlink(transfers[s].unlinkCmd, s) in commands
    requires f.ByUnlink? ==> transfers[s].unlinking && g.Confirmed? && f.cmd == transfers[s].unlinkCmd
    requires g.target == s && (g.Confirmed? || g.Abandoned?)
    requires g.Confirmed? && transfers[s].unlinking ==> f == ByUnlink(transfers[s].unlinkCmd)
    ensures var uf' := if transfers[s].unlinking then uf[transfers[s].unlinkCmd := g] else uf;
            UnlinkAnswers(commands, sf[s := f], uf')
  {
    var uf' := if transfers[s].unlinking then uf[transfers[s].unlinkCmd := g] else uf;
    if transfers[s].unlinking {
      var cmd := transfers[s].unlinkCmd;
      forall s', c | Precedes(commands, s', c) && c == cmd ensures s' == s {
        PrecedesIn(commands, s', c);
      }
    }
  }

  function OutcomeOf(a: Args): SubmitFate {
    if a.unlinking then ByUnlink(a.unlinkCmd) else BySubmit
  }

  lemma OutstandingByComplete(st: State, id: nat)
    requires Outstanding(st)
    requires id in st.callbacks && st.callbacks[id].Completing? && st.callbacks[id].s in st.h.transfers
    ensures Outstanding(Complete(st, id))
  {
    var s := st.callbacks[id].s;
    Settle(st.past.commands, st.past.submits, st.past.unlinks, st.h.transfers, Owed(st.receiver),
           Unprocessed(st.receiver),
           s, OutcomeOf(st.h.transfers[s]), Confirmed(s));
  }

  lemma VerdictsByComplete(st: State, id: nat)
    requires Verdicts(st) && DistinctSeqnums(st.past.commands)
    requires id in st.callbacks && st.callbacks[id].Completing? && st.callbacks[id].s in st.h.transfers
    requires MarksAgree(st.past.unlinks, st.h.transfers)
    requires WaitingExact(st.past.submits, st.h.transfers, Owed(st.receiver))
    requires UnlinksKnown(st.past.commands, st.past.unlinks, Unprocessed(st.receiver))
    ensures Verdicts(Complete(st, id))
  {
    var s := st.callbacks[id].s;
    SettleAnswers(st.past.commands, st.past.submits, st.past.unlinks, st.h.transfers, s, OutcomeOf(st.h.transfers[s]),
                  Confirmed(s));
    CompleteCounts(st.past.commands, st.past.submits, st.past.unlinks, st.h.transfers, st.past.log, s,
                   st.callbacks[id].status);
  }

  lemma CompleteCounts(commands: seq<Command>, sf: map<Seqnum, SubmitFate>, uf: map<Seqnum, UnlinkFate>,
                       transfers: map<Seqnum, Args>, log: seq<Response>, s: Seqnum, status: int)
    requires CountsExact(sf, uf, log) && Ordered(commands, log) && DistinctSeqnums(commands)
    requires MarksAgree(uf, transfers) && UnlinkAnswers(commands, sf, uf)
    requires s in transfers && s in sf && sf[s].Waiting?
    requires transfers[s].unlinking ==> CmdUnlink(transfers[s].unlinkCmd, s) in commands
    ensures var a := transfers[s];
            && CountsExact(sf[s := if a.unlinking then ByUnlink(a.unlinkCmd) else BySubmit],
                           if a.unlinking then uf[a.unlinkCmd := Confirmed(s)] else uf,
                           log + [Completion(s, a, status)])
            && Ordered(commands, log + [Completion(s, a, status)])
  {
    var a := transfers[s];
    CountAppend(log, Completion(s, a, status));
    if a.unlinking {
      forall s' | Precedes(commands, s', a.unlinkCmd) ensures s' == s {
        PrecedesIn(commands, s', a.unlinkCmd);
      }
      OrderedUnlink(commands, log, a.unlinkCmd, status);
    } else {
      OrderedSubmit(commands, log, s, status);
    }
  }

  lemma OutstandingByAbort(st: State, id: nat)
    requires Outstanding(st)
    requires id in st.callbacks && st.callbacks[id].Aborting? && st.callbacks[id].s in st.h.transfers
    ensures Outstanding(Abort(st, id))
  {
    Settle(st.past.commands, st.past.submits, st.past.unlinks, st.h.transfers, Owed(st.receiver),
           Unprocessed(st.receiver),
           st.callbacks[id].s, Dropped, Abandoned(st.callbacks[id].s));
  }

  lemma VerdictsByAbort(st: State, id: nat)
    requires Verdicts(st) && DistinctSeqnums(st.past.commands)
    requires ThreadsAgree(st.h.transfers, st.h.clientDisconnected, st.receiver, st.callbacks)
    requires id in st.callbacks && st.callbacks[id].Aborting? && st.callbacks[id].s in st.h.transfers
    requires MarksAgree(st.past.unlinks, st.h.transfers)
    requires WaitingExact(st.past.submits, st.h.transfers, Owed(st.receiver))
    requires UnlinksKnown(st.past.commands, st.past.unlinks, Unprocessed(st.receiver))
    ensures Verdicts(Abort(st, id))
  {
    SettleAnswers(st.past.commands, st.past.submits, st.past.unlinks, st.h.transfers, st.callbacks[id].s, Dropped,
                  Abandoned(st.callbacks[id].s));
  }
}
