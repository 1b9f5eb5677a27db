/**
  What a run's events say about a session and the accept loop: the path a session took to where it is, why it
  gives its device back, and when the loop ends.
 */
module ServerPaths {
  import opened DeviceTable
  import opened ServerRuns
  import opened ServerInvariants

  /** What the thread of one session did, apart from finding its device removed. */
  function Steps(es: seq<Event>, id: Id): seq<WorkEvent> {
    if es == [] then []
    else
      var e := es[|es| - 1];
      Steps(es[..|es| - 1], id) + if e.Work? && e.id == id && !e.w.FlagRemoved? then [e.w] else []
  }

  /** The steps after the import that lead to each phase. */
  predicate Leads(w: seq<WorkEvent>, p: Phase) {
    match p
    case Opening => w == []
    case Replying => w == [OpenOk]
    case Spawning => w == [OpenOk, ReplyOk]
    case Receiving => w == [OpenOk, ReplyOk, SenderOk]
    case Draining(exit) => LeadsOut(w, exit)
    case Releasing(exit) =>
      if exit.OpenFailure? then w == [OpenError]
      else w != [] && w[|w| - 1] == Drained && LeadsOut(w[..|w| - 1], exit)
  }

  /** The steps after the import that end a connection for each reason. */
  predicate LeadsOut(w: seq<WorkEvent>, exit: Exit) {
    match exit
    case OpenFailure => false
    case ReplyFailure => w == [OpenOk, ReplyError]
    case SpawnFailure => w == [OpenOk, ReplyOk, SenderError]
    case NormalEnd => w == [OpenOk, ReplyOk, SenderOk, ReceiverEnds]
    case ReceiverException =>
      || w == [OpenOk, ReplyOk, SenderOk, ReceiverThrows]
      || w == [OpenOk, ReplyOk, SenderOk, ReceiverEnds, ReceiverThrows]
  }

  /** The steps so far explain where the thread is. */
  predicate Explained(w: seq<WorkEvent>, th: Thread) {
    match th
    case NoThread | Reading => w == []
    case Checked(b) => w == [SeeFree(b)]
    case Holding(d, p) => |w| >= 2 && w[0] == SeeFree(d.busid) && w[1] == Move && Leads(w[2..], p)
    case Closing | Erased | Finished => true
  }

  lemma {:induction false} StepsSnoc(es: seq<Event>, e: Event, id: Id)
    ensures Steps(es + [e], id)
            == Steps(es, id) + if e.Work? && e.id == id && !e.w.FlagRemoved? then [e.w] else []
  {
    assert (es + [e])[..|es|] == es;
  }

  lemma {:induction false} LeadsOn(w: seq<WorkEvent>, p: Phase, x: WorkEvent, dev: Devices, d: Device)
    requires Leads(w, p) && WorkEnabled(dev, Holding(d, p), x) && !x.FlagRemoved?
    requires WorkThread(dev, Holding(d, p), x).Holding?
    ensures Leads(w + [x], WorkThread(dev, Holding(d, p), x).phase)
  {
    if x.Drained? { assert (w + [x])[..|w|] == w; }
  }

  lemma {:induction false} ExplainedByWork(w: seq<WorkEvent>, th: Thread, x: WorkEvent, dev: Devices)
    requires Explained(w, th) && WorkEnabled(dev, th, x)
    ensures Explained(if x.FlagRemoved? then w else w + [x], WorkThread(dev, th, x))
  {
    if th.Holding? && !x.FlagRemoved? && WorkThread(dev, th, x).Holding? {
      LeadsOn(w[2..], th.phase, x, dev, th.d);
      assert (w + [x])[2..] == w[2..] + [x];
    } else if th.Checked? {
      assert (w + [x])[2..] == [];
    }
  }

  ghost predicate AllExplained(es: seq<Event>, threads: map<Id, Thread>) {
    && (forall id :: id in threads ==> Explained(Steps(es, id), threads[id]))
    && (forall id: Id :: id !in threads ==> Steps(es, id) == [])
  }

  /** A step of one session's thread. */
  lemma {:induction false} ExplainedByThread(st: State, es: seq<Event>, id: Id, w: WorkEvent)
    requires AllExplained(es, st.threads) && Enabled(st, Work(id, w)) && id in st.dev.accounts
    ensures AllExplained(es + [Work(id, w)], Step(st, Work(id, w)).threads)
  {
    ExplainedByWork(Steps(es, id), st.threads[id], w, st.dev);
    OneExplained(es, st.threads, id, w, WorkThread(st.dev, st.threads[id], w));
  }

  lemma {:induction false} OneExplained(es: seq<Event>, threads: map<Id, Thread>, id: Id, w: WorkEvent, th: Thread)
    requires AllExplained(es, threads) && id in threads
    requires Explained(if w.FlagRemoved? then Steps(es, id) else Steps(es, id) + [w], th)
    ensures AllExplained(es + [Work(id, w)], threads[id := th])
  {
    forall x: Id
      ensures x in threads[id := th] ==> Explained(Steps(es + [Work(id, w)], x), threads[id := th][x])
      ensures x !in threads[id := th] ==> Steps(es + [Work(id, w)], x) == []
    {
      StepsSnoc(es, Work(id, w), x);
      assert Steps(es, x) + [] == Steps(es, x);
    }
  }

  /** A thread that did not work: it is new and idle, or starts, or is past everything to be explained. */
  predicate Elsewhere(threads: map<Id, Thread>, threads': map<Id, Thread>, id: Id) {
    && (id in threads ==> id in threads')
    && (id in threads' ==>
          || threads'[id].Erased? || threads'[id].Finished?
          || (if id in threads then threads'[id] == threads[id] || (threads[id].NoThread? && threads'[id].Reading?)
              else threads'[id].NoThread?))
  }

  lemma {:induction false} ExplainedByOther(es: seq<Event>, e: Event, threads: map<Id, Thread>,
                                            threads': map<Id, Thread>)
    requires AllExplained(es, threads) && !e.Work? && forall id :: Elsewhere(threads, threads', id)
    ensures AllExplained(es + [e], threads')
  {
    forall x: Id
      ensures x in threads' ==> Explained(Steps(es + [e], x), threads'[x])
      ensures x !in threads' ==> Steps(es + [e], x) == []
    {
      StepsSnoc(es, e, x);
      assert Elsewhere(threads, threads', x);
    }
  }

  lemma {:induction false} ExplainedByLoop(reg: Registry, threads: map<Id, Thread>, es: seq<Event>, l: LoopEvent)
    requires AllExplained(es, threads) && LoopEnabled(reg, l)
    requires LoopId(reg.loop).Some? ==> reg.loop.id in threads && Consistent(reg, threads, reg.loop.id)
    requires reg.nextId !in threads
    ensures AllExplained(es + [Accept(l)], LoopThreads(reg, threads, l))
  {
    ExplainedByOther(es, Accept(l), threads, LoopThreads(reg, threads, l));
  }

  lemma {:induction false} ExplainedStep(st: State, es: seq<Event>, e: Event)
    requires AllExplained(es, st.threads) && Enabled(st, e) && RegistryOk(st.reg, st.threads)
    requires AccountsOk(st.dev.accounts, st.threads)
    ensures AllExplained(es + [e], Step(st, e).threads)
  {
    match e
    case Work(id, w) => ExplainedByThread(st, es, id, w);
    case Accept(l) => ExplainedByLoop(st.reg, st.threads, es, l);
    case Leave(id, v) => ExplainedByOther(es, e, st.threads, LeaveStep(st, id, v).threads);
    case _ => ExplainedByOther(es, e, st.threads, st.threads);
  }

  lemma {:induction false} RunExplained(devices: seq<Device>, es: seq<Event>)
    requires DistinctBusids(devices) && Exec(devices, es).Some?
    ensures AllExplained(es, Exec(devices, es).value.threads)
  {
    if es != [] {
      var front, e := es[..|es| - 1], es[|es| - 1];
      RunExplained(devices, front);
      assert RegistryOk(Exec(devices, front).value.reg, Exec(devices, front).value.threads)
             && AccountsOk(Exec(devices, front).value.dev.accounts, Exec(devices, front).value.threads) by {
        RunInvariant(devices, front);
      }
      assert front + [e] == es;
      ExplainedStep(Exec(devices, front).value, front, e);
    }
  }

  /** In every run a session that holds a device got there, step by step, on the one path that leads to its
      phase: it receives only after the device was opened, the reply sent and the sender started, and it gives
      the device back for exactly the reason that its steps show, after the handler was told of the
      disconnection unless opening failed. */
  lemma {:induction false} SessionPath(devices: seq<Device>, es: seq<Event>, id: Id)
    requires DistinctBusids(devices) && Exec(devices, es).Some?
    requires id in Exec(devices, es).value.threads && Exec(devices, es).value.threads[id].Holding?
    ensures var th, w := Exec(devices, es).value.threads[id], Steps(es, id);
            |w| >= 2 && w[0] == SeeFree(th.d.busid) && w[1] == Move && Leads(w[2..], th.phase)
  {
    RunExplained(devices, es);
  }

  // ---- the accept loop ----

  /** How many sessions were put into the table after stop() was called. */
  function LateSessions(es: seq<Event>): nat {
    if es == [] then 0
    else
      var front := es[..|es| - 1];
      LateSessions(front) + if es[|es| - 1] == Accept(Register) && Stop(RequestStop) in front then 1 else 0
  }

  /** What the schedule says about the loop. */
  predicate LoopShown(reg: Registry, es: seq<Event>) {
    && (reg.running <==> Stop(RequestStop) !in es) && (reg.running <==> reg.stopper.Away?)
    && (reg.running ==> LateSessions(es) == 0 && (reg.loop.Over? <==> Accept(AcceptFatal) in es))
    && (!reg.running ==> LateSessions(es) + (if reg.loop.Admitted? then 1 else 0) <= 1)
  }

  lemma {:induction false} LoopShownStep(st: State, es: seq<Event>, e: Event)
    requires LoopShown(st.reg, es) && Enabled(st, e)
    ensures LoopShown(Step(st, e).reg, es + [e])
  {
    assert (es + [e])[..|es|] == es;
  }

  lemma {:induction false} RunLoopShown(devices: seq<Device>, es: seq<Event>)
    requires Exec(devices, es).Some?
    ensures LoopShown(Exec(devices, es).value.reg, es)
  {
    if es != [] {
      var front, e := es[..|es| - 1], es[|es| - 1];
      RunLoopShown(devices, front);
      LoopShownStep(Exec(devices, front).value, front, e);
      assert front + [e] == es;
    }
  }

  /** The loop looks at the running flag. */
  predicate Checks(e: Event) { e == Accept(CheckTop) || e == Accept(CheckCounted) || e == Accept(CheckAccepted) }

  /** Until stop() is called the accept loop ends exactly if accepting failed fatally: not by transient errors,
      rejected connections, failed starts or callbacks. After that call its next check ends it, and at most one
      more session enters the table. */
  lemma {:induction false} LoopEndsExactly(devices: seq<Device>, es: seq<Event>)
    requires Exec(devices, es).Some?
    ensures Stop(RequestStop) !in es ==> (Exec(devices, es).value.reg.loop.Over? <==> Accept(AcceptFatal) in es)
    ensures LateSessions(es) <= 1
    ensures es != [] && Stop(RequestStop) in es[..|es| - 1] && Checks(es[|es| - 1]) ==>
              Exec(devices, es).value.reg.loop.Over?
  {
    RunLoopShown(devices, es);
    if es != [] { RunLoopShown(devices, es[..|es| - 1]); }
  }
}
