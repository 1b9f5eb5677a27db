/**
  Whether the pending timer wait is in time for every URB that is due: exactly which steps spoil it,
  in all runs, and why one endpoint alone never can.
 */
module SchedulerPrompt {
  import opened UsbIp
  import opened Scheduler
  import opened SchedulerRuns
  import opened SchedulerLimits

  /** The pending wait expires no later than any idle head is due. */
  ghost predicate Prompt(s: Sched) {
    s.timerPending ==>
      forall ep :: ep in s.endpoints && IdleHead(s.endpoints[ep]) ==>
        s.deadline <= s.endpoints[ep].queue[0].serviceTime
  }

  // ---- the steps that make the wait too late ----

  /** A submit starts an idle empty endpoint with a service time before the deadline. */
  predicate SubmitOvertakes(s: Sched, ep: Ep, seqnum: Seqnum, iso: bool, delay: int, now: int) {
    var e := if ep in s.endpoints then s.endpoints[ep] else NEW_ENDPOINT;
    var last := if e.lastScheduled == 0 then now else e.lastScheduled;
    && s.started && s.timerPending && e.queue == [] && !e.processing
    && ServiceTime(Urb(|e.past.log|, seqnum, iso, delay, 0), last, now) < s.deadline
  }

  /** A report releases an endpoint whose next URB is due before the deadline. */
  predicate DoneOvertakes(s: Sched, ep: Ep, seqnum: Seqnum) {
    && s.started && s.timerPending && ep in s.endpoints
    && var e := s.endpoints[ep];
       e.processing && e.processingSeqnum == seqnum && e.queue != [] && e.queue[0].serviceTime < s.deadline
  }

  /** The endpoint on which cancel stops its scan. */
  function Holder(endpoints: map<Ep, Endpoint>, order: seq<Ep>, seqnum: Seqnum): (r: Option<Ep>)
    requires forall i :: 0 <= i < |order| ==> order[i] in endpoints
    ensures r.Some? ==> r.value in endpoints && Knows(endpoints[r.value], seqnum)
  {
    if order == [] then None
    else if Knows(endpoints[order[0]], seqnum) then Some(order[0])
    else Holder(endpoints, order[1..], seqnum)
  }

  /** Cancelling URB k of an idle endpoint re-arms the head that remains before the deadline; this takes
      a negative delay, or a wait that was armed for a later head. */
  predicate Rearms(e: Endpoint, k: nat, now: int, deadline: int)
    requires k < |e.queue|
  {
    && !e.processing && |e.queue| > 1
    && var base := if k == 0 then Max(e.lastScheduled, e.queue[0].serviceTime) else e.lastScheduled;
       var next := if k == 0 then e.queue[1] else e.queue[0];
       ServiceTime(next, if base == 0 then now else base, now) < deadline
  }

  ghost predicate CancelOvertakes(s: Sched, order: seq<Ep>, seqnum: Seqnum, now: int)
    requires forall i :: 0 <= i < |order| ==> order[i] in s.endpoints
  {
    && s.timerPending
    && var ep := Holder(s.endpoints, order, seqnum);
       && ep.Some?
       && var e := s.endpoints[ep.value];
          var k := FirstIndex(e.queue, seqnum);
          k < |e.queue| && Rearms(e, k, now, s.deadline)
  }

  /** The guard of the branch that fails, event by event. A posted reschedule, a timer tick and stop()
      never make the wait late. */
  ghost predicate Overtakes(st: State, e: Event)
    requires Enabled(st, e)
  {
    match e
    case SubmitEvent(ep, seqnum, iso, delay) => SubmitOvertakes(st.s, ep, seqnum, iso, delay, st.now)
    case DoneEvent(ep, seqnum) => DoneOvertakes(st.s, ep, seqnum)
    case CancelEvent(seqnum, order) => CancelOvertakes(st.s, order, seqnum, st.now)
    case _ => false
  }

  /** Only one endpoint changed. */
  lemma {:induction false} PromptUpdate(s: Sched, ep: Ep, e: Endpoint, s': Sched)
    requires Prompt(s) && s'.endpoints == s.endpoints[ep := e]
    requires s'.timerPending == s.timerPending && s'.deadline == s.deadline
    ensures Prompt(s') <==> !s.timerPending || !IdleHead(e) || s.deadline <= e.queue[0].serviceTime
  {
    assert s'.endpoints[ep] == e;
    assert forall x :: x in s.endpoints && x != ep ==> s'.endpoints[x] == s.endpoints[x];
  }

  lemma {:induction false} SubmitStaysPrompt(s: Sched, ep: Ep, seqnum: Seqnum, iso: bool, delay: int, now: int)
    requires Prompt(s)
    ensures Prompt(SubmitUrb(s, ep, seqnum, iso, delay, now)) <==> !SubmitOvertakes(s, ep, seqnum, iso, delay, now)
  {
    if s.started {
      var e := if ep in s.endpoints then s.endpoints[ep] else NEW_ENDPOINT;
      var e' := Append(e, seqnum, iso, delay, now);
      PromptUpdate(s, ep, e', SubmitUrb(s, ep, seqnum, iso, delay, now));
      if e.queue != [] {
        assert e'.queue[0] == e.queue[0];
      }
    }
  }

  lemma {:induction false} DoneStaysPrompt(s: Sched, ep: Ep, seqnum: Seqnum)
    requires Prompt(s)
    ensures Prompt(OnUrbDone(s, ep, seqnum)) <==> !DoneOvertakes(s, ep, seqnum)
  {
    if s.started && ep in s.endpoints {
      var e := s.endpoints[ep];
      if e.processing && e.processingSeqnum == seqnum {
        PromptUpdate(s, ep, Release(e), OnUrbDone(s, ep, seqnum));
      }
    }
  }

  lemma {:induction false} CancelByHolder(endpoints: map<Ep, Endpoint>, order: seq<Ep>, seqnum: Seqnum, now: int)
    requires forall i :: 0 <= i < |order| ==> order[i] in endpoints
    ensures var h := Holder(endpoints, order, seqnum);
            CancelScan(endpoints, order, seqnum, now)
            == if h.None? then (false, endpoints) else CancelAt(endpoints, h.value, seqnum, now)
  {
    if order != [] && !Knows(endpoints[order[0]], seqnum) {
      CancelByHolder(endpoints, order[1..], seqnum, now);
    }
  }

  lemma {:induction false} CancelStaysPrompt(s: Sched, order: seq<Ep>, seqnum: Seqnum, now: int)
    requires Prompt(s) && forall i :: 0 <= i < |order| ==> order[i] in s.endpoints
    ensures var s' := s.(endpoints := CancelScan(s.endpoints, order, seqnum, now).1);
            Prompt(s') <==> !CancelOvertakes(s, order, seqnum, now)
  {
    CancelByHolder(s.endpoints, order, seqnum, now);
    var h := Holder(s.endpoints, order, seqnum);
    if h.Some? {
      var e := s.endpoints[h.value];
      var k := FirstIndex(e.queue, seqnum);
      if k < |e.queue| && !(e.processing && e.processingSeqnum == seqnum) {
        PromptUpdate(s, h.value, Remove(e, k, now), s.(endpoints := CancelScan(s.endpoints, order, seqnum, now).1));
      }
    }
  }

  /** A wait armed afresh is in time for every idle head. */
  lemma {:induction false} ScheduledPrompt(s: Sched, order: seq<Ep>)
    requires IsOrder(order, s.endpoints) && !s.timerPending
    ensures Prompt(ScheduleNext(s, order))
  {
    EarliestIsLeast(s.endpoints, order);
    forall ep | ep in s.endpoints && IdleHead(s.endpoints[ep]) && ScheduleNext(s, order).timerPending
      ensures ScheduleNext(s, order).deadline <= s.endpoints[ep].queue[0].serviceTime
    {
      assert ep in order;
      var i :| 0 <= i < |order| && order[i] == ep;
    }
  }

  lemma {:induction false} PostedPrompt(s: Sched, order: seq<Ep>)
    requires Prompt(s) && s.posted > 0 && IsOrder(order, s.endpoints)
    ensures Prompt(ScheduleOnThread(s, order))
  {
    if s.started && !s.timerPending {
      ScheduledPrompt(s.(posted := s.posted - 1), order);
    }
  }

  lemma {:induction false} TimerPrompt(s: Sched, order: seq<Ep>, now: int)
    requires s.waits > 0 && IsOrder(order, s.endpoints)
    ensures Prompt(OnTimer(s, order, now))
  {
    if s.started {
      ScheduledPrompt(s.(timerPending := false, waits := s.waits - 1, endpoints := ServeAll(s.endpoints, now)), order);
    }
  }

  /** The exact steps: from a state whose wait is in time, a step leaves it in time if and only if it is
      not one of the submits, reports and cancels described above. */
  lemma {:induction false} PromptExactly(st: State, e: Event)
    requires Prompt(st.s) && Enabled(st, e)
    ensures Prompt(Step(st, e).s) <==> !Overtakes(st, e)
  {
    match e
    case Tick(_) =>
    case SubmitEvent(ep, seqnum, iso, delay) => SubmitStaysPrompt(st.s, ep, seqnum, iso, delay, st.now);
    case DoneEvent(ep, seqnum) => DoneStaysPrompt(st.s, ep, seqnum);
    case CancelEvent(seqnum, order) => CancelStaysPrompt(st.s, order, seqnum, st.now);
    case PostedEvent(order) => PostedPrompt(st.s, order);
    case TimerEvent(order) => TimerPrompt(st.s, order, st.now);
    case StopEvent =>
  }

  /** The state after the first n events of a run. */
  ghost function After(t0: int, es: seq<Event>, n: nat): Option<State>
    requires n <= |es|
  {
    Exec(t0, es[..n])
  }

  lemma {:induction false} RunPrefix(t0: int, es: seq<Event>, n: nat)
    requires n <= |es| && Exec(t0, es).Some?
    ensures After(t0, es, n).Some?
    ensures n < |es| ==> Enabled(After(t0, es, n).value, es[n])
                         && After(t0, es, n + 1) == Some(Step(After(t0, es, n).value, es[n]))
  {
    if n == |es| {
      assert es[..n] == es;
    } else {
      var front := es[..|es| - 1];
      RunPrefix(t0, front, n);
      assert front[..n] == es[..n];
      assert es[..n + 1][..n] == es[..n];
      if n + 1 < |es| {
        assert front[..n + 1] == es[..n + 1] && front[n] == es[n];
      } else {
        assert front == es[..n] && es[..n + 1] == es;
      }
    }
  }

  /** The wait is in time after the first n events. */
  ghost predicate PromptAfter(t0: int, es: seq<Event>, n: nat) {
    n <= |es| && After(t0, es, n).Some? && Prompt(After(t0, es, n).value.s)
  }

  /** Event n of the run makes the wait late. */
  ghost predicate OvertakesAt(t0: int, es: seq<Event>, n: nat) {
    && n < |es| && After(t0, es, n).Some? && Enabled(After(t0, es, n).value, es[n])
    && Overtakes(After(t0, es, n).value, es[n])
  }

  lemma {:induction false} PromptUpTo(t0: int, es: seq<Event>, n: nat)
    requires n <= |es| && Exec(t0, es).Some? && forall k: nat :: k < n ==> !OvertakesAt(t0, es, k)
    ensures PromptAfter(t0, es, n)
  {
    RunPrefix(t0, es, n);
    if n == 0 {
      assert es[..0] == [];
    } else {
      PromptUpTo(t0, es, n - 1);
      RunPrefix(t0, es, n - 1);
      assert PromptAfter(t0, es, n - 1) && !OvertakesAt(t0, es, n - 1);
      PromptExactly(After(t0, es, n - 1).value, es[n - 1]);
    }
  }

  /** Over whole runs: the pending wait is in time at every moment if and only if no event of the run is
      an overtaking one. */
  lemma {:induction false} RunPromptExactly(t0: int, es: seq<Event>)
    requires Exec(t0, es).Some?
    ensures (forall n: nat :: n <= |es| ==> PromptAfter(t0, es, n)) <==>
              (forall n: nat :: n < |es| ==> !OvertakesAt(t0, es, n))
  {
    if forall n: nat :: n < |es| ==> !OvertakesAt(t0, es, n) {
      forall n: nat | n <= |es| ensures PromptAfter(t0, es, n) { PromptUpTo(t0, es, n); }
    }
    if forall n: nat :: n <= |es| ==> PromptAfter(t0, es, n) {
      forall n: nat | n < |es| ensures !OvertakesAt(t0, es, n) {
        assert PromptAfter(t0, es, n) && PromptAfter(t0, es, n + 1);
        RunPrefix(t0, es, n);
        PromptExactly(After(t0, es, n).value, es[n]);
      }
    }
  }

  // ---- one endpoint ----

  ghost predicate NonNegative(log: seq<Urb>) {
    forall i :: 0 <= i < |log| && log[i].iso ==> log[i].delay >= 0
  }

  /** What holds of the only endpoint of a run and the timer. */
  ghost predicate InStep(e: Endpoint, pending: bool, deadline: int) {
    && e.lastScheduled >= 0
    && (e.queue != [] ==> 0 <= e.queue[0].serviceTime <= e.lastScheduled)
    && (pending ==>
          !e.processing && deadline <= e.lastScheduled && (e.queue != [] ==> deadline <= e.queue[0].serviceTime))
  }

  /** All runs that only ever used endpoint ep, and asked for no negative delay. */
  ghost predicate Alone(s: Sched, ep: Ep) {
    s.endpoints.Keys <= {ep} && (ep in s.endpoints ==> NonNegative(s.endpoints[ep].past.log))
  }

  ghost predicate OneInStep(s: Sched, ep: Ep) {
    && (ep in s.endpoints ==> InStep(s.endpoints[ep], s.timerPending, s.deadline))
    && (s.timerPending ==> ep in s.endpoints)
  }

  lemma AppendInStep(e: Endpoint, seqnum: Seqnum, iso: bool, delay: int, now: int, pending: bool, deadline: int)
    requires InStep(e, pending, deadline) && NonNegative(Append(e, seqnum, iso, delay, now).past.log) && now > 0
    ensures InStep(Append(e, seqnum, iso, delay, now), pending, deadline) && NonNegative(e.past.log)
  {
    var log := Append(e, seqnum, iso, delay, now).past.log;
    assert log[|e.past.log|] == Urb(|e.past.log|, seqnum, iso, delay, 0);
    assert forall i :: 0 <= i < |e.past.log| ==> log[i] == e.past.log[i];
  }

  /** schedule_next on a single endpoint. */
  lemma ScheduleInStep(s: Sched, order: seq<Ep>, ep: Ep)
    requires IsOrder(order, s.endpoints) && s.endpoints.Keys <= {ep} && !s.timerPending && OneInStep(s, ep)
    ensures OneInStep(ScheduleNext(s, order), ep)
  {
    EarliestIsLeast(s.endpoints, order);
    if Earliest(s.endpoints, order).Some? {
      var i :| 0 <= i < |order| && IdleHead(s.endpoints[order[i]])
               && s.endpoints[order[i]].queue[0].serviceTime == Earliest(s.endpoints, order).value;
      assert order[i] in s.endpoints.Keys;
    }
  }

  lemma CancelInStep(s: Sched, order: seq<Ep>, seqnum: Seqnum, now: int, ep: Ep)
    requires IsOrder(order, s.endpoints) && AllSound(s.endpoints, now) && now > 0
    requires var s' := s.(endpoints := CancelScan(s.endpoints, order, seqnum, now).1); Alone(s', ep)
    requires Alone(s, ep) ==> OneInStep(s, ep)
    ensures OneInStep(s.(endpoints := CancelScan(s.endpoints, order, seqnum, now).1), ep)
  {
    CancelShape(s.endpoints, order, seqnum, now);
    var m := CancelScan(s.endpoints, order, seqnum, now).1;
    if m != s.endpoints {
      var x, k :| x in s.endpoints && 0 <= k < |s.endpoints[x].queue|
                  && m == s.endpoints[x := Remove(s.endpoints[x], k, now)];
      RemovedInStep(s, x, k, now, ep);
    }
  }

  lemma RemovedInStep(s: Sched, x: Ep, k: nat, now: int, ep: Ep)
    requires x in s.endpoints && k < |s.endpoints[x].queue| && Sound(s.endpoints[x], now) && now > 0
    requires Alone(s.(endpoints := s.endpoints[x := Remove(s.endpoints[x], k, now)]), ep)
    requires Alone(s, ep) ==> OneInStep(s, ep)
    ensures OneInStep(s.(endpoints := s.endpoints[x := Remove(s.endpoints[x], k, now)]), ep)
  {
    var m := s.endpoints[x := Remove(s.endpoints[x], k, now)];
    assert x in m.Keys && s.endpoints.Keys == m.Keys;
  }

  lemma ServeAllInStep(s: Sched, now: int, ep: Ep)
    requires AllSound(s.endpoints, now) && now > 0 && s.timerPending
    requires var m := ServeAll(s.endpoints, now); m.Keys <= {ep} && (ep in m ==> NonNegative(m[ep].past.log))
    requires Alone(s, ep) ==> OneInStep(s, ep)
    ensures ep in s.endpoints ==> InStep(Serve(s.endpoints[ep], now), false, s.deadline)
  {
    assert s.endpoints.Keys == ServeAll(s.endpoints, now).Keys;
    if ep in s.endpoints {
      assert Sound(s.endpoints[ep], now);
    }
  }

  lemma TimerInStep(s: Sched, order: seq<Ep>, now: int, ep: Ep)
    requires s.waits > 0 && IsOrder(order, s.endpoints) && AllSound(s.endpoints, now) && now > 0 && Awake(s)
    requires Alone(OnTimer(s, order, now), ep) && (Alone(s, ep) ==> OneInStep(s, ep))
    ensures OneInStep(OnTimer(s, order, now), ep)
  {
    if s.started {
      var m := ServeAll(s.endpoints, now);
      var s1 := s.(timerPending := false, waits := s.waits - 1, endpoints := m);
      assert OnTimer(s, order, now).endpoints == m;
      ServeAllInStep(s, now, ep);
      ScheduleInStep(s1, order, ep);
    }
  }

  lemma SubmitInStep(s: Sched, x: Ep, seqnum: Seqnum, iso: bool, delay: int, now: int, ep: Ep)
    requires now > 0 && Alone(SubmitUrb(s, x, seqnum, iso, delay, now), ep) && (Alone(s, ep) ==> OneInStep(s, ep))
    ensures OneInStep(SubmitUrb(s, x, seqnum, iso, delay, now), ep)
  {
    if s.started {
      var s' := SubmitUrb(s, x, seqnum, iso, delay, now);
      assert x in s'.endpoints.Keys && s.endpoints.Keys <= s'.endpoints.Keys;
      var e := if ep in s.endpoints then s.endpoints[ep] else NEW_ENDPOINT;
      AppendLog(e, seqnum, iso, delay, now);
      assert InStep(e, s.timerPending, s.deadline);
      AppendInStep(e, seqnum, iso, delay, now, s.timerPending, s.deadline);
    }
  }

  lemma AppendLog(e: Endpoint, seqnum: Seqnum, iso: bool, delay: int, now: int)
    ensures NonNegative(Append(e, seqnum, iso, delay, now).past.log) ==> NonNegative(e.past.log)
  {
    var log := Append(e, seqnum, iso, delay, now).past.log;
    assert forall i :: 0 <= i < |e.past.log| ==> log[i] == e.past.log[i];
  }

  lemma OneInStepStep(st: State, e: Event, ep: Ep)
    requires Enabled(st, e) && st.now > 0 && Awake(st.s) && AllSound(st.s.endpoints, st.now)
    requires Alone(st.s, ep) ==> OneInStep(st.s, ep)
    ensures Alone(Step(st, e).s, ep) ==> OneInStep(Step(st, e).s, ep)
  {
    if !Alone(Step(st, e).s, ep) { return; }
    match e
    case Tick(d) =>
    case SubmitEvent(x, seqnum, iso, delay) => SubmitInStep(st.s, x, seqnum, iso, delay, st.now, ep);
    case DoneEvent(x, seqnum) => assert Step(st, e).s.endpoints.Keys == st.s.endpoints.Keys;
    case CancelEvent(seqnum, order) => CancelInStep(st.s, order, seqnum, st.now, ep);
    case PostedEvent(order) =>
      if st.s.started && !st.s.timerPending { ScheduleInStep(st.s.(posted := st.s.posted - 1), order, ep); }
    case TimerEvent(order) => TimerInStep(st.s, order, st.now, ep);
    case StopEvent =>
  }

  lemma {:induction false} RunInStep(t0: int, es: seq<Event>, ep: Ep)
    requires t0 > 0 && Exec(t0, es).Some? && Alone(Exec(t0, es).value.s, ep)
    ensures OneInStep(Exec(t0, es).value.s, ep)
  {
    if es != [] {
      var front := es[..|es| - 1];
      var prev := Exec(t0, front).value;
      RunInvariant(t0, front);
      if Alone(prev.s, ep) { RunInStep(t0, front, ep); }
      OneInStepStep(prev, es[|es| - 1], ep);
    }
  }

  /** The comment in kick(), where it is true: with one endpoint and no negative delays a pending
      wait never delays a URB, whatever was submitted, cancelled or reported meanwhile. */
  lemma PromptOnOneEndpoint(st: State, ep: Ep)
    requires Reachable(st) && Alone(st.s, ep)
    ensures Prompt(st.s)
  {
    var t0, es :| t0 > 0 && Exec(t0, es) == Some(st);
    RunInStep(t0, es, ep);
    forall x | x in st.s.endpoints && IdleHead(st.s.endpoints[x]) && st.s.timerPending
      ensures st.s.deadline <= st.s.endpoints[x].queue[0].serviceTime
    {
      assert x in st.s.endpoints.Keys;
    }
  }

  /** Where it is not: a wait armed for a slow endpoint is kept when another endpoint gets a URB due
      earlier, and no reschedule is posted. */
  lemma KickKeepsLateTimer()
    ensures exists st :: Reachable(st) && st.s.started && st.s.posted == 0 && !Prompt(st.s)
  {
    ReachableStart(1000);
    var s0 := State(STARTED, 1000, map[]);
    var a := Append(NEW_ENDPOINT, 1, true, 1000000, 1000);
    ReachableSnoc(s0, SubmitEvent(129, 1, true, 1000000));
    var s1 := State(Sched(true, map[129 := a], false, 0, 0, 1), 1000, map[]);
    assert Step(s0, SubmitEvent(129, 1, true, 1000000)) == s1;
    assert Earliest(map[129 := a], [129]) == Some(1001000) by { assert [129][..0] == []; }
    ReachableSnoc(s1, PostedEvent([129]));
    var s2 := State(Sched(true, map[129 := a], true, 1, 1001000, 0), 1000, map[]);
    assert Step(s1, PostedEvent([129])) == s2;
    ReachableSnoc(s2, SubmitEvent(130, 2, false, 0));
    var s3 := Step(s2, SubmitEvent(130, 2, false, 0));
    assert s3.s.endpoints[130].queue[0].serviceTime == 2000;
    assert IdleHead(s3.s.endpoints[130]);
  }

  // ---- a report that overtakes ----

  /** Two bulk URBs queued at 1000, the first due at 2000. */
  function TwoBulk(): Endpoint {
    Append(Append(NEW_ENDPOINT, 1, false, 0, 1000), 2, false, 0, 1000)
  }

  lemma TwoBulkFacts()
    ensures TwoBulk() == Endpoint([Urb(0, 1, false, 0, 2000), Urb(1, 2, false, 0, 0)], 2000, false, 0,
                                  Past([Urb(0, 1, false, 0, 0), Urb(1, 2, false, 0, 0)], [], {}, false,
                                       [1000, 1000], false))
  {
  }

  lemma ReachTwoBulk()
    ensures Reachable(State(Sched(true, map[130 := TwoBulk()], true, 1, 2000, 0), 2000, map[]))
  {
    ReachableStart(1000);
    var s0 := State(STARTED, 1000, map[]);
    var a := Append(NEW_ENDPOINT, 1, false, 0, 1000);
    TwoBulkFacts();
    ReachableSnoc(s0, SubmitEvent(130, 1, false, 0));
    var s1 := State(Sched(true, map[130 := a], false, 0, 0, 1), 1000, map[]);
    assert Step(s0, SubmitEvent(130, 1, false, 0)) == s1;
    ReachableSnoc(s1, SubmitEvent(130, 2, false, 0));
    var s2 := State(Sched(true, map[130 := TwoBulk()], false, 0, 0, 1), 1000, map[]);
    assert Step(s1, SubmitEvent(130, 2, false, 0)) == s2;
    assert Earliest(map[130 := TwoBulk()], [130]) == Some(2000) by { assert [130][..0] == []; }
    ReachableSnoc(s2, PostedEvent([130]));
    var s3 := State(Sched(true, map[130 := TwoBulk()], true, 1, 2000, 0), 1000, map[]);
    assert Step(s2, PostedEvent([130])) == s3;
    ReachableSnoc(s3, Tick(1000));
  }

  /** The first bulk URB is in processing, the second due at 3000, and the wait is armed for the
      isochronous endpoint. */
  function BusyBulk(): Endpoint { Serve(TwoBulk(), 2000) }

  function SlowIso(): Endpoint { Append(NEW_ENDPOINT, 3, true, 1000000, 2000) }

  lemma ReachBusy()
    ensures Reachable(State(Sched(true, map[130 := BusyBulk(), 129 := SlowIso()], true, 1, 1002000, 0), 2000, map[]))
  {
    ReachTwoBulk();
    TwoBulkFacts();
    var s0 := State(Sched(true, map[130 := TwoBulk()], true, 1, 2000, 0), 2000, map[]);
    ReachableSnoc(s0, SubmitEvent(129, 3, true, 1000000));
    var both := map[130 := TwoBulk(), 129 := SlowIso()];
    var s1 := State(Sched(true, both, true, 1, 2000, 0), 2000, map[]);
    assert Step(s0, SubmitEvent(129, 3, true, 1000000)) == s1;
    ReachableSnoc(s1, TimerEvent([130, 129]));
    var served := map[130 := BusyBulk(), 129 := SlowIso()];
    assert ServeAll(both, 2000) == served;
    assert [130, 129][..1] == [130] && [130][..0] == [];
    assert Earliest(served, [130]) == None;
    assert Earliest(served, [130, 129]) == Some(1002000);
  }

  /** No submit is needed to make the wait late: the report of the first bulk URB frees the second, due at
      3000, while the wait stays armed for 1002000 and nothing is posted. */
  lemma DoneKeepsLateTimer()
    ensures exists st :: Reachable(st) && Prompt(st.s)
                         && !Prompt(OnUrbDone(st.s, 130, 1)) && OnUrbDone(st.s, 130, 1).posted == 0
  {
    ReachBusy();
    var st := State(Sched(true, map[130 := BusyBulk(), 129 := SlowIso()], true, 1, 1002000, 0), 2000, map[]);
    assert st.s.endpoints[130] == BusyBulk();
    assert Prompt(st.s);
    assert DoneOvertakes(st.s, 130, 1);
    DoneStaysPrompt(st.s, 130, 1);
  }
}
