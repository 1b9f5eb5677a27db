/**
  Whole runs of the scheduler between start() and stop(), over every interleaving of callers, the
  timer and the posted reschedules, with a clock that never goes back.
 */
module SchedulerRuns {
  import opened UsbIp
  import opened Scheduler
  import opened SchedulerEndpoint
  import opened SchedulerPacing

  /** dropped keeps the endpoints as stop() found them. */
  datatype State = State(s: Sched, now: int, dropped: map<Ep, Endpoint>)

  datatype Event =
    | Tick(d: nat)
    | SubmitEvent(ep: Ep, seqnum: Seqnum, iso: bool, delay: int)
    | DoneEvent(ep: Ep, seqnum: Seqnum)
    | CancelEvent(seqnum: Seqnum, order: seq<Ep>)
    | PostedEvent(order: seq<Ep>)
    | TimerEvent(order: seq<Ep>)
    | StopEvent

  /** A wait completes once its deadline has passed, or when stop() cancelled it. */
  ghost predicate Enabled(st: State, e: Event) {
    match e
    case CancelEvent(_, order) => IsOrder(order, st.s.endpoints)
    case PostedEvent(order) => st.s.posted > 0 && IsOrder(order, st.s.endpoints)
    case TimerEvent(order) =>
      st.s.waits > 0 && IsOrder(order, st.s.endpoints) && (st.s.started ==> st.s.deadline <= st.now)
    case _ => true
  }

  ghost function Step(st: State, e: Event): State
    requires Enabled(st, e)
  {
    match e
    case Tick(d) => st.(now := st.now + d)
    case SubmitEvent(ep, seqnum, iso, delay) => st.(s := SubmitUrb(st.s, ep, seqnum, iso, delay, st.now))
    case DoneEvent(ep, seqnum) => st.(s := OnUrbDone(st.s, ep, seqnum))
    case CancelEvent(seqnum, order) => st.(s := st.s.(endpoints := CancelScan(st.s.endpoints, order, seqnum, st.now).1))
    case PostedEvent(order) => st.(s := ScheduleOnThread(st.s, order))
    case TimerEvent(order) => st.(s := OnTimer(st.s, order, st.now))
    case StopEvent => if st.s.started then State(Stopped(st.s), st.now, st.s.endpoints) else st
  }

  /** The state after a schedule of events from start() at time t0, if each was enabled. */
  ghost function Exec(t0: int, es: seq<Event>): Option<State> {
    if es == [] then Some(State(STARTED, t0, map[]))
    else
      match Exec(t0, es[..|es| - 1])
      case None => None
      case Some(st) => if Enabled(st, es[|es| - 1]) then Some(Step(st, es[|es| - 1])) else None
  }

  /** The monotonic clock is past its epoch when the scheduler starts. */
  ghost predicate Reachable(st: State) { exists t0, es :: t0 > 0 && Exec(t0, es) == Some(st) }

  /** An endpoint of a run, alive or as stop() left it. */
  ghost predicate EndpointOf(st: State, ep: Ep, e: Endpoint) {
    || (ep in st.s.endpoints && st.s.endpoints[ep] == e)
    || (ep in st.dropped && st.dropped[ep] == e)
  }

  // ---- one endpoint at a time ----

  ghost predicate Sound(e: Endpoint, now: int) { Accounted(e, now) && Paced(e) }

  ghost predicate AllSound(endpoints: map<Ep, Endpoint>, now: int) {
    forall ep :: ep in endpoints ==> Sound(endpoints[ep], now)
  }

  lemma NewSound(now: int)
    ensures Sound(NEW_ENDPOINT, now)
  {
    var e := NEW_ENDPOINT;
    assert Trail(e) == [];
    assert Increasing(Trail(e), 0) && Partition(Trail(e), {}, 0) && Faithful(e) && Serving(e) && Timely(e, now);
    assert Chain(e);
  }

  lemma UpdateSound(endpoints: map<Ep, Endpoint>, ep: Ep, e: Endpoint, now: int)
    requires AllSound(endpoints, now) && Sound(e, now)
    ensures AllSound(endpoints[ep := e], now)
  {
  }

  lemma LaterSound(endpoints: map<Ep, Endpoint>, now: int, d: nat)
    requires AllSound(endpoints, now)
    ensures AllSound(endpoints, now + d)
  {
    forall ep | ep in endpoints ensures Sound(endpoints[ep], now + d) {
      assert Sound(endpoints[ep], now);
    }
  }

  lemma AppendSound(e: Endpoint, seqnum: Seqnum, iso: bool, delay: int, now: int)
    requires Sound(e, now) && now > 0
    ensures Sound(Append(e, seqnum, iso, delay, now), now)
  {
    AppendKeepsAccounts(e, seqnum, iso, delay, now);
    AppendKeepsPace(e, seqnum, iso, delay, now);
  }

  lemma ServeSound(e: Endpoint, now: int)
    requires Sound(e, now) && now > 0
    ensures Sound(Serve(e, now), now)
  {
    ServeKeepsAccounts(e, now);
    ServeKeepsPace(e, now);
  }

  lemma RemoveSound(e: Endpoint, k: nat, now: int)
    requires Sound(e, now) && now > 0 && k < |e.queue|
    ensures Sound(Remove(e, k, now), now)
  {
    RemoveKeepsAccounts(e, k, now);
    RemoveKeepsPace(e, k, now);
  }

  lemma ReleaseSound(e: Endpoint, now: int)
    requires Sound(e, now)
    ensures Sound(Release(e), now)
  {
    assert Trail(Release(e)) == Trail(e);
  }

  // ---- cancel over the table ----

  /** The endpoint has this number in processing or queued. */
  predicate Knows(e: Endpoint, seqnum: Seqnum) {
    (e.processing && e.processingSeqnum == seqnum) || FirstIndex(e.queue, seqnum) < |e.queue|
  }

  /** Cancel on the endpoint known to hold the number. */
  function CancelAt(endpoints: map<Ep, Endpoint>, ep: Ep, seqnum: Seqnum, now: int): (bool, map<Ep, Endpoint>)
    requires ep in endpoints && Knows(endpoints[ep], seqnum)
  {
    var e := endpoints[ep];
    if e.processing && e.processingSeqnum == seqnum then (false, endpoints)
    else (true, endpoints[ep := Remove(e, FirstIndex(e.queue, seqnum), now)])
  }

  lemma {:induction false} CancelMisses(endpoints: map<Ep, Endpoint>, order: seq<Ep>, seqnum: Seqnum, now: int)
    requires forall i :: 0 <= i < |order| ==> order[i] in endpoints && !Knows(endpoints[order[i]], seqnum)
    ensures CancelScan(endpoints, order, seqnum, now) == (false, endpoints)
  {
    if order != [] {
      CancelMisses(endpoints, order[1..], seqnum, now);
    }
  }

  lemma {:induction false} CancelFinds(endpoints: map<Ep, Endpoint>, order: seq<Ep>, seqnum: Seqnum,
                                       now: int) returns (ep: Ep)
    requires forall i :: 0 <= i < |order| ==> order[i] in endpoints
    requires exists i :: 0 <= i < |order| && Knows(endpoints[order[i]], seqnum)
    ensures ep in order && Knows(endpoints[ep], seqnum)
    ensures CancelScan(endpoints, order, seqnum, now) == CancelAt(endpoints, ep, seqnum, now)
  {
    if Knows(endpoints[order[0]], seqnum) {
      ep := order[0];
    } else {
      var i :| 0 <= i < |order| && Knows(endpoints[order[i]], seqnum);
      assert order[1..][i - 1] == order[i];
      ep := CancelFinds(endpoints, order[1..], seqnum, now);
    }
  }

  /** As long as a sequence number lives on at most one endpoint, the hash order in which cancel
      visits the endpoints does not show. */
  lemma CancelIgnoresOrder(endpoints: map<Ep, Endpoint>, a: seq<Ep>, b: seq<Ep>, seqnum: Seqnum, now: int)
    requires IsOrder(a, endpoints) && IsOrder(b, endpoints)
    requires forall x, y ::
               x in endpoints && Knows(endpoints[x], seqnum) && y in endpoints && Knows(endpoints[y], seqnum) ==> x == y
    ensures CancelScan(endpoints, a, seqnum, now) == CancelScan(endpoints, b, seqnum, now)
  {
    if x :| x in endpoints && Knows(endpoints[x], seqnum) {
      assert x in a && x in b;
      var p := CancelFinds(endpoints, a, seqnum, now);
      var q := CancelFinds(endpoints, b, seqnum, now);
      assert p == q;
    } else {
      forall i | 0 <= i < |a| ensures a[i] in endpoints && !Knows(endpoints[a[i]], seqnum) { assert a[i] in a; }
      forall i | 0 <= i < |b| ensures b[i] in endpoints && !Knows(endpoints[b[i]], seqnum) { assert b[i] in b; }
      CancelMisses(endpoints, a, seqnum, now);
      CancelMisses(endpoints, b, seqnum, now);
    }
  }

  /** Cancel changes at most one endpoint, and that by removing one URB. */
  lemma CancelShape(endpoints: map<Ep, Endpoint>, order: seq<Ep>, seqnum: Seqnum, now: int)
    requires IsOrder(order, endpoints)
    ensures var m := CancelScan(endpoints, order, seqnum, now).1;
            || m == endpoints
            || exists ep, k :: ep in endpoints && 0 <= k < |endpoints[ep].queue|
                               && m == endpoints[ep := Remove(endpoints[ep], k, now)]
  {
    if i :| 0 <= i < |order| && Knows(endpoints[order[i]], seqnum) {
      var ep := CancelFinds(endpoints, order, seqnum, now);
      var k := FirstIndex(endpoints[ep].queue, seqnum);
      if CancelScan(endpoints, order, seqnum, now).1 != endpoints {
        assert ep in endpoints && 0 <= k < |endpoints[ep].queue|;
      }
    } else {
      CancelMisses(endpoints, order, seqnum, now);
    }
  }

  lemma CancelSound(endpoints: map<Ep, Endpoint>, order: seq<Ep>, seqnum: Seqnum, now: int)
    requires IsOrder(order, endpoints) && AllSound(endpoints, now) && now > 0
    ensures AllSound(CancelScan(endpoints, order, seqnum, now).1, now)
  {
    CancelShape(endpoints, order, seqnum, now);
    var m := CancelScan(endpoints, order, seqnum, now).1;
    if m != endpoints {
      var ep, k :| ep in endpoints && 0 <= k < |endpoints[ep].queue|
                   && m == endpoints[ep := Remove(endpoints[ep], k, now)];
      RemoveSound(endpoints[ep], k, now);
    }
  }

  lemma ServeAllSound(endpoints: map<Ep, Endpoint>, now: int)
    requires AllSound(endpoints, now) && now > 0
    ensures AllSound(ServeAll(endpoints, now), now)
  {
    forall ep | ep in endpoints ensures Sound(Serve(endpoints[ep], now), now) { ServeSound(endpoints[ep], now); }
  }

  lemma SubmitSound(s: Sched, ep: Ep, seqnum: Seqnum, iso: bool, delay: int, now: int)
    requires AllSound(s.endpoints, now) && now > 0
    ensures AllSound(SubmitUrb(s, ep, seqnum, iso, delay, now).endpoints, now)
  {
    NewSound(now);
    var e := if ep in s.endpoints then s.endpoints[ep] else NEW_ENDPOINT;
    AppendSound(e, seqnum, iso, delay, now);
    UpdateSound(s.endpoints, ep, Append(e, seqnum, iso, delay, now), now);
  }

  lemma DoneSound(s: Sched, ep: Ep, seqnum: Seqnum, now: int)
    requires AllSound(s.endpoints, now)
    ensures AllSound(OnUrbDone(s, ep, seqnum).endpoints, now)
  {
    if ep in s.endpoints {
      ReleaseSound(s.endpoints[ep], now);
    }
  }

  lemma SoundStep(st: State, e: Event)
    requires Enabled(st, e) && st.now > 0 && AllSound(st.s.endpoints, st.now) && AllSound(st.dropped, st.now)
    ensures var st' := Step(st, e); st'.now > 0 && AllSound(st'.s.endpoints, st'.now) && AllSound(st'.dropped, st'.now)
  {
    match e
    case Tick(d) => LaterSound(st.s.endpoints, st.now, d); LaterSound(st.dropped, st.now, d);
    case SubmitEvent(ep, seqnum, iso, delay) => SubmitSound(st.s, ep, seqnum, iso, delay, st.now);
    case DoneEvent(ep, seqnum) => DoneSound(st.s, ep, seqnum, st.now);
    case CancelEvent(seqnum, order) => CancelSound(st.s.endpoints, order, seqnum, st.now);
    case PostedEvent(order) =>
    case TimerEvent(order) => ServeAllSound(st.s.endpoints, st.now);
    case StopEvent =>
  }

  // ---- the timer ----

  ghost predicate HasIdleHead(endpoints: map<Ep, Endpoint>) {
    exists ep :: ep in endpoints && IdleHead(endpoints[ep])
  }

  /** schedule_next finds nothing exactly when no endpoint is idle with a URB queued; otherwise it
      finds the least service time of such heads. */
  lemma {:induction false} EarliestIsLeast(endpoints: map<Ep, Endpoint>, order: seq<Ep>)
    requires forall i :: 0 <= i < |order| ==> order[i] in endpoints
    ensures var r := Earliest(endpoints, order);
            && (r.Some? <==> exists i :: 0 <= i < |order| && IdleHead(endpoints[order[i]]))
            && (r.Some? ==>
                  exists i :: 0 <= i < |order| && IdleHead(endpoints[order[i]])
                              && endpoints[order[i]].queue[0].serviceTime == r.value)
            && (forall i :: 0 <= i < |order| && IdleHead(endpoints[order[i]]) ==>
                  r.Some? && r.value <= endpoints[order[i]].queue[0].serviceTime)
  {
    if order != [] {
      var front := order[..|order| - 1];
      EarliestIsLeast(endpoints, front);
      forall i | 0 <= i < |front| ensures front[i] == order[i] {}
      var best := Earliest(endpoints, front);
      if best.Some? {
        var i :| 0 <= i < |front| && IdleHead(endpoints[front[i]])
                 && endpoints[front[i]].queue[0].serviceTime == best.value;
        assert order[i] == front[i];
      }
    }
  }

  /** One wait outstanding exactly while the flag is set, and a wait or a posted reschedule
      whenever an idle endpoint has work. */
  ghost predicate Awake(s: Sched) {
    && s.waits <= 1
    && (s.started ==> s.waits == if s.timerPending then 1 else 0)
    && (s.started && HasIdleHead(s.endpoints) ==> s.timerPending || s.posted > 0)
    && (!s.started ==> s.endpoints == map[])
  }

  lemma ScheduleNextAwake(s: Sched, order: seq<Ep>)
    requires IsOrder(order, s.endpoints) && s.started && s.waits == 0 && !s.timerPending
    ensures Awake(ScheduleNext(s, order))
  {
    EarliestIsLeast(s.endpoints, order);
    if HasIdleHead(s.endpoints) {
      var ep :| ep in s.endpoints && IdleHead(s.endpoints[ep]);
      assert ep in order;
      var i :| 0 <= i < |order| && order[i] == ep;
      assert IdleHead(s.endpoints[order[i]]);
    }
  }

  lemma SubmitAwake(s: Sched, ep: Ep, seqnum: Seqnum, iso: bool, delay: int, now: int)
    requires Awake(s)
    ensures Awake(SubmitUrb(s, ep, seqnum, iso, delay, now))
  {
    var s' := SubmitUrb(s, ep, seqnum, iso, delay, now);
    if s.started && HasIdleHead(s'.endpoints) {
      var x :| x in s'.endpoints && IdleHead(s'.endpoints[x]);
      if x != ep || (ep in s.endpoints && s.endpoints[ep].queue != []) {
        assert IdleHead(s.endpoints[x]);
      }
    }
  }

  lemma DoneAwake(s: Sched, ep: Ep, seqnum: Seqnum)
    requires Awake(s)
    ensures Awake(OnUrbDone(s, ep, seqnum))
  {
    var s' := OnUrbDone(s, ep, seqnum);
    if s.started && HasIdleHead(s'.endpoints) && s' != s {
      var x :| x in s'.endpoints && IdleHead(s'.endpoints[x]);
      if x != ep {
        assert IdleHead(s.endpoints[x]);
      }
    }
  }

  lemma CancelAwake(s: Sched, order: seq<Ep>, seqnum: Seqnum, now: int)
    requires Awake(s) && IsOrder(order, s.endpoints)
    ensures Awake(s.(endpoints := CancelScan(s.endpoints, order, seqnum, now).1))
  {
    CancelShape(s.endpoints, order, seqnum, now);
    var m := CancelScan(s.endpoints, order, seqnum, now).1;
    if m != s.endpoints {
      var ep, k :| ep in s.endpoints && 0 <= k < |s.endpoints[ep].queue|
                   && m == s.endpoints[ep := Remove(s.endpoints[ep], k, now)];
      if HasIdleHead(m) {
        var x :| x in m && IdleHead(m[x]);
        assert IdleHead(s.endpoints[x]);
      }
    }
  }

  lemma AwakeStep(st: State, e: Event)
    requires Enabled(st, e) && Awake(st.s)
    ensures Awake(Step(st, e).s)
  {
    match e
    case Tick(d) =>
    case SubmitEvent(ep, seqnum, iso, delay) => SubmitAwake(st.s, ep, seqnum, iso, delay, st.now);
    case DoneEvent(ep, seqnum) => DoneAwake(st.s, ep, seqnum);
    case CancelEvent(seqnum, order) => CancelAwake(st.s, order, seqnum, st.now);
    case PostedEvent(order) =>
      if st.s.started && !st.s.timerPending { ScheduleNextAwake(st.s.(posted := st.s.posted - 1), order); }
    case TimerEvent(order) =>
      if st.s.started {
        ScheduleNextAwake(st.s.(timerPending := false, waits := st.s.waits - 1,
                                endpoints := ServeAll(st.s.endpoints, st.now)), order);
      }
    case StopEvent =>
  }

  lemma {:induction false} RunInvariant(t0: int, es: seq<Event>)
    requires t0 > 0 && Exec(t0, es).Some?
    ensures var st := Exec(t0, es).value;
            st.now > 0 && Awake(st.s) && AllSound(st.s.endpoints, st.now) && AllSound(st.dropped, st.now)
  {
    if es != [] {
      RunInvariant(t0, es[..|es| - 1]);
      var prev := Exec(t0, es[..|es| - 1]).value;
      AwakeStep(prev, es[|es| - 1]);
      SoundStep(prev, es[|es| - 1]);
    }
  }

  lemma ReachableSound(st: State, ep: Ep, e: Endpoint)
    requires Reachable(st) && EndpointOf(st, ep, e)
    ensures Accounted(e, st.now) && Paced(e)
  {
    var t0, es :| t0 > 0 && Exec(t0, es) == Some(st);
    RunInvariant(t0, es);
    assert Sound(e, st.now);
  }

  // ---- theorems ----

  /** The scheduler never stalls, and never has two timer waits outstanding. */
  lemma NeverStalls(st: State)
    requires Reachable(st)
    ensures st.s.waits <= 1
    ensures st.s.started && HasIdleHead(st.s.endpoints) ==> st.s.waits == 1 || st.s.posted > 0
    ensures !st.s.started ==> st.s.endpoints == map[]
  {
    var t0, es :| t0 > 0 && Exec(t0, es) == Some(st);
    RunInvariant(t0, es);
  }

  lemma OnePlace(h: seq<nat>, q: seq<nat>, cancelled: set<nat>, n: nat, id: nat)
    requires Increasing(h + q, n) && Partition(h + q, cancelled, n) && id < n
    ensures id in cancelled <==> !(id in h || id in q)
    ensures !(id in h && id in q)
  {
    forall i, j | 0 <= i < |h| && 0 <= j < |q| ensures h[i] < q[j] {
      assert (h + q)[i] < (h + q)[|h| + j];
    }
  }

  lemma OrderedHandOvers(e: Endpoint)
    requires Increasing(Trail(e), |e.past.log|)
    ensures forall i, j :: 0 <= i < j < |e.past.handed| ==> e.past.handed[i].id < e.past.handed[j].id < |e.past.log|
    ensures forall i, j :: 0 <= i < |e.past.handed| && 0 <= j < |e.queue| ==> e.past.handed[i].id < e.queue[j].id
  {
    var t, n := Trail(e), |e.past.handed|;
    forall i, j | 0 <= i < j < n ensures e.past.handed[i].id < e.past.handed[j].id < |e.past.log| {
      assert t[i] == e.past.handed[i].id && t[j] == e.past.handed[j].id;
    }
    forall i, j | 0 <= i < n && 0 <= j < |e.queue| ensures e.past.handed[i].id < e.queue[j].id {
      assert t[i] == e.past.handed[i].id && t[n + j] == e.queue[j].id;
    }
  }

  /** Every URB a run ever queued is in exactly one place: handed over, still queued (dropped, once
      stop() ran) or cancelled; hand-overs follow the order of submission and happen at most once
      each; at most one URB is in processing, and it is the one handed over last. */
  lemma Conservation(st: State, ep: Ep, e: Endpoint, id: nat)
    requires Reachable(st) && EndpointOf(st, ep, e) && id < |e.past.log|
    ensures id in e.past.cancelled <==> !(id in HandedIds(e.past.handed) || id in QueueIds(e.queue))
    ensures !(id in HandedIds(e.past.handed) && id in QueueIds(e.queue))
    ensures forall i, j :: 0 <= i < j < |e.past.handed| ==> e.past.handed[i].id < e.past.handed[j].id < |e.past.log|
    ensures forall i, j :: 0 <= i < |e.past.handed| && 0 <= j < |e.queue| ==> e.past.handed[i].id < e.queue[j].id
    ensures Serving(e)
  {
    ReachableSound(st, ep, e);
    OnePlace(HandedIds(e.past.handed), QueueIds(e.queue), e.past.cancelled, |e.past.log|, id);
    OrderedHandOvers(e);
  }

  /** A report for a URB that is not the one in processing (it was already released, or is queued, or was
      cancelled) changes nothing, exactly unless the one in processing has the same sequence number. */
  lemma LateDoneIgnored(st: State, ep: Ep, id: nat)
    requires Reachable(st) && ep in st.s.endpoints
    requires var e := st.s.endpoints[ep];
             && id < |e.past.log|
             && (e.processing ==> e.past.handed != [] && id != e.past.handed[|e.past.handed| - 1].id)
    ensures var e := st.s.endpoints[ep];
            var seqnum := e.past.log[id].seqnum;
            && (e.processing ==> e.past.handed[|e.past.handed| - 1].id < |e.past.log|)
            && (OnUrbDone(st.s, ep, seqnum) == st.s <==>
                  !e.processing || e.past.log[e.past.handed[|e.past.handed| - 1].id].seqnum != seqnum)
  {
    ReachableSound(st, ep, st.s.endpoints[ep]);
    RunStarted(st);
    var e := st.s.endpoints[ep];
    var s' := OnUrbDone(st.s, ep, e.past.log[id].seqnum);
    if e.processing && e.processingSeqnum == e.past.log[id].seqnum {
      assert !s'.endpoints[ep].processing;
    }
  }

  lemma RunStarted(st: State)
    requires Reachable(st) && st.s.endpoints != map[]
    ensures st.s.started
  {
    var t0, es :| t0 > 0 && Exec(t0, es) == Some(st);
    RunInvariant(t0, es);
  }

  lemma HandedInLog(e: Endpoint, now: int)
    requires Accounted(e, now)
    ensures forall i :: 0 <= i < |e.past.handed| ==> e.past.handed[i].id < |e.past.log|
  {
    forall i | 0 <= i < |e.past.handed| ensures e.past.handed[i].id < |e.past.log| {
      assert Trail(e)[i] == e.past.handed[i].id;
    }
  }

  /** Over a whole run an isochronous endpoint whose URBs ask for no negative delay serves them at
      least the sum of their delays apart, and none before its service time. */
  lemma PacingBound(st: State, ep: Ep, e: Endpoint, lo: nat, hi: nat)
    requires Reachable(st) && EndpointOf(st, ep, e) && IsoPaced(e.past.log) && !e.past.orphaned
    requires lo <= hi < |e.past.handed|
    ensures forall i :: 0 <= i < |e.past.handed| ==> e.past.handed[i].id < |e.past.log|
    ensures e.past.handed[hi].serviceTime - e.past.handed[lo].serviceTime
            >= SumDelays(e.past.log, e.past.handed, lo, hi)
    ensures forall i :: 0 <= i < |e.past.handed| ==> e.past.handed[i].serviceTime <= e.past.handed[i].at <= st.now
  {
    ReachableSound(st, ep, e);
    HandedInLog(e, st.now);
    SpacedSum(e.past.log, e.past.handed, lo, hi);
  }

  lemma MicrophoneIsPaced(log: seq<Urb>, declared: seq<nat>, bytesPerSecond: nat)
    requires bytesPerSecond > 0 && Microphone(log, declared, bytesPerSecond)
    ensures IsoPaced(log)
  {
    forall i | 0 <= i < |log| ensures log[i].iso && log[i].delay >= 0 {
      DurationBounds(declared[i], bytesPerSecond);
    }
  }

  /** The microphone never outruns its sample rate: whatever the host submits and whenever, the
      declared bytes of URBs lo+1 .. hi stay below what the elapsed service time carries. */
  lemma MicrophoneNeverOutrunsRate(st: State, ep: Ep, e: Endpoint, declared: seq<nat>, bytesPerSecond: nat, lo: nat,
                                   hi: nat)
    requires Reachable(st) && EndpointOf(st, ep, e) && !e.past.orphaned
    requires bytesPerSecond > 0 && Microphone(e.past.log, declared, bytesPerSecond)
    requires lo < hi < |e.past.handed|
    ensures forall i :: 0 <= i < |e.past.handed| ==> e.past.handed[i].id < |e.past.log|
    ensures SumDeclared(declared, e.past.handed, lo, hi) * 1000000
            < (e.past.handed[hi].serviceTime - e.past.handed[lo].serviceTime + (hi - lo)) * bytesPerSecond
  {
    ReachableSound(st, ep, e);
    HandedInLog(e, st.now);
    MicrophoneIsPaced(e.past.log, declared, bytesPerSecond);
    MicrophoneRate(e.past.log, e.past.handed, declared, bytesPerSecond, lo, hi);
  }
}
