/**
  What single calls of the scheduler achieve, seen from outside: cancel, the timer tick and the wait that
  follows it.
 */
module SchedulerSteps {
  import opened UsbIp
  import opened Scheduler
  import opened SchedulerEndpoint
  import opened SchedulerRuns

  predicate InProcessing(e: Endpoint, seqnum: Seqnum) { e.processing && e.processingSeqnum == seqnum }

  ghost predicate Queued(e: Endpoint, seqnum: Seqnum) {
    exists k :: 0 <= k < |e.queue| && e.queue[k].seqnum == seqnum
  }

  /** The endpoint lost its first URB with this number, to the cancelled ones. */
  ghost predicate LostFirst(e: Endpoint, seqnum: Seqnum, e': Endpoint) {
    exists k :: 0 <= k < |e.queue| && FirstWith(e.queue, seqnum, k)
                && QueueIds(e'.queue) == QueueIds(e.queue[..k] + e.queue[k + 1..])
                && e'.past.cancelled == e.past.cancelled + {e.queue[k].id}
                && e'.processing == e.processing && e'.past.handed == e.past.handed
  }

  predicate FirstWith(q: seq<Urb>, seqnum: Seqnum, k: nat) {
    k < |q| && q[k].seqnum == seqnum && forall i :: 0 <= i < k ==> q[i].seqnum != seqnum
  }

  lemma {:induction false} FirstIndexFinds(e: Endpoint, seqnum: Seqnum)
    ensures FirstIndex(e.queue, seqnum) < |e.queue| <==> Queued(e, seqnum)
    ensures Knows(e, seqnum) <==> InProcessing(e, seqnum) || Queued(e, seqnum)
  {
    var k := FirstIndex(e.queue, seqnum);
    if k < |e.queue| { assert e.queue[k].seqnum == seqnum; }
  }

  /** Cancel reports success exactly if some endpoint has the number queued and not in processing, and then
      that endpoint, and no other, loses its first URB with the number; otherwise nothing changes. */
  lemma {:induction false} CancelExactly(endpoints: map<Ep, Endpoint>, order: seq<Ep>, seqnum: Seqnum, now: int, ep: Ep)
    requires IsOrder(order, endpoints) && ep in endpoints
    requires forall x :: x in endpoints && x != ep ==>
               !InProcessing(endpoints[x], seqnum) && !Queued(endpoints[x], seqnum)
    ensures var (ok, m) := CancelScan(endpoints, order, seqnum, now);
            && (ok <==> Queued(endpoints[ep], seqnum) && !InProcessing(endpoints[ep], seqnum))
            && m.Keys == endpoints.Keys && (forall x :: x in endpoints && x != ep ==> m[x] == endpoints[x])
            && (if ok then LostFirst(endpoints[ep], seqnum, m[ep]) else m == endpoints)
  {
    forall x | x in endpoints
      ensures Knows(endpoints[x], seqnum) <==> InProcessing(endpoints[x], seqnum) || Queued(endpoints[x], seqnum)
    {
      FirstIndexFinds(endpoints[x], seqnum);
    }
    forall i | 0 <= i < |order| ensures order[i] in endpoints { assert order[i] in order; }
    FirstIndexFinds(endpoints[ep], seqnum);
    if Knows(endpoints[ep], seqnum) {
      assert ep in order;
      var x := CancelFinds(endpoints, order, seqnum, now);
      if Queued(endpoints[ep], seqnum) && !InProcessing(endpoints[ep], seqnum) {
        RemovedFirst(endpoints[ep], seqnum, now);
      }
    } else {
      CancelMisses(endpoints, order, seqnum, now);
    }
  }

  lemma {:induction false} RemovedFirst(e: Endpoint, seqnum: Seqnum, now: int)
    requires FirstIndex(e.queue, seqnum) < |e.queue|
    ensures LostFirst(e, seqnum, Remove(e, FirstIndex(e.queue, seqnum), now))
  {
    var k := FirstIndex(e.queue, seqnum);
    TrailArm(WithoutUrb(e, k), now);
    assert FirstWith(e.queue, seqnum, k);
    assert QueueIds(Remove(e, k, now).queue) == QueueIds(e.queue[..k] + e.queue[k + 1..]);
  }

  // ---- the timer tick ----

  predicate IsDue(e: Endpoint, now: int) { !e.processing && e.queue != [] && e.queue[0].serviceTime <= now }

  lemma {:induction false} DueListed(endpoints: map<Ep, Endpoint>, order: seq<Ep>, now: int)
    requires forall i :: 0 <= i < |order| ==> order[i] in endpoints
    requires forall i, j :: 0 <= i < j < |order| ==> order[i] != order[j]
    ensures var due := DueSeqnums(endpoints, order, now);
            && (forall x: (Ep, Seqnum) :: x in due <==>
                  && x.0 in order && x.0 in endpoints && IsDue(endpoints[x.0], now)
                  && x.1 == endpoints[x.0].queue[0].seqnum)
            && forall i, j :: 0 <= i < j < |due| ==> due[i].0 != due[j].0
  {
    if order != [] {
      var n := |order| - 1;
      DueListed(endpoints, order[..n], now);
      assert order == order[..n] + [order[n]];
      var front, due := DueSeqnums(endpoints, order[..n], now), DueSeqnums(endpoints, order, now);
      forall x: (Ep, Seqnum) | x in front ensures x.0 in order[..n] && x.0 != order[n] {}
      forall i, j | 0 <= i < j < |due| ensures due[i].0 != due[j].0 {
        if j == |front| { assert front[i] in front; }
      }
    }
  }

  /** A tick hands over exactly the heads that are due on endpoints that are not busy, one per endpoint:
      each is listed once, by endpoint and number, and from then on its endpoint is busy with it. */
  lemma {:induction false} TickExactly(endpoints: map<Ep, Endpoint>, order: seq<Ep>, now: int)
    requires IsOrder(order, endpoints)
    ensures var due, m := DueSeqnums(endpoints, order, now), ServeAll(endpoints, now);
            && (forall x: (Ep, Seqnum) :: x in due <==>
                  x.0 in endpoints && IsDue(endpoints[x.0], now) && x.1 == endpoints[x.0].queue[0].seqnum)
            && (forall i, j :: 0 <= i < j < |due| ==> due[i].0 != due[j].0)
            && (forall x: (Ep, Seqnum) :: x in due ==>
                  && x.0 in m && InProcessing(m[x.0], x.1)
                  && QueueIds(m[x.0].queue) == QueueIds(endpoints[x.0].queue[1..])
                  && HandedIds(m[x.0].past.handed)
                     == HandedIds(endpoints[x.0].past.handed) + [endpoints[x.0].queue[0].id])
            && (forall ep :: ep in endpoints && !IsDue(endpoints[ep], now) ==> ep in m && m[ep] == endpoints[ep])
  {
    forall i | 0 <= i < |order| ensures order[i] in endpoints { assert order[i] in order; }
    DueListed(endpoints, order, now);
    forall ep | ep in endpoints && IsDue(endpoints[ep], now)
      ensures var e := endpoints[ep];
              && InProcessing(Serve(e, now), e.queue[0].seqnum)
              && QueueIds(Serve(e, now).queue) == QueueIds(e.queue[1..])
              && HandedIds(Serve(e, now).past.handed) == HandedIds(e.past.handed) + [e.queue[0].id]
    {
    }
  }

  // ---- the wait ----

  /** A step that arms the timer afresh: a tick, or a posted reschedule that finds no wait. */
  predicate Arms(st: State, e: Event) { st.s.started && (e.TimerEvent? || (e.PostedEvent? && !st.s.timerPending)) }

  /** In every run such a step leaves a wait exactly if some idle endpoint has a URB queued, and the wait
      ends when the first of these URBs is due, neither earlier nor later. */
  lemma {:induction false} ArmsForEarliest(st: State, e: Event)
    requires Reachable(st) && Enabled(st, e) && Arms(st, e)
    ensures var s' := Step(st, e).s;
            && (s'.timerPending <==> HasIdleHead(s'.endpoints))
            && s'.waits == (if s'.timerPending then 1 else 0)
            && (s'.timerPending ==>
                  && (exists ep :: ep in s'.endpoints && IdleHead(s'.endpoints[ep])
                                   && s'.endpoints[ep].queue[0].serviceTime == s'.deadline)
                  && forall ep :: ep in s'.endpoints && IdleHead(s'.endpoints[ep]) ==>
                       s'.deadline <= s'.endpoints[ep].queue[0].serviceTime)
  {
    var t0, es :| t0 > 0 && Exec(t0, es) == Some(st);
    RunInvariant(t0, es);
    match e
    case TimerEvent(order) =>
      ArmedForEarliest(st.s.(timerPending := false, waits := 0, endpoints := ServeAll(st.s.endpoints, st.now)), order);
    case PostedEvent(order) => ArmedForEarliest(st.s.(posted := st.s.posted - 1), order);
  }

  lemma {:induction false} ArmedForEarliest(s: Sched, order: seq<Ep>)
    requires IsOrder(order, s.endpoints) && !s.timerPending && s.waits == 0
    ensures var s' := ScheduleNext(s, order);
            && s'.endpoints == s.endpoints && (s'.timerPending <==> HasIdleHead(s.endpoints))
            && s'.waits == (if s'.timerPending then 1 else 0)
            && (s'.timerPending ==>
                  && (exists ep :: ep in s.endpoints && IdleHead(s.endpoints[ep])
                                   && s.endpoints[ep].queue[0].serviceTime == s'.deadline)
                  && forall ep :: ep in s.endpoints && IdleHead(s.endpoints[ep]) ==>
                       s'.deadline <= s.endpoints[ep].queue[0].serviceTime)
  {
    EarliestIsLeast(s.endpoints, order);
    forall ep | ep in s.endpoints && IdleHead(s.endpoints[ep])
      ensures exists i :: 0 <= i < |order| && order[i] == ep && IdleHead(s.endpoints[order[i]])
    {
      assert ep in order;
    }
  }

  // ---- who is told ----

  /** An endpoint got a URB to serve while idle, or became idle with URBs queued. */
  ghost predicate BecomesReady(before: map<Ep, Endpoint>, after: map<Ep, Endpoint>) {
    exists ep :: ep in after && IdleHead(after[ep]) && !(ep in before && IdleHead(before[ep]))
  }

  /** A call posts one reschedule exactly if it makes an endpoint ready and no wait is pending, and none
      otherwise. */
  lemma {:induction false} PostsExactly(st: State, e: Event)
    requires Enabled(st, e) && (e.SubmitEvent? || e.DoneEvent? || e.CancelEvent?)
    ensures var s' := Step(st, e).s;
            s'.posted == st.s.posted + if BecomesReady(st.s.endpoints, s'.endpoints) && !st.s.timerPending then 1 else 0
  {
    match e
    case SubmitEvent(ep, seqnum, iso, delay) => SubmitPosts(st.s, ep, seqnum, iso, delay, st.now);
    case DoneEvent(ep, seqnum) => DonePosts(st.s, ep, seqnum);
    case CancelEvent(seqnum, order) => CancelReadiesNone(st.s.endpoints, order, seqnum, st.now);
  }

  lemma {:induction false} ReadyOne(endpoints: map<Ep, Endpoint>, ep: Ep, e: Endpoint)
    ensures BecomesReady(endpoints, endpoints[ep := e])
            <==> IdleHead(e) && !(ep in endpoints && IdleHead(endpoints[ep]))
  {
    assert endpoints[ep := e][ep] == e;
  }

  lemma {:induction false} SubmitPosts(s: Sched, ep: Ep, seqnum: Seqnum, iso: bool, delay: int, now: int)
    ensures var s' := SubmitUrb(s, ep, seqnum, iso, delay, now);
            s'.posted == s.posted + if BecomesReady(s.endpoints, s'.endpoints) && !s.timerPending then 1 else 0
  {
    if s.started {
      var e := if ep in s.endpoints then s.endpoints[ep] else NEW_ENDPOINT;
      ReadyOne(s.endpoints, ep, Append(e, seqnum, iso, delay, now));
    }
  }

  lemma {:induction false} DonePosts(s: Sched, ep: Ep, seqnum: Seqnum)
    ensures var s' := OnUrbDone(s, ep, seqnum);
            s'.posted == s.posted + if BecomesReady(s.endpoints, s'.endpoints) && !s.timerPending then 1 else 0
  {
    if ep in s.endpoints {
      ReadyOne(s.endpoints, ep, Release(s.endpoints[ep]));
    }
  }

  lemma {:induction false} CancelReadiesNone(endpoints: map<Ep, Endpoint>, order: seq<Ep>, seqnum: Seqnum, now: int)
    requires IsOrder(order, endpoints)
    ensures !BecomesReady(endpoints, CancelScan(endpoints, order, seqnum, now).1)
  {
    CancelShape(endpoints, order, seqnum, now);
    var m := CancelScan(endpoints, order, seqnum, now).1;
    if m != endpoints {
      var ep, k :| ep in endpoints && 0 <= k < |endpoints[ep].queue|
                   && m == endpoints[ep := Remove(endpoints[ep], k, now)];
      ReadyOne(endpoints, ep, Remove(endpoints[ep], k, now));
    }
  }
}
