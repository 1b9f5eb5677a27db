/**
  When URBs are due, exactly: the service time of every hand-over in terms of when it was submitted and
  when the one before it was taken.
 */
module SchedulerTimes {
  import opened UsbIp
  import opened Scheduler
  import opened SchedulerEndpoint
  import opened SchedulerPacing
  import opened SchedulerRuns

  /** t is the service time of a URB armed at this moment on a chain that stands at base: an isochronous
      one is due its delay after the base, or at once if that has passed; any other one on the next
      boundary of the 1 ms grid. */
  predicate DueAt(u: Urb, armed: int, base: int, t: int) {
    if u.iso then t >= armed && t >= base + u.delay && (t == armed || t == base + u.delay)
    else t % 1000 == 0 && t > armed && t > base && (t <= armed + 1000 || t <= base + 1000)
  }

  /** arm_next gives the head such a time and moves the chain there; a fresh chain stands at the present. */
  lemma {:induction false} ArmedExactly(e: Endpoint, now: int)
    requires e.queue != []
    ensures var e' := ArmNext(e, now);
            && DueAt(e.queue[0], now, if e.lastScheduled == 0 then now else e.lastScheduled, e'.lastScheduled)
            && e'.queue == [e.queue[0].(serviceTime := e'.lastScheduled)] + e.queue[1..]
            && e' == e.(queue := e'.queue, lastScheduled := e'.lastScheduled)
  {
  }

  /** Times do not depend on the service time noted in the URB. */
  lemma {:induction false} DueAtStored(u: Urb, v: Urb, armed: int, base: int, t: int)
    requires v == u.(serviceTime := v.serviceTime)
    ensures DueAt(u, armed, base, t) <==> DueAt(v, armed, base, t)
  {
  }

  // ---- not before it was submitted ----

  ghost predicate Stamped(e: Endpoint, now: int) {
    |e.past.times| == |e.past.log| && forall i :: 0 <= i < |e.past.times| ==> 0 < e.past.times[i] <= now
  }

  /** Never armed, or due no earlier than it was submitted. */
  predicate NotBefore(times: seq<int>, id: nat, t: int) { id < |times| && (t == 0 || t >= times[id]) }

  ghost predicate Punctual(e: Endpoint) {
    && (forall i :: 0 <= i < |e.past.handed| ==>
          NotBefore(e.past.times, e.past.handed[i].id, e.past.handed[i].serviceTime))
    && (forall i :: 0 <= i < |e.queue| ==> NotBefore(e.past.times, e.queue[i].id, e.queue[i].serviceTime))
  }

  // ---- the exact chain ----

  /** What the URB after hand-over number i - 1 must be given: it becomes the head when it is submitted or
      when that one is taken, whichever is later, and the chain then stands at that one's service time. */
  predicate Planned(past: Past, i: nat, id: nat, t: int)
    requires i <= |past.handed| && id < |past.log| == |past.times|
  {
    if i == 0 then DueAt(past.log[id], past.times[id], past.times[id], t)
    else DueAt(past.log[id], Max(past.times[id], past.handed[i - 1].at), past.handed[i - 1].serviceTime, t)
  }

  ghost predicate HandedAsPlanned(past: Past) {
    && |past.log| == |past.times|
    && forall i :: 0 <= i < |past.handed| ==>
         past.handed[i].id < |past.log| && Planned(past, i, past.handed[i].id, past.handed[i].serviceTime)
  }

  /** The chain stands at the head's service time, or at that of the last hand-over. */
  ghost predicate ChainHead(e: Endpoint) {
    var n := |e.past.handed|;
    && |e.past.log| == |e.past.times|
    && (n > 0 ==> e.past.handed[n - 1].serviceTime > 0)
    && if e.queue == [] then e.lastScheduled == if n == 0 then 0 else e.past.handed[n - 1].serviceTime
       else
         && e.queue[0].id < |e.past.log| && e.lastScheduled == e.queue[0].serviceTime > 0
         && Planned(e.past, n, e.queue[0].id, e.lastScheduled)
  }

  ghost predicate OnPlan(e: Endpoint) { !e.past.disturbed ==> HandedAsPlanned(e.past) && ChainHead(e) }

  ghost predicate Dated(e: Endpoint, now: int) { Stamped(e, now) && Punctual(e) && OnPlan(e) }

  // ---- operations ----

  lemma {:induction false} ArmPunctual(e: Endpoint, now: int)
    requires Stamped(e, now) && Punctual(e)
    ensures Punctual(ArmNext(e, now))
  {
    if e.queue != [] {
      ArmedExactly(e, now);
      var e' := ArmNext(e, now);
      forall i | 0 <= i < |e'.queue| ensures NotBefore(e'.past.times, e'.queue[i].id, e'.queue[i].serviceTime) {
        assert NotBefore(e.past.times, e.queue[i].id, e.queue[i].serviceTime);
      }
    }
  }

  lemma {:induction false} PlannedGrow(past: Past, u: Urb, now: int, i: nat, id: nat, t: int)
    requires |past.log| == |past.times| && i <= |past.handed| && id < |past.log|
    ensures Planned(Logged(past, u, now), i, id, t) <==> Planned(past, i, id, t)
  {
  }

  lemma {:induction false} AppendDated(e: Endpoint, seqnum: Seqnum, iso: bool, delay: int, now: int)
    requires Accounted(e, now) && Dated(e, now) && now > 0
    ensures Dated(Append(e, seqnum, iso, delay, now), now)
  {
    var u := Urb(|e.past.log|, seqnum, iso, delay, 0);
    var past := Logged(e.past, u, now);
    var e' := e.(queue := e.queue + [u], past := past);
    assert Stamped(e', now);
    assert Punctual(e') by {
      forall i | 0 <= i < |e.past.handed|
        ensures NotBefore(past.times, e.past.handed[i].id, e.past.handed[i].serviceTime)
      {
        assert NotBefore(e.past.times, e.past.handed[i].id, e.past.handed[i].serviceTime);
      }
      forall i | 0 <= i < |e.queue| ensures NotBefore(past.times, e.queue[i].id, e.queue[i].serviceTime) {
        assert NotBefore(e.past.times, e.queue[i].id, e.queue[i].serviceTime);
      }
    }
    if e.queue == [] { ArmPunctual(e', now); }
    if !e.past.disturbed { AppendOnPlan(e, u, now); }
  }

  /** The history with one more URB submitted. */
  function Logged(past: Past, u: Urb, now: int): Past {
    past.(log := past.log + [u], times := past.times + [now])
  }

  lemma {:induction false} PlansLogged(past: Past, u: Urb, now: int)
    requires HandedAsPlanned(past)
    ensures HandedAsPlanned(Logged(past, u, now))
  {
    forall i | 0 <= i < |past.handed|
      ensures Planned(Logged(past, u, now), i, past.handed[i].id, past.handed[i].serviceTime)
    {
      PlannedGrow(past, u, now, i, past.handed[i].id, past.handed[i].serviceTime);
    }
  }

  lemma {:induction false} HeadLogged(e: Endpoint, u: Urb, now: int)
    requires ChainHead(e) && e.queue != []
    ensures ChainHead(e.(queue := e.queue + [u], past := Logged(e.past, u, now)))
  {
    PlannedGrow(e.past, u, now, |e.past.handed|, e.queue[0].id, e.lastScheduled);
  }

  lemma {:induction false} AppendOnPlan(e: Endpoint, u: Urb, now: int)
    requires Timely(e, now) && HandedAsPlanned(e.past) && ChainHead(e) && now > 0
    requires u.id == |e.past.log| && u.serviceTime == 0
    ensures HandedAsPlanned(Logged(e.past, u, now))
    ensures var e' := e.(queue := e.queue + [u], past := Logged(e.past, u, now));
            ChainHead(if e.queue == [] then ArmNext(e', now) else e')
  {
    PlansLogged(e.past, u, now);
    if e.queue == [] {
      FirstOnPlan(e.(queue := e.queue + [u], past := Logged(e.past, u, now)), now);
    } else {
      HeadLogged(e, u, now);
    }
  }

  /** A URB submitted to an empty queue. */
  lemma {:induction false} FirstOnPlan(e: Endpoint, now: int)
    requires |e.queue| == 1 && |e.past.log| == |e.past.times| > 0 && now > 0
    requires e.queue[0] == e.past.log[|e.past.log| - 1] && e.queue[0].id == |e.past.log| - 1
    requires e.past.times[|e.past.log| - 1] == now
    requires e.past.handed == [] ==> e.lastScheduled == 0
    requires e.past.handed != [] ==>
               var h := e.past.handed[|e.past.handed| - 1]; e.lastScheduled == h.serviceTime > 0 && h.at <= now
    ensures ChainHead(ArmNext(e, now))
  {
    ArmedExactly(e, now);
  }

  lemma {:induction false} ServeDated(e: Endpoint, now: int)
    requires Accounted(e, now) && Dated(e, now) && now > 0
    ensures Dated(Serve(e, now), now)
  {
    if Due(e, now) {
      var u := e.queue[0];
      var past := e.past.(handed := e.past.handed + [Handed(u.id, u.serviceTime, now)]);
      var e' := e.(queue := e.queue[1..], processing := true, processingSeqnum := u.seqnum, past := past);
      assert NotBefore(e.past.times, u.id, u.serviceTime);
      ArmPunctual(e', now);
      if !e.past.disturbed { ServeOnPlan(e, now); }
    }
  }

  lemma {:induction false} ServeOnPlan(e: Endpoint, now: int)
    requires Faithful(e) && Stamped(e, now) && Due(e, now) && HandedAsPlanned(e.past) && ChainHead(e) && now > 0
    ensures HandedAsPlanned(Serve(e, now).past) && ChainHead(Serve(e, now))
  {
    var u := e.queue[0];
    var past := e.past.(handed := e.past.handed + [Handed(u.id, u.serviceTime, now)]);
    PlansKept(e.past, Handed(u.id, u.serviceTime, now));
    if |e.queue| > 1 {
      var v := e.queue[1];
      assert v == e.past.log[v.id].(serviceTime := v.serviceTime);
      NextOnPlan(e.(queue := e.queue[1..], processing := true, processingSeqnum := u.seqnum, past := past), now);
    }
  }

  lemma {:induction false} PlansKept(past: Past, h: Handed)
    requires HandedAsPlanned(past) && h.id < |past.log| && Planned(past, |past.handed|, h.id, h.serviceTime)
    ensures HandedAsPlanned(past.(handed := past.handed + [h]))
  {
    var past' := past.(handed := past.handed + [h]);
    forall i | 0 <= i < |past'.handed|
      ensures past'.handed[i].id < |past.log| && Planned(past', i, past'.handed[i].id, past'.handed[i].serviceTime)
    {
      if i < |past.handed| {
        assert Planned(past, i, past.handed[i].id, past.handed[i].serviceTime);
      }
    }
  }

  /** The URB behind one just taken. */
  lemma {:induction false} NextOnPlan(e: Endpoint, now: int)
    requires e.queue != [] && e.past.handed != [] && |e.past.log| == |e.past.times| && now > 0
    requires var v := e.queue[0];
             v.id < |e.past.log| && v == e.past.log[v.id].(serviceTime := v.serviceTime) && e.past.times[v.id] <= now
    requires var h := e.past.handed[|e.past.handed| - 1]; e.lastScheduled == h.serviceTime > 0 && h.at == now
    ensures ChainHead(ArmNext(e, now))
  {
    ArmedExactly(e, now);
    var v := e.queue[0];
    DueAtStored(e.past.log[v.id], v, now, e.lastScheduled, ArmNext(e, now).lastScheduled);
  }

  lemma {:induction false} RemoveDated(e: Endpoint, k: nat, now: int)
    requires Accounted(e, now) && Dated(e, now) && now > 0 && k < |e.queue|
    ensures Dated(Remove(e, k, now), now)
  {
    var e' := WithoutUrb(e, k);
    forall i | 0 <= i < |e'.queue| ensures NotBefore(e.past.times, e'.queue[i].id, e'.queue[i].serviceTime) {
      assert e'.queue[i] == e.queue[if i < k then i else i + 1];
    }
    assert Punctual(e');
    ArmPunctual(e', now);
  }

  // ---- all runs ----

  ghost predicate AllDated(endpoints: map<Ep, Endpoint>, now: int) {
    forall ep :: ep in endpoints ==> Dated(endpoints[ep], now)
  }

  lemma {:induction false} LaterDated(endpoints: map<Ep, Endpoint>, now: int, d: nat)
    requires AllDated(endpoints, now)
    ensures AllDated(endpoints, now + d)
  {
    forall ep | ep in endpoints ensures Dated(endpoints[ep], now + d) { assert Dated(endpoints[ep], now); }
  }

  lemma {:induction false} SubmitDated(s: Sched, ep: Ep, seqnum: Seqnum, iso: bool, delay: int, now: int)
    requires AllSound(s.endpoints, now) && AllDated(s.endpoints, now) && now > 0
    ensures AllDated(SubmitUrb(s, ep, seqnum, iso, delay, now).endpoints, now)
  {
    NewSound(now);
    var e := if ep in s.endpoints then s.endpoints[ep] else NEW_ENDPOINT;
    assert Sound(e, now) && Dated(e, now);
    AppendDated(e, seqnum, iso, delay, now);
    UpdateDated(s.endpoints, ep, Append(e, seqnum, iso, delay, now), now);
  }

  lemma {:induction false} UpdateDated(endpoints: map<Ep, Endpoint>, ep: Ep, e: Endpoint, now: int)
    requires AllDated(endpoints, now) && Dated(e, now)
    ensures AllDated(endpoints[ep := e], now)
  {
  }

  lemma {:induction false} CancelDated(endpoints: map<Ep, Endpoint>, order: seq<Ep>, seqnum: Seqnum, now: int)
    requires IsOrder(order, endpoints) && AllSound(endpoints, now) && AllDated(endpoints, now) && now > 0
    ensures AllDated(CancelScan(endpoints, order, seqnum, now).1, now)
  {
    CancelShape(endpoints, order, seqnum, now);
    var m := CancelScan(endpoints, order, seqnum, now).1;
    if m != endpoints {
      var ep, k :| ep in endpoints && 0 <= k < |endpoints[ep].queue|
                   && m == endpoints[ep := Remove(endpoints[ep], k, now)];
      assert Sound(endpoints[ep], now);
      RemoveDated(endpoints[ep], k, now);
    }
  }

  lemma {:induction false} ServeAllDated(endpoints: map<Ep, Endpoint>, now: int)
    requires AllSound(endpoints, now) && AllDated(endpoints, now) && now > 0
    ensures AllDated(ServeAll(endpoints, now), now)
  {
    forall ep | ep in endpoints ensures Dated(Serve(endpoints[ep], now), now) {
      assert Sound(endpoints[ep], now);
      ServeDated(endpoints[ep], now);
    }
  }

  lemma {:induction false} DoneDated(s: Sched, ep: Ep, seqnum: Seqnum, now: int)
    requires AllDated(s.endpoints, now)
    ensures AllDated(OnUrbDone(s, ep, seqnum).endpoints, now)
  {
    if ep in s.endpoints {
      ReleaseDated(s.endpoints[ep], now);
    }
  }

  lemma {:induction false} ReleaseDated(e: Endpoint, now: int)
    requires Dated(e, now)
    ensures Dated(Release(e), now)
  {
    assert ChainHead(e) ==> ChainHead(Release(e));
  }

  lemma {:induction false} DatedStep(st: State, e: Event)
    requires Enabled(st, e) && st.now > 0 && AllSound(st.s.endpoints, st.now)
    requires AllDated(st.s.endpoints, st.now) && AllDated(st.dropped, st.now)
    ensures AllDated(Step(st, e).s.endpoints, Step(st, e).now) && AllDated(Step(st, e).dropped, Step(st, e).now)
  {
    match e
    case Tick(d) => LaterDated(st.s.endpoints, st.now, d); LaterDated(st.dropped, st.now, d);
    case SubmitEvent(ep, seqnum, iso, delay) => SubmitDated(st.s, ep, seqnum, iso, delay, st.now);
    case DoneEvent(ep, seqnum) => DoneDated(st.s, ep, seqnum, st.now);
    case CancelEvent(seqnum, order) => CancelDated(st.s.endpoints, order, seqnum, st.now);
    case TimerEvent(order) => ServeAllDated(st.s.endpoints, st.now);
    case _ =>
  }

  lemma {:induction false} RunDated(t0: int, es: seq<Event>)
    requires t0 > 0 && Exec(t0, es).Some?
    ensures var st := Exec(t0, es).value; AllDated(st.s.endpoints, st.now) && AllDated(st.dropped, st.now)
  {
    if es != [] {
      var front := es[..|es| - 1];
      RunDated(t0, front);
      RunInvariant(t0, front);
      DatedStep(Exec(t0, front).value, es[|es| - 1]);
    }
  }

  lemma {:induction false} ReachableDated(st: State, ep: Ep, e: Endpoint)
    requires Reachable(st) && EndpointOf(st, ep, e)
    ensures Accounted(e, st.now) && Dated(e, st.now)
  {
    ReachableSound(st, ep, e);
    var t0, es :| t0 > 0 && Exec(t0, es) == Some(st);
    RunDated(t0, es);
  }

  // ---- theorems ----

  /** In every run, cancellations and negative delays included, no URB that was ever given a service time
      is due, let alone handed over, before it was submitted. */
  lemma {:induction false} NeverDueBeforeSubmitted(st: State, ep: Ep, e: Endpoint, i: nat)
    requires Reachable(st) && EndpointOf(st, ep, e) && i < |e.past.handed| && e.past.handed[i].serviceTime != 0
    ensures e.past.handed[i].id < |e.past.times|
    ensures e.past.times[e.past.handed[i].id] <= e.past.handed[i].serviceTime <= e.past.handed[i].at
  {
    ReachableDated(st, ep, e);
    assert NotBefore(e.past.times, e.past.handed[i].id, e.past.handed[i].serviceTime);
  }

  /** On an endpoint where no cancel took or re-armed a head, whatever the mix of transfer types and delays,
      every service time is determined: the first URB is due its delay after its submission (on the next
      grid boundary if it is not isochronous); a later isochronous one at the latest of its submission, the
      moment the one before was taken, and that one's service time plus its own delay; a later one of
      another type on the first grid boundary after its submission and that moment. */
  lemma {:induction false} ServiceTimesExactly(st: State, ep: Ep, e: Endpoint, i: nat)
    requires Reachable(st) && EndpointOf(st, ep, e) && !e.past.disturbed && i < |e.past.handed|
    ensures e.past.handed[i].id < |e.past.log| == |e.past.times|
    ensures var h := e.past.handed;
            var u, submitted, t := e.past.log[h[i].id], e.past.times[h[i].id], h[i].serviceTime;
            var ready := if i == 0 then submitted else Max(submitted, h[i - 1].at);
            && (u.iso ==> t == Max(ready, (if i == 0 then submitted else h[i - 1].serviceTime) + u.delay))
            && (!u.iso ==> t % 1000 == 0 && ready < t <= ready + 1000)
  {
    ReachableDated(st, ep, e);
    assert Planned(e.past, i, e.past.handed[i].id, e.past.handed[i].serviceTime);
  }

  /** What a cancel does to the times of an idle endpoint. The window of a cancelled head elapses: its
      successor is due its own delay after it. Cancelling a URB behind the head arms the head once more, so an
      isochronous head that is not overdue is postponed by its own delay. */
  lemma {:induction false} CancelMovesHead(e: Endpoint, k: nat, now: int)
    requires !e.processing && |e.queue| > 1 && k < |e.queue| && HeadArmed(e)
    ensures var next, e' := if k == 0 then e.queue[1] else e.queue[0], Remove(e, k, now);
            && e'.queue[0].id == next.id
            && DueAt(next, now, e.queue[0].serviceTime, e'.queue[0].serviceTime)
            && (next.iso && now <= e.queue[0].serviceTime + next.delay ==>
                  e'.queue[0].serviceTime == e.queue[0].serviceTime + next.delay)
  {
    ArmedExactly(WithoutUrb(e, k), now);
  }

  /** The host submitted hand-over i, and the one before was taken, before its data was due. */
  predicate Early(past: Past, i: nat)
    requires 0 < i < |past.handed| && past.handed[i].id < |past.log| == |past.times|
  {
    var h := past.handed;
    Max(past.times[h[i].id], h[i - 1].at) <= h[i - 1].serviceTime + past.log[h[i].id].delay
  }

  /** Nor does the microphone fall behind its rate: as long as the host submits early, the service times
      elapse no slower than the declared bytes take at the stream's rate. */
  lemma {:induction false} MicrophoneKeepsRate(st: State, ep: Ep, e: Endpoint, declared: seq<nat>, bytesPerSecond: nat,
                                               lo: nat, hi: nat)
    requires Reachable(st) && EndpointOf(st, ep, e) && !e.past.disturbed
    requires bytesPerSecond > 0 && Microphone(e.past.log, declared, bytesPerSecond)
    requires lo <= hi < |e.past.handed|
    requires |e.past.log| == |e.past.times|
    requires forall i :: 0 <= i < |e.past.handed| ==> e.past.handed[i].id < |e.past.log|
    requires forall i: nat :: lo < i <= hi ==> Early(e.past, i)
    ensures (e.past.handed[hi].serviceTime - e.past.handed[lo].serviceTime) * bytesPerSecond
            <= SumDeclared(declared, e.past.handed, lo, hi) * 1000000
  {
    if lo < hi {
      MicrophoneKeepsRate(st, ep, e, declared, bytesPerSecond, lo, hi - 1);
      ServiceTimesExactly(st, ep, e, hi);
      var id := e.past.handed[hi].id;
      assert Early(e.past, hi);
      DurationBounds(declared[id], bytesPerSecond);
      var a, d := e.past.handed[hi - 1].serviceTime - e.past.handed[lo].serviceTime, e.past.log[id].delay;
      assert (a + d) * bytesPerSecond == a * bytesPerSecond + d * bytesPerSecond;
    }
  }
}
