/**
  Pacing hand-over by hand-over: which hand-overs of an isochronous endpoint keep their distance even
  in runs that cancel the head of a busy endpoint.
 */
module SchedulerOrphans {
  import opened UsbIp
  import opened Scheduler
  import opened SchedulerEndpoint
  import opened SchedulerPacing
  import opened SchedulerRuns

  /** No hand-over lies above the chain's latest service time, and the first was armed. */
  ghost predicate Below(handed: seq<Handed>, last: int) {
    && last >= 0
    && (forall i :: 0 <= i < |handed| ==> 0 <= handed[i].serviceTime <= last)
    && (handed != [] ==> handed[0].serviceTime > 0)
  }

  /** A time at least the delay after every earlier hand-over. */
  ghost predicate Apart(handed: seq<Handed>, t: int, delay: int) {
    forall j :: 0 <= j < |handed| ==> t >= handed[j].serviceTime + delay
  }

  /** Every hand-over was never armed, or keeps its distance from all before it. */
  ghost predicate EachApart(log: seq<Urb>, handed: seq<Handed>) {
    forall i :: 0 <= i < |handed| ==>
      && handed[i].id < |log|
      && (handed[i].serviceTime == 0 || Apart(handed[..i], handed[i].serviceTime, log[handed[i].id].delay))
  }

  /** The head was never armed, or carries the chain's latest service time at its distance. */
  ghost predicate HeadApart(e: Endpoint) {
    e.queue == [] || (e.queue[0].serviceTime == 0 && e.past.handed != [])
    || (e.queue[0].serviceTime == e.lastScheduled > 0 && Apart(e.past.handed, e.lastScheduled, e.queue[0].delay))
  }

  ghost predicate Orderly(e: Endpoint) {
    IsoPaced(e.past.log) ==>
      Below(e.past.handed, e.lastScheduled) && EachApart(e.past.log, e.past.handed) && HeadApart(e)
  }

  lemma ArmOrderly(e: Endpoint, now: int)
    requires IsoPaced(e.past.log) && Faithful(e) && now > 0
    requires Below(e.past.handed, e.lastScheduled) && EachApart(e.past.log, e.past.handed)
    ensures Orderly(ArmNext(e, now))
  {
    if e.queue != [] {
      assert e.queue[0] == e.past.log[e.queue[0].id].(serviceTime := e.queue[0].serviceTime);
    }
  }

  lemma AppendOrderly(e: Endpoint, seqnum: Seqnum, iso: bool, delay: int, now: int)
    requires Accounted(e, now) && Orderly(e) && now > 0
    ensures Orderly(Append(e, seqnum, iso, delay, now))
  {
    var u := Urb(|e.past.log|, seqnum, iso, delay, 0);
    var e' := e.(queue := e.queue + [u], past := e.past.(log := e.past.log + [u], times := e.past.times + [now]));
    if IsoPaced(e'.past.log) {
      assert forall i :: 0 <= i < |e.past.log| ==> e'.past.log[i] == e.past.log[i];
      if e.queue == [] {
        assert e'.past.log[|e.past.log|] == u;
        assert Faithful(e');
        ArmOrderly(e', now);
      }
    }
  }

  lemma ServeOrderly(e: Endpoint, now: int)
    requires Accounted(e, now) && Orderly(e) && now > 0
    ensures Orderly(Serve(e, now))
  {
    if Due(e, now) && IsoPaced(e.past.log) {
      var u := e.queue[0];
      var x := Handed(u.id, u.serviceTime, now);
      assert u == e.past.log[u.id].(serviceTime := u.serviceTime);
      var e' := e.(queue := e.queue[1..], processing := true, processingSeqnum := u.seqnum,
                   past := e.past.(handed := e.past.handed + [x]));
      ArmOrderly(e', now);
    }
  }

  lemma RemoveOrderly(e: Endpoint, k: nat, now: int)
    requires Accounted(e, now) && TailUnarmed(e) && Orderly(e) && now > 0 && k < |e.queue|
    ensures Orderly(Remove(e, k, now))
  {
    if IsoPaced(e.past.log) {
      var e' := WithoutUrb(e, k);
      assert forall i :: 0 <= i < |e'.queue| ==> e'.queue[i] == e.queue[if i < k then i else i + 1];
      if !e.processing {
        ArmOrderly(e', now);
      }
    }
  }

  // ---- all runs ----

  ghost predicate AllOrderly(endpoints: map<Ep, Endpoint>) {
    forall ep :: ep in endpoints ==> Orderly(endpoints[ep])
  }

  lemma SubmitAllOrderly(s: Sched, ep: Ep, seqnum: Seqnum, iso: bool, delay: int, now: int)
    requires AllSound(s.endpoints, now) && AllOrderly(s.endpoints) && now > 0
    ensures AllOrderly(SubmitUrb(s, ep, seqnum, iso, delay, now).endpoints)
  {
    NewSound(now);
    var e := if ep in s.endpoints then s.endpoints[ep] else NEW_ENDPOINT;
    assert Sound(e, now);
    AppendOrderly(e, seqnum, iso, delay, now);
  }

  lemma CancelAllOrderly(endpoints: map<Ep, Endpoint>, order: seq<Ep>, seqnum: Seqnum, now: int)
    requires IsOrder(order, endpoints) && AllSound(endpoints, now) && AllOrderly(endpoints) && now > 0
    ensures AllOrderly(CancelScan(endpoints, order, seqnum, now).1)
  {
    CancelShape(endpoints, order, seqnum, now);
    var m := CancelScan(endpoints, order, seqnum, now).1;
    if m != endpoints {
      var ep, k :| ep in endpoints && 0 <= k < |endpoints[ep].queue|
                   && m == endpoints[ep := Remove(endpoints[ep], k, now)];
      assert Sound(endpoints[ep], now);
      RemoveOrderly(endpoints[ep], k, now);
    }
  }

  lemma ServeAllOrderly(endpoints: map<Ep, Endpoint>, now: int)
    requires AllSound(endpoints, now) && AllOrderly(endpoints) && now > 0
    ensures AllOrderly(ServeAll(endpoints, now))
  {
    forall ep | ep in endpoints ensures Orderly(Serve(endpoints[ep], now)) {
      assert Sound(endpoints[ep], now);
      ServeOrderly(endpoints[ep], now);
    }
  }

  lemma OrderlyStep(st: State, e: Event)
    requires Enabled(st, e) && st.now > 0 && AllSound(st.s.endpoints, st.now)
    requires AllOrderly(st.s.endpoints) && AllOrderly(st.dropped)
    ensures AllOrderly(Step(st, e).s.endpoints) && AllOrderly(Step(st, e).dropped)
  {
    match e
    case SubmitEvent(ep, seqnum, iso, delay) => SubmitAllOrderly(st.s, ep, seqnum, iso, delay, st.now);
    case CancelEvent(seqnum, order) => CancelAllOrderly(st.s.endpoints, order, seqnum, st.now);
    case TimerEvent(order) => ServeAllOrderly(st.s.endpoints, st.now);
    case _ =>
  }

  lemma {:induction false} RunOrderly(t0: int, es: seq<Event>)
    requires t0 > 0 && Exec(t0, es).Some?
    ensures AllOrderly(Exec(t0, es).value.s.endpoints) && AllOrderly(Exec(t0, es).value.dropped)
  {
    if es != [] {
      var front := es[..|es| - 1];
      RunOrderly(t0, front);
      RunInvariant(t0, front);
      OrderlyStep(Exec(t0, front).value, es[|es| - 1]);
    }
  }

  /** In every run, cancellations included, a hand-over after the first keeps at least its own delay from
      all earlier ones if and only if it was ever given a service time. */
  lemma {:induction false} HandOverApartExactly(st: State, ep: Ep, e: Endpoint, i: nat)
    requires Reachable(st) && EndpointOf(st, ep, e) && IsoPaced(e.past.log) && 0 < i < |e.past.handed|
    ensures e.past.handed[i].id < |e.past.log|
    ensures Apart(e.past.handed[..i], e.past.handed[i].serviceTime, e.past.log[e.past.handed[i].id].delay)
            <==> e.past.handed[i].serviceTime != 0
  {
    var t0, es :| t0 > 0 && Exec(t0, es) == Some(st);
    RunOrderly(t0, es);
    assert Orderly(e);
    var h := e.past.handed;
    assert e.past.log[h[i].id].delay >= 0;
    assert h[..i][0] == h[0];
  }
}
