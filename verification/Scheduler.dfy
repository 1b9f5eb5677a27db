/**
  The transfer scheduler of virtual devices: a FIFO queue per endpoint, at most one URB in
  processing per endpoint, service times chained per endpoint, one timer and posted reschedules.
  Times are integer microseconds; 0 is the epoch that marks "not scheduled yet".
 */
module Scheduler {
  import opened UsbIp

  /** Endpoint address. */
  type Ep = x: int | 0 <= x < 256

  /** A queued URB. id is its position in the endpoint's submission history. */
  datatype Urb = Urb(id: nat, seqnum: Seqnum, iso: bool, delay: int, serviceTime: int)

  /** Record of one hand-over: which URB, for which service time, at what time. */
  datatype Handed = Handed(id: nat, serviceTime: int, at: int)

  /** Auxiliary record of an endpoint: all URBs ever queued, those handed over, those cancelled, whether a
      head was ever cancelled during processing with others behind it, when each URB was submitted, and
      whether a cancel ever took a head or armed one again. */
  datatype Past = Past(log: seq<Urb>, handed: seq<Handed>, cancelled: set<nat>, orphaned: bool, times: seq<int>,
                       disturbed: bool)

  datatype Endpoint = Endpoint(queue: seq<Urb>, lastScheduled: int, processing: bool, processingSeqnum: Seqnum,
                               past: Past)

  const NEW_ENDPOINT := Endpoint([], 0, false, 0, Past([], [], {}, false, [], false))

  function Max(a: int, b: int): int { if a < b then b else a }

  /** Next boundary of the 1 ms frame grid. */
  function AlignToFrame(t: int): (r: int)
    ensures t < r <= t + 1000 && r % 1000 == 0
  {
    t + (1000 - t % 1000)
  }

  function ServiceTime(u: Urb, last: int, now: int): int {
    if u.iso then Max(now, last + u.delay) else AlignToFrame(Max(now, last))
  }

  /** arm_next: fix the service time of the head and move the chain's base there. */
  function ArmNext(e: Endpoint, now: int): Endpoint {
    if e.queue == [] then e
    else
      var last := if e.lastScheduled == 0 then now else e.lastScheduled;
      var t := ServiceTime(e.queue[0], last, now);
      e.(queue := [e.queue[0].(serviceTime := t)] + e.queue[1..], lastScheduled := t)
  }

  /** Append a URB; it is armed at once if it became the head. */
  function Append(e: Endpoint, seqnum: Seqnum, iso: bool, delay: int, now: int): Endpoint {
    var u := Urb(|e.past.log|, seqnum, iso, delay, 0);
    var e' := e.(queue := e.queue + [u], past := e.past.(log := e.past.log + [u], times := e.past.times + [now]));
    if e.queue == [] then ArmNext(e', now) else e'
  }

  predicate Due(e: Endpoint, now: int) {
    !e.processing && e.queue != [] && e.queue[0].serviceTime <= now
  }

  /** on_timer for one endpoint: take a due head, mark it processing, arm its successor. */
  function Serve(e: Endpoint, now: int): Endpoint {
    if Due(e, now) then
      var u := e.queue[0];
      ArmNext(e.(queue := e.queue[1..], processing := true, processingSeqnum := u.seqnum,
                 past := e.past.(handed := e.past.handed + [Handed(u.id, u.serviceTime, now)])), now)
    else e
  }

  function Release(e: Endpoint): Endpoint { e.(processing := false, processingSeqnum := 0) }

  /** cancel for the URB at position k of one queue. */
  function Remove(e: Endpoint, k: nat, now: int): Endpoint
    requires k < |e.queue|
  {
    var u := e.queue[k];
    var e' := e.(queue := e.queue[..k] + e.queue[k + 1..],
                 lastScheduled := if k == 0 then Max(e.lastScheduled, u.serviceTime) else e.lastScheduled,
                 past := e.past.(cancelled := e.past.cancelled + {u.id},
                                 orphaned := e.past.orphaned || (k == 0 && e.processing && |e.queue| > 1),
                                 disturbed := e.past.disturbed || k == 0 || !e.processing));
    if !e.processing && e'.queue != [] then ArmNext(e', now) else e'
  }

  predicate IdleHead(e: Endpoint) { !e.processing && e.queue != [] }

  datatype Sched = Sched(
    started: bool,
    endpoints: map<Ep, Endpoint>,
    timerPending: bool,
    waits: nat,     // async_wait operations outstanding on the timer
    deadline: int,  // expiry of the latest one
    posted: nat)    // schedule_on_thread calls posted and not yet run

  const STARTED := Sched(true, map[], false, 0, 0, 0)

  /** Some iteration order of the endpoint table. */
  ghost predicate IsOrder(order: seq<Ep>, endpoints: map<Ep, Endpoint>) {
    && (forall i, j :: 0 <= i < j < |order| ==> order[i] != order[j])
    && (forall ep :: ep in endpoints <==> ep in order)
  }

  function Kick(s: Sched): Sched { if s.timerPending then s else s.(posted := s.posted + 1) }

  /** The earliest service time among the heads of idle endpoints. */
  function Earliest(endpoints: map<Ep, Endpoint>, order: seq<Ep>): Option<int>
    requires forall i :: 0 <= i < |order| ==> order[i] in endpoints
  {
    if order == [] then None
    else
      var best := Earliest(endpoints, order[..|order| - 1]);
      var e := endpoints[order[|order| - 1]];
      if !IdleHead(e) then best
      else if best.None? then Some(e.queue[0].serviceTime)
      else Some(if best.value < e.queue[0].serviceTime then best.value else e.queue[0].serviceTime)
  }

  function ScheduleNext(s: Sched, order: seq<Ep>): Sched
    requires forall i :: 0 <= i < |order| ==> order[i] in s.endpoints
  {
    match Earliest(s.endpoints, order)
    case None => s
    case Some(t) => s.(timerPending := true, waits := s.waits + 1, deadline := t)
  }

  function SubmitUrb(s: Sched, ep: Ep, seqnum: Seqnum, iso: bool, delay: int, now: int): Sched {
    if !s.started then s
    else
      var e := if ep in s.endpoints then s.endpoints[ep] else NEW_ENDPOINT;
      var s' := s.(endpoints := s.endpoints[ep := Append(e, seqnum, iso, delay, now)]);
      if e.queue == [] && !e.processing then Kick(s') else s'
  }

  function OnUrbDone(s: Sched, ep: Ep, seqnum: Seqnum): Sched {
    if !s.started || ep !in s.endpoints then s
    else
      var e := s.endpoints[ep];
      if !e.processing || e.processingSeqnum != seqnum then s
      else
        var s' := s.(endpoints := s.endpoints[ep := Release(e)]);
        if e.queue != [] then Kick(s') else s'
  }

  /** Position of the first URB with this sequence number, or the queue's length. */
  function FirstIndex(q: seq<Urb>, seqnum: Seqnum): (k: nat)
    ensures k <= |q| && (k < |q| ==> q[k].seqnum == seqnum)
    ensures forall i :: 0 <= i < k ==> q[i].seqnum != seqnum
  {
    if q == [] || q[0].seqnum == seqnum then 0 else 1 + FirstIndex(q[1..], seqnum)
  }

  /** cancel scans the endpoints in table order and stops at the first that knows the number. */
  function CancelScan(endpoints: map<Ep, Endpoint>, order: seq<Ep>, seqnum: Seqnum, now: int): (bool, map<Ep, Endpoint>)
    requires forall i :: 0 <= i < |order| ==> order[i] in endpoints
  {
    if order == [] then (false, endpoints)
    else
      var e := endpoints[order[0]];
      if e.processing && e.processingSeqnum == seqnum then (false, endpoints)
      else
        var k := FirstIndex(e.queue, seqnum);
        if k < |e.queue| then (true, endpoints[order[0] := Remove(e, k, now)])
        else CancelScan(endpoints, order[1..], seqnum, now)
  }

  function ScheduleOnThread(s: Sched, order: seq<Ep>): Sched
    requires s.posted > 0 && forall i :: 0 <= i < |order| ==> order[i] in s.endpoints
  {
    var s' := s.(posted := s.posted - 1);
    if !s.started || s.timerPending then s' else ScheduleNext(s', order)
  }

  function ServeAll(endpoints: map<Ep, Endpoint>, now: int): map<Ep, Endpoint> {
    map ep | ep in endpoints :: Serve(endpoints[ep], now)
  }

  /** on_timer consumes the wait that fired. */
  function OnTimer(s: Sched, order: seq<Ep>, now: int): Sched
    requires s.waits > 0 && forall i :: 0 <= i < |order| ==> order[i] in s.endpoints
  {
    var s' := s.(timerPending := false, waits := s.waits - 1);
    if !s.started then s' else ScheduleNext(s'.(endpoints := ServeAll(s.endpoints, now)), order)
  }

  /** stop(): drop everything queued. The cancelled wait may still be delivered, and is ignored. */
  function Stopped(s: Sched): Sched {
    if !s.started then s else s.(started := false, endpoints := map[], timerPending := false)
  }

  /** The sequence numbers handed over by one timer tick, in table order. */
  function DueSeqnums(endpoints: map<Ep, Endpoint>, order: seq<Ep>, now: int): seq<(Ep, Seqnum)>
    requires forall i :: 0 <= i < |order| ==> order[i] in endpoints
  {
    if order == [] then []
    else
      var front := DueSeqnums(endpoints, order[..|order| - 1], now);
      var ep := order[|order| - 1];
      if Due(endpoints[ep], now) then front + [(ep, endpoints[ep].queue[0].seqnum)] else front
  }

  /** The first n endpoints of the order have been served. */
  ghost predicate PartlyServed(before: map<Ep, Endpoint>, m: map<Ep, Endpoint>, order: seq<Ep>, n: nat, now: int) {
    && n <= |order| && m.Keys == before.Keys
    && (forall i :: 0 <= i < |order| ==>
          order[i] in before && m[order[i]] == if i < n then Serve(before[order[i]], now) else before[order[i]])
  }

  lemma ServeNext(before: map<Ep, Endpoint>, m: map<Ep, Endpoint>, order: seq<Ep>, n: nat, now: int)
    requires IsOrder(order, before) && PartlyServed(before, m, order, n, now) && n < |order|
    ensures m[order[n]] == before[order[n]]
    ensures PartlyServed(before, m[order[n] := Serve(before[order[n]], now)], order, n + 1, now)
  {
  }

  lemma DueNext(before: map<Ep, Endpoint>, order: seq<Ep>, n: nat, now: int)
    requires IsOrder(order, before) && n < |order|
    ensures order[n] in before
    ensures DueSeqnums(before, order[..n + 1], now)
            == DueSeqnums(before, order[..n], now)
               + if Due(before[order[n]], now) then [(order[n], before[order[n]].queue[0].seqnum)] else []
  {
    assert order[..n + 1][..n] == order[..n];
  }

  lemma AllServed(before: map<Ep, Endpoint>, m: map<Ep, Endpoint>, order: seq<Ep>, now: int)
    requires IsOrder(order, before) && PartlyServed(before, m, order, |order|, now)
    ensures m == ServeAll(before, now)
  {
    forall ep | ep in before ensures m[ep] == Serve(before[ep], now) {
      assert ep in order;
    }
  }

  class TransferScheduler {
    var started: bool
    var endpoints: map<Ep, Endpoint>
    var timerPending: bool
    var waits: nat
    var deadline: int
    var posted: nat

    ghost function View(): Sched
      reads this
    {
      Sched(started, endpoints, timerPending, waits, deadline, posted)
    }

    /** State after start(). */
    constructor ()
      ensures View() == STARTED
    {
      started, endpoints, timerPending, waits, deadline, posted := true, map[], false, 0, 0, 0;
    }

    method KickTimer()
      modifies this`posted
      ensures View() == Kick(old(View()))
    {
      if !timerPending {
        posted := posted + 1;
      }
    }

    method Submit(ep: Ep, seqnum: Seqnum, iso: bool, delay: int, now: int)
      modifies this`endpoints, this`posted
      ensures View() == SubmitUrb(old(View()), ep, seqnum, iso, delay, now)
    {
      if !started { return; }
      var state := if ep in endpoints then endpoints[ep] else NEW_ENDPOINT;
      var queueWasEmpty := state.queue == [];
      var u := Urb(|state.past.log|, seqnum, iso, delay, 0);
      state := state.(queue := state.queue + [u],
                      past := state.past.(log := state.past.log + [u], times := state.past.times + [now]));
      if queueWasEmpty {
        state := ArmNext(state, now);
      }
      endpoints := endpoints[ep := state];
      if queueWasEmpty && !state.processing {
        KickTimer();
      }
    }

    method UrbDone(ep: Ep, seqnum: Seqnum)
      modifies this`endpoints, this`posted
      ensures View() == OnUrbDone(old(View()), ep, seqnum)
    {
      if !started || ep !in endpoints { return; }
      var state := endpoints[ep];
      if !state.processing || state.processingSeqnum != seqnum { return; }
      endpoints := endpoints[ep := state.(processing := false, processingSeqnum := 0)];
      if state.queue != [] {
        KickTimer();
      }
    }

    method Cancel(seqnum: Seqnum, order: seq<Ep>, now: int) returns (cancelled: bool)
      requires IsOrder(order, endpoints)
      modifies this`endpoints
      ensures (cancelled, endpoints) == CancelScan(old(endpoints), order, seqnum, now)
    {
      var i := 0;
      while i < |order|
        invariant 0 <= i <= |order| && endpoints == old(endpoints)
        invariant CancelScan(endpoints, order, seqnum, now) == CancelScan(endpoints, order[i..], seqnum, now)
      {
        var state := endpoints[order[i]];
        assert order[i..][1..] == order[i + 1..];
        if state.processing && state.processingSeqnum == seqnum {
          return false;
        }
        var k := 0;
        while k < |state.queue| && state.queue[k].seqnum != seqnum
          invariant 0 <= k <= |state.queue|
          invariant FirstIndex(state.queue, seqnum) == k + FirstIndex(state.queue[k..], seqnum)
        {
          assert state.queue[k..][1..] == state.queue[k + 1..];
          k := k + 1;
        }
        if k < |state.queue| {
          endpoints := endpoints[order[i] := Remove(state, k, now)];
          return true;
        }
        i := i + 1;
      }
      return false;
    }

    /** schedule_next: one wait at the earliest service time of an idle head, or none. */
    method ArmTimer(order: seq<Ep>)
      requires IsOrder(order, endpoints)
      modifies this`timerPending, this`waits, this`deadline
      ensures View() == ScheduleNext(old(View()), order)
    {
      var next: Option<int> := None;
      for i := 0 to |order|
        invariant next == Earliest(endpoints, order[..i])
      {
        assert order[..i + 1][..i] == order[..i];
        var state := endpoints[order[i]];
        if !state.processing && state.queue != [] {
          var t := state.queue[0].serviceTime;
          next := Some(if next.Some? && next.value < t then next.value else t);
        }
      }
      assert order[..|order|] == order;
      if next.Some? {
        timerPending, waits, deadline := true, waits + 1, next.value;
      }
    }

    method RunPosted(order: seq<Ep>)
      requires posted > 0 && IsOrder(order, endpoints)
      modifies this`timerPending, this`waits, this`deadline, this`posted
      ensures View() == ScheduleOnThread(old(View()), order)
    {
      posted := posted - 1;
      if started && !timerPending {
        ArmTimer(order);
      }
    }

    /** One round of that loop: pop the head, mark the endpoint, arm the next head. */
    method TakeHead(state: Endpoint, now: int) returns (state': Endpoint)
      requires Due(state, now)
      ensures state' == Serve(state, now)
    {
      var front := state.queue[0];
      state' := state.(queue := state.queue[1..]);
      state' := state'.(processing := true, processingSeqnum := front.seqnum);
      var handed := state'.past.handed + [Handed(front.id, front.serviceTime, now)];
      state' := state'.(past := state'.past.(handed := handed));
      state' := ArmNext(state', now);
    }

    /** The loop of on_timer: hand over every due head. */
    method ServeDue(order: seq<Ep>, now: int) returns (due: seq<(Ep, Seqnum)>)
      requires IsOrder(order, endpoints)
      modifies this`endpoints
      ensures endpoints == ServeAll(old(endpoints), now)
      ensures due == DueSeqnums(old(endpoints), order, now)
    {
      ghost var before := endpoints;
      due := [];
      for i := 0 to |order|
        invariant PartlyServed(before, endpoints, order, i, now)
        invariant due == DueSeqnums(before, order[..i], now)
      {
        var addr := order[i];
        var state := endpoints[addr];
        ServeNext(before, endpoints, order, i, now);
        DueNext(before, order, i, now);
        if !state.processing && state.queue != [] && state.queue[0].serviceTime <= now {
          due := due + [(addr, state.queue[0].seqnum)];
          state := TakeHead(state, now);
        }
        endpoints := endpoints[addr := state];
      }
      AllServed(before, endpoints, order, now);
      assert order[..|order|] == order;
    }

    method TimerFired(order: seq<Ep>, now: int) returns (due: seq<(Ep, Seqnum)>)
      requires waits > 0 && IsOrder(order, endpoints)
      modifies this`timerPending, this`waits, this`deadline, this`endpoints
      ensures View() == OnTimer(old(View()), order, now)
      ensures due == if started then DueSeqnums(old(endpoints), order, now) else []
    {
      due := [];
      timerPending, waits := false, waits - 1;
      if started {
        due := ServeDue(order, now);
        ArmTimer(order);
      }
    }

    method Stop()
      modifies this`started, this`endpoints, this`timerPending
      ensures View() == Stopped(old(View()))
    {
      if !started { return; }
      started, endpoints, timerPending := false, map[], false;
    }
  }
}
