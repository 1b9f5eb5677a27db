/**
  What every operation keeps about one endpoint: no URB is lost or repeated, the order of
  submission is kept, and the chain of service times is paced.
 */
module SchedulerEndpoint {
  import opened UsbIp
  import opened Scheduler

  function QueueIds(q: seq<Urb>): seq<nat> { seq(|q|, i requires 0 <= i < |q| => q[i].id) }

  function HandedIds(h: seq<Handed>): seq<nat> { seq(|h|, i requires 0 <= i < |h| => h[i].id) }

  /** The URBs handed over, then those still queued. */
  function Trail(e: Endpoint): seq<nat> { HandedIds(e.past.handed) + QueueIds(e.queue) }

  /** Submission order, nothing twice. */
  ghost predicate Increasing(trail: seq<nat>, n: nat) {
    && (forall i, j :: 0 <= i < j < |trail| ==> trail[i] < trail[j])
    && (forall i :: 0 <= i < |trail| ==> trail[i] < n)
  }

  /** Every URB ever submitted is in exactly one of the trail and the cancelled ones. */
  ghost predicate Partition(trail: seq<nat>, cancelled: set<nat>, n: nat) {
    && (forall i: nat :: i < n ==> (i in trail <==> i !in cancelled))
    && (forall i :: i in cancelled ==> i < n)
  }

  /** Queued URBs are the submitted ones, up to the service time. */
  ghost predicate Faithful(e: Endpoint) {
    forall i :: 0 <= i < |e.queue| ==>
      e.queue[i].id < |e.past.log| && e.queue[i] == e.past.log[e.queue[i].id].(serviceTime := e.queue[i].serviceTime)
  }

  /** The URB in processing is the latest one handed over. */
  ghost predicate Serving(e: Endpoint) {
    e.processing ==>
      && e.past.handed != []
      && var id := e.past.handed[|e.past.handed| - 1].id;
         id < |e.past.log| && e.past.log[id].seqnum == e.processingSeqnum
  }

  /** Nothing is handed over before its service time. */
  ghost predicate Timely(e: Endpoint, now: int) {
    forall i :: 0 <= i < |e.past.handed| ==> e.past.handed[i].serviceTime <= e.past.handed[i].at <= now
  }

  ghost predicate Accounted(e: Endpoint, now: int) {
    && Increasing(Trail(e), |e.past.log|) && Partition(Trail(e), e.past.cancelled, |e.past.log|)
    && Faithful(e) && Serving(e) && Timely(e, now)
  }

  // ---- the trail under each operation ----

  lemma TrailAppend(e: Endpoint, u: Urb, log: seq<Urb>, times: seq<int>)
    ensures Trail(e.(queue := e.queue + [u], past := e.past.(log := log, times := times))) == Trail(e) + [u.id]
  {
  }

  lemma TrailServe(e: Endpoint, x: Handed, e': Endpoint)
    requires e.queue != [] && x.id == e.queue[0].id
    requires e'.queue == e.queue[1..] && e'.past.handed == e.past.handed + [x]
    ensures Trail(e') == Trail(e)
  {
  }

  lemma TrailRemove(e: Endpoint, k: nat, e': Endpoint)
    requires k < |e.queue|
    requires e'.queue == e.queue[..k] + e.queue[k + 1..] && e'.past.handed == e.past.handed
    ensures var p := |e.past.handed| + k;
            Trail(e)[p] == e.queue[k].id && Trail(e') == Without(Trail(e), p)
  {
  }

  lemma TrailArm(e: Endpoint, now: int)
    ensures Trail(ArmNext(e, now)) == Trail(e) && ArmNext(e, now).past == e.past
    ensures Faithful(e) ==> Faithful(ArmNext(e, now))
    ensures Serving(e) ==> Serving(ArmNext(e, now))
  {
  }

  /** A sequence without its element p. */
  function Without(trail: seq<nat>, p: nat): (t: seq<nat>)
    requires p < |trail|
    ensures |t| == |trail| - 1 && forall i :: 0 <= i < |t| ==> t[i] == trail[if i < p then i else i + 1]
  {
    trail[..p] + trail[p + 1..]
  }

  lemma WithoutMembers(trail: seq<nat>, p: nat, x: nat)
    requires p < |trail| && forall i, j :: 0 <= i < j < |trail| ==> trail[i] < trail[j]
    ensures x in Without(trail, p) <==> x in trail && x != trail[p]
  {
    var t := Without(trail, p);
    if x in trail && x != trail[p] {
      var k :| 0 <= k < |trail| && trail[k] == x;
      assert x == t[if k < p then k else k - 1];
    }
  }

  lemma DropOne(trail: seq<nat>, p: nat, cancelled: set<nat>, n: nat)
    requires p < |trail| && Increasing(trail, n) && Partition(trail, cancelled, n)
    ensures Increasing(Without(trail, p), n) && Partition(Without(trail, p), cancelled + {trail[p]}, n)
  {
    forall i: nat | i < n ensures i in Without(trail, p) <==> i !in cancelled + {trail[p]} {
      WithoutMembers(trail, p, i);
    }
  }

  lemma AddOne(trail: seq<nat>, cancelled: set<nat>, n: nat)
    requires Increasing(trail, n) && Partition(trail, cancelled, n)
    ensures Increasing(trail + [n], n + 1) && Partition(trail + [n], cancelled, n + 1)
  {
    assert forall i :: i in trail + [n] <==> i in trail || i == n;
  }

  // ---- operations ----

  lemma ArmKeepsAccounts(e: Endpoint, now: int, clock: int)
    requires Accounted(e, clock)
    ensures Accounted(ArmNext(e, now), clock)
  {
    TrailArm(e, now);
  }

  lemma AppendKeepsAccounts(e: Endpoint, seqnum: Seqnum, iso: bool, delay: int, now: int)
    requires Accounted(e, now)
    ensures Accounted(Append(e, seqnum, iso, delay, now), now)
  {
    var u := Urb(|e.past.log|, seqnum, iso, delay, 0);
    var e' := e.(queue := e.queue + [u], past := e.past.(log := e.past.log + [u], times := e.past.times + [now]));
    TrailAppend(e, u, e.past.log + [u], e.past.times + [now]);
    AddOne(Trail(e), e.past.cancelled, |e.past.log|);
    ArmKeepsAccounts(e', now, now);
  }

  lemma ServeKeepsAccounts(e: Endpoint, now: int)
    requires Accounted(e, now)
    ensures Accounted(Serve(e, now), now)
  {
    if Due(e, now) {
      var u := e.queue[0];
      var x := Handed(u.id, u.serviceTime, now);
      var e' := e.(queue := e.queue[1..], processing := true, processingSeqnum := u.seqnum,
                   past := e.past.(handed := e.past.handed + [x]));
      TrailServe(e, x, e');
      ArmKeepsAccounts(e', now, now);
    }
  }

  /** The endpoint of a cancel before its successor is armed. */
  function WithoutUrb(e: Endpoint, k: nat): Endpoint
    requires k < |e.queue|
  {
    e.(queue := e.queue[..k] + e.queue[k + 1..],
       lastScheduled := if k == 0 then Max(e.lastScheduled, e.queue[k].serviceTime) else e.lastScheduled,
       past := e.past.(cancelled := e.past.cancelled + {e.queue[k].id},
                       orphaned := e.past.orphaned || (k == 0 && e.processing && |e.queue| > 1),
                       disturbed := e.past.disturbed || k == 0 || !e.processing))
  }

  lemma RemoveKeepsAccounts(e: Endpoint, k: nat, now: int)
    requires Accounted(e, now) && k < |e.queue|
    ensures Accounted(Remove(e, k, now), now)
  {
    WithoutKeepsAccounts(e, k, now);
    ArmKeepsAccounts(WithoutUrb(e, k), now, now);
  }

  lemma WithoutKeepsAccounts(e: Endpoint, k: nat, now: int)
    requires Accounted(e, now) && k < |e.queue|
    ensures Accounted(WithoutUrb(e, k), now)
  {
    var e' := WithoutUrb(e, k);
    TrailRemove(e, k, e');
    DropOne(Trail(e), |e.past.handed| + k, e.past.cancelled, |e.past.log|);
    assert forall i :: 0 <= i < |e'.queue| ==> e'.queue[i] == e.queue[if i < k then i else i + 1];
  }
}
