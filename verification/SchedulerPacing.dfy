/**
  Pacing of one isochronous endpoint: service times are at least the declared delays apart, and
  the exact operation that breaks the chain.
 */
module SchedulerPacing {
  import opened UsbIp
  import opened Scheduler
  import opened SchedulerEndpoint

  /** All URBs of the endpoint are isochronous and none asks to be served early. */
  ghost predicate IsoPaced(log: seq<Urb>) {
    forall i :: 0 <= i < |log| ==> log[i].iso && log[i].delay >= 0
  }

  function LastServed(e: Endpoint): int
    requires e.past.handed != []
  {
    e.past.handed[|e.past.handed| - 1].serviceTime
  }

  /** Consecutive hand-overs are at least the later one's delay apart. */
  ghost predicate Spaced(log: seq<Urb>, handed: seq<Handed>) {
    forall i :: 0 < i < |handed| ==>
      handed[i].id < |log| && handed[i].serviceTime >= handed[i - 1].serviceTime + log[handed[i].id].delay
  }

  /** The head carries the chain's latest service time. */
  predicate HeadArmed(e: Endpoint) {
    e.queue != [] ==> e.queue[0].serviceTime == e.lastScheduled > 0
  }

  /** Only the head ever has a service time. */
  ghost predicate TailUnarmed(e: Endpoint) {
    forall i :: 1 <= i < |e.queue| ==> e.queue[i].serviceTime == 0
  }

  ghost predicate Chain(e: Endpoint) {
    && Spaced(e.past.log, e.past.handed)
    && HeadArmed(e)
    && e.lastScheduled >= 0
    && (e.past.handed != [] ==> e.lastScheduled > 0 && e.lastScheduled >= LastServed(e))
    && (e.past.handed != [] && e.queue != [] ==> e.queue[0].serviceTime >= LastServed(e) + e.queue[0].delay)
  }

  ghost predicate Paced(e: Endpoint) {
    TailUnarmed(e) && (IsoPaced(e.past.log) && !e.past.orphaned ==> Chain(e))
  }

  lemma AppendKeepsPace(e: Endpoint, seqnum: Seqnum, iso: bool, delay: int, now: int)
    requires Accounted(e, now) && Paced(e) && now > 0
    ensures Paced(Append(e, seqnum, iso, delay, now))
  {
    var e' := Append(e, seqnum, iso, delay, now);
    if IsoPaced(e'.past.log) && !e'.past.orphaned {
      forall i | 0 <= i < |e.past.log| ensures e.past.log[i].iso && e.past.log[i].delay >= 0 {
        assert e'.past.log[i] == e.past.log[i];
      }
      assert e'.past.log[|e.past.log|].delay == delay;
    }
  }

  lemma ServeKeepsPace(e: Endpoint, now: int)
    requires Accounted(e, now) && Paced(e) && now > 0
    ensures Paced(Serve(e, now))
  {
    if Due(e, now) && IsoPaced(e.past.log) && !e.past.orphaned {
      var e' := Serve(e, now);
      var u := e.queue[0];
      assert u == e.past.log[u.id].(serviceTime := u.serviceTime);
      forall i | 0 < i < |e'.past.handed|
        ensures e'.past.handed[i].id < |e.past.log|
        ensures e'.past.handed[i].serviceTime
                >= e'.past.handed[i - 1].serviceTime + e.past.log[e'.past.handed[i].id].delay
      {
        if i < |e.past.handed| {
          assert e'.past.handed[i] == e.past.handed[i] && e'.past.handed[i - 1] == e.past.handed[i - 1];
        }
      }
      if |e.queue| > 1 {
        assert e.queue[1].delay >= 0 by { assert e.queue[1] == e.past.log[e.queue[1].id].(serviceTime := 0); }
      }
    }
  }

  lemma RemoveKeepsPace(e: Endpoint, k: nat, now: int)
    requires Accounted(e, now) && Paced(e) && now > 0 && k < |e.queue|
    ensures Paced(Remove(e, k, now))
  {
    var e' := Remove(e, k, now);
    if IsoPaced(e.past.log) && !e'.past.orphaned {
      forall i | 0 <= i < |e.queue| ensures e.queue[i].iso && e.queue[i].delay >= 0 {
        assert e.queue[i] == e.past.log[e.queue[i].id].(serviceTime := e.queue[i].serviceTime);
      }
    }
  }

  /** cancel leaves the next head without a service time exactly when it takes the head of a busy
      endpoint that has more URBs queued. */
  lemma CancelKeepsHeadArmed(e: Endpoint, k: nat, now: int)
    requires Accounted(e, now) && TailUnarmed(e) && HeadArmed(e) && now > 0 && k < |e.queue|
    requires forall i :: 0 <= i < |e.queue| && e.queue[i].iso ==> e.queue[i].delay >= 0
    ensures HeadArmed(Remove(e, k, now)) <==> !(k == 0 && e.processing && |e.queue| > 1)
  {
  }

  /** Sum of the delays of hand-overs lo+1 .. hi. */
  function SumDelays(log: seq<Urb>, handed: seq<Handed>, lo: nat, hi: nat): int
    requires lo <= hi < |handed| && forall i :: 0 <= i < |handed| ==> handed[i].id < |log|
  {
    if lo == hi then 0 else SumDelays(log, handed, lo, hi - 1) + log[handed[hi].id].delay
  }

  lemma {:induction false} SpacedSum(log: seq<Urb>, handed: seq<Handed>, lo: nat, hi: nat)
    requires Spaced(log, handed) && lo <= hi < |handed| && forall i :: 0 <= i < |handed| ==> handed[i].id < |log|
    ensures handed[hi].serviceTime - handed[lo].serviceTime >= SumDelays(log, handed, lo, hi)
  {
    if lo < hi {
      SpacedSum(log, handed, lo, hi - 1);
    }
  }

  // ---- the microphone's delays ----

  /** The duration in microseconds the microphone asks for: declared bytes at the stream's rate. */
  function DataDuration(declared: nat, bytesPerSecond: nat): int {
    if bytesPerSecond > 0 && declared > 0 then declared * 1000000 / bytesPerSecond else 0
  }

  lemma DurationBounds(declared: nat, bytesPerSecond: nat)
    requires bytesPerSecond > 0
    ensures 0 <= DataDuration(declared, bytesPerSecond)
    ensures DataDuration(declared, bytesPerSecond) * bytesPerSecond <= declared * 1000000
    ensures declared * 1000000 < (DataDuration(declared, bytesPerSecond) + 1) * bytesPerSecond
  {
    var x := declared * 1000000;
    var d := x / bytesPerSecond;
    assert x == d * bytesPerSecond + x % bytesPerSecond;
    assert (d + 1) * bytesPerSecond == d * bytesPerSecond + bytesPerSecond;
  }

  /** Declared bytes of hand-overs lo+1 .. hi, declared[id] being what the host declared for URB id. */
  function SumDeclared(declared: seq<nat>, handed: seq<Handed>, lo: nat, hi: nat): nat
    requires lo <= hi < |handed| && forall i :: 0 <= i < |handed| ==> handed[i].id < |declared|
  {
    if lo == hi then 0 else SumDeclared(declared, handed, lo, hi - 1) + declared[handed[hi].id]
  }

  /** Every URB of the log asked for the duration of its declared bytes. */
  ghost predicate Microphone(log: seq<Urb>, declared: seq<nat>, bytesPerSecond: nat) {
    && |declared| == |log|
    && forall i :: 0 <= i < |log| ==> log[i].iso && log[i].delay == DataDuration(declared[i], bytesPerSecond)
  }

  lemma {:induction false} DeclaredBelowDelays(log: seq<Urb>, handed: seq<Handed>, declared: seq<nat>,
                                               bytesPerSecond: nat, lo: nat, hi: nat)
    requires bytesPerSecond > 0 && Microphone(log, declared, bytesPerSecond)
    requires lo <= hi < |handed| && forall i :: 0 <= i < |handed| ==> handed[i].id < |log|
    ensures SumDeclared(declared, handed, lo, hi) * 1000000
            <= (SumDelays(log, handed, lo, hi) + (hi - lo)) * bytesPerSecond
    ensures lo < hi ==>
              SumDeclared(declared, handed, lo, hi) * 1000000
              < (SumDelays(log, handed, lo, hi) + (hi - lo)) * bytesPerSecond
  {
    if lo < hi {
      DeclaredBelowDelays(log, handed, declared, bytesPerSecond, lo, hi - 1);
      var id := handed[hi].id;
      DurationBounds(declared[id], bytesPerSecond);
      var a, b := SumDelays(log, handed, lo, hi - 1) + (hi - 1 - lo), log[id].delay + 1;
      assert a * bytesPerSecond + b * bytesPerSecond == (a + b) * bytesPerSecond;
    }
  }

  /** The rate bound: between any two hand-overs of one microphone stream the host cannot have been
      asked for more bytes than the stream's rate allows, up to one microsecond per URB. */
  lemma MicrophoneRate(log: seq<Urb>, handed: seq<Handed>, declared: seq<nat>, bytesPerSecond: nat, lo: nat, hi: nat)
    requires bytesPerSecond > 0 && Microphone(log, declared, bytesPerSecond) && Spaced(log, handed)
    requires lo < hi < |handed| && forall i :: 0 <= i < |handed| ==> handed[i].id < |log|
    ensures SumDeclared(declared, handed, lo, hi) * 1000000
            < (handed[hi].serviceTime - handed[lo].serviceTime + (hi - lo)) * bytesPerSecond
  {
    DeclaredBelowDelays(log, handed, declared, bytesPerSecond, lo, hi);
    SpacedSum(log, handed, lo, hi);
    var a, b := SumDelays(log, handed, lo, hi) + (hi - lo), handed[hi].serviceTime - handed[lo].serviceTime + (hi - lo);
    assert a <= b;
    assert a * bytesPerSecond <= b * bytesPerSecond by { MulLeq(a, b, bytesPerSecond); }
  }

  lemma MulLeq(a: int, b: int, c: nat)
    requires a <= b
    ensures a * c <= b * c
  {
    assert b * c - a * c == (b - a) * c;
  }
}
