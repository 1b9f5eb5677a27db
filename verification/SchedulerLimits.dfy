/**
  A run in which cancelling the head of a busy endpoint breaks the pacing.
 */
module SchedulerLimits {
  import opened UsbIp
  import opened Scheduler
  import opened SchedulerPacing
  import opened SchedulerRuns

  lemma ReachableSnoc(st: State, e: Event)
    requires Reachable(st) && Enabled(st, e)
    ensures Reachable(Step(st, e))
  {
    var t0, es :| t0 > 0 && Exec(t0, es) == Some(st);
    assert (es + [e])[..|es|] == es;
    assert Exec(t0, es + [e]) == Some(Step(st, e));
  }

  lemma ReachableStart(t0: int)
    requires t0 > 0
    ensures Reachable(State(STARTED, t0, map[]))
  {
    assert Exec(t0, []) == Some(State(STARTED, t0, map[]));
  }

  // ---- cancelling the head of a busy endpoint ----

  function ThreeQueued(): Endpoint {
    var u := Urb(0, 7, true, 1000, 0);
    Endpoint([u.(serviceTime := 2000), u.(id := 1, seqnum := 8), u.(id := 2, seqnum := 9)], 2000, false, 0,
             Past([u, u.(id := 1, seqnum := 8), u.(id := 2, seqnum := 9)], [], {}, false,
                  [1000, 1000, 1000], false))
  }

  function OneQueued(): Endpoint {
    var u := Urb(0, 7, true, 1000, 0);
    Endpoint([u.(serviceTime := 2000)], 2000, false, 0, Past([u], [], {}, false, [1000], false))
  }

  lemma ReachOneQueued()
    ensures Reachable(State(Sched(true, map[129 := OneQueued()], false, 0, 0, 1), 1000, map[]))
  {
    ReachableStart(1000);
    var s0 := State(STARTED, 1000, map[]);
    assert Append(NEW_ENDPOINT, 7, true, 1000, 1000) == OneQueued();
    ReachableSnoc(s0, SubmitEvent(129, 7, true, 1000));
    assert Step(s0, SubmitEvent(129, 7, true, 1000)).s.endpoints == map[129 := OneQueued()];
  }

  lemma ReachThreeQueued()
    ensures Reachable(State(Sched(true, map[129 := ThreeQueued()], false, 0, 0, 1), 1000, map[]))
  {
    ReachOneQueued();
    var s1 := State(Sched(true, map[129 := OneQueued()], false, 0, 0, 1), 1000, map[]);
    ReachableSnoc(s1, SubmitEvent(129, 8, true, 1000));
    var e2 := Append(OneQueued(), 8, true, 1000, 1000);
    var s2 := State(Sched(true, map[129 := e2], false, 0, 0, 1), 1000, map[]);
    assert Step(s1, SubmitEvent(129, 8, true, 1000)) == s2;
    ReachableSnoc(s2, SubmitEvent(129, 9, true, 1000));
    assert Append(e2, 9, true, 1000, 1000) == ThreeQueued();
    assert map[129 := e2][129 := ThreeQueued()] == map[129 := ThreeQueued()];
    assert Step(s2, SubmitEvent(129, 9, true, 1000)).s.endpoints == map[129 := ThreeQueued()];
  }

  /** The first URB is in processing, the second was cancelled, and the third has no service time. */
  function Orphaned(): Endpoint {
    var u := Urb(0, 7, true, 1000, 0);
    Endpoint([u.(id := 2, seqnum := 9)], 3000, true, 7,
             Past([u, u.(id := 1, seqnum := 8), u.(id := 2, seqnum := 9)], [Handed(0, 2000, 2000)], {1}, true,
                  [1000, 1000, 1000], true))
  }

  /** The first URB is in processing and the second is armed. */
  function FirstServed(): Endpoint {
    var u := Urb(0, 7, true, 1000, 0);
    Endpoint([u.(id := 1, seqnum := 8, serviceTime := 3000), u.(id := 2, seqnum := 9)], 3000, true, 7,
             Past([u, u.(id := 1, seqnum := 8), u.(id := 2, seqnum := 9)], [Handed(0, 2000, 2000)], {}, false,
                  [1000, 1000, 1000], false))
  }

  lemma ReachFirstServed()
    ensures Reachable(State(Sched(true, map[129 := FirstServed()], false, 0, 2000, 0), 2000, map[]))
  {
    ReachThreeQueued();
    var e := ThreeQueued();
    var s0 := State(Sched(true, map[129 := e], false, 0, 0, 1), 1000, map[]);
    assert Earliest(map[129 := e], [129]) == Some(2000) by { assert [129][..0] == []; }
    ReachableSnoc(s0, PostedEvent([129]));
    var s1 := State(Sched(true, map[129 := e], true, 1, 2000, 0), 1000, map[]);
    assert Step(s0, PostedEvent([129])) == s1;
    ReachableSnoc(s1, Tick(1000));
    var s2 := s1.(now := 2000);
    assert Serve(e, 2000) == FirstServed();
    assert ServeAll(map[129 := e], 2000) == map[129 := FirstServed()];
    assert Earliest(map[129 := FirstServed()], [129]) == None by { assert [129][..0] == []; }
    ReachableSnoc(s2, TimerEvent([129]));
  }

  lemma ReachOrphaned()
    ensures Reachable(State(Sched(true, map[129 := Orphaned()], false, 0, 2000, 0), 2000, map[]))
  {
    ReachFirstServed();
    var e := FirstServed();
    var s3 := State(Sched(true, map[129 := e], false, 0, 2000, 0), 2000, map[]);
    ReachableSnoc(s3, CancelEvent(8, [129]));
    assert e.queue[0].seqnum == 8 && FirstIndex(e.queue, 8) == 0;
    assert Remove(e, 0, 2000) == Orphaned();
    assert map[129 := e][129 := Orphaned()] == map[129 := Orphaned()];
    assert CancelScan(map[129 := e], [129], 8, 2000) == (true, map[129 := Orphaned()]);
  }

  function TooEarly(): Endpoint {
    Orphaned().(queue := [], processing := true, processingSeqnum := 9,
                past := Orphaned().past.(handed := [Handed(0, 2000, 2000), Handed(2, 0, 2000)]))
  }

  lemma ReachTooEarly()
    ensures Reachable(State(Sched(true, map[129 := TooEarly()], false, 0, 0, 0), 2000, map[]))
  {
    ReachOrphaned();
    var e := Orphaned();
    var s0 := State(Sched(true, map[129 := e], false, 0, 2000, 0), 2000, map[]);
    ReachableSnoc(s0, DoneEvent(129, 7));
    var e1 := Release(e);
    var s1 := State(Sched(true, map[129 := e1], false, 0, 2000, 1), 2000, map[]);
    assert s0.s.endpoints[129 := e1] == map[129 := e1];
    assert Earliest(map[129 := e1], [129]) == Some(0) by { assert [129][..0] == []; }
    ReachableSnoc(s1, PostedEvent([129]));
    var s2 := State(Sched(true, map[129 := e1], true, 1, 0, 0), 2000, map[]);
    assert Step(s1, PostedEvent([129])) == s2;
    ReachableSnoc(s2, TimerEvent([129]));
    assert Serve(e1, 2000) == TooEarly();
    assert ServeAll(map[129 := e1], 2000) == map[129 := TooEarly()];
    assert Earliest(map[129 := TooEarly()], [129]) == None by { assert [129][..0] == []; }
  }

  lemma TooEarlyFacts()
    ensures IsoPaced(TooEarly().past.log) && !Spaced(TooEarly().past.log, TooEarly().past.handed)
  {
    var e := TooEarly();
    assert e.past.handed[1].serviceTime < e.past.handed[0].serviceTime + e.past.log[2].delay;
  }

  /** Two hand-overs in the same instant although every delay is positive. */
  ghost predicate Outpaced(st: State, ep: Ep) {
    && ep in st.s.endpoints
    && var past := st.s.endpoints[ep].past;
       && IsoPaced(past.log) && |past.handed| == 2 && past.handed[1].at == past.handed[0].at
       && !Spaced(past.log, past.handed)
  }

  /** Cancelling the head while the endpoint is busy breaks the pacing: all delays are 1000, yet the
      URB behind the cancelled one is handed over in the same instant as the one before it. */
  lemma CancelBreaksPacing()
    ensures exists st :: Reachable(st) && Outpaced(st, 129)
  {
    ReachTooEarly();
    TooEarlyFacts();
    assert Outpaced(State(Sched(true, map[129 := TooEarly()], false, 0, 0, 0), 2000, map[]), 129);
  }
}
