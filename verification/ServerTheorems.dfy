/**
  What the server guarantees over all its runs, and the exact guards where a guarantee ends.
 */
module ServerTheorems {
  import opened UsbIp
  import opened DeviceTable
  import opened ServerRuns
  import opened ServerInvariants

  /** In every reachable state bus ids are pairwise distinct over both containers, keys match their
      devices, and no device offered for import is flagged as removed. */
  lemma DeviceTableSound(st: State)
    requires Reachable(st)
    ensures WellFormed(st.dev.table) && NoneRemoved(st.dev.table.available, st.dev.removed)
  {
    ReachableOk(st);
  }

  /** A session that imports does so once and releases at most once; when its thread is past the
      import the two balance, on every exit path, exactly if no exception escaped the session. */
  lemma ImportReleasedOnce(st: State, id: Id)
    requires Reachable(st) && id in st.threads
    ensures id in st.dev.accounts
    ensures st.dev.accounts[id].releases <= st.dev.accounts[id].imports <= 1
    ensures st.threads[id].Holding? ==> st.dev.accounts[id] == Account(1, 0, false)
    ensures !st.threads[id].Holding? ==>
              (st.dev.accounts[id].imports == st.dev.accounts[id].releases <==> !st.dev.accounts[id].escaped)
  {
    ReachableOk(st);
    assert Balanced(st.threads[id], st.dev.accounts[id]);
  }

  ghost predicate NoneEscaped(dev: Devices) { forall id :: id in dev.accounts ==> !dev.accounts[id].escaped }

  predicate Holds(st: State, id: Id, d: Device) { id in st.threads && st.threads[id].Holding? && st.threads[id].d == d }

  /** Every entry of the devices in use has one owner, the session that imported it; the device is held
      by a live session, namely its owner, if and only if no exception escaped that session, and no other
      session ever holds it. */
  lemma InUseMeansHeld(st: State, b: Busid)
    requires Reachable(st) && b in st.dev.table.inUse
    ensures b in st.dev.owner && st.dev.owner[b] in st.dev.accounts
    ensures forall i :: Holds(st, i, st.dev.table.inUse[b]) ==> i == st.dev.owner[b] && i in st.reg.live
    ensures Holds(st, st.dev.owner[b], st.dev.table.inUse[b]) <==> !st.dev.accounts[st.dev.owner[b]].escaped
  {
    ReachableOk(st);
    var id := st.dev.owner[b];
    assert Balanced(st.threads[id], st.dev.accounts[id]);
    forall i | Holds(st, i, st.dev.table.inUse[b])
      ensures i == id && i in st.reg.live
    {
      assert st.threads[i].d.busid == b;
      assert Referenced(st.reg, st.threads, i);
    }
  }

  /** active_sessions counts the live Session objects, except for the instant between creating one
      and incrementing the counter. */
  lemma ActiveCountExact(st: State)
    requires Reachable(st)
    ensures st.reg.active == |st.reg.live| - if st.reg.loop.Made? then 1 else 0
    ensures st.reg.table <= st.reg.live
    ensures forall id :: Referenced(st.reg, st.threads, id) ==> id in st.reg.live
  {
    ReachableOk(st);
    forall id | id in st.reg.table ensures id in st.reg.live {
      assert Consistent(st.reg, st.threads, id);
      assert Referenced(st.reg, st.threads, id);
    }
  }

  /** Observers hear of each session at most one start and one end, the start first, even when run()
      throws after its thread was detached. */
  lemma NotificationsPaired(st: State)
    requires Reachable(st)
    ensures forall i, j :: 0 <= i < j < |st.reg.notes| ==> st.reg.notes[i] != st.reg.notes[j]
    ensures forall j :: 0 <= j < |st.reg.notes| && st.reg.notes[j].SessionEnded? ==>
              SessionStarted(st.reg.notes[j].id) in st.reg.notes[..j]
    ensures forall id :: id in st.reg.table ==> SessionEnded(id) !in st.reg.notes
    ensures forall id :: id in st.threads && st.threads[id].Finished? && LoopId(st.reg.loop) != Some(id) ==>
              SessionEnded(id) in st.reg.notes
  {
    ReachableOk(st);
    forall id | id in st.reg.table
      ensures SessionEnded(id) !in st.reg.notes
    {
      assert Consistent(st.reg, st.threads, id);
    }
    forall id | id in st.threads && st.threads[id].Finished? && LoopId(st.reg.loop) != Some(id)
      ensures SessionEnded(id) in st.reg.notes
    {
      assert Consistent(st.reg, st.threads, id);
    }
  }

  /** With no session alive, something is still in use exactly if an exception escaped a session. */
  lemma ReturnedUnlessEscaped(st: State)
    requires Reachable(st) && st.reg.live == {}
    ensures st.dev.table.inUse == map[] <==> NoneEscaped(st.dev)
  {
    ReachableOk(st);
    if b :| b in st.dev.table.inUse {
      InUseMeansHeld(st, b);
    }
    if id :| id in st.dev.accounts && st.dev.accounts[id].escaped {
      var b :| b in st.dev.owner && st.dev.owner[b] == id;
      assert b in st.dev.owner.Keys;
    }
  }

  /** When stop() returns no Session object is alive, the table is empty and every session that was
      announced was also reported ended; every device is back if and only if no exception escaped a
      session while it held one. */
  lemma StopReturnsClean(st: State)
    requires Reachable(st) && st.reg.stopper.Returned?
    ensures st.reg.live == {} && st.reg.table == {} && st.reg.active == 0
    ensures forall id :: SessionStarted(id) in st.reg.notes ==> SessionEnded(id) in st.reg.notes
    ensures st.dev.table.inUse == map[] <==> NoneEscaped(st.dev)
  {
    ActiveCountExact(st);
    assert st.reg.live == {} && RegistryOk(st.reg, st.threads) by { ReachableOk(st); }
    forall id | SessionStarted(id) in st.reg.notes
      ensures SessionEnded(id) in st.reg.notes
    {
    }
    ReturnedUnlessEscaped(st);
  }

  /** stop() drops nothing by clearing the table: it is empty by then. */
  lemma ClearFindsEmptyTable(st: State)
    requires Reachable(st) && st.reg.stopper.Clearing?
    ensures st.reg.table == {}
  {
    assert st.reg.live == {} by { ReachableOk(st); }
    ActiveCountExact(st);
  }

  /** While stop() waits, a session still at work was asked to stop exactly if the coroutine did not
      remove it from the table because run() threw after starting its thread. */
  lemma StopAsksEveryone(st: State, id: Id)
    requires Reachable(st) && st.reg.stopper.Waiting? && id in st.threads && InService(st.threads[id])
    ensures id in st.reg.asked <==> id !in st.reg.disowned
  {
    ReachableOk(st);
  }

  // ---- concrete runs ----

  lemma Snoc(st: State, e: Event, st': State)
    requires Reachable(st) && Enabled(st, e) && Step(st, e) == st'
    ensures Reachable(st')
  {
    var devices, es :| DistinctBusids(devices) && Exec(devices, es) == Some(st);
    assert (es + [e])[..|es|] == es;
    assert Exec(devices, es + [e]) == Some(st');
  }

  const STICK := Device(0, "1-1")

  function FreshDevices(): Devices {
    Devices(Table([STICK], map[]), {}, map[], map[0 := Account(0, 0, false)], NO_CALLS)
  }

  function Reg(l: Loop, active: int, table: set<Id>, notes: seq<Note>): Registry {
    Registry(true, l, Away, 1, active, {0}, table, {}, {}, {}, notes)
  }

  lemma ReachAdmitted()
    ensures Reachable(State(FreshDevices(), Reg(Admitted(0), 1, {}, []), map[0 := NoThread]))
  {
    var s0 := Initial([STICK]);
    assert Exec([STICK], []) == Some(s0);
    var s1 := s0.(reg := s0.reg.(loop := Top));
    Snoc(s0, Accept(Begin), s1);
    var s2 := s0.(reg := s0.reg.(loop := Going));
    Snoc(s1, Accept(CheckTop), s2);
    var dev, th := FreshDevices(), map[0 := NoThread];
    Snoc(s2, Accept(Make), State(dev, Reg(Made(0), 0, {}, []), th));
    Snoc(State(dev, Reg(Made(0), 0, {}, []), th), Accept(Count), State(dev, Reg(Counted(0), 1, {}, []), th));
    Snoc(State(dev, Reg(Counted(0), 1, {}, []), th), Accept(CheckCounted),
         State(dev, Reg(Accepting(0), 1, {}, []), th));
    Snoc(State(dev, Reg(Accepting(0), 1, {}, []), th), Accept(AcceptOk), State(dev, Reg(Accepted(0), 1, {}, []), th));
    Snoc(State(dev, Reg(Accepted(0), 1, {}, []), th), Accept(CheckAccepted),
         State(dev, Reg(Admitted(0), 1, {}, []), th));
  }

  /** The first session's thread is running and run() has not returned yet. */
  function JustLaunched(): State {
    State(FreshDevices(), Reg(Launched(0), 1, {0}, [SessionStarted(0)]), map[0 := Reading])
  }

  lemma ReachLaunched()
    ensures Reachable(JustLaunched())
  {
    ReachAdmitted();
    var dev, th := FreshDevices(), map[0 := NoThread];
    Snoc(State(dev, Reg(Admitted(0), 1, {}, []), th), Accept(Register), State(dev, Reg(Registered(0), 1, {0}, []), th));
    Snoc(State(dev, Reg(Registered(0), 1, {0}, []), th), Accept(NotifyStarted),
         State(dev, Reg(Starting(0), 1, {0}, [SessionStarted(0)]), th));
    Snoc(State(dev, Reg(Starting(0), 1, {0}, [SessionStarted(0)]), th), Accept(SpawnThread), JustLaunched());
  }

  /** The first session holds the device. */
  function Importing(p: Phase): State {
    State(Devices(Table([], map["1-1" := STICK]), {}, map["1-1" := 0], map[0 := Account(1, 0, false)],
                  NO_CALLS),
          Reg(Top, 1, {0}, [SessionStarted(0)]), map[0 := Holding(STICK, p)])
  }

  lemma ReachImporting()
    ensures Reachable(Importing(Opening))
  {
    ReachLaunched();
    var s0 := JustLaunched();
    var s1 := s0.(reg := s0.reg.(loop := Top));
    Snoc(s0, Accept(RunReturns), s1);
    var s2 := s1.(threads := map[0 := Checked("1-1")]);
    Snoc(s1, Work(0, SeeFree("1-1")), s2);
    assert Without([STICK], 0) == [];
    assert Position([STICK], "1-1") == 0;
    assert MoveToUsing(s2.dev.table, "1-1") == (Some(STICK), Table([], map["1-1" := STICK]));
    Snoc(s2, Work(0, Move), Importing(Opening));
  }

  /** An exception that leaves the thread between the import and the receive loop (a throwing
      before-create callback, say) ends the session with its device still in use. */
  lemma EscapeLeaksDevice()
    ensures exists st :: Reachable(st) && st.reg.live == {} && st.dev.table.inUse != map[]
  {
    ReachImporting();
    var s0 := Importing(Opening);
    var dev := s0.dev.(accounts := map[0 := Account(1, 0, true)]);
    var s1 := State(dev, s0.reg, map[0 := Closing]);
    Snoc(s0, Work(0, Escape), s1);
    var s2 := State(dev, Reg(Top, 1, {}, [SessionStarted(0)]), map[0 := Erased]);
    Snoc(s1, Leave(0, EraseSelf), s2);
    var s3 := State(dev, Reg(Top, 1, {}, [SessionStarted(0), SessionEnded(0)]), map[0 := Finished]);
    Snoc(s2, Leave(0, NotifySelf), s3);
    var s4 := s3.(reg := s3.reg.(live := {}, active := 0));
    Snoc(s3, Destroy(0), s4);
    assert "1-1" in s4.dev.table.inUse;
  }

  /** A device unplugged while its session gives it back: the detach came too early, the mark too
      late, and the dead device is offered again. */
  lemma UnplugRace()
    ensures exists st :: Reachable(st) && st.dev.hot == Hotplug(map[], {STICK}, {STICK}, {}, {})
                         && st.dev.table.available == [STICK]
  {
    ReachImporting();
    var s0 := Importing(Opening);
    Snoc(s0, Work(0, OpenError), Importing(Releasing(OpenFailure)));
    var s1 := Importing(Releasing(OpenFailure));
    var call := Unplug("1-1", Some(STICK), false, false);
    var s2 := s1.(dev := s1.dev.(hot := Hotplug(map[7 := call], {STICK}, {}, {}, {})));
    Snoc(s1, Plug(UnplugDetach(7, "1-1")), s2);
    var hot := Hotplug(map[7 := call.(returned := true)], {STICK}, {}, {}, {});
    assert GivenBack(s2.dev.hot.calls, STICK, false) == hot.calls;
    var s3 := State(Devices(Table([STICK], map[]), {}, map[], map[0 := Account(1, 1, false)], hot), s2.reg,
                    map[0 := Closing]);
    assert Release(s2.dev.table, "1-1", {}, true).1 == Table([STICK], map[]);
    Snoc(s2, Work(0, GiveBack), s3);
    var s4 := s3.(dev := s3.dev.(hot := Hotplug(map[], {STICK}, {STICK}, {}, {})));
    Snoc(s3, Plug(UnplugMark(7)), s4);
  }

  const NEW_STICK := Device(1, "1-1")

  const EARLY_CALL := Unplug("1-1", None, false, false)

  /** The stick was unbound, an unplug found its bus id empty, and a new stick was plugged in. */
  function Swapped(th: Thread): State {
    JustLaunched().(dev := FreshDevices().(table := Table([NEW_STICK], map[]),
                                           hot := NO_CALLS.(calls := map[7 := EARLY_CALL])),
                    threads := map[0 := th])
  }

  lemma ReachSwapped()
    ensures Reachable(Swapped(Checked("1-1")))
  {
    ReachLaunched();
    var s0 := JustLaunched();
    var s1 := s0.(dev := s0.dev.(table := Table([], map[])));
    assert Position([STICK], "1-1") == 0 && Without([STICK], 0) == [];
    Snoc(s0, Plug(DetachDev("1-1")), s1);
    var s2 := s1.(dev := s1.dev.(hot := NO_CALLS.(calls := map[7 := EARLY_CALL])));
    Snoc(s1, Plug(UnplugDetach(7, "1-1")), s2);
    Snoc(s2, Plug(AddDev(NEW_STICK)), Swapped(Reading));
    Snoc(Swapped(Reading), Work(0, SeeFree("1-1")), Swapped(Checked("1-1")));
  }

  /** The bus id was empty when the unplug looked and has a new device in use when it comes back: the new
      device, which nobody unplugged, is flagged. */
  lemma UnplugHitsReplacement()
    ensures exists st :: Reachable(st) && st.dev.table.inUse == map["1-1" := NEW_STICK]
                         && st.dev.removed == {NEW_STICK} && st.dev.hot.gone == {}
  {
    ReachSwapped();
    var s0 := Swapped(Checked("1-1"));
    assert Position([NEW_STICK], "1-1") == 0 && Without([NEW_STICK], 0) == [];
    var hot := NO_CALLS.(calls := map[7 := EARLY_CALL.(replaced := true)]);
    assert Imported(s0.dev.hot.calls, NEW_STICK) == hot.calls;
    var dev := Devices(Table([], map["1-1" := NEW_STICK]), {}, map["1-1" := 0], map[0 := Account(1, 0, false)], hot);
    var s1 := State(dev, s0.reg, map[0 := Holding(NEW_STICK, Opening)]);
    Snoc(s0, Work(0, Move), s1);
    var s2 := s1.(dev := dev.(removed := {NEW_STICK}, hot := NO_CALLS.(strays := {NEW_STICK})));
    Snoc(s1, Plug(UnplugMark(7)), s2);
  }

  function AfterThrow(l: Loop, running: bool, stopper: Stopper): State {
    State(FreshDevices(),
          Registry(running, l, stopper, 1, 1, {0}, {}, {}, {}, {0},
                   [SessionStarted(0), SessionEnded(0)]), map[0 := Reading])
  }

  /** The after-create callback throws once the thread runs: the coroutine reports the session ended
      and forgets it, and stop() then waits for a session it never asked to stop. */
  lemma CallbackDisownsSession()
    ensures exists st :: Reachable(st) && st.reg.stopper.Waiting?
                         && 0 in st.threads && InService(st.threads[0]) && 0 !in st.reg.asked
  {
    ReachLaunched();
    var s0 := JustLaunched();
    var s1 := s0.(reg := s0.reg.(loop := RunFailed(0)));
    Snoc(s0, Accept(CallbackThrows), s1);
    var s2 := s1.(reg := s1.reg.(loop := LoopErased(0), table := {}, disowned := {0}));
    Snoc(s1, Accept(EraseRun), s2);
    Snoc(s2, Accept(NotifyEnded), AfterThrow(Top, true, Away));
    Snoc(AfterThrow(Top, true, Away), Stop(RequestStop), AfterThrow(Top, false, Requested));
    Snoc(AfterThrow(Top, false, Requested), Accept(CheckTop), AfterThrow(Over, false, Requested));
    Snoc(AfterThrow(Over, false, Requested), Stop(Join), AfterThrow(Over, false, Joined));
    Snoc(AfterThrow(Over, false, Joined), Stop(Poll), AfterThrow(Over, false, Polled));
    Snoc(AfterThrow(Over, false, Polled), Stop(Snapshot), AfterThrow(Over, false, Asking));
    Snoc(AfterThrow(Over, false, Asking), Stop(DropConns), AfterThrow(Over, false, Waiting));
  }
}
