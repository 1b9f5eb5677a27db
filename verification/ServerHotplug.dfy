/**
  Hot unplugging as the two locked steps it is, over all runs: what becomes of a device that was
  unplugged, and exactly which calls miss theirs.
 */
module ServerHotplug {
  import opened UsbIp
  import opened DeviceTable
  import opened ServerRuns
  import opened ServerInvariants

  predicate InUse(t: Table, d: Device) { d.busid in t.inUse && t.inUse[d.busid] == d }

  predicate InTable(t: Table, d: Device) { InUse(t, d) || d in t.available }

  /** Another device stands under the bus id exactly if one was imported since. And for a call that saw
      its device in use: since then the device was given back unflagged, or it is still
      in use, or it was flagged. */
  predicate CallOk(u: Unplug, t: Table, removed: set<Device>) {
    && (u.returned ==> u.seen.Some?)
    && (u.replaced <==> u.b in t.inUse && u.seen != Some(t.inUse[u.b]))
    && (u.seen.Some? ==>
          && u.seen.value.busid == u.b
          && if u.returned then u.seen.value !in removed && !InUse(t, u.seen.value)
             else u.seen.value in removed || InUse(t, u.seen.value))
  }

  ghost predicate CallsOk(calls: map<nat, Unplug>, t: Table, removed: set<Device>) {
    forall c :: c in calls ==> CallOk(calls[c], t, removed)
  }

  ghost predicate SeenBy(calls: map<nat, Unplug>, d: Device) { exists c :: c in calls && calls[c].seen == Some(d) }

  /** Where an unplugged device can be. */
  ghost predicate Settled(hot: Hotplug, t: Table, removed: set<Device>, d: Device) {
    SeenBy(hot.calls, d) || d in removed || !InTable(t, d) || d in hot.missed
  }

  /** Why a device is flagged: it was unplugged, its own transfers found it gone, or a call took it for
      the device that had its bus id before. */
  ghost predicate FlagsExplained(hot: Hotplug, removed: set<Device>) {
    && removed <= hot.gone + hot.own + hot.strays && hot.own + hot.strays <= removed
    && forall c :: c in hot.calls && hot.calls[c].seen.Some? ==> hot.calls[c].seen.value in hot.gone
  }

  ghost predicate HotOk(dev: Devices) {
    && CallsOk(dev.hot.calls, dev.table, dev.removed)
    && FlagsExplained(dev.hot, dev.removed)
    && (forall d :: d in dev.hot.gone ==> Settled(dev.hot, dev.table, dev.removed, d))
  }

  // ---- steps ----

  /** The calls only learned; they saw what they saw. */
  ghost predicate SameSeen(calls: map<nat, Unplug>, calls': map<nat, Unplug>) {
    calls'.Keys == calls.Keys && forall c :: c in calls ==> calls'[c].seen == calls[c].seen && calls'[c].b == calls[c].b
  }

  lemma DetachedGone(t: Table, b: Busid)
    requires WellFormed(t) && Detach(t, b).0.Some?
    ensures !InTable(Detach(t, b).1, Detach(t, b).0.value)
    ensures forall d :: InTable(Detach(t, b).1, d) ==> InTable(t, d)
    ensures forall d :: InUse(Detach(t, b).1, d) <==> InUse(t, d)
  {
    WithoutBusids(t.available, Position(t.available, b));
  }

  lemma HotByDetach(dev: Devices, b: Busid)
    requires WellFormed(dev.table) && HotOk(dev)
    ensures HotOk(dev.(table := Detach(dev.table, b).1))
  {
    if Detach(dev.table, b).0.Some? {
      DetachedGone(dev.table, b);
    }
  }

  lemma HotByUnplugFound(dev: Devices, b: Busid)
    requires WellFormed(dev.table) && HotOk(dev) && Detach(dev.table, b).0.Some?
    ensures var d := Detach(dev.table, b).0.value;
            HotOk(dev.(table := Detach(dev.table, b).1, hot := dev.hot.(gone := dev.hot.gone + {d})))
  {
    HotByDetach(dev, b);
    DetachedGone(dev.table, b);
  }

  lemma HotByUnplugPending(dev: Devices, call: nat, b: Busid)
    requires WellFormed(dev.table) && HotOk(dev) && call !in dev.hot.calls && Detach(dev.table, b).0.None?
    ensures HotOk(PlugStep(dev, UnplugDetach(call, b)))
  {
    var dev' := PlugStep(dev, UnplugDetach(call, b));
    forall d | d in dev'.hot.gone ensures Settled(dev'.hot, dev'.table, dev'.removed, d) {
      if d in dev.hot.gone && SeenBy(dev.hot.calls, d) {
        var c :| c in dev.hot.calls && dev.hot.calls[c].seen == Some(d);
        assert dev'.hot.calls[c].seen == Some(d);
      } else if d !in dev.hot.gone {
        assert dev'.hot.calls[call].seen == Some(d);
      }
    }
  }

  /** Flagging a device in use keeps every call in order. */
  lemma CallsFlagged(calls: map<nat, Unplug>, t: Table, removed: set<Device>, x: Device)
    requires CallsOk(calls, t, removed) && InUse(t, x)
    ensures CallsOk(calls, t, removed + {x})
  {
  }

  lemma HotByMark(dev: Devices, call: nat)
    requires WellFormed(dev.table) && HotOk(dev) && call in dev.hot.calls
    ensures HotOk(PlugStep(dev, UnplugMark(call)))
  {
    var dev' := PlugStep(dev, UnplugMark(call));
    var b := dev.hot.calls[call].b;
    if b in dev.table.inUse {
      CallsFlagged(dev.hot.calls, dev.table, dev.removed, dev.table.inUse[b]);
    }
    forall d | d in dev'.hot.gone ensures Settled(dev'.hot, dev'.table, dev'.removed, d) {
      if SeenBy(dev.hot.calls, d) {
        var c :| c in dev.hot.calls && dev.hot.calls[c].seen == Some(d);
        if c != call {
          assert dev'.hot.calls[c].seen == Some(d);
        }
      }
    }
  }

  lemma HotByAdd(dev: Devices, d: Device)
    requires WellFormed(dev.table) && HotOk(dev) && d !in dev.hot.gone
    ensures HotOk(dev.(table := Add(dev.table, d).1))
  {
    var t := Add(dev.table, d).1;
    assert forall x :: InTable(t, x) ==> InTable(dev.table, x) || x == d;
  }

  lemma PlugKeepsHot(dev: Devices, p: DeviceEvent)
    requires WellFormed(dev.table) && HotOk(dev) && PlugEnabled(dev, p)
    ensures HotOk(PlugStep(dev, p))
  {
    match p
    case AddDev(d) => HotByAdd(dev, d);
    case DetachDev(b) => HotByDetach(dev, b);
    case UnplugDetach(call, b) =>
      if Detach(dev.table, b).0.Some? { HotByUnplugFound(dev, b); } else { HotByUnplugPending(dev, call, b); }
    case UnplugMark(call) => HotByMark(dev, call);
  }

  /** A device changed hands and the calls were told. */
  lemma HotByExchange(dev: Devices, t': Table, calls': map<nat, Unplug>)
    requires HotOk(dev) && SameSeen(dev.hot.calls, calls') && CallsOk(calls', t', dev.removed)
    requires forall d :: InTable(t', d) ==> InTable(dev.table, d)
    ensures FlagsExplained(dev.hot.(calls := calls'), dev.removed)
    ensures forall d :: d in dev.hot.gone ==> Settled(dev.hot.(calls := calls'), t', dev.removed, d)
  {
    forall c | c in calls' && calls'[c].seen.Some?
      ensures calls'[c].seen.value in dev.hot.gone
    {
      assert c in dev.hot.calls.Keys;
    }
    forall d | d in dev.hot.gone
      ensures Settled(dev.hot.(calls := calls'), t', dev.removed, d)
    {
    }
  }

  lemma HotByMove(dev: Devices, running: bool, threads: map<Id, Thread>, id: Id)
    requires DevicesOk(dev, threads) && HotOk(dev) && id in threads && WorkEnabled(dev, threads[id], Move)
    ensures HotOk(WorkDevices(dev, running, id, threads[id], Move))
  {
    var b := threads[id].b;
    if MoveToUsing(dev.table, b).0.Some? {
      var x := MoveToUsing(dev.table, b).0.value;
      HotByExchange(dev, MoveToUsing(dev.table, b).1, Imported(dev.hot.calls, x));
    }
  }

  lemma CallsByGiveBack(calls: map<nat, Unplug>, t: Table, removed: set<Device>, x: Device, running: bool)
    requires WellFormed(t) && InUse(t, x) && CallsOk(calls, t, removed)
    ensures CallsOk(GivenBack(calls, x, x in removed), Release(t, x.busid, removed, running).1, removed)
  {
    var t' := Release(t, x.busid, removed, running).1;
    forall c | c in calls
      ensures CallOk(GivenBack(calls, x, x in removed)[c], t', removed)
    {
      assert CallOk(calls[c], t, removed);
    }
  }

  lemma HotByGiveBack(dev: Devices, running: bool, threads: map<Id, Thread>, id: Id)
    requires DevicesOk(dev, threads) && HotOk(dev) && id in threads && WorkEnabled(dev, threads[id], GiveBack)
    ensures HotOk(WorkDevices(dev, running, id, threads[id], GiveBack))
  {
    var x := threads[id].d;
    CallsByGiveBack(dev.hot.calls, dev.table, dev.removed, x, running);
    HotByExchange(dev, Release(dev.table, x.busid, dev.removed, running).1,
                  GivenBack(dev.hot.calls, x, x in dev.removed));
  }

  lemma WorkKeepsHot(dev: Devices, running: bool, threads: map<Id, Thread>, id: Id, w: WorkEvent)
    requires DevicesOk(dev, threads) && HotOk(dev) && id in threads && WorkEnabled(dev, threads[id], w)
    ensures HotOk(WorkDevices(dev, running, id, threads[id], w))
  {
    match w
    case Move => HotByMove(dev, running, threads, id);
    case GiveBack => HotByGiveBack(dev, running, threads, id);
    case FlagRemoved => CallsFlagged(dev.hot.calls, dev.table, dev.removed, threads[id].d);
    case _ =>
  }

  lemma HotStep(st: State, e: Event)
    requires DevicesOk(st.dev, st.threads) && HotOk(st.dev) && Enabled(st, e)
    ensures HotOk(Step(st, e).dev)
  {
    match e
    case Work(id, w) => WorkKeepsHot(st.dev, st.reg.running, st.threads, id, w);
    case Plug(p) => PlugKeepsHot(st.dev, p);
    case _ =>
  }

  lemma {:induction false} RunHot(devices: seq<Device>, es: seq<Event>)
    requires DistinctBusids(devices) && Exec(devices, es).Some?
    ensures HotOk(Exec(devices, es).value.dev)
  {
    if es != [] {
      RunHot(devices, es[..|es| - 1]);
      RunInvariant(devices, es[..|es| - 1]);
      HotStep(Exec(devices, es[..|es| - 1]).value, es[|es| - 1]);
    }
  }

  // ---- theorems ----

  /** Once no call for it is pending, an unplugged device is flagged, or out of both containers, or a call
      missed it; in particular an unplugged device is offered for import only if one did. */
  lemma UnplugSettles(st: State, d: Device)
    requires Reachable(st) && d in st.dev.hot.gone && !SeenBy(st.dev.hot.calls, d)
    ensures d in st.dev.removed || !InTable(st.dev.table, d) || d in st.dev.hot.missed
    ensures d in st.dev.table.available ==> d in st.dev.hot.missed
  {
    ReachableHot(st);
    ReachableOk(st);
  }

  /** The thread gives back, unflagged, the device that the call saw. */
  predicate GivesBack(dev: Devices, th: Thread, w: WorkEvent, u: Unplug) {
    w.GiveBack? && th.Holding? && u.seen == Some(th.d) && th.d !in dev.removed
  }

  /** The thread imports the device that the call saw. */
  predicate Reimports(dev: Devices, th: Thread, w: WorkEvent, u: Unplug) {
    w.Move? && th.Checked? && u.seen.Some? && MoveToUsing(dev.table, th.b).0 == u.seen
  }

  /** The thread imports another device with the bus id of the call. */
  predicate Replaces(dev: Devices, th: Thread, w: WorkEvent, u: Unplug) {
    && w.Move? && th.Checked? && th.b == u.b
    && var found := MoveToUsing(dev.table, th.b).0; found.Some? && found != u.seen
  }

  /** The thread gives back the other device with that bus id. */
  predicate Restores(th: Thread, w: WorkEvent, u: Unplug) {
    w.GiveBack? && th.Holding? && th.d.busid == u.b && u.seen != Some(th.d)
  }

  /** What a pending call knows after a step of a session thread. */
  function Told(dev: Devices, th: Thread, w: WorkEvent, u: Unplug): Unplug {
    u.(returned := if GivesBack(dev, th, w, u) then true else if Reimports(dev, th, w, u) then false else u.returned,
       replaced := if Replaces(dev, th, w, u) then true
                   else if Restores(th, w, u) || Reimports(dev, th, w, u) then false else u.replaced)
  }

  lemma WorkTells(dev: Devices, running: bool, id: Id, th: Thread, w: WorkEvent, call: nat)
    requires WorkEnabled(dev, th, w) && id in dev.accounts && call in dev.hot.calls
    requires var u := dev.hot.calls[call]; u.seen.Some? ==> u.seen.value.busid == u.b
    ensures call in WorkDevices(dev, running, id, th, w).hot.calls
    ensures WorkDevices(dev, running, id, th, w).hot.calls[call] == Told(dev, th, w, dev.hot.calls[call])
  {
  }

  /** Which steps decide what a pending call will do: its device counts as given back from the step that
      gives it back unflagged until the step that imports it again, and its bus id as taken over from the
      import of another device until that one is given back. No other step changes either. */
  lemma ReturnedExactly(st: State, e: Event, call: nat)
    requires Reachable(st) && Enabled(st, e) && call in st.dev.hot.calls && e != Plug(UnplugMark(call))
    ensures call in Step(st, e).dev.hot.calls
    ensures var u, u' := st.dev.hot.calls[call], Step(st, e).dev.hot.calls[call];
            u' == if e.Work? then Told(st.dev, st.threads[e.id], e.w, u) else u
  {
    match e
    case Work(id, w) =>
      assert id in st.dev.accounts by { ReachableOk(st); }
      assert CallOk(st.dev.hot.calls[call], st.dev.table, st.dev.removed) by { ReachableHot(st); }
      WorkTells(st.dev, st.reg.running, id, st.threads[id], w, call);
    case _ =>
  }

  lemma ReachableHot(st: State)
    requires Reachable(st)
    ensures HotOk(st.dev)
  {
    var devices, es :| DistinctBusids(devices) && Exec(devices, es) == Some(st);
    RunHot(devices, es);
  }

  /** A call misses its device exactly if the device it saw in use was given back between its two steps
      and not imported again; then it adds that device, and otherwise nothing, to the missed ones. */
  lemma UnplugMissesExactly(st: State, call: nat)
    requires Reachable(st) && call in st.dev.hot.calls
    ensures var u, st' := st.dev.hot.calls[call], Step(st, Plug(UnplugMark(call)));
            && (u.returned <==> u.seen.Some? && u.seen.value !in st'.dev.removed)
            && st'.dev.hot.missed == st.dev.hot.missed + if u.returned then {u.seen.value} else {}
  {
    ReachableHot(st);
    assert CallOk(st.dev.hot.calls[call], st.dev.table, st.dev.removed);
  }

  /** A call flags a device it did not see exactly if another device with the bus id was imported between
      its two steps and not given back; then it adds that device, and otherwise nothing, to the strays. */
  lemma UnplugStraysExactly(st: State, call: nat)
    requires Reachable(st) && call in st.dev.hot.calls
    ensures var u, dev' := st.dev.hot.calls[call], Step(st, Plug(UnplugMark(call))).dev;
            && (u.replaced <==> u.b in st.dev.table.inUse && u.seen != Some(st.dev.table.inUse[u.b]))
            && dev'.hot.strays == st.dev.hot.strays + (if u.replaced then {st.dev.table.inUse[u.b]} else {})
            && (u.replaced ==> st.dev.table.inUse[u.b] in dev'.removed)
  {
    ReachableHot(st);
    assert CallOk(st.dev.hot.calls[call], st.dev.table, st.dev.removed);
  }

  /** In every run a device that was not unplugged is flagged exactly if its own transfers found it gone, or a
      call took it for the device that had its bus id before. */
  lemma FlaggedForAReason(st: State, d: Device)
    requires Reachable(st)
    ensures d in st.dev.removed ==> d in st.dev.hot.gone || d in st.dev.hot.own || d in st.dev.hot.strays
    ensures d in st.dev.hot.own || d in st.dev.hot.strays ==> d in st.dev.removed
  {
    ReachableHot(st);
  }
}
