/**
  What every step of the server keeps, for the device table and for the session registry.
 */
module ServerInvariants {
  import opened UsbIp
  import opened DeviceTable
  import opened ServerRuns

  // ---- devices ----

  /** Imports and releases of a session, by where its thread is. */
  predicate Balanced(th: Thread, a: Account) {
    match th
    case NoThread | Reading | Checked(_) => a == Account(0, 0, false)
    case Holding(_, _) => a == Account(1, 0, false)
    case Closing | Erased | Finished =>
      a == Account(0, 0, false) || a == Account(1, 1, false) || a == Account(1, 0, true)
  }

  ghost predicate AccountsOk(accounts: map<Id, Account>, threads: map<Id, Thread>) {
    accounts.Keys == threads.Keys && forall id :: id in threads ==> Balanced(threads[id], accounts[id])
  }

  /** A session that holds a device is the owner of its entry. */
  ghost predicate HeldOk(inUse: map<Busid, Device>, owner: map<Busid, Id>, threads: map<Id, Thread>) {
    forall id :: id in threads && threads[id].Holding? ==>
      var d := threads[id].d; d.busid in inUse && inUse[d.busid] == d && d.busid in owner && owner[d.busid] == id
  }

  /** Every entry has an owner that still holds it, or that lost control of it. */
  ghost predicate OwnedOk(inUse: map<Busid, Device>, owner: map<Busid, Id>,
                          accounts: map<Id, Account>, threads: map<Id, Thread>) {
    && owner.Keys == inUse.Keys
    && (forall b :: b in owner ==>
          && owner[b] in threads && owner[b] in accounts
          && (accounts[owner[b]].escaped || (threads[owner[b]].Holding? && threads[owner[b]].d.busid == b)))
  }

  ghost predicate DevicesOk(dev: Devices, threads: map<Id, Thread>) {
    && WellFormed(dev.table)
    && NoneRemoved(dev.table.available, dev.removed)
    && AccountsOk(dev.accounts, threads)
    && HeldOk(dev.table.inUse, dev.owner, threads)
    && OwnedOk(dev.table.inUse, dev.owner, dev.accounts, threads)
  }

  /** A session that lost control of its device still owns an entry. */
  ghost predicate EscapesOwn(accounts: map<Id, Account>, owner: map<Busid, Id>) {
    forall id :: id in accounts && accounts[id].escaped ==> Owns(owner, id)
  }

  ghost predicate Owns(owner: map<Busid, Id>, id: Id) { exists b :: b in owner && owner[b] == id }

  lemma FlaggedNotAvailable(t: Table, removed: set<Device>, b: Busid)
    requires WellFormed(t) && NoneRemoved(t.available, removed) && b in t.inUse
    ensures NoneRemoved(t.available, removed + {t.inUse[b]})
  {
    forall i | 0 <= i < |t.available| ensures t.available[i] !in removed + {t.inUse[b]} {
      assert t.available[i].busid !in t.inUse;
    }
  }

  lemma PlugKeepsDevices(dev: Devices, threads: map<Id, Thread>, p: DeviceEvent)
    requires DevicesOk(dev, threads) && PlugEnabled(dev, p)
    ensures DevicesOk(PlugStep(dev, p), threads)
  {
    match p
    case AddDev(d) => AddKeeps(dev.table, d, dev.removed);
    case DetachDev(b) => DetachKeeps(dev.table, b, dev.removed);
    case UnplugDetach(call, b) => DetachKeeps(dev.table, b, dev.removed);
    case UnplugMark(call) =>
      var b := dev.hot.calls[call].b;
      if b in dev.table.inUse { FlaggedNotAvailable(dev.table, dev.removed, b); }
  }

  lemma MoveKeepsDevices(dev: Devices, running: bool, threads: map<Id, Thread>, id: Id)
    requires DevicesOk(dev, threads) && id in threads && WorkEnabled(dev, threads[id], Move)
    ensures DevicesOk(WorkDevices(dev, running, id, threads[id], Move),
                      threads[id := WorkThread(dev, threads[id], Move)])
  {
    MoveKeeps(dev.table, threads[id].b, dev.removed);
  }

  lemma GiveBackKeepsDevices(dev: Devices, running: bool, threads: map<Id, Thread>, id: Id)
    requires DevicesOk(dev, threads) && id in threads && WorkEnabled(dev, threads[id], GiveBack)
    ensures DevicesOk(WorkDevices(dev, running, id, threads[id], GiveBack), threads[id := Closing])
  {
    ReleaseKeeps(dev.table, threads[id].d.busid, dev.removed, running);
  }

  /** A step of one thread that leaves containers and owners alone. */
  lemma QuietKeepsDevices(dev: Devices, threads: map<Id, Thread>, id: Id, th: Thread, a: Account)
    requires DevicesOk(dev, threads) && id in threads && Balanced(th, a)
    requires th.Holding? ==> threads[id].Holding? && threads[id].d == th.d
    requires !th.Holding? && threads[id].Holding? ==> a.escaped
    requires dev.accounts[id].escaped ==> a.escaped
    ensures DevicesOk(dev.(accounts := dev.accounts[id := a]), threads[id := th])
  {
  }

  lemma WorkKeepsDevices(dev: Devices, running: bool, threads: map<Id, Thread>, id: Id, w: WorkEvent)
    requires DevicesOk(dev, threads) && id in threads && WorkEnabled(dev, threads[id], w)
    ensures DevicesOk(WorkDevices(dev, running, id, threads[id], w), threads[id := WorkThread(dev, threads[id], w)])
  {
    if w.Move? {
      MoveKeepsDevices(dev, running, threads, id);
    } else if w.GiveBack? {
      GiveBackKeepsDevices(dev, running, threads, id);
    } else if w.FlagRemoved? {
      FlaggedNotAvailable(dev.table, dev.removed, threads[id].d.busid);
      assert threads[id := threads[id]] == threads;
    } else {
      var a := WorkDevices(dev, running, id, threads[id], w).accounts[id];
      QuietKeepsDevices(dev, threads, id, WorkThread(dev, threads[id], w), a);
      assert dev.accounts[id := dev.accounts[id]] == dev.accounts;
    }
  }

  lemma LoopKeepsDevices(st: State, l: LoopEvent)
    requires DevicesOk(st.dev, st.threads) && LoopEnabled(st.reg, l) && IdsOk(st.reg, st.threads)
    requires LoopId(st.reg.loop).Some? ==> Consistent(st.reg, st.threads, st.reg.loop.id)
    ensures DevicesOk(LoopDevices(st.reg, st.dev, l), LoopThreads(st.reg, st.threads, l))
  {
    if l.Make? {
    } else if l.SpawnThread? {
      var id := st.reg.loop.id;
      QuietKeepsDevices(st.dev, st.threads, id, Reading, st.dev.accounts[id]);
      assert st.dev.accounts[id := st.dev.accounts[id]] == st.dev.accounts;
    }
  }

  /** An entry more, or the entry of another session less. */
  lemma OwnsKept(owner: map<Busid, Id>, owner': map<Busid, Id>, id: Id)
    requires Owns(owner, id) && forall b :: b in owner && owner[b] == id ==> b in owner' && owner'[b] == id
    ensures Owns(owner', id)
  {
    var b :| b in owner && owner[b] == id;
    assert b in owner' && owner'[b] == id;
  }

  lemma WorkKeepsEscapes(dev: Devices, running: bool, threads: map<Id, Thread>, id: Id, w: WorkEvent)
    requires DevicesOk(dev, threads) && EscapesOwn(dev.accounts, dev.owner)
    requires id in threads && WorkEnabled(dev, threads[id], w)
    ensures var dev' := WorkDevices(dev, running, id, threads[id], w); EscapesOwn(dev'.accounts, dev'.owner)
  {
    var dev' := WorkDevices(dev, running, id, threads[id], w);
    assert Balanced(threads[id], dev.accounts[id]);
    if w.Move? {
      MoveKeeps(dev.table, threads[id].b, dev.removed);
    }
    forall x | x in dev'.accounts && dev'.accounts[x].escaped ensures Owns(dev'.owner, x) {
      if dev.accounts[x].escaped {
        OwnsKept(dev.owner, dev'.owner, x);
      } else {
        assert x == id && dev.owner[threads[id].d.busid] == id;
      }
    }
  }

  lemma EscapesStep(st: State, e: Event)
    requires DevicesOk(st.dev, st.threads) && EscapesOwn(st.dev.accounts, st.dev.owner) && Enabled(st, e)
    ensures EscapesOwn(Step(st, e).dev.accounts, Step(st, e).dev.owner)
  {
    match e
    case Accept(l) => LoopKeepsEscapes(st.reg, st.dev, l);
    case Work(id, w) => WorkKeepsEscapes(st.dev, st.reg.running, st.threads, id, w);
    case Plug(p) => PlugKeepsEscapes(st.dev, p);
    case _ =>
  }

  lemma LoopKeepsEscapes(reg: Registry, dev: Devices, l: LoopEvent)
    requires EscapesOwn(dev.accounts, dev.owner)
    ensures EscapesOwn(LoopDevices(reg, dev, l).accounts, LoopDevices(reg, dev, l).owner)
  {
  }

  lemma PlugKeepsEscapes(dev: Devices, p: DeviceEvent)
    requires EscapesOwn(dev.accounts, dev.owner) && PlugEnabled(dev, p)
    ensures EscapesOwn(PlugStep(dev, p).accounts, PlugStep(dev, p).owner)
  {
    assert PlugStep(dev, p).accounts == dev.accounts && PlugStep(dev, p).owner == dev.owner;
  }

  lemma DevicesStep(st: State, e: Event)
    requires DevicesOk(st.dev, st.threads) && Enabled(st, e) && RegistryOk(st.reg, st.threads)
    ensures DevicesOk(Step(st, e).dev, Step(st, e).threads)
  {
    match e
    case Accept(l) => LoopKeepsDevices(st, l);
    case Work(id, w) => WorkKeepsDevices(st.dev, st.reg.running, st.threads, id, w);
    case Leave(id, v) =>
      QuietKeepsDevices(st.dev, st.threads, id, Step(st, e).threads[id], st.dev.accounts[id]);
      assert st.dev.accounts[id := st.dev.accounts[id]] == st.dev.accounts;
    case Stop(s) =>
    case Destroy(id) =>
    case Plug(p) => PlugKeepsDevices(st.dev, st.threads, p);
  }

  // ---- sessions ----

  /** The coroutine as one session sees it. */
  function Seen(l: Loop, id: Id): Loop { if LoopId(l) == Some(id) then l else Over }

  /** Before the session is in the table. */
  predicate Unregistered(l: Loop) { l.Made? || l.Counted? || l.Accepting? || l.Accepted? || l.Admitted? }

  /** One session's life, from its notifications, its table entry, its thread and the coroutine. */
  predicate LifeOk(started: bool, ended: bool, listed: bool, th: Thread, l: Loop) {
    && (ended ==> started && !listed)
    && (listed ==> th.NoThread? || InService(th))
    && (th.Erased? ==> started && !ended && !listed)
    && (!th.NoThread? ==> started)
    && (started && !listed && !th.Erased? && !l.LoopErased? ==> ended)
    && (Unregistered(l) ==> !started && !listed && th.NoThread?)
    && (l.Registered? ==> listed && !started && th.NoThread?)
    && (l.Starting? ==> listed && started && th.NoThread?)
    && (l.Launched? ==> !th.NoThread?)
    && (l.RunFailed? ==> started && (th.NoThread? ==> listed))
    && (l.LoopErased? ==> started && !ended && !listed && !th.Erased?)
    && (l.Over? && th.NoThread? ==> !listed)
  }

  ghost predicate Consistent(reg: Registry, threads: map<Id, Thread>, id: Id)
    requires id in threads
  {
    LifeOk(SessionStarted(id) in reg.notes, SessionEnded(id) in reg.notes, id in reg.table, threads[id],
           Seen(reg.loop, id))
  }

  /** Each notification at most once, and the end only after the start. */
  ghost predicate NotesOk(notes: seq<Note>) {
    && (forall i, j :: 0 <= i < j < |notes| ==> notes[i] != notes[j])
    && (forall j :: 0 <= j < |notes| && notes[j].SessionEnded? ==> SessionStarted(notes[j].id) in notes[..j])
  }

  ghost predicate IdsOk(reg: Registry, threads: map<Id, Thread>) {
    && (forall id: Id :: id in threads <==> id < reg.nextId)
    && (forall n :: n in reg.notes ==> n.id in threads)
    && reg.table <= threads.Keys
    && reg.live <= threads.Keys
    && (LoopId(reg.loop).Some? ==> reg.loop.id in threads)
  }

  ghost predicate RefsOk(reg: Registry, threads: map<Id, Thread>) {
    forall id :: Referenced(reg, threads, id) ==> id in reg.live
  }

  predicate CountOk(reg: Registry) {
    reg.active == |reg.live| - if reg.loop.Made? then 1 else 0
  }

  predicate StopOk(reg: Registry) {
    match reg.stopper
    case Away => reg.conns == {} && reg.asked == {}
    case Requested => !reg.running && reg.conns == {} && reg.asked == {}
    case Joined =>
      !reg.running && reg.conns == {} && reg.asked == {} && (reg.loop.Idle? || reg.loop.Accepting? || reg.loop.Over?)
    case Polled => !reg.running && reg.conns == {} && reg.asked == {} && reg.loop.Over?
    case Asking => !reg.running && reg.loop.Over?
    case Waiting => !reg.running && reg.conns == {} && reg.loop.Over?
    case Clearing | Returned => !reg.running && reg.conns == {} && reg.loop.Over? && reg.live == {}
  }

  /** A session thread at work is in the table, unless the coroutine took it out; once stop() has
      taken its snapshot, it was asked to stop, or is about to be. */
  ghost predicate AskedOk(reg: Registry, threads: map<Id, Thread>) {
    forall id :: id in threads && InService(threads[id]) && id !in reg.disowned ==>
      && id in reg.table
      && (reg.stopper.Asking? ==> id in reg.conns)
      && (reg.stopper.Waiting? || reg.stopper.Clearing? || reg.stopper.Returned? ==> id in reg.asked)
  }

  /** A session the coroutine took out of the table stays out, and is never asked to stop. */
  ghost predicate DisownedOk(reg: Registry) {
    && reg.disowned !! reg.table + reg.conns + reg.asked
    && (forall id :: id in reg.disowned ==> SessionStarted(id) in reg.notes)
  }

  ghost predicate RegistryOk(reg: Registry, threads: map<Id, Thread>) {
    && IdsOk(reg, threads)
    && (forall id :: id in threads ==> Consistent(reg, threads, id))
    && NotesOk(reg.notes)
    && RefsOk(reg, threads)
    && CountOk(reg)
    && StopOk(reg)
    && AskedOk(reg, threads)
    && DisownedOk(reg)
  }

  lemma NoteAdded(notes: seq<Note>, n: Note)
    requires NotesOk(notes) && n !in notes && (n.SessionEnded? ==> SessionStarted(n.id) in notes)
    ensures NotesOk(notes + [n])
  {
    var m := notes + [n];
    forall j | 0 <= j < |m| && m[j].SessionEnded? ensures SessionStarted(m[j].id) in m[..j] {
      assert m[..j] == notes[..j];
      assert notes[..|notes|] == notes;
    }
  }

  /** Work inside a session thread does not concern the registry. */
  lemma WorkKeepsRegistry(reg: Registry, threads: map<Id, Thread>, id: Id, th: Thread)
    requires RegistryOk(reg, threads) && id in threads && InService(threads[id]) && InService(th)
    ensures RegistryOk(reg, threads[id := th])
  {
    var threads' := threads[id := th];
    forall x | x in threads' ensures Consistent(reg, threads', x) { assert Consistent(reg, threads, x); }
    forall x | Referenced(reg, threads', x) ensures x in reg.live { assert Referenced(reg, threads, x); }
  }

  /** Everything about one session after a coroutine step, from everything about it before. */
  lemma LoopKeepsLife(reg: Registry, threads: map<Id, Thread>, l: LoopEvent, id: Id)
    requires IdsOk(reg, threads) && LoopEnabled(reg, l) && id in LoopThreads(reg, threads, l)
    requires id in threads ==> Consistent(reg, threads, id)
    ensures Consistent(LoopStep(reg, l), LoopThreads(reg, threads, l), id)
  {
    if id !in threads {
    } else if LoopId(reg.loop) == Some(id) {
    }
  }

  lemma LoopKeepsNotes(reg: Registry, threads: map<Id, Thread>, l: LoopEvent)
    requires RegistryOk(reg, threads) && LoopEnabled(reg, l)
    ensures NotesOk(LoopStep(reg, l).notes)
  {
    if l.NotifyStarted? || l.NotifyEnded? {
      assert Consistent(reg, threads, reg.loop.id);
      NoteAdded(reg.notes, if l.NotifyStarted? then SessionStarted(reg.loop.id) else SessionEnded(reg.loop.id));
    }
  }

  lemma LoopKeepsIds(reg: Registry, threads: map<Id, Thread>, l: LoopEvent)
    requires IdsOk(reg, threads) && CountOk(reg) && StopOk(reg) && LoopEnabled(reg, l)
    ensures IdsOk(LoopStep(reg, l), LoopThreads(reg, threads, l))
    ensures CountOk(LoopStep(reg, l)) && StopOk(LoopStep(reg, l))
  {
    if l.Make? {
      assert reg.nextId !in reg.live;
    }
  }

  lemma LoopKeepsAsked(reg: Registry, threads: map<Id, Thread>, l: LoopEvent)
    requires LoopEnabled(reg, l) && AskedOk(reg, threads)
    requires LoopId(reg.loop).Some? ==> reg.loop.id in threads && Consistent(reg, threads, reg.loop.id)
    ensures AskedOk(LoopStep(reg, l), LoopThreads(reg, threads, l))
  {
  }

  lemma LoopKeepsDisowned(reg: Registry, threads: map<Id, Thread>, l: LoopEvent)
    requires LoopEnabled(reg, l) && StopOk(reg) && DisownedOk(reg)
    requires LoopId(reg.loop).Some? ==> reg.loop.id in threads && Consistent(reg, threads, reg.loop.id)
    ensures DisownedOk(LoopStep(reg, l))
  {
  }

  lemma LoopKeepsRegistry(reg: Registry, threads: map<Id, Thread>, l: LoopEvent)
    requires RegistryOk(reg, threads) && LoopEnabled(reg, l)
    ensures RegistryOk(LoopStep(reg, l), LoopThreads(reg, threads, l))
  {
    LoopKeepsIds(reg, threads, l);
    LoopKeepsNotes(reg, threads, l);
    LoopKeepsAsked(reg, threads, l);
    LoopKeepsDisowned(reg, threads, l);
    forall id | id in LoopThreads(reg, threads, l)
      ensures Consistent(LoopStep(reg, l), LoopThreads(reg, threads, l), id)
    {
      LoopKeepsLife(reg, threads, l, id);
    }
  }

  lemma LeaveKeepsLife(st: State, id: Id, v: LeaveEvent, x: Id)
    requires Enabled(st, Leave(id, v)) && x in st.threads && Consistent(st.reg, st.threads, x)
    ensures Consistent(LeaveStep(st, id, v).reg, LeaveStep(st, id, v).threads, x)
  {
    var notes, notes' := st.reg.notes, LeaveStep(st, id, v).reg.notes;
    assert SessionStarted(x) in notes' <==> SessionStarted(x) in notes;
    assert SessionEnded(x) in notes' <==> SessionEnded(x) in notes || (v.NotifySelf? && x == id);
  }

  lemma LeaveKeepsRefs(st: State, id: Id, v: LeaveEvent)
    requires RegistryOk(st.reg, st.threads) && Enabled(st, Leave(id, v))
    ensures RefsOk(LeaveStep(st, id, v).reg, LeaveStep(st, id, v).threads)
    ensures NotesOk(LeaveStep(st, id, v).reg.notes)
  {
    var st' := LeaveStep(st, id, v);
    assert Consistent(st.reg, st.threads, id);
    if v.NotifySelf? {
      NoteAdded(st.reg.notes, SessionEnded(id));
    }
    forall x | Referenced(st'.reg, st'.threads, x)
      ensures x in st'.reg.live
    {
      assert Referenced(st.reg, st.threads, x);
    }
  }

  lemma LeaveKeepsIds(st: State, id: Id, v: LeaveEvent)
    requires IdsOk(st.reg, st.threads) && AskedOk(st.reg, st.threads) && Enabled(st, Leave(id, v))
    ensures IdsOk(LeaveStep(st, id, v).reg, LeaveStep(st, id, v).threads)
    ensures AskedOk(LeaveStep(st, id, v).reg, LeaveStep(st, id, v).threads)
  {
  }

  lemma LeaveKeepsRegistry(st: State, id: Id, v: LeaveEvent)
    requires RegistryOk(st.reg, st.threads) && Enabled(st, Leave(id, v))
    ensures RegistryOk(LeaveStep(st, id, v).reg, LeaveStep(st, id, v).threads)
  {
    var st' := LeaveStep(st, id, v);
    forall x | x in st'.threads ensures Consistent(st'.reg, st'.threads, x) { LeaveKeepsLife(st, id, v, x); }
    LeaveKeepsRefs(st, id, v);
    LeaveKeepsIds(st, id, v);
  }

  lemma StopKeepsLife(reg: Registry, threads: map<Id, Thread>, s: StopEvent)
    requires RegistryOk(reg, threads) && StopEnabled(reg, s)
    ensures forall id :: id in threads ==> Consistent(StopStep(reg, threads, s), threads, id)
  {
    forall id | id in threads ensures Consistent(StopStep(reg, threads, s), threads, id) {
      assert Consistent(reg, threads, id);
      assert s.Clear? && id in reg.table ==> Referenced(reg, threads, id);
    }
  }

  lemma StopKeepsRegistry(reg: Registry, threads: map<Id, Thread>, s: StopEvent)
    requires RegistryOk(reg, threads) && StopEnabled(reg, s)
    ensures RegistryOk(StopStep(reg, threads, s), threads)
  {
    StopKeepsLife(reg, threads, s);
  }

  lemma DestroyKeepsRegistry(st: State, id: Id)
    requires RegistryOk(st.reg, st.threads) && Enabled(st, Destroy(id))
    ensures RegistryOk(Step(st, Destroy(id)).reg, st.threads)
  {
    var reg' := Step(st, Destroy(id)).reg;
    forall x | x in st.threads ensures Consistent(reg', st.threads, x) { assert Consistent(st.reg, st.threads, x); }
    forall x | Referenced(reg', st.threads, x) ensures x in reg'.live { assert Referenced(st.reg, st.threads, x); }
  }

  lemma RegistryStep(st: State, e: Event)
    requires RegistryOk(st.reg, st.threads) && Enabled(st, e)
    ensures RegistryOk(Step(st, e).reg, Step(st, e).threads)
  {
    match e
    case Accept(l) => LoopKeepsRegistry(st.reg, st.threads, l);
    case Work(id, w) =>
      WorkKeepsRegistry(st.reg, st.threads, id, WorkThread(st.dev, st.threads[id], w));
    case Leave(id, v) => LeaveKeepsRegistry(st, id, v);
    case Stop(s) => StopKeepsRegistry(st.reg, st.threads, s);
    case Destroy(id) => DestroyKeepsRegistry(st, id);
    case Plug(p) =>
  }

  lemma {:induction false} RunInvariant(devices: seq<Device>, es: seq<Event>)
    requires DistinctBusids(devices) && Exec(devices, es).Some?
    ensures var st := Exec(devices, es).value;
            && DevicesOk(st.dev, st.threads) && RegistryOk(st.reg, st.threads)
            && EscapesOwn(st.dev.accounts, st.dev.owner)
  {
    if es != [] {
      RunInvariant(devices, es[..|es| - 1]);
      var prev := Exec(devices, es[..|es| - 1]).value;
      DevicesStep(prev, es[|es| - 1]);
      EscapesStep(prev, es[|es| - 1]);
      RegistryStep(prev, es[|es| - 1]);
    }
  }

  lemma ReachableOk(st: State)
    requires Reachable(st)
    ensures DevicesOk(st.dev, st.threads) && RegistryOk(st.reg, st.threads)
    ensures EscapesOwn(st.dev.accounts, st.dev.owner)
  {
    var devices, es :| DistinctBusids(devices) && Exec(devices, es) == Some(st);
    RunInvariant(devices, es);
  }
}
