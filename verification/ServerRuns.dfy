/**
  The server as a step machine: the accept coroutine, one thread per session, stop(), and the
  hot-plug callbacks, interleaved in any way. A step is one lock region or one atomic access.
 */
module ServerRuns {
  import opened UsbIp
  import opened DeviceTable

  type Id = nat

  /** Why a session gives its device back. */
  datatype Exit = OpenFailure | ReplyFailure | SpawnFailure | ReceiverException | NormalEnd

  /** Where a session thread is while it holds an imported device. */
  datatype Phase = Opening | Replying | Spawning | Receiving | Draining(exit: Exit) | Releasing(exit: Exit)

  /** A session's thread. Erased is between erasing its table entry and notifying. */
  datatype Thread =
    | NoThread | Reading | Checked(b: Busid) | Holding(d: Device, phase: Phase) | Closing | Erased | Finished

  /** What a session did to the device table. escaped: an exception left the session thread outside
      the catch blocks that release the device. */
  datatype Account = Account(imports: nat, releases: nat, escaped: bool)

  /** A hot-unplug call between its two steps: the device its first step saw in use, whether that device
      has been given back since and not been imported again, and whether another device with the bus id
      has been imported since and not been given back. */
  datatype Unplug = Unplug(b: Busid, seen: Option<Device>, returned: bool, replaced: bool)

  /** calls are the hot-unplug calls between their steps, gone the devices that a call detached or saw in
      use, missed those that a call left neither detached nor flagged, strays those flagged by a call that
      had not seen them, and own those flagged by their own transfers. */
  datatype Hotplug = Hotplug(calls: map<nat, Unplug>, gone: set<Device>, missed: set<Device>, strays: set<Device>,
                             own: set<Device>)

  const NO_CALLS := Hotplug(map[], {}, {}, {}, {})

  /** owner and accounts are bookkeeping, and so are gone and missed of hot. */
  datatype Devices = Devices(table: Table, removed: set<Device>, owner: map<Busid, Id>, accounts: map<Id, Account>,
                             hot: Hotplug)

  /** The accept coroutine, with the session its frame holds. */
  datatype Loop =
    | Idle | Top | Going
    | Made(id: Id) | Counted(id: Id) | Accepting(id: Id) | Accepted(id: Id) | Admitted(id: Id)
    | Registered(id: Id) | Starting(id: Id) | Launched(id: Id) | RunFailed(id: Id) | LoopErased(id: Id)
    | Over

  datatype Stopper = Away | Requested | Joined | Polled | Asking | Waiting | Clearing | Returned

  datatype Note = SessionStarted(id: Id) | SessionEnded(id: Id)

  /** live: Session objects whose destructor has not finished. table: keys of the session map. conns:
      references taken by stop(). asked: sessions told to stop. disowned: sessions whose entry the
      coroutine removed because run() threw. */
  datatype Registry = Registry(
    running: bool, loop: Loop, stopper: Stopper, nextId: Id, active: int,
    live: set<Id>, table: set<Id>, conns: set<Id>, asked: set<Id>, disowned: set<Id>, notes: seq<Note>)

  datatype State = State(dev: Devices, reg: Registry, threads: map<Id, Thread>)

  function Initial(devices: seq<Device>): State {
    State(Devices(Table(devices, map[]), {}, map[], map[], NO_CALLS),
          Registry(true, Idle, Away, 0, 0, {}, {}, {}, {}, {}, []), map[])
  }

  function LoopId(l: Loop): Option<Id> {
    if l.Idle? || l.Top? || l.Going? || l.Over? then None else Some(l.id)
  }

  predicate InService(th: Thread) { th.Reading? || th.Checked? || th.Holding? || th.Closing? }

  /** Someone holds a shared_ptr to the session. */
  predicate Referenced(reg: Registry, threads: map<Id, Thread>, id: Id) {
    || LoopId(reg.loop) == Some(id)
    || (id in threads && (InService(threads[id]) || threads[id].Erased?))
    || id in reg.conns
  }

  datatype LoopEvent =
    | Begin | CheckTop | Make | Count | CheckCounted | AcceptOk | AcceptTransient | AcceptFatal | CheckAccepted
    | Reject | Register | NotifyStarted | SpawnThread | SpawnThrows | CallbackThrows | RunReturns
    | EraseRun | NotifyEnded

  datatype WorkEvent =
    | OpEnds | SeeBusy(b: Busid) | SeeFree(b: Busid) | Move
    | OpenOk | OpenError | ReplyOk | ReplyError | SenderOk | SenderError
    | ReceiverEnds | ReceiverThrows | FlagRemoved | Drained | Escape | GiveBack

  datatype LeaveEvent = EraseSelf | NotifySelf

  datatype StopEvent = RequestStop | Join | Poll | Snapshot | AskOne(target: Id) | DropConns | Wake | Clear

  datatype DeviceEvent =
    | AddDev(d: Device) | DetachDev(b: Busid) | UnplugDetach(call: nat, b: Busid) | UnplugMark(call: nat)

  datatype Event =
    | Accept(l: LoopEvent)
    | Work(id: Id, w: WorkEvent)
    | Leave(id: Id, v: LeaveEvent)
    | Stop(s: StopEvent)
    | Destroy(id: Id)
    | Plug(p: DeviceEvent)

  // ---- enabling ----

  predicate LoopEnabled(reg: Registry, l: LoopEvent) {
    && (reg.stopper.Away? || reg.stopper.Requested?)
    && match l
       case Begin => reg.loop.Idle?
       case CheckTop => reg.loop.Top?
       case Make => reg.loop.Going?
       case Count => reg.loop.Made?
       case CheckCounted => reg.loop.Counted?
       case AcceptOk | AcceptTransient | AcceptFatal => reg.loop.Accepting?
       case CheckAccepted => reg.loop.Accepted?
       case Reject | Register => reg.loop.Admitted?
       case NotifyStarted => reg.loop.Registered?
       case SpawnThread | SpawnThrows => reg.loop.Starting?
       case CallbackThrows | RunReturns => reg.loop.Launched?
       case EraseRun => reg.loop.RunFailed?
       case NotifyEnded => reg.loop.LoopErased?
  }

  /** Phases outside the try block around receiver(): an exception there ends the thread's work. */
  predicate Unguarded(p: Phase) {
    p.Opening? || p.Replying? || p.Spawning? || p == Draining(ReplyFailure) || p == Draining(SpawnFailure)
  }

  predicate WorkEnabled(dev: Devices, th: Thread, w: WorkEvent) {
    match w
    case OpEnds => th.Reading?
    case SeeBusy(b) => th.Reading? && b in dev.table.inUse
    case SeeFree(b) => th.Reading? && b !in dev.table.inUse
    case Move => th.Checked?
    case OpenOk | OpenError => th.Holding? && th.phase.Opening?
    case ReplyOk | ReplyError => th.Holding? && th.phase.Replying?
    case SenderOk | SenderError => th.Holding? && th.phase.Spawning?
    case ReceiverEnds => th.Holding? && th.phase.Receiving?
    case ReceiverThrows => th.Holding? && (th.phase.Receiving? || th.phase == Draining(NormalEnd))
    case FlagRemoved => th.Holding? && (th.phase.Receiving? || th.phase.Draining?)
    case Drained => th.Holding? && th.phase.Draining?
    case Escape => th.Holding? && Unguarded(th.phase)
    case GiveBack => th.Holding? && th.phase.Releasing?
  }

  predicate StopEnabled(reg: Registry, s: StopEvent) {
    match s
    case RequestStop => reg.stopper.Away? && reg.running
    case Join => reg.stopper.Requested? && (reg.loop.Idle? || reg.loop.Accepting? || reg.loop.Over?)
    case Poll => reg.stopper.Joined?
    case Snapshot => reg.stopper.Polled?
    case AskOne(target) => reg.stopper.Asking? && target in reg.conns
    case DropConns => reg.stopper.Asking? && reg.conns <= reg.asked
    case Wake => reg.stopper.Waiting? && reg.active == 0
    case Clear => reg.stopper.Clearing?
  }

  predicate PlugEnabled(dev: Devices, p: DeviceEvent) {
    match p
    case AddDev(d) => d !in dev.removed && d !in dev.hot.gone
    case DetachDev(_) => true
    case UnplugDetach(call, _) => call !in dev.hot.calls
    case UnplugMark(call) => call in dev.hot.calls
  }

  predicate Enabled(st: State, e: Event) {
    match e
    case Accept(l) => LoopEnabled(st.reg, l)
    case Work(id, w) => id in st.threads && WorkEnabled(st.dev, st.threads[id], w)
    case Leave(id, v) => id in st.threads && if v.EraseSelf? then st.threads[id].Closing? else st.threads[id].Erased?
    case Stop(s) => StopEnabled(st.reg, s)
    case Destroy(id) => id in st.reg.live && !Referenced(st.reg, st.threads, id)
    case Plug(p) => PlugEnabled(st.dev, p)
  }

  // ---- steps ----

  function LoopStep(reg: Registry, l: LoopEvent): Registry
    requires LoopEnabled(reg, l)
  {
    var k := reg.loop;
    match l
    case Begin => reg.(loop := Top)
    case CheckTop => reg.(loop := if reg.running then Going else Over)
    case Make => reg.(loop := Made(reg.nextId), nextId := reg.nextId + 1, live := reg.live + {reg.nextId})
    case Count => reg.(loop := Counted(k.id), active := reg.active + 1)
    case CheckCounted => reg.(loop := if reg.running then Accepting(k.id) else Over)
    case AcceptOk => reg.(loop := Accepted(k.id))
    case AcceptTransient => reg.(loop := Top)
    case AcceptFatal => reg.(loop := Over)
    case CheckAccepted => reg.(loop := if reg.running then Admitted(k.id) else Over)
    case Reject => reg.(loop := Top)
    case Register => reg.(loop := Registered(k.id), table := reg.table + {k.id})
    case NotifyStarted => reg.(loop := Starting(k.id), notes := reg.notes + [SessionStarted(k.id)])
    case SpawnThread => reg.(loop := Launched(k.id))
    case SpawnThrows => reg.(loop := RunFailed(k.id))
    case CallbackThrows => reg.(loop := RunFailed(k.id))
    case RunReturns => reg.(loop := Top)
    case EraseRun =>
      if k.id in reg.table then reg.(loop := LoopErased(k.id), table := reg.table - {k.id},
                                     disowned := reg.disowned + {k.id})
      else reg.(loop := Top)
    case NotifyEnded => reg.(loop := Top, notes := reg.notes + [SessionEnded(k.id)])
  }

  function LoopThreads(reg: Registry, threads: map<Id, Thread>, l: LoopEvent): map<Id, Thread>
    requires LoopEnabled(reg, l)
  {
    if l.Make? then threads[reg.nextId := NoThread]
    else if l.SpawnThread? then threads[reg.loop.id := Reading]
    else threads
  }

  function NextPhase(th: Thread, w: WorkEvent): Phase
    requires th.Holding?
  {
    match w
    case OpenOk => Replying
    case OpenError => Releasing(OpenFailure)
    case ReplyOk => Spawning
    case ReplyError => Draining(ReplyFailure)
    case SenderOk => Receiving
    case SenderError => Draining(SpawnFailure)
    case ReceiverEnds => Draining(NormalEnd)
    case ReceiverThrows => Draining(ReceiverException)
    case Drained => if th.phase.Draining? then Releasing(th.phase.exit) else th.phase
    case _ => th.phase
  }

  function WorkThread(dev: Devices, th: Thread, w: WorkEvent): Thread
    requires WorkEnabled(dev, th, w)
  {
    match w
    case OpEnds => Closing
    case SeeBusy(_) => Closing
    case SeeFree(b) => Checked(b)
    case Move =>
      var found := MoveToUsing(dev.table, th.b).0;
      if found.Some? then Holding(found.value, Opening) else Closing
    case Escape => Closing
    case GiveBack => Closing
    case _ => Holding(th.d, NextPhase(th, w))
  }

  /** What the pending calls learn of the import of device d. */
  function Imported(calls: map<nat, Unplug>, d: Device): map<nat, Unplug> {
    map c | c in calls ::
      var u := calls[c];
      if u.seen == Some(d) then u.(returned := false, replaced := false)
      else if u.b == d.busid then u.(replaced := true) else u
  }

  /** What they learn of its release; a flagged device does not become available again. */
  function GivenBack(calls: map<nat, Unplug>, d: Device, flagged: bool): map<nat, Unplug> {
    map c | c in calls ::
      var u := calls[c];
      if u.seen == Some(d) then u.(returned := u.returned || !flagged)
      else if u.b == d.busid then u.(replaced := false) else u
  }

  function WorkDevices(dev: Devices, running: bool, id: Id, th: Thread, w: WorkEvent): Devices
    requires WorkEnabled(dev, th, w) && id in dev.accounts
  {
    var a := dev.accounts[id];
    match w
    case Move =>
      var (found, table) := MoveToUsing(dev.table, th.b);
      if found.None? then dev
      else
        dev.(table := table, owner := dev.owner[th.b := id],
             accounts := dev.accounts[id := a.(imports := a.imports + 1)],
             hot := dev.hot.(calls := Imported(dev.hot.calls, found.value)))
    case FlagRemoved => dev.(removed := dev.removed + {th.d}, hot := dev.hot.(own := dev.hot.own + {th.d}))
    case Escape => dev.(accounts := dev.accounts[id := a.(escaped := true)])
    case GiveBack =>
      dev.(table := Release(dev.table, th.d.busid, dev.removed, running).1, owner := dev.owner - {th.d.busid},
           accounts := dev.accounts[id := a.(releases := a.releases + 1)],
           hot := dev.hot.(calls := GivenBack(dev.hot.calls, th.d, th.d in dev.removed)))
    case _ => dev
  }

  /** remove_session on the session's own thread. */
  function LeaveStep(st: State, id: Id, v: LeaveEvent): State {
    match v
    case EraseSelf =>
      if id in st.reg.table then st.(reg := st.reg.(table := st.reg.table - {id}), threads := st.threads[id := Erased])
      else st.(threads := st.threads[id := Finished])
    case NotifySelf =>
      st.(reg := st.reg.(notes := st.reg.notes + [SessionEnded(id)]), threads := st.threads[id := Finished])
  }

  function StopStep(reg: Registry, threads: map<Id, Thread>, s: StopEvent): Registry
    requires StopEnabled(reg, s)
  {
    match s
    case RequestStop => reg.(running := false, stopper := Requested)
    case Join => reg.(stopper := Joined)
    case Poll => reg.(loop := Over, stopper := Polled)
    case Snapshot => reg.(conns := (set id | id in reg.table && Referenced(reg, threads, id)), stopper := Asking)
    case AskOne(target) => reg.(asked := reg.asked + {target})
    case DropConns => reg.(conns := {}, stopper := Waiting)
    case Wake => reg.(stopper := Clearing)
    case Clear => reg.(table := {}, stopper := Returned)
  }

  /** The flags after the second step of an unplug. */
  function Marked(t: Table, b: Busid, removed: set<Device>): set<Device> {
    if b in t.inUse then removed + {t.inUse[b]} else removed
  }

  /** The device that now stands under the bus id of a call, if the call did not see it. */
  function Unseen(t: Table, u: Unplug): set<Device> {
    if u.b in t.inUse && u.seen != Some(t.inUse[u.b]) then {t.inUse[u.b]} else {}
  }

  function PlugStep(dev: Devices, p: DeviceEvent): Devices
    requires PlugEnabled(dev, p)
  {
    match p
    case AddDev(d) => dev.(table := Add(dev.table, d).1)
    case DetachDev(b) => dev.(table := Detach(dev.table, b).1)
    case UnplugDetach(call, b) =>
      var (found, table) := Detach(dev.table, b);
      if found.Some? then dev.(table := table, hot := dev.hot.(gone := dev.hot.gone + {found.value}))
      else if b in dev.table.inUse then
        var d := dev.table.inUse[b];
        dev.(hot := dev.hot.(calls := dev.hot.calls[call := Unplug(b, Some(d), false, false)],
                             gone := dev.hot.gone + {d}))
      else dev.(hot := dev.hot.(calls := dev.hot.calls[call := Unplug(b, None, false, false)]))
    case UnplugMark(call) =>
      var u := dev.hot.calls[call];
      var removed := Marked(dev.table, u.b, dev.removed);
      dev.(removed := removed, hot := dev.hot.(
      calls := dev.hot.calls - {call},
      missed := dev.hot.missed + (if u.seen.Some? && u.seen.value !in removed then {u.seen.value} else {}),
      strays := dev.hot.strays + Unseen(dev.table, u)))
  }

  function LoopDevices(reg: Registry, dev: Devices, l: LoopEvent): Devices {
    if l.Make? then dev.(accounts := dev.accounts[reg.nextId := Account(0, 0, false)]) else dev
  }

  /** The last clause of Work guards against a session without an account, which no run has
      (ServerInvariants.DevicesOk). */
  function Step(st: State, e: Event): State
    requires Enabled(st, e)
  {
    match e
    case Accept(l) => State(LoopDevices(st.reg, st.dev, l), LoopStep(st.reg, l), LoopThreads(st.reg, st.threads, l))
    case Work(id, w) =>
      var th := st.threads[id];
      if id in st.dev.accounts then State(WorkDevices(st.dev, st.reg.running, id, th, w), st.reg,
                                          st.threads[id := WorkThread(st.dev, th, w)])
      else st
    case Leave(id, v) => LeaveStep(st, id, v)
    case Stop(s) => st.(reg := StopStep(st.reg, st.threads, s))
    case Destroy(id) => st.(reg := st.reg.(live := st.reg.live - {id}, active := st.reg.active - 1))
    case Plug(p) => st.(dev := PlugStep(st.dev, p))
  }

  /** The state after a schedule of events from a started server, if each was enabled. */
  function Exec(devices: seq<Device>, es: seq<Event>): Option<State> {
    if es == [] then Some(Initial(devices))
    else
      match Exec(devices, es[..|es| - 1])
      case None => None
      case Some(st) => if Enabled(st, es[|es| - 1]) then Some(Step(st, es[|es| - 1])) else None
  }

  ghost predicate Reachable(st: State) {
    exists devices, es :: DistinctBusids(devices) && Exec(devices, es) == Some(st)
  }
}
