/**
  The URB protocol as a step machine: one receiver thread (receive_urb, handle_unlink_seqnum,
  on_disconnection), any number of running libusb callbacks, and the sender thread. Every lock
  region and every store to a shared flag is one step. libusb is the environment: it may report
  each submitted transfer at any time, exactly once.
 */
module UrbProtocol {
  import opened UsbIp
  import opened SendQueue
  import opened UrbHandler

  /** Where the receiver thread stands. */
  datatype Receiver =
    | Idle
    | Accepted(submit: Submit)                       // past the device_removed check of receive_urb
    | Registered(s: Seqnum, id: nat)                 // in the table, libusb_submit_transfer running
    | Failed(s: Seqnum, disconnect: bool)            // submit failed, erase still to come
    | Replying(s: Seqnum, status: int, disconnect: bool) // owes the RET_SUBMIT of an early exit
    | Waking(disconnect: bool)                       // owes wakeup_sender
    | Unlinking(target: Seqnum, cmd: Seqnum)         // past the device_removed check of handle_unlink_seqnum
    | Leaving                                        // an error ended the receive loop
    | Draining                                       // on_disconnection, waiting for pending_count_ == 0
    | Closed                                         // responder cleared

  /** Where the callback of one transfer stands. InFlight: libusb has not called it yet. */
  datatype Callback =
    | InFlight(s: Seqnum)
    | Completing(s: Seqnum, status: int)
    | Aborting(s: Seqnum)
    | Answered
    | Woken
    | Erased
    | Freed

  predicate BeforeErase(c: Callback) { c.InFlight? || c.Completing? || c.Aborting? }

  /** A command the receiver accepted, in arrival order. */
  datatype Command = CmdSubmit(seqnum: Seqnum) | CmdUnlink(seqnum: Seqnum, target: Seqnum)

  /** History of an accepted submit: how it was answered. */
  datatype SubmitFate =
    | Waiting                // no answer queued yet
    | BySubmit               // RET_SUBMIT queued
    | ByUnlink(cmd: Seqnum)  // the RET_UNLINK of that command is its only answer
    | Dropped                // given up after a disconnect

  /** History of an unlink that went through its lock region. Late: its target was no longer
      there. The others found the target in flight. */
  datatype UnlinkFate =
    | Late(target: Seqnum)        // RET_UNLINK queued at once
    | Marked(target: Seqnum)      // the callback will answer
    | Overwritten(target: Seqnum) // a later unlink of the same transfer took its place
    | Confirmed(target: Seqnum)   // RET_UNLINK queued by the callback
    | Abandoned(target: Seqnum)   // given up after a disconnect

  /** What decided the status of a submit's answer: libusb's result for its transfer, an early exit of
      receive_urb before it was tracked, or a failed libusb_submit_transfer. */
  datatype Verdict =
    | Reported(result: TransferStatus, shortNotOk: bool)
    | Untracked(submit: Submit)
    | NotSubmitted

  /** The sender thread: hand is what it popped and has not written, sent what reached the client. */
  datatype Sender = Sender(running: bool, hand: seq<Response>, sent: seq<Response>)

  /** Auxiliary record of a run: every response ever enqueued, every command accepted and what decided it. */
  datatype History = History(
    log: seq<Response>,
    commands: seq<Command>,
    submits: map<Seqnum, SubmitFate>,
    unlinks: map<Seqnum, UnlinkFate>,
    verdicts: map<Seqnum, Verdict>)

  datatype State = State(
    h: Handler,
    q: Queue,
    receiver: Receiver,
    callbacks: map<nat, Callback>,
    nextId: nat,
    sender: Sender,
    stop: bool,     // should_immediately_stop
    cleared: bool,  // transfer_loop emptied the buffers
    past: History)

  const INITIAL := State(FRESH, EMPTY, Idle, map[], 0, Sender(true, [], []), false, false,
                         History([], [], map[], map[], map[]))

  datatype ReceiverEvent =
    | RejectRemoved
    | AcceptSubmit(c: Submit)
    | DispatchSubmit
    | SubmitOk
    | SubmitError(disconnect: bool)
    | EraseFailed
    | EnqueueReply
    | WakeReply
    | AcceptUnlink(target: Seqnum, cmd: Seqnum)
    | UnlinkLocked
    | Disconnect
    | Drained

  datatype CallbackEvent =
    | Enter(result: TransferStatus, shortNotOk: bool)
    | Locked
    | AbortErase
    | Wake
    | Free
    | DecrementPending

  datatype SenderEvent = TakeOver | PopFront | Write | Exit | FinalClear

  datatype Event =
    | Receive(r: ReceiverEvent)
    | Call(id: nat, c: CallbackEvent)
    | Send(s: SenderEvent)
    | HotUnplug
    | RequestStop

  predicate At(st: State, id: nat, c: Callback) { id in st.callbacks && st.callbacks[id] == c }

  predicate ReceiverEnabled(st: State, r: ReceiverEvent) {
    match r
    case RejectRemoved => st.receiver.Idle? && st.h.deviceRemoved
    case AcceptSubmit(_) => st.receiver.Idle? && !st.h.deviceRemoved
    case DispatchSubmit => st.receiver.Accepted?
    case SubmitOk => st.receiver.Registered?
    case SubmitError(_) => st.receiver.Registered?
    case EraseFailed => st.receiver.Failed?
    case EnqueueReply => st.receiver.Replying?
    case WakeReply => st.receiver.Waking?
    case AcceptUnlink(_, _) => st.receiver.Idle? && !st.h.deviceRemoved
    case UnlinkLocked => st.receiver.Unlinking?
    case Disconnect => st.receiver.Idle? || st.receiver.Leaving?
    case Drained => st.receiver.Draining? && st.h.pending == 0
  }

  predicate CallbackEnabled(st: State, id: nat, c: CallbackEvent) {
    && id in st.callbacks
    && match c
       case Enter(_, _) => st.callbacks[id].InFlight?
       case Locked => st.callbacks[id].Completing?
       case AbortErase => st.callbacks[id].Aborting?
       case Wake => st.callbacks[id].Answered?
       case Free => st.callbacks[id].Woken? || st.callbacks[id].Erased?
       case DecrementPending => st.callbacks[id].Freed?
  }

  predicate SenderEnabled(st: State, s: SenderEvent) {
    match s
    case TakeOver => st.sender.running && st.sender.hand == [] && st.q.read == [] && (st.q.hasData || st.stop)
    case PopFront => st.sender.running && st.sender.hand == [] && st.q.read != []
    case Write => st.sender.running && st.sender.hand != []
    case Exit => st.sender.running && st.stop
    case FinalClear => st.receiver.Closed? && !st.sender.running && !st.cleared
  }

  predicate Enabled(st: State, e: Event) {
    match e
    case Receive(r) => ReceiverEnabled(st, r)
    case Call(id, c) => CallbackEnabled(st, id, c)
    case Send(s) => SenderEnabled(st, s)
    case HotUnplug => true
    case RequestStop => true
  }

  /** Notes what decided submit s. */
  function Judge(past: History, s: Seqnum, v: Verdict): History { past.(verdicts := past.verdicts[s := v]) }

  /** Adds r to the queue and to the history of everything enqueued. */
  function Post(st: State, r: Response): State {
    st.(q := Enqueue(st.q, r), past := st.past.(log := st.past.log + [r]))
  }

  function Dispatch(st: State): State
    requires st.receiver.Accepted?
  {
    var s := st.receiver.submit.seqnum;
    var refused := Judge(st.past, s, Untracked(st.receiver.submit));
    match Route(st.receiver.submit)
    case Immediate(status) => st.(receiver := Replying(s, status, false), past := refused)
    case Track =>
      if s in st.h.transfers then st.(receiver := Replying(s, STATUS_EPIPE, false), past := refused)
      else st.(h := Register(st.h, s, st.nextId), receiver := Registered(s, st.nextId), nextId := st.nextId + 1)
  }

  /** The receiver queues the RET_SUBMIT of an early exit. */
  function Reply(st: State): State
    requires st.receiver.Replying?
  {
    var p := Post(st, RetSubmit(st.receiver.s, st.receiver.status));
    p.(receiver := Waking(st.receiver.disconnect),
       past := p.past.(submits := st.past.submits[st.receiver.s := BySubmit]))
  }

  /** The locked region of an unlink. The history notes the unlink it displaces, if any. */
  function Unlink(st: State): State
    requires st.receiver.Unlinking?
  {
    var target, cmd := st.receiver.target, st.receiver.cmd;
    if target in st.h.transfers then
      var a := st.h.transfers[target];
      var displaced := if a.unlinking then st.past.unlinks[a.unlinkCmd := Overwritten(target)] else st.past.unlinks;
      st.(h := MarkUnlinking(st.h, target, cmd), receiver := Idle,
          past := st.past.(unlinks := displaced[cmd := Marked(target)]))
    else
      var p := Post(st, RetUnlink(cmd, STATUS_OK));
      p.(receiver := Waking(false), past := p.past.(unlinks := st.past.unlinks[cmd := Late(target)]))
  }

  function Complete(st: State, id: nat): State
    requires id in st.callbacks && st.callbacks[id].Completing? && st.callbacks[id].s in st.h.transfers
  {
    var s := st.callbacks[id].s;
    var a := st.h.transfers[s];
    var p := Post(st, Completion(s, a, st.callbacks[id].status));
    p.(h := Erase(st.h, s),
    callbacks := st.callbacks[id := Answered],
    past := p.past.(
    submits := st.past.submits[s := if a.unlinking then ByUnlink(a.unlinkCmd) else BySubmit],
    unlinks := if a.unlinking then st.past.unlinks[a.unlinkCmd := Confirmed(s)] else st.past.unlinks))
  }

  function Abort(st: State, id: nat): State
    requires id in st.callbacks && st.callbacks[id].Aborting? && st.callbacks[id].s in st.h.transfers
  {
    var s := st.callbacks[id].s;
    var a := st.h.transfers[s];
    st.(h := Erase(st.h, s),
    callbacks := st.callbacks[id := Erased],
    past := st.past.(
    submits := st.past.submits[s := Dropped],
    unlinks := if a.unlinking then st.past.unlinks[a.unlinkCmd := Abandoned(s)] else st.past.unlinks))
  }

  function ReceiverStep(st: State, r: ReceiverEvent): State
    requires ReceiverEnabled(st, r)
  {
    match r
    case RejectRemoved => st.(receiver := Leaving)
    case AcceptSubmit(c) =>
      st.(receiver := Accepted(c), past := st.past.(
      commands := st.past.commands + [CmdSubmit(c.seqnum)], submits := st.past.submits[c.seqnum := Waiting]))
    case DispatchSubmit => Dispatch(st)
    case SubmitOk => st.(callbacks := st.callbacks[st.receiver.id := InFlight(st.receiver.s)], receiver := Idle)
    case SubmitError(disconnect) =>
      st.(receiver := Failed(st.receiver.s, disconnect), past := Judge(st.past, st.receiver.s, NotSubmitted))
    case EraseFailed =>
      st.(h := Unregister(st.h, st.receiver.s),
          receiver := Replying(st.receiver.s, STATUS_EPIPE, st.receiver.disconnect))
    case EnqueueReply => Reply(st)
    case WakeReply =>
      if st.receiver.disconnect then st.(q := Wakeup(st.q), h := st.h.(deviceRemoved := true), receiver := Leaving)
      else st.(q := Wakeup(st.q), receiver := Idle)
    case AcceptUnlink(target, cmd) =>
      st.(receiver := Unlinking(target, cmd), past := st.past.(commands := st.past.commands + [CmdUnlink(cmd, target)]))
    case UnlinkLocked => Unlink(st)
    case Disconnect => st.(h := st.h.(clientDisconnected := true), receiver := Draining)
    case Drained => st.(h := st.h.(connected := false), receiver := Closed)
  }

  /** The disconnect check and status switch at the head of transfer_callback. */
  function EnterCallback(st: State, id: nat, result: TransferStatus, shortNotOk: bool): State
    requires id in st.callbacks && st.callbacks[id].InFlight?
  {
    var s := st.callbacks[id].s;
    var past := Judge(st.past, s, Reported(result, shortNotOk));
    if st.h.clientDisconnected then st.(callbacks := st.callbacks[id := Aborting(s)], past := past)
    else st.(callbacks := st.callbacks[id := Completing(s, ReportedStatus(result, shortNotOk))], past := past,
             h := if result == NoDevice then st.h.(deviceRemoved := true) else st.h)
  }

  /** Locked steps on a transfer missing from the table do not happen in reachable states
      (UrbTracking.Tracked); here they leave the state alone. */
  function CallbackStep(st: State, id: nat, c: CallbackEvent): State
    requires CallbackEnabled(st, id, c)
  {
    match c
    case Enter(result, shortNotOk) => EnterCallback(st, id, result, shortNotOk)
    case Locked => if st.callbacks[id].s in st.h.transfers then Complete(st, id) else st
    case AbortErase => if st.callbacks[id].s in st.h.transfers then Abort(st, id) else st
    case Wake => st.(q := Wakeup(st.q), callbacks := st.callbacks[id := Woken])
    case Free => st.(callbacks := st.callbacks[id := Freed])
    case DecrementPending => st.(h := Decrement(st.h), callbacks := st.callbacks - {id})
  }

  function SenderStep(st: State, s: SenderEvent): State
    requires SenderEnabled(st, s)
  {
    match s
    case TakeOver => st.(q := Swap(st.q))
    case PopFront => st.(q := Pop(st.q), sender := st.sender.(hand := [st.q.read[0]]))
    case Write => st.(sender := st.sender.(sent := st.sender.sent + st.sender.hand, hand := []))
    case Exit => st.(sender := st.sender.(running := false))
    case FinalClear => st.(q := st.q.(write := [], read := []), cleared := true)
  }

  function Step(st: State, e: Event): State
    requires Enabled(st, e)
  {
    match e
    case Receive(r) => ReceiverStep(st, r)
    case Call(id, c) => CallbackStep(st, id, c)
    case Send(s) => SenderStep(st, s)
    case HotUnplug => st.(h := st.h.(deviceRemoved := true))
    case RequestStop => st.(stop := true)
  }

  /** The state after a schedule of events, if each was enabled when it happened. */
  function Exec(es: seq<Event>): Option<State> {
    if es == [] then Some(INITIAL)
    else
      match Exec(es[..|es| - 1])
      case None => None
      case Some(st) => if Enabled(st, es[|es| - 1]) then Some(Step(st, es[|es| - 1])) else None
  }

  ghost predicate Reachable(st: State) { exists es :: Exec(es) == Some(st) }
}
