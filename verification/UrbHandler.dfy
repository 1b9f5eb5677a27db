/**
  The libusb device handler's in-flight table. The value functions give the effect of each
  lock region; the class below performs it on the shared objects.
 */
module UrbHandler {
  import opened UsbIp
  import opened SendQueue

  /** libusb_callback_args as the table sees it; `id` stands for the object's address. */
  datatype Args = Args(id: nat, unlinking: bool, unlinkCmd: Seqnum)

  datatype Handler = Handler(
    transfers: map<Seqnum, Args>,
    pending: int,
    clientDisconnected: bool,
    deviceRemoved: bool,
    connected: bool)

  const FRESH := Handler(map[], 0, false, false, true)

  /** What receive_urb decides before it touches the table. */
  datatype Routing = Track | Immediate(status: int)

  datatype EndpointKind = Control | Bulk | Interrupt | Isochronous | UnknownKind

  /** The parts of a CMD_SUBMIT that receive_urb branches on. tweakHandled says that a special
      request was already carried out by a synchronous libusb call. */
  datatype Submit = Submit(seqnum: Seqnum, kind: EndpointKind, hasInterface: bool, tweakHandled: bool, wLength: nat,
                           bufferLength: nat)

  function Route(c: Submit): Routing {
    if c.kind == Control then
      if c.tweakHandled then Immediate(STATUS_OK)
      else if c.wLength > c.bufferLength then Immediate(STATUS_EPIPE)
      else Track
    else if c.hasInterface then
      if c.kind == UnknownKind then Immediate(STATUS_EPIPE) else Track
    else Immediate(STATUS_EPIPE)
  }

  /** Register under transfers_mutex_; a sequence number already in flight leaves the table alone. */
  function Register(h: Handler, s: Seqnum, id: nat): Handler {
    if s in h.transfers then h
    else h.(transfers := h.transfers[s := Args(id, false, 0)], pending := h.pending + 1)
  }

  /** Undo of Register after libusb_submit_transfer failed. */
  function Unregister(h: Handler, s: Seqnum): Handler {
    if s in h.transfers then h.(transfers := h.transfers - {s}, pending := h.pending - 1) else h
  }

  /** The found branch of handle_unlink_seqnum. */
  function MarkUnlinking(h: Handler, target: Seqnum, cmd: Seqnum): Handler
    requires target in h.transfers
  {
    h.(transfers := h.transfers[target := h.transfers[target].(unlinking := true, unlinkCmd := cmd)])
  }

  /** The reply transfer_callback queues while it holds the lock. */
  function Completion(s: Seqnum, a: Args, status: int): Response {
    if a.unlinking then RetUnlink(a.unlinkCmd, status) else RetSubmit(s, status)
  }

  function Erase(h: Handler, s: Seqnum): Handler { h.(transfers := h.transfers - {s}) }

  function Decrement(h: Handler): Handler { h.(pending := h.pending - 1) }

  class CallbackArgs {
    const id: nat
    const seqnum: Seqnum
    var unlinking: bool
    var unlinkCmd: Seqnum

    constructor (id: nat, seqnum: Seqnum)
      ensures this.id == id && this.seqnum == seqnum && !unlinking && unlinkCmd == 0
    {
      this.id, this.seqnum, unlinking, unlinkCmd := id, seqnum, false, 0;
    }
  }

  class LibusbDeviceHandler {
    var transfers: map<Seqnum, CallbackArgs>
    var pendingCount: int
    var clientDisconnection: bool
    var deviceRemoved: bool
    var responder: SendBuffer?

    ghost predicate Valid()
      reads this, transfers.Values
    {
      forall s :: s in transfers ==> transfers[s].seqnum == s
    }

    ghost function View(): Handler
      reads this, transfers.Values
    {
      Handler(map s | s in transfers :: Args(transfers[s].id, transfers[s].unlinking, transfers[s].unlinkCmd),
              pendingCount, clientDisconnection, deviceRemoved, responder != null)
    }

    /** State after on_new_connection. */
    constructor (session: SendBuffer)
      ensures Valid() && View() == FRESH && responder == session
    {
      transfers, pendingCount := map[], 0;
      clientDisconnection, deviceRemoved, responder := false, false, session;
    }

    method RegisterTransfer(args: CallbackArgs) returns (duplicate: bool)
      requires Valid() && args !in transfers.Values
      requires !args.unlinking && args.unlinkCmd == 0
      modifies this`transfers, this`pendingCount
      ensures Valid()
      ensures duplicate == (args.seqnum in old(transfers))
      ensures View() == Register(old(View()), args.seqnum, args.id)
    {
      duplicate := args.seqnum in transfers;
      if !duplicate {
        transfers := transfers[args.seqnum := args];
        pendingCount := pendingCount + 1;
      }
    }

    method SubmitFailed(seqnum: Seqnum)
      requires Valid()
      modifies this`transfers, this`pendingCount
      ensures Valid()
      ensures View() == Unregister(old(View()), seqnum)
    {
      if seqnum in transfers {
        transfers := transfers - {seqnum};
        pendingCount := pendingCount - 1;
      }
    }

    /** The transfers_mutex_ region of handle_unlink_seqnum, entered after its device_removed check. */
    method HandleUnlink(target: Seqnum, cmd: Seqnum)
      requires Valid() && responder != null
      modifies transfers.Values, responder
      ensures Valid() && transfers == old(transfers)
      ensures target in transfers ==>
                View() == MarkUnlinking(old(View()), target, cmd) && responder.View() == old(responder.View())
      ensures target !in transfers ==>
                && View() == old(View())
                && responder.View() == Wakeup(Enqueue(old(responder.View()), RetUnlink(cmd, STATUS_OK)))
    {
      if target in transfers {
        var cb := transfers[target];
        cb.unlinking := true;
        cb.unlinkCmd := cmd;
      } else {
        responder.SubmitResponse(RetUnlink(cmd, STATUS_OK));
      }
    }

    /** The transfers_mutex_ region of transfer_callback: read the unlink mark, erase, enqueue. */
    method CompleteLocked(cb: CallbackArgs, status: int)
      requires Valid() && responder != null
      requires cb.seqnum in transfers && transfers[cb.seqnum] == cb
      modifies this`transfers, responder
      ensures Valid()
      ensures View() == Erase(old(View()), cb.seqnum)
      ensures responder == old(responder)
      ensures responder.View()
              == Enqueue(old(responder.View()), Completion(cb.seqnum, old(View()).transfers[cb.seqnum], status))
    {
      transfers := transfers - {cb.seqnum};
      if cb.unlinking {
        responder.EnqueueResponse(RetUnlink(cb.unlinkCmd, status));
      } else {
        responder.EnqueueResponse(RetSubmit(cb.seqnum, status));
      }
    }

    /** The locked erase of a callback that saw the disconnect flag. */
    method AbortLocked(cb: CallbackArgs)
      requires Valid()
      modifies this`transfers
      ensures Valid()
      ensures View() == Erase(old(View()), cb.seqnum)
    {
      transfers := transfers - {cb.seqnum};
    }

    method DecrementPendingAndNotify()
      requires Valid()
      modifies this`pendingCount
      ensures Valid()
      ensures View() == Decrement(old(View()))
    {
      pendingCount := pendingCount - 1;
    }
  }
}
