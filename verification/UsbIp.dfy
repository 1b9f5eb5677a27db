/**
  Types shared by the URB protocol modules: sequence numbers, URB status codes and the two
  kinds of reply a session sends while a device is imported.
 */
module UsbIp {

  datatype Option<+T> = None | Some(value: T)

  /** A 32-bit USB/IP sequence number, chosen by the client. */
  type Seqnum = x: int | 0 <= x < 0x1_0000_0000

  // URB status codes (UrbStatusType), as the signed values of the Linux errno names.
  const STATUS_OK := 0
  const STATUS_ENOENT := -2
  const STATUS_EPIPE := -32
  const STATUS_EOVERFLOW := -75
  const STATUS_ECONNRESET := -104
  const STATUS_ESHUTDOWN := -108
  const STATUS_ETIMEDOUT := -110

  /** A reply queued for the client: USBIP_RET_SUBMIT or USBIP_RET_UNLINK.
      RetUnlink carries the sequence number of the unlink command it answers. */
  datatype Response =
    | RetSubmit(seqnum: Seqnum, status: int)
    | RetUnlink(seqnum: Seqnum, status: int)

  /** Completion status that libusb reports for a transfer. */
  datatype TransferStatus = Completed | Error | TimedOut | Cancelled | Stall | NoDevice | Overflow | Unknown

  /** The URB status sent to the client for a libusb completion status. */
  function StatusOfTransfer(t: TransferStatus): int {
    match t
    case Completed => STATUS_OK
    case Cancelled => STATUS_ECONNRESET
    case Error => STATUS_EPIPE
    case Stall => STATUS_EPIPE
    case TimedOut => STATUS_EPIPE
    case Overflow => STATUS_EPIPE
    case NoDevice => STATUS_ESHUTDOWN
    case Unknown => STATUS_ENOENT
  }

  /** The libusb status stored for a URB status received from the client. */
  function TransferOfStatus(e: int): TransferStatus {
    if e == STATUS_OK then Completed
    else if e == STATUS_ENOENT then Error
    else if e == STATUS_ECONNRESET then Cancelled
    else if e == STATUS_ETIMEDOUT then TimedOut
    else if e == STATUS_EPIPE then Stall
    else if e == STATUS_ESHUTDOWN then NoDevice
    else if e == STATUS_EOVERFLOW then Overflow
    else Error
  }

  /** A plain ERROR completion counts as success unless the submitter insisted on full length. */
  function ReportedStatus(t: TransferStatus, shortNotOk: bool): int {
    StatusOfTransfer(if t == Error && !shortNotOk then Completed else t)
  }

  /** How many RET_SUBMIT replies for sequence number s a log holds. */
  function CountSubmits(log: seq<Response>, s: Seqnum): nat {
    if log == [] then 0
    else CountSubmits(log[..|log| - 1], s) + if log[|log| - 1].RetSubmit? && log[|log| - 1].seqnum == s then 1 else 0
  }

  /** How many RET_UNLINK replies for unlink command c a log holds. */
  function CountUnlinks(log: seq<Response>, c: Seqnum): nat {
    if log == [] then 0
    else CountUnlinks(log[..|log| - 1], c) + if log[|log| - 1].RetUnlink? && log[|log| - 1].seqnum == c then 1 else 0
  }

  lemma CountAppend(log: seq<Response>, r: Response)
    ensures forall s: Seqnum ::
              CountSubmits(log + [r], s) == CountSubmits(log, s) + if r.RetSubmit? && r.seqnum == s then 1 else 0
    ensures forall c: Seqnum ::
              CountUnlinks(log + [r], c) == CountUnlinks(log, c) + if r.RetUnlink? && r.seqnum == c then 1 else 0
  {
    assert (log + [r])[..|log|] == log;
  }

  lemma {:induction false} CountPositive(log: seq<Response>, i: nat)
    requires i < |log|
    ensures log[i].RetSubmit? ==> CountSubmits(log, log[i].seqnum) > 0
    ensures log[i].RetUnlink? ==> CountUnlinks(log, log[i].seqnum) > 0
  {
    if i < |log| - 1 {
      CountPositive(log[..|log| - 1], i);
    }
  }

  /** Counts over a prefix never exceed those over the whole log. */
  lemma {:induction false} CountPrefix(sent: seq<Response>, log: seq<Response>, s: Seqnum)
    requires sent <= log
    ensures CountSubmits(sent, s) <= CountSubmits(log, s)
    ensures CountUnlinks(sent, s) <= CountUnlinks(log, s)
  {
    if |sent| < |log| {
      CountPrefix(sent, log[..|log| - 1], s);
    } else {
      assert sent == log;
    }
  }
}
