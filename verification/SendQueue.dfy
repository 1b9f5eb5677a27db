/**
  The session's send side: producers append to `write` under swap_mutex and then raise
  `hasData`; the sender swaps `write` into an empty `read` and pops from there.
 */
module SendQueue {
  import opened UsbIp

  datatype Queue = Queue(write: seq<Response>, read: seq<Response>, hasData: bool)

  const EMPTY := Queue([], [], false)

  /** Everything still waiting to be sent, oldest first. */
  function Backlog(q: Queue): seq<Response> { q.read + q.write }

  /** enqueue_ret_submit / enqueue_ret_unlink: one swap_mutex region. */
  function Enqueue(q: Queue, r: Response): (q': Queue)
    ensures Backlog(q') == Backlog(q) + [r]
  {
    q.(write := q.write + [r])
  }

  /** wakeup_sender: the store to has_data (the notify carries no state). */
  function Wakeup(q: Queue): Queue { q.(hasData := true) }

  /** The swap_mutex region of sender_get_data, run with an empty read buffer. */
  function Swap(q: Queue): (q': Queue)
    requires q.read == []
    ensures Backlog(q') == Backlog(q)
    ensures q'.write == []
  {
    if q.write != [] then Queue([], q.write, false) else q
  }

  /** The pop of sender_get_data. */
  function Pop(q: Queue): Queue
    requires q.read != []
  {
    q.(read := q.read[1..])
  }

  /** The session's queue as the object that threads share. */
  class SendBuffer {
    var writeBuffer: seq<Response>
    var readBuffer: seq<Response>
    var hasData: bool
    var shouldImmediatelyStop: bool

    ghost function View(): Queue
      reads this
    {
      Queue(writeBuffer, readBuffer, hasData)
    }

    constructor ()
      ensures View() == EMPTY && !shouldImmediatelyStop
    {
      writeBuffer, readBuffer, hasData, shouldImmediatelyStop := [], [], false, false;
    }

    /** Appends without waking the sender. */
    method EnqueueResponse(r: Response)
      modifies this`writeBuffer
      ensures View() == Enqueue(old(View()), r)
    {
      writeBuffer := writeBuffer + [r];
    }

    method WakeupSender()
      modifies this`hasData
      ensures View() == Wakeup(old(View()))
    {
      hasData := true;
    }

    /** submit_ret_submit / submit_ret_unlink: append, then wake. */
    method SubmitResponse(r: Response)
      modifies this`writeBuffer, this`hasData
      ensures View() == Wakeup(Enqueue(old(View()), r))
    {
      EnqueueResponse(r);
      WakeupSender();
    }

    /** sender_get_data. The wait returns only when its predicate holds, so that is the precondition.
        The item handed back is the oldest of the backlog; nothing comes back only from an empty one. */
    method SenderGetData() returns (r: Option<Response>)
      requires readBuffer != [] || hasData || shouldImmediatelyStop
      modifies this`writeBuffer, this`readBuffer, this`hasData
      ensures r.Some? ==> [r.value] + Backlog(View()) == old(Backlog(View()))
      ensures r.None? ==> Backlog(View()) == old(Backlog(View())) == []
      ensures View() ==
              var q := if old(readBuffer) == [] then Swap(old(View())) else old(View());
              if q.read == [] then q else Pop(q)
    {
      if readBuffer == [] {
        if writeBuffer != [] {
          readBuffer, writeBuffer := writeBuffer, readBuffer;
          hasData := false;
        }
      }
      if readBuffer != [] {
        r := Some(readBuffer[0]);
        readBuffer := readBuffer[1..];
      } else {
        r := None;
      }
    }
  }
}
