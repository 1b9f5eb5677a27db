# usbipdcpp: a verified model

A Dafny model of the core of usbipdcpp, a USB/IP server in C++, and proofs about it. The model follows the source's
form: objects that the source updates in place are classes whose methods are proved against functions on values;
threads that share them are step machines over the same functions, in which a step is one lock region or one access to
an atomic flag, and every theorem about a machine holds in every state that any interleaving of steps can reach.
`dafny verify dfyconfig.toml` checks everything.

**URB tracking and unlink (libusb backend), with the session's send queue.** `SendQueue` and `UrbHandler` hold the
double-buffered queue and the in-flight table with their lock regions; `UrbProtocol` runs one receiver thread, any
number of libusb callbacks and the sender. libusb is the environment and reports each submitted transfer exactly once,
at any time. `UrbTracking` proves that the pending counter is exact and that nothing is lost or reordered; `UrbCounts`
that no number is answered more often than it was used, however the client numbers its commands; `UrbAnswers` and
`UrbTheorems` who answers which command, how often and in which order, for clients whose submits and whose unlinks
have distinct numbers; `UrbStatus` which status every answer carries and which submits reach libusb; `UrbSchedule`
when the device counts as removed, when the loops end, and that no thread is ever stuck. `UrbLimits` shows two limits
by concrete runs with their exact guards: a second unlink of a transfer still in flight overwrites the first, whose
reply is lost, and a wakeup that comes after the sender took the data leaves the sender spinning until the next
enqueue.

**Transfer scheduler of virtual devices.** `Scheduler` holds the endpoint queues, the chain of service times, the
timer and the posted reschedules, with an integer microsecond clock that never goes back, over one start..stop
lifetime. `SchedulerEndpoint` and `SchedulerPacing` prove what each operation keeps for one endpoint and
`SchedulerRuns` what holds over all runs; `SchedulerSteps` what single calls achieve, and `SchedulerTimes` the exact
service time of every hand-over. Two promises of the source's comments end somewhere: cancelling the head of a busy
endpoint leaves its successor without a service time (`SchedulerLimits` has the run, `SchedulerOrphans` says exactly
which hand-overs keep their distance in any run), and a kick with a pending timer does not bring the timer forward. A
cancel behind the head of an idle endpoint also postpones the head. `SchedulerPrompt` proves exactly which submits,
reports and cancels make the pending wait late, that a run's wait is always in time if and only if none of them
occurs, and that a single endpoint never has one.

**Device table and session life cycle.** `DeviceTable` has the server's device containers; `ServerRuns` the accept
coroutine, the session threads with their five ways to give a device back, `stop()` and hot unplugging as two locked
steps; `ServerInvariants` and `ServerTheorems` prove that the table stays sound, that imports and releases balance,
that the session counter and the observers' notifications are exact and that `stop()` returns only when everything is
gone; `ServerPaths` how a session gets to where it is and when the accept loop ends; `ServerHotplug` what becomes of
every unplugged device and why a device is flagged. Four exact limits are shown by concrete runs: an exception that
leaves the session thread between import and receive loop keeps the device in use; an unplug whose device is given
back between its two steps misses it, and one whose bus id is taken over between them flags the new device; and a
session whose start callback throws is never asked to stop. Devices are taken to have libusb handlers. Runs start from
devices with distinct bus ids and add only devices that are neither flagged nor already unplugged; the class `Server`
takes any device and says when the table is sound.

**Isochronous media.** `Transfer`, `IsoReply` and `IsoFill` model transfer buffers, slots filled in place and the
reply; slots are taken to be inside the buffer, disjoint and still empty. `Uvc`, `UvcRuns` and `UvcFid` prove that
cutting video frames into packets is reversible by either header bit, under one and the same exact condition on the
frames, and when the frame clock lets a frame start; `Uac` proves the microphone's packet sizes and byte stream exact.

**Wire formats.** `Codec` has CMD_SUBMIT and CMD_UNLINK with the generic transfer operator, `Devlist` the device list,
`LibusbIso` the libusb operator's isochronous path, `Rndis` the RNDIS packet messages of section 2.2.14 of MS-RNDIS.
For each, the exact condition under which a value comes back from the wire is proved in both directions; `WireLayout`
says which byte is where.

Integers are unbounded except where the width matters: sequence numbers, wire words and the libusb offsets are 32-bit,
with the wrap-around of the latter written out and proved not to happen. `id`, `past` and the history parts of the
machine states are bookkeeping of the proofs.

## Model

| member | source | states |
|---|---|---|
| `SendQueue.Enqueue` | src/Session.cpp:27-35 | the backlog grows by exactly the new response, at its end |
| `SendQueue.Swap` | src/Session.cpp:484-487 | swapping the buffers keeps the backlog and its order |
| `SendQueue.SendBuffer.SubmitResponse` | src/Session.cpp:42-50 | append, then raise the flag |
| `SendQueue.SendBuffer.SenderGetData` | src/Session.cpp:478-497 | hands out the oldest response of the backlog and keeps the rest in order; nothing only if the backlog is empty |
| `UrbHandler.LibusbDeviceHandler.RegisterTransfer` | src/LibusbHandler/LibusbDeviceHandler.cpp:323-345 | a new number enters the table and the counter; a duplicate changes nothing |
| `UrbHandler.LibusbDeviceHandler.SubmitFailed` | src/LibusbHandler/LibusbDeviceHandler.cpp:350-359 | undoes the registration, counter included |
| `UrbHandler.LibusbDeviceHandler.HandleUnlink` | src/LibusbHandler/LibusbDeviceHandler.cpp:394-430 | an entry in flight is marked and nothing is queued; otherwise RET_UNLINK(0) is queued and the table is untouched |
| `UrbHandler.LibusbDeviceHandler.CompleteLocked` | src/LibusbHandler/LibusbDeviceHandler.cpp:739-803 | one step erases the entry and queues its RET_SUBMIT, or its RET_UNLINK if it was marked |
| `UrbHandler.LibusbDeviceHandler.AbortLocked` | src/LibusbHandler/LibusbDeviceHandler.cpp:660-664 | after a disconnect the entry is erased without a reply |
| `UrbHandler.LibusbDeviceHandler.DecrementPendingAndNotify` | include/usbipdcpp/LibusbHandler/LibusbDeviceHandler.h:152-156 | only the counter changes |
| `UrbTracking.PendingCountExact` | src/LibusbHandler/LibusbDeviceHandler.cpp:92-135 | pending_count_ is the table size plus the callbacks past their erase; when on_disconnection stops waiting the table is empty and no callback runs; nobody uses the responder after it is cleared |
| `UrbTracking.NothingLostOrReordered` | src/Session.cpp:478-497 | until the final clear, sent, in hand, read and write buffer together are everything enqueued, in order; a non-empty write buffer has the flag set or a producer that owes a wakeup |
| `UrbTracking.RunInvariant` | src/LibusbHandler/LibusbDeviceHandler.cpp:137-432 | every run keeps the tracking and the queue invariants |
| `UrbTheorems.RunAnswers` | src/LibusbHandler/LibusbDeviceHandler.cpp:649-823 | every run of a client with distinct submit numbers and distinct unlink numbers keeps the bookkeeping of who answers whom |
| `UrbTheorems.SubmitAnsweredFirst` | src/LibusbHandler/LibusbDeviceHandler.cpp:733-803 | with such numbers, if the client sees RET_SUBMIT for s and RET_UNLINK for a later unlink of s, RET_SUBMIT came first and the unlink reports 0 |
| `UrbCounts.NeverOveranswered` | src/LibusbHandler/LibusbDeviceHandler.cpp:137-432 | however the client numbers its commands, a number never gets more RET_SUBMITs than submits, nor more RET_UNLINKs than unlinks, accepted with it |
| `UrbCounts.AnsweredAtMostOnce` | include/usbipdcpp/DeviceHandler/DeviceHandler.h:126-154 | at most one RET_SUBMIT per number if submit numbers are distinct, at most one RET_UNLINK if unlink numbers are |
| `UrbTheorems.UnlinkedNotAnswered` | src/LibusbHandler/LibusbDeviceHandler.cpp:745-755 | for a client with distinct submit numbers and distinct unlink numbers, a submit that an unlink found in flight gets no RET_SUBMIT |
| `UrbTheorems.NoFlagAfterDrain` | src/LibusbHandler/LibusbDeviceHandler.cpp:92-135 | once on_disconnection has drained, no step but a hot unplug flags the device |
| `UrbTheorems.SubmitAnsweredExactlyOnce` | src/LibusbHandler/LibusbDeviceHandler.cpp:137-375 | with such numbers, without disconnect and with pending_count_ at 0 every accepted submit has exactly one answer, of the kind its unlinks decide |
| `UrbTheorems.UnlinkAnsweredExactlyOnce` | src/LibusbHandler/LibusbDeviceHandler.cpp:377-432 | under the same conditions every accepted unlink has exactly one RET_UNLINK, or none if a later unlink overwrote it |
| `UrbTheorems.OverwriteExactly` | src/LibusbHandler/LibusbDeviceHandler.cpp:396-401 | with such numbers, an unlink loses its reply exactly when another one finds the same transfer in flight and marked by it |
| `UrbStatus.RepliesCarryResults` | src/LibusbHandler/LibusbDeviceHandler.cpp:604-803 | with such numbers, every RET_SUBMIT carries the status word of what libusb reported for its transfer, or of the early exit that answered it; the RET_UNLINK of an unlink that stopped a transfer carries that transfer's, a late one 0; the words are given literally |
| `UrbStatus.VerdictsStand` | src/LibusbHandler/LibusbDeviceHandler.cpp:668-700 | with such numbers, what once decided the answer of a submit is never replaced |
| `UrbStatus.SubmittedExactly` | src/LibusbHandler/LibusbDeviceHandler.cpp:137-345 | in every run a submit becomes a new table entry exactly if it is a control request nobody carried out whose wLength fits, or a bulk, interrupt or isochronous transfer to an interface, and its number is not in flight; otherwise it is answered 0 (request carried out) or -32 and the table stays |
| `UrbSchedule.RemovedExactly` | src/LibusbHandler/LibusbDeviceHandler.cpp:137-375 | the device is flagged as removed exactly if the schedule has an unplug, a transfer reported missing before the disconnection, or the answer to a refused transfer that ends the session; after that no command is accepted |
| `UrbSchedule.LoopsEndExactly` | src/LibusbHandler/LibusbDeviceHandler.cpp:137-143 | the receive loop ends on an error exactly at a submit for a removed device or after such a refused transfer; the sender leaves only after a stop request |
| `UrbSchedule.NothingStuck` | src/LibusbHandler/LibusbDeviceHandler.cpp:92-135 | in every reachable state the receiver, every callback and the sender can take a step, unless done, waiting for callbacks to finish, or waiting for work |
| `UrbLimits.DoubleUnlinkLosesReply` | src/LibusbHandler/LibusbDeviceHandler.cpp:400-401 | a run that ends at rest with an unlink unanswered |
| `UrbLimits.FlagExactly` | src/Session.cpp:478-497 | has_data is up exactly if a wakeup came after the sender last took data over |
| `UrbLimits.SpinStartsExactly` | src/Session.cpp:478-497 | in every run the sender starts to spin exactly at a wakeup over empty buffers while it waits, or at the end of a write during which a wakeup came for data already taken |
| `UrbLimits.SpinsUntilEnqueue` | src/Session.cpp:636-647 | that stays so until something is enqueued or the sender leaves |
| `UrbLimits.LateWakeupSpins` | src/Session.cpp:37-40 | a run in which a late wakeup makes the sender spin |
| `Scheduler.AlignToFrame` | src/virtual_device/TransferScheduler.cpp:17-20 | the next multiple of 1 ms strictly after the time, at most 1 ms away |
| `Scheduler.FirstIndex` | src/virtual_device/TransferScheduler.cpp:154-155 | the first queued URB with the number, or none |
| `Scheduler.TransferScheduler.Submit` | src/virtual_device/TransferScheduler.cpp:63-79 | appends to the endpoint's queue, arms a new head, kicks if the endpoint is idle; ignored after stop |
| `Scheduler.TransferScheduler.UrbDone` | src/virtual_device/TransferScheduler.cpp:127-146 | releases the endpoint only for the number in processing, and kicks if work is queued |
| `Scheduler.TransferScheduler.Cancel` | src/virtual_device/TransferScheduler.cpp:148-172 | the scan over endpoints and queues, with its early refusal, removal and re-arming |
| `Scheduler.TransferScheduler.ArmTimer` | src/virtual_device/TransferScheduler.cpp:221-235 | one wait at the earliest service time of an idle head, or none |
| `Scheduler.TransferScheduler.RunPosted` | src/virtual_device/TransferScheduler.cpp:211-219 | a posted reschedule does nothing after stop or with a timer pending |
| `Scheduler.TransferScheduler.ServeDue` | src/virtual_device/TransferScheduler.cpp:282-295 | every due idle head, and nothing else, is taken and its successor armed; they are listed in table order |
| `Scheduler.TransferScheduler.TimerFired` | src/virtual_device/TransferScheduler.cpp:264-298 | the wait is consumed, due heads are served, the next wait is armed; nothing after stop |
| `Scheduler.TransferScheduler.Stop` | src/virtual_device/TransferScheduler.cpp:34-45 | everything queued is dropped, once |
| `SchedulerEndpoint.AppendKeepsAccounts` | src/virtual_device/TransferScheduler.cpp:68-78 | a submit adds its URB once, at the end of the order |
| `SchedulerEndpoint.ServeKeepsAccounts` | src/virtual_device/TransferScheduler.cpp:283-294 | serving moves the oldest queued URB to the handed-over ones, not before its service time |
| `SchedulerEndpoint.RemoveKeepsAccounts` | src/virtual_device/TransferScheduler.cpp:154-168 | cancelling moves exactly one URB to the cancelled ones |
| `SchedulerPacing.ServeKeepsPace` | src/virtual_device/TransferScheduler.cpp:237-258 | serving continues the chain of service times |
| `SchedulerPacing.RemoveKeepsPace` | src/virtual_device/TransferScheduler.cpp:148-172 | cancelling keeps the chain unless it takes the head of a busy endpoint |
| `SchedulerPacing.CancelKeepsHeadArmed` | src/virtual_device/TransferScheduler.cpp:156-167 | the next head keeps a service time exactly unless the cancelled URB was the head of a busy endpoint with more behind it |
| `SchedulerPacing.MicrophoneRate` | src/virtual_device/UacVirtualInterfaceHandler.cpp:583-598 | chained durations bound the declared bytes by the elapsed service time |
| `SchedulerTimes.ArmedExactly` | src/virtual_device/TransferScheduler.cpp:237-258 | an isochronous head is due its delay after the chain's base, or at once if that has passed; any other on the next grid boundary after both; a fresh chain stands at the present |
| `SchedulerTimes.CancelMovesHead` | src/virtual_device/TransferScheduler.cpp:158-167 | on an idle endpoint the successor of a cancelled head is due its delay after the cancelled window, and cancelling a URB behind the head postpones an isochronous head that is not overdue by its own delay |
| `SchedulerSteps.CancelExactly` | src/virtual_device/TransferScheduler.cpp:148-172 | with a number on at most one endpoint: true exactly if it is queued there and not in processing, and then exactly the first such URB moves to the cancelled ones; otherwise nothing changes |
| `SchedulerSteps.TickExactly` | src/virtual_device/TransferScheduler.cpp:282-295 | a tick lists exactly the due heads of endpoints that are not busy, each once, and makes each endpoint busy with its own |
| `SchedulerSteps.ArmsForEarliest` | src/virtual_device/TransferScheduler.cpp:211-235 | in every run a tick, or a reschedule that finds no wait, leaves a wait exactly if an idle endpoint has work, ending when the first such URB is due |
| `SchedulerSteps.PostsExactly` | src/virtual_device/TransferScheduler.cpp:201-209 | a submit, report or cancel posts a reschedule exactly if it makes an endpoint ready while no wait is pending |
| `SchedulerRuns.EarliestIsLeast` | src/virtual_device/TransferScheduler.cpp:222-230 | no time exactly if no endpoint is idle with work, else the least service time of such heads |
| `SchedulerRuns.CancelIgnoresOrder` | src/virtual_device/TransferScheduler.cpp:150-171 | with a number on at most one endpoint, cancel does not depend on the iteration order |
| `SchedulerRuns.RunInvariant` | src/virtual_device/TransferScheduler.cpp:34-311 | every run keeps the timer invariant and, for every endpoint, accounts and pacing |
| `SchedulerRuns.NeverStalls` | src/virtual_device/TransferScheduler.cpp:201-235 | an idle endpoint with work always has a timer wait or a posted reschedule outstanding; never two waits |
| `SchedulerRuns.Conservation` | src/virtual_device/TransferScheduler.cpp:34-172 | every URB is in exactly one of handed over, queued (dropped by stop) and cancelled; hand-overs are in submission order, once each; the one in processing is the last |
| `SchedulerRuns.LateDoneIgnored` | src/virtual_device/TransferScheduler.cpp:136-138 | a report for a URB that is not in processing changes nothing exactly unless the one in processing has the same sequence number |
| `SchedulerRuns.PacingBound` | src/virtual_device/TransferScheduler.cpp:246-257 | over a whole run with delays >= 0 and no head cancelled during processing, service times of an isochronous endpoint are at least the sum of delays apart and none is served early |
| `SchedulerRuns.MicrophoneNeverOutrunsRate` | src/virtual_device/UacVirtualInterfaceHandler.cpp:583-598 | over a whole run with no head cancelled during processing, the microphone's declared bytes times 10^6 stay below (elapsed service time + URBs) times bytes per second |
| `SchedulerTimes.NeverDueBeforeSubmitted` | src/virtual_device/TransferScheduler.cpp:246-257 | in every run, cancellations and negative delays included, no URB that was ever given a service time is due before it was submitted |
| `SchedulerTimes.ServiceTimesExactly` | src/virtual_device/TransferScheduler.cpp:237-295 | in every run, on an endpoint where no cancel took or re-armed a head, every service time is determined by the submission, the moment the URB before was taken and its service time, for isochronous and other URBs |
| `SchedulerTimes.MicrophoneKeepsRate` | src/virtual_device/UacVirtualInterfaceHandler.cpp:583-598 | as long as the host submits early and no cancel took or re-armed a head, the microphone's service times elapse no slower than its declared bytes take |
| `SchedulerLimits.CancelBreaksPacing` | src/virtual_device/TransferScheduler.cpp:164-166 | a run in which two URBs with 1 ms delays are handed over in the same instant |
| `SchedulerOrphans.HandOverApartExactly` | src/virtual_device/TransferScheduler.cpp:148-172 | in any run, cancellations included, a hand-over keeps its delay from all earlier ones exactly if it was ever given a service time |
| `SchedulerPrompt.SubmitStaysPrompt` | src/virtual_device/TransferScheduler.cpp:69-78 | a submit makes the pending wait late exactly if it starts an idle empty endpoint with an earlier service time |
| `SchedulerPrompt.DoneStaysPrompt` | src/virtual_device/TransferScheduler.cpp:136-146 | a report makes it late exactly if it releases an endpoint whose next URB is due earlier |
| `SchedulerPrompt.CancelStaysPrompt` | src/virtual_device/TransferScheduler.cpp:150-171 | a cancel makes it late exactly if it re-arms the remaining head of an idle endpoint for an earlier time |
| `SchedulerPrompt.PromptExactly` | src/virtual_device/TransferScheduler.cpp:201-235 | over all events: a step leaves the wait in time if and only if it is none of these three |
| `SchedulerPrompt.RunPromptExactly` | src/virtual_device/TransferScheduler.cpp:201-205 | over whole runs: the wait is in time at every moment if and only if no event of the run is one of them |
| `SchedulerPrompt.PromptOnOneEndpoint` | src/virtual_device/TransferScheduler.cpp:201-205 | with one endpoint and no negative delay a pending wait never delays a URB |
| `SchedulerPrompt.KickKeepsLateTimer` | src/virtual_device/TransferScheduler.cpp:201-205 | a run in which a submit leaves the pending wait late for its URB |
| `SchedulerPrompt.DoneKeepsLateTimer` | src/virtual_device/TransferScheduler.cpp:144-145 | a run in which a report does, without any submit |
| `DeviceTable.Server.constructor` | src/Server.cpp:25-31 | all devices available, none in use; sound exactly if the bus ids are distinct |
| `DeviceTable.Server.AddDevice` | src/Server.cpp:243-259 | added at the end unless the bus id is available or in use; the table stays sound exactly if no flagged device was added |
| `DeviceTable.Server.DetachAvailable` | src/Server.cpp:420-431 | the one available device with the bus id leaves; devices in use are untouched |
| `DeviceTable.Server.TryMovingToUsing` | src/Server.cpp:684-700 | an available device moves to the devices in use under its bus id; the table stays sound |
| `DeviceTable.Server.ReleaseDevice` | src/Server.cpp:645-682 | a device in use becomes available, or is discarded if flagged, with the reason reported; otherwise nothing |
| `DeviceTable.Server.MarkIfUsing` | src/LibusbHandler/LibusbServer.cpp:694-704 | only a device in use is flagged, so no available one is |
| `DeviceTable.AddKeeps` | src/Server.cpp:250-258 | the stock grows by exactly the device if and only if its bus id is unknown |
| `DeviceTable.DetachKeeps` | src/Server.cpp:424-430 | the stock shrinks by exactly the detached device and the bus id is gone from the list |
| `DeviceTable.MoveKeepsStock` | src/Server.cpp:684-700 | importing changes where a device is, not which devices the server holds |
| `DeviceTable.ImportThenRelease` | src/Server.cpp:645-700 | import and release give back the same devices, minus exactly the imported one if it was flagged meanwhile |
| `ServerInvariants.RunInvariant` | src/Session.cpp:106-282 | every run keeps the device, ownership, session and stop invariants |
| `ServerTheorems.DeviceTableSound` | src/Server.cpp:243-263 | in every reachable state bus ids are distinct over both containers, keys match devices, and no available device is flagged |
| `ServerTheorems.ImportReleasedOnce` | src/Session.cpp:151-257 | a session imports at most once and releases at most once; past the import they balance on every exit path exactly if no exception escaped |
| `ServerTheorems.InUseMeansHeld` | src/Session.cpp:597-617 | a device in use is held by its owner, a live session and the only holder, if and only if no exception escaped that session |
| `ServerTheorems.ActiveCountExact` | include/usbipdcpp/Server.h:497-512 | active_sessions is the number of live sessions except between creation and increment; listed sessions are live |
| `ServerTheorems.NotificationsPaired` | src/Server.cpp:439-454 | at most one start and one end per session, the start first; a finished session was reported ended |
| `ServerTheorems.StopReturnsClean` | src/Server.cpp:147-241 | stop() returns only with no live session, an empty table and all announced sessions reported ended; every device is back if and only if no exception escaped a session that held one |
| `ServerTheorems.ClearFindsEmptyTable` | src/Server.cpp:235-239 | the final clear of the session table never drops an entry |
| `ServerTheorems.StopAsksEveryone` | src/Server.cpp:197-215 | while stop() waits, a session at work was asked to stop exactly if run() did not throw after starting it |
| `ServerPaths.SessionPath` | src/Session.cpp:140-257 | in every run a session that holds a device got to its phase on the one path that leads there; in particular it receives only after open, reply and sender start succeeded, and gives the device back for the reason its steps show |
| `ServerPaths.LoopEndsExactly` | src/Server.cpp:461-639 | until stop() is called the accept loop ends exactly if accepting failed fatally; after the call its next check ends it and at most one more session enters the table |
| `ServerHotplug.UnplugSettles` | src/LibusbHandler/LibusbServer.cpp:669-705 | in every run, an unplugged device with no call pending is flagged, out of both containers, or missed; it is offered only if missed |
| `ServerHotplug.ReturnedExactly` | src/Session.cpp:597-617 | during an unplug, which steps make its device count as given back and its bus id as taken over, and that no other step changes either |
| `ServerHotplug.UnplugMissesExactly` | src/LibusbHandler/LibusbServer.cpp:691-704 | a call misses its device, in every run, exactly if the device was given back between its two steps and not imported again |
| `ServerHotplug.UnplugStraysExactly` | src/LibusbHandler/LibusbServer.cpp:694-704 | a call flags a device it did not see, in every run, exactly if that device took over the bus id between its two steps |
| `ServerHotplug.FlaggedForAReason` | src/LibusbHandler/LibusbDeviceHandler.cpp:699-702 | a device that was not unplugged is flagged exactly if its own transfers found it gone or it is such a case |
| `ServerTheorems.EscapeLeaksDevice` | src/Session.cpp:327-344 | a run in which a session ends and its device stays in use |
| `ServerTheorems.UnplugRace` | src/LibusbHandler/LibusbServer.cpp:669-705 | a run in which an unplugged device is offered again |
| `ServerTheorems.UnplugHitsReplacement` | src/LibusbHandler/LibusbServer.cpp:669-705 | a run in which a device that nobody unplugged is flagged |
| `ServerTheorems.CallbackDisownsSession` | src/Server.cpp:610-626 | a run in which stop() waits for a session it never asked to stop |
| `Bytes.WordsRoundTrip` | include/usbipdcpp/network.h:207-233 | big-endian words survive packing and reading |
| `Transfer.DescsRoundTrip` | src/protocol.cpp:120-129 | isochronous descriptors survive the wire |
| `Transfer.CompactGather` | src/DeviceHandler/GenericTransferOperator.cpp:70-75 | packets laid out back to back are sent as that stretch of the buffer |
| `Transfer.Socket.SendTransferData` | src/DeviceHandler/GenericTransferOperator.cpp:59-81 | plain data, or the packets' data followed by all descriptors |
| `Transfer.Socket.RecvTransferData` | src/DeviceHandler/GenericTransferOperator.cpp:83-96 | the data fills the front of a blank buffer, then exactly the announced descriptors are read; end of stream if bytes are missing |
| `Codec.SetupRoundTrip` | include/usbipdcpp/SetupPacket.h:22-65 | setup packets and their eight little-endian bytes correspond one to one |
| `Codec.RecvSubmit` | src/protocol.cpp:439-499 | the header, its limits in order, the setup packet and the data phase |
| `Codec.GetCommand` | src/protocol.cpp:561-602 | reads one command, or reports unknown command, end of stream or socket error |
| `Codec.CommandRoundTrip` | src/protocol.cpp:423-518 | a wireable command is read back and takes exactly its own bytes of any stream |
| `Codec.RoundTripExactly` | src/protocol.cpp:423-499 | a command decodes to itself with nothing left over if and only if it is in the limits, consistent, and its data phase carries its buffer |
| `Codec.CompactKeepsPayload` | src/protocol.cpp:430-436 | compact OUT packets that fill the buffer meet that condition |
| `Codec.DecodeConsumes` | src/protocol.cpp:439-518 | a decoded command is in the limits and took 48 bytes plus its data and descriptors |
| `Codec.StreamRoundTrip` | src/protocol.cpp:561-588 | any list of wireable commands back to back is read back, ending at the end of the stream |
| `Codec.EncodingInjective` | src/protocol.cpp:423-437 | different lists have different encodings |
| `Codec.PrefixFree` | src/protocol.cpp:561-602 | no proper prefix of a command is read as a command |
| `WireLayout.DecodeExactly` | src/protocol.cpp:439-602 | what any stream of at least 48 bytes decodes to, by byte positions and literal values: command, refusal by endpoint, length and packet count, missing bytes, fields |
| `WireLayout.SubmitLayout` | src/protocol.cpp:423-437 | every byte of a CMD_SUBMIT with its data phase and descriptors |
| `WireLayout.UnlinkLayout` | src/protocol.cpp:501-510 | every byte of a CMD_UNLINK |
| `Devlist.FieldRoundTrip` | src/Device.cpp:20-26 | text survives a NUL-padded field exactly if it leaves room for the NUL and contains none |
| `Devlist.DecodeEncoded` | src/Device.cpp:10-57 | what a reader makes of any device entry, cut texts and lost interfaces included |
| `Devlist.DeviceRoundTripExactly` | src/Device.cpp:10-57 | a device entry is read back exactly if path and busid fit without NUL and there are at most 255 interfaces |
| `Devlist.ListRoundTrip` | src/protocol.cpp:131-166 | a list of such devices is read back and the next message starts where it ends |
| `WireLayout.DeviceLayout` | src/Device.cpp:10-57 | every byte of a device entry |
| `WireLayout.ListLayout` | src/protocol.cpp:131-138 | the reply begins with version 1.11, command 5, status and count, and the entries follow |
| `LibusbIso.ReceiveExactly` | src/LibusbHandler/LibusbTransferOperator.cpp:189-215 | the loop accepts exactly complete descriptor lists whose packets fit the buffer one after the other |
| `LibusbIso.ReceiveFailsExactly` | src/LibusbHandler/LibusbTransferOperator.cpp:189-215 | it refuses exactly if the descriptors that arrived whole do not fit, and reports the end of the stream exactly if they fit but some are missing |
| `LibusbIso.DescribedExactly` | src/LibusbHandler/LibusbTransferOperator.cpp:122-128 | what is stored of a client's descriptors: length, actual length and libusb's status for the status word; the offset plays no part |
| `LibusbIso.RecvPackets` | src/LibusbHandler/LibusbTransferOperator.cpp:189-215 | the loop itself: end of stream, refusal, or accepted packets |
| `LibusbIso.PacketsDisjoint` | src/LibusbHandler/LibusbTransferOperator.cpp:193-205 | accepted packets lie in order, disjoint and inside the buffer |
| `LibusbIso.NoOverflow` | src/LibusbHandler/LibusbTransferOperator.cpp:143-155 | below 2^32 bytes the 32-bit offsets never wrap |
| `LibusbIso.SendPackets` | src/LibusbHandler/LibusbTransferOperator.cpp:130-161 | each packet is sent from its own place and described as get_iso_descriptor would |
| `LibusbIso.SentReadable` | src/LibusbHandler/LibusbTransferOperator.cpp:130-161 | the client recovers every packet's bytes from its own slot, and its offset, length, actual length and literal status word |
| `LibusbIso.SumPackets` | src/LibusbHandler/LibusbDeviceHandler.cpp:709-729 | the header's actual_length is the sum over the packets, inside the buffer, and its error_count the number of packets that did not complete |
| `LibusbIso.HeaderAnnounces` | src/LibusbHandler/LibusbDeviceHandler.cpp:757-796 | that header announces exactly the data bytes and descriptors that follow it, and the descriptors add up to it |
| `LibusbIso.GetIsoDescriptor` | src/LibusbHandler/LibusbTransferOperator.cpp:106-120 | the recomputed offset is the sum of the lengths before, inside the buffer |
| `IsoReply.TotalFits` | src/virtual_device/UvcVirtualInterfaceHandler.cpp:813-840 | disjoint slots never sum up to more than the buffer |
| `IsoReply.ReplyReadable` | src/protocol.cpp:234-260 | a reply whose header states the slots' total has 48 + actual + 16 * packets bytes, and the client recovers every slot and the next message |
| `WireLayout.ReplyLayout` | src/protocol.cpp:234-260 | every byte of a RET_SUBMIT for an IN transfer with packets |
| `IsoFill.AnswerReadable` | src/DeviceHandler/GenericTransferOperator.cpp:59-81 | the same for every URB the media handlers answer: header total, descriptor sum and data bytes agree |
| `Uvc.VideoStreaming.Commit` | src/virtual_device/UvcVirtualInterfaceHandler.cpp:748-756 | stream state reset, interval taken over |
| `Uvc.VideoStreaming.SetInterface` | src/virtual_device/UvcVirtualInterfaceHandler.cpp:869-885 | streaming starts only once committed, with frame offset and FID reset |
| `Uvc.VideoStreaming.HandleIsochronous` | src/virtual_device/UvcVirtualInterfaceHandler.cpp:765-851 | slots, descriptors, total and stream state are those of the frame cutting; EPIPE when not streaming or without a frame |
| `Uvc.PacketLoop` | src/virtual_device/UvcVirtualInterfaceHandler.cpp:816-840 | the packet loop fills the slots in place and stops with the frame |
| `Uvc.FillProgress` | src/virtual_device/UvcVirtualInterfaceHandler.cpp:818-823 | a URB advances the frame exactly if some slot is longer than the payload header |
| `UvcRuns.FrameTakenExactly` | src/virtual_device/UvcVirtualInterfaceHandler.cpp:787-847 | in every run the source is asked exactly between frames once the interval since the last frame start has passed; what it has is taken and sent as far as the slots go, with nothing to take the URB is stalled, before that nothing is sent; within a frame the clock does not matter |
| `UvcRuns.PacketExactly` | src/virtual_device/UvcVirtualInterfaceHandler.cpp:816-840 | every byte of a packet: which slots are used, how full, header length, header bits, frame bytes |
| `UvcRuns.FramesByEof` | src/virtual_device/UvcVirtualInterfaceHandler.cpp:784-843 | splitting at EOF gives back the source's frames in order, except exactly empty ones and those whose first URB had no usable slot |
| `UvcRuns.EveryFrameExactly` | src/virtual_device/UvcVirtualInterfaceHandler.cpp:802-843 | between frames the receiver has all source frames if and only if none was empty or began in a URB without a usable slot |
| `UvcRuns.FramesByFid` | src/virtual_device/UvcVirtualInterfaceHandler.cpp:784-843 | without such frames, splitting at FID changes gives back every frame, the last as far as sent |
| `UvcFid.EveryFrameByFidExactly` | src/virtual_device/UvcVirtualInterfaceHandler.cpp:802-843 | between frames, splitting at FID changes gives back all source frames if and only if none was empty or began in a URB without a usable slot |
| `UvcRuns.EofOnLastPacket` | src/virtual_device/UvcVirtualInterfaceHandler.cpp:825-829 | EOF is set exactly on the packet with the frame's last byte, and nothing follows it |
| `UvcRuns.FrameStartsSpaced` | src/virtual_device/UvcVirtualInterfaceHandler.cpp:794-811 | frame starts are at least the frame interval times their distance apart |
| `UvcRuns.HeaderOnlyUrbLosesFrame` | src/virtual_device/UvcVirtualInterfaceHandler.cpp:802-843 | a run in which a frame is lost because its first URB only has header-sized slots |
| `Uac.ResidueExact` | src/virtual_device/UacVirtualInterfaceHandler.cpp:336-348 | n packets from a cleared remainder total frame size * floor(n * rate / 1000) bytes |
| `Uac.PacketSizeFloorOrCeil` | src/virtual_device/UacVirtualInterfaceHandler.cpp:626-631 | each packet holds floor or ceiling of rate / 1000 frames |
| `Uac.PacketLengthExactly` | src/virtual_device/UacVirtualInterfaceHandler.cpp:622-639 | for any slots: packet n + i takes the frames of its millisecond, cut to its slot |
| `Uac.MicrophoneRateExact` | src/virtual_device/UacVirtualInterfaceHandler.cpp:622-639 | the same over any URBs with large enough slots |
| `Uac.MicrophoneStreamExact` | src/virtual_device/UacVirtualInterfaceHandler.cpp:521-562 | unmuted at unity gain, the bytes over any URBs are the source's chunk stream, nothing lost, repeated or reordered |
| `Uac.PullExact` | src/virtual_device/UacVirtualInterfaceHandler.cpp:530-561 | a packet's bytes are the next ones of the chunks, and the rest remains |
| `Uac.PullPadded` | src/virtual_device/UacVirtualInterfaceHandler.cpp:530-545 | when the source runs dry, what it had comes first and zeros fill the packet; the next one begins with what comes after the gap |
| `Uac.MutedIsSilent` | src/virtual_device/UacVirtualInterfaceHandler.cpp:521-526 | muted, only zeros are sent over any URBs and the source is left alone |
| `Uac.Microphone.UpdatePacketBytes` | src/virtual_device/UacVirtualInterfaceHandler.cpp:336-348 | sizes from the format, remainder cleared |
| `Uac.Microphone.CopyChunks` | src/virtual_device/UacVirtualInterfaceHandler.cpp:530-561 | the copy loop over chunks, silence when the source has none |
| `Uac.Microphone.ProcessIsoIn` | src/virtual_device/UacVirtualInterfaceHandler.cpp:601-647 | slots, descriptors, total and stream state are those of the packet schedule |
| `Rndis.UnwrapPackets` | src/virtual_device/RndisVirtualInterfaceHandler.cpp:61-88 | terminates on every byte string and returns the frames of the message chain |
| `Rndis.UnwrapSlices` | src/virtual_device/RndisVirtualInterfaceHandler.cpp:76-84 | only slices of the input of at least 14 bytes come out |
| `Rndis.UnwrapStream` | src/virtual_device/RndisVirtualInterfaceHandler.cpp:65-86 | packet messages back to back give their frames in order, and what follows cannot take any away |
| `Rndis.UnwrapExactly` | src/virtual_device/RndisVirtualInterfaceHandler.cpp:65-86 | with frames of at least 14 bytes and malformed data or a short rest behind, exactly the frames |
| `Rndis.UnwrapByFields` | src/virtual_device/RndisVirtualInterfaceHandler.cpp:61-88 | what any byte string yields, by its four little-endian words: the first message's frame and then what the rest yields, or nothing |
| `Rndis.UnwrapMessages` | src/virtual_device/RndisVirtualInterfaceHandler.cpp:65-86 | messages described by their fields yield their frames of at least 14 bytes in order |
| `Rndis.UnwrapWrap` | src/virtual_device/RndisVirtualInterfaceHandler.cpp:43-88 | a wrapped frame unwraps to itself exactly if it has at least 14 bytes, pad byte or not |
| `Rndis.WrapNeverNeedsZlp` | src/virtual_device/RndisVirtualInterfaceHandler.cpp:50-52 | a wrapped length is never a multiple of 64 |
| `Rndis.WrapLayout` | src/virtual_device/RndisVirtualInterfaceHandler.cpp:43-55 | every byte of a wrapped frame, pad byte included |
| `Rndis.PadHidesNextMessage` | src/virtual_device/RndisVirtualInterfaceHandler.cpp:50-52 | two wrapped frames in one transfer are both found exactly if the first has no pad byte |

## Left out

- UrbTheorems.RunAnswers: says nothing about clients that repeat a submit number or an unlink number, because it tells answers apart by number; what holds for them is in UrbCounts.
- asio sockets and coroutines, acceptor cancellation, close and shutdown races: streams and atomic steps stand for them; socket write failures appear only as events of the session machine.
- The data a libusb RET_SUBMIT carries is not part of the URB machine, whose replies are numbers and statuses; for isochronous IN transfers it is in LibusbIso, for the others it is the transfer's buffer.
- libusb itself (open, claim, driver attach, hot-plug registration) and its error codes: environment with the contract stated above.
- Condition variables: the state a wait tests is modelled, that a notify is never missed is not claimed.
- Liveness: no theorem says that a thread or a client eventually moves.
- The session registry and the session threads are modelled on values, not as objects; aliasing of `shared_ptr` is captured only as the set of reference holders.
- User callbacks and device handlers that throw: modelled only where the session machine's escape and callback events say so.
- An unlink that arrives after the device was removed: the source ignores it and the model has no step for it.
- RET_SUBMIT and RET_UNLINK decoding on the client side beyond the isochronous reply, OP_REQ messages and the import reply: easy members.
- `TransferScheduler::endpoint_interval` and the delay of an already filled response (data duration, or interval times packets), which is a parameter; control and packetless URBs that bypass the scheduler, and the time_point::max() sentinel of an empty schedule: easy members.
- The speaker (`process_iso_out`) with its pacing feedback, and volume scaling other than mute and unity gain: their effect depends on host timing or rounding.
- UAC and UVC control requests, descriptor building, RNDIS control messages and OID tables: branch-by-branch constants.
- HID, CDC ACM, CDC ECM and pipe device handlers, PipeDeviceHandler, Python bindings, examples, latency tracking, observers' storage.
- Microphone sources that answer with endless empty chunks: the source then loops forever; the model takes the list of answers as finite.
