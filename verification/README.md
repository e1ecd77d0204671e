# Verified model of the NNTI transport protocols

A Dafny model of the parts of the NNTI network transports in which the logic is hard: the credit-based
request queue of the Gemini transport, the splitting of transfers between segmented buffers, the
connection handshake, the work-request bookkeeping of the InfiniBand transport, the gate in front of the
progress engine, the buffer pool, peer URLs, and memory registration.

`dafny verify dfyconfig.toml` checks the whole project.

| file | contents |
|---|---|
| `Common.dfy` | connection-tagged sequences and slot arithmetic |
| `FlowControl.dfy`, `FlowSafety.dfy` | the request-queue protocol as a step system with any number of senders, and what holds in every run |
| `SlotSafety.dfy` | receive slots are never overwritten, whatever the user does |
| `RequestReceiver.dfy`, `RequestSender.dfy` | the handlers of both ends, updating their state in place, tied to the step system |
| `SendAttempts.dfy`, `ParkedSends.dfy` | a sender's attempt to take a credit and post, amid the steps of everyone else; when a parked request is posted |
| `RequestRing.dfy`, `RingOrder.dfy` | the head/tail ring, and several requests of it at once |
| `ServedQueue.dfy`, `ServedProgress.dfy` | the queue as its user sees it, and what is possible in it |
| `WaitLoop.dfy`, `WaitTraps.dfy`, `TrappedWait.dfy` | who executes the backlog and when, exactly which waits cannot be trapped, and a run into one that is |
| `ServedOrder.dfy`, `OutOfStep.dfy`, `LostOrder.dfy`, `ResetHazard.dfy` | which messages the user sees in every run, and exactly when the reset of `req_index` loses their order |
| `SlotTally.dfy`, `Stranding.dfy` | the messages meant for one slot, and exactly when the reset strands messages |
| `SegmentSplit.dfy` | the two-cursor splitter against a flat copy of bytes |
| `Handshake.dfy`, `HandshakeSafety.dfy` | the connection routines over byte pipes |
| `IbWorkRequests.dfy`, `IbReceives.dfy`, `IbKeyZero.dfy`, `IbParking.dfy` | keys, map, shared receive queue and fragment counts; the round of a receive; runs with harmful waits; receives never handed over |
| `ProgressGate.dfy` | lock, flag and condition variable as a thread step system |
| `BufferPool.dfy`, `PeerUrl.dfy`, `Registration.dfy` | the pool, the URLs, and the reference counts |

Assumptions, made throughout: a counter increment returns the value before it; the network delivers the
messages of one connection in order and raises one event for each; a hardware compare-and-swap returns the
old value; posts succeed; both ends of a connection use the same number of mailbox elements; one thread of a
process sends requests, while credits may come back at any moment; hashes of live addresses do not collide;
source and destination of a transfer do not overlap.  Creating and destroying a receive request are single
steps: the code takes no backlog lock for either, and reads and sets `req_index` in two operations
(nnti/nnti_gni.cpp:3037-3041), between which an arrival could be numbered.  In `WaitLoop` one thread of the
receiver waits; another one that waits as well executes the backlog too.

Eight things the code does not do in general, each with the exact condition under which it does:

- A transfer moves exactly the bytes asked for only under the condition of `SegmentSplit.TransferIsExactIff`:
  the last segment is looked for without regard to the offset into the first one.
- A wait without a timeout for a receive request can be trapped though its message is there: the backlog is
  executed only after an event, and waits that find their requests complete skip it. Exactly the waits of
  `WaitTraps.WaitIsSafeIff` cannot; `TrappedWait.WaitIsTrapped` is a run into one that is.
- The reset of `req_index` when a request is given back leaves the messages in order only under the condition
  of `LostOrder.OrderSurvivesIff`, and strands none only under the same condition, by `Stranding.StrandsNoneIff`;
  `ResetHazard.SeenOutOfOrder` and `ResetHazard.MessageIsStranded` are runs from the start.
- A request parked for want of a credit is sure to be posted by a wait only under the condition of
  `ParkedSends.SureToBePostedIff`: credits come back without an event.
- A ring all of whose slots are held at once, which for a ring of one slot is always so, never gets one back:
  `RingOrder.HeldComeBackIff`, `RequestRing.CycleReturnsSlotIff`.
- Waiting for a transfer between segmented buffers over InfiniBand removes key zero from the map, which is
  harmless only under the condition of `IbWorkRequests.WaitKeepsDecodesIff`; no other key is ever lost.
- A receive posted while half of `srq_count` are outstanding is never handed over; this cannot happen exactly
  up to the number of receives of `IbParking.ParksNoneIff`.
- A buffer structure that is used again after it was unregistered may mislead later registrations, exactly
  when the condition of `Registration.RegisterKeepsInvIff` fails.

## Model

| member | source | states |
|---|---|---|
| `FlowSafety.StepKeepsInv` | nnti/nnti_gni.cpp:6768-6809 | Every protocol step of any sender or of the receiver, and anything the user's threads do to request states or to `req_index`, keeps the invariant of every connection: credits add up, arrivals are numbered in posting order, and each delivered message not yet copied out lies intact in slot number modulo `max_credits`. |
| `FlowSafety.CreditsAreConserved` | nnti/nnti_gni.cpp:6644-6766 | In every run, for every connection: credits + taken + on the wire + delivered + in the backlog + copied but not given back = `max_credits`, and the counter stays between 0 and `max_credits`. |
| `FlowSafety.SwapTakesOneOrSawCreditsReturn` | nnti/nnti_gni.cpp:6725-6765 | In every run a compare-and-swap succeeds if and only if the counter still is what was fetched, then takes one from a positive counter; otherwise the counter has risen and is left alone. |
| `FlowSafety.MailboxIsNeverOverwritten` | nnti/nnti_gni.cpp:6784-6800 | Mailbox safety in every reachable state with any number of senders: two messages not yet copied out never share a slot, the slot a credited sender is about to write belongs to no such message, and every delivered one is intact. |
| `FlowSafety.StepRefinesChannel` | nnti/nnti_gni.cpp:4321-4408 | Each step is, on each connection, one step of a FIFO channel or none: a post sends, a copy receives exactly the oldest message not received, though sender and receiver compute slots independently. |
| `FlowSafety.CopyReceivesOldest` | nnti/nnti_gni.cpp:4374-4408 | The mailbox slot named by the front of the global backlog holds the next message its sender posted. |
| `FlowSafety.CopiedIsPrefixOfPosted` | nnti/nnti_gni.cpp:4321-4447 | In every run the messages copied out of a connection are a prefix of those posted on it, in order, and all of them once wire, events and backlog hold nothing of it. |
| `RequestReceiver.DrainLeavesSuffix` | nnti/nnti_gni.cpp:4413-4447 | What executing the backlog does not copy out stays in the backlog in its order. |
| `RequestReceiver.Drain` | nnti/nnti_gni.cpp:4413-4447 | Executing the backlog stops only when it is empty or its front slot is not ready to receive, and leaves every remaining element pointing at existing slots. |
| `RequestReceiver.DrainIsARun` | nnti/nnti_gni.cpp:4374-4447 | Executing the backlog is a run of the flow control (copy, credit back, complete, element by element), so the results about all runs hold of it. |
| `RequestReceiver.EventIsARun` | nnti/nnti_gni.cpp:4321-4336 | Handling one delivery event, from drawing both numbers to executing the backlog, is a run of the flow control. |
| `RequestReceiver.RequestQueue.ExecuteMboxCopy` | nnti/nnti_gni.cpp:4374-4411 | In place: copies, pays the credit back and completes the request exactly when the target slot is posted or attached; otherwise reports so and changes nothing. |
| `RequestReceiver.RequestQueue.ExecuteMboxBacklog` | nnti/nnti_gni.cpp:4413-4447 | In place: leaves the receiver exactly as draining the backlog front to back does. |
| `RequestReceiver.RequestQueue.ProcessRequestEvent` | nnti/nnti_gni.cpp:4321-4336 | In place: draws the receive-queue number globally and the mailbox number per connection, appends the arrival, drains. |
| `RequestSender.CreditsAvailable` | nnti/nnti_gni.cpp:6682-6766 | For any credits coming back before each atomic operation: reports success if and only if it took exactly one credit, otherwise changes nothing and there was none at the call; the retry loop ends because each retry saw the bounded counter rise. |
| `RequestSender.ExecuteSend` | nnti/nnti_gni.cpp:6768-6809 | Either posts into the slot after the previous one, on one credit, or leaves the connection as it was for want of a credit; credits plus posts less returns is unchanged. |
| `RequestSender.SendIsARun` | nnti/nnti_gni.cpp:6784-6800 | A successful attempt with no credits returned meanwhile and no retry is the run fetch, compare-and-swap, post into `mbox_index` modulo `max_credits`; the other attempts are those of `SendAttempts`. |
| `SendAttempts.Interlude` | nnti/nnti_gni.cpp:6725-6765 | Whatever the other senders, the network, the receiver and its user do, the sender finds its own state as it was and its counter higher by exactly the credits that came back. |
| `SendAttempts.RoundOutcome` | nnti/nnti_gni.cpp:6725-6765 | One fetch and compare-and-swap with anything in between: the fetch saw a credit, and afterwards the sender has either taken exactly one or is where it was, the counter having risen above what was fetched. |
| `SendAttempts.SwapOutcome` | nnti/nnti_gni.cpp:6725-6765 | The compare-and-swap succeeds if and only if no credit came back between the fetch and the swap. |
| `SendAttempts.AttemptOutcome` | nnti/nnti_gni.cpp:6682-6766 | An attempt of any number of rounds with anything in between: only the last can take a credit, it takes one, every credit returned is accounted for, nothing is posted meanwhile, and there are at most `max_credits` rounds, fewer if there were credits at the start. |
| `SendAttempts.AttemptPosts` | nnti/nnti_gni.cpp:6768-6809 | A successful attempt, retries and interludes included, posts the message into the slot after the previous one and costs exactly one credit. |
| `RequestSender.SendOrPark` | nnti/nnti_gni.cpp:6945-6958 | A new request is posted or goes behind the parked ones, never both or neither, and is parked only if there was no credit. |
| `RequestSender.ResendQueue` | nnti/nnti_gni.cpp:6847-6872 | One peer's turn: posted followed by parked stays the same sequence, so a prefix has moved in insertion order, and whatever is left behind means all credits there were are used up. |
| `RequestSender.Sender.RequestSend` | nnti/nnti_gni.cpp:6945-6958 | In place: every message handed over is in exactly one of posted and parked, and no other peer is touched. |
| `RequestSender.Sender.ResendPeer` | nnti/nnti_gni.cpp:6843-6879 | In place: one peer's queue is worked off as above, its empty queue leaves the map, other peers are untouched. |
| `RequestSender.Sender.ResendAll` | nnti/nnti_gni.cpp:6831-6884 | In place, for any number of peers and credits: at every peer a prefix of its queue is posted in insertion order and the rest stays. |
| `ParkedSends.PostedInTurn` | nnti/nnti_gni.cpp:3246-3247 | In one turn of a wait, whatever credits come back during it, the k-th parked request of a peer is posted if there were more than k credits, and otherwise only if enough came back. |
| `ParkedSends.SureToBePostedIff` | nnti/nnti_gni.cpp:3215-3260 | Credits come back without an event: a wait is sure to post the k-th parked request if and only if it has a timeout, or more than k credits are there already and an event is still to come. |
| `ParkedSends.EventsAreAccountedFor` | nnti/nnti_gni.cpp:3246-3247 | Over any run of turns and returning credits: order and number of messages and credits are kept, each message posted raises an event, and each event ends one turn. |
| `ParkedSends.SendAgainIsResent` | nnti/nnti_gni.cpp:6847-6872 | The turn of that model is exactly what one pass over a resend queue does when no credit comes back meanwhile. |
| `RequestRing.FirstAttachable` | nnti/nnti_gni.cpp:2850-2912 | The slot found is the first posted or completed one on the way round from `tail` up to and including `head`; none if there is none. |
| `RequestRing.RunEnd` | nnti/nnti_gni.cpp:2993-3036 | The end of the maximal run of waited-for slots from a starting slot towards `head`. |
| `RequestRing.DestroyReleasesMaximalRun` | nnti/nnti_gni.cpp:2993-3036 | When the tail request is destroyed, exactly the maximal circular run of waited-for slots from `tail` up to `head` is posted again, `tail` moves over it, and no other slot changes. |
| `RequestRing.CycleReturnsSlotIff` | nnti/nnti_gni.cpp:2850-3036 | A create on an idle ring attaches the slot at `tail`; create, wait and destroy leave every slot as it was, the ring idle and one slot further on, if and only if it has more than one slot. |
| `RingOrder.DestroyTouchesOnly` | nnti/nnti_gni.cpp:2986-3036 | Whatever request is destroyed: a slot changes only if it is that request's own and was attached, or if the request is the tail's and the slot lies in the run of waited-for slots from `tail` on; `tail` moves only then, to the end of that run. |
| `RingOrder.AnyOrderOfDestroys` | nnti/nnti_gni.cpp:2993-3036 | Destroying waited-for requests of the run in any order gives nothing back before the tail's is destroyed, and then exactly what destroying the tail's alone gives back. |
| `RingOrder.HeldInTurn` | nnti/nnti_gni.cpp:2850-2912 | Up to as many requests as there are slots can be held at once, each created after the one before has been waited for: they get the slots from `tail` on in turn, past those waited for. |
| `RingOrder.HeldComeBackIff` | nnti/nnti_gni.cpp:2850-3036 | k requests held at once and destroyed in any order leave all slots posted and the ring k slots further on if and only if some slot is not held; a ring all of whose slots are held gets none back, and no create finds one. |
| `RingOrder.SecondCreateIsTheSame` | nnti/nnti_gni.cpp:2850-2912 | A second create before the first request completes attaches the same slot; `head` moves only if the slot picked is at `head`. |
| `RequestRing.Ring.Create` | nnti/nnti_gni.cpp:2849-2912 | In place: the split searches (not wrapped, tail to end, front to head) find the first attachable slot of the circle and advance `head` exactly when it is `head`. |
| `RequestRing.Ring.Scan` | nnti/nnti_gni.cpp:2852-2868 | One forward search loop finds the first attachable slot of its stretch of the circle, or shows that the stretch has none. |
| `RequestRing.Ring.ReleaseRun` | nnti/nnti_gni.cpp:2996-3004 | One release loop posts waited-for slots up to the first other one and advances `tail` past them. |
| `RequestRing.Ring.Destroy` | nnti/nnti_gni.cpp:2986-3036 | In place: the split release loops do what the circular description says, states and `tail` alike. |
| `RequestRing.Ring.WaitDone` | nnti/nnti_gni.cpp:3281-3283 | In place: a finished wait marks a completed request as waited for and nothing else. |
| `SlotSafety.HeldSlotIsNeverOverwritten` | nnti/nnti_gni.cpp:4382-4408 | Receive-slot protection in every run, for any ring size, any numbering of arrivals, any number of requests held at once and any mix of waits and destroys: from its completion to the step that gives it back a slot holds the same bytes from the same sender. |
| `SlotSafety.FullSlotIsKept` | nnti/nnti_gni.cpp:4382-4408 | No step of a sender, the network or the receiver changes a completed slot; it stops being complete exactly by a user's step that posts it again. |
| `SlotSafety.RingOperationsAreMoves` | nnti/nnti_gni.cpp:2986-3036 | Waiting for and destroying the request in any slot, wherever head and tail are, move slot states only from completed to waited for and from waited for or attached to posted. |
| `ServedQueue.StepKeepsServed` | nnti/nnti_gni.cpp:2850-3058 | Create, wait, a destroy that finds the numbering in step, and every protocol step keep the ring in step: arrival j lies in slot j modulo `req_count`, intact until given back, and free slots are posted. |
| `ServedQueue.UserSeesEachSenderInOrder` | nnti/nnti_gni.cpp:4171-4408 | End to end, in every run with one create, wait, destroy at a time in which each destroy finds the numbering in step: the user sees arrivals in copy order and from each sender a prefix of what it posted, in order. |
| `ServedQueue.CreatesGoRoundTheRing` | nnti/nnti_gni.cpp:2850-2914 | In every such run a create of an idle user succeeds, and after i creates the next one attaches slot i modulo `req_count`. |
| `ServedQueue.CreatesAreWaits` | nnti/nnti_gni.cpp:2850-2914 | In any run at all there are as many waits as creates, but for one that is still held. |
| `ServedQueue.CreatePicksNextSlot` | nnti/nnti_gni.cpp:2850-2912 | The search always finds the slot of the next arrival the user has not seen. |
| `ServedQueue.HeldSlotsAreStable` | nnti/nnti_gni.cpp:4382-4408 | As long as the ring is in step, the slots of the copies not given back keep their bytes and senders through every step, the harmful destroy included; in every run this is `SlotSafety.HeldSlotIsNeverOverwritten`. |
| `ServedQueue.DestroyReleasesOne` | nnti/nnti_gni.cpp:2993-3036 | With one request held at a time a destroy posts exactly its slot and moves `tail` by one. |
| `ServedQueue.DestroyResetsIff` | nnti/nnti_gni.cpp:3037-3043 | A destroy sets `req_index` back if and only if it has reached `req_count` and the number of requests served is a multiple of `req_count`. |
| `ServedQueue.HeldRequestsKeepIndex` | nnti/nnti_gni.cpp:3037-3039 | `req_index` is never set back while a request is held, nor before it has reached `req_count`. |
| `ServedQueue.DestroyKeepsServedIff` | nnti/nnti_gni.cpp:3037-3043 | The destroy leaves the next arrival numbered for its own slot if and only if the reset is not taken or the number of arrivals handled is a multiple of `req_count` too. |
| `ServedOrder.NothingSeenTwiceOrAltered` | nnti/nnti_gni.cpp:4374-4408 | In every run at all, harmful resets and one-slot rings included: each wait returns the bytes and sender of one particular copy, and no two waits return the same one. |
| `ServedOrder.FlowStepIsUsers` | nnti/nnti_gni.cpp:2986-3043 | Each step of the served queue is one step of the flow control or none, and what wait and destroy do there is among the moves that receive-slot protection allows. |
| `OutOfStep.SeenInOrder` | nnti/nnti_gni.cpp:2850-3058 | In every run in which each destroy finds the numbering in step, the i-th wait returns the i-th copy. |
| `OutOfStep.StepKeepsSettled` | nnti/nnti_gni.cpp:4321-4336 | What is numbered already is served in order whatever `req_index` is; only an arrival numbered out of turn can break the order. |
| `LostOrder.OrderSurvivesIff` | nnti/nnti_gni.cpp:3037-3043 | After any such run, giving a request back leaves the waits returning the copies in order in every run that goes on without another reset out of step if and only if the destroy finds the numbering in step: `req_index` below `req_count`, or requests served no multiple of it, or arrivals handled one. |
| `LostOrder.OrderIsLost` | nnti/nnti_gni.cpp:3037-3043 | From any harmful reset a run goes on to a wait that returns, in place of message a, message a + a modulo `req_count`, a being the number of arrivals handled. |
| `WaitLoop.LoopIsServed` | nnti/nnti_gni.cpp:3209-3260 | Every run of the receiver's thread through its waits, with the backlog executed only after an arrival event and at the end of a turn, is a run of the served queue, so that what holds in all runs of that holds here. |
| `WaitLoop.StepKeepsLoop` | nnti/nnti_gni.cpp:3215-3267 | Every step of the senders, the network and the thread keeps ring and numbering together; a copy is in progress only while the backlog is executed, and a turn leaves nothing to copy. |
| `WaitTraps.WaitIsSafeIff` | nnti/nnti_gni.cpp:3215-3260 | After any in-step run, a wait for the receive request held can always still return as long as a message has not been seen, whatever happens by itself, if and only if its timeout is not negative, or the request is complete, or something is on a wire or in the event queue, or nothing can be copied out of the backlog. |
| `WaitTraps.PrudentWaitsReturn` | nnti/nnti_gni.cpp:3215-3260 | In every in-step run in which each wait for a receive request is begun only under that condition, with anything else between, no wait is ever trapped. |
| `WaitTraps.CanReturn` | nnti/nnti_gni.cpp:3246-3252 | From any such wait, while some message has not been seen, steps that happen by themselves lead to its return with a message. |
| `WaitTraps.TurnEndsIff` | nnti/nnti_gni.cpp:3249-3258 | At the end of a turn the wait returns with the message if the request is complete, may return without one if and only if it is not and the wait has a timeout, and otherwise goes on polling. |
| `WaitTraps.ImprudentIsTrapped` | nnti/nnti_gni.cpp:7397-7490 | A thread that polls without a timeout, with nothing on a wire or in the event queue and a message in the backlog that could be copied, never returns by itself, and that message has not been seen. |
| `WaitTraps.WaitIsBounded` | nnti/nnti_gni.cpp:3215-3260 | Unless something new comes, a wait that uses no timeout takes no more steps than were left when it began. |
| `TrappedWait.WaitIsTrapped` | nnti/nnti_gni.cpp:3209-3247 | A whole in-step run into such a wait: four messages arrive during a wait for another operation, two are seen through waits that find their requests complete, and the wait for the third polls for ever with the third in the backlog. |
| `ServedProgress.StuckMeansAllSeen` | nnti/nnti_gni.cpp:4171-4447 | If the backlog is executed whenever it can be, which `WaitTraps` shows not always to be so: when neither the network nor the copying nor the user can go on in an in-step run, the user has seen every message of every sender, in its order. |
| `ServedProgress.CanGoOn` | nnti/nnti_gni.cpp:4171-4447 | While some message of some sender has not been seen, a delivery, an arrival, a step of executing the backlog or a step of the user is possible; whether a thread is there to execute the backlog is not part of this. |
| `ServedProgress.ServiceIsBounded` | nnti/nnti_gni.cpp:4171-4447 | Without new posts an in-step run has no more steps than are left: eight for a message on the wire, seven for an event not handled, six in the backlog, three for a copy not seen, and what is left of a copy or a request in progress. |
| `ResetHazard.OutOfStepIsReachable` | nnti/nnti_gni.cpp:3037-3043 | A run from the start (two slots, three arrivals of one sender) to a destroy that finds the numbering out of step. |
| `ResetHazard.SeenOutOfOrder` | nnti/nnti_gni.cpp:3037-3043 | The whole run, from the start over that destroy: one sender has posted five messages, and the user sees the first three and then the fifth. |
| `ResetHazard.MessageIsStranded` | nnti/nnti_gni.cpp:2850-3043 | Another such run: the sender has posted four messages, the user has seen three, and neither the network nor the receiver nor the user can go on. |
| `Stranding.StrandsNoneIff` | nnti/nnti_gni.cpp:3037-3043 | After any in-step run, whatever is under way: giving a request back strands no message in any run that goes on without another reset out of step, even if the backlog is executed whenever it can be, if and only if the destroy finds the numbering in step. |
| `Stranding.OutOfStepStrands` | nnti/nnti_gni.cpp:3037-3043 | From any reset out of step, with any messages under way, a run goes on to a state in which nobody can go on and a message has not been seen. |
| `SlotTally.StepTally` | nnti/nnti_gni.cpp:4171-4335 | In every run only an arrival numbered for slot zero adds to the messages meant for it, and only the user's turn there takes from them. |
| `SlotTally.OneTurnTooMany` | nnti/nnti_gni.cpp:3037-3043 | Numbering from zero on in the middle of a round means one message more for slot zero, by the end of a round, than the user has turns there. |
| `SlotTally.StepGoesRound` | nnti/nnti_gni.cpp:2850-3036 | In every run, in step or not, the user goes round the ring: each create attaches the slot after the last one, and each destroy moves `tail` by one. |
| `SegmentSplit.FindSegment` | nnti/nnti_gni.cpp:1959-1983 | The search loop returns the segment, offset and bytes left of a flat offset, the earlier segment at a boundary, and past the end the first segment with what is over. |
| `SegmentSplit.FindLast` | nnti/nnti_gni.cpp:1984-1992 | The second search loop returns the segment in which the length, counted from the start of the first segment, runs out, and none if and only if the buffer is too short. |
| `SegmentSplit.LocateFinds` | nnti/nnti_gni.cpp:1963-1983 | The cursor found stands at exactly the flat offset, inside its segment. |
| `SegmentSplit.LastSegmentFinds` | nnti/nnti_gni.cpp:1984-1992 | The last segment is the first whose end is not before the counted length. |
| `SegmentSplit.AdvanceStaysReady` | nnti/nnti_gni.cpp:2048-2086 | One round of the three-way branch moves both cursors by the fragment's length, the source on to its next segment exactly if it is used up and likewise the destination, both in the equal case; the destination stays large enough. |
| `SegmentSplit.CountFragments` | nnti/nnti_gni.cpp:2035-2093 | The counting pass ends and counts exactly the fragments of the walk, which `SegmentSplit.WalkMeetsAllEnds` counts by segment ends. |
| `SegmentSplit.EmitFragments` | nnti/nnti_gni.cpp:2095-2225 | The emitting pass ends, writes exactly the counted entries and never beyond, and writes the fragments of the walk, of which none but a first one at a segment end is empty. |
| `SegmentSplit.WalkLength` | nnti/nnti_gni.cpp:2035-2093 | At least one fragment and at most source segments used plus destination segments available less one. |
| `SegmentSplit.WalkMeetsAllEnds` | nnti/nnti_gni.cpp:2035-2093 | With no empty segments: there are exactly as many fragments as distinct ends of source and destination segments in the flat range moved, both its ends included, and a fragment is empty if and only if it is the first and the range begins at such an end. |
| `SegmentSplit.WalkMeetsEnds` | nnti/nnti_gni.cpp:2048-2086 | While bytes are left on both sides every fragment has positive length and ends at the next end of a segment. |
| `SegmentSplit.WalkIsChain` | nnti/nnti_gni.cpp:2048-2225 | The fragments follow one another without gap or overlap, each inside one source and one destination segment, from the two offsets to the end of the last source segment. |
| `SegmentSplit.Split` | nnti/nnti_gni.cpp:1959-2225 | Both searches and both passes together: consecutive fragments covering the source from `src_offset` to the end of the last segment, the destination from `dest_offset` on; with no empty segments one for each end of a segment in that range, none empty but a first one that begins at an end. |
| `SegmentSplit.TransferIsExactIff` | nnti/nnti_gni.cpp:1984-1992 | Exactly `src_length` bytes move if and only if the range ends with a segment that is the first one used or is longer than what was skipped of the first one. |
| `SegmentSplit.WholeSegmentsAreExact` | nnti/nnti_gni.cpp:1984-1992 | From offset zero exactly `src_length` bytes move if and only if the length ends on a segment boundary. |
| `SegmentSplit.InexactTransfers` | nnti/nnti_gni.cpp:1984-1992 | Two segments of four bytes: the request for the second moves nothing, the request for the first three bytes moves four. |
| `SegmentSplit.PerformAt` | nnti/nnti_gni.cpp:2112-2128 | Performing a fragment changes exactly the bytes of its destination range, to the bytes at the same distance into its source range. |
| `SegmentSplit.ChainCovers` | nnti/nnti_gni.cpp:2095-2225 | Consecutive fragments hit every position of the flat destination range and no other, each at the same distance from its source. |
| `SegmentSplit.AnyOrderIsFlatCopy` | nnti/nnti_gni.cpp:2095-2225 | Performing the emitted fragments in any order copies the one flat source range over the one flat destination range and leaves every other byte. |
| `Handshake.TcpRead` | nnti/nnti_gni.cpp:5309-5327 | For any results of the read calls, however short: an error if and only if a call that is made fails, and then that call's; otherwise the whole message, or all there was before the peer closed. |
| `Handshake.Encode32` | nnti/nnti_gni.cpp:5579-5601 | A 32-bit field of the exchanged structure reads back as written. |
| `HandshakeSafety.StepKeepsInv` | nnti/nnti_gni.cpp:5357-5415 | For any interleaving and any short reads and writes, each process reads exactly its peer's messages and knows what the exchanges so far have told it. |
| `HandshakeSafety.LearnWires` | nnti/nnti_gni.cpp:5649-5719 | Taking over a whole incoming message, in either role and in every exchange, leaves the connection wired as far as the protocol has come. |
| `HandshakeSafety.NoDeadlock` | nnti/nnti_gni.cpp:5357-5415 | Unless both processes have finished, one of them can move a byte, for both values of `client_has_recv_queue`. |
| `HandshakeSafety.RunsAreBounded` | nnti/nnti_gni.cpp:5309-5350 | No run has more steps than there are bytes to write and read. |
| `HandshakeSafety.FinishedMeansBothWired` | nnti/nnti_gni.cpp:5417-5429 | Once either side is through the closing exchange, both ends are wired to each other; once the client is, so is the server and nothing is in flight. |
| `HandshakeSafety.EveryRunEndsWired` | nnti/nnti_gni.cpp:5607-5905 | Every run from the start is bounded, and when it cannot go on both sides have finished, each sends into the mailbox the other receives from, with the same message size, and each receive mailbox pays into the peer's credit counter. |
| `IbWorkRequests.StepKeepsInv` | nnti/nnti_ib.cpp:4419-4500 | Posting, starting transfers, completions in any order, waits that do no harm and destroys keep keys, map, counts and states in agreement. |
| `IbWorkRequests.EveryCompletionDecodes` | nnti/nnti_ib.cpp:4299-4346 | In every run without harmful waits each outstanding key is in `wrmap` for the request it was posted for, so the decode assertion cannot fail. |
| `IbKeyZero.OnlyZeroGoesMissing` | nnti/nnti_ib.cpp:3438-3443 | In every run at all, however many waits do harm, each outstanding key but zero decodes to its own request, key zero to its own or to none, and the count stays exact. |
| `IbKeyZero.HarmfulWaitTakesZero` | nnti/nnti_ib.cpp:3438-3443 | A harmful wait differs from a harmless one by key zero leaving the map and by nothing else. |
| `IbWorkRequests.SrqCountIsExact` | nnti/nnti_ib.cpp:4640-4651 | `req_srq_count` is exactly the number of receives handed over and not completed, and at most half of `srq_count`. |
| `IbWorkRequests.CompleteExactlyWhenAllAre` | nnti/nnti_ib.cpp:4419-4463 | For any order of completions a put or get is complete if and only if none of its fragments is outstanding, and its count is the number that have completed. |
| `IbWorkRequests.WaitKeepsDecodesIff` | nnti/nnti_ib.cpp:3438-3443 | Waiting keeps every outstanding key decodable if and only if it is not the end of a transfer over several segments while key zero is outstanding. |
| `IbWorkRequests.HarmfulWaitExists` | nnti/nnti_ib.cpp:3438-3443 | A run from the start after which such a wait takes the key of an outstanding receive out of the map. |
| `IbParking.ParkedForever` | nnti/nnti_ib.cpp:4640-4651 | A receive that was not handed over because the count was at its limit is never handed over later. |
| `IbParking.ParksNoneIff` | nnti/nnti_ib.cpp:4640-4651 | No run with at most m receives ever parks one if and only if m is at most half of `srq_count`. |
| `IbParking.StepParksNone` | nnti/nnti_ib.cpp:4640-4651 | Within that bound no step parks a receive: outstanding receives belong to different requests, so there is always room. |
| `IbParking.OneTooMany` | nnti/nnti_ib.cpp:4640-4651 | Posting one receive after the other fills the shared queue, and the next one is parked. |
| `IbParking.PostedIffRoom` | nnti/nnti_ib.cpp:4640-4651 | In every consistent state, the fresh one included, a new receive is parked if and only if half of `srq_count` are outstanding. |
| `IbParking.RepostedIffRoom` | nnti/nnti_ib.cpp:4820-4843 | So is a receive that is given back and posted again. |
| `IbWorkRequests.KeysLeaveTheMap` | nnti/nnti_ib.cpp:4789-4801 | In every reachable state a receive has at most one key in the map, its current one, and a contiguous transfer that has been waited for has none. |
| `IbWorkRequests.CompleteKeeps` | nnti/nnti_ib.cpp:4299-4500 | A completion of any outstanding key decodes to its own request and keeps everything in agreement. |
| `IbWorkRequests.StartKeeps` | nnti/nnti_ib.cpp:2147-2222 | Starting a transfer adds exactly as many new keys as fragments, none of which was in the map, all outstanding and decoding to that transfer; everything stays in agreement. |
| `IbWorkRequests.PostRecvKeeps` | nnti/nnti_ib.cpp:4542-4667 | Posting a receive, handed over or not, keeps everything in agreement, taken as one step; what is so between its two halves is `IbWorkRequests.OnlyTheNewKeyIsMissing`. |
| `IbWorkRequests.OnlyTheNewKeyIsMissing` | nnti/nnti_ib.cpp:4640-4660 | Between handing a receive over and recording its key, that key and no other outstanding one cannot be decoded, and it is outstanding if and only if there was room. |
| `IbWorkRequests.OtherCompletionsCommute` | nnti/nnti_ib.cpp:4640-4660 | Any other completion in that window has the same effect as after it. |
| `IbWorkRequests.DestroyKeeps` | nnti/nnti_ib.cpp:3132-3148 | Giving a receive back, which gives it a new key, leaves every outstanding key decodable. |
| `IbWorkRequests.Transport.PostRecvWorkRequest` | nnti/nnti_ib.cpp:4542-4667 | In place: records a key that was not in the map, and hands the receive over if and only if the outstanding ones are below the limit; the transport stays consistent. |
| `IbWorkRequests.Transport.PostFragments` | nnti/nnti_ib.cpp:2147-2222 | In place: the emitting loop draws one key per fragment, none of which was in the map and all of which decode to the new transfer; the transport stays consistent. |
| `IbWorkRequests.Transport.ProcessCompletion` | nnti/nnti_ib.cpp:4370-4496 | In place, for any outstanding key of a consistent transport: decoding finds the request it was posted for, and that receive is completed and uncounted or that transfer counts one fragment more. |
| `IbWorkRequests.Transport.FinishWait` | nnti/nnti_ib.cpp:3391-3443 | In place: the request and no other is marked as waited for, a receive's wait leaves the map alone and a transfer's takes its key out; queues and keys are untouched, and the transport stays consistent if and only if the wait was harmless. |
| `IbReceives.ReceiveRound` | nnti/nnti_ib.cpp:3132-3148 | Whatever happens in between, a completed receive that is waited for and at last destroyed is posted under a key never used before, decodes under it, and is outstanding again if and only if there is room. |
| `IbReceives.DestroyPostsAgain` | nnti/nnti_ib.cpp:4770-4848 | Giving back a waited-for receive replaces its key by the next one and hands it over if and only if there is room. |
| `IbReceives.DestroyNeedsWait` | nnti/nnti_ib.cpp:3132-3134 | Destroying anything but a waited-for receive does nothing. |
| `IbReceives.WaitAgainDoesNothing` | nnti/nnti_ib.cpp:3385-3391 | A waited-for receive may be waited for again, which changes nothing. |
| `IbReceives.StaysWaitedInRun` | nnti/nnti_ib.cpp:3132-3148 | Only its own destroy changes a receive that has been waited for. |
| `IbReceives.OutstandingCompletes` | nnti/nnti_ib.cpp:4480-4496 | The completion of an outstanding receive completes exactly that receive and takes it out of the shared queue. |
| `IbWorkRequests.Transport.RepostRecvWorkRequest` | nnti/nnti_ib.cpp:4770-4848 | In place: the old key leaves the map, a new one decodes to the receive, which is handed over if and only if there is room; the transport stays consistent. |
| `ProgressGate.StepKeepsInv` | nnti/nnti_gni.cpp:7333-7378 | Every step of any of any number of threads keeps lock, flag, maker and blocked threads consistent. |
| `ProgressGate.AtMostOneMaker` | nnti/nnti_gni.cpp:7339-7345 | In every reachable state at most one thread is in the progress section. |
| `ProgressGate.BlockedHasWaker` | nnti/nnti_gni.cpp:7346-7378 | In every reachable state a blocked thread implies the flag is set and some thread is the maker, or the thread that has just cleared it holds the lock and is about to broadcast. |
| `ProgressGate.TimeoutsAreKept` | nnti/nnti_gni.cpp:7354-7374 | In every run a call with a negative timeout never comes back with a timeout from waiting, and one with timeout zero never blocks. |
| `ProgressGate.CallWaitsIff` | nnti/nnti_gni.cpp:7339-7365 | Under the lock a call becomes the maker exactly when no thread is in the progress section; otherwise it blocks exactly when its own request is not done and its timeout is not zero, is refused with a timeout exactly when it is not done and the timeout is zero, and leaves with success exactly when it is done. |
| `ProgressGate.ResultsHaveCauses` | nnti/nnti_gni.cpp:7346-7374 | In every run a call comes back with a timeout if and only if it was refused or its wait expired, and with success if and only if its request was complete or it was woken. |
| `ProgressGate.TimedWaitsExpireIff` | nnti/nnti_gni.cpp:7354-7365 | A blocked call can come back by itself if and only if its timeout is not negative. |
| `ProgressGate.SectionEndsIff` | nnti/nnti_gni.cpp:7393-7490 | The thread in the section can end it without an event if and only if its request was complete when it entered or its timeout is not negative. |
| `ProgressGate.NoDeadlock` | nnti/nnti_gni.cpp:7333-7501 | As long as some call has not come back and no thread polls for an event without a timeout, some thread can go on without anyone calling, any event coming or any wait expiring. |
| `ProgressGate.RunsAreBounded` | nnti/nnti_gni.cpp:7333-7378 | A run takes at most ten steps for every call besides the calls and the events themselves. |
| `ProgressGate.EventsAreTaken` | nnti/nnti_gni.cpp:7406-7473 | Every event ends one section at most: the events that came are those taken and those left. |
| `ProgressGate.EveryCallComesBackIff` | nnti/nnti_gni.cpp:7380-7523 | No wakeup is lost: when no thread can go on by itself, every call has come back if and only if no thread polls in the section with a negative timeout, its request not complete on entry, and no event; otherwise all other calls are blocked behind that thread. |
| `ProgressGate.PollingIsReachable` | nnti/nnti_gni.cpp:7397-7490 | A single call without a timeout, whose request is not complete, leads there. |
| `BufferPool.IdleBuffersAreSound` | nnti/buffer_queue.cpp:165-236 | In every run idle and used buffers are apart, idle ones are distinct and have their full payload size, and with initial at most maximum size the queue never exceeds the maximum. |
| `BufferPool.CloseIsSilentIff` | nnti/buffer_queue.cpp:238-274 | When all popped buffers are back: none of the three warnings if and only if initial does not exceed maximum size, on-the-fly buffers included; then the queue holds as many as `current_size`, at least the initial size; closing destroys every buffer ever made. |
| `BufferPool.WarningsIff` | nnti/buffer_queue.cpp:238-262 | With buffers still out: closing warns that not all are there if and only if more are out than were made on the fly beyond the maximum, that fewer than the initial number are there if and only if besides the pool's growth not enough are back, and never of too many if initial does not exceed maximum size. |
| `BufferPool.PopReturnsLastPushed` | nnti/buffer_queue.cpp:217-223 | The buffer pushed last is popped next, at its full size, unless the pool was full. |
| `BufferPool.ShortenedComesBackFull` | nnti/buffer_queue.cpp:217-223 | A shortened buffer is short until it is pushed back and comes out at its full size again; shortening touches no other buffer. |
| `BufferPool.PopKeepsInv` | nnti/buffer_queue.cpp:165-207 | A pop gives out a buffer nobody holds and keeps the counts. |
| `BufferPool.PopFailsIff` | nnti/buffer_queue.cpp:172-200 | With initial at most maximum size a pop fails if and only if nothing may be made on the fly and the user holds the maximum already. |
| `BufferPool.OversizedPoolMakesNone` | nnti/buffer_queue.cpp:172-200 | A pool whose initial size exceeds its maximum never makes another buffer: a pop fails if and only if the queue is empty. |
| `BufferPool.PushKeepsInv` | nnti/buffer_queue.cpp:209-236 | A push keeps the counts whether the buffer is kept or destroyed. |
| `BufferPool.InitQueue` | nnti/buffer_queue.cpp:109-163 | Fills the pool with the initial number of buffers; a buffer size of zero makes no pool. |
| `BufferPool.BufferQueue.PopBuffer` | nnti/buffer_queue.cpp:165-207 | In place: front buffer, else a new one below the maximum, else one on the fly at the maximum, else none. |
| `BufferPool.BufferQueue.PushBuffer` | nnti/buffer_queue.cpp:209-236 | In place: back to the front with its size restored, or destroyed when the queue is full. |
| `BufferPool.BufferQueue.Fini` | nnti/buffer_queue.cpp:238-274 | In place: reports the three comparisons and destroys every queued buffer. |
| `PeerUrl.UrlRoundTrip` | nnti/nnti_gni.cpp:1188-1227 | For every host name that fits and holds none of ':', '/', '?', every port, tag and cookie: the printed URL is shorter than its limit and connecting recovers all four and the transport. |
| `PeerUrl.UrlsIdentifyPeers` | nnti/nnti_gni.cpp:4724 | Different peers print different URLs. |
| `PeerUrl.PartsRoundTrip` | nnti/nnti_utils.c:60-199 | The three parsers take any URL assembled from parts without separators of their own apart again. |
| `PeerUrl.AddressEndsAtSlash` | nnti/nnti_utils.c:84-119 | The address goes up to the first slash or to the end, and an empty one is refused. |
| `PeerUrl.ParamsFollowMark` | nnti/nnti_utils.c:161-199 | The parameters are what follows the first question mark; without one they are empty, which is no error. |
| `PeerUrl.OtherTransportsAreRefused` | nnti/nnti_gni.cpp:1188-1197 | Connecting to a URL of any other transport is refused, whatever follows. |
| `PeerUrl.NoSeparatorNoUrl` | nnti/nnti_utils.c:60-82 | Text without a separator has no transport, address or parameters and is refused. |
| `PeerUrl.ParamsRoundTrip` | nnti/nnti_gni.cpp:1215-1225 | Tag and cookie are recovered from the printed parameters. |
| `PeerUrl.HostPortRoundTrip` | nnti/nnti_gni.cpp:1209-1213 | Host and port are recovered from the printed address, though the port is read with the base taken from its prefix. |
| `PeerUrl.DecimalRoundTrip` | nnti/nnti_gni.cpp:4724 | A printed number reads back whatever follows it, as long as that is not a digit. |
| `PeerUrl.PrefixTellsBase` | nnti/nnti_gni.cpp:1209-1213 | A port after 0x or 0X is read as hexadecimal, in either case, and after 0 as octal. |
| `PeerUrl.NumberRoundTrip` | nnti/nnti_gni.cpp:1209-1225 | A number written in any base from 2 to 36, with small letters or capitals, reads back. |
| `PeerUrl.MissingPartsAreNone` | nnti/nnti_gni.cpp:1209-1225 | No number stands for a missing port, tag or cookie. |
| `PeerUrl.GetTransport` | nnti/nnti_utils.c:60-82 | In place: fails exactly without a separator and then leaves the buffer; else the buffer holds the zero-terminated part before it, truncated to fit. |
| `PeerUrl.GetAddress` | nnti/nnti_utils.c:84-119 | In place: fails exactly without separator or with an empty address; else the zero-terminated address, truncated to fit. |
| `PeerUrl.GetParams` | nnti/nnti_utils.c:161-199 | In place: fails exactly without separator; else the zero-terminated text behind the question mark, truncated to fit, or an empty string. |
| `PeerUrl.CopyOut` | nnti/nnti_utils.c:109-116 | The string read back from the buffer is the longest part that fits beside the zero, and characters beyond the limit are untouched. |
| `Registration.LookupFindsCountedHandle` | nnti/nnti_gni.cpp:3961-3971 | In every run that writes over no structure through which another address is found: an address is found exactly while it is registered, and the handle found is its own with `ref_count` equal to its registrations. |
| `Registration.EverythingIsFreed` | nnti/nnti_gni.cpp:1722-1786 | In every such run: when nothing is registered any more every handle ever allocated has been freed, each once, and the map is empty. |
| `Registration.EnabledIff` | nnti/nnti_gni.cpp:1722-1724 | The handle a register or unregister call relies on is there whenever the structure is not, respectively is, registered: nothing else is asked of callers. |
| `Registration.RegisterKeepsInvIff` | nnti/nnti_gni.cpp:3961-3971 | A registration keeps every address attached to its own handle if and only if it does not write over the structure through which another address is found. |
| `Registration.ReuseMisleads` | nnti/nnti_gni.cpp:3961-3971 | Writing over such a structure leads every later registration of its address to the other address's handle. |
| `Registration.ReuseIsReachable` | nnti/nnti_gni.cpp:1722-1728 | Such a structure comes about: unregister the first of two registrations of one address. |
| `Registration.UnregisterKeepsInv` | nnti/nnti_gni.cpp:1722-1786 | Unregistering any registered structure keeps map and counts exact; the last reference removes the address and frees its handle. |
| `Registration.MemoryMap.RegisterMemory` | nnti/nnti_gni.cpp:3959-4043 | In place, for any unregistered structure of a consistent map: the structure gets a handle of that address counting one more than its registrations, and the map stays consistent if and only if no other address is found through the structure. |
| `Registration.MemoryMap.UnregisterMemory` | nnti/nnti_gni.cpp:1722-1786 | In place, for any registered structure: the handle goes if and only if it was the last registration of its address, and the map stays consistent. |

## Left out

- Failed posts, failed atomics and failed completions, which leak a credit or complete a request early.
- Concurrent senders on one connection: drawing the mailbox index and posting are not one atomic step.
- Program order between new requests and parked ones: a new send may overtake them; only posting order is kept.
- Several receive requests created at once on the Gemini queue: `ServedQueue` has one create, wait, destroy at a time, and at least two slots; `RingOrder` has several requests, but without the arrivals. That destroy detaches another request than the one destroyed is not modelled.
- `ServedQueue.UserSeesEachSenderInOrder`: for runs in which each destroy finds the numbering in step. What holds in the others is `ServedOrder.NothingSeenTwiceOrAltered`, `SlotSafety.HeldSlotIsNeverOverwritten` and what the flow control guarantees.
- `ServedQueue.CreatesGoRoundTheRing`: for the same runs.
- `ServedQueue.StepKeepsServed`: for a destroy that finds the numbering in step; `ServedQueue.DestroyKeepsServedIff` has both sides.
- `ServedProgress.StuckMeansAllSeen`: for the same runs (`Stranding.StrandsNoneIff` has both sides) and as if the backlog were executed whenever it can be; `WaitTraps.WaitIsSafeIff` says when a wait sees to that.
- `WaitTraps.WaitIsSafeIff`: interrupted and failing waits, waits for several requests at once, and a second thread that waits are not modelled.
- `ParkedSends.SureToBePostedIff`: one peer; every event to come is counted beforehand, and new sends are left out.
- A message is one whole mailbox slot; byte offsets of slots and the difference between the copied and the sent size are not modelled.
- `SegmentSplit.Split`: requires the source range to lie inside the source segments and the destination to have room, which the code does not check; the copies of the get direction and of the InfiniBand transport have the same loops and are not repeated. The last destination segment, which the code computes and does not use, is not modelled.
- `RequestSender.CreditsComeBack`: the receiver's returns are any number of credits within the bound, not tied to its backlog; `SendAttempts` has the tied form.
- `HandshakeSafety.EveryRunEndsWired`: padding inside the exchanged structures, byte order conversion of addresses and ports, read and write errors, and the loopback connection; a connection's routines make their mailboxes at the beginning of an exchange, the model at its end.
- `IbWorkRequests.PostRecvKeeps`: posting is one step of a run; in the code a new receive is handed over before its key enters the map, and `IbWorkRequests.OnlyTheNewKeyIsMissing` says what a completion in between finds.
- `IbWorkRequests.EveryCompletionDecodes`: for runs without the harmful waits named above (`IbKeyZero` has the others), with fewer than 2^32 keys, target acknowledgements off and no cancelling. Map entries of finished transfers over several segments stay behind in the code and in the model.
- The order in which InfiniBand receives are attached to users, and the data receive queue, which works like the request queue.
- The contiguous InfiniBand branch with a partial local segment.
- `ProgressGate.EveryCallComesBackIff`: an event is one that ends the section; whether a request is complete is an oracle, read once on entry as in the code, so that a request completed by another thread afterwards ends no section. What a maker does inside and the result it returns are not modelled.
- `BufferPool.CloseIsSilentIff`: allocation always succeeds.
- `PeerUrl.UrlRoundTrip`: number parsing without leading blanks, signs or overflow; missing parameters, on which the code dereferences a null pointer, give no peer. The parser of memory descriptors.
- `Registration.EverythingIsFreed`: for runs in which every registration meets the condition of `Registration.RegisterKeepsInvIff`.
- `Registration.LookupFindsCountedHandle`: for the same runs; the map is keyed by address rather than by its hash; queued work requests, request queues and segmented registration are not modelled.
- Target acknowledgements, work-request pools, cancelling, atomics, timeouts of waits, environment parsing, logging, XDR packing, the other transports, the dispatch layer, and calls into the network libraries.
