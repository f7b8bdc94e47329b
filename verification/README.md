# ODTONE in Dafny

A model of the protocol logic of ODTONE, an IEEE 802.21 Media Independent
Handover Function (MIHF), with its proofs. `dafny verify dfyconfig.toml` checks
everything.

## What is modelled

**The transaction layer** (sections 8.2.2 and 8.2.3 of IEEE Std 802.21-2008).
`TransactionSpec` gives the ack requestor, ack responder, source machine and
destination machine as functions, one per label of the original state machines.
`NodeSpec` adds the pools, the two dispatchers and the tick. `Transactions` and
`Mihf` are the same things as objects that update their fields in place, each
method proved equal to its function. `TransactionInvariants` and
`TransactionMessages` say what every step keeps of one transaction, `NodeSafety`
what every run keeps of a node, `Schedules` what happens exactly when, `Fates` how
every request and indication ends, `Sends` what a node has sent, `HandlerCalls` how
often the handler is called, `Provenance` and `TwoNodes` what two nodes can conclude
about each other over a network that loses, delays, reorders and duplicates,
`CrossTalk` what they cannot, `Exchanges` and `Multicast`
one exchange from end to end and the corners where the code does something else
than the acknowledgement service promises.

**Request demultiplexing**: `LocalPool` and `Forwarding`.
**Event subscriptions**: `EventService`.
**Link SAP failure detection**: `LinkBooks`.
**Discovery of points of service**: `Discovery`.
**Threshold reports of the 802.11 Link SAP**: `Thresholds`.
**The DNS user** (the NAPTR, SRV, address chain of section 2 of RFC 5679):
`QueryBooks` and `DnsUser`.
**The DHCP client's lease list**: `Leases`.
**The crash handler's allocator**: `CrashAlloc`.
**The intrusive list**: `ListNodes`.

## Choices

- The ordering of the transaction pools (`src/mihf/transaction.hpp:283-289`)
  answers true both ways round for different transactions, so it is no ordering.
  The pools are maps keyed by peer and transaction identifier, its evident intent;
  inserting under a taken key changes nothing.
- The message handler is a parameter of each step: the message it leaves behind
  and whether it asks for that to be sent. It does not touch the transaction that
  is running.
- Each delivery, submission or tick is one atomic step. Sends are recorded in
  histories. A pointer that is not set is a blank message.
- `src/mihf/transaction_pool.cpp:41-43` says a timer is decremented only while it
  is positive; the code at line 60 has no such test. The model follows the code and
  `NodeSafety.RunSafe` proves that the test would never matter.
- Unsigned counters wrap explicitly: 32 bits for the two countdowns and the
  retransmission counter, 16 bits for identifiers and the failure counter. The
  retransmission counter starts with an arbitrary value, as in the original.
- Event bitmaps are sets of bit positions, links and addresses are compared only.
- Masking with a power of two less one is rounding to the next multiple.

## Properties that do not hold

Each is given with a failing run or input, and with its exact condition where there
is one short of the run itself.

- A response can leave without its ack mark: `Schedules.LateResponseUnmarked`,
  condition in `Schedules.DuplicatesOverRuns`.
- A bare ack can complete a request when a local message reuses its identifier:
  `Exchanges.ResubmitTakesBareAck`, condition in `Exchanges.ResubmitCompletesIff`.
- A duplicate can call the handler again, and after every exchange that went well
  it does: `HandlerCalls.RepeatAfterExchange`. It does so exactly when no transaction
  is pooled under its key (`HandlerCalls.CalledIffNotPooled`), and a transaction is
  pooled from a request that is not answered at once for good (`HandlerCalls.Opens`)
  until the ack of its response (`HandlerCalls.AckUnpools`) or for exactly fifteen
  ticks (`HandlerCalls.PooledExactlyFifteenTicks`).
- A request can end in success though the peer never handled it:
  `CrossTalk.SuccessWithoutDelivery`. It cannot when the request is the only message
  of its kind sent under its identifier (`TwoNodes.OnlyRequestWasHandled`).
- A request that was answered can be followed by what its handler left behind, in
  place of a retransmission: exactly when, in `Fates.CompletedSendsOnce`.
- A multicast request is never completed: `Multicast.MulticastNeverSucceeds`.
- A forwarded request can take over another one's entry: condition in
  `LocalPool.RenumbersNewestIff`. So can a message that was never recorded:
  `LocalPool.UnrecordedLosesAnswer`, condition in `LocalPool.UnrecordedHarmlessIff`.
- A Link SAP can fail to report an event somebody is subscribed to:
  `EventService.AnswerOvertaken`, condition in `EventService.AlwaysCoveredIff`. It can
  report one nobody is subscribed to: `EventService.RemovalLost`, condition in
  `EventService.SuperfluousIff`.
- A detected link and the two handover events reach a user more than once if it is
  subscribed on several links: condition in `EventService.AnnouncedOnceIff`.
- A point of service offered with an address need not be queried, nor one without an
  address passed on: `Discovery.AddressesCanBeSkipped`, conditions in
  `Discovery.EveryAddressQueriedIff` and `Discovery.EveryBarePassedOnIff`.
- The chain of discovery mechanisms can go round for ever:
  `Discovery.ChainLoops`, condition in `Discovery.ChainEndsIff`.
- A Link SAP that never answers is never given up at the largest limit:
  `LinkBooks.LargestLimit`, condition in `LinkBooks.GivesUpIff`.
- The threshold check can loop on a parameter without a value: condition in
  `Thresholds.CheckEndsIff`; no configured list is such a list.
- A threshold on a signal in dBm compares unsigned numbers:
  `Thresholds.SignalOrderIff`.

## Model

| member | source | states |
|---|---|---|
| TransactionInvariants.SrcNewInv | src/mihf/src_transaction.cpp:52-83 | a new source transaction copies its header from the message, sends it once, handles nothing, and if it goes on satisfies the source invariant with 15 seconds left |
| TransactionInvariants.SrcDeliverKeeps | src/mihf/message_in.cpp:53-76 | any message routed to a source transaction keeps the invariant: linked countdowns, one transmission per retransmission count, a request in success only with an answer handled |
| TransactionInvariants.SrcResubmitKeeps | src/mihf/message_out.cpp:105-128 | submitting an outgoing message to a pooled source transaction keeps the invariant |
| TransactionInvariants.SrcTickStop | src/mihf/transaction_pool.cpp:60-66 | the transaction timer only changes state when it expires, and then the transaction is over or to be dropped |
| TransactionInvariants.SrcTickRetransmission | src/mihf/transaction_pool.cpp:68-74 | at the end of the retransmission timer the message leaves once more and the two countdowns are linked again, or the requestor gives up |
| TransactionInvariants.UnstartedTick | src/mihf/transaction_pool.cpp:68-74 | the countdown of a requestor that was never started wraps and stays within 15 of the top, so no tick acts on it |
| TransactionInvariants.SrcTickKeeps | src/mihf/transaction_pool.cpp:49-84 | a tick drops a source transaction or leaves it ongoing with the invariant; it hands nothing to the handler, acknowledges nothing, and sends at most one copy of the stored message |
| TransactionInvariants.DstNewInv | src/mihf/dst_transaction.cpp:51-74 | a new destination transaction gives its message to the handler once and is pooled exactly when it is answerable and not answered at once without asking for an ack |
| TransactionInvariants.DstDuplicateAnswered | src/mihf/dst_transaction.cpp:76-109 | with the responder on, a non-ack message causes exactly one send, the bare ack before a response exists and the stored response after, and changes nothing else |
| TransactionInvariants.DstAckEnds | src/mihf/dst_transaction.cpp:101-109 | an ack closes a transaction that has sent its response, in success, with nothing further sent |
| TransactionInvariants.DstDeliverKeeps | src/mihf/message_in.cpp:77-99 | any message routed to a destination transaction keeps its invariant or closes it, never handling again |
| TransactionInvariants.DstFirstResponse | src/mihf/dst_transaction.cpp:76-109 | the first response leaves exactly once and the transaction waits for its ack, even with an ack lying in the input slot |
| TransactionInvariants.DstRespondKeeps | src/mihf/message_out.cpp:81-104 | any response submitted to a destination transaction keeps its invariant or closes it, never handling again |
| TransactionInvariants.DstTickKeeps | src/mihf/transaction_pool.cpp:49-84 | a tick drops a destination transaction or keeps its invariant, sending at most one copy of an available response |
| Transactions.Transaction.AckRequestor | src/mihf/transaction.hpp:200-262 | the in-place requestor computes the requestor function and touches no other field |
| Transactions.Transaction.AckResponder | src/mihf/transaction.hpp:121-195 | the in-place responder computes the responder function and touches only its own fields and the message slots |
| Transactions.Transaction.SrcRun | src/mihf/src_transaction.cpp:40-147 | the in-place source machine computes the source function |
| Transactions.Transaction.DstRun | src/mihf/dst_transaction.cpp:40-126 | the in-place destination machine computes the destination function |
| Transactions.Transaction.SrcDeliver | src/mihf/message_in.cpp:59-70 | delivering to a source transaction runs requestor, responder and machine in that order, but not the machine for a bare request ack |
| Transactions.Transaction.SrcResubmit | src/mihf/message_out.cpp:111-121 | resubmitting runs requestor, responder and machine of a source transaction |
| Transactions.Transaction.DstDeliver | src/mihf/message_in.cpp:82-92 | delivering to a destination transaction runs requestor, machine and then the responder |
| Transactions.Transaction.DstRespond | src/mihf/message_out.cpp:88-98 | responding runs requestor, responder and machine of a destination transaction |
| Transactions.Transaction.Tick | src/mihf/transaction_pool.cpp:60-77 | one second of one transaction, and whether it is to be removed |
| Transactions.Transaction.constructor | src/mihf/transaction.cpp:30-51 | the initial field values |
| Mihf.Mihf.MessageIn | src/mihf/message_in.cpp:45-100 | the incoming dispatcher routes, steps, removes or creates as the node function says and keeps the node invariant |
| Mihf.Mihf.NewDst | src/mihf/message_in.cpp:107-118 | a new destination transaction is run once and pooled if it is ongoing |
| Mihf.Mihf.MessageOut | src/mihf/message_out.cpp:77-129 | the outgoing dispatcher asks for acks, routes, steps, removes or creates as the node function says, renumbers in the pending list exactly when it starts a source transaction, and keeps the node invariant |
| Mihf.Mihf.AllocateTid | src/mihf/message_out.cpp:53-55 | the next identifier in the cycle 1..65535 |
| Mihf.Mihf.NewSrc | src/mihf/message_out.cpp:49-68 | a new source transaction gets the next identifier, which is noted in the pending list, is run once and pooled if it is ongoing |
| Mihf.Mihf.Dec | src/mihf/transaction_pool.cpp:49-84 | a pool after one second: every transaction stepped once, the finished and expired ones gone |
| Mihf.Mihf.Tick | src/mihf/transaction_pool.cpp:89-101 | both pools after one second, keeping the node invariant |
| NodeSafety.ExecKeeps | src/mihf/transaction_pool.cpp:49-101 | every run from a state with the node invariant keeps it, and the clock counts the ticks |
| NodeSafety.RunSafe | src/mihf/transaction_pool.cpp:49-84 | after every run every pooled transaction has 1 to 15 seconds left and is younger than 15 ticks, none has sent its message more than three times, and a request ended in success only with an answer handled |
| NodeSafety.RunTimersLinked | src/mihf/transaction.hpp:218-247 | after every run a waiting requestor has a retransmission time of 1 to 5, stop time 5*(2 - retransmissions) + retransmission time, and has sent its message once plus once for every five ticks of its age; one never started has sent once and its countdown is 0 or near the top |
| NodeSafety.FifteenTicksDrain | src/mihf/transaction_pool.cpp:49-101 | after any run, any further run with fifteen ticks leaves nothing in either pool that was there before |
| NodeSafety.TidsRepeat | src/mihf/message_out.cpp:53-58 | over every run no identifier is 0 and two are equal exactly when a multiple of 65535 allocations lies between them |
| NodeSafety.LiveTidsDistinct | src/mihf/message_out.cpp:49-68 | if no 65536 source transactions start within fifteen ticks, two live ones never share an identifier, whatever their peers |
| Sends.SentExactly | src/mihf/transaction_pool.cpp:49-101 | after every run a message has been sent if and only if some transaction of the node, live or ended, has sent it |
| Fates.FateOverRuns | src/mihf/src_transaction.cpp:40-147 | from any node and over every run after it is sent, a unicast request or indication is waiting, or has ended in success or failure, as a reference function of the deliveries and submissions under its key and the ticks says |
| Fates.IndicationFate | src/mihf/src_transaction.cpp:83-95 | by that reference an indication is over after fifteen ticks and ends in success if and only if an ack was delivered before the fifteenth |
| Fates.RequestFate | src/mihf/src_transaction.cpp:97-131 | a request is over after fifteen ticks and ends in success if and only if before the fifteenth something other than a bare ack was delivered to it, or a local message under its key took up a bare ack |
| Fates.IndicationAcked | src/mihf/message_in.cpp:48-76 | an indication and its ack on any node: the ack reaches the waiting transaction, which alone ends, in success; nothing is handled or sent besides the indication |
| Fates.DoneOnceSent | src/mihf/src_transaction.cpp:68-81 | a multicast indication and a response without transaction leave once and end in success at once |
| Fates.DoneOnceReceived | src/mihf/dst_transaction.cpp:51-74 | an indication or stray response under a free key is handled and ends in success at once, with an ack exactly if one was asked for and the handler left nothing to send |
| Fates.CompletedSendsOnce | src/mihf/transaction_pool.cpp:68-77 | a request completed by an unmarked answer leaves at the next tick, and that tick sends what the handler left behind exactly at the end of a retransmission period |
| Schedules.RetransmissionSchedule | src/mihf/transaction.hpp:200-262 | an unanswered message leaves at the start and at ticks 5 and 10 exactly, and its transaction fails at tick 15 and not before |
| Schedules.FirstResponse | src/mihf/dst_transaction.cpp:89-99 | the first response leaves once, marked as an ack, is stored for repeats and starts the requestor |
| Schedules.LaterResponse | src/mihf/transaction.hpp:174-194 | a later response replaces the stored one only until that has been repeated |
| Schedules.DuplicatesOverRuns | src/mihf/transaction.hpp:121-195 | for every request whose transaction stays open, over every run of repeats, seconds and responses, the handler has run once, the responder has sent exactly what a reference account says, one message per repeat, and responses are marked exactly while no response came after a repeat of the stored one |
| Schedules.LateResponseUnmarked | src/mihf/transaction.hpp:187-194 | a run in which a response leaves without its ack mark |
| Provenance.StepProvenant | src/mihf/transaction.hpp:135-195 | every well-behaved step keeps: whatever a node sent that a source machine would act on is a bare request ack or answers a message that node handled |
| TwoNodes.PlayKeeps | src/mihf/message_in.cpp:45-100 | over every run of two nodes both invariants hold and each handles only what the other sent |
| TwoNodes.SuccessMeansAnswered | src/mihf/src_transaction.cpp:97-146 | over every run of two nodes a request in success was completed by a message of the peer that is no bare request ack, after the peer's handler was given a message this side sent under that identifier |
| TwoNodes.OnlyRequestWasHandled | src/mihf/src_transaction.cpp:97-146 | if no other message but responses and their acks was sent under its identifier, the peer's handler was given that very request and a response of the peer completed it |
| TwoNodes.SomeRunSucceeds | src/mihf/message_in.cpp:45-118 | for any request and response there is a legal run of two nodes that ends the request in success, in which that condition holds and the peer handled it |
| CrossTalk.HandledWereDelivered | src/mihf/message_in.cpp:45-118 | over every run of two nodes whatever a handler was given was delivered to its side by some move |
| CrossTalk.StrayAckAnswered | src/mihf/message_in.cpp:74-76 | an ack that finds no transaction opens one, and an answer submitted to that leaves without an ack mark |
| CrossTalk.StrayAnswerCompletes | src/mihf/src_transaction.cpp:112-131 | any unmarked response under its identifier ends a request in success |
| CrossTalk.SuccessWithoutDelivery | src/mihf/message_in.cpp:74-118 | a legal run of two nodes in which a request ends in success though the peer's handler was never given it |
| Exchanges.LosslessExchange | src/mihf/src_transaction.cpp:97-146 | request, ack, response with piggybacked ack, ack: each is routed to the waiting machine and both sides end in success having handled one message each |
| Exchanges.NodeExchange | src/mihf/message_in.cpp:45-118 | the same through the dispatchers of two nodes in any state, after which both pools are as before and the asking node has sent the request and the ack of the response, nothing else |
| Exchanges.ResubmitCompletesIff | src/mihf/message_out.cpp:110-121 | submitting under the identifier of a waiting request completes it exactly when a message lies in its input slot |
| Exchanges.ResubmitTakesBareAck | src/mihf/message_out.cpp:110-121 | after a bare ack such a submission ends the request in success with only the ack handled |
| HandlerCalls.RunCallsAreHandled | src/mihf/message_in.cpp:45-118 | over every run the messages a node has handled are exactly those in the sequence of its handler calls; a tick makes none |
| HandlerCalls.CalledIffNotPooled | src/mihf/message_in.cpp:77-99 | a message routed to the destination side calls the handler, once, if and only if no transaction is pooled under its key |
| HandlerCalls.Opens | src/mihf/message_in.cpp:107-118 | a request under a free key is pooled, for fifteen ticks, exactly when the handler answers later or asks for an ack of what it answers at once |
| HandlerCalls.PooledExactlyFifteenTicks | src/mihf/transaction_pool.cpp:49-84 | through every run without an ack for it a destination transaction stays pooled exactly until its ticks are over, whatever is repeated or responded |
| HandlerCalls.NoCallsWhilePooled | src/mihf/message_in.cpp:77-99 | until then no repeat calls the handler |
| HandlerCalls.AckUnpools | src/mihf/dst_transaction.cpp:101-109 | after the response was sent its ack removes the transaction, which ends in success |
| HandlerCalls.ExpiresHow | src/mihf/transaction_pool.cpp:60-77 | without an ack it ends in failure if no response was sent or one was at the start, and is otherwise dropped while ongoing |
| HandlerCalls.SecondCallIff | src/mihf/message_in.cpp:77-118 | after any run with nothing under its key a repeated request calls the handler again exactly when it was answered at once without asking for an ack, or fifteen ticks have passed |
| HandlerCalls.RepeatAfterExchange | src/mihf/message_in.cpp:77-118 | after a complete exchange the same request, delivered once more, calls the handler a second time |
| Exchanges.LateAckTakenForRequest | src/mihf/message_in.cpp:74-76 | a bare ack after the end of its transaction is handed to the handler as a request |
| Exchanges.LateResponseRenumbered | src/mihf/message_out.cpp:102-104 | a response after the end of its transaction goes out under a new identifier and completes the peer's pending request of that number |
| Multicast.MulticastNeverSucceeds | src/mihf/transaction_pool.cpp:154-165 | over every run without empty sender identifiers no multicast request is ever completed |
| Multicast.CollectsIff | src/mihf/src_transaction.cpp:112-131 | an answer that did reach a multicast request would be handled, and the request go on waiting, exactly while no earlier answer asked for an ack; later ones are acknowledged and dropped |
| Multicast.SucceedsIffAnswered | src/mihf/src_transaction.cpp:97-110 | at the end of its time such a request succeeds exactly when it has handled an answer |
| LocalPool.LocalTransactionPool.FindEntry | src/mihf/local_transaction_pool.cpp:107-117 | the first entry for that destination and travelling identifier |
| LocalPool.LocalTransactionPool.SetRemoteTid | src/mihf/local_transaction_pool.cpp:62-74 | only the first matching entry is renumbered |
| LocalPool.LocalTransactionPool.SetUserTid | src/mihf/local_transaction_pool.cpp:126-142 | the answer gets back user and identifier of the first matching entry, which is consumed; otherwise nothing changes |
| LocalPool.LocalTransactionPool.Del | src/mihf/local_transaction_pool.cpp:83-98 | removes the first matching entry if its user chose that identifier too |
| LocalPool.RenumbersNewestIff | src/mihf/message_out.cpp:57-58 | the new request alone is renumbered exactly when its identifier was not already travelling to that destination |
| LocalPool.UnrecordedHarmlessIff | src/mihf/message_out.cpp:57-58 | a message that was never recorded leaves the list alone exactly when no request travelling to its destination has its identifier |
| LocalPool.UnrecordedLosesAnswer | src/mihf/local_transaction_pool.cpp:62-74 | otherwise the answer to that request is no longer known |
| LocalPool.ExecRefines | src/mihf/local_transaction_pool.cpp:37-142 | over every interleaving of forwarded requests, other new source transactions and answers, with fresh identifiers, the list is the map of requests on the wire |
| LocalPool.AnswerReturns | src/mihf/local_transaction_pool.cpp:126-142 | then an answer is known exactly when its request is on the wire, goes to its user under the original identifier and consumes that one entry |
| LocalPool.FreshRoundTrip | src/mihf/local_transaction_pool.cpp:37-142 | forwarding and answering restores the list and the original addressing, for fresh identifiers |
| LocalPool.ForwardAnswerRoundTrip | src/mihf/utils.cpp:200-208 | the same after every such interleaving |
| Forwarding.RoundTrip | src/mihf/utils.cpp:200-208 | a forwarded request leaves under the identifier the list recorded, and an answer carrying it returns to the user as asked |
| Forwarding.NotesAllocation | src/mihf/message_out.cpp:49-68 | the list is renumbered exactly when the dispatcher allocates an identifier, and to that identifier |
| EventService.Service.Subscribe | src/mihf/event_service.cpp:111-135 | subscribing is union, new registrations appended, no duplicates |
| EventService.Service.Unsubscribe | src/mihf/event_service.cpp:469-493 | unsubscribing is difference, the rest in order |
| EventService.Service.LinkUnsubscribe | src/mihf/event_service.cpp:405-420 | the requested events no other user has on that link |
| EventService.Service.UnsubscribeRequest | src/mihf/event_service.cpp:503-532 | the events removed at the Link SAP are exactly the requested ones no remaining subscription on the link needs |
| EventService.Service.SubscribeRequest | src/mihf/event_service.cpp:146-257 | fails exactly for a link without Link SAP; otherwise is granted at once exactly when the requested events are those subscribed on the link, and else asks the Link SAP for them, changing nothing |
| EventService.Service.Forward | src/mihf/event_service.cpp:649-669 | an event is transmitted once to each subscribed user and to nobody else |
| EventService.Service.Announce | src/mihf/event_service.cpp:767-776 | an event looked up without its link is transmitted to each user once per link it is subscribed to it on |
| EventService.HistoryKeeps | src/mihf/event_service.cpp:111-493 | after every interleaving of requests, answers and cancellations, with Link SAPs that refuse or are not reached, the list is duplicate-free and equals the reference set, and a Link SAP reports an event exactly when the last thing it was told about it is to do so |
| EventService.AlwaysCoveredIff | src/mihf/event_service.cpp:330-392 | in a history every Link SAP reports at every moment every event somebody is subscribed to on its link, if and only if no answer is overtaken by a removal |
| EventService.AnswerOvertaken | src/mihf/event_service.cpp:330-392 | a history in which one is, and a subscribed event is not reported |
| EventService.SuperfluousIff | src/mihf/event_service.cpp:440-458 | after every history a Link SAP reports an event nobody is subscribed to exactly when an unanswered request or an unreached removal stranded it and nothing settled it since |
| EventService.ReportsExactlyIff | src/mihf/event_service.cpp:405-458 | with answers in time the needed events are among the reported ones, and are all of them if and only if none is stranded |
| EventService.RemovalLost | src/mihf/event_service.cpp:445-452 | a history with a stranded event: the Link SAP has failed too often to be told |
| EventService.EventReachesSubscribers | src/mihf/event_service.cpp:649-669 | after every history an event reaches each subscriber exactly once |
| EventService.AnnouncedOnceIff | src/mihf/event_service.cpp:845-854 | after every history an event looked up without its link reaches exactly the users subscribed to it, and one of them exactly once if and only if that is on one link |
| LinkBooks.LinkBook.SearchInterface | src/mihf/link_book.cpp:181-198 | finds the first active Link SAP of the interface in the order of identifiers, if there is one |
| LinkBooks.BeforeIff | src/mihf/link_book.cpp:186-195 | that order decides at the first difference: the smaller character, or the end |
| LinkBooks.LinkBook.Fail | src/mihf/link_book.cpp:206-218 | counts an attempt, with 16-bit wrap-around; unknown ones are an error |
| LinkBooks.LinkBook.Request | src/mihf/command_service.cpp:200-216 | a request is forwarded to an active Link SAP unless the limit is passed, in which case it becomes inactive |
| LinkBooks.AtMostLimit | src/mihf/command_service.cpp:403-425 | in every history a Link SAP is forwarded at most the limit between two answers, and its counter is that number while it is active |
| LinkBooks.GivesUpExactly | src/mihf/command_service.cpp:620-653 | the attempt after that many is not forwarded and makes it unfindable, and no earlier one does |
| LinkBooks.ComesBackOnlyByAnswering | src/mihf/link_book.cpp:225-237 | an inactive Link SAP stays so until it answers or registers |
| LinkBooks.GivesUpIff | src/mihf/event_service.cpp:229-236 | a silent Link SAP is given up eventually if and only if the limit is below 65535 |
| Discovery.DiscoverService.ScanOffers | src/mihf/discover_service.cpp:144-157 | one service list scanned with the memory of what was queried |
| Discovery.DiscoverService.Response | src/mihf/discover_service.cpp:88-239 | nothing if unsolicited and disabled; else a query for every PoS of the survey, and then, if the search failed or some list is not empty, that list goes to the mechanism after the first place of this one in the order, or is broadcast after the last |
| Discovery.FurtherFollowsChain | src/mihf/discover_service.cpp:214-238 | failed searches one after the other ask exactly the chain of mechanisms and then broadcast |
| Discovery.ResponseCovers | src/mihf/discover_service.cpp:139-187 | no PoS is queried twice, every PoS with an address has its identifier or address queried, every PoS without one is passed on in its own list unless its identifier was queried |
| Discovery.EveryAddressQueriedIff | src/mihf/discover_service.cpp:139-187 | every PoS offered with an address is queried if and only if no two different ones share identifier or address |
| Discovery.EveryBarePassedOnIff | src/mihf/discover_service.cpp:139-187 | every PoS without address is passed on, in its list and place, if no addressed one of its identifier comes before it, and only if when addressed ones are unambiguous |
| Discovery.AddressesCanBeSkipped | inc/odtone/mih/types/odtone.hpp:54-57 | the comparison of PoS is not transitive, and which of three are queried depends on their order |
| Discovery.ChainAdvances | src/mihf/discover_service.cpp:190-212 | without duplicates each mechanism is tried once in order, then a broadcast |
| Discovery.ChainLoops | src/mihf/discover_service.cpp:214-238 | with a duplicate the chain never ends |
| Discovery.ChainEndsIff | src/mihf/discover_service.cpp:214-238 | the chain ends if and only if no mechanism is configured twice, after exactly as many mechanisms as configured |
| Thresholds.SupportedHasValue | app/sap_80211/main.cpp:304-374 | every type that may be configured has a value, and exactly one further type does |
| Thresholds.LinkSap.EraseExcept | app/sap_80211/main.cpp:681-688 | erasing in place leaves the others in order |
| Thresholds.LinkSap.ConfigureItem | app/sap_80211/main.cpp:665-755 | the thresholds, the periodic reports and the statuses after one configuration item: a refusal, one confirmation for a cancelled type, one per threshold, none for a period |
| Thresholds.ConfiguredElements | app/sap_80211/main.cpp:677-755 | an item takes off exactly the thresholds it cancels, by type or by type, value and direction, and adds its own with the one-shot mark of its action |
| Thresholds.ScheduledElements | app/sap_80211/main.cpp:690-736 | an item ends the periodic reports of a type it cancels as a whole and adds the one it describes |
| Thresholds.LinkSap.Configure | app/sap_80211/main.cpp:653-764 | both lists after a request, all types supported, the check running exactly when there is something to check |
| Thresholds.ConfigureDivides | app/sap_80211/main.cpp:653-755 | a request does to both lists, and answers, what its items do one after the other, however it is divided |
| Thresholds.CancelEndsType | app/sap_80211/main.cpp:677-703 | cancelling without thresholds ends all crossings and periodic reports of that type and none of another |
| Thresholds.CrossedMeans | app/sap_80211/main.cpp:326-412 | which reading crosses a threshold, type by type and direction by direction, a negative dBm value counting as 65536 less |
| Thresholds.LinkSap.Check | app/sap_80211/main.cpp:377-436 | the check ends; subscribed, it reports exactly the crossed thresholds in order and removes the one-shot ones among them, otherwise it does nothing |
| Thresholds.ArmedUntilEnded | app/sap_80211/main.cpp:392-427 | over every history a threshold stays on the list exactly until it is cancelled or, if one-shot, crossed in a subscribed check |
| Thresholds.OneShotReportedOnce | app/sap_80211/main.cpp:413-426 | over every history a one-shot threshold is reported at most once per insertion and the list keeps its order |
| Thresholds.CheckEndsIff | app/sap_80211/main.cpp:392-427 | the check of a list ends if and only if every threshold on it has a value |
| Thresholds.CheckEndsOverHistories | app/sap_80211/main.cpp:392-427 | after every history of configurations and checks it ends |
| QueryBooks.AnswerWrites | app/dns_usr/query_book.cpp:34-51 | an answer overwrites target, port and each address exactly if it has one, and leaves everything else |
| QueryBooks.SameNameIff | app/dns_usr/query_book.cpp:59-84 | two names are taken for the same exactly when they are equal up to the case of their letters |
| QueryBooks.QueryBook.SetSrvResults | app/dns_usr/query_book.cpp:73-84 | every entry of that replacement name is updated and no other |
| QueryBooks.QueryBook.SetTargetResults | app/dns_usr/query_book.cpp:91-101 | every entry of that target is updated and no other |
| QueryBooks.QueryBook.Del | app/dns_usr/query_book.cpp:108-112 | all entries of the domain go |
| QueryBooks.WithoutEntries | app/dns_usr/query_book.cpp:108-112 | and those of every other domain stay as they were |
| QueryBooks.EntriesAppend | app/dns_usr/query_book.cpp:59-66 | the entries of a domain come in the order they were added |
| QueryBooks.QueryBook.GetFinishedQueries | app/dns_usr/query_book.cpp:133-168 | precisely the finished domains, each with all its entries in order |
| QueryBooks.FinishedMapMeans | app/dns_usr/query_book.cpp:133-168 | finished means at least one entry and none unresolved |
| QueryBooks.RewriteResolves | app/dns_usr/query_book.cpp:34-51 | an update never makes a resolved entry unresolved, and resolves an entry exactly when it reaches it with an address |
| QueryBooks.FinishedStays | app/dns_usr/query_book.cpp:73-101 | a finished domain stays finished |
| QueryBooks.ResolutionChain | app/dns_usr/query_book.cpp:59-101 | a replacement, its SRV answer in any letter case and its address answer finish a domain with exactly their contents |
| DnsUser.DnsUser.Trigger | app/dns_usr/dns_usr.cpp:142-178 | a request lists each named domain once, in the order they are first named, or the default domain |
| DnsUser.DnsUser.EraseRequest | app/dns_usr/dns_usr.cpp:464-479 | exactly those domains are forgotten that no pending request lists |
| DnsUser.OfferedPicks | app/dns_usr/dns_usr.cpp:399-425 | the three lists show, in order, exactly the entries whose fifth letter is i, c and e: target, IPv4 address or else IPv6 address, port |
| DnsUser.EveryEntryListedOnce | app/dns_usr/dns_usr.cpp:412-425 | with known letters every entry is in exactly one of them |
| DnsUser.FlattenAppend | app/dns_usr/dns_usr.cpp:389-399 | the entries of several domains are those of each in turn |
| DnsUser.DnsUser.Gather | app/dns_usr/dns_usr.cpp:389-432 | what the results say about one request, sorted into those lists |
| DnsUser.DnsUser.ForwardResults | app/dns_usr/dns_usr.cpp:379-456 | a pass answers a request exactly when all its domains are finished, in ascending order, each reply listing the entries of its domains by letter, and by its end has forgotten exactly the domains of answered requests that no pending one lists |
| DnsUser.DnsUser.CheckResults | app/dns_usr/dns_usr.cpp:296-301 | after a DNS answer a request is answered exactly when the book has every one of its domains finished, and what pending requests want keeps its entries |
| DnsUser.PassKeepsWanted | app/dns_usr/dns_usr.cpp:464-479 | after a pass a domain still wanted has all its entries |
| Leases.ClientState.ParseLeaseStatement | app/dhcp_usr/client/clparse.c:1064-1117 | the lease list and the active lease after one dynamic statement |
| Leases.RecordedExactly | app/dhcp_usr/client/clparse.c:1064-1117 | after every lease file the active lease is the last one and the recorded ones are exactly those not expired when superseded and not leased again, latest first |
| Leases.AddressesDistinct | app/dhcp_usr/client/clparse.c:1064-1117 | no address is remembered twice |
| CrashAlloc.AllocKeeps | lib/odtone/debug_linux.cpp:362-386 | every allocation keeps blocks aligned, mapped and disjoint and the bump pointer at or below the end of its region |
| CrashAlloc.BlocksSafe | lib/odtone/debug_linux.cpp:362-386 | every sequence of positive requests gets aligned, mapped, pairwise disjoint blocks of the sizes asked |
| CrashAlloc.MapSizeLeast | lib/odtone/debug_linux.cpp:362-386 | a new region is the smallest number of whole pages that holds the request |
| CrashAlloc.Allocator.CrashAlloc | lib/odtone/debug_linux.cpp:362-386 | the in-place allocator returns the new block, maps memory only when the free area is too small, moves on by the request rounded to words, and keeps the invariant |
| ListNodes.ListNode.PushFront | inc/odtone/list_node.hpp:46-52 | the node becomes the first of the list |
| ListNodes.ListNode.PushBack | inc/odtone/list_node.hpp:59-65 | the node becomes the last of the list |
| ListNodes.ListNode.PopFront | inc/odtone/list_node.hpp:72-77 | the first node is taken out, or the head returned from an empty list |
| ListNodes.ListNode.PopBack | inc/odtone/list_node.hpp:84-89 | the last node is taken out, or the head returned from an empty list |
| ListNodes.ListNode.Remove | inc/odtone/list_node.hpp:163-167 | that node is taken out and the others stay in order |
| ListNodes.ListNode.Empty | inc/odtone/list_node.hpp:175-178 | true exactly for the empty list |
| ListNodes.ListDetermined | inc/odtone/list_node.hpp:180-182 | the links around a head determine the whole sequence |

## Left out

- Sockets, timers, threads, mutexes, frame and TLV encoding, address selection in the network SAP, configuration, logging and `main` functions.
- Transactions.Transaction.SrcHandle: the stored duplicate is a copy; that the original shares it with the outgoing message, which the handler may write to, is not modelled.
- Mihf.Mihf.MessageIn: the pools hold transaction values and each step works on one transaction object, so that a caller could keep a pointer to a pooled transaction is not modelled.
- TwoNodes.SuccessMeansAnswered: assumes handlers answer to whoever asked under the same identifier, local messages carry no ack mark, a response names a pooled transaction and a request names none; `Exchanges` shows what happens otherwise. That the handled message is the request itself is not stated, because it can fail: `CrossTalk.SuccessWithoutDelivery`.
- Schedules.RetransmissionSchedule: follows one transaction under ticks alone; within a run of a node the timetable is `NodeSafety.RunTimersLinked`.
- Forwarding.RoundTrip: the local branch of the transmit module, which hands a request to a Link SAP without renumbering, is only in `LocalPool`.
- The handlers `link_conf_request` and `l3_conf_request`, which forward in both branches, and the aggregation of local capabilities.
- Discovery.DiscoverService.Response: the capabilities that are put into a query and the identifiers of the requests are not modelled.
- Thresholds.LinkSap.ConfigureItem: the timers of periodic reports and what they send are not modelled.
- EventService.Service.SubscribeRequest: giving up on the Link SAP that would be asked is in `LinkBooks`, the timer for a failure answer is left out.
- Thresholds.LinkSap.Check: an exception from the driver in the middle of a check is not modelled.
- QueryBooks.QueryBook.Add: the book is kept in order of insertion; the original sorts by domain, which only changes the order between domains.
- DnsUser.DnsUser.ForwardResults: a name with an unknown service letter ends the pass early; then only the safe half of the contract is stated.
- Leases.ClientState.ParseLeaseStatement: static and alias leases and the lexer.
- CrashAlloc.Allocator.CrashAlloc: failure to map memory and sizes near the top of the address range.
- The Link SAP for 802.3, which repeats the threshold logic, and `list_node::swap` and `list_node::reverse`, which break the circle.
