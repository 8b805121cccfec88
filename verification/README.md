# Reliable transactions and the GTPv2-C codec, verified

This project models two connected parts of a 4G user-plane and control-plane gateway (S-GW and P-GW)
and proves properties of them.

**Transactions.** The GTPv2-C stack (section 7.6 of 3GPP TS 29.274) and the PFCP stack (section 6.4 of
3GPP TS 29.244) send requests, repeat them until an answer comes, and report a peer that stays silent.
Both keep four maps and a counter. `Transactions.dfy` says on values what one call does to them, for both
stacks at once; the classes in `Gtpv2cStack.dfy` and `PfcpStack.dfy` do the same in place and are proved
against it. The results quantify over all runs: any messages from the peer, any calls, any expiries.
`TransactionProgress.dfy` says what is sent and reported, `RequestFates.dfy` which steps lose a request.
`TimedTransactions.dfy` adds a clock; `TimedFates.dfy` and `StaleTimers.dfy` say what timely handling of
expiries does for requests, and what it does not. `Timers.dfy` is the timer service below, as critical
sections that interleave in any way, and `TimerManager.dfy` the object.

**Codec.** Elements, grouped elements, headers and messages are written and read back. `Elements.dfy`,
`ElementLoading.dfy` and `Messages.dfy` say on values what is written and what is read, with every loader
the factory calls; `LeafIo.dfy`, `ElementIo.dfy`, `MessageObject.dfy`, `SessionObject.dfy` and `QosObject.dfy`
hold the loops and the objects, proved against them. On top stand the values the rest of the system works
with (`CoreTypes.dfy`) and the whole way of a Create Session Request (`CreateSession.dfy` and following).
`WireFormats.dfy` and `CreateSessionFields.dfy` fix the octets, types and instances in numbers.
`WireNumbers.dfy` joins the two parts.

`dafny verify dfyconfig.toml` checks everything.

## Assumptions

- The timer service hands out ids that are fresh and not 0, and transaction ids are fresh
  (`Transactions.Allowed`). Results that need more say so in `requires`: `NoReuse` (no procedure is started
  under a number that a pending procedure or a retry timer still refers to), `Timely` (expiries are handled
  at most a given time late), `NoStaleCleanupRun` (nothing is started under the number of a cleanup timer
  that can still expire), `NoWrongCloseRun` (no transaction is closed whose number another waiting request
  holds). Each of these is a condition on the state before a call, and where it fails is stated too.
- An expiry may be handled after its timer was stopped: it can be in a queue by then. In the untimed results
  any id may expire at any time.
- A Create Session Request is sent with values in the widths of their fields; protocol configuration
  containers are as long as they say, and no IMSI, MEI, MSISDN or access point name is empty
  (`CreateSession.RequestOk`). Which of these values come back unchanged is proved, not assumed.

## What the code does that one might not expect

- Stopping a cleanup timer leaves its entry in the map, and a cleanup expiry does not compare timer ids. An
  ended transaction's timer can therefore erase a new request under the same number, with no report.
  `StaleTimers.StaleCleanupExactly` says exactly when.
- Expiries do not erase the transaction id of a procedure. A user who closes a transaction whose procedure is
  gone erases whatever request holds its number now, with no report, and sends a response under it.
  `RequestFates.LostExactly` says exactly when, and `TimedFates.WrongCloseLosesRequest` is such a run.
- With early reuse of a number the stack can look for a message to send again where there is none
  (`TransactionLimits.NullRetryMessageExactly`).
- The stacks pass the milliseconds of a delay beyond whole seconds as microseconds (gtpv2c.cpp:204, 238).
  With delays of whole seconds this changes nothing; `TimedTransactions.DelayMicros` follows the code.
- PFCP accepts a late answer after it has reported the peer; GTPv2-C does not
  (`TransactionLimits.ExclusiveExactlyInGtpv2c`).
- A bearer request that its peer repeats is taken for its own answer; from then on its real answer is accepted
  as often as it comes (`TransactionLimits.AnsweredOnceExactly`).
- Any bearer request that arrives under the number of a waiting GTPv2-C request is taken for its answer: the
  retry timer stops, and the answer that comes later is discarded (`TransactionLimits.GenuineAnswerExactly`,
  `TransactionLimits.PreemptedExactlyInGtpv2c`). Where a request is called answered below, it may be so.
- Two timers with the same deadline count as one; the second to come is lost
  (`TimerLimits.TwinLosesExactly`). A timer can be signalled before an earlier one that was set up while the
  manager held it (`TimerLimits.OvertakenExactly`).
- Dumping an FQ-CSID exchanges the octets of its CSIDs in the object. A stack keeps the object and dumps it
  again to repeat the request, so the first repetition differs (`Retransmission.RetransmissionsIdentical`).
- Operator < on F-SEIDs falls through to the IPv6 part when only the second key has an IPv4 address
  (`Fseids.LessIs`).
- A cause of value 69 announces six octets and writes five (`ElementRoundTrip.CauseInSync`); user location
  information announces wrong lengths with an RAI, or with only one of the LAI and the macro eNodeB id
  (`CoreTheorems.MadeLength`), but is read back nevertheless, since its loader goes by the flags.
- Of a macro eNodeB id only 16 bits are written (`CoreTheorems.LocationBackSame`).

## Model

| member | source | states |
|---|---|---|
| `TransactionTheorems.ExclusiveOutcomes` | src/gtpv2c/gtpv2c.cpp:297-305 | In every run without early reuse, no transaction has an accepted answer followed by a report that the peer does not respond, and none has two reports; with GTPv2-C no answer is accepted after a report either |
| `TransactionTheorems.NoRetransmissionAfterOutcome` | src/gtpv2c/gtpv2c.cpp:637-657 | In every run without early reuse, a request is never sent again after its answer was accepted or its failure was reported, even if an expiry was already on its way |
| `TransactionTheorems.AfterTheReport` | src/pfcp/pfcp.cpp:695-709 | Every procedure that outlives its report, in any run without early reuse, belongs to PFCP, has no retry timer running, and accepts its answer late if and only if no answer was accepted before; GTPv2-C erases it with the report |
| `TransactionLimits.PfcpReportsAndAccepts` | src/pfcp/pfcp.cpp:193-206 | A run of PFCP without early reuse that reports the peer and then accepts its answer |
| `TransactionLimits.ExclusiveExactlyInGtpv2c` | src/gtpv2c/gtpv2c.cpp:650-657 | That no run without early reuse has both an acceptance and a report for one transaction is true of GTPv2-C and false of PFCP |
| `TransactionTheorems.RetransmissionBound` | src/gtpv2c/gtpv2c.cpp:637-657 | A request is sent at most 1 + N times in any run, with the same message to the same peer each time, and no retry count exceeds N |
| `TransactionProgress.SentForEachAttempt` | src/gtpv2c/gtpv2c.cpp:637-657 | In every run each pending request has been sent exactly once more often than it was retried, and what was sent and then reported was sent exactly four times |
| `TransactionProgress.SentAndReportedAsAsked` | src/gtpv2c/gtpv2c.cpp:340-365 | In every run without early reuse whatever goes out for a transaction, first or again, has the type, contents and destination that its call gave; a report names the destination and the local TEID of that call and comes after four attempts |
| `TransactionProgress.EveryCallSends` | src/pfcp/pfcp.cpp:363-387 | Every call that sends a request puts it on the wire |
| `TransactionProgress.ResponsesGoOutExactly` | src/gtpv2c/gtpv2c.cpp:469-486 | In every run a response goes out, with its type and to its destination, if and only if its id was opened and no response has deleted it |
| `TransactionProgress.ReceivedIsTold` | src/gtpv2c/gtpv2c.cpp:259-312 | What the user is told last of a received message: opened, accepted or discarded, with its number, type and transaction |
| `TransactionProgress.HandledExactly` | src/gtpv2c/gtpv2c.cpp:629-673 | An expiry is reported as handled if and only if it changes the state of the stack |
| `TransactionTheorems.AtMostOneAnswer` | src/gtpv2c/gtpv2c.cpp:144-200 | In any run at most one message of type request + 1 is accepted for a transaction, unless it is one of the three bearer requests |
| `TransactionTheorems.BearerRequestAnsweredTwice` | src/gtpv2c/gtpv2c.cpp:144-200 | For each of the types 95, 97 and 99 a run in which the peer's transaction accepts the answer twice: the exception above is needed |
| `TransactionLimits.AnsweredOnceExactly` | src/gtpv2c/gtpv2c.cpp:144-200 | For every stack and request type: no run accepts the answer twice under one transaction if and only if it is not a GTPv2-C bearer request |
| `TransactionLimits.FirstAcceptedExactly` | src/gtpv2c/gtpv2c.cpp:190-199 | A request without an answer accepts exactly the type that answers it and, in GTPv2-C, any of 95, 97 and 99 under its number |
| `TransactionLimits.GenuineAnswerExactly` | src/gtpv2c/gtpv2c.cpp:297-305 | In any run the answer of a pending request is accepted if and only if nothing was accepted for it before; otherwise it is discarded without any change |
| `TransactionLimits.BearerRequestPreempts` | src/gtpv2c/gtpv2c.cpp:190-199 | A run of GTPv2-C in which a peer's bearer request is taken for the answer of a request that was not answered |
| `TransactionLimits.PreemptedExactlyInGtpv2c` | src/pfcp/pfcp.cpp:93-113 | That nothing but its answer is ever accepted first for a request is true of PFCP and false of GTPv2-C |
| `TransactionTheorems.RepeatedRequestDiscarded` | src/gtpv2c/gtpv2c.cpp:285-310 | A repeated request is discarded without any change while its transaction is pending, if and only if it is not a GTPv2-C bearer request |
| `TransactionTheorems.IndexAgreement` | src/gtpv2c/gtpv2c.cpp:275-278 | In every reachable state a pending procedure's transaction id maps back to its own sequence number, and pending procedures have distinct ids |
| `TransactionTheorems.ResponsesFollowTheirRequest` | src/gtpv2c/gtpv2c.cpp:469-486 | Every response goes out under the sequence number that its transaction was opened with; after the response that deletes an id nothing is sent, sent again, opened, accepted or reported under it |
| `TransactionTheorems.NoImmortalProcedure` | src/gtpv2c/gtpv2c.cpp:660-669 | Every pending procedure has a cleanup timer that is in the map, maps back to it, was never removed from the timer service, and erases the procedure when it expires |
| `TransactionTheorems.NoNullRetryMessage` | src/gtpv2c/gtpv2c.cpp:641-648 | Without early reuse a retry timer never leads to a procedure that has no message to send again |
| `TransactionLimits.NullRetryMessageExactly` | src/gtpv2c/gtpv2c.cpp:641-648 | After any run without early reuse, one more step makes such an expiry possible if and only if it opens a peer's request under a number that a retry timer refers to, or sends a request under the number of a peer's pending transaction |
| `TransactionLimits.NullRetryMessageWithReuse` | src/gtpv2c/gtpv2c.cpp:641-648 | A run with early reuse in which the stack would dump a message it does not have |
| `TransactionInvariants.BaseInvKept` | src/gtpv2c/gtpv2c.cpp:202-257 | Every step of either stack keeps the four maps in agreement: retry and cleanup ids stay disjoint, the index matches the pending procedures, and each of those has a live cleanup timer although stopping a cleanup timer erases from the other map |
| `TransactionOrder.InvKept` | src/gtpv2c/gtpv2c.cpp:259-312 | Every step also keeps what the log records: accepted answers fix what else is accepted, requests are repeated unchanged, responses respect closing |
| `TransactionOutcomes.OutcomeInvKept` | src/gtpv2c/gtpv2c.cpp:629-673 | Without early reuse every step keeps answered, reported and running requests apart |
| `TransactionTermination.ExpiryUsesBudget` | src/gtpv2c/gtpv2c.cpp:629-673 | Every handled expiry lowers retry timers + cleanup timers + attempts left, summed over the pending procedures, for both stacks |
| `TransactionTermination.Quiesces` | src/pfcp/pfcp.cpp:687-725 | From any reachable state, with no new traffic, at most that many expiries are ever handled |
| `TransactionTermination.PendingMeansTimer` | src/gtpv2c/gtpv2c.cpp:236-247 | A stack with no cleanup timer left has nothing pending |
| `TimedTheorems.LatenessBound` | src/gtpv2c/gtpv2c.cpp:638-669 | In every run without early reuse in which expiries are handled at most a given time late, a procedure's own cleanup timer never comes before its running retry timer, if and only if that time is below 250 ms |
| `TimedTheorems.SmallLatenessSuffices` | src/gtpv2c/gtpv2c.cpp:331-332 | The step behind one half of it: below the bound no expiry that is handled in time is a cleanup overtaking a retry |
| `TimedTheorems.LargeLatenessFails` | src/gtpv2c/gtpv2c.cpp:638-669 | The other half: at the bound or above, a run and an expiry that drop an unanswered request silently |
| `RequestFates.LostExactly` | src/gtpv2c/gtpv2c.cpp:469-486 | A step makes a pending request disappear with no answer, no report and no close of its own transaction if and only if it closes another transaction whose id still stands for the number, while the request waits, or is a cleanup expiry for the number of a waiting request |
| `RequestFates.NeverLostExactly` | src/gtpv2c/gtpv2c.cpp:629-673 | Over any run without early reuse: at every moment each request sent so far is answered, reported, closed under its own id or pending, if and only if no step of the run is such a close or such an expiry |
| `TimedFates.LostExactlyByWrongClose` | src/gtpv2c/gtpv2c.cpp:480-486 | Below the lateness bound and with nothing started under an outstanding cleanup timer, no request of a run is ever lost if and only if the run closes no transaction whose number another waiting request holds |
| `TimedFates.EveryRequestIsSettled` | src/gtpv2c/gtpv2c.cpp:629-673 | Then every request ever sent is answered, reported, closed under its own id, or still pending and younger than the procedure time-out plus the lateness |
| `TimedFates.WrongCloseLosesRequest` | src/gtpv2c/gtpv2c.cpp:656-669 | At every lateness, 0 included, a run that loses a request by such a close: the id is still there because expiries do not erase it |
| `StaleTimers.StaleCleanupExactly` | src/gtpv2c/gtpv2c.cpp:662-669 | After any timely run in which nothing was started under an outstanding cleanup timer, at any lateness: the request sent next has a timely future in which another procedure's cleanup timer erases it while it waits, if and only if a cleanup timer for its number is outstanding |
| `StaleTimers.DoomedIsHit` | src/gtpv2c/gtpv2c.cpp:660-669 | How it comes about: handling whatever is due before, the earliest first, always leads to the stale expiry while the request waits |
| `StaleTimers.StaleSoonKept` | src/gtpv2c/gtpv2c.cpp:255 | Why it is in time: every step keeps that a cleanup timer without its procedure is due within one response time |
| `StaleTimers.StaleCleanupDropsRequest` | src/gtpv2c/gtpv2c.cpp:662-669 | An example at lateness 0: the cleanup timer of a closed transaction erases a new request under the same number, with nothing reported |
| `TimedTransactions.StartedAsAsked` | src/gtpv2c/gtpv2c.cpp:202-213 | The timers that start in the timed model are exactly those that a step asks the timer service for, due after exactly the delay that it asks for |
| `TimedTransactions.RemovedAsAsked` | src/gtpv2c/gtpv2c.cpp:215-257 | The timers that are removed are exactly those that a step asks to remove |
| `TimedTransactions.DelaysAskedFor` | src/gtpv2c/gtpv2c.hpp:95-97 | A request asks for 1000 ms until its first retry and 5000 ms until its cleanup, each retry for 1000 ms, and a peer's request for 5000 ms |
| `TimedTransactions.TimedInvKept` | src/gtpv2c/gtpv2c.cpp:202-247 | Every step and every passing of time keeps each procedure on schedule: its cleanup timer due exactly one procedure time-out after it was opened, its retry timer never early, and late by at most the lateness per attempt |
| `TimedTransactions.CleanupMatchInvKept` | src/gtpv2c/gtpv2c.cpp:660-669 | Every step keeps that a cleanup timer which can still expire finds its own procedure or none |
| `SequenceNumbers.CounterAfter` | src/gtpv2c/gtpv2c.cpp:78-85 | After any calls the 31-bit counter is its start plus the number of requests sent, modulo 2^31 |
| `SequenceNumbers.RefinesModularCounter` | src/gtpv2c/gtpv2c.cpp:78-85 | After any calls the next sequence number is what a counter modulo 2^24 gives, through the reset at 2^31 and the cut to 24 bits |
| `SequenceNumbers.NumbersRepeatAfter` | src/gtpv2c/gtpv2c.cpp:78-85 | Two requests get the same number if and only if a multiple of 2^24 requests lies between them |
| `SequenceNumbers.SentUnderNumber` | src/gtpv2c/gtpv2c.cpp:315-338 | The request that a call puts on the wire carries that number |
| `WireNumbers.KeyIsRead` | src/gtpv2c/3gpp_29.274.hpp:296-322 | The peer reads from the header the key that the sender's procedure is filed under, whatever else the message holds |
| `WireNumbers.NumbersReadRepeat` | src/gtpv2c/3gpp_29.274.hpp:276-278 | Two requests are read by the peer under the same number if and only if a multiple of 2^24 requests lies between them |
| `MessageTypes.TypesInNumbers` | src/gtpv2c/gtpv2c.cpp:97-200 | Exactly which types open a transaction, answer one, and can be sent, by number, in both stacks |
| `MessageTypes.AnswersOnce` | src/gtpv2c/gtpv2c.cpp:144-200 | Once an answer was accepted, the answer to the request itself is not accepted in its place, bearer requests excepted |
| `MessageTypes.RequestIsNoAnswer` | src/gtpv2c/gtpv2c.cpp:144-200 | A request is taken for an answer to itself only if it is a GTPv2-C bearer request |
| `Gtpv2cStacks.Gtpv2cStack.constructor` | src/gtpv2c/gtpv2c.cpp:56-76 | A new stack is empty and its counter is the clock's nanoseconds without the top bit |
| `Gtpv2cStacks.Gtpv2cStack.GetNextSeqNum` | src/gtpv2c/gtpv2c.cpp:78-85 | The counter advances by one and is reset where the top bit would come up |
| `Gtpv2cStacks.Gtpv2cStack.StartMsgRetryTimer` | src/gtpv2c/gtpv2c.cpp:202-213 | Starts and files the timer only if the procedure has none running |
| `Gtpv2cStacks.Gtpv2cStack.StopMsgRetryTimer` | src/gtpv2c/gtpv2c.cpp:215-225 | Removes the timer from the service and from the map and clears it, if there is one |
| `Gtpv2cStacks.Gtpv2cStack.StartProcCleanupTimer` | src/gtpv2c/gtpv2c.cpp:236-247 | Starts and files the cleanup timer only if the procedure has none running |
| `Gtpv2cStacks.Gtpv2cStack.StopProcCleanupTimer` | src/gtpv2c/gtpv2c.cpp:249-257 | Removes the timer from the service but erases its id from the map of the retry timers |
| `Gtpv2cStacks.Gtpv2cStack.HandleReceiveMessage` | src/gtpv2c/gtpv2c.cpp:259-312 | The object does the receiving step of the transaction layer, and its two results say what was logged |
| `Gtpv2cStacks.Gtpv2cStack.SendInitialMessage` | src/gtpv2c/gtpv2c.cpp:340-365 | The object does the step that opens a request, and returns its number |
| `Gtpv2cStacks.Gtpv2cStack.SendTriggeredMessage` | src/gtpv2c/gtpv2c.cpp:493-518 | The object does the step that sends a response and, if asked, closes the transaction |
| `Gtpv2cStacks.Gtpv2cStack.TimeOutEvent` | src/gtpv2c/gtpv2c.cpp:629-673 | The object does the expiry step: retry, report and erase, or clean up; it says whether the id was known |
| `PfcpStacks.PfcpStack.constructor` | src/pfcp/pfcp.cpp:39-56 | A new stack is empty and its counter is the clock's nanoseconds without the top bit |
| `PfcpStacks.PfcpStack.GetNextSeqNum` | src/pfcp/pfcp.cpp:58-64 | The counter advances by one and is reset where the top bit would come up |
| `PfcpStacks.PfcpStack.StartMsgRetryTimer` | src/pfcp/pfcp.cpp:116-121 | Starts and files the timer whether or not one is running |
| `PfcpStacks.PfcpStack.StopMsgRetryTimer` | src/pfcp/pfcp.cpp:123-131 | Removes the timer from the service and from the map and clears it, if there is one |
| `PfcpStacks.PfcpStack.StartProcCleanupTimer` | src/pfcp/pfcp.cpp:140-145 | Starts and files the cleanup timer whether or not one is running |
| `PfcpStacks.PfcpStack.StopProcCleanupTimer` | src/pfcp/pfcp.cpp:147-153 | Removes the timer from the service but erases its id from the map of the retry timers |
| `PfcpStacks.PfcpStack.HandleReceiveMessage` | src/pfcp/pfcp.cpp:155-208 | The object does the receiving step of the transaction layer with the PFCP tables |
| `PfcpStacks.PfcpStack.SendRequest` | src/pfcp/pfcp.cpp:363-387 | The object does the step that opens a request, and returns its number |
| `PfcpStacks.PfcpStack.SendResponse` | src/pfcp/pfcp.cpp:573-598 | The object does the step that sends a response and, if asked, closes the transaction |
| `PfcpStacks.PfcpStack.TimeOutEvent` | src/pfcp/pfcp.cpp:687-725 | The object does the expiry step: retry, report and keep, or clean up |
| `TimerTheorems.ExactlyOnePlace` | src/itti/itti.cpp:52-117 | In every interleaving each timer that was set up is in exactly one place: waiting, held by the manager, signalled, removed, or dropped for an equal deadline |
| `TimerTheorems.SignalledOnceInTime` | src/itti/itti.cpp:72-94 | In every interleaving a timer is signalled at most once, and never before its deadline |
| `TimerTheorems.NoSignalAfterRemove` | src/itti/itti.cpp:363-386 | In every interleaving a timer that was set up and then removed is not signalled afterwards |
| `TimerTheorems.TakesEarliest` | src/itti/itti.cpp:58-69 | Each take moves the waiting timer with the smallest deadline, and that one alone, to the manager |
| `TimerTheorems.OnlyNewcomersAreOvertaken` | src/itti/itti.cpp:72-117 | A timer is signalled while one with an earlier deadline waits only if the latter was set up since the last take |
| `TimerTheorems.HeldIsSignalledInTime` | src/itti/itti.cpp:72-117 | A held timer that is due is signalled in the next two steps of the manager; another is waited for until exactly its deadline |
| `TimerTheorems.NewcomerOvertaken` | src/itti/itti.cpp:76-88 | A run in which that happens: the wake-up comes before the manager waits |
| `TimerLimits.OvertakenExactly` | src/itti/itti.cpp:72-117 | From every reachable state, a timer that is set up can be overtaken by a later one if and only if the manager holds a later one that it has not been woken from, and its deadline is not taken |
| `TimerTheorems.NoneLostWithDistinctDeadlines` | src/itti/itti.hpp:75-80 | If no two timers ever set up share a deadline, none is dropped |
| `TimerTheorems.EqualDeadlineLosesTimer` | src/itti/itti.hpp:75-80 | From every reachable state, a timer set up with the deadline of a waiting one is never signalled, whatever follows |
| `TimerLimits.NoneLostWithoutTwins` | src/itti/itti.hpp:75-80 | No timer is lost in any run in which none is set up with the deadline of one that waits, or is held and may be put back |
| `TimerLimits.TwinLosesExactly` | src/itti/itti.cpp:96-109 | After any such run, the next timer set up can cost a timer if and only if it has such a twin: itself if the twin waits, the twin if that is held |
| `TimerInvariants.InvKept` | src/itti/itti.cpp:42-120 | Every critical section keeps the invariants of the timer service, in any order |
| `TimerManagers.First` | src/itti/itti.cpp:62 | The first key of an ordered set is in it and no other is smaller |
| `TimerManagers.TimerManager.TimerSetup` | src/itti/itti.cpp:339-360 | Hands out the next id and inserts a timer with that deadline unless one has it; a task out of range gets the invalid id and changes nothing |
| `TimerManagers.TimerManager.TimerRemove` | src/itti/itti.cpp:363-386 | Drops the held timer, or else the waiting one with that id, and says whether there was one |
| `TimerManagers.TimerManager.TakeEarliest` | src/itti/itti.cpp:52-69 | The object takes the earliest waiting timer |
| `TimerManagers.TimerManager.StoreAgain` | src/itti/itti.cpp:96-109 | The object puts the held timer back unless it is the null timer or its deadline is taken |
| `Fseids.LessIs` | src/common/3gpp_29.244.h:784-807 | Operator < is the lexicographic order and, in addition, the pairs where only the second key has an IPv4 address and the first comes first by its IPv6 part; keys compare equal exactly when operator == holds |
| `Fseids.OrdersExactlyWithoutMisordered` | src/common/3gpp_29.244.h:772-807 | On a set of keys, operator < is asymmetric, transitive and total up to operator ==, if and only if no two keys form such a pair |
| `Fseids.OrdersSameFlag` | src/common/3gpp_29.244.h:772-807 | It is so on every set of keys with the same IPv4 flag |
| `Fseids.EachLessThanTheOther` | src/common/3gpp_29.244.h:784-807 | A dual-stack and an IPv6-only key of one session, each less than the other |
| `MessageTheorems.LengthConservation` | src/gtpv2c/3gpp_29.274.hpp:364-368 | After any sequence of adding elements with right lengths and setting the TEID, the length field counts the octets dumped behind the first four, if and only if they fit in 16 bits |
| `MessageTheorems.GroupLengthConservation` | src/gtpv2c/3gpp_29.274.hpp:160-163 | A group put together element by element has the sum of its elements as its length, and that is its nested octets if and only if they fit in 16 bits |
| `MessageTheorems.MessageRoundTrip` | src/gtpv2c/3gpp_29.274.hpp:456-483 | A message of elements that reload, with a right length field, loads from its dump if and only if none of its elements is empty, and then with these elements, reloaded, under its header |
| `MessageTheorems.HeaderRoundTrip` | src/gtpv2c/3gpp_29.274.hpp:284-324 | A header is read back from its octets without the spare bits and with the priority only where the flag is set, and nothing behind it is consumed |
| `MessageTheorems.ParserSoundness` | src/gtpv2c/3gpp_29.274.hpp:462-483 | Of any octets whatever that load as a message: the length field equals 4 + the TEID + the lengths of all elements with four octets each, modulo 2^16, and in every group, at every depth, only the last element can reach beyond the length of the group |
| `MessageTheorems.ParsedWellNested` | src/gtpv2c/3gpp_29.274.cpp:81-380 | Of any octets that the factory makes an element of: no nested element is empty or unknown and only last elements overshoot |
| `ElementLoading.ParsePrefix` | src/gtpv2c/3gpp_29.274.cpp:81-380 | Octets behind an element never change what the factory makes of it, and are left in the stream, grouped elements included |
| `ElementLoading.LoadGroupPrefix` | src/gtpv2c/3gpp_29.274.hpp:172-184 | The same for the loop of the grouped element |
| `ElementRoundTrip.ParseDump` | src/gtpv2c/3gpp_29.274.cpp:81-380 | An element that reloads from its own octets does so in any stream |
| `ElementRoundTrip.LoadGroupOfDump` | src/gtpv2c/3gpp_29.274.hpp:165-184 | A group of elements that reload is read back element by element, and no octet more |
| `ElementRoundTrip.GroupInSync` | src/gtpv2c/3gpp_29.274.hpp:165-184 | A nonempty bearer context with the length of its elements reloads as that of the reloaded elements |
| `ElementRoundTrip.RawInSync` | src/gtpv2c/3gpp_29.274.hpp:3363-3393 | An element that is its octets reloads if and only if its loader, given the length and the first octet that were dumped, reads just as many |
| `ElementRoundTrip.DigitsInSync` | src/gtpv2c/3gpp_29.274.hpp:506-607 | An IMSI, MEI or MSISDN reloads if and only if it has a digit, with the buffer and count that its octets give |
| `ElementRoundTrip.CauseInSync` | src/gtpv2c/3gpp_29.274.hpp:677-704 | A cause reloads if and only if its value is not 69, in which case it announces six octets and writes five |
| `ElementRoundTrip.PcoInSync` | src/gtpv2c/3gpp_29.274.hpp:1530-1544 | Protocol configuration options come back as they were if and only if every container is as long as it says |
| `ElementRoundTrip.ContainersRoundTrip` | src/gtpv2c/3gpp_29.274.hpp:1604-1628 | Any list of such containers is read back from its octets |
| `ElementRoundTrip.PcoUsesItsLength` | src/gtpv2c/3gpp_29.274.hpp:1612-1628 | On any octets that load, the loop over containers reads exactly the length of the element |
| `ElementRoundTrip.LoadedLengthsMatch` | src/gtpv2c/3gpp_29.274.hpp:1537-1544 | Whatever is loaded, containers have the lengths they declare |
| `ElementRoundTrip.ExoticRoundTrip` | src/gtpv2c/3gpp_29.274.hpp:3747-3788 | The operator's number of an FQ-CSID is recovered from its 32 bits if and only if mnc is below 1000, the id below 4096 and 1000 * mcc + mnc below 2^20; all mcc below 1000 are among these |
| `ElementRoundTrip.FqCsidInSync` | src/gtpv2c/3gpp_29.274.hpp:3737-3800 | An FQ-CSID always reloads, with its CSIDs, and as it was if and only if its node fits its fields |
| `ElementRoundTrip.CsidsRoundTrip` | src/gtpv2c/3gpp_29.274.hpp:3756-3797 | Any list of CSIDs is read back from its octets |
| `WireFormats.NetworkOrder32` | src/gtpv2c/3gpp_29.274.hpp:284-307 | Numbers of four octets go out with the most significant octet first, and are read so; the same is proved of two, three and five octets |
| `WireFormats.HeaderOnTheWire` | src/gtpv2c/3gpp_29.274.hpp:284-307 | Which octet of a header holds what: flags, type, length, TEID if the flag of value 8 is set, sequence number, priority |
| `WireFormats.ElementHeaderOnTheWire` | src/gtpv2c/3gpp_29.274.hpp:98-110 | An element starts with its type, two octets of length and its instance |
| `WireFormats.KnownTypes` | src/gtpv2c/3gpp_29.274.cpp:81-380 | Exactly which types the factory makes objects for, by number |
| `WireFormats.GroupsAreBearerContexts` | src/gtpv2c/3gpp_29.274.cpp:81-380 | Whatever octets load as an element: it is grouped if and only if the first octet is 93, and type, length and instance are those of the first four octets |
| `WireFormats.FixedSizesAreRead` | src/gtpv2c/3gpp_29.274.cpp:81-380 | For each type of fixed size, by number: how many octets are read, and which lengths are refused |
| `WireFormats.IpAddressInSync` | src/gtpv2c/3gpp_29.274.hpp:942-960 | An IP address element keeps its octets, and comes back as it was if and only if it holds an IPv4 address |
| `WireFormats.NumbersOnTheWire` | src/gtpv2c/3gpp_29.274.hpp:851-898 | The octets of the six elements of one number, and how many bits each keeps |
| `WireFormats.NumbersComeBack` | src/gtpv2c/3gpp_29.274.hpp:851-898 | They come back with exactly these bits |
| `WireFormats.OctetsOnTheWire` | src/gtpv2c/3gpp_29.274.hpp:757-792 | The octets of access point name, serving network, time zone and indication flags |
| `WireFormats.AmbrOnTheWire` | src/gtpv2c/3gpp_29.274.hpp:796-848 | The octets of an aggregate maximum bit rate, uplink first |
| `WireFormats.PaaOnTheWire` | src/gtpv2c/3gpp_29.274.hpp:1993-2014 | The octets of a PDN address of each of the four types |
| `WireFormats.QosOnTheWire` | src/gtpv2c/3gpp_29.274.hpp:2154-2163 | The octets of a bearer QoS: flags, QCI and four rates of 40 bits in their order |
| `WireFormats.FteidOnTheWire` | src/gtpv2c/3gpp_29.274.hpp:3363-3375 | The octets of an F-TEID: flags and interface type, TEID, addresses |
| `WireFormats.DigitsOnTheWire` | src/gtpv2c/3gpp_29.274.hpp:587-591 | The octets of an IMSI, MEI or MSISDN: as many as it takes for its digits, all but the filler as they are held |
| `WireFormats.PcoOnTheWire` | src/gtpv2c/3gpp_29.274.hpp:1604-1611 | The octets of protocol configuration options: length, flag and protocol, containers |
| `WireFormats.ContainerOnTheWire` | src/gtpv2c/3gpp_29.274.hpp:1530-1536 | A container: id, length, contents |
| `WireFormats.FqCsidMade` | src/gtpv2c/3gpp_29.274.hpp:3641-3736 | The element of an FQ-CSID: its length, and a first octet of the kind of node and the number of CSIDs |
| `WireFormats.FqCsidOnTheWire` | src/gtpv2c/3gpp_29.274.hpp:3737-3760 | It goes out as that octet, the node and the CSIDs |
| `WireFormats.NodeOnTheWire` | src/gtpv2c/3gpp_29.274.hpp:3740-3751 | The node is an address, or the number (1000 * mcc + mnc) * 4096 + id in 32 bits |
| `WireFormats.CsidOnTheWire` | src/gtpv2c/3gpp_29.274.hpp:3756-3759 | Each CSID goes out in network order, and the one that is kept has its octets exchanged |
| `WireFormats.SameSwappedInNumbers` | src/gtpv2c/3gpp_29.274.hpp:3756-3759 | An FQ-CSID is the same after a dump if and only if the two octets of each CSID are equal |
| `WireFormats.LocationOnTheWire` | src/gtpv2c/3gpp_29.274.hpp:3229-3256 | For each of the 256 combinations of the eight flags, by bit: which fields of a location are on the wire, in which order |
| `WireFormats.LocationSizes` | src/gtpv2c/3gpp_29.274.hpp:3258-3285 | And how many octets they take up |
| `WireFormats.LocationComesBack` | src/gtpv2c/3gpp_29.274.hpp:3192-3226 | And that a location element is read whole, each field coming back exactly if its own flag is set |
| `WireFormats.EnodebIdsOnTheWire` | src/gtpv2c/3gpp_29.274.hpp:2898-3066 | Where the bits of the two eNodeB ids are |
| `Retransmission.ByteIdenticalDumps` | src/gtpv2c/3gpp_29.274.hpp:3756-3759 | All dumps of a message are equal if and only if no CSID in it changes when its octets are exchanged and its priority flag is not set without a TEID |
| `Retransmission.RetransmissionsIdentical` | src/gtpv2c/gtpv2c.cpp:645-648 | Of every message that is put together here, all dumps are equal if and only if no CSID in it changes when its octets are exchanged |
| `Retransmission.DumpsAlternate` | src/gtpv2c/3gpp_29.274.hpp:456-461 | From the second dump on, every other dump of any message is the same |
| `Retransmission.DumpAgain` | src/gtpv2c/3gpp_29.274.hpp:3737-3760 | The same, with nested elements, for one element and its second dump, which always has the length of the first |
| `Retransmission.HeaderDumpAgain` | src/gtpv2c/3gpp_29.274.hpp:284-307 | A second dump of a header is equal unless the priority flag is set without a TEID, and from then on nothing changes |
| `CoreRoundTrip.RateRoundTrip` | src/gtpv2c/3gpp_29.274.hpp:2083-2151 | A rate comes back from its five octets modulo 2^40 |
| `CoreRoundTrip.QosReturn` | src/gtpv2c/3gpp_29.274.hpp:2057-2180 | A bearer QoS comes back, each rate modulo 2^40 |
| `CoreRoundTrip.DigitsBackSame` | src/gtpv2c/3gpp_29.274.hpp:506-607 | Exactly the digits in the original's convention come back as they were: 1 to 15 of them, 1111 behind an odd number, no such half octet at the end of an even one, nothing behind them; with the two exceptions for 15 digits |
| `CoreRoundTrip.FteidReturn` | src/gtpv2c/3gpp_29.274.hpp:3295-3400 | An F-TEID comes back with the addresses its flags announce, and zeros for the others |
| `CoreRoundTrip.PaaReturn` | src/gtpv2c/3gpp_29.274.hpp:1903-2054 | A PDN address allocation comes back with what its PDN type announces |
| `CoreTheorems.ValueReturns` | src/gtpv2c/3gpp_29.274.hpp:506-4221 | For every element type of a Create Session Request and every value: made into an element, dumped, loaded and handed over, it comes back as a fixed normal form of itself, under any instance |
| `CoreTheorems.ReturnsUnchanged` | src/gtpv2c/3gpp_29.274.hpp:506-4221 | That form is the value itself if and only if the value is normal, which is said type by type |
| `CoreTheorems.MadeLength` | src/gtpv2c/3gpp_29.274.hpp:3107-3138 | The length that a constructor sets is that of the octets, except for user location information, where it is so if and only if there is no RAI and the LAI comes together with the macro eNodeB id |
| `CoreTheorems.LocationBackSame` | src/gtpv2c/3gpp_29.274.hpp:3070-3292 | A location comes back as it was if and only if absent fields are zero, a macro eNodeB id fits in 16 bits, an extended one in 20, and the spare half octet of the cell identifier is clear |
| `CreateSessionRoundTrip.RequestArrives` | src/gtpv2c/3gpp_29.274.cpp:382-480 | Every request that fits in 16 bits arrives if and only if it has no bearer context without elements; then the peer holds the normal form of each field that is sent, the same presence of fields, both lists of bearer contexts in order with F-TEID instances 0 to 7, and reads the TEID and the sequence number that were set |
| `CreateSessionFields.EveryFieldArrives` | src/gtpv2c/3gpp_29.274.cpp:382-480 | By type and instance number: every field of a request that can be sent, and of each of its bearer contexts, is in the request that the peer ends up with, in its normal form, and nothing else is |
| `CreateSessionFields.OrderInNumbers` | src/gtpv2c/3gpp_29.274.cpp:386-480 | The types and instances in the order in which they go out |
| `CreateSessionFields.PlacesInNumbers` | src/gtpv2c/msg_gtpv2c.hpp:1036-1101 | Exactly which types and instances a request and a bearer context take, and which field each sets |
| `CreateSessionFields.AcceptedExactly` | src/gtpv2c/3gpp_29.274.hpp:380-384 | A message is taken over if and only if each of its elements, and each one in its bearer contexts, is of a type and instance that is taken and holds a value |
| `CreateSessionFields.TakenChanges` | src/gtpv2c/msg_gtpv2c.hpp:1036-1101 | What one taken element changes: one field, or the list of bearer contexts to be created (instance 0) or removed (instance 1) |
| `CreateSessionFields.ContextTakesOver` | src/gtpv2c/msg_gtpv2c.hpp:507-545 | What a bearer context of either list takes over of the elements in it |
| `CreateSessionFields.ElementAdded` | src/gtpv2c/3gpp_29.274.hpp:380-384 | An element added anywhere in a message, with none for its field behind it, changes that field and nothing else, and no error appears or disappears |
| `CreateSessionFields.RecoveryAdded` | src/gtpv2c/msg_gtpv2c.hpp:1061 | So a restart counter of a peer |
| `CreateSessionFields.FurtherCsidAdded` | src/gtpv2c/msg_gtpv2c.hpp:1076-1085 | So the CSIDs of an ePDG and of a TWAN |
| `CreateSessionFields.ReceivedOnly` | src/gtpv2c/3gpp_29.274.hpp:1669-1850 | The values of elements that are taken but never sent |
| `CreateSessionFields.CauseReceived` | src/gtpv2c/3gpp_29.274.hpp:693-704 | A cause of two octets, or of six with the offending element |
| `CreateSessionRoundTrip.RequestArrivesUnchanged` | src/gtpv2c/msg_gtpv2c.hpp:1036-1101 | What arrives is the request itself if and only if the request is normal: only fields that are sent, normal values, and a flag for each list of bearer contexts exactly when it has one |
| `CreateSessionLength.RequestLengthRight` | src/gtpv2c/3gpp_29.274.cpp:382-480 | The length field of the request's message is right if and only if its user location information, if any, has no RAI and has the LAI together with the macro eNodeB id |
| `CreateSessionTheorems.SetEmitted` | src/gtpv2c/msg_gtpv2c.hpp:1036-1101 | Setting the reloaded elements of any list of fields sets these fields, to their normal forms, and leaves the others |
| `CreateSessionTheorems.TakeContexts` | src/gtpv2c/msg_gtpv2c.hpp:407-563 | Taking the reloaded bearer contexts of a list adds them, converted, in their order |
| `CreateSessionTheorems.ContextReturns` | src/gtpv2c/3gpp_29.274.cpp:409-468 | A bearer context's group reloads, element by element, if and only if it has an element |
| `Streams.InStream.Read` | src/gtpv2c/3gpp_29.274.hpp:462-483 | Reads as many octets as asked and moves behind them, or none if there are fewer |
| `ElementIo.NewIeFromStream` | src/gtpv2c/3gpp_29.274.cpp:81-380 | The factory on a stream makes the element that the specification parses and leaves the rest; it is total and terminates on every stream |
| `ElementIo.LoadBodyOf` | src/gtpv2c/3gpp_29.274.cpp:81-380 | The loader that the factory calls reads what the specification says and leaves the rest |
| `LeafIo.LoadDigitsBody` | src/gtpv2c/3gpp_29.274.hpp:592-600 | Reads the octets of an IMSI, MEI or MSISDN and counts the digits, without the filler |
| `LeafIo.LoadCauseBody` | src/gtpv2c/3gpp_29.274.hpp:693-704 | Reads a cause, and the offending element if the length is 6 |
| `LeafIo.LoadIpAddressBody` | src/gtpv2c/3gpp_29.274.hpp:950-959 | Reads an address of 4 or 16 octets and rejects other lengths |
| `LeafIo.LoadRawBody` | src/gtpv2c/3gpp_29.274.hpp:3376-3393 | Reads the first octet and as many more as it and the length announce |
| `LeafIo.LoadFqCsidBody` | src/gtpv2c/3gpp_29.274.hpp:3762-3800 | Reads the node and the CSIDs, or fails as the specification says |
| `LeafIo.LoadCsids` | src/gtpv2c/3gpp_29.274.hpp:3794-3799 | The loop reads exactly as many CSIDs as announced, in order |
| `ElementIo.LoadGrouped` | src/gtpv2c/3gpp_29.274.hpp:172-184 | The loop over nested elements reads what the specification says |
| `ElementIo.LoadPcoBody` | src/gtpv2c/3gpp_29.274.hpp:1612-1628 | Reading protocol configuration options from a stream |
| `ElementIo.LoadContainerList` | src/gtpv2c/3gpp_29.274.hpp:1612-1628 | The loop over containers reads exactly the length it was given, or fails as the specification does |
| `ElementIo.NextContainer` | src/gtpv2c/3gpp_29.274.hpp:1537-1544 | One container is read, as long as it says |
| `ElementIo.DumpCsids` | src/gtpv2c/3gpp_29.274.hpp:3756-3759 | The loop writes the CSIDs in network order and leaves each one exchanged |
| `ElementIo.DumpFqCsid` | src/gtpv2c/3gpp_29.274.hpp:3737-3760 | Writes the node and the CSIDs, and leaves the object changed |
| `ElementIo.DumpDigits` | src/gtpv2c/3gpp_29.274.hpp:1159-1169 | Writes an IMSI, MEI or MSISDN; an MSISDN is limited to its digits and gets its filler |
| `ElementIo.DumpCause` | src/gtpv2c/3gpp_29.274.hpp:677-691 | Writes a cause as its value demands, and leaves its length accordingly |
| `ElementIo.DumpContainers` | src/gtpv2c/3gpp_29.274.hpp:1604-1610 | The loop writes all containers |
| `ElementIo.DumpElement` | src/gtpv2c/3gpp_29.274.hpp:126-170 | Writes one element, with all nested ones, and leaves the objects as their dump methods do |
| `ElementIo.DumpElements` | src/gtpv2c/3gpp_29.274.hpp:456-461 | The loop over elements writes all of them |
| `MessageObject.Gtpv2cMsg.constructor` | src/gtpv2c/3gpp_29.274.hpp:187-240 | A new message has version 2, no flags, and length 4 |
| `MessageObject.Gtpv2cMsg.SetTeid` | src/gtpv2c/3gpp_29.274.hpp:244-250 | Sets the TEID, and the first time the flag and four octets of length |
| `MessageObject.Gtpv2cMsg.AddIe` | src/gtpv2c/3gpp_29.274.hpp:364-368 | Adds the element and its length with four octets |
| `MessageObject.Gtpv2cMsg.DumpHeader` | src/gtpv2c/3gpp_29.274.hpp:284-307 | Writes the header, clearing spare bits in the object on the way |
| `MessageObject.Gtpv2cMsg.DumpTo` | src/gtpv2c/3gpp_29.274.hpp:456-461 | Writes the message and leaves it as the specification's dump does |
| `MessageObject.Gtpv2cMsg.LoadHeaderFrom` | src/gtpv2c/3gpp_29.274.hpp:308-324 | Reads the header that the octets hold, or fails |
| `MessageObject.Gtpv2cMsg.LoadFrom` | src/gtpv2c/3gpp_29.274.hpp:462-483 | Reads the message that the octets hold, or fails as the specification says |
| `MessageObject.LoadElements` | src/gtpv2c/3gpp_29.274.hpp:462-483 | The loop over a message's elements, with its 16-bit sum, gives what the specification gives on every stream |
| `MessageObject.Gtpv2cMsg.AddValues` | src/gtpv2c/3gpp_29.274.cpp:382-404 | Adds an element for each field that is present, in order |
| `MessageObject.Gtpv2cMsg.AddContextElements` | src/gtpv2c/3gpp_29.274.cpp:409-468 | Adds a group for each bearer context |
| `MessageObject.MakeContext` | src/gtpv2c/3gpp_29.274.cpp:409-456 | Puts the group of one bearer context together with the lengths added up on the way |
| `MessageObject.Gtpv2cMsg.AddRequest` | src/gtpv2c/3gpp_29.274.cpp:382-480 | Adds all elements of a Create Session Request in the original's order |
| `SessionObject.CreateSessionRequest.TakeElement` | src/gtpv2c/msg_gtpv2c.hpp:1036-1101 | An element sets the field its type and instance stand for; one without a place is an error and changes nothing |
| `SessionObject.CreateSessionRequest.TakeMessage` | src/gtpv2c/3gpp_29.274.hpp:380-384 | Takes over all elements of a message in order, up to the first error |
| `SessionObject.BearerOf` | src/gtpv2c/3gpp_29.274.hpp:1725-1729 | A bearer context is filled from the nested elements, by type and instance |
| `QosObject.PackRate` | src/gtpv2c/3gpp_29.274.hpp:2083-2098 | The loop from the last octet to the first leaves the rate in network order |
| `QosObject.UnpackRate` | src/gtpv2c/3gpp_29.274.hpp:2132-2151 | The loop over five octets reads the number they are the digits of |
| `QosObject.BearerQosIe.constructor` | src/gtpv2c/3gpp_29.274.hpp:2069-2124 | The object's octets are flags, QCI and the four rates |
| `QosObject.BearerQosIe.ToCore` | src/gtpv2c/3gpp_29.274.hpp:2125-2153 | The value handed over is the one that the octets stand for |

## Left out

- Sockets, threads, locks, logging, configuration and start-up: a send is an entry in a log, and a peer is an opaque number.
- Destination addresses of the peers: the procedure's copy constructor does copy the endpoint (gtpv2c.hpp:76-85), and it is modelled as one opaque value.
- The contents of messages in the transaction layer: one opaque value per request; that repeated dumps of it may differ is the subject of `Retransmission`.
- The unsynchronised increment of the timer id (itti.cpp:149-151): ids are assumed fresh.
- Timely wake-up of the timer manager: not promised, and `TimerTheorems.NewcomerOvertaken` shows it missed; the clock never goes back.
- Two readings of the clock during one send: the timed model reads it once for both timers.
- Delivery of signals to task queues: the expiry step happens at some later time, bounded only in the timed results.
- Shared ownership of element objects by the message sent and the one kept: modelled by what a dump leaves behind, not by aliasing.
- Short reads inside an element: a stream that ends early is a failure as a whole; the original's partly filled fields are not modelled.
- Buffers overrun: more than eight octets of digits, more than sixteen digits of an IMSI or MEI and more than eight protocol containers handed over have no defined effect in the original; here they are failures or excluded.
- MCC and MNC digits: kept as the three octets that hold them; the packing of digits into half octets adds only easy members.
- Traffic flow template, charging id, bearer flags, flow QoS, IP address, node type and features, recovery: loaded as the code loads them, so that messages with them parse, but no Create Session Request is built with them.
- The traffic flow template of a bearer context, and the ePDG and TWAN FQ-CSIDs: the original never sends them.
- RAN/NAS cause and extended protocol configuration options: the factory does not know them.
- Messages other than the Create Session Request at the level of their fields: the same dispatch with other tables; echo messages hand over nothing.
- The PFCP and GTPv1-U codecs: the PFCP stack is modelled at the level of transactions only.
- Operators on IMSI, MEI and MSISDN, and operator < on GTP F-TEIDs.
- Hosts with big-endian byte order: htons is taken to exchange octets.
