# The DHCPv6 client of Dibbler, modelled and proved in Dafny

Dibbler's client (RFC 3315, prefix delegation after RFC 3633) keeps a database of leases,
mirrors the addresses in it on a network interface, and runs a handful of transactions with
servers.  This project models that core and proves what keeps it working:

* `Containers`, `OptionLists`: the list with an internal cursor that everything is built on
  (deleting rewinds it), and the reconciliation of received option lists with stored ones.
* `Leases`, `AddressIA`, `LeaseDb`, `Timers`: leases with wrapping clock arithmetic, IAs with
  their cached duplicate-detection status, the database, and its nested minimum folds.
* `Expiry`, `Decline`, `Replies`, `Merging`, `Coupling`: everything that changes leases (received
  IA_NAs and IA_TAs, expiry, DECLINE, failed REBIND, CONFIRM), lease by lease and field by field,
  and the theorem about whole runs that the interface always shows exactly the addresses in the
  database.
* `Sleep`: how long the client sleeps, and that it never sleeps past a deadline.
* `Retransmission`, `Backoff`, `Handover`: the retransmission arithmetic of section 14 of RFC 3315
  for every random draw, its schedule in plain numbers, and RENEW, REBIND and release measured against T2 and lifetimes.
* `Advertise`, `Transactions`, `TransactionManager`, `Failover`: the list of transactions of
  all kinds, the sorted list of servers, and failover: no binding is lost, and who is asked when.
* `Answers`: what every ADVERTISE and REPLY does, as if-and-only-if statements on what can be seen.
* `Conservation`, `LeftBehind`: where every binding in process is, over whole runs, and when
  the code leaves one behind.
* `Rebinding`: transactions and database together, from the RENEW that gives up to the
  release of its leases; messages that no reply can answer.
* `Startup`, `Confirming`, `Worlds`: the database at the start, the CONFIRM of what was loaded,
  and conservation over runs of the whole.
* `Doubles`: the default T2, a product in double arithmetic.
* `Subprefix`: splitting a delegated prefix among interfaces, bit by bit.
* `Shutdown`: grouping all IAs into RELEASE messages.
* `PrefixDb`, `Prefixes`, `LeaseText`: the prefix operations of the three-level store and what they
  leave in it, and the text form of a lease.

Objects that the source updates are classes (or, where the source embeds a list in an object,
fields holding a list with its cursor); each method is proved against a function of the old
state, and the lemmas say what that function means.  The clock is a parameter, read once per
pass.  Random draws are any real in [-0.1, 0.1]; the answers of the operating system are an
arbitrary function of the address, fixed during a pass; received messages are arbitrary; operating system calls go to a set or a log.
`unsigned long` and `long` have 64 bits.

## Where code and documentation part

Each of these is a lemma below; the model follows the code.

* An IA_NA stops reading a reply at the first withdrawn address, an IA_TA does not
  (`Replies.StopsAtWithdrawal`); addresses a server does not mention are restarted
  (`Replies.UnmentionedRestarted`, against section 18.1.8 of RFC 3315).
* An IA_NA that a reply grants but the database does not have is lost
  (`LeftBehind.LostExactly`).  The database never loses one (`Worlds.NothingLost`), but starts
  without it if the lease file has that IAID on an interface that is not configured
  (`Startup.BeginsExactly`).
* `checkConfirm` does not compare IAIDs: it puts the first configured IA in process for whatever
  IA waits to be confirmed.  If that is another one, nobody asks for the first again
  (`Conservation.ConfirmLosesExactly`, `LeftBehind.ForgottenExample`).  An accepted CONFIRM leaves
  what it named in process (`LeftBehind.AcceptedLeaves`).
* A failing REQUEST hands its SERVERID on, although `sendRequest` forbids it
  (`Failover.FirstServerStays`).
* REBIND drops its SERVERID, and `answer` looks for one in the question: no reply ends it
  (`Rebinding.RebindUnheard`), and it always ends by releasing its IAs
  (`Rebinding.RebindEnds`); RENEW times only its first IA (`Handover.OthersUntilT2`).
* Rapid commit has no effect: for the same reason no REPLY to a SOLICIT is accepted
  (`Rebinding.RapidCommitUnheard`).
* The default T2 of an infinite lifetime does not fit the cast (`Replies.DefaultT2Exactly`).
* `numBits(1)` is 1, not the ceiling of log2 (`Subprefix.BitsForExact`), which does no harm
  because the client never calls it with 1; sub-prefixes overlap
  for prefixes longer than /56 with at most 128 interfaces (`Subprefix.DisjointExactly`); with
  signed char some prefixes are split wrongly (`Subprefix.SplitExact`).
* IAs in an unusual state are dropped at shutdown with their addresses still on the interface
  (`Shutdown.GoneExactly`); IAs on a missing interface are dropped without a RELEASE
  (`Shutdown.SentExactly`).
* A prefix with an infinite lifetime does not survive being written and read
  (`LeaseText.RoundTrip`).

## Model

| member | source | states |
|---|---|---|
| Containers.Container.Append | Misc/Container.h:29-31 | Appends; an iterator that stood at the end stands at the end of the longer list, any other stays where it is. |
| Containers.Container.Get | Misc/Container.h:56-62 | Returns the element at the cursor and steps over it; at the end returns nothing and stays. |
| Containers.Container.Del | Misc/Container.h:48-52 | Erases exactly the element before the cursor, keeps the order of the others and rewinds to the start. |
| Containers.Container.DelFirst | Misc/Container.h:43-46 | Drops the first element and rewinds. |
| Containers.FilterFirst | Misc/Container.h:48-52 | Erasing the first element that passes a test takes it off the front of the filtered list and changes nothing else; with FilterWithout, what every delete-while-iterating loop is proved by. |
| Containers.FilterWithout | Misc/Container.h:48-52 | Erasing an element that fails a test leaves the filtered list as it was. |
| OptionLists.IfaceOption.RemoveStale | ClntIfaceMgr/ClntIfaceIface.cpp:80-102 | The first nested loop keeps, in order, exactly the stored entries that are wanted and tells the system to delete exactly the others. |
| OptionLists.IfaceOption.AddNew | ClntIfaceMgr/ClntIfaceIface.cpp:104-127 | The second nested loop appends what is wanted and not yet stored, in order of first appearance, once each, with one system call for each. |
| OptionLists.IfaceOption.SetList | ClntIfaceMgr/ClntIfaceIface.cpp:80-129 | The stored list and the calls made are Reconciled and Calls of the old and the new list, whose meaning the next lemmas give. |
| OptionLists.NewOnesMeaning | ClntIfaceMgr/ClntIfaceIface.cpp:104-127 | What is added is exactly wanted minus stored, without duplicates. |
| OptionLists.NewOnesOrder | ClntIfaceMgr/ClntIfaceIface.cpp:104-127 | What is added comes in order of first appearance in the new list. |
| OptionLists.ReconciledMeaning | ClntIfaceMgr/ClntIfaceIface.cpp:80-128 | Afterwards exactly the wanted entries are stored, the surviving old ones first and in order, without duplicates unless the old list had some. |
| OptionLists.CallsMeaning | ClntIfaceMgr/ClntIfaceIface.cpp:80-128 | Deleted is exactly old minus new and added exactly new minus old, once each, all deletions first. |
| OptionLists.Idempotent | ClntIfaceMgr/ClntIfaceIface.cpp:80-128 | A second call with the same list makes no system call and changes nothing. |
| OptionLists.OsInStep | ClntIfaceMgr/ClntIfaceIface.cpp:80-128 | If the system had the stored entries before the calls it has the stored entries after them. |
| Leases.TimeLeftMeaning | AddrMgr/AddrAddr.cpp:128-143 | The overflow test on wrapping 64-bit arithmetic is right: 0 exactly when the deadline has come, otherwise the exact distance to it, infinite only if the deadline does not fit. |
| Leases.MinTimerMeaning | AddrMgr/AddrIA.cpp:354-373 | A running minimum is a lower bound of all timers and, below UINT_MAX, one of them. |
| Leases.GuardExact | ClntTransMgr/ClntTransMgr.cpp:218-229 | The aggregate minimum over the valid timers is 0 if and only if some lease has expired; otherwise there is nothing to sweep. |
| Leases.DeletedMeaning | AddrMgr/AddrIA.cpp:210-222 | Deleting by address removes that address and no other lease. |
| AddressIA.AddrIA.AddAddr | AddrMgr/AddrIA.cpp:99-103 | Appends the address and forgets the cached duplicate-detection status; nothing else changes. |
| AddressIA.AddrIA.DelAddr | AddrMgr/AddrIA.cpp:210-222 | Removes the first lease of that address, reports whether there was one, and leaves the cached status alone. |
| AddressIA.AddrIA.SetTimestamp | AddrMgr/AddrIA.cpp:376-385 | Restarts the IA and every one of its addresses. |
| AddressIA.AddrIA.GetMaxValidTimeout | AddrMgr/AddrIA.cpp:334-352 | The longest valid time left over addresses and prefixes, 0 if there is none. |
| AddressIA.AddrIA.GetTentative | AddrMgr/AddrIA.cpp:440-496 | For any answers of the system: an address of unknown status whose window closed is settled as the system answers, up to the first that fails; no other changes; the summary cached is true of all addresses; a cached status is never looked at again. |
| AddressIA.SettlesAsAnswered | AddrMgr/AddrIA.cpp:458-484 | An address that the check settles had status unknown and a closed window, and it is YES exactly if the system answered that it is a duplicate, NO on both other answers. |
| AddressIA.StatusAsAnswered | AddrMgr/AddrIA.cpp:444-496 | If none was cached, the summary follows from the answers: YES exactly if some address had failed or is answered to be a duplicate, NO exactly if all have passed or are answered not to be, unknown otherwise. |
| AddressIA.AddrIA.SetTentative | AddrMgr/AddrIA.cpp:505-525 | Caches YES exactly if some address failed, NO exactly if all passed. |
| AddressIA.AddrIA.GetTentativeTimeout | AddrMgr/AddrIA.cpp:405-431 | 0 after a failure, infinite if all passed, otherwise the least of the open windows of the addresses as getTentative left them. |
| AddressIA.DadCheckedSound | AddrMgr/AddrIA.cpp:440-496 | A cached NO stays true of every address through the check, and an IA that is not found to have failed holds no failed address. |
| AddressIA.DadTimerNoWrap | AddrMgr/AddrIA.cpp:405-431 | With one clock reading the unsigned subtraction never wraps: getTentative has already settled every address whose window closed, and the timer is what is left of an open window. |
| AddressIA.MaxValidMeaning | AddrMgr/AddrIA.cpp:334-352 | The maximum bounds every valid time left and is attained. |
| LeaseDb.LocalChange | ClntOptions/ClntOptIA_NA.cpp:224-245 | If no address is held twice and the interface shows the union of what is held, changing one holder and the interface alike keeps both facts. |
| Timers.GetValidTimeout | AddrMgr/AddrClient.cpp:267-290 | The nested folds over IAs, TAs and PDs give the minimum over every lease of the whole database. |
| Expiry.SweepAddresses | ClntTransMgr/ClntTransMgr.cpp:231-250 | The inner loop terminates in spite of the rewinds, keeps exactly the unexpired addresses in order and takes exactly the expired ones off the interface. |
| Expiry.RemoveExpired | ClntTransMgr/ClntTransMgr.cpp:213-353 | Including its early return, the whole function turns database and interface into Expire of them. |
| Expiry.EarlyReturnSound | ClntTransMgr/ClntTransMgr.cpp:218-219 | When the overall minimum is not 0, sweeping would change nothing: the guard never skips an expired lease. |
| Expiry.SweepExact | ClntTransMgr/ClntTransMgr.cpp:225-338 | For every database: in each IA, each TA and each PD exactly the leases whose deadline has not come stay, in order, and nothing else of the member changes. |
| Expiry.FreedExactly | ClntTransMgr/ClntTransMgr.cpp:252-264 | An IA_NA of the configuration returns to NOTCONFIGURED exactly when a lease in it has reached its deadline and no address is left before its own; no other changes. |
| Expiry.FreedRestExactly | ClntTransMgr/ClntTransMgr.cpp:268-338 | The same for the IA_TA, and for an IA_PD with its prefixes. |
| Expiry.TidyExactly | ClntAddrMgr/ClntAddrMgr.cpp:133-157 | An IA keeps, in order, the addresses before their deadline; it becomes NOTCONFIGURED exactly if it was CONFIGURED or CONFIRMME and none is left; nothing else in the database changes. |
| Expiry.AddrMgrDuties | ClntAddrMgr/ClntAddrMgr.cpp:133-157 | The address manager's own pass drops the expired addresses of the IA_NAs. |
| Expiry.TidyDeletesNothing | ClntAddrMgr/ClntAddrMgr.cpp:133-157 | After removeExpired, as the comment at ClntTransMgr/ClntTransMgr.cpp line 211 demands, that pass deletes no address. |
| Decline.CheckDecline | ClntTransMgr/ClntTransMgr.cpp:1161-1233 | For any answers of the system: terminates; every IA keeps exactly the addresses that do not fail, settled as answered; the addresses removed are exactly those named, under the IAID and the server of their IA, by the DECLINEs sent and exactly those taken off the interface; each DECLINE goes to the one server it names. |
| Decline.DeclinedExactly | ClntTransMgr/ClntTransMgr.cpp:1161-1233 | An address is named if and only if it had failed before, or its status was unknown, its window had closed and the system answered that it is a duplicate. |
| Decline.FindFailed | ClntTransMgr/ClntTransMgr.cpp:1173-1178 | Finds an IA that failed if there is one at all; the IA that the loop fetches and drops when it stops is not looked at, and so left as it was for a later round. |
| Decline.Collect | ClntTransMgr/ClntTransMgr.cpp:1181-1190 | Behind the IA found, collects in order others that failed, all of its server. |
| Decline.RoundProgress | ClntTransMgr/ClntTransMgr.cpp:1168-1232 | Termination: each round removes an address or settles an IA whose cached YES was out of date. |
| Decline.RoundWithin | ClntTransMgr/ClntTransMgr.cpp:1191-1222 | Each round removes exactly what its message names, and only leases that may have failed. |
| Replies.MergeOffers | ClntOptions/ClntOptIA_NA.cpp:207-258 | The loop over received addresses changes IA and interface as MergeAll says. |
| Replies.OnReplyNA | ClntOptions/ClntOptIA_NA.cpp:184-283 | A received IA_NA turns database, interface and configured state into ReplyNA of them; an unknown IAID changes nothing. |
| Replies.DefaultT2Exactly | ClntOptions/ClntOptIA_NA.cpp:268-276 | For every received lifetime the default T2, computed in double and cast to int, is 70% rounded down, or one second less exactly for the multiples of 10 where the double 0.7 falls short by more than half the distance of the doubles; a result of 2^31 or more, as for the infinite lifetime, is whatever the cast yields. |
| Doubles.SeventyExactly | ClntOptions/ClntOptIA_NA.cpp:272 | The product rounded to 53 bits, ties to even, and cut down: the same statement before the cast. |
| Replies.OnReplyTA | ClntOptions/ClntOptTA.cpp:108-194 | The same for an IA_TA, which creates the TA if it is unknown. |
| Merging.OfferDecides | ClntOptions/ClntOptIA_NA.cpp:207-279 | Over a whole reply: the last offer read for an address decides. Withdrawn, the address is gone; otherwise the IA has exactly one lease of it, begun now, with the preferred and valid lifetimes offered, which expires exactly when the valid lifetime is over; a new one has the length offered and is unchecked, one held all along keeps length and status. |
| Merging.UnreadKept | ClntOptions/ClntOptIA_NA.cpp:237-279 | An address no offer is read for, because none is for it or only behind the first withdrawal, keeps its lease, begun anew; no lease appears from nowhere. |
| Merging.ReplyFields | ClntOptions/ClntOptIA_NA.cpp:184-283 | The IA and its configuration are CONFIGURED and begun now; T1 and T2 are those received if both are set, otherwise half and 70% of the first preferred lifetime; server and cached status change exactly if a new address was read; no other IA, TA or PD changes. |
| Merging.TABegins | ClntOptions/ClntOptTA.cpp:110-134 | An unknown IA_TA is made empty, with timers that never run out. |
| Merging.TAOfferDecides | ClntOptions/ClntOptTA.cpp:148-185 | The last offer for an address decides as for an IA_NA; all offers are read. |
| Merging.TAUnreadKept | ClntOptions/ClntOptTA.cpp:148-185 | An address no offer is for keeps its lease unchanged. |
| Merging.TAFields | ClntOptions/ClntOptTA.cpp:108-194 | The TA and its configuration are CONFIGURED; server and cached status change exactly if a new address was read; timers, time stamp and every other member stay. |
| Merging.ReleaseFields | ClntMessages/ClntMsgRebind.cpp:271-304 | Releasing leaves the IA without addresses and NOTCONFIGURED, its addresses off the interface, and all else as it was. |
| Merging.AcceptFields | ClntMessages/ClntMsgConfirm.cpp:87-123 | Accepting leaves the IA CONFIGURED with the same addresses, all begun at the stamp given and all on the interface, and all else as it was. |
| Merging.UnknownIgnored | ClntOptions/ClntOptIA_NA.cpp:184-192 | What a reply, a failed REBIND or a CONFIRM says about an IA_NA that the database does not have changes nothing in it. |
| Rebinding.ConfirmedRenews | ClntMessages/ClntMsgConfirm.cpp:87-123 | A confirmed IA is stamped so that, on the clock of the leases, its T1 comes when that clock reads what the wall clock read at the confirmation. |
| Replies.ReleaseIA | ClntMessages/ClntMsgRebind.cpp:271-304 | After a failed REBIND, or for one IA of a rejected CONFIRM, all addresses are gone from database and interface and the IA is NOTCONFIGURED. |
| Replies.AcceptIA | ClntMessages/ClntMsgConfirm.cpp:87-123 | For one IA of an accepted CONFIRM: every address is on the interface, all leases restart and the IA is CONFIGURED. |
| Replies.StopsAtWithdrawal | ClntOptions/ClntOptIA_NA.cpp:237-245 | An IA_NA is merged as an IA_TA would be up to its first withdrawn address; the addresses after it are ignored (break, where IA_TA has continue). |
| Replies.UnmentionedRestarted | ClntOptions/ClntOptIA_NA.cpp:279 | Section 18.1.8 of RFC 3315 leaves addresses alone that the server did not mention; the code restarts their lifetimes, so such a lease is unchanged exactly when it was stamped this very second. |
| Coupling.OneOfferExactly | ClntOptions/ClntOptIA_NA.cpp:207-258 | One received address keeps an agreeing interface in agreement if and only if it does not withdraw an address that another IA holds too. |
| Coupling.MergeFits | ClntOptions/ClntOptIA_NA.cpp:207-258 | So does a whole reply that offers no address another IA holds. |
| Coupling.ReplyNAGood | ClntOptions/ClntOptIA_NA.cpp:184-283 | A received IA_NA keeps the agreement and all database invariants. |
| Coupling.ReplyTAGood | ClntOptions/ClntOptTA.cpp:108-194 | So does a received IA_TA, also when it creates the TA. |
| Coupling.ExpiryPassGood | ClntTransMgr/ClntTransMgr.cpp:213-353 | So does the expiry sweep followed by the address manager's pass. |
| Coupling.DeclineGood | ClntTransMgr/ClntTransMgr.cpp:1200-1222 | So does checkDecline, for any answers of the system. |
| Coupling.ReleaseGood | ClntMessages/ClntMsgRebind.cpp:280-298 | So does the release after a failed REBIND or a rejected CONFIRM. |
| Coupling.AcceptGood | ClntMessages/ClntMsgConfirm.cpp:87-123 | So does an accepted CONFIRM. |
| Coupling.RunGood | ClntTransMgr/ClntTransMgr.cpp:213-353 | In every state of every run from an empty database the interface shows exactly the addresses in the database, no address is held twice, IAIDs and leases are unique and every cached NO is true. |
| Coupling.TidyAloneExactly | ClntAddrMgr/ClntAddrMgr.cpp:133-157 | Without removeExpired before it, the address manager's pass keeps the agreement if and only if no address of an IA has expired. |
| Coupling.Perform | ClntOptions/ClntOptIA_NA.cpp:184-283 | The methods that model the code carry out exactly the steps of those runs. |
| Sleep.GetTimeout | ClntTransMgr/ClntTransMgr.cpp:740-785 | The whole computation, with the DAD checks it makes on the way, returns SleepTime; 0 when the client is done. |
| Sleep.AddrMgrTimeout | ClntAddrMgr/ClntAddrMgr.cpp:93-108 | The minimum over T1, T2 and valid timers of all IAs and PDs and the valid timers of TAs. |
| Sleep.AwakeForRenewals | AddrMgr/AddrClient.cpp:197-242 | The client does not sleep past T1 or T2 of any configured IA or PD, and not at all while an IA is not configured. |
| Sleep.AwakeForExpiry | AddrMgr/AddrClient.cpp:267-290 | It does not sleep past the expiry of any lease of any IA, TA or PD. |
| Sleep.AwakeForDad | ClntAddrMgr/ClntAddrMgr.cpp:110-124 | Nor past the end of the duplicate-detection window of any address still unknown, and not at all once an address has failed. |
| Sleep.AwakeForTheRest | ClntTransMgr/ClntTransMgr.cpp:748-782 | Nor past the end of an option lifetime, a message timer or the inactive-mode interval. |
| Sleep.SleepAttained | ClntTransMgr/ClntTransMgr.cpp:740-785 | It is never needlessly short: it is 0 for an IA to be configured, or ends exactly with T1 or T2 of a configured member, a lease, a detection window, an option lifetime or a message, or is the inactive cap of 3 seconds or infinite. |
| Retransmission.ClntMsg.Send | ClntMessages/ClntMsg.cpp:348-402 | One transmission changes RT, RC, MRD and the time stamp as Transmit says, with arbitrary draws in place of rand. |
| Retransmission.ClntMsg.GetTimeout | ClntMessages/ClntMsg.cpp:342-346 | What is left of RT since the last transmission, never negative; 0 for CONFIRM. |
| Retransmission.ClntMsg.OnPoll | ClntTransMgr/ClntTransMgr.cpp:428-442 | Under the guard of the transaction loop a due message gives up when its own test says so and is sent again otherwise. |
| Retransmission.UncappedBounds | ClntMessages/ClntMsg.cpp:355-361 | For every draw the next wait is at least one second and, when MRT is set, at most floor(0.5 + 1.1 MRT). |
| Retransmission.WaitBounds | ClntMessages/ClntMsg.cpp:354-368 | The same bounds hold after any number of polls of any message. |
| Backoff.FirstWait | ClntMessages/ClntMsg.cpp:348-366 | The first wait of every message in numbers: one second, for RENEW and REBIND 9 to 11, or the MRD if that is shorter. |
| Backoff.NextPoll | ClntMessages/ClntMsg.cpp:348-402 | What one more poll does to any unanswered message, for every draw and history: nothing before its wait is over; it gives up if sent often enough (11, 5 and 5 times for REQUEST, RELEASE and DECLINE) or its MRD is spent; otherwise it is sent, and the next wait is 1.9 to 2.1 times the last, half a second either way, or 0.9 to 1.1 times MRT if that can exceed MRT, and never more than the MRD left. |
| Retransmission.BudgetConserved | ClntMessages/ClntMsg.cpp:363-366 | In every run the waits chosen plus the MRD left equal the initial MRD, MRD never goes negative, and a message that gave up has spent all of it. |
| Retransmission.NotBeforeMrd | ClntMessages/ClntMsg.cpp:363-366 | RENEW and REBIND never give up before their MRD has passed on the clock, however late they are polled. |
| Retransmission.TransmissionCount | ClntMessages/ClntMsgRelease.cpp:167-173 | An unanswered RELEASE or DECLINE is transmitted exactly MRC times, a REQUEST MRC + 1 times, never more. |
| Retransmission.GivesUp | ClntTransMgr/ClntTransMgr.cpp:428-442 | Every message but a SOLICIT gives up after finitely many due polls, with an explicit bound. |
| Handover.NewRenew | ClntMessages/ClntMsgRenew.cpp:26-97 | The RENEW starts with what is left until T2 of the first IA, or else the first PD, as its MRD; for nothing to renew it is not sent. |
| Handover.NewRebind | ClntMessages/ClntMsgRebind.cpp:28-72 | The REBIND starts with the longest valid time left in any IA or PD its options name. |
| Handover.RenewUntilT2 | ClntMessages/ClntMsgRenew.cpp:191-204 | A RENEW that stays unanswered hands over to REBIND no earlier than the T2 deadline of its first IA. |
| Handover.NotBefore | ClntMessages/ClntMsg.cpp:363-366 | For every draw and every polling a RENEW or REBIND lasts at least its MRD or, if that is 0 from the start, its first wait. |
| Handover.LastsMeaning | ClntMessages/ClntMsg.cpp:354-366 | That is MRD if it is positive, and otherwise between 9 and 11 seconds. |
| Handover.EndsExactly | ClntMessages/ClntMsg.cpp:363-366 | The bound is attained: polled promptly, it ends just then, also when MRD is 0 from the start. |
| Handover.OthersUntilT2 | ClntMessages/ClntMsgRenew.cpp:42-61 | Any other IA of the same RENEW is certain of being renewed until its own T2 if and only if the RENEW lasts that long: its T2 is no later than the first one's or, for a RENEW begun after that, than the end of its first wait. |
| Handover.RebindOutlivesLeases | ClntMessages/ClntMsgRebind.cpp:233-269 | When an unanswered REBIND releases its IAs, every lease of every IA it names has expired. |
| Rebinding.DutiesStep | ClntTransMgr/ClntTransMgr.cpp:428-442 | In one pass, among whatever other messages do before and after it, a message takes exactly one step of its retransmission (a SOLICIT while there is no advertisement) and stays while it is live; no finished message is left. |
| Rebinding.RenewLeavesRebind | ClntMessages/ClntMsgRenew.cpp:191-204 | The pass in which a RENEW gives up leaves a REBIND with its bindings, without its SERVERID, that lasts as long as the longest lease of what it names. |
| Rebinding.RebindUnheard | ClntMessages/ClntMsg.cpp:806-812 | Through every sequence of passes, replies to it or to others, new messages and changes of the database, a REBIND without SERVERID keeps its bindings and the status of a message nobody answers: it can only end by giving up. |
| Rebinding.Unheard | ClntMessages/ClntMsg.cpp:806-812 | The same for every message that names no server and is answered by the common code, SOLICIT and REBIND. |
| Rebinding.RapidCommitUnheard | ClntMessages/ClntMsg.cpp:806-812 | A SOLICIT, with rapid commit or not, lives on and is sent again through every run without an advertisement, however many REPLYs come, and every REPLY to it changes nothing. |
| Rebinding.RebindReleases | ClntMessages/ClntMsgRebind.cpp:233-304 | The pass in which a REBIND gives up releases each of its bindings, in order; afterwards every IA_NA it named that the database had is without addresses, and database and interface agree if they did. |
| Rebinding.RebindEnds | ClntMessages/ClntMsgRebind.cpp:233-269 | In every run, whatever is replied meanwhile, it ends in the pass in which an unanswered message gives up, and that pass releases all its bindings. |
| Rebinding.LeasesOutlived | ClntMessages/ClntMsgRenew.cpp:191-204 | The whole handover: the REBIND made by an exhausted RENEW survives every run until it gives up, and by then every lease of every IA and PD it named has expired. |
| Rebinding.CarryOut | ClntMessages/ClntMsgRebind.cpp:233-304 | Carrying out in order what messages ask of the database (releaseIA, or the confirmation of addresses) gives ApplyAll and keeps agreement and invariants. |
| Advertise.GetMaxPreference | ClntTransMgr/ClntTransMgr.cpp:1345-1358 | -1 for no advertisements, otherwise the greatest preference, which is attained. |
| Advertise.SortAdvertiseLst | ClntTransMgr/ClntTransMgr.cpp:1377-1402 | The loop terminates, because the maximum it looks for is found every time, and leaves the sorted list. |
| Advertise.SortedIn | ClntTransMgr/ClntTransMgr.cpp:1377-1402 | Sorting is a permutation. |
| Advertise.SortedOrder | ClntTransMgr/ClntTransMgr.cpp:1377-1402 | Preferences do not increase along the sorted list. |
| Advertise.SortedStable | ClntTransMgr/ClntTransMgr.cpp:1377-1402 | Servers of equal preference stay in order of arrival. |
| Advertise.SortedAgain | ClntTransMgr/ClntTransMgr.cpp:794-797 | Sorting a sorted list changes nothing, so sorting before every REQUEST keeps the order of the servers not yet tried. |
| Transactions.ActProgress | ClntTransMgr/ClntTransMgr.cpp:428-442 | Termination of the transaction loop although messages are appended while it runs: what a pass makes is not due in that pass. |
| Answers.RequestGoesToBest | ClntTransMgr/ClntTransMgr.cpp:791-807 | A REQUEST begins its life for exactly the bindings given, addressed to the first of the stored advertisements of greatest preference, which is then no longer stored; with none stored the bindings are NOTCONFIGURED and nobody is asked. |
| Answers.AdvertiseExactly | ClntMessages/ClntMsgSolicit.cpp:115-148 | For a SOLICIT after any run: an ADVERTISE ends it and has the best server of all asked for its bindings if and only if the preference is 255 or the SOLICIT was sent more than once; otherwise the advertisement is stored last and nothing else changes. |
| Answers.SolicitDue | ClntMessages/ClntMsgSolicit.cpp:396-405 | A SOLICIT whose wait is over goes on to the best server if it has any, and is sent again if it has none. |
| Answers.RequestAnswered | ClntMessages/ClntMsg.cpp:806-1190 | A REPLY is ignored if it is not authentic, if the question has no SERVERID or, for a REQUEST, if it says NotOnLink. Otherwise it ends the question, exactly what it grants is CONFIGURED, and exactly what it does not grant is asked again of the best server left, or handed back. |
| Answers.RenewAnswered | ClntMessages/ClntMsgRenew.cpp:100-176 | Every REPLY ends a RENEW. If some option says NoBinding, the best server stored is asked for all its bindings, or they are handed back if none is; otherwise no message is made. Exactly the known bindings with a Success option before any NoBinding become CONFIGURED; all other states stay. |
| Answers.ConfirmAnswered | ClntMessages/ClntMsgConfirm.cpp:57-85 | Success ends a CONFIRM and has each of its IAs kept, NotOnLink ends it and has each released, a missing status has each released without ending it, any other is ignored; exactly the released ones the database has become NOTCONFIGURED. |
| Answers.ConfirmDue | ClntMessages/ClntMsgConfirm.cpp:167-183 | An unanswered CONFIRM is sent at every pass until its ten seconds are spent, and then ends and has each of its IAs kept. |
| Answers.OtherAnswered | ClntMessages/ClntMsgDecline.cpp:51-62 | Any REPLY ends a RELEASE, one from the server asked ends a DECLINE; another is ignored and nothing else changes. |
| Answers.QuietEnd | ClntMessages/ClntMsgRelease.cpp:167-173 | A RELEASE or DECLINE sent five times just ends when it is due again. |
| Answers.SolicitsExactly | ClntTransMgr/ClntTransMgr.cpp:918-984 | checkSolicit makes SOLICITs only, each beginning its life without a server, for one interface it looks at and for bindings that wait there; what was there goes on as it was. |
| Answers.ConfirmsExactly | ClntTransMgr/ClntTransMgr.cpp:986-1023 | checkConfirm makes CONFIRMs only, each beginning its life for IAs that wait on one interface. |
| Conservation.CarryAllMeaning | ClntMessages/ClntMsg.cpp:839-977 | A reply configures exactly the bindings it grants, IA_NAs only if the database has them; all other states stay. |
| Conservation.LeftMeaning | ClntMessages/ClntMsg.cpp:862-970 | A reply takes exactly the granted bindings off the question. |
| Conservation.SendRequestSafe | ClntMessages/ClntMsgRequest.cpp:45-129 | Bindings handed to sendRequest are in a new live REQUEST or, with no server left, NOTCONFIGURED. |
| Conservation.CheckSolicitTakesAll | ClntTransMgr/ClntTransMgr.cpp:918-984 | checkSolicit puts in process exactly what is NOTCONFIGURED and configured on an interface that it looks at; all other states stay. |
| Conservation.NoBindingLost | ClntTransMgr/ClntTransMgr.cpp:420-508 | With messages of every kind: after any sequence of replies, advertisements, passes, expiries, SOLICITs, CONFIRMs and other new messages every binding in process is carried by a live SOLICIT, REQUEST or CONFIRM, or was named by a CONFIRM when that was accepted and has been in process ever since.  Provisos: the database has the configured IA_NAs when a reply comes, and checkConfirm marks nothing that no message carries. |
| Conservation.CheckConfirmExactly | ClntTransMgr/ClntTransMgr.cpp:986-1023 | For every binding: checkConfirm puts it in process if and only if it is the first configured IA_NA of an interface on which some IA is in CONFIRMME, and a CONFIRM names it if and only if it is in CONFIRMME itself. |
| Conservation.ConfirmLosesExactly | ClntTransMgr/ClntTransMgr.cpp:997-1011 | The proviso is exact: checkConfirm leaves a binding in process with nothing to carry it if and only if it is the first configured IA_NA, some IA is in CONFIRMME, it is not itself among them, and nothing carried it before. |
| Conservation.CheckConfirmSafe | ClntTransMgr/ClntTransMgr.cpp:986-1023 | Otherwise checkConfirm loses none. |
| Worlds.NothingLost | ClntTransMgr/ClntTransMgr.cpp:420-508 | The same over runs of transactions and database together, without the proviso about replies: that the database has every configured IA_NA is an invariant. |
| Worlds.HappensHas | ClntTransMgr/ClntTransMgr.cpp:420-508 | No pass, answer, CONFIRM or database step removes an IA_NA from the database. |
| Startup.BeginsExactly | ClntTransMgr/ClntTransMgr.cpp:362-384 | The database begins with the IA of a configured IA_NA if and only if the lease file does not have that IAID on an interface that is not configured: such an IA keeps populateAddrMgr from making one, and checkDB then deletes it. |
| Startup.BegunExactly | ClntTransMgr/ClntTransMgr.cpp:78-108 | The IAs at the start are exactly those of the lease file on a configured interface and, for each configured IA_NA whose IAID is not in it, an empty one on the first interface that has it, NOTCONFIGURED, with its configured timers. |
| Startup.PopulateAddrMgr | ClntTransMgr/ClntTransMgr.cpp:94-108 | An IA is made for each configured IA_NA, unless there is one of that IAID, on whatever interface. |
| Startup.CheckDB | ClntTransMgr/ClntTransMgr.cpp:362-384 | The deleting loop keeps, in order, exactly the IAs whose interface is configured. |
| Startup.Begin | ClntTransMgr/ClntTransMgr.cpp:78-87 | Both together give Begun. |
| Confirming.Collect | ClntTransMgr/ClntTransMgr.cpp:999-1010 | One scan of the database finds, in order, exactly the IAs in CONFIRMME on the interface and puts them in process. |
| Confirming.ConfirmOn | ClntTransMgr/ClntTransMgr.cpp:994-1015 | The nested loops over configured IAs and the database amount to one scan: everything is found for the first configured IA, which is the one marked, and nothing for the others. |
| Confirming.CheckConfirm | ClntTransMgr/ClntTransMgr.cpp:986-1023 | The whole function changes transactions and database as CheckConfirm and Questioned say. |
| Confirming.QuestionedExactly | ClntTransMgr/ClntTransMgr.cpp:999-1010 | In the database exactly the IAs in CONFIRMME on an interface with a configured IA_NA are put in process; nothing else changes. |
| Confirming.WaitingLeft | ClntTransMgr/ClntTransMgr.cpp:1002-1007 | What one interface takes up no longer waits, and the others still do. |
| LeftBehind.LostExactly | ClntMessages/ClntMsg.cpp:848-881 | The proviso about replies is exact: a binding that only this REQUEST carried is left in process with nothing to carry it if and only if the reply grants an IA_NA the database does not have. |
| LeftBehind.AcceptedLeaves | ClntMessages/ClntMsgConfirm.cpp:87-123 | A CONFIRM accepted by its server, or given up unanswered, changes no configured state: exactly what was in process and is carried by no other message is left in process and uncarried. |
| LeftBehind.RejectedLeaves | ClntMessages/ClntMsgConfirm.cpp:125-165 | A rejected one frees what it named, if the database has it. |
| LeftBehind.StaysForgotten | ClntTransMgr/ClntTransMgr.cpp:918-984 | A binding in process that no message names stays so through every sequence of steps in which no reply grants it, nothing new names it and no lease of it expires: checkSolicit never takes it up. |
| LeftBehind.ForgottenExample | ClntTransMgr/ClntTransMgr.cpp:986-1023 | A concrete case: IAs 1 and 2 are configured and the lease file has only IA 2; the first pass marks IA 1, confirms and solicits IA 2, and IA 1 is never asked for again. |
| TransactionManager.TransMgr.SendRequest | ClntTransMgr/ClntTransMgr.cpp:794-807 | Sorts, takes the best server, appends the REQUEST, or hands the bindings back; the cursor of the list stays at its end if it was there. |
| TransactionManager.TransMgr.DoDuties | ClntTransMgr/ClntTransMgr.cpp:424-449 | The two loops over the transaction list, one appending and one deleting while it runs, amount to one pass of the protocol, Duties. |
| TransactionManager.TransMgr.OnAnswer | ClntMessages/ClntMsg.cpp:806-1190 | The loop over the options of a REPLY to a REQUEST, SOLICIT or REBIND and what follows it amount to AnswerRequest. |
| TransactionManager.TransMgr.OnAnswerRenew | ClntMessages/ClntMsgRenew.cpp:100-176 | The options of a REPLY to a RENEW are carried out in order up to one that says NoBinding, which starts a REQUEST for everything. |
| TransactionManager.TransMgr.OnAnswerConfirm | ClntMessages/ClntMsgConfirm.cpp:57-85 | Success keeps the addresses, NotOnLink and a missing status release them, and a missing status does not end the CONFIRM. |
| TransactionManager.TransMgr.AnswerReply | ClntTransMgr/ClntTransMgr.cpp:720-738 | A REPLY is answered as the kind of the question demands: GotReply. |
| TransactionManager.TransMgr.AnswerAdvertise | ClntMessages/ClntMsgSolicit.cpp:115-148 | An accepted ADVERTISE is stored, and starts the REQUEST at once if its preference is 255 or the SOLICIT has been repeated. |
| TransactionManager.TransMgr.CheckSolicit | ClntTransMgr/ClntTransMgr.cpp:918-984 | For each configured interface in turn that is neither no-config nor stateless, one SOLICIT for everything on it that is NOTCONFIGURED, which is then INPROCESS. |
| TransactionManager.TransMgr.SolicitOn | ClntTransMgr/ClntTransMgr.cpp:928-981 | The turn of one interface. |
| TransactionManager.TransMgr.SetState | ClntMessages/ClntMsgRequest.cpp:234-278 | Every option that is configured gets the state, no other. |
| Failover.NoAnswers | ClntMessages/ClntMsgRequest.cpp:203-215 | With no answers, whatever messages of other kinds are live: after d passes that find the REQUEST due exactly the first d + 1 transmissions of the schedule have been made, REQ_MAX_RC + 1 to each stored server; before its end one live message asks and carries the bindings, at its end they are NOTCONFIGURED, and nothing follows. |
| Failover.ScheduleOrder | ClntTransMgr/ClntTransMgr.cpp:1377-1402 | The schedule takes each stored server once, best preference first, equals in order of arrival. |
| Failover.HandedBackInTime | ClntMessages/ClntMsgRequest.cpp:203-215 | Termination in time, whatever messages of other kinds are live: 11 passes per stored server, 33 seconds or more apart, and all bindings are handed back. |
| Failover.FirstServerStays | ClntTransMgr/ClntTransMgr.cpp:791-807 | sendRequest asks for options without a server DUID, but a REQUEST that gives up passes all it has: after any passes of any failover the REQUEST leads with the SERVERID of the first server, and that is the server really being tried if and only if the two are the same. |
| Subprefix.NumBits | ClntIfaceMgr/ClntIfaceMgr.cpp:445-454 | The shifting loop computes BitsFor. |
| Subprefix.BitsForExact | ClntIfaceMgr/ClntIfaceMgr.cpp:441-454 | That is the ceiling of log2, as documented, if and only if the number is not 1, for which the client never asks. |
| Subprefix.CalculateSubprefix | ClntIfaceMgr/ClntIfaceMgr.cpp:672-721 | The buffer arithmetic of both paths gives Sub, and the length prefix plus bits, at least 64; one interface gets the prefix itself. |
| Subprefix.ModifyPrefix | ClntIfaceMgr/ClntIfaceMgr.cpp:489-658 | A prefix longer than /120 or more than 256 interfaces are refused without a system call; otherwise each interface gets the sub-prefix of its number; success if the system accepts one, there is no interface, or it was told to skip. |
| Subprefix.SplitBits | ClntIfaceMgr/ClntIfaceMgr.cpp:692-708 | Aligned and unaligned path refine one specification: write the index over eight bits from the prefix length on, into the octets as they are read. |
| Subprefix.SplitExact | ClntIfaceMgr/ClntIfaceMgr.cpp:692-708 | The result is the prefix with those bits replaced, and lies inside the delegated block, if and only if the 16-bit read does not borrow (signed char, second octet 0x80 or more, host bits of the first all 0). |
| Subprefix.CleanSplit | ClntIfaceMgr/ClntIfaceMgr.cpp:692-708 | A prefix without garbage behind it is split right on every machine. |
| Subprefix.GarbledExample | Misc/addrpack.c:345-348 | A concrete prefix whose first sub-prefix falls outside the delegated block where char is signed. |
| Subprefix.OverlapExact | ClntIfaceMgr/ClntIfaceMgr.cpp:690-717 | Two sub-prefixes overlap if and only if their indices agree on the top bits that the sub-prefix length covers. |
| Subprefix.DisjointExactly | ClntIfaceMgr/ClntIfaceMgr.cpp:672-721 | All sub-prefixes are disjoint if and only if the delegated prefix is /56 or shorter or there are more than 128 interfaces. |
| Shutdown.AddrMgr.DelIA | AddrMgr/AddrClient.cpp:95-106 | Deletes the first IA of that IAID, moving and rewinding the one cursor of the list. |
| Shutdown.DropIdle | ClntTransMgr/ClntTransMgr.cpp:523-529 | Keeps, in order, exactly the IAs in CONFIGURED or INPROCESS that have an address. |
| Shutdown.TakeGroup | ClntTransMgr/ClntTransMgr.cpp:536-564 | The loop terminates although delIA rewinds the cursor it runs on, and takes the next group. |
| Shutdown.ShutdownAll | ClntTransMgr/ClntTransMgr.cpp:523-588 | One RELEASE for each group whose interface is configured, all IAs gone from the database, and the addresses of those groups off their interfaces. |
| Shutdown.GroupsExact | ClntTransMgr/ClntTransMgr.cpp:543-564 | When the interfaces exist each group is exactly the IAs of one server and interface, in order, and no two groups are for the same. |
| Shutdown.EveryIAGrouped | ClntTransMgr/ClntTransMgr.cpp:531-588 | Then every IA to be released is in a group. |
| Shutdown.PartitionExact | ClntTransMgr/ClntTransMgr.cpp:553-558 | The grouping, sent or not, names each IA exactly once if and only if no two share a server on a missing interface, where the search breaks off. |
| Shutdown.MadeExactly | ClntTransMgr/ClntTransMgr.cpp:844-886 | Every RELEASE made is for a configured interface and names only IAs of its own server and interface; it is transmitted exactly if the interface exists, and then names all of those, in order. |
| Shutdown.SentExactly | ClntMessages/ClntMsg.cpp:372-378 | Exactly the IAs whose interface exists and is configured are named in a RELEASE that is transmitted, each of them once. |
| Shutdown.AllSent | ClntMessages/ClntMsg.cpp:372-378 | So every IA to be released is, if and only if all their interfaces exist and are configured. |
| Shutdown.ReleasedExactly | ClntTransMgr/ClntTransMgr.cpp:523-588 | Over the whole shutdown an IA is named in a transmitted RELEASE if and only if it is CONFIGURED or INPROCESS, has an address, and its interface exists and is configured. |
| Shutdown.GoneExactly | ClntMessages/ClntMsgRelease.cpp:82-97 | The addresses taken off are exactly those of IAs in CONFIGURED or INPROCESS whose interface exists and is configured; an IA in another state is dropped and its addresses stay behind. |
| PrefixDb.PrefixMgr.AddPrefix | AddrMgr/AddrMgr.cpp:341-423 | Client, PD and prefix are found or made as Add says; a prefix that is there is refused, but T1 and T2 are set all the same. |
| PrefixDb.PrefixMgr.UpdatePrefix | AddrMgr/AddrMgr.cpp:425-493 | Changes timers and lifetimes of an existing prefix; an unknown one is refused after the PD was restarted. |
| PrefixDb.DelPrefixFrom | AddrMgr/AddrMgr.cpp:513-560 | The part about one client: prefix and then PD, and when it is refused. |
| PrefixDb.PrefixMgr.DelPrefix | AddrMgr/AddrMgr.cpp:498-566 | Deletes the prefix, then the PD if it was the last, then the client if nothing is left and empty clients are deleted. |
| PrefixDb.PrefixMgr.PrefixIsFree | AddrMgr/AddrMgr.cpp:576-596 | True if and only if no PD of any client lists the prefix. |
| Prefixes.AddExactly | AddrMgr/AddrMgr.cpp:341-423 | A prefix is added if and only if the PD does not list it; T1 and T2 are set in any case, the server only with a prefix, and the PD keeps all it has; an unknown PD is made configured on the interface asked for. |
| Prefixes.AddElsewhere | AddrMgr/AddrMgr.cpp:341-423 | No other PD, IA_NA or IA_TA of any client changes. |
| Prefixes.UpdateExactly | AddrMgr/AddrMgr.cpp:425-493 | An update succeeds if and only if client, PD and prefix are known; the prefix then has the new preferred and valid lifetimes from now on and the others keep theirs; a known PD begins anew with the timers even if the prefix is unknown. |
| Prefixes.UpdateRestarts | AddrMgr/AddrMgr.cpp:425-493 | So an updated prefix expires exactly when its new valid lifetime has passed, and every other one when it did before. |
| Prefixes.UpdateElsewhere | AddrMgr/AddrMgr.cpp:425-493 | No other PD, IA_NA or IA_TA changes. |
| Prefixes.DelExactly | AddrMgr/AddrMgr.cpp:498-566 | A prefix is deleted if and only if it is listed; its PD keeps the others, in order, and goes with its last one. |
| Prefixes.DelElsewhere | AddrMgr/AddrMgr.cpp:498-566 | No other PD, IA_NA or IA_TA changes; the client goes if and only if nothing is left of it and empty clients are deleted. |
| PrefixDb.AlwaysGood | AddrMgr/AddrMgr.cpp:341-566 | Over all sequences of operations client DUIDs, IAIDs within a client and prefixes within a PD stay unique. |
| PrefixDb.AddThenDel | AddrMgr/AddrMgr.cpp:341-566 | Deleting the prefix just added succeeds, and restores the database if and only if Restores holds: for an absent client, that empty clients are deleted; for an absent PD, that the client is kept; for a PD, that its timers and server were the same and it had a prefix. |
| LeaseText.RoundTrip | AddrMgr/AddrMgr.cpp:1067-1165 | Reading back the line that was written gives the same lease if and only if its three times fit: 1 to 2^32 - 1 for an address; for a prefix 1 to 2^31 - 1 or 2^64 - 1, so an infinite lifetime is lost. |
| LeaseText.FindPart | AddrMgr/AddrMgr.cpp:1079-1105 | Search by first occurrence finds the name in its own place: no earlier piece of the line contains it. |
| LeaseText.DecimalValue | AddrMgr/AddrAddr.cpp:185-194 | Reading a printed number gives the number. |
| LeaseText.ReadsTimestamp | AddrMgr/AddrMgr.cpp:1079-1081 | The attribute named timestamp of a line is the time stamp. |
| LeaseText.ReadsPref | AddrMgr/AddrMgr.cpp:1082-1084 | The attribute named pref is the preferred lifetime. |
| LeaseText.ReadsValid | AddrMgr/AddrMgr.cpp:1085-1087 | The attribute named valid is the valid lifetime. |
| LeaseText.ReadsLength | AddrMgr/AddrMgr.cpp:1088-1097 | The attribute named prefix, or length for a prefix, is the prefix length. |
| LeaseText.ReadsAddr | AddrMgr/AddrMgr.cpp:1098-1105 | The text between the first bracket and the closing tag is the address. |
| AddressIA.AddrIA.GetT1Timeout | AddrMgr/AddrIA.cpp:287-302 | With the wrapping sum and the overflow test of the source: the exact distance to T1, 0 once T1 has come, infinite only if the sum overflows. |
| AddressIA.AddrIA.GetT2Timeout | AddrMgr/AddrIA.cpp:304-319 | The same for T2. |
| AddressIA.AddrIA.GetValidTimeout | AddrMgr/AddrIA.cpp:354-373 | The minimum over the valid timers of addresses and prefixes together. |
| AddressIA.AddrIA.GetAddrByValue | AddrMgr/AddrIA.cpp:190-203 | Finds the lease of an address if there is one and leaves the cursor behind it. |
| AddressIA.AddrIA.DelPrefix | AddrMgr/AddrIA.cpp:268-282 | Removes the first prefix of that value and reports whether there was one. |
| Expiry.SweepPrefixes | ClntTransMgr/ClntTransMgr.cpp:318-338 | The same for the prefixes of a PD. |
| Expiry.SweepHolder | ClntTransMgr/ClntTransMgr.cpp:227-264 | One IA or TA: guard, sweep, and whether it ran out. |
| Expiry.RanOutMeaning | ClntTransMgr/ClntTransMgr.cpp:252-264 | Running out is what it should be: a lease has reached its deadline and none of the kind in question is left before its own. |
| Expiry.SweptMeaning | ClntTransMgr/ClntTransMgr.cpp:231-250 | Sweeping a list is filtering it by plain deadlines, without the modular arithmetic of the code. |
| Decline.DropFailed | ClntTransMgr/ClntTransMgr.cpp:1203-1221 | The deleting loop terminates in spite of the rewinds, keeps exactly the addresses that did not fail, in order, and takes the failed ones off the interface. |
| Decline.Round | ClntTransMgr/ClntTransMgr.cpp:1168-1232 | One round either finds nothing and every IA is free of failed addresses, or sends one DECLINE and makes progress. |
| Replies.MergeOne | ClntOptions/ClntOptIA_NA.cpp:209-257 | One received address: added, refreshed or withdrawn in IA and interface alike. |
| Replies.EnsureTA | ClntOptions/ClntOptTA.cpp:108-150 | Returns the TA of that id, made and appended if it was unknown. |
| Replies.DropAll | ClntMessages/ClntMsgRebind.cpp:282-297 | The deleting loop empties the IA and takes all its addresses off the interface. |
| Sleep.FoldT1 | AddrMgr/AddrClient.cpp:197-219 | The running minimum over T1; an IA that is not configured counts as 0. |
| Sleep.FoldT2 | AddrMgr/AddrClient.cpp:221-243 | The running minimum over T2 of configured IAs and PDs. |
| Sleep.FoldDad | ClntAddrMgr/ClntAddrMgr.cpp:110-124 | Checks every IA on the way and returns the minimum of their DAD windows as they then are. |
| Sleep.FoldLifetimes | ClntIfaceMgr/ClntIfaceMgr.cpp:239-255 | The minimum over the option lifetimes of all interfaces. |
| Sleep.FoldMessages | ClntTransMgr/ClntTransMgr.cpp:767-777 | The minimum over the timers of all transactions. |
| Retransmission.StepRunning | ClntTransMgr/ClntTransMgr.cpp:428-442 | What every poll keeps, and that MRD strictly falls with every transmission. |
| Advertise.FindBest | ClntTransMgr/ClntTransMgr.cpp:1385-1390 | The search stops behind the first advertisement of greatest preference. |
| TransactionManager.TransMgr.MsgDuties | ClntTransMgr/ClntTransMgr.cpp:428-442 | One due message of any kind retransmits, or finishes with what giving up means for it: Act. |
| TransactionManager.TransMgr.MsgGivesUp | ClntMessages/ClntMsgRequest.cpp:203-215 | Giving up: SOLICIT and REQUEST go to the next server, RENEW becomes a REBIND, REBIND releases its bindings, CONFIRM accepts the addresses, RELEASE and DECLINE just end. |
| TransactionManager.TransMgr.SendRebind | ClntMessages/ClntMsgRebind.cpp:28-72 | The REBIND has the RENEW's options without the SERVERID and, as its MRD, the longest valid time left in any of them. |
| TransactionManager.TransMgr.ReleaseAll | ClntMessages/ClntMsgRebind.cpp:233-269 | Every IA_NA the database has and every IA_PD of the message becomes NOTCONFIGURED, and the database is asked to release each in order. |
| TransactionManager.TransMgr.AcceptAll | ClntMessages/ClntMsgConfirm.cpp:87-123 | The database is asked to keep each IA of the message in order. |
| TransactionManager.TransMgr.DropDone | ClntTransMgr/ClntTransMgr.cpp:444-449 | The deleting loop keeps exactly the unfinished messages, in order. |
| TransactionManager.Erase | ClntMessages/ClntMsg.cpp:862-874 | Erases the first IA option with the IAID and nothing else. |
| Conservation.DutiesSafe | ClntTransMgr/ClntTransMgr.cpp:424-449 | A pass over transactions of every kind loses no binding. |
| Conservation.GotReplySafe | ClntMessages/ClntMsg.cpp:806-1190 | A reply to a message of any kind loses none, if the database has every configured IA_NA. |
| Conservation.AnswerRenewSafe | ClntMessages/ClntMsgRenew.cpp:100-176 | A reply to a RENEW loses none whatever the database has. |
| Conservation.AnswerConfirmSafe | ClntMessages/ClntMsgConfirm.cpp:57-85 | Nor does a reply to a CONFIRM, where what an accepted one named counts as kept, if the database has the IAs that a rejected one names. |
| Conservation.GotAdvertiseSafe | ClntMessages/ClntMsgSolicit.cpp:115-148 | An advertisement loses none. |
| Conservation.TakeKeys | ClntTransMgr/ClntTransMgr.cpp:917-984 | No step configures anything that was not configured to be asked for. |
| Shutdown.SendRelease | ClntTransMgr/ClntTransMgr.cpp:844-886 | Without a configured interface there is no message; otherwise the RELEASE names the IAs of the group in order and the server of the first, takes off the addresses of those whose interface exists, and is transmitted if the interface does. |
| PrefixDb.AddPrefixTo | AddrMgr/AddrMgr.cpp:363-423 | The same for one client, as AddToClient says. |
| PrefixDb.AddedNotFree | AddrMgr/AddrMgr.cpp:341-423 | A prefix that was added is not free. |
| Handover.LongestInRange | ClntMessages/ClntMsgRebind.cpp:43-65 | The MRD of a REBIND fits its 32-bit lifetimes and is the valid time left of one of the leases it names. |

## Left out

- Configuration lexer and parser, sockets, interface detection, notify scripts, DNS updates, logging, writing the lease file: input and output.
- Authentication digests and DUID generation: code of other projects or random input.  A reply only says whether authentication succeeded.
- Bodies of options and messages: an option is the data the modelled code reads from it.
- IA_PD `modifyPrefixes` and the `prefix_add` calls of the expiry sweep: prefixes never sit on the uplink interface, so the coupling theorem does not need them; that a granted PD becomes CONFIGURED is part of `Transactions.CarryAll`.
- `TClntOptIA_NA::isValid`: a two-line test; it also discards T1 > T2 = 0, which section 22.4 of RFC 3315 does not ask for.
- IA_TA in the REQUEST phase: at most one per interface and configured without being searched for; the machine of `Transactions` has IA_NAs and IA_PDs.
- The SOLICIT's own test for the rapid commit option in a REPLY: with or without it the REPLY is ignored (`Rebinding.RapidCommitUnheard`).
- CLIENTID and the option request list of a REQUEST: `answer` also erases the CLIENTID of the question; the model tracks SERVERID only.
- The filter loops that erase and then step over the next element (ClntTransMgr/ClntTransMgr.cpp lines 798-804, 891-896, 905-910): undefined if the last element is erased; assumed to keep every IA option and SERVERID.
- The choice of the IAs that `checkRenew` puts into a RENEW (one server and interface at a time): in the runs any RENEW may start (`Transactions.Starts`), and `Handover.NewRenew` takes any lists.
- RENEW answered with an error: a status other than NoBinding leaves the IA INPROCESS until it expires; nothing stronger is claimed.
- Rebinding.RebindReleases: what a failed REBIND does to IA_PDs in the database (`delPrefixes`) is not followed; their configured state is.
- Transactions.NewRebind: its MRD is a natural number; that the cast to long keeps the longest lease of 32 bits is `Handover.LongestInRange`.
- Rebinding.Happens: what messages ask of the database is carried out after the pass, in order.  In the source `releaseIA` acts at once, so a RENEW that gives up later in the same pass finds the IAs already emptied that a REBIND released before it; here it still reads their lifetimes.
- Startup.CheckDB: the expiry pass that goes before its loop, and TAs and PDs.
- A waiting IA that the configuration lacks: a rejected CONFIRM is modelled for configured ones only.
- Interfaces that become active after the start (inactive mode), which add configured IAs.
- INFORMATION-REQUEST after a reply that brought no stateful option, and RECONFIGURE.
- An interface that disappears while it has leases: `releaseIA` then leaves the addresses of its IA in the database; outside `Shutdown` the interface is there.
- CONFIRM on the wall clock: its timeout is always 0, so only its budget is conserved.
- Message time stamps after 2038: `LastTimeStamp` is an int in the source and unbounded here.
- Two clocks: messages use the wall clock and leases the monotonic one; `Handover` lets them differ by a constant and does not model a clock that is set.
- Replies.AcceptIA: the new time stamp is a parameter; the source takes it from the wall clock although every lease timer reads the monotonic clock (what follows for T1 is `Rebinding.ConfirmedRenews`).
- The REQUEST that `checkDecline` sends for the declined IAs, with its own constructor (ClntMessages/ClntMsgRequest.cpp lines 132-171): only the DECLINE and the removals are modelled.
- Several interfaces in `checkDecline`: it deletes through the interface of the first IA, so the coupling theorem is about one interface.
- TA and PD lists at shutdown: the PD list is not cleared between groups; the partition is claimed for IA_NAs.
- Shutdown.AddrMgr.DelIA: the IAs are values here, since shutdown changes none of them; the position of the cursor inside an IA is not modelled.
- Leases, prefixes, clients and PDs in `PrefixDb` are values written back through their position; aliasing between them is not modelled.
- LeaseText.RoundTrip: `atoi` is that of the GNU C library; text with blanks or signs before a number is never written and not modelled, and neither are the IA and PD header lines.
- `THostRange` arithmetic, `checkRequest` (returns at once) and code under `#if 0` or MOD_REMOTE_AUTOCONF.
