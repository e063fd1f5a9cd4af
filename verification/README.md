# A model of the Spread daemon's ring protocol

Spread is a group-communication daemon. The daemons of a network pass a token around a ring; the holder
numbers and broadcasts packets, answers retransmission requests and learns from the token what everybody has
received. When daemons fail, part or meet, a membership protocol forms a new ring, recovers the packets of the
old ones and delivers them so that all who come along see the same. On top of that the daemons exchange what
they know about process groups. This project models that core in Dafny and proves what it promises.

## The files

Values and functions specify what a daemon does; classes and methods do it in place, with the loops, arrays
and counters of the daemon, and are proved to do the same. The theorems are about runs of whole systems.

| file | content |
|---|---|
| SpreadTypes, FlowControl, TokenAru | shared values, the send window, the aru protocol |
| Delivery, RingSystem, RingTheorems | one daemon, a whole ring over a lossy network, what every run of it guarantees |
| TokenTransport | telling the current token from copies of old ones |
| PacketTable | class `ProtocolState`: the circular table of 8192 slots and the token visit |
| FormToken, FormHops, MemberOrder | gathering the old rings' state on the FORM1 token, its way, the order of members |
| Recovery, VirtualSynchrony, EvsBarrier, MembershipTable | reading FORM2, recovery, the barrier, delivery or backing off; the same on the array |
| Formations, FormationCases | any number of attempts, from the end of operation to the new ring; three runs that go wrong |
| RingOrder | who passes the token to whom |
| Packing, PacketBytes, MessageQueues, Reassembly, EvsReassembly | messages to packets, bytes, and back, also across a membership change |
| SyncedSets, GroupExchange, GroupHistory, GroupState | which daemons agree on the groups, over whole histories |
| GroupBuffers, GroupLists, GroupIds | packing and reading the groups, agreement on them, a group's id over whole histories |
| SafeMessages | SAFE messages, from the queue to every daemon's table |
| GroupDeliveries | from what recovery delivers to the histories of synced sets and groups |
| MembershipTimers, MembershipState | the membership states and their timers |

`dafny verify dfyconfig.toml` checks everything.

## What the code does not do as intended

Where the code and its comments or constants disagree, the model follows the code.

- Read_form2 means to forget packets of daemons that did not come along, but looks their senders up among all
  configured daemons (membership.c:2195 and 2244, configuration.c:530-543) and exits. So any packet that arrives
  after FORM1 and is unknown to the token, or listed as a hole, ends the daemon: `Formations.ReadIsFatal` is
  the exact condition, `FormationCases.LatePacketAborts` an instance.
- MAX_LOCAL_GROUP_MEMBERS (groups.h:53-57) leaves out the message header that the fit test adds
  (groups.c:2178-2181). With 3122 local members in a group the loop that builds the buffers never ends; 3121
  always fit: `GroupBuffers.TerminatesExactlyIfAllFit`, `GroupBuffers.LimitIsOneTooHigh`. session.c:1382 admits
  members up to the former.
- During recovery Prot_handle_bcast still takes packets of the old ring above the agreed number.
  `VirtualSynchrony.PacketsAboveAgreed` says, for any set of such packets, exactly when its table stays complete,
  exactly when delivering it is fatal, and exactly when it delivers what the others deliver;
  `FormationCases.PacketAboveDiffers` is a run with a daemon that would deliver something else. A gap below such a
  packet has one of two outcomes (`EvsBarrier.AboveAgreedOutcome`). A daemon that has not recounted its prefix yet
  is found unfinished, and the new ring waits for it. One that has recounted has its prefix at the last sequence
  number, which protocol.c:755-762 does not test again: the barrier passes and the daemon exits when it delivers
  (`FormationCases.RecountedExits`). The theorems on virtual synchrony assume that no such packet arrives.
- Fill_form1 filters what a segment representative brings, but adds a ring representative's whole Membership as it
  is (membership.c:1676-1686), so a daemon can be listed twice: `FormHops.HopDistinct` says exactly when,
  `FormHops.ListedTwice` is an instance. Such a token is swallowed by the daemon it visits twice and the attempt
  fails; by `FormHops.Circulates` no token that leads to FORM2 lists anybody twice.
- Fill_form1 takes the larger of two stable marks (membership.c:1850-1853), although a comment in Read_form2
  (membership.c:2214) says that others only lower it. It is right to: by `RingTheorems.Stability` the larger mark
  is received by everybody as well.
- A floating packet (reliable, one fragment) needs no order and is passed up ahead of it (protocol.c:1525-1551). But if
  it arrives in order behind a SAFE packet that waits for stability, it has to wait as well, because Prot_handle_bcast
  then calls agreed delivery only (protocol.c:480-491); had it overtaken the SAFE packet it would go up at once: `Delivery.FloatingOnArrival` is the exact
  condition, `Delivery.FloatingHeldBack` an instance. It goes up with the SAFE packet.
- The retransmission mark has four bits (net_types.h:99-102), and Prot_token_hurry raises it without a test
  (protocol.c:1849-1851). Fifteen hurried copies of one token recover it (`TokenTransport.HurryRecovers`); the sixteenth
  carries mark 0 and is ignored (`TokenTransport.SixteenthIgnored`).
- Two group memberships with the same group id are documented to be the same (docs/SP_equal_group_ids.3:14-18). They
  are as long as the group is not emptied (`GroupIds.IdNamesMembers`). The index is forgotten with the group, so one that
  is emptied and set up again within a daemon membership repeats its ids with other members (`GroupIds.IdsRepeat`); that
  is the only way (`GroupIds.RepeatedIfEmptied`).
- The slot numbers are safe with the gap limit plus the largest allowance up to the table size, and with nothing
  larger (`RingTheorems.SlotSafety`, `RingTheorems.SlotBoundIsTight`); the allowance need not be counted twice.

## Model

Paths are relative to the repository's root.

| member | source | states |
|---|---|---|
| TokenAru.VisitInv | ProjetoFinal/spread/spread-src-5.0.1/daemon/protocol.c:772-843 | One token visit, in the operational or the recovery ring, keeps the whole aru invariant; the holder's stable mark never goes down and ends at or below every member's received prefix, so neither branch that would lower it is reachable. |
| TokenAru.WritesMark | ProjetoFinal/spread/spread-src-5.0.1/daemon/protocol.c:772-780 | When the holder writes its own mark on the token, and when mark and author stay: a mark that stays claims nothing that the holder does not have, and only its author, or everybody having everything, raises it. |
| TokenAru.GrowInv | ProjetoFinal/spread/spread-src-5.0.1/daemon/protocol.c:479-487 | A packet that lengthens any member's prefix at any moment keeps the aru invariant. |
| TokenAru.StableInThreeRotations | ProjetoFinal/spread/spread-src-5.0.1/daemon/protocol.c:772-843 | Progress: from a token that names a member, or makes the next one write its mark as the first token does, three rotations and a visit without any further packet suffice for every member to take for stable what every member has received. |
| FlowControl.Allowed | ProjetoFinal/spread/spread-src-5.0.1/daemon/flow_control.c:68-80 | A positive allowance implies no recovery, a highest number within the gap limit, at most each window, and at most both windows together with what the last rotation sent. |
| FlowControl.LargestAllowance | ProjetoFinal/spread/spread-src-5.0.1/daemon/flow_control.c:68-80 | Within the gap limit every number that both windows leave room for is allowed. |
| Delivery.HandleBcastGood | ProjetoFinal/spread/spread-src-5.0.1/daemon/protocol.c:362-492 | A ring packet that arrives, in any order and any number of times, keeps the daemon's state good (table exact, deliveries in order, each once, no alarm), is held afterwards, and changes nothing else. |
| Delivery.AgreedLoopGood | ProjetoFinal/spread/spread-src-5.0.1/daemon/protocol.c:1558-1595 | Agreed delivery keeps the state good: in order, without a gap, no SAFE packet, and its two fatal branches are not taken. |
| Delivery.AgreedDeliversAll | ProjetoFinal/spread/spread-src-5.0.1/daemon/protocol.c:1558-1595 | The loop goes on to the end of the received prefix, or to the first SAFE packet. |
| Delivery.AgreedCatchesUp | ProjetoFinal/spread/spread-src-5.0.1/daemon/protocol.c:1558-1595 | Agreed delivery as it is called: outside recovery and with a threshold that allows it, every packet received in order is passed up afterwards, in front of the first SAFE packet that is left. |
| Delivery.ArrivalCatchesUp | ProjetoFinal/spread/spread-src-5.0.1/daemon/protocol.c:479-491 | A packet that closes the first gap is passed up on arrival with all that it made deliverable; one behind a gap leaves nothing behind that could be passed up. |
| Delivery.WhatWaits | ProjetoFinal/spread/spread-src-5.0.1/daemon/protocol.c:1558-1595 | What was received in order and is not passed up has a SAFE packet at or before it that is not known to be stable. |
| Delivery.ReliableDeliversAll | ProjetoFinal/spread/spread-src-5.0.1/daemon/protocol.c:1525-1551 | Every floating packet in the range is passed up early; nothing that was delivered changes and nothing is dropped. |
| Delivery.ReliableDelivers | ProjetoFinal/spread/spread-src-5.0.1/daemon/protocol.c:1525-1551 | Early delivery as it is called: with a threshold that allows it, every floating packet of the range that is in the table is in the log afterwards. |
| Delivery.FloatingOnArrival | ProjetoFinal/spread/spread-src-5.0.1/daemon/protocol.c:479-491 | A new floating packet is passed up on its arrival if and only if it comes behind a gap, or in order while no SAFE packet waits. |
| Delivery.FloatingHeldBack | ProjetoFinal/spread/spread-src-5.0.1/daemon/protocol.c:480-491 | Two packets: the floating one waits when it arrives behind the SAFE one and is passed up at once when it overtakes it. |
| Delivery.ReliableLoopGood | ProjetoFinal/spread/spread-src-5.0.1/daemon/protocol.c:1525-1551 | Early delivery passes up only floating reliable packets and keeps the state good. |
| Delivery.DiscardLoopGood | ProjetoFinal/spread/spread-src-5.0.1/daemon/protocol.c:1757-1776 | Discarding up to the stable mark delivers what is left up to there in order, frees exactly those slots and does not reach the missing-packet alarm. |
| Delivery.PrefixComparable | ProjetoFinal/spread/spread-src-5.0.1/daemon/protocol.c:1558-1595 | The ordered deliveries of any two daemons of a ring are prefixes of one another. |
| RingSystem.HandleTokenGood | ProjetoFinal/spread/spread-src-5.0.1/daemon/protocol.c:652-858 | A whole token visit (retransmissions, new packets, prefix, requests, marks, deliveries) keeps the holder good against the lengthened packet sequence and raises no alarm. |
| RingSystem.HolderSends | ProjetoFinal/spread/spread-src-5.0.1/daemon/protocol.c:697-700 | The holder sends the front of its queue, numbered on from the highest number it knows, and as many packets as both windows and the queue leave room for: whatever count these limits allow is at most what it sends; nothing when the ring is ahead by more than the gap limit. |
| RingSystem.VisitRemembers | ProjetoFinal/spread/spread-src-5.0.1/daemon/protocol.c:697-708 | What a visit leaves for the next one: the marks of the token passed on, the packets sent and the requests answered, which the token's count takes in for those of the visit before. |
| RingSystem.VisitDelivers | ProjetoFinal/spread/spread-src-5.0.1/daemon/protocol.c:822-858 | After its visit the holder has passed up everything up to its new stable mark, all that agreed delivery can pass up, and its own new floating packets. |
| RingSystem.MissingFirst | ProjetoFinal/spread/spread-src-5.0.1/daemon/protocol.c:719-753 | The requests put on the token are exactly the lowest missing numbers, in order, as many as there is room for. |
| RingSystem.RequestsPassedOn | ProjetoFinal/spread/spread-src-5.0.1/daemon/protocol.c:719-753 | A request the holder cannot answer stays on the token, unless the token is full of requests for lower numbers; it need not be copied (1030-1076 does not), because the holder misses the packet too. In an accelerated ring that goes up to the number on the holder's own last token, and nothing above is requested. |
| RingSystem.NextInv | ProjetoFinal/spread/spread-src-5.0.1/daemon/protocol.c:362-858 | Every step of the ring (packet copies, token visits, lost request lists, threshold changes, late delivery events, a daemon answering FORM1) keeps the ring invariant. |
| RingTheorems.Stability | ProjetoFinal/spread/spread-src-5.0.1/daemon/protocol.c:772-843 | In every run, what one daemon takes for stable every daemon has received and holds, and no daemon ever reaches a fatal branch of packet or token processing. |
| RingTheorems.SafeMeansEverywhere | ProjetoFinal/spread/spread-src-5.0.1/daemon/protocol.c:1757-1776 | A SAFE packet reaches the sessions of one daemon only when every daemon of the ring holds it. |
| RingTheorems.StepMonotone | ProjetoFinal/spread/spread-src-5.0.1/daemon/protocol.c:772-858 | No step lowers any daemon's stable mark or prefix or takes anything back from what it delivered. |
| RingTheorems.SlotSafety | ProjetoFinal/spread/spread-src-5.0.1/daemon/protocol.c:362-373 | In every run with gap limit plus largest allowance at most 8192, all packets a daemon holds or can still be sent lie in one table length above its discarded mark; no two share a slot. |
| RingTheorems.SlotBoundIsTight | ProjetoFinal/spread/spread-src-5.0.1/daemon/flow_control.c:68-80 | With any larger allowance there is a run of two daemons after which one has numbered a packet into the slot of the first packet, which it has not received. |
| RingTheorems.TotalOrder | ProjetoFinal/spread/spread-src-5.0.1/daemon/protocol.c:1558-1595 | In every run each daemon's ordered deliveries are the ring's packets in sequence order without a gap, each once; any two daemons' are prefixes of one another. |
| RingTheorems.CatchesUp | ProjetoFinal/spread/spread-src-5.0.1/daemon/protocol.c:487-858 | After the arrival of the next packet, a token visit or a delivery event nothing is left that agreed delivery could pass up, and no other step but a change of the threshold leaves anything. |
| RingTheorems.StayCaughtUp | ProjetoFinal/spread/spread-src-5.0.1/daemon/protocol.c:487-858 | So, through every run in which no threshold is set, every daemon has at every moment passed up all that agreed delivery can pass up. |
| RingTheorems.OnlySafeWaits | ProjetoFinal/spread/spread-src-5.0.1/daemon/protocol.c:1558-1595 | In every run, what such a daemon has received in order and not passed up waits for a SAFE packet at or before it that the daemon does not know to be stable. |
| RingTheorems.EventPasses | ProjetoFinal/spread/spread-src-5.0.1/daemon/protocol.c:1520-1551 | The event of early delivery passes up every floating packet in the table. |
| RingTheorems.InOrder | ProjetoFinal/spread/spread-src-5.0.1/daemon/protocol.c:1558-1595 | In every run, of the packets of services from FIFO on: whoever has passed one up has passed up every earlier one of the ring, of whichever sender, before it. |
| RingTheorems.FlowConservation | ProjetoFinal/spread/spread-src-5.0.1/daemon/protocol.c:697-708 | In every run the token's count is the sum of what the members sent and retransmitted at their last visits; without retransmissions and with equal windows it stays within both windows together. |
| TokenTransport.ProcessedInTurn | ProjetoFinal/spread/spread-src-5.0.1/daemon/protocol.c:591-650 | Among all copies of old and current tokens, a daemon processes exactly those of the latest visit when its turn is next. |
| TokenTransport.ProcessedOnceInOrder | ProjetoFinal/spread/spread-src-5.0.1/daemon/protocol.c:591-650 | In every run with copies lost, duplicated, resent or delayed up to 15 rotations, turn k is taken by daemon k mod n on the token that turn k-1 passed on: once each, in order. |
| TokenTransport.Verdicts | ProjetoFinal/spread/spread-src-5.0.1/daemon/protocol.c:566-627 | For every copy of allowed age: it is refused exactly if it is not the predecessor's, processed exactly if it is the latest visit's, and makes the daemon send its own last token again exactly if that token came from it, the copy's retransmission mark is higher, and the daemon is not the leader. |
| TokenTransport.PassesOn | ProjetoFinal/spread/spread-src-5.0.1/daemon/protocol.c:784-805 | Processing a copy leaves one new copy, of the next visit with that visit's ARQ value; the leader starts the retransmission mark at zero, the others pass it on. A copy that is neither processed nor answered changes nothing. |
| TokenTransport.AskedToResend | ProjetoFinal/spread/spread-src-5.0.1/daemon/protocol.c:607-627 | Being asked leaves a copy of the daemon's own last token, with the raised mark, on the network; nothing else changes. |
| TokenTransport.AnsweredOnce | ProjetoFinal/spread/spread-src-5.0.1/daemon/protocol.c:609-622 | After any run in which the daemon has passed on no later token, no copy of that token with the same or a lower mark is answered again. |
| TokenTransport.HurryRecovers | ProjetoFinal/spread/spread-src-5.0.1/daemon/protocol.c:1836-1877 | Wherever the token was when all its copies were lost: the leader's hurried copy makes each daemon in turn send its own last token again until the last that had the token sends it on, and the next daemon processes that copy. So as long as the four-bit mark has not wrapped. |
| TokenTransport.SixteenthIgnored | ProjetoFinal/spread/spread-src-5.0.1/daemon/protocol.c:1849-1851 | The sixteenth hurry of one token sends mark 0 again, which nobody answers. |
| TokenTransport.AgeBoundIsTight | ProjetoFinal/spread/spread-src-5.0.1/daemon/protocol.c:784-790 | With 16 marks no later arrival can be allowed: in every ring of two or more there is a run after which a copy 15 rotations and one visit old is under way that would be processed a second time. |
| PacketTable.ProtocolState.Entry | ProjetoFinal/spread/spread-src-5.0.1/daemon/protocol.c:368-369 | A slot lookup finds a packet exactly if the table holds that number, for every number in the window. |
| PacketTable.ProtocolState.Put | ProjetoFinal/spread/spread-src-5.0.1/daemon/protocol.c:427-430 | Filling a slot changes the table, seen by number, at that number only. |
| PacketTable.ProtocolState.HandleBcast | ProjetoFinal/spread/spread-src-5.0.1/daemon/protocol.c:362-492 | On the circular array, in operation and in recovery, also after the prefix was raised above everything in the table: the new state is the one of the specification, which the lemmas on reception and delivery pin down. |
| PacketTable.ProtocolState.AdvanceReceived | ProjetoFinal/spread/spread-src-5.0.1/daemon/protocol.c:481-485 | The loop ends at the end of the gap-free prefix. |
| PacketTable.ProtocolState.DeliverAgreed | ProjetoFinal/spread/spread-src-5.0.1/daemon/protocol.c:1558-1595 | The loop over the array gives the state of the specification, which by AgreedCatchesUp leaves nothing deliverable behind, including its fatal branches, also when recovery has raised the prefix. |
| PacketTable.ProtocolState.DeliverReliable | ProjetoFinal/spread/spread-src-5.0.1/daemon/protocol.c:1525-1551 | The loop over the array gives the state of the specification, of which ReliableDelivers says what is passed up. |
| PacketTable.ProtocolState.Discard | ProjetoFinal/spread/spread-src-5.0.1/daemon/protocol.c:1757-1776 | The loop over the array frees exactly the slots up to the stable mark, delivering what was pending, although the discarded mark moves only at the end. |
| PacketTable.ProtocolState.AnswerRequests | ProjetoFinal/spread/spread-src-5.0.1/daemon/protocol.c:1019-1092 | The count of answered requests; fatal exactly if a request is below the stable mark. |
| PacketTable.ProtocolState.SendOne | ProjetoFinal/spread/spread-src-5.0.1/daemon/protocol.c:1117-1266 | A new packet gets the next number and a slot that was free: the fatal branch for a taken slot is dead. |
| PacketTable.ProtocolState.SendAllowed | ProjetoFinal/spread/spread-src-5.0.1/daemon/protocol.c:652-716 | Exactly the allowed packets are numbered and tabled, and the prefix is extended over them. |
| PacketTable.ProtocolState.Request | ProjetoFinal/spread/spread-src-5.0.1/daemon/protocol.c:719-753 | Exactly the first missing numbers above the prefix that fit on the token. |
| PacketTable.ProtocolState.HandleToken | ProjetoFinal/spread/spread-src-5.0.1/daemon/protocol.c:652-858 | The whole token visit on the daemon's fields and array agrees with the specification, alarms included. |
| PacketTable.RunsStayInWindow | ProjetoFinal/spread/spread-src-5.0.1/daemon/protocol.c:362-373 | What the array methods require of numbers holds of every daemon in every run. |
| FormToken.GatherExact | ProjetoFinal/spread/spread-src-5.0.1/daemon/membership.c:1794-1943 | Whoever of the old ring the token visits and in whatever order: the entry carries the largest stable mark, the largest sequence number, exactly the numbers that no visited daemon has, and the visited daemons first in the commit set; the fatal branch on the trans set is not taken. |
| FormToken.GatherCommits | ProjetoFinal/spread/spread-src-5.0.1/daemon/membership.c:1905-1943 | The entry's commit set holds exactly whom the visited daemons' commit sets hold together, as long as these fit a ring. |
| FormToken.OwnPacketNeverHole | ProjetoFinal/spread/spread-src-5.0.1/daemon/membership.c:1429-1449 | A packet that a visited daemon sent is never listed as a hole. |
| MembershipTable.Create | ProjetoFinal/spread/spread-src-5.0.1/daemon/membership.c:1422-1482 | The loops over the array and the commit set write the specified entry. |
| MembershipTable.Fill | ProjetoFinal/spread/spread-src-5.0.1/daemon/membership.c:1850-1943 | The loops over holes, array and member lists write the specified entry, or take the fatal branch exactly when it does. |
| MembershipTable.InsertMember | ProjetoFinal/spread/spread-src-5.0.1/daemon/membership.c:1120-1140 | An id is added exactly if it is not in the list and the list is not full. |
| MembershipTable.HolesAboveDiscarded | ProjetoFinal/spread/spread-src-5.0.1/daemon/membership.c:1860-1877 | In a ring every hole of the entry lies above the next visited daemon's discarded mark. |
| FormHops.HopEnds | ProjetoFinal/spread/spread-src-5.0.1/daemon/membership.c:1600-1692 | Every accepted hop brings the token closer to its end, whatever its lists contain. |
| FormHops.Accepted | ProjetoFinal/spread/spread-src-5.0.1/daemon/membership.c:1600-1617 | A token is accepted by the daemon it was sent to, in the part it is listed for, and by nobody else. |
| FormHops.HopLists | ProjetoFinal/spread/spread-src-5.0.1/daemon/membership.c:1629-1686 | Who is listed after a hop: a ring representative brings all of its ring, a segment representative itself and whom it has collected, except daemons that are listed or representatives themselves. |
| FormHops.HopDistinct | ProjetoFinal/spread/spread-src-5.0.1/daemon/membership.c:1667-1686 | An accepted hop keeps the list free of duplicates if and only if the visitor is no ring representative with a ring member that is listed already. |
| FormHops.HopCounts | ProjetoFinal/spread/spread-src-5.0.1/daemon/membership.c:1629-1674 | The visitor is the one counted as visited next if and only if it is not a segment representative that was listed already. |
| FormHops.Circulates | ProjetoFinal/spread/spread-src-5.0.1/daemon/membership.c:1957-1983 | In every run from the token's creation: it visits daemons in the order in which it lists them, none twice, in a number of hops bounded by the representatives; the list stays free of duplicates if and only if every ring representative brought new daemons only; and a token that has visited all it lists, so that FORM2 follows, lists nobody twice. |
| FormHops.ListedTwice | ProjetoFinal/spread/spread-src-5.0.1/daemon/membership.c:1676-1686 | A run in which a ring representative lists a daemon again that a segment representative brought; nobody accepts that token any more. |
| FormHops.CountedUnseen | ProjetoFinal/spread/spread-src-5.0.1/daemon/membership.c:1634-1674 | One hop: a segment representative that is listed already filters itself out; the daemon behind it is counted as visited unseen. No run of the token's first circulation does that, see the next row. |
| FormHops.UnseenOnlyTwice | ProjetoFinal/spread/spread-src-5.0.1/daemon/membership.c:1600-1674 | In every run a hop counts another daemon than the visitor only if the visitor has answered this token before and left FORM since. |
| FormHops.AcceptedOnlyByTarget | ProjetoFinal/spread/spread-src-5.0.1/daemon/membership.c:1600-1617 | Only the daemon the token was sent to accepts it. |
| FormHops.Filter | ProjetoFinal/spread/spread-src-5.0.1/daemon/membership.c:1629-1665 | The nested loops keep exactly the collected members that are neither listed nor other representatives. |
| MemberOrder.SmallestMember | ProjetoFinal/spread/spread-src-5.0.1/daemon/membership.c:1227-1254 | The member whose configured place comes first; fatal exactly if one is not configured. |
| MemberOrder.SortMembers | ProjetoFinal/spread/spread-src-5.0.1/daemon/membership.c:1297-1313 | In place: the same members, in configuration order; fatal exactly if one is not configured. |
| MemberOrder.BuildMembership | ProjetoFinal/spread/spread-src-5.0.1/daemon/membership.c:2152-2164 | Every member lands in its own segment, in list order; fatal exactly if one is not configured. |
| MemberOrder.BuiltInListOrder | ProjetoFinal/spread/spread-src-5.0.1/daemon/membership.c:1973-1983 | For a list in configuration order, the token's order around the built membership is the order of the list. |
| Recovery.ReadForm2Succeeds | ProjetoFinal/spread/spread-src-5.0.1/daemon/membership.c:2175-2298 | When nothing arrived late: everything up to the agreed mark is delivered, the holes are marked, every packet is kept and the state is the one recovery starts from. |
| Recovery.ReadForm2Outcome | ProjetoFinal/spread/spread-src-5.0.1/daemon/membership.c:2175-2263 | Read_form2 takes a fatal branch if and only if a packet arrived after FORM1 that the entry calls a hole or does not know. |
| Recovery.RecountsAgree | ProjetoFinal/spread/spread-src-5.0.1/daemon/membership.c:2265-2298 | The two computations of the prefix always agree, so that fatal branch is dead. |
| Recovery.EvsReceive | ProjetoFinal/spread/spread-src-5.0.1/daemon/protocol.c:362-492 | An old-ring packet up to the agreed number that arrives during recovery fills its slot or is ignored; nothing is delivered. |
| Recovery.BackoffGood | ProjetoFinal/spread/spread-src-5.0.1/daemon/membership.c:2543-2572 | A failed attempt is undone: no dummy is left, the stable mark is the discarded mark, the prefix is the longest one, nothing the daemon had is lost. |
| Recovery.EvsDeliverResets | ProjetoFinal/spread/spread-src-5.0.1/daemon/protocol.c:1690-1755 | After the last delivery of the old ring a daemon is what it is at the start of a ring, except for its log. |
| MembershipTable.DropAbove | ProjetoFinal/spread/spread-src-5.0.1/daemon/membership.c:2175-2214 | Counting the highest number down empties exactly the slots above the agreed one; fatal exactly when the specification is. |
| MembershipTable.MarkHoles | ProjetoFinal/spread/spread-src-5.0.1/daemon/membership.c:2223-2263 | The loop marks exactly the holes; fatal exactly when the specification is. |
| MembershipTable.Recount | ProjetoFinal/spread/spread-src-5.0.1/daemon/membership.c:2267-2288 | One loop computes both counts of the prefix. |
| MembershipTable.ReadForm2 | ProjetoFinal/spread/spread-src-5.0.1/daemon/membership.c:2175-2298 | The whole work of Read_form2 on the array agrees with the specification, fatal branches included. |
| MembershipTable.Backoff | ProjetoFinal/spread/spread-src-5.0.1/daemon/membership.c:2543-2572 | The two loops on the array agree with the specification, also when the attempt fails after the prefix was raised to the last sequence number. |
| MembershipTable.EvsDeliver | ProjetoFinal/spread/spread-src-5.0.1/daemon/protocol.c:1606-1755 | Both delivery loops with their fatal branches, the check that no slot is left, and the reset for the new ring agree with the specification in every state whose packets lie in the window, which are the states after the barrier. |
| MembershipTable.RecoveryToken | ProjetoFinal/spread/spread-src-5.0.1/daemon/protocol.c:755-843 | On the fields and the array: the token's aru and the daemon's marks after a recovery token, the raised prefix, whether the commit set is taken over and whether the ring is installed; fatal exactly if the stable mark would go down. |
| MembershipTable.AttemptsStayInWindow | ProjetoFinal/spread/spread-src-5.0.1/daemon/membership.c:2543-2572 | In every state of any number of attempts the numbers lie where the array methods need them: every packet the old ring ever numbered is at or below the discarded mark or within one table length above it. |
| MembershipTable.EntriesInWindow | ProjetoFinal/spread/spread-src-5.0.1/daemon/membership.c:1850-1943 | The numbers in an entry that a daemon fills in or reads lie in its own table. |
| MembershipTable.BarrierStaysInWindow | ProjetoFinal/spread/spread-src-5.0.1/daemon/protocol.c:1606-1686 | In every run of the recovery ring, up to the moment of delivery, every member meets what the array methods require. |
| VirtualSynchrony.EvsDeliverPrescribed | ProjetoFinal/spread/spread-src-5.0.1/daemon/protocol.c:1611-1686 | A complete daemon delivers exactly the events that its old ring's entry prescribes, whatever it had delivered before, and raises no alarm. |
| VirtualSynchrony.GatheredFits | ProjetoFinal/spread/spread-src-5.0.1/daemon/membership.c:1794-1943 | The gathered entry fits every daemon that contributed to it and only collected packets since. |
| VirtualSynchrony.PacketsAboveAgreed | ProjetoFinal/spread/spread-src-5.0.1/daemon/protocol.c:479-492 | Whatever set of packets above the agreed number a recovering daemon receives: its table is complete if and only if nothing is missing up to the largest; delivering is fatal if and only if it is not; and if it is, the daemon delivers what is prescribed if and only if every packet above the agreed number is floating, or there is a hole and its sender is not in the commit set. |
| Recovery.MissingIsFatal | ProjetoFinal/spread/spread-src-5.0.1/daemon/protocol.c:1617-1657 | An empty slot anywhere between the discarded mark and the highest number makes one of the two delivery loops fatal. |
| EvsBarrier.ReadForm2Starts | ProjetoFinal/spread/spread-src-5.0.1/daemon/membership.c:2362-2387 | A daemon that read FORM2 is in the starting state of the barrier. |
| EvsBarrier.Barrier | ProjetoFinal/spread/spread-src-5.0.1/daemon/protocol.c:755-843 | In every run of the recovery ring: as soon as one member installs, every member has every packet of its own old ring or knows it for a hole, and delivers exactly what is prescribed. |
| EvsBarrier.OthersFollow | ProjetoFinal/spread/spread-src-5.0.1/daemon/protocol.c:1605-1611 | Once one member has installed, each other member installs on its next token. |
| EvsBarrier.EverybodyInstalls | ProjetoFinal/spread/spread-src-5.0.1/daemon/protocol.c:755-843 | Progress: from any point of a run at which every table is complete, five rotations in which nothing is lost bring every member to install the new ring. |
| EvsBarrier.NeverLowers | ProjetoFinal/spread/spread-src-5.0.1/daemon/protocol.c:822-843 | In every run of the recovery ring no token lowers the holder's stable mark: those fatal branches are dead in recovery as well. |
| EvsBarrier.AboveAgreedOutcome | ProjetoFinal/spread/spread-src-5.0.1/daemon/protocol.c:755-762 | Whatever packets a recovering member receives: it counts as finished if and only if its table is complete or it counted as finished before. Finished before, it exits on delivery if and only if a packet above the agreed number left a gap above that number; not finished, it waits while the gap is there. |
| Formations.EntryFits | ProjetoFinal/spread/spread-src-5.0.1/daemon/membership.c:2170-2263 | In every state of any number of attempts, the entry on a FORM2 token fits every member that may read it, whatever its earlier attempts did. |
| Formations.FailedAttemptsUndone | ProjetoFinal/spread/spread-src-5.0.1/daemon/membership.c:2543-2572 | After any number of failed attempts, with packets arriving all along, a member is in a proper old-ring state (no dummy, stable mark at the discarded mark, longest prefix), has every packet it had when operation ended, and took back no delivery. |
| Formations.EveryEntryExact | ProjetoFinal/spread/spread-src-5.0.1/daemon/membership.c:1794-1943 | In every attempt the entry is exact and no fatal branch of gathering it is taken; no packet of any daemon in its commit set is a hole or above the agreed number. |
| Formations.CommitsCarried | ProjetoFinal/spread/spread-src-5.0.1/daemon/membership.c:2574-2577 | A daemon's commit set goes from attempt to attempt and into every entry it contributes to; an entry's commit set replaces it exactly when the daemon finishes recovering with that entry. |
| Formations.ReadIsFatal | ProjetoFinal/spread/spread-src-5.0.1/daemon/membership.c:2175-2263 | In every attempt, reading FORM2 is fatal if and only if a packet arrived that the entry calls a hole or does not know. |
| Formations.SurvivorsPacketsDelivered | ProjetoFinal/spread/spread-src-5.0.1/daemon/membership.c:2574-2577 | In every attempt, every ordered packet of every daemon in the commit set is among what is delivered, also if that daemon did not answer and only committed earlier with one that did. |
| Formations.RecoveryPrescribed | ProjetoFinal/spread/spread-src-5.0.1/daemon/protocol.c:1611-1686 | In every attempt a completely recovered member delivers exactly the prescribed events and raises no alarm. |
| Formations.AssembledStarts | ProjetoFinal/spread/spread-src-5.0.1/daemon/membership.c:2346-2383 | Daemons of any number of old rings that have read FORM2, whatever they went through before, are where the barrier starts. |
| Formations.Installed | ProjetoFinal/spread/spread-src-5.0.1/daemon/protocol.c:1605-1686 | Once any daemon of the new ring has installed it, every member delivers exactly what the entry of its own old ring prescribes, without an alarm. |
| Formations.SameDeliveries | ProjetoFinal/spread/spread-src-5.0.1/daemon/protocol.c:1606-1686 | Virtual synchrony: two daemons of an old ring that come into the new ring together, after however many failed attempts, deliver the same ordered packets in the same order, with the transitional signal and the new view at the same point. |
| Formations.SafeMeansEverywhere | ProjetoFinal/spread/spread-src-5.0.1/daemon/protocol.c:1611-1650 | Across any attempts: a SAFE packet that a member has passed up before it delivers the transitional signal is held by every member of the old ring, also by those that do not come along. |
| Formations.SafeAheadOfSignal | ProjetoFinal/spread/spread-src-5.0.1/daemon/protocol.c:1617-1650 | The same of the final delivery: whatever SAFE packet it passes up ahead of the transitional signal, every member of the old ring holds. |
| FormationCases.LatePacketAborts | ProjetoFinal/spread/spread-src-5.0.1/daemon/membership.c:2195-2197 | A run after which reading FORM2 aborts a daemon although the late packet's sender is not a member of the future ring. |
| FormationCases.PacketAboveDiffers | ProjetoFinal/spread/spread-src-5.0.1/daemon/protocol.c:479-492 | A run after which two completely recovered daemons would deliver differently if one of them received one more packet, and a packet that would make it incomplete. |
| FormationCases.RecountedExits | ProjetoFinal/spread/spread-src-5.0.1/daemon/protocol.c:755-762 | A run after which a daemon that has recounted its prefix receives a packet with a gap below it: the recount still finds it finished, the barrier passes, and delivering is fatal. |
| RingOrder.Leader | ProjetoFinal/spread/spread-src-5.0.1/daemon/configuration.c:648-660 | The first member of the ring order; fatal exactly if there is none. |
| RingOrder.Last | ProjetoFinal/spread/spread-src-5.0.1/daemon/configuration.c:662-674 | The last member of the ring order; fatal exactly if there is none. |
| RingOrder.IdInSeg | ProjetoFinal/spread/spread-src-5.0.1/daemon/configuration.c:571-581 | The first index of the id in the segment, -1 exactly if it is not there. |
| RingOrder.Previous | ProjetoFinal/spread/spread-src-5.0.1/daemon/configuration.c:676-697 | The member one place before in the ring order, around the end; its fatal branch is dead. |
| RingOrder.SetMembership | ProjetoFinal/spread/spread-src-5.0.1/daemon/network.c:377-441 | The token goes to the member one place after in the ring order, broadcasts to the heads of the other segments; fatal exactly if the daemon is no member. |
| RingOrder.SendersAndReceiversMatch | ProjetoFinal/spread/spread-src-5.0.1/daemon/network.c:431-441 | Successor and predecessor are inverse to one another for every pair of members. |
| RingOrder.FullRotation | ProjetoFinal/spread/spread-src-5.0.1/daemon/configuration.c:648-674 | From the leader the token is at each member once and then at the leader again; the last is Conf_last. |
| RingOrder.CheckTransmitter | ProjetoFinal/spread/spread-src-5.0.1/daemon/protocol.c:566-570 | The transmitter check accepts a token from exactly the daemon that sends it to the receiver. |
| Packing.CompatibleTravels | ProjetoFinal/spread/spread-src-5.0.1/daemon/protocol.c:1222-1227 | A message may travel in a packet of its own service, or both are of a service above RELIABLE and below SAFE; so a SAFE message travels in SAFE packets only. |
| Packing.FillAddsWholeMessages | ProjetoFinal/spread/spread-src-5.0.1/daemon/protocol.c:1196-1245 | Behind the first fragment go only whole messages from the front of the queue, each of the packet's service or, like it, between RELIABLE and SAFE. |
| Packing.PacketContinues | ProjetoFinal/spread/spread-src-5.0.1/daemon/protocol.c:1117-1246 | A packet has the service of the message at the head and the fragment position the receiver expects; what it completes is exactly what leaves the queue, and each message that leaves may travel in its service. |
| Packing.SenderRebuilds | ProjetoFinal/spread/spread-src-5.0.1/daemon/protocol.c:1098-1269 | However messages are queued and packets sent: a sender's packets rebuild the messages that left the queue, in order, plus the started part of the next. |
| PacketBytes.WireRoundTrip | ProjetoFinal/spread/spread-src-5.0.1/daemon/protocol.c:1399-1441 | Parsing the packet body with its aligned headers gives back every fragment that was written. |
| PacketBytes.FilledUp | ProjetoFinal/spread/spread-src-5.0.1/daemon/protocol.c:1196-1245 | A packet is filled until the queue is empty, the next fragment with padding and header does not fit behind what is there, or its message may not travel in the packet. |
| PacketBytes.QueuePacketsSurvive | ProjetoFinal/spread/spread-src-5.0.1/daemon/protocol.c:1198-1245 | Every packet filled from a queue fits the packet body and survives the wire. |
| MessageQueues.DownQueue.Advance | ProjetoFinal/spread/spread-src-5.0.1/daemon/protocol.c:1163-1187 | The queue moves on by one fragment, which gets its index, negative on the last. |
| MessageQueues.DownQueue.AddFragments | ProjetoFinal/spread/spread-src-5.0.1/daemon/protocol.c:1190-1249 | The loop writes, behind the first fragment, the bytes of exactly the fragments that the specification adds. |
| MessageQueues.DownQueue.FillPacket | ProjetoFinal/spread/spread-src-5.0.1/daemon/protocol.c:1117-1249 | The bytes of exactly the packet the specification takes from the queue, of the service of the message at the head; each message that leaves may travel in it. |
| MessageQueues.DownQueue.SendNewPackets | ProjetoFinal/spread/spread-src-5.0.1/daemon/protocol.c:1098-1269 | No more packets than allowed, as many as that or until the queue is empty, each the one the queue yields next. |
| MessageQueues.UpQueues.DeliverPacket | ProjetoFinal/spread/spread-src-5.0.1/daemon/protocol.c:1366-1517 | The up queues afterwards and what is passed up; fatal exactly if the fragment's position is wrong. |
| MessageQueues.ReadMessages | ProjetoFinal/spread/spread-src-5.0.1/daemon/protocol.c:1392-1441 | The loop over the body yields exactly the whole messages behind the first fragment. |
| MessageQueues.BufferToFragments | ProjetoFinal/spread/spread-src-5.0.1/daemon/message.c:321-357 | Header and data are cut into fragments that are full except the last, which is not empty; together they are the input; fatal exactly if more than 100 are needed. |
| Reassembly.DeliveredAsSent | ProjetoFinal/spread/spread-src-5.0.1/daemon/protocol.c:1443-1517 | For every log in which each sender's ordered packets come in order and without a gap, however far for each, and with floating packets anywhere: the fatal sequence check never fires and each packet yields exactly the messages its sender completed with it. |
| Reassembly.RoundTrip | ProjetoFinal/spread/spread-src-5.0.1/daemon/protocol.c:1366-1517 | What a daemon gets from a sender without floating packets is a prefix of the messages that sender queued, whole and in order. |
| Reassembly.GapNoticed | ProjetoFinal/spread/spread-src-5.0.1/daemon/protocol.c:1443-1470 | If a sender's packet is left out, its next one is found wrong exactly if the packet left out was part of a message of several fragments. |
| EvsReassembly.NoMessageTorn | ProjetoFinal/spread/spread-src-5.0.1/daemon/protocol.c:1654-1686 | Across a membership change, after any number of attempts and behind holes: the fatal sequence check does not fire, each delivered packet yields exactly the messages its sender completed with it, and of a sender in the commit set nothing is missing. |
| SafeMessages.CompletedMessage | ProjetoFinal/spread/spread-src-5.0.1/daemon/protocol.c:1117-1245 | The packet that completes a sender's k-th message yields that message, and its service is one the message may travel in. |
| SafeMessages.SafeMessageEverywhere | ProjetoFinal/spread/spread-src-5.0.1/daemon/protocol.c:1757-1776 | In every run of the ring: when a daemon gets a SAFE message, every daemon has received every packet up to the one that completes it, and so all its fragments. |
| SafeMessages.SafeMessageBeforeSignal | ProjetoFinal/spread/spread-src-5.0.1/daemon/protocol.c:1611-1650 | The same of a SAFE message that a member gets before the transitional signal, across any attempts, for every member of the old ring. |
| SyncedSets.AddToSyncedSet | ProjetoFinal/spread/spread-src-5.0.1/daemon/groups.c:2778-2810 | The merge loop returns the two sets merged in configuration order; fatal exactly if an id is not configured or in both sets. |
| SyncedSets.MergeAscending | ProjetoFinal/spread/spread-src-5.0.1/daemon/groups.c:2778-2810 | Merging disjoint sets in configuration order gives one in configuration order. |
| SyncedSets.UpdateStatus | ProjetoFinal/spread/spread-src-5.0.1/daemon/groups.c:2821-2835 | In place: exactly the ids in the membership are kept, in order; the result says whether any was lost. |
| GroupExchange.NoteStep | ProjetoFinal/spread/spread-src-5.0.1/daemon/groups.c:1594-1690 | A GROUPS message: the daemon goes on gathering until its membership is covered, then its synced set is the whole membership; no fatal branch. |
| GroupExchange.TransStep | ProjetoFinal/spread/spread-src-5.0.1/daemon/groups.c:782-909 | A transitional membership in any phase of the exchange leads to the corresponding phase after it. |
| GroupExchange.RegStep | ProjetoFinal/spread/spread-src-5.0.1/daemon/groups.c:525-780 | At the next membership a daemon keeps exactly those who came along of what was covered, if its own representative was heard out, else of its old set. |
| GroupExchange.FatalPhases | ProjetoFinal/spread/spread-src-5.0.1/daemon/groups.c:525-909 | The phases in which an event is fatal: a transitional membership on top of another, a regular one without one before it, a GROUPS message when nothing is exchanged. |
| GroupHistory.EqualOrDisjoint | ProjetoFinal/spread/spread-src-5.0.1/daemon/groups.c:525-909 | In every run of memberships, partitions, merges and cascades: synced sets are in configuration order, any two equal or disjoint, all daemons of a membership are in the same state, and no fatal branch of the exchange is taken. |
| GroupState.GroupsState.MergeGathered | ProjetoFinal/spread/spread-src-5.0.1/daemon/groups.c:1710-1726 | The loop over the gathered representatives merges their sets; fatal exactly when the specification is. |
| GroupState.GroupsState.HandleTrans | ProjetoFinal/spread/spread-src-5.0.1/daemon/groups.c:782-909 | The handler's new state is the specified one; fatal exactly in GTRANS and GGT. |
| GroupState.GroupsState.HandleReg | ProjetoFinal/spread/spread-src-5.0.1/daemon/groups.c:525-780 | The handler's new state is the specified one; fatal exactly in GOP and GGATHER, or when sets intersect. |
| GroupState.GroupsState.HandleGroups | ProjetoFinal/spread/spread-src-5.0.1/daemon/groups.c:1550-1690 | The handler's new state is the specified one; fatal exactly in GOP and GTRANS, or when sets intersect. |
| GroupBuffers.TerminatesExactlyIfAllFit | ProjetoFinal/spread/spread-src-5.0.1/daemon/groups.c:2228-2242 | Building the buffers ends if and only if every daemon's record fits alone into a buffer with its group's header. |
| GroupBuffers.LimitIsOneTooHigh | ProjetoFinal/spread/spread-src-5.0.1/daemon/groups.h:53-57 | With as many local members as the header file allows, the loop never ends; one less always fits. |
| GroupBuffers.ExactlyOneBuffer | ProjetoFinal/spread/spread-src-5.0.1/daemon/groups.c:2066-2067 | Every daemon's record of a group is in exactly one buffer. |
| GroupBuffers.BuildHolds | ProjetoFinal/spread/spread-src-5.0.1/daemon/groups.c:2068-2226 | A buffer holds exactly the records between the iterators before and after it. |
| GroupBuffers.BuffersFit | ProjetoFinal/spread/spread-src-5.0.1/daemon/groups.c:2068-2226 | Every buffer that is built, with its headers, fits the message it is sent in. |
| GroupBuffers.BuildBuf | ProjetoFinal/spread/spread-src-5.0.1/daemon/groups.c:2068-2226 | The nested loops build the specified buffer and leave the iterators where it says. |
| GroupBuffers.BuildNewBufs | ProjetoFinal/spread/spread-src-5.0.1/daemon/groups.c:2228-2242 | The loop ends when all records fit; the buffers are the specified ones, the first built last. |
| GroupLists.ParseDescribes | ProjetoFinal/spread/spread-src-5.0.1/daemon/groups.c:2359-2473 | Whatever the order of consistent entries, the list has exactly the groups, daemons and members they mention, and a group counts as changed exactly if an entry says so or ids differ. |
| GroupLists.BuffersRebuild | ProjetoFinal/spread/spread-src-5.0.1/daemon/groups.c:2300-2475 | The buffers of one sender, read in any order, rebuild its groups, daemons and members. |
| GroupLists.SameListInAnyOrder | ProjetoFinal/spread/spread-src-5.0.1/daemon/groups.c:1731-1764 | Two daemons that read the same entries in different orders end with the same list, the same changed groups and the same ids. |
| GroupLists.Convergence | ProjetoFinal/spread/spread-src-5.0.1/daemon/groups.c:1697-1764 | Daemons of any two synced sets, each starting from its own list and reading all others' buffers in any order, end with the same list of groups, agree on which changed, give each changed group the id (new membership, 1), and have no changed group left. |
| GroupLists.HistoriesGive | ProjetoFinal/spread/spread-src-5.0.1/daemon/groups.c:2381-2455 | What convergence needs of group ids holds of lists that come from any history of the group. |
| GroupIds.NoTwoUnchanged | ProjetoFinal/spread/spread-src-5.0.1/daemon/groups.c:525-909 | In every history of memberships, joins, leaves, exchanges finished or cut short: two synced sets never both know a group as unchanged under ids of the same membership. |
| GroupIds.OpOnId | ProjetoFinal/spread/spread-src-5.0.1/daemon/groups.c:986-1207 | One join or leave: a change of the members raises the index by one and keeps the membership id, a new group has index 1, and what changes no member changes nothing. |
| GroupIds.IdNamesMembers | ProjetoFinal/spread/spread-src-5.0.1/daemon/groups.c:986-1207 | While a group is not emptied, two of its states in one membership have the same id if and only if nothing changed between them. |
| GroupIds.RepeatedIfEmptied | ProjetoFinal/spread/spread-src-5.0.1/daemon/groups.c:1187-1207 | If two states have one id and different members, the group was emptied in between. |
| GroupIds.IdsRepeat | ProjetoFinal/spread/spread-src-5.0.1/daemon/groups.c:999-1054 | For any two clients: join, leave, join of the other gives two memberships of one group with the same id and different members. |
| GroupIds.MembersAre | ProjetoFinal/spread/spread-src-5.0.1/daemon/groups.c:525-1207 | Whatever happened in a membership, who is a member when a part leaves it: the clients of its own daemons whose last operation was a join, or who sent none and were in a list that was read. |
| GroupIds.Undisturbed | ProjetoFinal/spread/spread-src-5.0.1/daemon/groups.c:525-909 | A group whose members stay together and send nothing goes through a change of membership with its id. |
| GroupIds.CountsInRegular | ProjetoFinal/spread/spread-src-5.0.1/daemon/groups.c:1738-1760 | A group that has changed is numbered from 1 in the regular membership that settles it, and its index counts its memberships from there. |
| GroupIds.CountsInTransitional | ProjetoFinal/spread/spread-src-5.0.1/daemon/groups.c:782-843 | A group that loses members is numbered from 1 in the transitional membership, as a changed group, and its index counts its memberships from there. |
| GroupDeliveries.SurvivorsArePart | ProjetoFinal/spread/spread-src-5.0.1/daemon/groups.c:525-909 | From recovery to synced sets: all daemons of an old ring that install a new one together read the same GROUPS messages, the same of them before the transitional membership, so they are one part of a history. |
| GroupDeliveries.SurvivorsAreChild | ProjetoFinal/spread/spread-src-5.0.1/daemon/groups.c:986-1207 | From recovery to group histories: they process the same joins and leaves, the same of them before the transitional membership, and behind it every one of their own clients, so what becomes of a group is a step of its history. |
| GroupIds.GroupEntry.Join | ProjetoFinal/spread/spread-src-5.0.1/daemon/groups.c:986-1076 | Members, id and mark of the group afterwards: a new one has index 1, a new member raises the index, a repeated join changes nothing; it becomes changed if the joiner's daemon is partitioned. |
| GroupIds.GroupEntry.Leave | ProjetoFinal/spread/spread-src-5.0.1/daemon/groups.c:1176-1207 | Members and id of the group afterwards: a member that leaves raises the index, and the last one takes the group away. |
| GroupLists.GroupsList.MessToGroups | ProjetoFinal/spread/spread-src-5.0.1/daemon/groups.c:2359-2473 | The loops over a message's groups and daemons add exactly its entries. |
| GroupLists.GroupsList.ComputeAndNotify | ProjetoFinal/spread/spread-src-5.0.1/daemon/groups.c:1697-1772 | All gathered messages are read, changed groups renewed, and exactly their members told. |
| MembershipTimers.Transitions | ProjetoFinal/spread/spread-src-5.0.1/daemon/membership.c:339-993 | For every state and event, in terms of these alone, exactly when SEG, REPRESENTED, GATHER, FORM, EVS and OP are entered: FORM only by answering or creating FORM1, never by a leader in OP, EVS only by FORM2, OP only by installing or going back from GATHER. |
| MembershipTimers.TokenLives | ProjetoFinal/spread/spread-src-5.0.1/daemon/membership.c:339-993 | The token dies exactly when it is lost or gives way to FORM1, and comes alive exactly with FORM2. |
| MembershipTimers.TimersQueued | ProjetoFinal/spread/spread-src-5.0.1/daemon/membership.c:339-993 | Exactly which events set which timer. |
| MembershipTimers.TimersEnded | ProjetoFinal/spread/spread-src-5.0.1/daemon/membership.c:339-993 | Exactly when a pending timer is taken out. |
| MembershipTimers.NextInv | ProjetoFinal/spread/spread-src-5.0.1/daemon/membership.c:752-993 | Every message, token and timer keeps the relation between state, token flag and pending timers. |
| MembershipTimers.EveryRun | ProjetoFinal/spread/spread-src-5.0.1/daemon/membership.c:752-993 | In every run no alarm of Memb_token_loss goes off, the token is alive exactly in the states that allow it, and the timer that ends each state is pending. |
| MembershipTimers.TimersInTheirStates | ProjetoFinal/spread/spread-src-5.0.1/daemon/membership.c:752-993 | In every run from start-up each timer is pending only in its own states, and the loss timer whenever the token is alive or being formed. |
| MembershipState.Membership.constructor | ProjetoFinal/spread/spread-src-5.0.1/daemon/membership.c:223-243 | Start-up ends in the state in which the runs begin. |
| MembershipState.Membership.LoseToken | ProjetoFinal/spread/spread-src-5.0.1/daemon/membership.c:752-866 | New state, token flag and timers; the alarm exactly in SEG, REPRESENTED, or GATHER without a token. |
| MembershipState.Membership.FormOrFailEvent | ProjetoFinal/spread/spread-src-5.0.1/daemon/membership.c:947-993 | New state, token flag and timers in all four outcomes. |
| MembershipState.Membership.HandleForm1 | ProjetoFinal/spread/spread-src-5.0.1/daemon/membership.c:680-714 | The token is swallowed or answered; new state, token flag and timers. |
| MembershipState.Membership.HandleAlive | ProjetoFinal/spread/spread-src-5.0.1/daemon/membership.c:339-410 | New state, token flag and timers in every state. |
| MembershipState.Membership.HandleJoin | ProjetoFinal/spread/spread-src-5.0.1/daemon/membership.c:412-559 | New state, token flag and timers in every state. |
| MembershipState.Membership.HandleToken | ProjetoFinal/spread/spread-src-5.0.1/daemon/protocol.c:549-884 | What a token does to the membership: the veto, the timers, installation and the round limit. |

## Left out

- Sockets, channels, unicast and broadcast calls: the network is any choice of copies that arrive, in any order.
- The wire format of headers and of GROUPS messages, and byte-order flipping: packet bodies are modelled down to
  their bytes, everything else by value. GROUPS entries are modelled with their exact sizes.
- Sessions, authentication, monitoring and client memberships: only what a daemon passes up is recorded.
- What joins, leaves and kills notify to sessions; the group they change is modelled in `GroupIds`.
- Configuration reload, partitions for testing, and priorities of file descriptors, which do not touch the modelled state.
- Clock values: membership ids are values that are given.
- Wrap-around of sequence numbers at 2^32: the code drops the token before (protocol.c:585-589), so numbers are integers.
- Progress under message loss: what is proved about progress is stability after three rotations and installation after five
  without loss, that hurrying recovers a lost token, the bound on FORM1 hops, the pending timer of every state and the end of every loop.
- The limits on the size of a FORM token (MAX_FORM_REPS, too many holes): a token is as large as it needs to be.
- The delayed sending of the accelerated ring: a packet counts as sent when it is numbered; the request limit is modelled.
- Requests of other rings on the token and the choice between unicast and broadcast of a retransmission.
- Read_form2's checks that a stored packet carries the old ring's id: the model's table holds only packets of its ring.
- Prot_handle_bcast's refusal of senders that are not configured; `Recovery.AllConfigured` states what it ensures.
- Message_element_len_fixup: that all fragments of a message but the last are full is what `Packing.Proper` says;
  it is proved of Message_Buffer_to_Message_Fragments and assumed of messages that clients send.
- Negative fragment lengths end the parsing of a packet; the daemon does not look for them.
- RingTheorems.TotalOrder: floating packets (reliable, one fragment) are outside the order, as in the code, but are
  delivered once like all others.
- Formations.SameDeliveries: compares the ordered packets; floating ones may differ. It assumes, as said above,
  that no packet above the agreed number arrives during recovery, and that a daemon does not answer the same FORM1
  token twice (in state FORM it swallows copies; an older copy would have to outlive the form timeout).
- FormHops.Circulates: likewise assumes that a daemon that answered stays in FORM while copies of the token travel.
- GroupHistory.EqualOrDisjoint: that the daemons of a transitional membership deliver the same GROUPS messages, at the
  same side of it, is a condition of a history; `GroupDeliveries.SurvivorsArePart` proves it of ordered packets. The last
  GROUPS message of a representative, on which completion depends, is AGREED (groups.c:2283); the ones before it are
  RELIABLE (groups.c:2281) and ordered as long as they fill more than one packet.
- GroupLists.Convergence: assumes of a daemon's own list that it differs from what its set sends at most in the ids of
  changed groups and in the membership ids in their records.
- GroupIds.NoTwoUnchanged: one membership at a time; that daemons whose exchange is not complete send and deliver no
  joins and leaves, and that a daemon delivers what it sent itself, are conditions of a history (`ChildOf`).
  `GroupDeliveries.SurvivorsAreChild` proves the latter and that all daemons of a part process the same operations.
- GroupDeliveries.SurvivorsAreChild: a join or leave is taken to fit one ordered packet of the client's own daemon.
- GroupLists.GroupsList.MessToGroups: sorted lists of groups, daemons and members are maps and sequences; the order of
  members within a daemon is kept.
- EvsBarrier.Barrier, EvsBarrier.EverybodyInstalls: the round limit that swallows the token in recovery is part of MembershipTimers only.
- PacketTable.ProtocolState.HandleBcast: requires the number to lie within one table length above the discarded mark,
  which is proved of every number in every run: `PacketTable.RunsStayInWindow` for operation,
  `MembershipTable.AttemptsStayInWindow` for attempts, `MembershipTable.BarrierStaysInWindow` for the recovery ring.
- MembershipTimers.EveryRun: which members and representatives a daemon collects is an argument of the events, not state.
