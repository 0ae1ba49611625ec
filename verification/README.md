# Verification of the MHI host core

MHI (Modem Host Interface) connects a host to a modem over PCIe. For every channel the host keeps a
ring of transfer descriptors (TREs) that the device reads and a private ring of buffer records beside
it; the device answers through event rings; a power-management (PM) state decides when doorbells may
be rung. This project models that core, the boot-time memory layouts, the packet framings of the
network drivers, the character device and the firehose flashing tool, and proves what they keep over
whole runs and for all inputs.

`dafny verify dfyconfig.toml` checks everything.

## How it is put together

| files | what they hold |
|---|---|
| `arith.dfy`, `bytes.dfy`, `ethernet.dfy` | quotients and remainders, byte fields, what the network drivers see of a frame |
| `rings.dfy` | `struct mhi_ring`: byte pointers that wrap, as an object |
| `channel_spec.dfy`, `channel.dfy` | one channel as functions on its history, and the object with both rings proved against them |
| `event_ring.dfy` | software event rings: posting, consuming with a quota, recycling, marking stale |
| `pm_states.dfy`, `wake.dfy` | the PM transition table on its bit masks, and the wake votes with their doorbell |
| `host.dfy`, `host_inv.dfy`, `host_steps.dfy`, `host_theorems.dfy` | the whole host as a transition system of 34 kinds of steps, its invariant, the proof that each step keeps it, and what follows for every run |
| `host_laws.dfy` | what a step does to each part of the state, in terms of plain states, codes and flags |
| `dispatch.dfy` | from the words of an event ring element to the host's step on ring and channel objects |
| `controller.dfy` | the PM methods, wake votes and queueing as an object on the state word, each proved to be its step of the host |
| `ctrl_segment.dfy`, `bhie.dfy` | the control segment allocator and the scattering of firmware images |
| `mbim*.dfy`, `chains.dfy` | MBIM: NTB16 receive and transmit, when the receive loop ends and when it stays inside its block, round trip and streams |
| `qmap.dfy`, `qmap_driver.dfy` | QMAP: aggregated frames, both versions |
| `uci_spec.dfy`, `uci.dfy` | the character device over a pair of channels: its read side as steps and runs, and the object |
| `firehose*.dfy` | images, session order, progress counters and the answers a session needs, for the flashing tool |

Code that updates objects is modelled by classes and loops; each method is proved against a function
(`View() == old(View()).Queue(...)`), and the theorems are about those functions and about runs. Lemmas named
`...Means`, `...Bytes`, `...Follows` or `...Words` state in bytes, codes and plain states what such a function
does, independently of how it is defined.

A step of the host is one region that the driver runs under a lock, or one whole client call. A run is
any sequence of such steps from a powered-down controller, so every interleaving of clients, handlers
and device at that grain is covered.

## What the proofs assume

The driver relies on these; they are the guards of `HostSpec.Guard` and `HostSpec.CanPost` and the
`requires` clauses of the objects.

- The device completes only TREs it has been told of and that are outstanding, on the channel's own
  event ring, in order; it posts no completion for a channel between its reset and its next start.
- `buf_ring.elements >= tre_ring.elements` on every channel.
- The handlers for M0, M1 and M3 run one at a time, and the device reports M0 only after the ready
  transition has finished.
- Clients queue only on channels that are started, and get and put wake votes in pairs; votes a client
  still holds when its device is removed are given back for it. Power-up happens with no devices and no
  holders.
- The ready transition finds event rings from which nothing was consumed since their last reset. One
  repeated in POR after an event was consumed would break the gap of one slot
  (`EventRings.EventRing.AddElements`).
- Every panic download leaves the other processors stopped.
- For addresses that are multiples of ring lengths: ring byte lengths are powers of two that divide
  the DMA address of the control segment.
- Every `program` element of a rawprogram file names a sector size, and a read of an image file is
  complete or fails.

## Where the code does less than one would expect

Each of these is stated exactly.

- `mhi_poll` can return more than its budget: exactly when more events are pending and one of the
  first `budget` is not a transfer event (`EventRings.PollOverrunsBudget`, with an instance in
  `EventRings.PollOverrunExample`).
- An event ring configured with no elements sends the control segment allocator back to offset 0; the
  layout is right exactly when no ring in use is empty (`CtrlSegment.LaidOutIffNonEmpty`).
- A buffer longer than 65535 bytes is not reported at its length, because `xfer_len` has 16 bits
  (`ChannelSpec.BatchLengths`).
- The receive loop of the MBIM driver ends exactly when no NDP offset comes up twice
  (`MbimChain.EndsIffNotCyclic`); `MbimBounds.SelfLinkedExample` is a block of 29 bytes on which it
  never does.
- Its check of the descriptor table leaves out the NDP's own offset. The loop reads nothing behind the
  block exactly if each table it comes to lies inside the block or has an entry there that ends it
  (`MbimBounds.WalkStays`); otherwise what is delivered can depend on the bytes behind the block
  (`MbimBounds.TableBehindExample` and the two lemmas after it).
- The MBIM transmit side numbers a frame before it looks at the VLAN tag, and sends frames of any length,
  while the receive side refuses blocks over its limit before it looks at their number. A stream shows no
  glitch exactly if before every block that is heard the numbers lost in a row, to tags above 511 or to
  the limit, are a multiple of 65536 (`MbimRoundTrip.NoGlitchIff`, with `MbimRoundTrip.OverlongExample`).
  Payloads come back exactly if they look like IP and their block is within the limit
  (`MbimRoundTrip.RoundTrip`); what becomes of all others is `MbimRoundTrip.SentReceived`.
- QMAP V1 transmit announces a second header that it does not send, and no such block comes back
  (`QmapDriver.V1NeverReturns`); without the flag it would (`QmapDriver.V1WithoutFlag`).
- `mhi_pm_suspend` also reports success when the controller already is in M3_ENTER
  (`Controllers.Controller.AllowM3`).
- A QMAP packet whose padding is longer than itself makes the 32-bit length of the copy wrap, and an
  empty packet at the very end of a block makes the driver look at the byte behind it; exactly when is
  `Qmap.EndsBadly`, with `Qmap.WrappedExample` and `Qmap.OutsideExample`.
- A read of the character device copies bytes and then reports an error exactly if it uses up its packet
  and the buffer cannot be queued again; over any run the stream is faithful iff no read does so with
  bytes left in its packet (`UciSpec.LateIff`, `UciSpec.StreamFaithfulIff`, `UciSpec.LostByteExample`).
- The flashing tool counts padding when it decides whether an image is complete, and writes padding into
  its payload buffer without a look at the buffer's end. A file is sent right, and from inside the
  buffer, exactly if the sector size divides the payload size or the padded file is at most one payload
  (`FirehoseImage.SentRightIff`; `FirehoseImage.OverrunExample` is a file that is not).
- `num_partition_sectors` has 32 bits; it is the length of the padded image exactly if that many sectors
  need no more (`FirehoseFlash.AnnouncedIff`).

## Model

| member | source | states |
|---|---|---|
| Rings.Ring.AddElement | drivers/bus/mhi/core/main.c:203-211 | the write pointer moves by one slot of the ring and wraps; a ring that is not full gains one element |
| Rings.Ring.DelElement | drivers/bus/mhi/core/main.c:213-221 | likewise for the read pointer; a ring that is not empty loses one element |
| Rings.Ring.IsFull | drivers/bus/mhi/core/main.c:956-965 | the pointer test is true exactly with elements - 1 elements in the ring |
| Rings.Ring.AvailElements | drivers/bus/mhi/core/main.c:182-196 | the byte-pointer differences yield elements - 1 less the occupancy, in both pointer orders |
| Rings.Ring.RecycleElement | drivers/bus/mhi/core/main.c:449-472 | both pointers move together, occupancy is kept and the context word goes on mirroring the write pointer |
| ChannelSpec.CompleteDelivers | drivers/bus/mhi/core/main.c:505-571 | a completion naming a slot hands back exactly the batch up to that slot and leaves the read slot after it |
| ChannelSpec.CompleteResultAt | drivers/bus/mhi/core/main.c:513-547 | per buffer of a batch: its own cookie, the event's status, full length for all but the last, the smaller of event and buffer length for the last |
| ChannelSpec.BatchLengths | drivers/bus/mhi/core/main.c:522-534 | a buffer before the last is reported whole iff its length fits the 16 bits of `xfer_len` |
| ChannelSpec.FlushDelivers | drivers/bus/mhi/core/main.c:1439-1469 | a reset hands back everything outstanding, in order, with -ENOTCONN, and empties the ring |
| ChannelSpec.CompleteInOrder | drivers/bus/mhi/core/main.c:505-571 | completions keep the delivered cookies a prefix of the accepted ones |
| ChannelSpec.FlushInOrder | drivers/bus/mhi/core/main.c:1439-1469 | so does a reset |
| Channels.Channel.GenTre | drivers/bus/mhi/core/main.c:1082-1127 | with both rings in lockstep: a mapped buffer is appended to the channel's history and its TRE has its address, its length in 16 bits and the flags; a failed mapping changes nothing |
| Channels.Channel.BufRingHasSpace | drivers/bus/mhi/core/internal.h:540-546 | free space in the transfer ring implies free space in the buffer ring |
| Channels.Channel.RingDb | drivers/bus/mhi/core/main.c:68-117 | the context word ends up at the write pointer; so does the doorbell register, but in burst mode only if `db_mode` was set, which this clears; otherwise the register is left alone |
| Channels.Dword1Fields | drivers/bus/mhi/core/internal.h:326-329 | type, interrupt and chain flags read back bit by bit from a TRE's last word |
| Channels.Channel.CompleteTransfers | drivers/bus/mhi/core/main.c:505-571 | the loop over both rings does what the completion function says, and `pending_pkts` falls by the buffers returned on an outbound channel |
| Channels.Channel.ParseXferEvent | drivers/bus/mhi/core/main.c:474-599 | all event codes: only an enabled channel reacts; completions return buffers, doorbell-mode events re-announce, others do nothing |
| Channels.Channel.ResetDataChan | drivers/bus/mhi/core/main.c:1439-1469 | the reset loop flushes both rings in lockstep and settles `pending_pkts` |
| Channels.Channel.InitChanCtxt | drivers/bus/mhi/core/init.c:572-610 | a started channel has empty rings, a context word at the base and `db_mode` set; without memory nothing changes |
| EventRings.EventRing.DevicePost | drivers/bus/mhi/core/pm.c:217-230 | a device that writes only up to the host's write pointer adds its event behind the unread ones and overwrites none |
| EventRings.EventRing.AddElements | drivers/bus/mhi/core/pm.c:217-230 | handing the ring to the device puts the write pointer on the last element, mirrored in the context word and rung; that is one slot behind the read pointer iff no event was consumed since the last reset |
| EventRings.EventRing.ProcessData | drivers/bus/mhi/core/main.c:845-897 | while the device goes on posting, a call consumes a prefix of the events there were and came, once each and in order, and dispatches exactly its transfer events; when it rings the doorbell; in a PM state without event access it does nothing |
| EventRings.ConsumedAppend | drivers/bus/mhi/core/main.c:858-887 | events that arrive during a call are consumed with what is left of its quota |
| EventRings.ConsumedStops | drivers/bus/mhi/core/main.c:845-897 | it stops only when the ring is drained or exactly the quota of transfers was dispatched, and not before |
| EventRings.PollOverrunsBudget | drivers/bus/mhi/core/main.c:889-896 | exactly when the returned count exceeds the budget |
| EventRings.PollOverrunExample | drivers/bus/mhi/core/main.c:889-896 | one stale event before a transfer event makes a budget of 1 return 2 |
| EventRings.EventRing.MarkStale | drivers/bus/mhi/core/main.c:1405-1437 | the channel's unread transfer events become stale, every other event on the ring stays as it is |
| EventRings.Dword1RoundTrip | drivers/bus/mhi/core/internal.h:309-314 | channel and type read back from the event word they were encoded in, and code and length survive |
| EventRings.EventRoundTrip | drivers/bus/mhi/core/internal.h:307-314 | code, length, channel and type read back from the words a device writes |
| EventRings.TransferWords | drivers/bus/mhi/core/main.c:861-880 | in those words: an event is dispatched iff its channel exists and its type is 0x22 or 0x28 |
| EventRings.StaledWords | drivers/bus/mhi/core/main.c:1420-1434 | in those words: marking makes type 0x51 of type 0x22 for that channel, and touches nothing else |
| EventRings.TransfersAre | drivers/bus/mhi/core/main.c:858-887 | of what is on the ring, exactly the transfers are dispatched, each as often as it is there |
| EventRings.StaledIsInert | drivers/bus/mhi/core/main.c:1420-1434 | a stale event is not dispatched, keeps its channel and code, and marking twice is marking once |
| Dispatch.HandleNext | drivers/bus/mhi/core/main.c:845-887 | taking one element off an event ring and giving its words to the channel's parser is the host's step on both objects and on `pending_pkts` |
| Dispatch.CodesByNumber | drivers/bus/mhi/core/main.c:505-586 | codes 2 to 4 complete buffers, 3 with an overflow; 5 and 6 ask for doorbells |
| Dispatch.DeviceWords | drivers/bus/mhi/core/internal.h:307-314 | the words a device writes for a transfer of a channel that ends at a slot are read as just that |
| Dispatch.MarkedAlike | drivers/bus/mhi/core/main.c:1405-1437 | marking the ring's elements stale is marking the host's events stale |
| PmStates.TableIsDocumentedRule | drivers/bus/mhi/core/pm.c:20-127 | for every pair of states the bit table grants exactly the moves its comment describes, and the word stays one-hot |
| PmStates.TableNeedsOneHot | drivers/bus/mhi/core/pm.c:110-127 | the table never acts on a word that is not one-hot |
| PmStates.MasksAreStateSets | drivers/bus/mhi/core/internal.h:439-454 | each access mask is the set of states it stands for, with and without `m2_no_db` |
| PmStates.LowPowerReachedThroughM0 | drivers/bus/mhi/core/pm.c:44-127 | along any run of table moves and direct writes, M2 and the M3 states are reached only through M0 |
| HostSteps.StepKeepsInv | drivers/bus/mhi/core/main.c:474-1490 | every step of the host keeps the whole invariant: ring shapes, conservation, announcements, events, wake votes |
| HostTheorems.RunInvariant | drivers/bus/mhi/core/main.c:474-1490 | so it holds in every state of every run |
| HostTheorems.EventsAlwaysAcceptable | drivers/bus/mhi/core/main.c:486-571 | in every reachable state the next event of each ring completes only outstanding buffers, so the completion loop ends where it should |
| HostTheorems.BuffersReturnInOrder | drivers/bus/mhi/core/main.c:505-571 | over every run each accepted buffer is handed to `xfer_cb` at most once and in FIFO order, and all of them once the channel is reset |
| HostTheorems.HistoriesGrow | drivers/bus/mhi/core/main.c:1082-1127 | what was accepted and what was handed back is never revised later in a run |
| HostTheorems.ResetReturnsTheRest | drivers/bus/mhi/core/main.c:1439-1490 | a reset in a run hands back each outstanding buffer with -ENOTCONN and no bytes |
| HostTheorems.CompletionReturnsBatch | drivers/bus/mhi/core/main.c:505-571 | consuming an overflow, end-of-block or end-of-transfer event in a run hands back the buffers up to the one the device named, with the promised lengths, an overflow told from a normal end |
| HostTheorems.NoAnnouncementLost | drivers/bus/mhi/core/pm.c:296-313 | whenever doorbells may be rung and M0 handling is over, every enabled channel's context word equals its write pointer and a burst channel has `db_mode` clear or an empty ring |
| HostTheorems.NoCompletionFromEarlierSession | drivers/bus/mhi/core/main.c:1405-1490 | every unread completion of an enabled channel names a buffer accepted since its last start and not yet returned |
| HostTheorems.ResetMarksOnlyItsOwn | drivers/bus/mhi/core/main.c:1405-1437 | a reset makes exactly the channel's own transfer events stale, on all rings |
| HostTheorems.PendingIsOutstanding | drivers/bus/mhi/core/pm.c:537-543 | `pending_pkts` is the sum of outstanding elements of outbound channels, and 0 once no device is left |
| HostTheorems.SuspendsOnlyWhenIdle | drivers/bus/mhi/core/pm.c:707-754 | at every entry to M3_ENTER all outbound rings are empty and there are no votes or holders |
| HostTheorems.WakeVotesHonoured | drivers/bus/mhi/core/pm.c:866-923 | `dev_wake` is the sum of votes and holders, `wake_set` is the doorbell register, its writes alternate, and a device vote in M0 or M2 keeps it set |
| HostTheorems.M0WithoutVotesClearsWake | drivers/bus/mhi/core/pm.c:315-320 | M0 handling that ends with no vote leaves the wake doorbell clear |
| HostTheorems.LowPowerOnlyThroughM0 | drivers/bus/mhi/core/pm.c:44-127 | along runs of the host, M2 and the M3 states come only after M0 with nothing but such states between |
| HostTheorems.FatalOnlyLeftThroughDisable | drivers/bus/mhi/core/pm.c:925-990 | shutdown and link-down are left only in DISABLE, direct writes included |
| HostTheorems.ErrorsOnlyLeftByReset | drivers/bus/mhi/core/pm.c:44-127 | error states are left only in DISABLE or from SYS_ERR_PROCESS to POR |
| HostLaws.PmFollows | drivers/bus/mhi/core/pm.c:20-127 | for each kind of step, from which states it moves the power state, and where to |
| HostLaws.WordCycles | drivers/bus/mhi/core/pm.c:20-127 | on the state word: through M2 and M3 and back to M0, from an error to POR, and from link-down to DISABLE |
| HostLaws.WakeFollows | drivers/bus/mhi/core/pm.c:866-923 | after any step: the count of votes, whether the wake doorbell is set, and the writes to it, by state, votes and kind of step |
| HostLaws.M2IsLeftWhenNeeded | drivers/bus/mhi/core/pm.c:707-754 | in a run, the vote of a suspend, a buffer queued where M2 doorbells are not allowed, and the kick set the wake doorbell of a device in M2 nobody held, the last two without leaving a vote |
| HostLaws.DoorbellFollows | drivers/bus/mhi/core/main.c:68-117 | for any step and channel: context word, doorbell register and `db_mode` change exactly when the step announces the channel, starts it, or arms its doorbell again |
| HostLaws.ModeLeftByRinging | drivers/bus/mhi/core/main.c:68-80 | in a run, `db_mode` is cleared only by a step that leaves the doorbell register and the context word at the write pointer |
| HostLaws.ChannelFollows | drivers/bus/mhi/core/main.c:967-1186 | for any step and channel: a buffer is appended iff a queue call gets past its checks and maps it; buffers come back only by a completion for the enabled channel or its reset; starts, stops and removals move the life cycle of their channels and of no other |
| HostLaws.EventsFollow | drivers/bus/mhi/core/main.c:845-897 | events are added at the end by the device and taken off one by one by the host; all are dropped by a power-up or a ring reset only |
| HostLaws.VotesFollow | drivers/bus/mhi/core/pm.c:1141-1179 | which steps change a device's votes, and how |
| HostLaws.HandlersFollow | drivers/bus/mhi/core/pm.c:244-325 | the M0 handler goes from phase to phase, channel by channel, if M0 was reached |
| WakeSpec.PutAllKeeps | drivers/bus/mhi/core/init.c:1283-1286 | giving back all votes of a removed device keeps flag and doorbell together and never clears them while another vote is left |
| Controllers.Controller.TrySetPmState | drivers/bus/mhi/core/pm.c:110-127 | the lookup on the state word is the documented rule, a refused move leaves the word |
| Controllers.Controller.AssertDevWake | drivers/bus/mhi/core/pm.c:866-901 | the count goes up by one; the doorbell is set afterwards iff it was before, or the vote is forced and the state is M0, M2 or M3_EXIT, or it is unforced, the first, and the state is M2; each change is one doorbell write |
| Controllers.Controller.DeassertDevWake | drivers/bus/mhi/core/pm.c:903-923 | the count goes down by one; the doorbell is cleared iff it was set, no vote is left, there is no override and the state is M0, M2 or M3_EXIT |
| Controllers.Controller.DeviceGet | drivers/bus/mhi/core/pm.c:1141-1153 | one host step, invariant kept |
| Controllers.Controller.DevicePut | drivers/bus/mhi/core/pm.c:1168-1179 | one host step, invariant kept |
| Controllers.Controller.AllowM3 | drivers/bus/mhi/core/pm.c:733-754 | the last locked region of suspend: M3_ENTER is entered only without votes and packets; when success is reported |
| Controllers.Controller.M1Transition | drivers/bus/mhi/core/pm.c:327-361 | M2 is entered and, with work or votes pending, the wake doorbell left set without changing the count |
| Controllers.Controller.QueueSkb | drivers/bus/mhi/core/main.c:967-1019 | queueing is one host step, with each refusal told apart; the buffer is appended to the history iff the call says that it is queued |
| Controllers.Controller.M0Transition | drivers/bus/mhi/core/pm.c:244-325 | for the wake vote and the channels, undisturbed, the handler is its four kinds of host steps in a row and leaves every channel announced |
| Controllers.M0NextStep | drivers/bus/mhi/core/pm.c:296-313 | each turn of the handler's channel loop is a step the host may take |
| CtrlSegment.AlignSpec | drivers/bus/mhi/core/init.c:231-336 | ALIGN moves up by less than the alignment, and to a multiple when it is a power of two |
| CtrlSegment.AllocDevCtxt | drivers/bus/mhi/core/init.c:231-336 | both loops place every ring in use at the aligned cursor and relocate it for host and device; tables come first; without memory it fails |
| CtrlSegment.PlacedIsGood | drivers/bus/mhi/core/init.c:252-330 | rings are pairwise disjoint, past the tables, inside the segment, at equal host and device offsets, and aligned to their length |
| CtrlSegment.AllocatedIsGood | drivers/bus/mhi/core/init.c:231-336 | that holds of every ring of every group after the allocation |
| CtrlSegment.TablesAreGood | drivers/bus/mhi/core/init.c:231-336 | the context tables lie one behind the other in front of the rings, at equal host and device offsets |
| CtrlSegment.LaidOutIffNonEmpty | drivers/bus/mhi/core/init.c:252-300 | the layout is correct iff no ring in use is empty |
| Bhie.AllocBhieTable | drivers/bus/mhi/core/boot.c:307-359 | one segment per started seg_len bytes plus the vector table sized for as many descriptors; on failure everything allocated is freed, last first |
| Bhie.ChunkCount | drivers/bus/mhi/core/boot.c:312-313 | an image needs exactly as many segments as the allocator reserves |
| Bhie.FirmwareCopy | drivers/bus/mhi/core/boot.c:361-384 | every piece of the image is in its segment with its address and length in the vector table; the last entry and the descriptors beyond are untouched |
| Bhie.TableHoldsImage | drivers/bus/mhi/core/boot.c:307-359 | a table allocated for at least the image's size has a data segment and a descriptor for every piece of it |
| Bhie.LoadImage | drivers/bus/mhi/core/boot.c:474-482 | allocated for the image's size and copied into, what the device gathers through the vector table is the image; it fails exactly for want of memory |
| Bhie.ScatterLosesNothing | drivers/bus/mhi/core/boot.c:361-384 | what the device gathers through the descriptors is the image, and their sizes add up to its size |
| Bhie.RddmPrepare | drivers/bus/mhi/core/boot.c:22-55 | a descriptor for each data segment, and the vector table handed to the device |
| Mbim.NtbDecodes | drivers/net/mhi/cdc_mbim.c:108-257 | any well-formed NTB16 with any number of NDPs and datagrams decodes to exactly those, in order, with their tags |
| Mbim.DeliveredInside | drivers/net/mhi/cdc_mbim.c:193-235 | whatever the block holds, a delivered datagram is a range inside it that starts like IP and is within the limit |
| Mbim.BadEntryKeepsEarlier | drivers/net/mhi/cdc_mbim.c:193-257 | datagrams before the first bad entry, in its own NDP and in those before, are delivered, and nothing after it |
| Mbim.EntryFollows | drivers/net/mhi/cdc_mbim.c:193-235 | one entry in its bytes: a datagram inside the block and the limit that starts with 0x40 to 0x4f or 0x60 to 0x6f is taken, any other ends the block, a zero field the table |
| Mbim.HeadMeans | drivers/net/mhi/cdc_mbim.c:156-191 | which NDPs are read on, in their bytes |
| Mbim.SignBytes | drivers/net/mhi/cdc_mbim.c:177-191 | "IPS" stands for sessions 0 to 255, "DSS" for 256 to 511, anything else for none |
| Ethernet.FrameTypes | drivers/net/mhi/cdc_mbim.c:41-62 | VLAN headers, IPv4 and IPv6 by the two bytes of their types |
| MbimDriver.BlockBytes | drivers/net/mhi/cdc_mbim.c:71-99 | the sent block byte by byte |
| MbimDriver.FateMeans | drivers/net/mhi/cdc_mbim.c:41-88 | which frames are sent, and which take a number without being sent, in their bytes |
| MbimDriver.ReceiveMeans | drivers/net/mhi/cdc_mbim.c:117-145 | which blocks are looked at, and their number, in their bytes |
| MbimDriver.NtbReceived | drivers/net/mhi/cdc_mbim.c:108-257 | a well-formed block is accepted with its number and all its datagrams |
| MbimDriver.CdcMbim.TxFixup | drivers/net/mhi/cdc_mbim.c:41-106 | which frames are dropped before or after taking a number, the block of the others, the counter modulo 65536 |
| MbimDriver.CdcMbim.RxFixup | drivers/net/mhi/cdc_mbim.c:108-257 | the nested loops queue what the decoder says and count on from the block's number; when a glitch is reported, when the loop would not end and when it leaves memory (the decoder in bytes: `Mbim.EntryFollows`, `Mbim.HeadMeans`, `MbimDriver.ReceiveMeans`) |
| MbimRoundTrip.SentIsNtb16 | drivers/net/mhi/cdc_mbim.c:71-99 | a sent block is a well-formed NTB16 with one NDP naming the payload |
| MbimRoundTrip.RoundTrip | drivers/net/mhi/cdc_mbim.c:41-257 | transmit then receive is the identity on payload and tags 0 to 511 iff the payload starts with 0x40 to 0x4f or 0x60 to 0x6f and is at most 31716 bytes long |
| MbimRoundTrip.SentReceived | drivers/net/mhi/cdc_mbim.c:41-257 | what any sent block of any length is received as: refused by its header, or accepted with its payload cut to 16 bits of length, if that starts like IP |
| MbimRoundTrip.StreamArrives | drivers/net/mhi/cdc_mbim.c:71-145 | any stream arrives frame by frame in order; a block that is heard shows a glitch iff the numbers lost in a row before it, to tags or to the receive limit, are no multiple of 65536 |
| MbimRoundTrip.NoGlitchIff | drivers/net/mhi/cdc_mbim.c:71-145 | a stream shows no glitch iff that count is a multiple of 65536 before every block that is heard |
| MbimRoundTrip.NoGlitchWithoutLoss | drivers/net/mhi/cdc_mbim.c:128-145 | a stream that loses no number to a tag or to the receive limit shows none, however often the number wraps |
| MbimRoundTrip.OverlongExample | drivers/net/mhi/cdc_mbim.c:128-139 | a frame one byte over the limit is sent and refused, and the next shows a glitch |
| MbimChain.EndsIffNotCyclic | drivers/net/mhi/cdc_mbim.c:149-246 | the loop over NDPs ends, and then within 65536 turns, iff no offset comes up twice |
| MbimChain.CyclicNeverStops | drivers/net/mhi/cdc_mbim.c:149-246 | on a cyclic chain it runs for any number of turns |
| MbimChain.SelfLinkNeverEnds | drivers/net/mhi/cdc_mbim.c:243-246 | an accepted NDP that names itself is such a chain |
| MbimBounds.SelfLinkedExample | drivers/net/mhi/cdc_mbim.c:149-246 | a concrete block that is accepted and keeps the loop running for any number of turns |
| MbimBounds.TableStays | drivers/net/mhi/cdc_mbim.c:193-201 | reading a table looks only at the block iff the table lies inside it or an entry inside it ends it |
| MbimBounds.WalkStays | drivers/net/mhi/cdc_mbim.c:149-246 | the whole loop looks only at the block iff that holds of every NDP it comes to |
| MbimBounds.ReceivedAlike | drivers/net/mhi/cdc_mbim.c:108-257 | such a block is received alike whatever lies behind it |
| MbimBounds.TableBehindExample | drivers/net/mhi/cdc_mbim.c:172-197 | a concrete block with an accepted header whose table is read from behind the block |
| MbimBounds.EntryBehindExample | drivers/net/mhi/cdc_mbim.c:172-197 | with a descriptor behind it, that block delivers the byte the descriptor names |
| Qmap.FramesDecode | drivers/net/mhi/qmi_wwan.c:161-211 | any frames, with or without the second header, deliver exactly the unpadded packets of the data frames in order with their tags; what follows is decoded on its own |
| Qmap.TurnFollows | drivers/net/mhi/qmi_wwan.c:161-211 | one frame in its bytes: a packet inside the block that starts with 0x40 to 0x4f or 0x60 to 0x6f is delivered without its padding, any other ends the block, a command is skipped |
| Qmap.BlockDecodes | drivers/net/mhi/qmi_wwan.c:161-211 | a block of nothing but frames is drained |
| Qmap.DeliveredInside | drivers/net/mhi/qmi_wwan.c:161-211 | whatever the block holds, a delivered packet is a range inside it that starts like IP |
| Qmap.EndsBadly | drivers/net/mhi/qmi_wwan.c:161-203 | the length of a copy wraps, and the loop looks behind the block, iff it comes to a data frame with more padding than packet, or to an empty one at the end |
| QmapDriver.QmiWwan.TxFixup | drivers/net/mhi/qmi_wwan.c:88-153 | which frames are dropped, and the block of the others in both versions |
| QmapDriver.BlockBytes | drivers/net/mhi/qmi_wwan.c:122-150 | the blocks of both versions byte by byte |
| QmapDriver.TakesMeans | drivers/net/mhi/qmi_wwan.c:88-122 | which frames are sent, with which payload and multiplexer id, in their bytes |
| QmapDriver.QmiWwan.RxFixup | drivers/net/mhi/qmi_wwan.c:155-223 | the loop delivers what the decoder says and says how it ended (one turn of the decoder in bytes: `Qmap.TurnFollows`) |
| QmapDriver.V5RoundTrip | drivers/net/mhi/qmi_wwan.c:122-211 | V5 transmit then receive is the identity on payload and tag iff the payload starts with 0x40 to 0x4f or 0x60 to 0x6f and fits 16 bits |
| QmapDriver.V1NeverReturns | drivers/net/mhi/qmi_wwan.c:113-121 | a V1 block is refused or at least never delivered as it was sent |
| QmapDriver.V1WithoutFlag | drivers/net/mhi/qmi_wwan.c:113-121 | with the flag clear it would be a well-formed frame |
| Uci.UciChan.QueueInbound | drivers/bus/mhi/uci.c:123-158 | success means a ring full up to its last free slot, and when it succeeds |
| Uci.UciChan.DlXferCb | drivers/bus/mhi/uci.c:515-540 | a packet joins the unread ones unless its status is an error other than an overflow |
| Uci.UciChan.Read | drivers/bus/mhi/uci.c:384-486 | one read is one step of the downlink side; it copies and then fails iff it uses up its packet and the buffer cannot be queued again; buffers never fill the ring, and reads never cross a packet |
| Uci.UciChan.CopyOut | drivers/bus/mhi/uci.c:448-476 | the bytes copied are the next unread ones of one packet; a used-up buffer is queued again, for which there is always room |
| Uci.UciChan.StreamFaithful | drivers/bus/mhi/uci.c:384-486 | bytes copied, packet by packet, plus bytes unread are the bytes received, at all times |
| UciSpec.LateIff | drivers/bus/mhi/uci.c:448-476 | which reads succeed and which fail after their copy, by a guard on the state before the call |
| UciSpec.ErrorsFollow | drivers/bus/mhi/uci.c:396-452 | each error of a read that copies nothing, and exactly when it is reported |
| UciSpec.ServedFollows | drivers/bus/mhi/uci.c:448-476 | a served read returns the next bytes of its packet; once that is used up, its buffer is back on the ring, shortened by 32 bytes, unless it cannot be queued |
| UciSpec.BuffersKept | drivers/bus/mhi/uci.c:384-540 | no step loses a buffer but a packet dropped for its status and a read that fails late |
| UciSpec.StreamFaithfulIff | drivers/bus/mhi/uci.c:384-540 | over any run of packets, reads and removal, what reads report plus what is unread is what was unread plus what arrived, iff no read met that guard with bytes left in its packet |
| Uci.UciChan.Write | drivers/bus/mhi/uci.c:292-382 | a write succeeds iff the buffer is not empty and every turn it comes to goes well, and its error is the first thing that failed in the turn that did not; a successful one queues the user's buffer in full-sized chunks ending with MHI_EOT, a failed one a proper prefix; a chunk is chained to the next exactly if a descriptor is free for that, which then need not wait, and no chain stays open for want of one |
| Uci.TurnOutcomes | drivers/bus/mhi/uci.c:311-371 | every turn of a write goes well or goes wrong, with exactly one error |
| FirehoseImage.SentRightIff | tools/firehose_protocol.c:629-682 | a file is sent as its bytes and zeros, with no padding past the payload buffer, iff the sector size divides the payload size or the padded file is at most one payload |
| FirehoseImage.ImageIsPaddedFile | tools/firehose_protocol.c:651-682 | a file that fits is sent right and every byte of it is counted once |
| FirehoseImage.PaddedMeans | tools/firehose_protocol.c:667-670 | a padded file is the file and zeros, fewer than a sector, up to a multiple of the sector size |
| FirehoseImage.ZerosInside | tools/firehose_protocol.c:651-682 | of files longer than a payload, all are sent as their bytes and zeros iff the sector size divides the payload size |
| FirehoseImage.SectorsHoldImage | tools/firehose_protocol.c:412-416 | the announced number of sectors is the length of the padded image |
| FirehoseFlash.PlanSendsEachOnce | tools/firehose_protocol.c:765-822 | every command goes out once: vendors, erases, programs, each kind in table order |
| FirehoseFlash.AnnouncedIff | tools/firehose_protocol.c:412-416 | the 32-bit sector count is the length of the padded file iff it needs no more than 32 bits |
| FirehoseFlash.ProgramSendsFile | tools/firehose_protocol.c:629-695 | a program command whose file fits is followed by its padded file, as long as announced iff the count needs no more than 32 bits |
| FirehoseFlash.PlanIsReceived | tools/firehose_protocol.c:765-822 | read from the wire, the session gives the target every command once, in order, each program with exactly its file and zeros |
| FirehoseFlash.TotalAppend | tools/firehose_protocol.c:735-752 | the bytes to transfer are the sizes of the programs' files, added up |
| FirehoseDriver.Flasher.Fixup | tools/firehose_protocol.c:735-752 | it succeeds iff all files can be used; then the sector counts of all programs are filled in and the sizes added up |
| FirehoseDriver.Flasher.SendRawmodeImage | tools/firehose_protocol.c:629-695 | through its payload buffer the loop sends a beginning of the image, all of it iff the file fits and every read and write is complete, and counts what it read |
| FirehoseDriver.Flasher.Flash | tools/firehose_protocol.c:697-834 | whatever the target answers, what was sent is the beginning of the planned session; it ends well iff there are commands, all their files can be used and fit, every transfer is complete and every answer is as it should be, and then it has heard exactly those answers, the target has got each command once with exactly its file and zeros, and `transfer_bytes` is `all_bytes_to_transfer`; every failure has its cause |
| FirehoseAnswers.GoodMeans | tools/firehose_protocol.c:595-822 | what a session needs: the configuration accepted at last, an ACK for each vendor and erase command, two for each program, an answer to the reset, complete transfers and files that fit; and how many answers that is |
| FirehoseAnswers.SwitchesMeans | tools/firehose_protocol.c:794-818 | a program's two answers are ACKs with raw mode 1 and 0 |
| FirehoseAnswers.GreetingMeans | tools/firehose_protocol.c:589-623 | 8192 bytes are offered, then once what a refusal names, and the last offer is what is used |
| FirehoseDriver.UsableMeans | tools/firehose_protocol.c:374-422 | which files can be used |
| FirehoseDriver.FixedAnnounces | tools/firehose_protocol.c:412-416 | after the fix-up a program's sectors are the length of what the target gets iff they need no more than 32 bits |

## Left out

- Pre-allocated channels (`pre_alloc`), whose buffers are queued again inside the completion loop, and
  coalesced (RSC) completions, which advance only the transfer ring.
- Offloaded channels and event rings: the client manages them.
- Hardware event rings, whose `wp` is reset on every mission-mode M0, so that the gap of one slot is not kept.
- The command ring and `mhi_send_cmd`: a channel start is one step whose outcome is free.
- Locks, barriers, DMA mapping and bounce buffers: locked regions are atomic steps, mapping may fail
  before any pointer moves.
- Interleavings inside one queue call, and a client that queues while its channel is being reset.
- Timeouts and wait queues: their outcome is a parameter or a separate step.
- Power-up's system-error branch, which tests `ret` with inverted sense, and the RAM dump in a panic
  beyond its write of the PM state.
- Failure of `netdev_alloc_skb` for want of memory, link-layer headers and `netif_receive_skb`.
- Statistics and NAPI of `mhi_net.c`, and `mhi_net_mbim.c`, a near copy of `cdc_mbim.c`.
- Release of the character device, `poll`, and a second opener.
- Short reads of image files that are not errors, responses cut in pieces, XML text, log messages and
  unchecked results of `fh_send_cmd`.
- debugfs, sysfs, PCI probing, interrupts, DTR and RAM dump clients.
- Controllers.Controller.AllowM3: the checks and the wait of `mhi_pm_suspend` before its last locked region are not part of it; the votes taken meanwhile are steps of the host.
- Controllers.Controller.M0Transition: leaves out the doorbells of the event rings and of the command ring.
- QmapDriver.QmiWwan.RxFixup: after a wrapped length nothing is modelled, since whether that allocation succeeds is up to `netdev_alloc_skb`; nor after a look behind memory.
- MbimDriver.CdcMbim.RxFixup: nothing is modelled after a table has left memory.
- FirehoseDriver.Flasher.Flash: nothing is modelled after padding has left the payload buffer.
- Uci.UciChan.Read: `cur_buf` is handed over in two locked regions in the driver; here a packet can arrive only before the first or while it waits.
- HostSpec.MarkStale: works on the unread events as a sequence; the loop over the ring in memory is EventRings.EventRing.MarkStale.
- Controllers.Controller.QueueSkb: works on channels as values; the update of both rings in place is Channels.Channel.GenTre.
