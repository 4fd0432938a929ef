# Verified model of the EVA (computer vision processor) driver

The driver of the EVA core talks to firmware over rings in shared memory, keeps DMA mappings for the buffers of
many frames, runs commands with fences through a pipeline of threads, and looks after the core's interrupt, power
and clocks. This project models those parts in Dafny and proves what they are meant to keep. `dafny verify
dfyconfig.toml` checks all of it.

Each part of the driver has its modules:

- **Ring queues** (`Packets`, `HfiRing`, `RingProtocol`, `RingInvariant`, `RingTheorems`, `RingCalls`, `RingProgress`).
  `HfiRing.Ring` is the queue as the host updates it, over an array of words, proved against a sequence of packets.
  `RingProtocol` takes writer and reader apart into single accesses to shared memory, interleaved in any order,
  with sequentially consistent memory; the firmware is taken to run the mirror function.
- **DMA mappings and frames** (`SearchTree`, `MapCache`, `CacheSweep`, `FrameLedger`, `MappingSearch`,
  `FrameFit`, `DmaInstance`, `FrameOps`, `PersistOps`, `PersistRelease`, `SessionRuns`). `DmaInstance.Instance` holds
  the fields of a session; the calls on it are methods, each made under the session's locks. The mapping records are a
  pool under handles that stand for their addresses. HFI version 2 is modelled: there are no parameter packets, and the fd of a packet's
  descriptor is unsigned, so that the test for a negative one never succeeds.
- **Fence pipeline** (`SessionQueue`, `FencePipeline`, `FenceInvariant`, `FenceRouting`, `FenceTheorems`,
  `FenceSending`, `FenceProgress`). A transition system with any number of senders and fence threads, one flusher at a time, and firmware that answers
  what it was sent at most once; a step is what happens under one lock or between two (`FencePipeline.SenderDoes`,
  `WorkerDoes`, `FlusherDoes`, `OtherDoes`). `SessionQueue` has the response queues as classes.
- **Interrupt and power** (`IrqPower`). The steps of interrupt handler, threaded handler, power-on and power-off.
- **Clock and bandwidth vote** (`PowerDemand`, `PowerVote`, `PowerFigures`). Exact demand on one side, the driver's arithmetic on the
  other, and where they agree.
- **Session states** (`SessionState`), **source buffers of warp-NCC frames** (`WnccTable`), and **buffers shown to
  processes** (`BufferMmap`). `Lists` has the removal of an element that several of them use.

What the kernel and the firmware decide (success of a mapping, the iova it gets, allocation, answers, errors,
rebalancing of a red-black tree, scheduling) is a parameter or an arbitrary choice. Unmapping succeeds, and warp-NCC
mappings have nonzero iovas.

Some promises do not hold of the code as it stands, or not everywhere. The model follows the code, and says where:

- A read call that meets an oversized packet returns without polling again, so a packet published during the call can
  be left without a wakeup. Two runs show it: one in which the compare of the indices has seen the newer packet
  (`RingCalls.OversizedExitLosesWakeup`), and one in which the packet is published, and rx_req sampled, between the
  compare and the store of rx_req (`LateStoreLosesWakeup`). `UnwokenExactly` says exactly when, from the moment rx_req
  is stored. The call discards what was published before its sample of `write_idx`; if that sample found the ring empty
  and only the re-check saw the packet, that is nothing, and the packet stays at the head (`Resync`).
- A read call that meets a zero size word returns with packets waiting too, and possibly with rx_req clear. No later
  call takes a packet either, so that no report would help (`RingCalls.ZeroSizeBlocks`).
- The transmit side has no re-check and can lose its wakeup (`RingCalls.FullOnEmptyRing`). A writer that is told "full"
  is answered exactly when some packet was still to be passed, or the reader just about to look at tx_req, at the
  refusal (`AnsweredExactly`).
- `find_max` keeps an unsigned long in an int: it is exact if and only if the maximum is below 2 to the 31
  (`PowerVote.CodeMaxExact`). Beyond that demand can get lost, and a vote that is refused for one session is granted
  for two (`LostDemand`); where the sums fit it cannot (`VoteGrows`).
- The comment on `adjust_bw_freqs` promises best effort, not an error, to clock votes of sessions that are not realtime;
  the code refuses them like any other (`PowerFigures.RefusedWithoutRealtime`).
- `msm_cvp_comm_try_state` returns 0 for a failure that is no timeout while no error code is on record
  (`SessionState.SilentFailure`). `UnreportedExactly`, and the contract of `Inst.TryState`, say exactly when, by the
  state, the error code on record and the events to come: the first call on the way that does not go through fails,
  otherwise than by a timeout, nothing strikes the session by then, and no code is on record or an answer on the way
  has cleared it.
- Unregistering a feature buffer, and releasing the driver's buffers, unmaps them whatever their counts: the session's
  books stay right if and only if no listed frame refers to what goes (`PersistRelease.UnmapFeaturePersist`,
  `FreeOwnedBy`). `SessionRuns.UnregisteredInUse` is a run in which one does.
- Registering a warp-NCC buffer returns 0 when the table is full, with nothing registered
  (`WnccTable.Table.Register`).
- The range check of buffers does not look at offsets past the end of the mapping (`MapCache.BufValidIsInside`).

## Model

| member | source | states |
|---|---|---|
| `Packets.ParseFlatten` | `msm/eva/cvp_hfi.c:497-541` | Words that are the packets of a queue laid end to end, each announcing its own size, split back into exactly those packets. |
| `Packets.Parse` | `msm/eva/cvp_hfi.c:649-699` | What splitting by size words yields, laid end to end again, is the words it came from, and every piece announces its size. |
| `HfiRing.Ring.constructor` | `msm/eva/cvp_hfi.c:1594-1608` | A new ring is empty, asks for a receive interrupt except on the debug queue, and does not ask for a transmit one. |
| `HfiRing.Ring.WriteQueue` | `msm/eva/cvp_hfi.c:466-578` | A packet is accepted exactly when it fits below the one slot that stays free; it then joins the unread packets at the end, no unread word changes whether or not it wraps, and a refusal changes nothing but the request for a transmit interrupt. |
| `HfiRing.Ring.ReadQueue` | `msm/eva/cvp_hfi.c:580-727` | The oldest unread packet comes out word for word and only it goes; a zero size stops the reader; an oversized one discards what was published; the interrupt request follows what is left. |
| `HfiRing.Ring.Append` | `msm/eva/cvp_hfi.c:519-541` | The split copy appends the chunk to the unread words for any position of the indices. |
| `HfiRing.Ring.CopyOut` | `msm/eva/cvp_hfi.c:657-685` | The split copy reads the words that follow the read index round the end of the ring. |
| `HfiRing.AppendWrapped` | `msm/eva/cvp_hfi.c:523-541` | Laying the end of a chunk at the start of the ring and the rest at its end extends the unread words by the chunk. |
| `HfiRing.Advance` | `msm/eva/cvp_hfi.c:649-664` | Moving the read index over a run of words removes that run from the front of the unread words. |
| `RingInvariant.StepKeepsInv` | `msm/eva/cvp_hfi.c:497-555` | Every shared-memory access of either party keeps the layout of the ring, what each party knows, and the wakeup condition. |
| `RingInvariant.RunKeepsInv` | `msm/eva/cvp_hfi.c:466-727` | The same over every interleaving of any length. |
| `RingTheorems.Fifo` | `msm/eva/cvp_hfi.c:497-699` | In every interleaving packets come out word for word, in the order they went in, each at most once, and all of them when none was oversized. |
| `RingTheorems.EqualIndicesMeanEmpty` | `msm/eva/cvp_hfi.c:627-627` | In every interleaving both indices stay inside the ring and are equal exactly when every published packet has been passed: full is never taken for empty. |
| `RingTheorems.NoLostWakeup` | `msm/eva/cvp_hfi.c:543-555` | On a message queue, when the reader has returned "empty" and packets are waiting, the writer has reported rx_req_is_set or is about to sample it set. |
| `RingCalls.ReadCall` | `msm/eva/cvp_hfi.c:623-699` | A read call under interference ends empty, with the oldest packet, at a zero size, or having dropped exactly the packets published when it sampled write_idx. |
| `RingCalls.Resync` | `msm/eva/cvp_hfi.c:665-699` | After an oversized packet what was published before the sample is gone, later packets stay readable and the ring is well formed. The discarded part is empty when the sample was taken before the re-check. |
| `RingCalls.DroppedIsDeaf` | `msm/eva/cvp_hfi.c:693-699` | If the compare saw newer packets when the oversized packet was dropped, the reader has left rx_req clear, and it stays clear, with nothing reported, until the next call. |
| `RingCalls.DroppedAndArmed` | `msm/eva/cvp_hfi.c:693-699` | Otherwise rx_req is set, and the writer reports, or is about to sample it set, exactly if it had done so when the call ended or has published since. |
| `RingCalls.UnwokenExactly` | `msm/eva/cvp_hfi.c:693-699` | Exactly when the exit after an oversized packet leaves packets without a wakeup, decided as rx_req is stored: newer packets are there, none reported since the call began, and the compare saw them, or none is published later and the writer has none to sample rx_req for. |
| `RingCalls.OversizedExitLosesWakeup` | `msm/eva/cvp_hfi.c:665-699` | A concrete run: the wakeup claim does not extend to the exit after an oversized packet. |
| `RingCalls.LateStoreLosesWakeup` | `msm/eva/cvp_hfi.c:693-699` | Another concrete run, in which the compare saw nothing newer and rx_req ends up set. |
| `RingCalls.ZeroSizeBlocks` | `msm/eva/cvp_hfi.c:657-663` | With a zero size word at the head no schedule of calls and writes passes another packet. |
| `RingCalls.FullOnEmptyRing` | `msm/eva/cvp_hfi.c:501-517` | A concrete run: the transmit side has no re-check, so a writer can be told "full" by a ring that is empty. |
| `RingCalls.QuietNeverAnswers` | `msm/eva/cvp_hfi.c:633-645` | With nothing to read, no number of polls answers a writer's request. |
| `RingCalls.AnsweredExactly` | `msm/eva/cvp_hfi.c:501-517` | A writer told "full" has been answered by the time the reader is done with every packet, exactly if at the refusal a packet was still to be passed or the reader was about to look at tx_req. |
| `RingProgress.RefusedExactly` | `msm/eva/cvp_hfi.c:504-521` | The writer is refused exactly when the packet leaves no slot free behind what was unread at its sample of read_idx, wherever the indices are; refusal and acceptance set and clear the request for an interrupt and touch nothing else. |
| `RingProgress.WrittenExactly` | `msm/eva/cvp_hfi.c:497-578` | A packet handed to an idle writer that nobody disturbs is published, and reported if rx_req is set, exactly when it leaves a slot free; otherwise the writer is told "full". |
| `RingProgress.ReadExactly` | `msm/eva/cvp_hfi.c:623-727` | A call on an idle reader that nobody disturbs says "empty" exactly when everything has been passed, and otherwise delivers the oldest packet, stops at a zero size, or drops what is there for an oversized one. |
| `RingProgress.ReaderEnds` | `msm/eva/cvp_hfi.c:623-727` | Every read call ends within a bounded number of its own turns, whatever the writer does. |
| `RingProgress.WriterEnds` | `msm/eva/cvp_hfi.c:497-578` | So does every write call. |
| `SearchTree.Find` | `msm/eva/msm_cvp_buf.c:1304-1319` | The walk from the root finds what the ordered tree holds under the key. |
| `SearchTree.LookupInOrder` | `msm/eva/msm_cvp_buf.c:1304-1319` | In an ordered tree a search finds an entry exactly when the walk of the tree meets it. |
| `SearchTree.LinkInOrder` | `msm/eva/msm_cvp_buf.c:1417-1430` | Linking a node at the bottom inserts its entry in key order, the rest being as before. |
| `SearchTree.RebalanceInOrder` | `msm/eva/msm_cvp_buf.c:1430-1430` | Any rotations leave the walk of the tree as it was. |
| `SearchTree.NextInOrder` | `msm/eva/msm_cvp_buf.c:1382-1403` | The successor taken before a node is erased is the next entry of the walk. |
| `SearchTree.EraseInOrder` | `msm/eva/msm_cvp_buf.c:1390-1390` | Erasing a key removes exactly its entry from the walk. |
| `SearchTree.TreeIsMap` | `msm/eva/msm_cvp_buf.c:1304-1430` | After any run of insertions and removals with any rebalancing the tree is ordered and answers every search as a plain map does. |
| `CacheSweep.SweptExactly` | `msm/eva/msm_cvp_buf.c:1381-1403` | The eviction walk leaves a mapping exactly when it is referred to or not among the entries walked. |
| `CacheSweep.WalkErases` | `msm/eva/msm_cvp_buf.c:1382-1403` | One round that erases: the tree keeps the entries before the node that are referred to and all those after it, and the saved successor is where the walk goes on. |
| `CacheSweep.SweptSound` | `msm/eva/msm_cvp_buf.c:1373-1405` | After eviction counts, index and sums are right again, nothing referred to is gone, and nothing was freed exactly when every cached mapping was referred to. |
| `MapCache.BufValidIsInside` | `msm/eva/msm_cvp_buf.h:24-26` | What the 32-bit range check accepts: with an offset not past the end, exactly the ranges inside the mapping. |
| `MapCache.TakenThen` | `msm/eva/msm_cvp_buf.c:1511-1611` | Taking references in two steps is taking their sum, whatever is evicted in between. |
| `MapCache.Rollback` | `msm/eva/msm_cvp_buf.c:2235-2268` | Taking references and dropping the same ones restores every count, whatever was evicted or added on the way. |
| `MapCache.TakenAfterEviction` | `msm/eva/msm_cvp_buf.c:1436-1465` | Making room and adding a mapping takes exactly one reference and loses only unreferenced cached mappings. |
| `MapCache.StillAbsent` | `msm/eva/msm_cvp_buf.c:1445-1463` | Eviction brings no dma_buf back into the tree, so the insertion after it meets no duplicate. |
| `DmaInstance.Instance.constructor` | `msm/eva/msm_cvp_buf.h:122-128` | A new session has no mappings, frames or registrations and right books. |
| `DmaInstance.Instance.FreeUnusedMapping` | `msm/eva/msm_cvp_buf.c:1373-1405` | Exactly the unreferenced cached mappings are unmapped; the result is their number. |
| `DmaInstance.Instance.WalkAndErase` | `msm/eva/msm_cvp_buf.c:1381-1403` | The walk visits every entry once and leaves the entries of referred mappings in order. |
| `DmaInstance.Instance.FindSmem` | `msm/eva/msm_cvp_buf.c:1320-1371` | The mapping shared is the one the cache, else the persist list, else the frame list holds for the dma_buf; it and only it gains a reference. |
| `DmaInstance.Instance.AddRbNode` | `msm/eva/msm_cvp_buf.c:1408-1434` | The new mapping is indexed, counted in nr and the watermark, and has one reference. |
| `DmaInstance.Instance.AddSmem` | `msm/eva/msm_cvp_buf.c:1436-1482` | A mapping goes into the cache unless that is full and every cached mapping referred to; then it stays outside (-ENOMEM). With room that is all that changes, otherwise everything unreferenced goes and nothing else. The capacity only moves from 128 to 256. |
| `DmaInstance.Instance.GetSmem` | `msm/eva/msm_cvp_buf.c:1511-1612` | A buffer gets a mapping exactly when its range fits the one it would share, or a new one; a shared one gains a reference, and a new one goes into the cache exactly when there is room or something unused to evict; a refusal leaves every count as it was. |
| `DmaInstance.Instance.GetPersistSmem` | `msm/eva/msm_cvp_buf.c:1534-1552` | A persist buffer gets a mapping of its own with one reference. |
| `MappingSearch.FoundExactly` | `msm/eva/msm_cvp_buf.c:1320-1371` | The search succeeds exactly when some cached, registered or listed mapping is of that dma_buf, and yields such a one. |
| `MappingSearch.InFramesExactly` | `msm/eva/msm_cvp_buf.c:1353-1369` | The scan of the frame list succeeds exactly when a slot of a listed frame refers to a mapping of the dma_buf. |
| `FrameLedger.ReferenceDropped` | `msm/eva/msm_cvp_buf.c:1986-2018` | Dropping one reference keeps all counts right; an uncached mapping goes exactly with its last. |
| `FrameLedger.RenderedLater` | `msm/eva/msm_cvp_buf.c:2235-2280` | Later mappings and evictions do not disturb descriptors already rewritten. |
| `FrameLedger.MatchedEntry` | `msm/eva/msm_cvp_buf.c:310-322` | The persist buffer found is the first on the list with the fd and size. |
| `FrameLedger.MatchExactly` | `msm/eva/msm_cvp_buf.c:310-322` | And none is found exactly if none has. |
| `FrameLedger.IovaInside` | `msm/eva/msm_cvp_buf.c:1957-1957` | The iova of a buffer whose range lies inside its mapping is that far from the mapping's start, with all of the range inside. |
| `FrameFit.FitIsAcceptable` | `msm/eva/msm_cvp_buf.c:2235-2280` | A buffer that fits every mapping it may come to is acceptable, whatever has been evicted or mapped for the buffers before it. |
| `FrameFit.OneCandidate` | `msm/eva/msm_cvp_buf.c:2235-2280` | Where each buffer may only come to its own new mapping, the condition that suffices for a frame and the one that is needed are the same. |
| `FrameOps.MapFrameBuf` | `msm/eva/msm_cvp_buf.c:1893-1973` | Another slot is filled exactly when the frame has fewer than 40 and the buffer is acceptable, with the mapping it would share, or else a new one that is cached exactly when there is room or something unused, and the iova of its offset there; mappings already referred to stay where they are. |
| `FrameOps.UnmapFrameBuf` | `msm/eva/msm_cvp_buf.c:1975-2024` | Every slot drops one reference; an uncached mapping goes exactly with its last, a cached or registered one stays. |
| `FrameOps.MapDescriptor` | `msm/eva/msm_cvp_buf.c:2235-2280` | One round of the loop: which descriptors are cleared, which resolved from the persist list, which mapped, and exactly when the round fails. |
| `FrameOps.MapFrame` | `msm/eva/msm_cvp_buf.c:2187-2289` | Either every buffer is mapped, each slot to its own dma_buf, every descriptor rewritten and the frame listed under the new id; or frames and usage are as before and every mapping referred to keeps its count. It succeeds if at most 40 buffers need a slot and each fits every mapping it may come to, told from the session before the call, and only if each fits one of them. |
| `FrameOps.UnmapFrame` | `msm/eva/msm_cvp_buf.c:2052-2085` | The first listed frame with the id, fence bit ignored, goes and drops its references; without one nothing changes. While ids are distinct none with the id is left, so a second call changes nothing. |
| `FrameOps.OnlyFrame` | `msm/eva/msm_cvp_buf.c:2062-2085` | Taking a frame off the list leaves no frame with its id. |
| `PersistOps.MapUserPersistBuf` | `msm/eva/msm_cvp_buf.c:1788-1888` | A dma_buf already registered gains a registration and a reference and keeps the larger size; another gets a mapping of its own; a failure changes nothing. |
| `PersistOps.MapFeaturePersist` | `msm/eva/msm_cvp_buf.c:1614-1680` | A feature buffer with the same fd and size as one on the list is left alone; another is registered with a mapping of its own. |
| `PersistOps.AllocateArp` | `msm/eva/msm_cvp_buf.c:2611-2668` | The driver's own buffer is mapped and registered with one reference. |
| `PersistRelease.UnmapFeaturePersist` | `msm/eva/msm_cvp_buf.c:327-398` | The first feature buffer with the fd and size goes with its mapping, whatever its count; with none, or a buffer registered otherwise, nothing changes. The books stay right exactly when no listed frame refers to the mapping. |
| `PersistRelease.FeatureAtExactly` | `msm/eva/msm_cvp_buf.c:367-391` | The buffer that goes is the first feature buffer on the list with the fd and size, and none goes when the look-up before the walk finds nothing. |
| `PersistRelease.FreeOwnedBy` | `msm/eva/msm_cvp_buf.c:2726-2753` | Releasing the driver's buffers takes exactly those off the list and unmaps them, the rest staying in order; so does the end of a session with all the others. The books stay right exactly when no listed frame refers to what goes. |
| `PersistRelease.DeinitBuffers` | `msm/eva/msm_cvp_buf.c:2293-2391` | Afterwards no frame, no client registration and no cached mapping is left, usage, nr and watermark are zero, and only the driver's own memory is mapped. |
| `PersistRelease.CacheEntryGone` | `msm/eva/msm_cvp_buf.c:2368-2391` | Taking the first node out of the tree keeps index and sums right. |
| `SessionRuns.Session` | `msm/eva/msm_cvp_buf.c:327-2753` | Any run of calls with any answers of the kernel keeps the books of the session right, up to a call that unmaps, whatever its count, a mapping some listed frame refers to. |
| `SessionRuns.Do` | `msm/eva/msm_cvp_buf.c:327-2753` | Each call keeps the books right exactly when it is not of that kind. |
| `SessionRuns.UnregisteredInUse` | `msm/eva/msm_cvp_buf.c:376-391` | A concrete run that ends with a frame whose mapping is gone. |
| `SessionRuns.Accounts` | `msm/eva/msm_cvp_buf.c:1329-1371` | What the books say: a mapping's count is the number of slots of listed frames that refer to it plus its registrations; fallback mappings live only while referred to; no two cached mappings share a dma_buf. |
| `SessionRuns.TeardownFrees` | `msm/eva/msm_cvp_buf.c:1986-2020` | A frame's teardown frees a mapping exactly when it is an uncached, unregistered one that no other frame refers to. |
| `SessionQueue.TakesOwnOldest` | `msm/eva/msm_cvp.c:125-138` | A waiter takes its own oldest message; everybody else's stay, in order. |
| `SessionQueue.WaitersCommute` | `msm/eva/msm_cvp.c:125-138` | Two waiters get the same messages whichever comes first. |
| `SessionQueue.Queue.Enqueue` | `msm/eva/hfi_response_handler.c:616-628` | A message joins the end of the queue exactly when fewer than 128 are there; the count stays the length of the list. |
| `SessionQueue.Queue.MsgPending` | `msm/eva/msm_cvp.c:102-145` | The head without a key, the first message with the key otherwise, nothing if there is none, and deletion reported whatever the list holds. |
| `SessionQueue.Inbox.Deliver` | `msm/eva/hfi_response_handler.c:594-632` | A response goes to the fence queue exactly when its data has the fence bit; the other queue is left alone. |
| `SessionQueue.RoutedExactly` | `msm/eva/hfi_response_handler.c:594-632` | A response joins the end of the queue that bit 63 of its data chooses, if fewer than 128 are there, and nothing else changes. |
| `FenceInvariant.SenderKeepsInv` | `msm/eva/msm_cvp.c:831-967` | Every step of a sender keeps the window, the places of commands and what has been done for them. |
| `FenceInvariant.WorkerKeepsInv` | `msm/eva/msm_cvp.c:403-640` | So does every step of a fence thread; which step follows which is for `FenceSending.InputsDecide`. |
| `FenceInvariant.FlusherKeepsInv` | `msm/eva/msm_cvp.c:2106-2284` | So does every step of the flusher, the cleaning of the lists included. |
| `FenceInvariant.CleanedCmdsExactly` | `msm/eva/msm_cvp.c:2137-2153` | The loop over wait_list retires exactly the kernel-fence commands on it, each once. |
| `FenceInvariant.CleanedWaitExactly` | `msm/eva/msm_cvp.c:2137-2153` | And leaves exactly the others, in their order. |
| `FenceInvariant.RunKeepsInv` | `msm/eva/msm_cvp.c:403-967` | All of it in every run. |
| `FenceTheorems.Quiescence` | `msm/eva/msm_cvp.c:869-879` | In every run send_count is the number of senders inside, and none is inside from the moment the flusher has seen zero until it opens the door. |
| `FenceTheorems.NothingAppended` | `msm/eva/msm_cvp.c:812-816` | While it is quiet no step adds to wait_list. |
| `FenceTheorems.QuietPeriod` | `msm/eva/msm_cvp.c:2118-2152` | Nothing arrives on wait_list from the moment zero was seen to any later moment of the same flush. |
| `FenceTheorems.FlushLeavesNothing` | `msm/eva/msm_cvp.c:2209-2284` | A flush that succeeds leaves no kernel-fence command behind: each was freed with its outputs dealt with once and its fences released once, or dropped before it was queued. |
| `FenceTheorems.OutputsOnce` | `msm/eva/msm_cvp.c:464-541` | Outputs are signalled or cancelled and fences released at most once, and exactly once by the time a command is freed, whoever frees it. |
| `FenceTheorems.OnePlace` | `msm/eva/msm_cvp.c:423-435` | Every command is in exactly one place, and on a list at most once. |
| `FenceTheorems.OnlyForward` | `msm/eva/msm_cvp.c:423-435` | Commands are never forgotten and only move forward. |
| `FenceTheorems.TakenInOrder` | `msm/eva/msm_cvp.c:423-435` | A thread takes the command that arrived before every other one waiting. |
| `FenceTheorems.Fifo` | `msm/eva/msm_cvp.c:423-435` | Of two commands taken in a run the later one arrived later. |
| `FenceRouting.RunKeepsRouting` | `msm/eva/msm_cvp.c:458-486` | In every run, until the counter goes round: ids are distinct and above 0x200, nothing is sent twice under an id, and each response to an id waits in the queue of its kind, once. Packets and responses without an id, whose data is 0, may repeat. |
| `FenceRouting.OwnResponse` | `msm/eva/msm_cvp.c:458-486` | A thread that receives takes a response with its own data, leaves no second one, and the rest in order. |
| `FenceRouting.OthersFindTheirs` | `msm/eva/msm_cvp.c:110-144` | What any other thread would find is as before. |
| `FenceSending.SentExactly` | `msm/eva/msm_cvp.c:462-488` | In every run a command has gone to the firmware exactly if its thread's session_send, or for fences of the firmware its sender's, has succeeded. |
| `FenceSending.SentAfterInputs` | `msm/eva/msm_cvp.c:462-480` | A thread comes to send a command only after the wait for that command's input fences succeeded. |
| `FenceSending.InputsDecide` | `msm/eva/msm_cvp.c:462-488` | With the input fences there the thread can send; without them it turns to the output fences; a command of the firmware's fences goes to its response. |
| `FenceSending.FailureIsNeverSent` | `msm/eva/msm_cvp.c:466-488` | A command whose input fences or sending failed is never sent in the rest of the run, and until the counter goes round its data is not among what the firmware was ever sent. |
| `FenceSending.MadeThenQueued` | `msm/eva/msm_cvp.c:735-816` | A command with kernel fences is queued without being sent, one with fences of the firmware only after; each has the next transaction id. |
| `FenceSending.ResponseArrives` | `msm/eva/hfi_response_handler.c:594-632` | The answer to a command's data reaches the thread that waits for it, if its queue has room, and taking it leaves the queue as it was. |
| `FenceProgress.NeverStuck` | `msm/eva/msm_cvp.c:403-640` | Every thread with a command, sender inside its window and flusher has a step of its own to take; an open door lets senders in, and a flusher with nobody to wait for goes on. |
| `FenceProgress.TakenIsFreed` | `msm/eva/msm_cvp.c:437-640` | A command that a thread has taken is freed within five more steps of the thread, whatever everybody else does. |
| `FenceProgress.FirmwareFlushed` | `msm/eva/msm_cvp.c:2209-2284` | A flush waits for sched_list, and succeeds, only after the firmware's own flush succeeded in it. |
| `FenceProgress.DrainingExactly` | `msm/eva/msm_cvp.c:2209-2284` | The door is shut exactly from the start of a flush to its end, and for good after one that ends a session. |
| `IrqPower.StepKeepsInv` | `msm/eva/cvp_hfi.c:3775-3882` | Every step of interrupt handler, thread, power-on and power-off keeps the account of the disable depth, also in the middle of power operations. |
| `IrqPower.RunKeepsInv` | `msm/eva/cvp_hfi.c:4827-5000` | The same in every interleaving the device lock allows. |
| `IrqPower.DepthFormula` | `msm/eva/cvp_hfi.c:3829-3855` | Whenever the lock is free: depth = [off] + [interrupts taken whose handler has not retired and has not seen the watchdog bit] + [on with the bit latched]. |
| `IrqPower.EnablesBalanced` | `msm/eva/cvp_hfi.c:4924-4929` | No enable_irq ever finds the line enabled. |
| `IrqPower.EnabledWhenIdle` | `msm/eva/cvp_hfi.c:4980-4998` | On, idle and without the watchdog bit the line is enabled; an interrupt is only taken while the device is on. |
| `IrqPower.WatchdogMutes` | `msm/eva/cvp_hfi.c:3854-3855` | A latched watchdog bit keeps the line off until a power-on enables it. |
| `IrqPower.LatchedExactly` | `msm/eva/cvp_hfi.c:2620-2635` | The watchdog bit is latched exactly if some pass of the handler found it in the register and no power operation has cleared it since. |
| `IrqPower.OneInterrupt` | `msm/eva/cvp_hfi.c:3775-3882` | An interrupt handled to the end leaves the line enabled, unless the register had the watchdog bit. |
| `IrqPower.PowerOff` | `msm/eva/cvp_hfi.c:4827-5000` | Powering off disables the line once, unless the bit keeps it disabled, and forgets the bit. |
| `IrqPower.PowerOn` | `msm/eva/cvp_hfi.c:4827-5000` | Powering on takes that back, and a failure to leaves everything as it was. |
| `PowerVote.CodeMaxExact` | `msm/eva/cvp_power.c:10-18` | The maximum kept in an int is the maximum exactly when that is below 2 to the 31. |
| `PowerVote.FindMax` | `msm/eva/cvp_power.c:10-18` | The loop computes the maximum in the widths of the driver. |
| `PowerVote.Core.Aggregate` | `msm/eva/cvp_power.c:38-126` | One pass over the sessions gives the steady, peak and bandwidth figures of both sides. |
| `PowerVote.Core.AdjustBwFreqs` | `msm/eva/cvp_power.c:142-205` | A vote is refused, changing nothing, exactly when steady demand exceeds the top rate; otherwise the frequency is the least table rate covering steady demand and clamped peak, and bandwidth is clamped. As long as sums fit an int; in general for the figures as the driver computes them. |
| `PowerVote.FittingLevel` | `msm/eva/cvp_power.c:104-125` | Where the sums fit, the figures the driver computes are the exact ones. |
| `PowerVote.FittingRequest` | `msm/eva/cvp_power.c:104-203` | Where the sums fit, what the driver compares with the top rate is the exact demand and what it picks a rate for the exact need. |
| `PowerVote.LostDemand` | `msm/eva/cvp_power.c:10-18` | Inputs outside: one session of 2 to the 31 cycles is refused, but for two of them, whose cycles add up to 2 to the 32, the demand computed is none. |
| `PowerVote.SameVote` | `msm/eva/cvp_power.c:49-126` | The order of the sessions does not matter, to the figures as computed. |
| `PowerVote.VoteGrows` | `msm/eva/cvp_power.c:166-203` | Where the sums fit, more sessions or higher figures never lower the frequency picked for the figures as computed, and never turn a refusal into acceptance. |
| `PowerVote.FitsBelow` | `msm/eva/cvp_power.c:10-126` | Sums that fit still fit with fewer sessions or lower figures. |
| `PowerVote.BandwidthGrows` | `msm/eva/cvp_power.c:190-192` | More sessions or higher figures never lower the bandwidth, whatever the sums. |
| `PowerDemand.OrderDoesNotMatter` | `msm/eva/cvp_power.c:49-126` | Nor to the exact demand. |
| `PowerDemand.Monotone` | `msm/eva/cvp_power.c:49-126` | Exact demand, need and bandwidth are monotone. |
| `PowerDemand.HigherFigures` | `msm/eva/cvp_power.c:20-31` | Raising any figure of a session raises its shares, also where that makes it count for the first time. |
| `PowerFigures.TotalAdds` | `msm/eva/cvp_power.c:49-101` | A sum over sessions is the sum of the figures of those that count: live, with cycles for some block, and on that side of the priority threshold. |
| `PowerFigures.PeakExactly` | `msm/eva/cvp_power.c:88-118` | A peak is some counting session's figure, and none's is higher. |
| `PowerFigures.SteadyExactly` | `msm/eva/cvp_power.c:104-110` | Steady demand is the greatest of the sums of the nine blocks and the firmware. |
| `PowerFigures.PeakDemandExactly` | `msm/eva/cvp_power.c:104-114` | Peak demand is the greatest of the peaks, kept down to the top rate. |
| `PowerFigures.BandwidthExactly` | `msm/eva/cvp_power.c:115-116` | Bandwidth is the sum of what the sessions of a side ask for, or the highest operational figure of one of them, whichever is more. |
| `PowerFigures.TogetherExactly` | `msm/eva/cvp_power.c:166-192` | Demands of both sides add up for clock and bandwidth, peaks are compared, and bandwidth is kept in its limits. |
| `PowerFigures.OneSession` | `msm/eva/cvp_power.c:49-126` | One session alone asks for its own greatest figures on its own side, and for nothing on the other. |
| `PowerFigures.RefusedWithoutRealtime` | `msm/eva/cvp_power.c:128-168` | A clock vote of sessions that are not realtime is refused too. |
| `SessionState.ClimbIsStairs` | `msm/eva/msm_cvp_common.c:1499-1651` | Whatever fails and whenever errors strike, a session climbs one state at a time, and INVALID is never left. |
| `SessionState.SuccessIsTarget` | `msm/eva/msm_cvp_common.c:1499-1651` | A climb that succeeds ends exactly at its target or in INVALID, for a target up to CLOSE from anywhere, or beyond from OPEN on. |
| `SessionState.SmoothClimb` | `msm/eva/msm_cvp_common.c:1499-1651` | Without failures the target is reached through every state in between, in order. |
| `SessionState.BeyondCloseFromBelow` | `msm/eva/msm_cvp_common.c:1439-1460` | From below OPEN a target beyond CLOSE is not climbed to: the session jumps to UNINIT or stays at INIT_DONE, and both count as success. |
| `SessionState.Inst.ChangeState` | `msm/eva/msm_cvp_common.c:499-517` | Nothing leaves INVALID. |
| `SessionState.Inst.WaitForState` | `msm/eva/msm_cvp_common.c:547-606` | A wait for a state the climb began at or above does nothing. Otherwise the answer of the firmware decides the next state, and an invalidated session fails even if an answer came. |
| `SessionState.Inst.CallForState` | `msm/eva/msm_cvp_common.c:1348-1412` | The call of a transition decides the next state; making a session and ending one are left out when the climb began above. |
| `SessionState.Inst.Handler` | `msm/eva/msm_cvp_common.c:1499-1651` | The chain of handlers is the climb. |
| `SessionState.Inst.TryState` | `msm/eva/msm_cvp_common.c:1676-1725` | The state reached, INVALID after a timeout of a session the firmware knows, the states entered on the way and the result. For a reachable target: when the handlers succeed the session is at the target or INVALID, when they fail it is not at the target; and 0 is returned short of both exactly when, by start state, record and events, a call on the way stumbles. |
| `SessionState.UnreportedExactly` | `msm/eva/msm_cvp_common.c:1466-1497` | A failed climb goes unreported exactly when the first call not to go through fails otherwise than by a timeout, nothing strikes by then, and no code is on record or an answer on the way has cleared it. |
| `SessionState.FailureIsShort` | `msm/eva/msm_cvp_common.c:1499-1651` | A climb to a reachable target that fails is not at its target. |
| `SessionState.FirstFailure` | `msm/eva/msm_cvp_common.c:547-606` | A climb ends with its first transition that does not go through: a timeout, a reset for an invalidated session, or the code of the call or answer, where it is or in INVALID. |
| `SessionState.SilentFailure` | `msm/eva/msm_cvp_common.c:1466-1497` | A failure that is not reported: creating the session fails and the result is 0. |
| `WnccTable.Table.Register` | `msm/eva/msm_cvp_buf.c:404-562` | A buffer is taken in exactly when the request is well formed, its fd new, the kernel grants what is needed and a slot is free; it gets the least free id. Otherwise nothing has changed, and the result is 0 also when the table is full. |
| `WnccTable.Table.Unregister` | `msm/eva/msm_cvp_buf.c:564-655` | The buffer with the id goes and its slot is free again, exactly when the id names an occupied slot. |
| `WnccTable.OccupiedCount` | `msm/eva/msm_cvp_buf.c:515-546` | The number of buffers is the number of occupied slots, and the ids are the same. |
| `WnccTable.OwnerByFd` | `msm/eva/msm_cvp_buf.c:603-621` | The buffer found by the slot's fd is the one with the id. |
| `WnccTable.FullTable` | `msm/eva/msm_cvp_buf.c:517-546` | The search for a free slot fails exactly when all are occupied. |
| `WnccTable.Table.PatchLayer` | `msm/eva/msm_cvp_buf.c:1159-1201` | A layer is filled in exactly when every address names a registered buffer and an offset inside it; otherwise exactly as far as the first bad one. |
| `WnccTable.Table.ProcOob` | `msm/eva/msm_cvp_buf.c:1150-1237` | The result is 0 exactly when something is registered, every address is good and every metadata buffer can be had. Every good layer the loop gets to has been filled in, whatever the result. |
| `WnccTable.PatchedAddress` | `msm/eva/msm_cvp_buf.c:1196-1200` | The halves join to the buffer's base plus the offset. |
| `WnccTable.SplitJoins` | `msm/eva/eva_shared_def.h:32-33` | The 22 and 10 bit halves rebuild the address. |
| `WnccTable.NamedExactly` | `msm/eva/msm_cvp_buf.c:1174-1194` | An address is good exactly if a registered buffer has its id and its offset lies inside that buffer's mapping. |
| `BufferMmap.Area.Mmap` | `msm/eva/msm_cvp_dma_buf.c:287-323` | Each page of the area is mapped once, to the page of the buffer at the same distance from the page offset, as far as area and buffer go. It fails exactly if a remapping it asks for does, with the answer to the first such, and then the pages before that segment are mapped. |
| `BufferMmap.SegmentAt` | `msm/eva/msm_cvp_dma_buf.c:298-309` | Where the pages of one segment are among the pages of the buffer. |
| `BufferMmap.KernelView.Get` | `msm/eva/msm_cvp_dma_buf.c:186-206` | The kernel's view is made for the first user and shared by the others; a failure counts nobody. |
| `BufferMmap.KernelView.Put` | `msm/eva/msm_cvp_dma_buf.c:207-215` | It is dropped with the last user. |

## Left out

- Weak memory ordering: the barriers of the ring are taken to give sequentially consistent accesses.
- Parameter packets of HFI version 1, and the handling of user persist unmapping, which the driver has switched off.
- PersistRelease.FreeOwnedBy: the request to the firmware that precedes the release of the driver's buffers, whose outcome changes nothing of the release.
- SessionRuns.Session: what calls do once the mapping of a listed frame is gone.
- The loop of `msm_cvp_map_user_persist` over the buffers of a packet: it applies `PersistOps.MapUserPersistBuf` to each and stops at the first failure without undoing the earlier ones.
- `persist_usage`, references on dma-buf files, the driver-wide watermark and the threshold that triggers a cleanup: the driver does not keep these exactly.
- Interleaving inside one map or unmap call of a session; each call is one step.
- DmaInstance.Instance.AddSmem: the tree is a value that is replaced, not nodes linked in place; rebalancing is any sequence of rotations.
- The contents of `fence` structures and the waiting for input fences, whose outcome is arbitrary; a flush that cancels input fences shows only as such an outcome.
- Frames in the fence pipeline: which step unmaps the frame of a command; the calls themselves are in `FrameOps`.
- Whether output fences are signalled as success or as cancelled: `outputs` counts either.
- Several flushers at once, and the exit of fence threads when the queue is stopped.
- IrqPower.StepKeepsInv: the separate watchdog interrupt line and the mask that decides whether the register's bits are latched are not modelled; the bit latched by a pass is arbitrary.
- PowerVote.Core.AdjustBwFreqs: the list is taken to be shorter than 2 to the 31, as any list in memory is; wrap-around of the final sum of both sides is modelled, wrap-around of the sums over sessions cannot happen then.
- SessionState.Inst.Handler: the handlers are one method indexed by the transition, since they differ only in the call they make.
- Targets of `msm_cvp_comm_try_state` at or below the current state.
- Mapping and unmapping of warp-NCC metadata buffers and their checksums.
- Registers, regulators, clocks, secure calls, firmware loading, DSP, device tree, debugfs, sysfs, ioctl copying, tracing and packet constructors.
