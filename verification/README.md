# Packet firmware: reordering, grants, tokens and queues

A Dafny model of the self-contained algorithms inside a bare-metal packet
firmware for network processors, and proofs of what they promise.

- **Block-ack reorder window** (`Seq12`, `BaWindow`, `BaDelivery`, `BaRuns`,
  `BaExact`, `BaConserve`, `BaEdges`, `BaStray`, `BaFast`, `NodePool`,
  `NodePoolRace`, `BaLinks`, `BaEntry`, `BaTable`): the
  receive reordering buffer of section 10.24.7.6 of IEEE Std 802.11-2016. The
  window is first a value, on which order, the list invariant and conservation
  are proved for whole runs; `BaEntry` is the firmware's entry, linked nodes in
  two pools, and does in place what the value does; `BaTable` is all of them
  over the pools. A frame carries the
  sender's running sequence number beside its 12 bits; no step reads it.
- **Id and token rings** (`IdRing`, `IdRingRace`, `TokenRebuild`, `TokenFlow`):
  the rings, the harts that take and free at once under different mutexes, the
  rebuild of the token ring, and a token's way through the tx path.
- **TDMA transmit ring** (`TdmaRoom`): the cached room and the two submits
  beside the engine.
- **GPON bandwidth** (`WaterFill`, `DbaRequest`, `DbaExact`, `DbaFec`,
  `DbaMap`, `DbaBudget`): budget, sorted demand, the fit to the budget, the
  parity-avoiding pass, and the map.
- **Station queue** (`StaCount`, `ISqrt`, `CoDel`): the two-hart count, the
  hard limit, and the drop law of RFC 8289, section 3.3.
- **Tunnel** (`Tunnel`): fragmentation and reassembly on packet bytes, RFC 791
  section 3.2 and RFC 8200 section 4.5.
- **Eagle receive** (`EagleRx`): the descriptor ring and its fast form.

`Basics` holds a few facts about sequences and division. Check everything with
`dafny verify dfyconfig.toml`.

Integers are unbounded and every width that matters is written out: 12-bit
sequence numbers, 16-bit positions, shares, lengths and counts, 32-bit time,
bit vectors for descriptor words. Register reads, clocks, the chip, the copy
engines, allocation results and settings are parameters or nondeterministic
steps.

Where the code and its documentation or comments differ, the model follows the
code:

- docs/wifi-kite.md:129 has a frame far behind the window mean that the peer
  restarted; the branch (npu_wifi_rx.c:277-287) fires from about half a window
  behind on (`BaEdges.RestartExactly`), and moves the window with frames held.
- A first frame after ADDBA that opens an A-MSDU is freed when the flag byte is
  still 0; every other first frame is sent (`BaEdges.FirstFrame`).
- A retransmit check pulls the last SN back to an A-MSDU that last has passed, so
  a frame behind it leaves late (`BaRuns.PulledBackExactly`).
- docs/tunnel.md:113 has the IPv4 checksum patched in both fragments; `frag_v4`
  emits no such patch (`Tunnel.ChecksumsLeft`), so a right one is up to the
  egress hardware.
- Water filling with assured grants adds `over_assure` to the rest
  (npu_dba.c:1131), so the sum is not bounded by the budget
  (`DbaExact.BudgetMetIff` says when it is, `DbaBudget.RequestOverdraws` shows
  a request where it is not).
- The free side of a reorder node pool wraps its index in a second store
  (npu_wifi_ba.c:30-33); an alloc of the last node between the two empties the
  ring unless another free increments before it hands over
  (`NodePoolRace.RunExactly`), and then an id can be handed out twice
  (`NodePoolRace.HandedTwice`).
- After a restart a timeout can release the head of an open A-MSDU and leave last
  behind its SN; the rest of the A-MSDU is then linked to a freed node
  (npu_wifi_rx.c:345-356) and lost. `BaStray.LostExactly` says when,
  `BaStray.FrameLost` shows a run, `BaStray.NoneLost` that no covered run does it.
- Map modes 1 and 2 pay the burst overhead more often than the budget sets
  aside (`DbaBudget.CrowdedOverruns`).
- A BA window of 0 makes a slid frame a duplicate (`BaEdges.PastFrameFreed`).

## Model

| member | source | states |
|---|---|---|
| Seq12.Bit11Compares | npu_wifi_rx.c:270-298 | numbers less than half the circle apart: bit 11 of the difference of their low 12 bits says which is behind, and the low bits agree only when the numbers do |
| BaWindow.SlideMakesProgress | npu_wifi_rx.c:298-314 | for any window at all, a slide past which the frame is still past has released held frames, so the classifier loop ends |
| BaWindow.ScanEnds | npu_wifi_ba.c:260-278 | the last frame a scan releases lies as many numbers past seq as frames were released: the run has no gap |
| BaDelivery.PlaceIs | npu_wifi_rx.c:251-298 | the four 12-bit tests pick the branch that comparing the sender's running numbers picks: next, duplicate, behind, inside, past |
| BaDelivery.ReleaseToOk | npu_wifi_ba.c:243-278 | releasing up to an SN and scanning on from it keeps the list sorted inside the window, sends in order, and leaves last at the end of the run without a gap |
| BaDelivery.StateUpdateOk | npu_wifi_ba.c:281-305 | unless it pulls last back, a retransmit check keeps the invariant; a head pointer that survives it is the one of the SN that arrives |
| BaDelivery.RewindsExactly | npu_wifi_ba.c:281-305 | the same for one check: back if and only if last has passed the open A-MSDU; otherwise the invariant stands and last does not go back |
| BaDelivery.LateFrameSent | npu_wifi_rx.c:226-268 | once last has passed an open A-MSDU, the frame behind that A-MSDU is taken as the next one and sent, however late |
| BaDelivery.TimeoutOk | npu_wifi_ba.c:308-322 | any number of timed-out releases keeps the invariant and the order, and never moves last past the last held frame |
| BaDelivery.FlushOk | npu_wifi_ba.c:227-240 | a flush keeps the invariant and the order |
| BaDelivery.BarOk | npu_wifi_init.c:508-557 | a BAR with a 12-bit SSN keeps the invariant and the order, ahead of the window or not |
| BaDelivery.InsertOk | npu_wifi_rx.c:357-375 | inserting a frame of the window keeps the list strictly sorted with every SN in [last + 2, last + win]; a frame already held changes nothing |
| BaDelivery.AppendOk | npu_wifi_rx.c:345-356 | the head pointer, when the hold path follows it, names the held MPDU with the arriving SN, and the MSDU goes behind it |
| BaDelivery.ChainPlace | npu_wifi_rx.c:345-356 | a head pointer left by an unfinished A-MSDU either names the MPDU with the arriving SN or belongs to a frame already at or behind last |
| BaDelivery.SlideOk | npu_wifi_rx.c:298-314 | one slide is enough: afterwards the frame is next or inside (a duplicate only for a window of 0), so the loop runs at most twice |
| BaDelivery.SettleOk | npu_wifi_rx.c:248-408 | the whole loop and its branches keep the invariant, move last only forward, send in order, and never follow a stale head pointer |
| BaExact.ReleaseExactly | npu_wifi_ba.c:243-278 | a release up to an SN sends exactly the held frames up to it and the run behind them, in order, keeps the rest, and leaves last at the end of that run |
| BaExact.UpdateExactly | npu_wifi_ba.c:281-305 | a retransmit check that does not pull last back lets exactly the run behind the noted A-MSDU go, or nothing |
| BaExact.BarExactly | npu_wifi_init.c:508-557 | a BAR d ahead of last, 1 to 2048, has sent every held frame numbered below its SSN and the run behind them, keeps the rest, and leaves last at the end of that run; one that is not ahead does no more than the retransmit check |
| BaExact.ExpiredExactly | npu_wifi_ba.c:308-322 | on the wrapping 32-bit tick, a frame has expired exactly when it has really been held for longer than the limit |
| BaExact.TimeoutExactly | npu_wifi_ba.c:308-322 | a timeout sends the held frames up to a number, each expired or following the one before it, and the next one is neither |
| BaExact.SettleExactly | npu_wifi_rx.c:248-408 | what becomes of a frame, on running numbers: the next is sent, with the run behind it if it ends its A-MSDU; one at or behind last is dropped; one inside the window joins the list at its place or its MPDU's chain, or is freed if held already, or kept when no node is left |
| BaExact.PastExactly | npu_wifi_rx.c:298-314 | a frame past the window lets go exactly what a window ending with it leaves out, and the run behind that, and then meets that window |
| BaExact.SessionExactly | npu_wifi_init.c:560-640 | an ADDBA sends all that was held; with a window or an SSN the next frame, whatever its number, starts a session of that window, with neither it is handed back |
| BaRuns.RxOk | npu_wifi_rx.c:226-408 | the same for a frame from the entry lookup on, retransmit check included |
| BaRuns.RunOk | npu_wifi_rx.c:226-408 | every run of frames, timeouts, BARs and flushes outside the restart branches keeps the list invariant |
| BaRuns.RunOpened | npu_wifi_rx.c:226-408 | beside it, over every such run: while flag 0 and an A-MSDU are noted, the noted SN is that of an A-MSDU sent in order, at most one ahead of last and at most 2560 behind |
| BaRuns.PulledBackExactly | npu_wifi_ba.c:281-305 | after every such run, a retransmit check that acts on an A-MSDU sent in order pulls last back if and only if last has passed that A-MSDU; it then goes to that number and nothing is sent |
| BaRuns.DeliveryInOrder | npu_wifi_ba.c:82-128 | with bit 0 of the fast flag clear, over every such run frames reach the bridge with rising running numbers; a number repeats only for the MSDUs of one A-MSDU |
| BaRuns.RunFlag | npu_wifi_rx.c:251-296 | over every run, covered or not, the flag changes no window: it only sends some of the frames freed without it, each in its place, so what is sent without it keeps its order |
| BaConserve.ClassifyAccounted | npu_wifi_rx.c:209-408 | for any window, restarts and fast flag included, a frame is exactly once sent or freed, held, returned, kept by a failed node alloc, or lost through a head pointer that names no held MPDU |
| BaConserve.StepAccounted | npu_wifi_ba.c:189-322 | the same for timeouts, BARs and flushes: what leaves the list is sent, once |
| BaConserve.RunAccounted | npu_wifi_rx.c:209-408 | the same over every run, with the fast flag set or clear, and counted frame by frame: held and arrived equals held, gone, returned, kept and lost |
| BaStray.NoneLost | npu_wifi_rx.c:209-408 | over every covered run nothing is lost or returned: held and arrived equals held, sent or freed, and kept by failed node allocs, of which there are none while the pools have nodes |
| BaStray.FateExactly | npu_wifi_rx.c:298-408 | for any window: a frame is kept if and only if, its slides done, it is inside and no node is left; it is lost if and only if it is inside, has a node, and the head pointer names no held MPDU |
| BaStray.LostExactly | npu_wifi_rx.c:226-408 | after any run at all, restarts included, the next frame is lost if and only if the window runs, the retransmit check has nothing to do, the frame ends inside with a node, and the head pointer is stale or its MPDU is released by the frame's own slides |
| BaStray.FrameLost | npu_wifi_rx.c:277-408 | a run from a good window with such a frame: 2103 and 2160 wait, a peer restarts at 54 and opens an A-MSDU with 56, all time out; the rest of the A-MSDU is then neither held, sent, freed, returned nor kept |
| BaConserve.WholeFramesStrictlyInOrder | npu_wifi_rx.c:226-408 | over every covered run without A-MSDUs, the flag's bit 0 clear, the running numbers that leave are strictly increasing |
| BaEdges.RestartExactly | npu_wifi_rx.c:277-287 | a frame behind a window of any size is taken for a restarted peer if and only if it is further behind than half the window and one, two where the modulus of 4095 slips, or the window if that is less and the frame's own does not wrap |
| BaEdges.RestartMoves | npu_wifi_rx.c:269-296 | such a frame is sent at once, the window follows it and what is held stays; one behind but no further is dropped and moves nothing |
| BaEdges.PastFrameFreed | npu_wifi_rx.c:298-314 | a slid frame is freed, or under the fast flag bridged, as a duplicate if and only if the window is 0; otherwise one slide has it next or inside, and it is sent or held, or a failed node alloc keeps it |
| BaEdges.FirstFrame | npu_wifi_rx.c:230-268 | the first frame after ADDBA is sent, except that a frame that opens an A-MSDU is freed as a duplicate if and only if the entry's flag byte is still 0 |
| BaEdges.FirstFrameOk | npu_wifi_rx.c:230-268 | whatever the entry held, the first frame after ADDBA establishes the list invariant that runs keep, and the number of the A-MSDU it opens is known |
| BaEdges.HeldThenReleased | npu_wifi_rx.c:298-408 | an example run the order theorem covers: 100, 102, 101 arrive, and leave as 100, 101, 102 |
| BaEdges.PeerRestartReorders | npu_wifi_rx.c:277-287 | a run, from a good window, whose restart branch sends a frame out of order |
| BaEdges.FlagReorders | npu_wifi_rx.c:277-296 | a covered run that sends out of order with the flag set: 100, then 99, which the clear flag would free |
| BaEdges.UnfinishedAmsduReorders | npu_wifi_ba.c:287-322 | a run from a good window, covered up to the check that pulls last back: 102 is held, 100 opens an A-MSDU, 102 times out, 105 and 101 arrive, and 100, 102, 101 leave |
| BaFast.FastRefines | npu_wifi_rx.c:434-481 | for every window and every frame the fast form keeps: the same entry, and the same sends and frees in the same order, as the general form |
| BaFast.BridgesExactly | npu_wifi_ba.c:82-128 | a frame goes to the host, whole, exactly when its BSS is limited, the host is awaited or the band is not offloaded; else to the wire from behind its header to its end |
| NodePool.Nodes.constructor | npu_wifi_init.c:190-260 | both pools hold each of their indices once |
| NodePool.Nodes.Alloc | npu_wifi_ba.c:39-74 | one call at a time: a node comes from the primary pool, else the secondary; it fails if and only if each pool has one index left; nobody holds the node it gives |
| NodePool.Nodes.Release | npu_wifi_ba.c:17-36 | one call at a time: a node goes back to the pool it names, and the pools stay free of repeats |
| NodePoolRace.StepExactly | npu_wifi_ba.c:17-74 | one alloc and one free of a pool interleaved at single accesses: every access keeps ring and pool a permutation of the ids, except exactly the hand-over of the last id |
| NodePoolRace.EmptiesExactly | npu_wifi_ba.c:17-74 | while that has held, an alloc hands over the last id if and only if its test slipped - it met an index incremented but not yet wrapped, with only the last slot's id left - and no free has incremented since |
| NodePoolRace.RunExactly | npu_wifi_ba.c:17-74 | over every run: the pool is a permutation in all states if and only if no slipped test is followed by its hand-over without an increment by a free in between |
| NodePoolRace.DoubledAfterLast | npu_wifi_ba.c:17-74 | over every run: an alloc that hands out an id that is out comes after such a hand-over |
| NodePoolRace.SlipSurvived | npu_wifi_ba.c:17-74 | a slip alone is no failure: from every full pool of two nodes or more some run slips and stays a permutation throughout |
| NodePoolRace.AfterSlip | npu_wifi_ba.c:17-74 | one path on which it fails: the test slips, its id is handed over, the ring is empty with equal indices, which mean full, and the next alloc hands out an id already out |
| NodePoolRace.HandedTwice | npu_wifi_ba.c:17-74 | such a run exists for every pool of two nodes or more, from the state where all are free |
| BaLinks.ShapedTail | npu_wifi_ba.c:174-185 | taking the head MPDU off leaves a linked list with its MSDU chains |
| BaLinks.InsertShaped | npu_wifi_rx.c:357-375 | splicing a node in keeps the linked list acyclic and its chains whole |
| BaLinks.InsertHeld | npu_wifi_rx.c:357-375 | and inserts exactly that frame at that place of the list the links stand for |
| BaLinks.AppendShaped | npu_wifi_rx.c:345-356 | hanging a node on an A-MSDU keeps list, chain, tail pointer and count |
| BaLinks.AppendHeld | npu_wifi_rx.c:345-356 | and appends exactly that frame to that MPDU |
| BaEntry.ReleaseMpdu | npu_wifi_ba.c:189-224 | an MPDU and its chain are sent in order and every node goes back once to its own pool |
| BaEntry.Entry.ReleaseHead | npu_wifi_ba.c:174-224 | the entry then stands for the window without its first held frame |
| BaEntry.Entry.IndicateLe | npu_wifi_ba.c:243-256 | in place on the links, the release the window calls for |
| BaEntry.Entry.SeqScan | npu_wifi_ba.c:260-278 | in place, the run without a gap; returns its last SN, or 0xFFFF for none |
| BaEntry.Entry.FlushEntry | npu_wifi_ba.c:227-240 | in place: all sent, list empty, no node lost |
| BaEntry.Entry.UpdateState | npu_wifi_ba.c:281-305 | in place, the retransmit check |
| BaEntry.Entry.TimeoutEntry | npu_wifi_ba.c:308-322 | in place, every expired head with what follows it |
| BaEntry.Entry.HoldFrame | npu_wifi_rx.c:316-392 | in place, the hold path: node alloc, A-MSDU chain or sorted insert, failed alloc keeps the buffer |
| BaEntry.Entry.SettleFrame | npu_wifi_rx.c:248-408 | in place, the window loop |
| BaEntry.Entry.ClassifyFrame | npu_wifi_rx.c:226-408 | in place, the classifier, for any entry whose head pointer is not stale when it is followed |
| BaEntry.Entry.SetBar | npu_wifi_init.c:508-557 | in place, the BAR, whatever the 13-bit SSN |
| BaEntry.Entry.SetBa | npu_wifi_init.c:592-640 | in place, ADDBA and its teardown |
| BaEntry.BesideKept | npu_wifi_rx.c:316-392 | what one entry does leaves every other entry's list, and the nodes they hold, alone |
| BaTable.Apply | npu_wifi_rx.c:226-408 | any operation of one entry in place - frame, timeout, flush, BAR, ADDBA: nodes move only between that entry and the pool, its window changes as it should, no other entry's window changes |
| BaTable.StartPartitioned | npu_wifi_init.c:190-218 | full pools and entries that hold nothing are such a partition |
| BaTable.RunPartitioned | npu_wifi_ba.c:17-74 | over any run of such moves on any of the entries, the nodes they hold and the free ones partition all the addresses |
| BaTable.TimeoutScan | npu_wifi_ba.c:346-360 | every entry of the band is timed out, what leaves is sent in table order, and the partition stands |
| BaTable.FlushAll | npu_wifi_ba.c:363-379 | the same for the flush of the band |
| IdRing.BatchIsSingles | npu_wifi_bufid.c:214-241 | a batch take hands out the ids, in the order, that as many single takes would |
| IdRing.Ring.constructor | npu_wifi_bufid.c:373-412 | every id in the ring once; equal indices mean full |
| IdRing.Ring.Take | npu_wifi_bufid.c:189-209 | the oldest id, or -1 when one is left; the rest unchanged |
| IdRing.Ring.Put | npu_wifi_bufid.c:176-187 | the id goes last |
| IdRing.Ring.TakeBatch | npu_wifi_bufid.c:214-241 | the first ids, as many as asked for or all but one |
| IdRing.Ring.PutBatch | npu_wifi_bufid.c:244-263 | the ids go last, in order |
| IdRing.DistinctFit | npu_wifi_bufid.c:176-187 | distinct ids never overfill the ring, so putting back what is out has room |
| IdRingRace.RunSafe | npu_wifi_bufid.c:176-263 | one taker and one putter interleaved at single loads and stores, under no common mutex: in every reachable state ids in the ring and ids out partition the ids |
| IdRingRace.NeverHandedTwice | npu_wifi_bufid.c:214-241 | whatever a take hands over was in nobody's hands, each id once |
| IdRingRace.RoomToPut | npu_wifi_bufid.c:244-263 | ids that are out always fit the ring, so no slot holding an id is overwritten |
| IdRingRace.TakesExactly | npu_wifi_bufid.c:214-241 | over every run: a take hands over exactly the ids that were in front when it read the write index, as many as it asked for and one left behind, whatever puts do meanwhile |
| TokenRebuild.Tokens.constructor | npu_wifi_bufid.c:373-412 | the token ring of either build is a state of the id protocol with every id in it |
| TokenRebuild.Tokens.JumboReset | npu_wifi_bufid.c:326-333 | every jumbo pair on the stack |
| TokenRebuild.Tokens.JumboAlloc | npu_wifi_bufid.c:336-344 | the pair freed last, or -1 |
| TokenRebuild.Tokens.JumboFreed | npu_wifi_bufid.c:346-354 | the pair goes on top; past a full stack it is lost |
| TokenRebuild.Tokens.Rebuild | npu_wifi_bufid.c:441-490 | after the reset the ring is a start state of the id protocol, its content the ids rx does not hold, with rx's own ids in the slots before the read index |
| TokenRebuild.RebuiltIds | npu_wifi_bufid.c:460-490 | that content is a permutation: each ring id not in an rx descriptor once, none of the others |
| TokenRebuild.SomeFree | npu_wifi_bufid.c:463-478 | a slot still to fill always finds a free id: the scan never stops at one rx holds |
| TokenFlow.TxPath.CountReady | npu_wifi_eagle_dp.c:138-147 | filled slots ahead, at most max |
| TokenFlow.TxPath.Drain | npu_wifi_eagle_dp.c:205-312 | the loop as a function of its start and of what the other harts do between its turns: batches of tokens, drops, refused frames, and what is left in hand |
| TokenFlow.TxPath.FreeReported | npu_wifi_eagle_dp.c:1391-1412 | reported tokens go back in order, 32 to a hold |
| TokenFlow.DrainKeeps | npu_wifi_eagle_dp.c:205-312 | whatever is dropped, refused or left in hand, and whatever slots fill and tokens are reported between its turns, a drain neither loses nor doubles a token |
| TokenFlow.TokensKept | npu_wifi_eagle_dp.c:205-312 | over every run of fills, drains and reports each token is at as many places as at the start |
| TokenFlow.TokensApart | npu_wifi_eagle_dp.c:205-312 | so free ring, rx slots and chip never share or repeat a token |
| TokenFlow.SentIsFree | npu_wifi_eagle_dp.c:255-264 | a token that carries a frame to the chip is not in the chip yet, which the station counts rely on |
| TokenFlow.ReadyExactly | npu_wifi_eagle_dp.c:138-150 | the count is that of the filled slots ahead up to the first empty one |
| TokenFlow.DrainSends | npu_wifi_eagle_dp.c:205-300 | with tokens at hand and no frame refused a drain hands the chip the tokens of exactly the filled slots ahead, in order, up to its budget, and leaves the slots empty |
| TdmaRoom.SameWord | npu_tdma.c:622-635 | patching word 0 and building it whole give the same word, whatever the slot held |
| TdmaRoom.DescReads | npu_tdma.c:622-671 | what the engine reads of a descriptor: the token, the padded length, the buffer address, and the marks in the top bits of both words |
| TdmaRoom.Ring.Room | npu_tdma.c:575-599 | the first of five reads with more than four free slots, else 0 |
| TdmaRoom.Ring.SubmitSlow | npu_tdma.c:602-641 | one submit: descriptor, index, cached count, padded frame |
| TdmaRoom.Ring.Submit | npu_tdma.c:644-675 | the hot form leaves what the slow form would, padding included |
| TdmaRoom.SubmitIsSteps | npu_tdma.c:602-675 | one submit is a path of the single accesses of the run below |
| TdmaRoom.NoneOverwritten | npu_tdma.c:572-675 | with the engine advancing between any two accesses: the cached count never exceeds the slots free, which are all but one less those published and not taken, and the engine takes exactly the descriptors submitted, in order |
| TdmaRoom.GoesExactly | npu_tdma.c:572-675 | in any state of a run, the engine standing still, a submit succeeds exactly when the cache counts more than four slots or more than four are free |
| DbaBudget.Calc | npu_dba.c:619-677 | total for the frame, or for two under the new DBA, and a share such that all contracts plus the shares fit it, the largest such share |
| DbaBudget.TallyPromised | npu_dba.c:619-677 | what it adds up is, in every map mode, what all contracts and a share for each T-CONT that shares promise |
| DbaBudget.PromiseKept | npu_dba.c:619-1156 | with such a share, T-CONTs that ask for no more than contract and share promise them are all granted what they ask for |
| DbaRequest.SortStep | npu_dba.c:686-703 | in-place insertion: the last entry sinks below the larger grants, the rest keep their order |
| DbaRequest.ListSorted | npu_dba.c:1042-1094 | the request list is sorted, names each listed id once, and its grants sum to the listed demand |
| DbaRequest.ListAssured | npu_dba.c:1063-1080 | the running counts of assured grants are those of the sorted list |
| DbaRequest.Dba.RequestOne | npu_dba.c:1043-1094 | one alloc id: its demand, its group, whether it joins the list |
| DbaRequest.Dba.Collect | npu_dba.c:1042-1094 | all demands, the sorted list, and the totals |
| DbaRequest.Dba.Fit | npu_dba.c:1106-1155 | the pass grants exactly what the value-level pass over the sorted list says, in place, and nothing else changes |
| DbaRequest.Dba.Request | npu_dba.c:1030-1156 | the whole request: demands that fit stand, else the list is zeroed or fitted |
| DbaExact.DemandedAsks | npu_dba.c:1043-1094 | what each kind of T-CONT demands: a fixed one its bandwidth, twice under the new DBA; kinds 2 to 5 what their adaptation left; any other 2; and which of them may be cut |
| DbaExact.RequestLeaves | npu_dba.c:1030-1156 | after the request every alloc id has what it demanded unless it may be cut and the demand passes the total; a fixed T-CONT always has its bandwidth; contracts stand |
| WaterFill.PourEven | npu_dba.c:1111-1153 | sharing one after the other hands out everything, each grant the floor or ceiling of the even share at its start |
| WaterFill.FillExact | npu_dba.c:1106-1155 | a sorted list that must be cut, with nothing assured from the cut on: grants sum to exactly what is shared; those below the level stand, the others end at the even share of the first overflow or one above |
| WaterFill.FillAssured | npu_dba.c:1106-1155 | grants before the cut stand, and one that stays assured from the cut on ends with exactly its assured bandwidth |
| WaterFill.FitsIff | npu_dba.c:1117-1143 | the cut grants fit if and only if no assured grant is left at the cut, or only assured ones whose sum fits; where both kinds are left the even share must hold in 16 bits |
| WaterFill.SharesFitWhen | npu_dba.c:1117-1143 | it does when more grants share than are assured, or when demand and rest fit 16 bits together |
| WaterFill.WrappedShareFits | npu_dba.c:1117-1143 | there a share that wraps can fit by giving out nothing |
| WaterFill.AssuredOverdraws | npu_dba.c:1130-1131 | 21000 granted of 19248: what assured grants ask over their assurance is added to the rest |
| DbaExact.BudgetExact | npu_dba.c:1030-1156 | over all contexts: demand above the budget, room for the list, nothing assured from the cut on, then the grants sum to exactly the total, none grew, unlisted ones stand, listed ones are cut to one level |
| DbaExact.BudgetMetIff | npu_dba.c:1030-1156 | the grants fit the budget if and only if the demand did, or the unlisted demand just fills it, or there is room and the assured grants at the cut do not overdraw it |
| DbaExact.SmallDemandFits | npu_dba.c:1030-1156 | no even share of a request wraps as long as its demand and the total fit 16 bits together |
| DbaBudget.RequestOverdraws | npu_dba.c:1030-1156 | the same over contexts: two ONUs of 19000 demand, one under a contract of 17248, to which the budget gives a total of 19248 and a share of 1000, end with 21000 |
| DbaFec.FecListSorted | npu_dba.c:1269-1280 | behind its first T-CONT the list of a FEC ONU is sorted by bandwidth |
| DbaFec.FecListDistinct | npu_dba.c:1269-1280 | and holds each granting T-CONT of the ONU once |
| DbaFec.InnerTurn | npu_dba.c:1286-1345 | a grant that is not the last ends off the parity and passes on exactly what it grew |
| DbaFec.LastTurn | npu_dba.c:1286-1345 | the last grant is lifted to 18 and gives up at most 18 to end past byte 18 of a code word |
| DbaFec.SpreadOk | npu_dba.c:1284-1350 | the whole pass, OLT or not: by the 16-bit position it keeps every inner boundary has (acc + 2) % 255 at most 235, the last at least 18, and only the last grant changes the ONU's sum |
| DbaFec.TruePositions | npu_dba.c:1284-1350 | that position is the true one as long as the grants before the last fit 16 bits |
| DbaBudget.PlaceOne | npu_dba.c:1164-1217 | the entry writer where nothing wraps: the position moves on by overhead and grant, an entry from start to end - 1 is written if and only if the grant is at least 2 and ends inside the frame, and the map stays disjoint and closed right |
| DbaMap.Frame.FecSort | npu_dba.c:1269-1280 | the list of a FEC ONU |
| DbaMap.Frame.FecGrow | npu_dba.c:1284-1350 | the pass in place on the contexts: each grant docked what the one before grew |
| DbaMap.Frame.Switch | npu_dba.c:1220-1365 | every ONU of the layout, plain or FEC, in place |
| DbaBudget.MapLaid | npu_dba.c:1164-1217 | for any visits that do not wrap the position: entries disjoint and in order inside the frame, a visit written if its grant is at least 2 and ends inside it, and an entry closes the map if and only if it is the last of all valid ids |
| DbaBudget.AllWrittenIff | npu_dba.c:1164-1217 | every visit is written if and only if no grant is below 2 and the last ends inside the frame |
| DbaBudget.PlainPasses | npu_dba.c:1238-1267 | without FEC the frame is the plain order of all ONUs |
| DbaBudget.VisitedIff | npu_dba.c:1238-1267 | that order visits exactly the granting T-CONTs of the ONUs whose T-CONT 0 is valid |
| DbaBudget.BudgetedMap | npu_dba.c:1220-1267 | map modes 0 and 3, no FEC: grants within the budget end inside the frame; every grant of 2 or more on an ONU whose T-CONT 0 is valid is written; entries are disjoint and increasing |
| DbaBudget.RequestToMap | npu_dba.c:1030-1267 | request, budget and map together: demands that fit, or were cut without assured grants overdrawing the budget, give a map inside the frame with every grant of 2 or more written |
| DbaBudget.FixedInMap | npu_dba.c:1030-1267 | from contracts to map: whatever is cut, a fixed T-CONT of 2 or more on an ONU whose T-CONT 0 is valid has an entry of exactly that many units |
| DbaBudget.CrowdedOverruns | npu_dba.c:1164-1175 | in map modes 1 and 2 grants within the budget overrun the frame and not all are written: an ONU pays the burst overhead at every fourth T-CONT, the budget sets it aside once |
| DbaBudget.FecOnuKept | npu_dba.c:1269-1350 | a FEC ONU in its frame: other contexts stand, boundaries keep off the parity, on true positions while the burst fits 16 bits, and its bandwidth changes only by what its last T-CONT is lifted or gives up |
| DbaBudget.FecVisitedIff | npu_dba.c:1269-1350 | the visits of a FEC ONU are the T-CONTs of its list that still grant, at their place in the list, and marked |
| DbaBudget.OnuMarks | npu_dba.c:1164-1365 | every entry an ONU adds carries the FEC mark exactly when the ONU runs FEC, and earlier entries stand |
| StaCount.Tables.SentTok | npu_internal.h:133-145 | token mapped and sent counted, as three steps of the sending hart; with no frame timed, this one is |
| StaCount.Tables.UnsentTok | npu_internal.h:148-157 | both undone, and the frame no longer timed |
| StaCount.UnsentForgotten | npu_internal.h:133-157 | a timed frame that did not reach the chip is forgotten, whatever others do meanwhile, and the last delay stands |
| StaCount.Tables.DoneTok | npu_internal.h:160-179 | a mapped token is unmapped and counted done, and leaves its delay if it was the timed one; any other is ignored |
| StaCount.CountExact | npu_internal.h:124-179 | two harts interleaved at single loads and stores, counts wrapping: sent less done is the number of tokens mapped to the station up to the frame each hart is counting; under a hard limit never more than it are mapped; a limit of 0 is off |
| StaCount.Tables.Drop | npu_internal.h:122-129 | unless it says to drop the frame, the sender has taken the step of the protocol that the limit rests on; a full queue is always dropped from, and off or past the tables nothing is |
| StaCount.PassesExactly | npu_sta_q.c:95-114 | a frame that the drop law does not drop for the limit is a step of the protocol, and the converse |
| StaCount.MappedInChip | npu_wifi_eagle_dp.c:236-286 | a token is mapped only while the sender hands it over, the chip has it, or its report is read |
| StaCount.FrameTimed | npu_internal.h:133-179 | one frame at a time is timed, and whatever other frames do meanwhile its report leaves its time in the chip in real ticks |
| ISqrt.Root | npu_util.c:43-59 | the floor of the square root of every 32-bit argument, no step wrapping |
| ISqrt.RootUnique | npu_util.c:43-59 | the root is unique and grows with its argument |
| CoDel.DelayIsReal | npu_sta_q.c:78-90 | of a frame still in the chip: its true age in ticks if the last delay was not longer, forgotten past 11000 |
| CoDel.Station.Decide | npu_sta_q.c:95-154 | one decision: the station's state after it and the frame's fate; counts stay in range |
| CoDel.DecidesExactly | npu_sta_q.c:95-154 | one decision on real time: dropped for the limit exactly when one is set and reached; dropped early exactly when long, over target in frames or real cycles, standing since before the mark, and, while dropping, due; and how standing and dropping change |
| CoDel.DropExactly | npu_sta_q.c:133-152 | what an early drop does to count and schedule, on real time: one more, or the rate of the dropping state just left if that was less than 16 intervals ago |
| CoDel.DropStands | npu_sta_q.c:120-131 | on wrapping time and with any gaps: an early drop is of a frame longer than small, and for at least interval of real time no decision saw the queue below target |
| CoDel.LongIntervalDrops | npu_sta_q.c:120-131 | the bound of 2^31 on the interval is exact: at any longer one a standing queue is dropped from at once |
| CoDel.DueNext | npu_sta_q.c:133-152 | one decision in a dropping state moves the due time on by interval over root count, from the due time or from now |
| CoDel.DropsSpaced | npu_sta_q.c:133-152 | a later drop of a dropping state comes no sooner after its first than the sum of interval over root count of the drops before it; the count is at least 1 and rises by one |
| CoDel.StandingDrops | npu_sta_q.c:120-152 | an example trace: a standing queue is dropped from after the interval, then when the next drop is due and not before |
| Tunnel.PatchedKeeps | npu_tunnel.c:370-387 | the length and fragment words read back as patched, and no byte but those and the PPPoE length changes |
| Tunnel.MtuHoldsV4 | npu_tunnel.c:370-387 | the first segment stays inside the packet if and only if the MTU is at least 20; below, its size wraps |
| Tunnel.MtuHoldsV6 | npu_tunnel.c:391-420 | the same at 48 for IPv6 |
| Tunnel.Bridge.FragV4 | npu_tunnel.c:370-387 | two packets go out: header with length, fragment and PPPoE words patched, and its part of the payload |
| Tunnel.Bridge.FragV6 | npu_tunnel.c:391-420 | the same with a fragment header made of patches, and a fresh identification |
| Tunnel.LengthsV4 | npu_tunnel.c:370-387 | both fragments say their own length, in the IP header and in PPPoE; the first is the longest of whole 8-byte units the MTU takes, and together they carry the payload |
| Tunnel.LengthsV6 | npu_tunnel.c:391-420 | the same for IPv6, the length word counting the fragment header |
| Tunnel.Bridge.ReasmV4 | npu_tunnel.c:445-497 | a first fragment is held, dropping the one before; a second is refused or joined to it |
| Tunnel.Bridge.ReasmV6 | npu_tunnel.c:500-560 | the same, the fragment headers removed |
| Tunnel.RoundTripV4 | npu_tunnel.c:370-497 | split and join: the join succeeds if and only if the IPv4 header has no options, and then returns every byte of the packet if and only if it was no fragment itself and its length words are those of its data |
| Tunnel.RoundTripV6 | npu_tunnel.c:391-560 | split and join always succeeds, and returns every byte, next header included, if and only if the length words are those of the data |
| Tunnel.JoinsOwn | npu_tunnel.c:445-497 | behind a held first fragment a second is joined if and only if it has its identification and begins where it ends; any other is refused and the first kept |
| Tunnel.JoinsOwnV6 | npu_tunnel.c:500-560 | the same for IPv6 |
| Tunnel.ChecksumsLeft | npu_tunnel.c:370-387 | the checksum is not patched: with the packet's own right, the first fragment's is right if and only if 8192 payload bytes are left, the second's if and only if the first took none |
| EagleRx.ToHostOnce | npu_wifi_eagle_dp.c:506-545 | a buffer for the host is queued or returned, once, and no other is touched |
| EagleRx.InfoBits | npu_wifi_eagle_dp.c:978-992 | the info word says what the descriptor's bits do: more, wired side, length, header offset, error, the chip's top bits |
| EagleRx.WiredExactly | npu_wifi_eagle_dp.c:1005-1057 | outside a chain, from the bits of a descriptor without more to come: the frame goes to the wired side from its ethernet header on if and only if dst_sel is 1, the force switch is off, and it has no error and a clear host bit or the ICV table excuses its error; else it is queued for the host, or back |
| EagleRx.ChainGrows | npu_wifi_eagle_dp.c:1066-1102 | a buffer with more to come begins or joins the chain with its length; the seventh gives all seven back |
| EagleRx.ChainEnds | npu_wifi_eagle_dp.c:1104-1121 | the last buffer ends the chain: every buffer in order to the host, with the frame's length, its own and its flags, and the frame's length into the first one's word |
| EagleRx.FlagsRead | npu_wifi_eagle_dp.c:1112-1114 | the flags say last, the segment's number from 1, and the count |
| EagleRx.RingMoves | npu_wifi_eagle_dp.c:965-1135 | each descriptor moves the ring on by one, each lap the generation, and every 128 the chip is told of all it may refill |
| EagleRx.WholeClean | npu_wifi_eagle_dp.c:1005-1057 | a clean whole frame goes to the wired side when asked there and not forced to the host, else to its queue |
| EagleRx.Rxd.Finish | npu_wifi_eagle_dp.c:1104-1121 | a complete chain: frame length into its first buffer, every segment queued or returned |
| EagleRx.Rxd.Handle | npu_wifi_eagle_dp.c:957-1135 | one descriptor, ring index and generation included |
| EagleRx.Rxd.FastHandle | npu_wifi_eagle_dp.c:1624-1684 | the fast form, when it takes the descriptor, leaves the general form's state |
| EagleRx.CommonWords | npu_wifi_eagle_dp.c:1636-1655 | on the descriptors it takes, the fast form's words are the general form's |
| EagleRx.FastAgrees | npu_wifi_eagle_dp.c:1624-1684 | outside a chain the two forms agree on every descriptor the fast one takes: queues, buffer words, ring state, sends and returns |
| EagleRx.LinkOnce | npu_wifi_eagle_dp.c:1066-1121 | a chain never holds more than six buffers, so no store passes the seven places, and an aborted one returns each once |
| EagleRx.HandledOnce | npu_wifi_eagle_dp.c:957-1135 | one descriptor settles or holds its own buffer, once, and no other |
| EagleRx.EveryBufferOnce | npu_wifi_eagle_dp.c:957-1135 | over every run of descriptors and queue states each buffer is sent, queued, returned or held as often as it arrived |

## Left out

- Counters, prints, profiling and the debug dumps; the reorder list's own tail pointer, which no code reads.
- Mutexes appear as atomic steps where the code holds one around the whole operation; the rings, the node pools, the station counts and the TDMA ring are interleaved at single accesses instead. A block-ack entry is neither: its frames, timeouts, BARs and ADDBAs are taken as whole steps, though `kite_classify_pn` and `npu_set_bar_info` lock only parts, store the last SN outside some of them, and run on different harts.
- NodePool.Nodes.Alloc: one call at a time; `NodePoolRace` has one alloc beside one free, each side serialised by its own mutex, the counter between their accesses left out.
- The rx parser, the table lookup of an entry by station, TID and band (`wifi_dbdc_mode`), frames without a station, and the no-BA test mode.
- BaEntry.Entry.ClassifyFrame: requires that the frame is not linked through a stale head pointer, since what a write to a freed node does to whoever has it next is not modelled; `BaRuns.RxOk` proves that no covered run comes to it, `BaStray.FrameLost` that one with a restart can. `HoldFrame`, `SettleFrame` and `BaTable.Apply` require the same.
- BaRuns.DeliveryInOrder: requires bit 0 of the fast flag to be clear, as the flag bridges duplicates and frames behind the window (`BaEdges.FlagReorders`; `BaRuns.RunFlag` says what stays); does not cover frames half the number space or more away, the restart branch, a retransmit check that pulls last back, or a BAR beyond 12 bits; `BaEdges` shows runs that reorder through the second and the third, and `BaEdges.RestartExactly` and `BaRuns.PulledBackExactly` say exactly when those two occur.
- WaterFill.FitsIff: leaves open what is handed out where assured grants stand beside sharing ones and the even share wraps; `WaterFill.SharesFitWhen` and `DbaExact.SmallDemandFits` say where none does, `WaterFill.WrappedShareFits` shows a case. The same holds for `DbaExact.BudgetMetIff`.
- NodePoolRace.RunExactly: takes the increment and the wrap of an index as two stores, as they are written; a compiler that keeps the index in a register between them would leave no such window.
- Node memory is one sequence of records rather than bytes at addresses.
- IdRing.Ring.Put: does not model a caller that returns an id it does not hold; `IdRing.DistinctFit` gives every other caller the room.
- DbaRequest.Dba.Request: takes the grant `dba_alloc_adapt` leaves each id as a parameter of 16 bits; its step sizes are tuning constants.
- DbaBudget.BudgetedMap: map modes 1 and 2 and FEC ONUs are not covered, since the former overrun and the latter pay overhead by list position; `DbaBudget.AllWrittenIff` holds for them too.
- The new DBA's two-frame map (its total is in `DbaBudget.Calc`), the bank switch, report rings and host mail of the bandwidth allocator.
- Tunnel.RoundTripV4: below 20 (48 for `RoundTripV6`) the first segment runs past the packet (`Tunnel.MtuHoldsV4`, `Tunnel.MtuHoldsV6`) and what follows is not modelled; the frame's outer header is one the hardware parser can have found.
- The VXLAN, SRv6 and MAP operations of the tunnel, and its egress credits.
- StaCount.CountExact: the second sending hart of the Clanker build is not covered; the limit is fixed during a run. The timing probe is written whole by each hook, not interleaved.
- CoDel.DropsSpaced: settings are fixed during a trace and the interval is at most 2^31 cycles; `CoDel.LongIntervalDrops` shows what a longer one does.
- TokenFlow.TokensKept: jumbo tokens and the frames of host rings are not covered.
- EagleRx.FastAgrees: the debug counters the general form also keeps are not modelled.
- TdmaRoom.NoneOverwritten: the other builds' 32-byte descriptors and the bus writes behind a submit are not covered.
- Draining the Eagle queues to the host, the copy engine's pending record, and the tx ring's binary search for room.
