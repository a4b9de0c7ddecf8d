# A verified model of the stmmac Ethernet driver's shared state

The driver and the DMA engine of a Synopsys GMAC share two rings of descriptors without a
lock: counters that run freely and wrap at 32 bits, a slot index taken modulo the ring size,
one ownership bit per descriptor, and side arrays of socket buffers and DMA mappings. Around
the rings sit an interrupt handler that acknowledges what it read, and small state machines
over hardware registers: link adjustment, address filters, PHY register access and the
escalation of the transmit threshold. This project models that code in Dafny and proves what
every interleaving keeps.

## How it is built

| module | what it holds |
|---|---|
| `Ring`, `Slots` | slot arithmetic on wrapping counters; optional values in slots, and counting |
| `TxModel` | the transmit ring as a state machine: one step is one store the engine could see, and the engine's own step may come between any two |
| `TxInvariant` | what every step keeps: the image of the ring, the histories, and the agreement with the engine |
| `TxRuns` | theorems about all runs |
| `TxDriver` | the class `TxRing`: `stmmac_xmit`, `rtl8211_xmit`, `stmmac_tx_clean`, `stmmac_tx_err` on 32-bit counters and arrays, with the engine running between any two stores; every method's steps are steps of `TxModel` |
| `RxModel`, `RxDriver` | the same for the receive ring: `stmmac_rx` and `stmmac_rx_refill` |
| `Interrupt` | the status register, its acknowledgement, and the handler on top of both rings |
| `DmaMode` | operation mode register and threshold escalation |
| `Link` | link adjustment and the SoC's clock selection |
| `Filter` | hash tables and address registers of both cores |
| `Mdio` | PHY register access |

The classes keep the source's fields and change them in place. Each ring class carries a ghost
copy of the abstract ring (`m`) and the list of steps taken (`run`); `Valid()` says that the
fields show `m` and that `m` is reached by `run`, so the theorems about runs apply to every
state a method can leave behind. Positions in the abstract rings are unbounded; that 32-bit
counters show them correctly is part of `Valid()` and rests on the ring size dividing 2^32.

## What the model found

* **Ring sizes.** The slot of a wrapping counter is continuous exactly when the ring size
  divides 2^32 (`Ring.WrapContinuousIff`). Sizes are rounded up to cache lines
  (`stmmac_main.c:1719-1720`), so 64 is fine and 192 is not.
* **"Tx Ring full when queue awake".** For the network sender alone the branch is dead exactly
  when a quarter of the ring is at least `MAX_SKB_FRAGS` (`TxRuns.NetworkNeverBusyAwakeIff`). The default ring of 64 gives 16, and
  the kernel's usual `MAX_SKB_FRAGS` is 17, so with the defaults the branch is reachable.
  `rtl8211_xmit` shares the ring and never stops the queue: with it the branch is reachable on
  every ring (`TxRuns.RawFillsAwakeRing`). Under the guard "queue stopped, or at least
  `MAX_SKB_FRAGS + 2` descriptors free" on each raw send the same condition is exact for any
  mix (`TxRuns.NeverBusyAwakeIff`), and one raw send one descriptor below the guard is enough to
  break it (`TxRuns.OneRawTooMany`). On a ring without a free descriptor a raw send makes the
  space check show 2^32 - 1 (`TxDriver.RawSendCountsIff`).
* **`stmmac_tx_err`.** It restarts the driver at slot 0 while the engine keeps its place, so
  the two agree afterwards exactly when the engine stood at slot 0 (`TxRuns.ResetAgreesIff`;
  `TxRuns.ResetBreaksAgreement` gives a run that loses it on every ring of two slots or more).
  It unmaps only slots that hold a socket buffer, so mappings of fragments and raw frames stay
  (`TxRuns.ResetKeepsFragmentMappings`). And `ndesc_init_tx_desc` clears only the ownership bit,
  although `common.h:310-311` calls it the initialization of the descriptor: last-segment,
  interrupt and checksum bits of dropped frames stay behind unless the ring was drained
  (`TxRuns.ResetBlankIff`), and the next frame with a fragment can then be cut short after its
  head (`TxRuns.ResetCutsNextFrame`). A reset does no harm exactly when the ring is drained and
  the engine stands at slot 0 (`TxRuns.ResetTidyIff`), and runs whose every reset is like that
  keep everything proved about the engine.
* **Segment lengths.** Reclaiming reads the length to unmap back from an 11-bit field that holds
  0 for a segment of 2048 bytes and 2047 for anything longer; it unmaps what was mapped exactly
  when every segment is shorter than 2048 bytes (`TxRuns.FrameUnmapsIff`).
* **Receive budget.** A call of `stmmac_rx` can be misled into taking a frame that never
  arrived exactly when the slots awaiting refill and its budget together exceed the ring
  (`RxModel.MisledIff`). The driver then overtakes the engine and reads again what the oldest
  slot last received: a discarded frame is counted as an error twice, any other ends in the
  "Inconsistent Rx descriptor chain" branch (`RxModel.MisledTakeMeans`), which is reachable on
  every ring (`RxModel.InconsistentChainReachable`). With a ring and a budget of 64 one failed
  allocation is enough to exceed it.
* **Unicast table.** `dwmac1000_set_filter` writes up to 32 addresses into registers 1 to 32. A
  list reaches only as far as the core has registers: with 32 of them, register 0 included, the
  last of 32 listed addresses is missed (`Filter.GmacFilter.SetFilter`).
* **Hard transmit errors.** One that is reported together with a normal completion is
  acknowledged but not recovered from: the handler compares the whole code for equality
  (`Interrupt.Classify`, `Interrupt.Nic.DirectDmaInterrupt`).
* **Core initialization.** Run on a live gigabit link it would switch the port behind the link
  cache's back (`Link.Mac.CoreInit`); the driver calls it only while the link is down.

## Model

| member | source | states |
|---|---|---|
| Ring.WrapSlot | stmmac_main.c:1940-1964 | both 32-bit counters find the slot of the position they show, across any number of wraps, when the ring size divides 2^32 |
| Ring.WrapContinuousIff | stmmac_main.c:1719-1720 | incrementing a wrapping counter always moves to the next slot if and only if the ring size divides 2^32 |
| Ring.SlotsDistinct | stmmac_main.c:1964-1964 | positions less than a ring size apart occupy distinct slots |
| TxDriver.AvailRefines | stmmac_main.c:253-256 | the space check on wrapping counters equals size - 1 - outstanding |
| TxDriver.RawSendCountsIff | stmmac_main.c:2173-2190 | after a raw send the space check is right if and only if there was a free descriptor; otherwise it shows 2^32 - 1 |
| TxDriver.CoalesceRefines | stmmac_main.c:2046-2055 | the interrupt decision on the wrapping frame count is the one on the true count |
| TxInvariant.StepKeepsBase | stmmac_main.c:1964-2080 | every store of the driver and every step of the engine keeps: each slot holds exactly what its position should (over what a reset left there), one descriptor stays free, and the histories balance |
| TxInvariant.StepKeepsEngine | stmmac_main.c:1964-2061 | every step but a reset keeps dirty <= engine <= published and the ownership bits exactly on the positions from the engine on, plus fragments it cannot reach yet |
| TxInvariant.EngineReadsPublished | stmmac_main.c:2020-2061 | wherever the engine may act, it reads a published, finished descriptor, in turn |
| TxRuns.EngineSeesOnlyFinishedFrames | stmmac_main.c:1964-2061 | in every interleaving whose resets are tidy (or absent), what the engine has read since the last reset is in order the finished descriptors of the frames handed over, and what it could read next continues that list |
| TxRuns.WireAppends | stmmac_main.c:2007-2061 | what the engine is meant to read for one more frame: one owned descriptor per segment with its address, length and checksum mode, first and last marked, the interrupt on the last one only, the socket buffer with the first |
| TxRuns.OwnershipAtRest | stmmac_main.c:2057-2061 | on such runs, between calls dirty <= engine <= cur, and ownership bits are set exactly on [engine, cur) |
| TxRuns.ReclaimAfterEngine | stmmac_main.c:1337-1370 | on such runs a descriptor is unmapped, freed and released only after the engine gave it up, and never in the slot the engine looks at |
| TxRuns.RingNeverLaps | stmmac_main.c:1940-1947 | on every run outstanding positions never exceed size - 1, sit in distinct slots, and the space check counts them exactly |
| TxRuns.TidyRunKeeps | stmmac_main.c:1406-1428 | resets made with the ring drained and the engine at slot 0 keep driver and engine in agreement and leave no control bits behind |
| TxRuns.SkbConservation | stmmac_main.c:1359-1364 | over any run, resets included, accepted socket buffers are those freed plus those in the slots, as multisets |
| TxRuns.DrainedFreesAll | stmmac_main.c:1321-1371 | a drained ring has freed everything it accepted exactly once |
| TxRuns.ReclaimInOrder | stmmac_main.c:1351-1370 | without resets, socket buffers are freed in the order accepted and mappings are unmapped in ring order, exactly for the descriptors reclaimed |
| TxRuns.ReclaimSinceReset | stmmac_main.c:1351-1370 | on every run, what was freed and unmapped since the last reset is, in order, what belongs to the descriptors reclaimed, and up to that reset as many of each socket buffer were freed as accepted |
| TxRuns.LengthField | descs_com.h:82-89 | the length field holds the length below 2048, 0 at 2048 and 2047 above |
| TxRuns.FrameUnmapsIff | descs_com.h:82-89 | reclaiming a frame unmaps address and length exactly as mapped if and only if every segment is shorter than 2048 bytes and none is mapped at 0 |
| TxRuns.DrainedUnmapsAllIff | stmmac_main.c:1351-1357 | in a reset-free run a drained ring has unmapped every segment of every frame exactly once, as mapped, in order, if and only if all segments fit the length field |
| TxRuns.ResetAgreesIff | stmmac_main.c:1406-1428 | after a reset driver and engine agree if and only if the engine stood at slot 0 |
| TxRuns.ResetBreaksAgreement | stmmac_main.c:1424-1426 | on every ring of at least two slots some run loses the agreement through a reset |
| TxRuns.ResetKeepsFragmentMappings | stmmac_main.c:1237-1254 | a reset clears a published descriptor's mapping if and only if its slot holds a socket buffer; that mapping is unmapped, others stay recorded |
| TxRuns.ResetBlankIff | stmmac_main.c:1414-1423 | after tidy resets, one more leaves no last-segment, interrupt or checksum bit behind if and only if the ring was drained |
| TxRuns.ResetTidyIff | stmmac_main.c:1406-1428 | a reset leaves agreement and clean descriptors if and only if the ring was drained and the engine at slot 0 |
| TxRuns.ResetWakes | stmmac_main.c:1424-1428 | a reset leaves an empty ring with size - 1 free descriptors under an awake queue, and the running count as it was |
| TxRuns.PublishedExactIff | stmmac_main.c:2011-2040 | a published descriptor is the intended one if and only if the leftovers of its slot add nothing to it |
| TxRuns.ResetCutsNextFrame | stmmac_main.c:1414-1425 | some run hands the engine the head of a two-descriptor frame marked as its last segment |
| TxRuns.AwakeMeansRoom | stmmac_main.c:2077-2080 | with txsize/4 >= MAX_SKB_FRAGS, an awake queue always has MAX_SKB_FRAGS + 1 free descriptors, over all runs of xmit, guarded raw sends, tx_clean and tx_err |
| TxRuns.NeverBusyAwakeIff | stmmac_main.c:1940-1947 | no run whose raw sends keep the guard finds the ring full with the queue awake, if and only if txsize/4 >= MAX_SKB_FRAGS and txsize >= 2 |
| TxRuns.NetworkNeverBusyAwakeIff | stmmac_main.c:1940-1947 | the same for runs of the network sender only |
| TxRuns.RawFillsAwakeRing | stmmac_main.c:2101-2199 | with raw frames and no guard, every ring gets full under an awake queue although each raw frame found a free descriptor |
| TxRuns.OneRawTooMany | stmmac_main.c:2101-2199 | after a run that kept the guard, one raw frame sent with MAX_SKB_FRAGS + 1 free descriptors under an awake queue leaves too little room |
| TxRuns.StoppedMeansOutstanding | stmmac_main.c:1372-1381 | if the wake-up test leaves the queue stopped, something is still outstanding |
| TxRuns.NeverStoppedIdleIff | stmmac_main.c:1372-1381 | no run of frames, reclaiming and resets that ends between calls leaves the queue stopped over a drained ring, if and only if the ring can take the largest frame |
| TxRuns.CoalesceOne | stmmac_main.c:2046-2055 | each frame keeps the running count below the limit and every silent stretch shorter than the limit |
| TxRuns.CountStaysBelow | stmmac_main.c:2046-2055 | on every run the running count of descriptors stays below tx_coal_frames |
| TxRuns.InterruptsAreNeverFar | stmmac_main.c:2173-2184 | over any mix of network and raw frames, consecutive frames with at least tx_coal_frames descriptors include one whose interrupt was left on |
| TxDriver.TxRing.constructor | stmmac_main.c:1191-1211 | an opened ring is empty, awake and its counters are zero |
| TxDriver.TxRing.Xmit | stmmac_main.c:1930-2099 | a frame is accepted exactly when it fits; then its descriptors are appended, each field as the frame says, the interrupt left on exactly when the count reaches the limit, and the queue is stopped when, and only when, another full frame might not fit; else only the queue is stopped; the engine and tx_clean may run in between |
| TxDriver.TxRing.RawXmit | stmmac_main.c:2101-2199 | a raw frame is appended as one descriptor, given a free one, with the same interrupt decision and no stop |
| TxDriver.TxRing.AddFrame | stmmac_main.c:1964-2061 | the shared body writes the segments, closes the last one, decides the interrupt, and flips the head's ownership bit last, whatever the engine does in between |
| TxDriver.TxRing.DecideInterrupt | stmmac_main.c:2046-2055 | the running count and the last segment's interrupt bit follow the coalescing decision |
| TxDriver.TxRing.StopIfFull | stmmac_main.c:2077-2080 | the queue is stopped exactly when it was or at most MAX_SKB_FRAGS + 1 descriptors are free |
| TxDriver.TxRing.TxClean | stmmac_main.c:1313-1388 | terminates, reclaims everything the engine had completed when it began and nothing it had not completed, frees and unmaps exactly those in order, and wakes the queue exactly when more than a quarter of the ring is free |
| TxDriver.TxRing.ReclaimOne | stmmac_main.c:1351-1370 | one completed descriptor is unmapped, freed, released and counted; its slot holds neither mapping nor socket buffer |
| TxDriver.TxRing.ReleaseOldest | common.h:321-322 | a released descriptor keeps its buffer address and nothing else |
| TxDriver.TxRing.FreeSkbufs | stmmac_main.c:1233-1255 | every slot with a socket buffer is freed and unmapped in slot order, the others are left alone |
| TxDriver.TxRing.InitDescriptors | stmmac_main.c:1414-1423 | every descriptor loses its ownership bit and nothing else |
| TxDriver.TxRing.TxErr | stmmac_main.c:1406-1429 | the ring is empty under an awake queue and everything accepted has been freed exactly once; engine and driver agree if and only if the engine stood at slot 0 |
| RxModel.RxStepSafe | stmmac_main.c:2443-2555 | every step, whatever the budget, keeps: owned slots are mapped, buffers are conserved, and each frame taken is tallied |
| RxModel.RxStepKeeps | stmmac_main.c:2443-2555 | every step that takes only what has arrived keeps the receive ring's order, and is no drop |
| RxModel.CompleteInOrder | stmmac_main.c:2236-2241 | the engine acts in ring order and never a whole ring ahead of what was given back |
| RxModel.OwnedIsMapped | stmmac_main.c:2221-2241 | on every run, whatever the budgets and wherever allocations fail, a descriptor the engine owns names the mapped buffer of its slot |
| RxModel.DeliveriesFollowArrivals | stmmac_main.c:2443-2552 | on runs whose calls stay within budget, frames leave in engine order, each once, in its own buffer; the length told is the reported one for LLC/SNAP frames and 4 less for others; only discarded frames are left out and none is dropped |
| RxModel.TakenIsTallied | stmmac_main.c:2443-2557 | on every run packets, errors and drops add up to the frames taken |
| RxModel.BufferConservation | stmmac_main.c:2221-2241 | on every run buffers allocated are buffers in the ring plus buffers handed to the stack, as multisets |
| RxModel.AwaitingRefill | stmmac_main.c:2212-2243 | on budgeted runs exactly the consumed positions await refill: no buffer there, except that a discarded frame's slot keeps its own |
| RxModel.OwnershipTestMeans | stmmac_main.c:2452-2453 | after a budgeted run a cleared ownership bit at cur_rx means a new frame if and only if not all slots await refill |
| RxModel.MisledIff | stmmac_main.c:2443-2459 | after a budgeted run, a call can take a frame that has not arrived if and only if slots awaiting refill plus its budget exceed the ring |
| RxModel.BudgetedNeverMisled | stmmac_main.c:2443-2459 | a run whose calls stay within budget never takes a frame that has not arrived |
| RxModel.MisledTakeMeans | stmmac_main.c:2455-2507 | the first such take overtakes the engine; it ends in a drop if the slot's last frame was delivered and in a second error count if it was discarded |
| RxModel.StarvedRingMisleads | stmmac_main.c:2443-2459 | on every ring one budgeted call without refills makes the test find a frame that never arrived |
| RxModel.InconsistentChainReachable | stmmac_main.c:2501-2507 | on every ring some run reaches the "Inconsistent Rx descriptor chain" branch |
| RxModel.TakenHasBuffer | stmmac_main.c:2501-2507 | on budgeted runs that branch is not taken, and the report read is that of the frame taken |
| RxDriver.RxRing.constructor | stmmac_main.c:1159-1178 | a ring opened with all its buffers, owned by the engine, and all counters zero |
| RxDriver.CountersDifferIff | stmmac_main.c:2212-2212 | the refill test tells whether anything awaits refill as long as less than 2^32 does |
| RxDriver.RxRing.Receive | stmmac_main.c:2423-2560 | at most `limit` frames are taken and each is delivered, discarded or dropped; when the budget fits, now and before, exactly the frames that arrived and were not discarded are delivered, in order, in their own buffers, with the checksum cut off except from LLC/SNAP frames; all that had completed at entry is taken unless the budget ran out, nothing is dropped, and with allocation succeeding dirty_rx == cur_rx on return |
| RxDriver.RxRing.ReceiveLoop | stmmac_main.c:2443-2553 | takes frames in ring order until the budget is spent, the engine owns the next descriptor, or a slot has no buffer |
| RxDriver.RxRing.DeliverTaken | stmmac_main.c:2484-2550 | hands the slot's buffer to the stack with the reported length, 4 less unless it is LLC/SNAP, or counts a drop and ends the loop when there is none |
| RxDriver.RxRing.RxRefill | stmmac_main.c:2207-2244 | gives consumed slots back in order and stops only where the allocator returned nothing or the wrapping counters are equal |
| RxDriver.RxRing.FillSlot | stmmac_main.c:2221-2239 | a slot gets a new mapped buffer unless it still has one; without an allocation nothing changes |
| Interrupt.Classify | dwmac_lib.c:163-223 | which bits of the status decide which part of the returned code, and exactly when the code equals the hard error |
| Interrupt.Nic.DmaInterrupt | dwmac_lib.c:150-234 | on return every bit that was read is clear and every bit raised since that was not read is set; which codes ask for a scan, for a bump and for recovery |
| Interrupt.Nic.ScanRings | stmmac_main.c:2568-2573 | after the scan every completion that owes an interrupt and is not taken is pending, when the receive budget fits |
| Interrupt.Nic.Serve | stmmac_main.c:2567-2574 | acknowledge, and scan only if a completion was read: nothing is lost, and what is still pending was reported during the call |
| Interrupt.Nic.DirectDmaInterrupt | stmmac_main.c:2562-2585 | if every completed and unreclaimed interrupt-marked transmit descriptor and every completed receive descriptor is pending at entry, the same holds at exit, wherever completions land (receive side: when the budget fits); nothing is pending at exit that was not reported during the call; with allocation succeeding the budget fits again; the recovery branch runs exactly when the code equals the hard error |
| Interrupt.Open | stmmac_main.c:1719-1723 | a freshly opened device meets everything the handler requires and has nothing pending |
| DmaMode.DmaControl.SetOperationMode | dwmac1000_dma.c:113-163 | each threshold field decodes to the least level not below the request (or the highest), store-and-forward leaves it alone, and all other bits, start/stop included, keep their value |
| DmaMode.DmaControl.ThresholdCode | dwmac1000_dma.c:132-141 | the code chosen decodes to the least of 32, 64, 128, 192, 256 not below the request |
| DmaMode.DmaControl.BumpThreshold | stmmac_main.c:2576-2582 | from a programmed threshold the next one is programmed and never lower; the receive side stays in store-and-forward mode |
| DmaMode.EscalationEnds | stmmac_main.c:2576-2582 | from 2 <= tc <= 256, any run of underflows keeps tc within 320 and off the store-and-forward code, raises it at most four times, and then never again |
| DmaMode.StoreAndForwardStays | stmmac_main.c:2578-2578 | store-and-forward is never escalated |
| DmaMode.StartStopUntouched | dwmac_lib.c:52-57 | the transmit and receive start bits are among the bits kept |
| Link.Mac.InitPhy | stmmac_main.c:923-925 | the cache starts empty, whatever the registers hold |
| Link.Mac.AdjustLink | stmmac_main.c:708-798 | skipping unchanged values leaves cache, MAC control and SoC registers exactly as a driver without a cache would; the pause frame register is written exactly on a pause report, with the pause time only in full duplex |
| Link.Mac.AdjustAll | stmmac_main.c:708-798 | any list of reports leaves cache and registers as the driver without a cache would, and the registers show the last report if its link is up |
| Link.Mac.ChangeSpeed | stmmac_main.c:744-769 | the speed switch programs the bits of the reported speed for either core, and the SoC clock with it |
| Link.Mac.FixMacSpeed | stmmac_platform.c:443-492 | the masked writes leave the clock fields as the speed requires and the other bits unchanged |
| Link.Mac.SetMac | dwmac_lib.c:260-270 | enabling and disabling the MAC keeps the cache truthful |
| Link.Mac.CoreInit | dwmac1000_core.c:35-43 | the cache stays truthful if and only if it does not say 1000 on a GMAC |
| Link.ProgrammedShows | stmmac_main.c:728-769 | full reprogramming makes duplex, speed and clock fields decode to the report and changes no other bit |
| Link.RunShows | stmmac_main.c:724-785 | after any reports, the registers show the last one if its link is up, all other bits are as at the start, and the cache is empty if the link is down |
| Link.MacAndSocAgree | stmmac_platform.c:103-150 | in every link-up state of a run the SoC's clock fields and MAC control decode to the same speed |
| Filter.HashesMirror | dwmac1000_core.c:116-116 | the two cores number an address from opposite ends of the table, for any CRC |
| Filter.HashIsIndex | dwmac1000_core.c:116-116 | complement, reversal and shift give the number made of the low six bits of the CRC, read backwards and, on the GMAC, complemented |
| Filter.HashTable | dwmac1000_core.c:108-124 | a table bit is set if and only if some listed address maps to it |
| Filter.TableUnique | dwmac1000_core.c:112-122 | order and repetitions in the list make no difference |
| Filter.TablesMirror | dwmac100_core.c:121-134 | the 64-bit tables of the two cores are mirror images |
| Filter.ExtractInverts | dwmac_lib.c:244-258 | reading a pair of address words back gives the address written |
| Filter.OffsetsDistinct | dwmac1000.h:86-89 | no two address registers share a word, across the break in the map |
| Filter.KnownWords | dwmac1000.h:86-89 | the byte order in the address words and the offsets of registers 0, 15, 16 and 31 |
| Filter.GmacFilter.SetUmacAddr | dwmac1000_core.c:74-79 | one register holds the address's words and nothing else changes |
| Filter.GmacFilter.GetUmacAddr | dwmac_lib.c:272-289 | returns whichever address the register's words encode |
| Filter.GmacFilter.SetUnicast | dwmac1000_core.c:139-147 | register i holds the i-th address; registers outside the list are untouched |
| Filter.GmacFilter.UnicastRoundTrip | dwmac1000_core.c:139-147 | after the list is written, reading register i gives the i-th address, on both sides of the break, and register 0 is untouched |
| Filter.GmacFilter.SetFilter | dwmac1000_core.c:88-158 | whichever mode is chosen, every listed group address gets through, and every unicast address as long as the core has a register for each; otherwise exactly those that fit (or equal register 0); the mode bits are set exactly in their cases; register 0 is untouched |
| Filter.Mac100Filter.SetFilter | dwmac100_core.c:94-146 | every listed group address gets through, the mode bits are set exactly in their cases, and other control bits are kept |
| Mdio.CommandDecodes | phy_ctrl.c:50-52 | the shifts, masks and ORs give a 16-bit command whose busy bit, direction, clock range and five-bit numbers are those meant |
| Mdio.KnownCommands | phy_ctrl.c:83-86 | the two commands for register 2 of PHY 1 at clock range 3 |
| Mdio.MiiBus.BusyWait | phy_ctrl.c:18-32 | returns either with the pending transaction completed or timed out with the device unchanged |
| Mdio.MiiBus.Read | phy_ctrl.c:44-66 | refused with the device unchanged, given up on with the transaction started, or completed with the register's value; a transaction starts only on an idle device |
| Mdio.MiiBus.Write | phy_ctrl.c:76-98 | the same for writes |
| Mdio.MiiBus.WriteAddress | phy_ctrl.c:58-58 | a command may be written only while the busy bit is clear, and then starts a transaction of the right direction on the right register |
| Mdio.RoundTrip | phy_ctrl.c:44-98 | a completed write, any accesses that start no write to that register, and a completed read return the value written |
| Mdio.RunKeepsRegister | phy_ctrl.c:44-98 | no such accesses, however they end and whenever the device completes them, change the register |
| Mdio.GivenUpWriteLands | phy_ctrl.c:92-97 | a write that timed out after starting takes effect when the device completes |
| Mdio.SameRegisterIff | phy_ctrl.c:50-51 | two commands address the same register if and only if the low five bits of their numbers agree; five-bit numbers are told apart |

## Left out

- TxDriver.TxRing.RawXmit: requires one free descriptor and runs without other driver code in between, because the driver neither checks for space nor takes the lock here (`TxDriver.RawSendCountsIff` says what happens without one); nor does it run between the space check and the lock of `stmmac_xmit`.
- TxRuns.ReclaimInOrder: runs without `stmmac_tx_err`; with it `TxRuns.ReclaimSinceReset` and `TxRuns.SkbConservation` hold, and mappings are lost as `TxRuns.ResetKeepsFragmentMappings` says.
- TxRuns.EngineSeesOnlyFinishedFrames: runs whose resets are tidy; the others break it as `TxRuns.ResetTidyIff` and `TxRuns.ResetCutsNextFrame` say.
- RxDriver.RxRing.Receive: promises order and completeness only while slots awaiting refill plus budget stay within the ring; `RxModel.MisledIff` says that this is exact. What an overtaken engine does to later calls is not followed up.
- Interrupt.Nic.DirectDmaInterrupt: the receive half of "no work is lost" is for a budget that fits and a ring of 64; on a larger ring it holds unless the budget was used up. The transmit half is for runs without `stmmac_tx_err`.
- Filter.GmacFilter.SetFilter: says nothing about addresses that are not listed; registers beyond a list that shrank are not cleared. How many registers a core has is the parameter `registers`.
- Filter.Mac100Filter.SetFilter: has no unicast list, as in the driver.
- TxDriver.TxRing.TxErr: the engine is stopped while the ring is swept, and its statistics are not modelled.
- Mdio.RoundTrip: PHY registers are storage; self-clearing and status registers are not modelled. The bus lock that keeps accesses apart belongs to the kernel.
- Memory ordering: stores are seen in program order; barriers, spinlocks and the busy-wait on the timer in `stmmac_xmit` are not modelled. Locked sections exclude other driver code, not the engine.
- Descriptors are the normal ones of `norm_desc.c` in ring mode; the file with the enhanced ones and the ring-mode helpers (`is_jumbo_frm`, `jumbo_frm`, `clean_desc3`, `refill_desc3`) are not part of this model. Of a segment longer than 2048 bytes only the first size field is modelled. Frames are not jumbo, chain mode is not modelled, and descriptor memory starts out zeroed.
- Transmit and receive status words: which statistics they feed, and how a receive status is derived from error bits.
- Time stamping, energy-efficient Ethernet, wake-on-LAN, the coalescing timer, the receive watchdog, NAPI and the watchdog for stuck queues.
- The summary bits of the status register are the OR of their sources, and the register is a record of its bits.
- Partial receive allocation when the ring is opened; the model starts fully populated.
- `stmmac_peek_packet`, whose loop does not advance `cur_rx`.
- `dwmac100_dma_operation_mode`, which ORs thresholds into an uncleared field.
- Probe and remove, device tree, clocks, regulators, GPIO, sysfs, register dumps and the character devices.
- `MAX_SKB_FRAGS` is a kernel constant; it is the parameter `maxFrags`.
