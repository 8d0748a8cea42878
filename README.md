# A verified model of the NXP UWB host SDK core

The NXP UWB host SDK drives NXP's SR040 and SR100T ultra-wideband ranging chips from a
host microcontroller (a QN9090 board) or from a PC. It holds a UCI (Ultra-wideband
Command Interface) stack, drivers, demos and a few Python host tools. Most of it is
threads, drivers and wrappers around semaphores. This project models the sequential
byte-level logic and the small state machines inside it, and proves properties of them
with Dafny:

- **UCI framing** (`UciDefs`, `UciHmsgs`, `UwbMain`, `UwbUcif`, `UwbUcifNtf`):
  - the header build and parse macros;
  - every command builder, with the extended PSDU length;
  - reassembly of chained packets;
  - the command window, retry and recovery state machine of the control block;
  - routing of received packets;
  - the ranging and multicast-list notification parsers.
- **UWB API helpers** (`UwbApiInternal`, `UwbApiAppConfig`, `Sr100tInternal`,
  `Sr040Internal`, with the shared records in `UwbApiTypes`):
  - application, test, core and extended config TLV encoders and decoders;
  - ranging-parameter and device-info parsers;
  - calibration and test-mode command builders;
  - the raw-command wait and its status.
- **GKI and OSAL tables** (`GkiBuffer`, `UwbGkiTime`, `OsalTimer`, `HalUtils`, `NxpConfig`):
  - buffer pools with their free queues;
  - the pool list and the access permissions;
  - the timer pools;
  - the OSAL timer slot table;
  - the HAL linked list and its callback monitor;
  - the NXP configuration lookup.
- **Transports and framing** (`SpiTransport`, `UwbHbci`, `UciHalFwd`, `SwupApi`, `SwupUpdate`,
  `TlvBuilder`, `UwbHifHandler`, `Utilities`, `UwbLogging`, `UwbStatus`):
  - CRC-16/XMODEM and the RCI frames;
  - the UCI packet length rule on SPI;
  - HBCI packets with their longitudinal parity (LRC);
  - the firmware-download chunking;
  - the SWUP segment arithmetic and `Swup_Execute`'s gating;
  - the host TLV builders and reassemblers;
  - the serializers of the demos;
  - the log formatters;
  - the composed status words.
- **Demo logic** (`DemoRxPer`, `PerParseCore`, `PnpCore`, `AppStateManagement`,
  `GpioHandler`, `UwbConfigHandler`, `TlvMng`, `Board`):
  - the PER statistics of the C demo and of the Python `UCILogger`;
  - the Python PnP reader and writer;
  - the session-state table;
  - the BLE tracker's GPIO, configuration and shutdown handlers;
  - the board's fixed-point crystal trimming, ATE temperature decode and ADC conversions.

`Bytes` holds the byte types and the little-endian helpers the modules share.

Each source file is modelled in its own form:

- Code that works on a buffer, a table or a global structure step by step is a class
  whose methods have `modifies` clauses and loop invariants. Each such method is proved
  against a pure function of the old state (`ensures State() == XStep(old(State()), ..)`
  or an explicit statement of the new contents).
- The properties the source promises (round trips, bounds, preserved invariants,
  first-in first-out order) are lemmas about those functions.
- Pure code (macros, switches, parsers) is functions and lemmas.

Where the code does something its authors evidently did not intend, the model keeps the
code as written next to a corrected version, and the intended property is proved of the
corrected one. Each such case is listed under "## Findings".

## Model

| member | source | states |
|---|---|---|
| AppStateManagement.FirstFreeFrom | demos/common/AppStateManagement.c:34-42 | the slot found is the first in state ERROR from `k` on; None means no such slot |
| AppStateManagement.FindFrom | demos/common/AppStateManagement.c:51-59 | the slot found is the first holding the id; None means no slot holds it |
| AppStateManagement.AddThenState | demos/common/AppStateManagement.c:30-45 | a session added with a fresh nonzero id into a table with a free slot reads back with the state it was added with |
| AppStateManagement.RemoveThenState | demos/common/AppStateManagement.c:47-62 | after removing a session held once its state reads as ERROR and every other session keeps its state |
| AppStateManagement.FindOtherUnchanged | demos/common/AppStateManagement.c:52-56 | emptying a slot of another session leaves the lookup of a nonzero id unchanged |
| AppStateManagement.UpdateThenState | demos/common/AppStateManagement.c:64-77 | updating a held session's state is what getCurrentState then answers |
| AppStateManagement.RangingIdsCount | demos/common/AppStateManagement.c:93-105 | the count returned equals the number of ids listed, at most the slots scanned, and each id is that of an activated ranging session |
| AppStateManagement.AppContext.constructor | demos/common/AppStateManagement.c:18-28 | a fresh context has every slot empty (id 0, ERROR, no kind) |
| AppStateManagement.AppContext.InitAppStateInfo | demos/common/AppStateManagement.c:18-28 | every slot becomes empty: id 0, state ERROR, kind 0xFF |
| AppStateManagement.AppContext.AddStateInfo | demos/common/AppStateManagement.c:30-45 | succeeds iff the id is nonzero and a slot in state ERROR exists; the first such slot takes the session, nothing else changes |
| AppStateManagement.AppContext.RemoveStateInfo | demos/common/AppStateManagement.c:47-62 | succeeds iff a slot holds the id; the first such slot is emptied, nothing else changes |
| AppStateManagement.AppContext.UpdateState | demos/common/AppStateManagement.c:64-77 | succeeds iff the id is nonzero and held; only the first matching slot's state changes |
| AppStateManagement.AppContext.GetCurrentState | demos/common/AppStateManagement.c:79-91 | answers the state of the first slot holding the nonzero id, ERROR when none does |
| AppStateManagement.AppContext.GetActiveRangingSessionCount | demos/common/AppStateManagement.c:93-105 | lists, in slot order, the ids of the activated ranging sessions and returns their number |
| AppStateManagement.AppContext.GetActiveSessionIds | demos/common/AppStateManagement.c:107-121 | lists, in slot order, the ids of the sessions that are activated, initialised or idle |
| AppStateManagement.AppContext.CleanUpAppContext | demos/common/AppStateManagement.c:122-141 | asks to deinitialise exactly the live sessions, then leaves every slot empty |
| Board.CDiv | boards/QN9090_SR040_TR3_SPI/board.c:178 | C's signed division by a positive divisor: the quotient is truncated toward zero, bounded on both sides by the dividend |
| Board.ToInt16 | boards/QN9090_SR040_TR3_SPI/board.c:177 | the cast to int16_t gives a value in [-32768, 32767] congruent to the input modulo 2^16 |
| Board.AteTemp | boards/QN9090_SR040_TR3_SPI/board.c:165-185 | the ATE temperature is always within -256..255 °C |
| Board.AteTempRoundTrip | boards/QN9090_SR040_TR3_SPI/board.c:173-181 | a valid word holding v (1/128 °C) reads back as v divided by 128, truncated toward zero |
| Board.AteTempWholeDegrees | boards/QN9090_SR040_TR3_SPI/board.c:173-181 | a valid word stored for a whole number of degrees reads back as exactly that number |
| Board.AteTempIgnoresHighBits | boards/QN9090_SR040_TR3_SPI/board.c:173-184 | bits above bit 16 do not change the reading; a word with bit 0 clear always gives 23 °C |
| Board.IndexA | boards/QN9090_SR040_TR3_SPI/board.c:314-325 | the segment index is at most 33; 33 at or above 130 °C, 0 below -40 °C, otherwise the grid temperature at or below t |
| Board.OnSegment | boards/QN9090_SR040_TR3_SPI/board.c:327-333 | the interpolation is the lower entry plus the segment slope times the distance from the segment start |
| Board.InterpolateAtGrid | boards/QN9090_SR040_TR3_SPI/board.c:303-334 | for any 35-entry table the interpolation meets the table at each grid temperature below 130 °C, and at 130 °C when the last difference is a multiple of 5 |
| Board.CapDeltaAtGrid | boards/QN9090_SR040_TR3_SPI/board.c:246-281 | the crystal's load curve is met exactly at all 35 grid temperatures, -40 to 130 °C |
| Board.InterpolateBetween | boards/QN9090_SR040_TR3_SPI/board.c:303-334 | within -40..130 °C the interpolated value lies between the two table entries of its segment |
| Board.InterpolateError | boards/QN9090_SR040_TR3_SPI/board.c:327-333 | within the table's range the truncated slope keeps the result within 4/5 fF per degree of the exact line through the segment |
| Board.SlopeBounds | boards/QN9090_SR040_TR3_SPI/board.c:246-281 | every segment slope of the crystal's table lies in -31..121 fF per degree |
| Board.EntryBounds | boards/QN9090_SR040_TR3_SPI/board.c:246-281 | every entry of the crystal's table lies in -1079..1296 fF |
| Board.CapDeltaFitsInt32 | boards/QN9090_SR040_TR3_SPI/board.c:303-334 | for any temperature within 2^24 °C the int32_t products, intercept and result do not overflow |
| Board.CompensationWithoutAte | boards/QN9090_SR040_TR3_SPI/board.c:336-356 | without a valid ATE word the compensation is the plain table value, zero at 25 °C |
| Board.CompensationNormalised | boards/QN9090_SR040_TR3_SPI/board.c:344-353 | as written, an ATE reading other than 23 °C becomes the reference: no correction at the temperature read |
| Board.AteAt23IsIgnored | boards/QN9090_SR040_TR3_SPI/board.c:344-353 | as written, a valid ATE word of exactly 23 °C is taken for a missing one, leaving a 65 fF correction at 23 °C |
| Board.CompensationIntendedNormalised | boards/QN9090_SR040_TR3_SPI/board.c:344-353 | corrected: every valid ATE word moves the reference, so the correction at the temperature read is 0 |
| Board.RunDecision | boards/QN9090_SR040_TR3_SPI/board.c:1826-1839 | with no report yet the trim temperature is 25 °C and a trim happens only for threshold 0; otherwise the reported whole degrees, trimming iff the absolute change reaches the threshold |
| Board.RunSettles | boards/QN9090_SR040_TR3_SPI/board.c:1826-1843 | after a trim, the same report does not trim again unless the threshold is 0 |
| Board.FirstMeasurementTrims | boards/QN9090_SR040_TR3_SPI/board.c:1821-1843 | from power-on, the first measured temperature is trimmed for whenever it is at least the threshold away from absolute zero |
| Board.Tcxo32M.constructor | boards/QN9090_SR040_TR3_SPI/board.c:1821 | the remembered trim temperature starts at absolute zero and nothing has been trimmed |
| Board.Tcxo32M.CompensationRun | boards/QN9090_SR040_TR3_SPI/board.c:1819-1845 | when the decision is to trim, remembers the temperature and applies the compensation for it; otherwise nothing changes |
| Board.NlfitSign | boards/QN9090_SR040_TR3_SPI/board.c:1006-1015 | the non-linear correction has the sign of the gain and is zero at the offset temperature |
| Board.NlfitSymmetric | boards/QN9090_SR040_TR3_SPI/board.c:1006-1015 | the correction is symmetric about the offset temperature |
| Board.NlfitMonotone | boards/QN9090_SR040_TR3_SPI/board.c:1006-1015 | with a non-negative gain the correction grows with the distance from the offset |
| Board.NlfitFitsInt32 | boards/QN9090_SR040_TR3_SPI/board.c:1006-1015 | the int32_t square and product do not overflow within 32767 °C of the offset |
| Board.AdcToMvScales | boards/QN9090_SR040_TR3_SPI/board.c:140 | a 12-bit reading converts to millivolts on a 3600 mV scale, rounded down, below 3600 and without wrap-around |
| Board.AdcToMvMonotone | boards/QN9090_SR040_TR3_SPI/board.c:140 | the conversion keeps the order of 12-bit readings |
| Board.BatteryLevelScales | boards/QN9090_SR040_TR3_SPI/board.c:1303-1304 | the level is the share of 3300 mV rounded down, at most 109, and at least 100 exactly from 3300 mV |
| Board.FullScaleBattery | boards/QN9090_SR040_TR3_SPI/board.c:143 | a full-scale reading reports 109 % |
| Board.MacSource | boards/QN9090_SR040_TR3_SPI/board.c:2672-2705 | the word comes from the customer sector (result 0), else the manufacturer word (1), else a fresh word (2, or -1 when writing it failed) |
| Board.MacAddress | boards/QN9090_SR040_TR3_SPI/board.c:2706-2711 | the address handed out is 6 bytes: the word's bytes 7 down to 2, or zeros on failure |
| Board.DisplayShowsStoredWord | boards/QN9090_SR040_TR3_SPI/board.c:2715-2722 | displaying a successfully obtained address shows bytes 2 to 7 of the stored word in stored order |
| Board.FreshMacCarriesOui | boards/QN9090_SR040_TR3_SPI/board.c:2690-2711 | a freshly made address is the three random bytes reversed followed by the NXP OUI reversed |
| Board.GetBleMacId | boards/QN9090_SR040_TR3_SPI/board.c:2665-2713 | returns the result code of the chosen source and leaves in the array exactly the address handed out |
| DemoRxPer.MacFailCounter | demos/SR040/demo_test_modes/demo_rx_per.c:617-670 | a listed failure reason is booked under its own counter, any other under RSN_UNSPECIFIED |
| DemoRxPer.FrameMatches | demos/SR040/demo_test_modes/demo_rx_per.c:753-758 | the received PSDU matches iff it has the expected length and the same bytes |
| DemoRxPer.FirstPathCounted | demos/SR040/demo_test_modes/demo_rx_per.c:713-720 | a first-path record counts only when found, of the full 40-byte size, and with a nonzero firstPathdetected word |
| DemoRxPer.CountStatusBits | demos/SR040/demo_test_modes/demo_rx_per.c:548-553 | each of the eleven counters moves by one (16-bit wrap) exactly when its status bit is set |
| DemoRxPer.RxPer.Init | demos/SR040/demo_test_modes/demo_rx_per.c:445-453 | every counter starts at zero and the expected frame and slot type are stored |
| DemoRxPer.RxPer.ParseRxPer | demos/SR040/demo_test_modes/demo_rx_per.c:555-595 | a found RX status counts one notification and each set bit 0..10 in its own counter; without it nothing moves |
| DemoRxPer.RxPer.ParseMacFailRsn | demos/SR040/demo_test_modes/demo_rx_per.c:602-682 | status 0 and 1 count header and payload success; status 0xFF with a found reason counts that reason (unlisted ones as unspecified); anything else changes nothing |
| DemoRxPer.RxPer.ParseFirstPathInfo | demos/SR040/demo_test_modes/demo_rx_per.c:702-734 | the first-path count moves by one exactly when the record is counted |
| DemoRxPer.RxPer.ParseRxFrame | demos/SR040/demo_test_modes/demo_rx_per.c:736-767 | a missing PSDU is a failed comparison only in SP0 slots; a present one counts success iff it matches the expected frame, failure otherwise |
| DemoRxPer.RxPer.AppCallbackPhyLogNtf | demos/SR040/demo_test_modes/demo_rx_per.c:433-443 | a notification longer than one byte moves each counter exactly as its parser does: the RX status bits, the MAC success and failure-reason counts, the first-path count and the frame comparison; a shorter one changes no counter |
| DemoRxPer.AllBitsCountEverywhere | demos/SR040/demo_test_modes/demo_rx_per.c:569-589 | a status word with all eleven bits set moves all eleven counters |
| DemoRxPer.HighBitsCountNowhere | demos/SR040/demo_test_modes/demo_rx_per.c:548-589 | status bits above 10 have no counter: a word with only those set moves none |
| GkiBuffer.AlignPool | libs/uwb-iot/uwb_core/gki/common/uwb_gki_common.h:82 | the pool size is rounded up to the next multiple of 4, by less than 4 |
| GkiBuffer.InitHdr | libs/uwb-iot/uwb_core/gki/common/uwb_gki_buffer.cc:76-91 | laying out pool id gives each of its n buffers a FREE header of that pool; other headers are unchanged |
| GkiBuffer.InitFreeQueue | libs/uwb-iot/uwb_core/gki/common/uwb_gki_buffer.cc:47-94 | laying out a pool keeps the control block well formed |
| GkiBuffer.AllocFreeQueue | libs/uwb-iot/uwb_core/gki/common/uwb_gki_buffer.cc:96-113 | re-laying out an empty queue keeps the block well formed; a failure changes nothing |
| GkiBuffer.FitFrom | libs/uwb-iot/uwb_core/gki/common/uwb_gki_buffer.cc:257-261 | the position found is the first pool in list order that can hold the size, or the list end when none can |
| GkiBuffer.ServeFrom | libs/uwb-iot/uwb_core/gki/common/uwb_gki_buffer.cc:272-276 | the position found is the first public, not exhausted pool from there on, or the list end |
| GkiBuffer.Take | libs/uwb-iot/uwb_core/gki/common/uwb_gki_buffer.cc:293-308 | handing out the head of a free queue keeps the block well formed and gives that head |
| GkiBuffer.GetBufStep | libs/uwb-iot/uwb_core/gki/common/uwb_gki_buffer.cc:244-317 | getbuf keeps the block well formed and gives nothing, changing nothing, for a zero size |
| GkiBuffer.GetPoolBufStep | libs/uwb-iot/uwb_core/gki/common/uwb_gki_buffer.cc:335-386 | getpoolbuf keeps the block well formed |
| GkiBuffer.GetPoolId | libs/uwb-iot/uwb_core/gki/common/uwb_gki_buffer.cc:400-412 | answers pool 0, 1 or 2 exactly for the size ranges up to 64, 128 and 320 bytes, and 0xFF exactly above 320 |
| GkiBuffer.FindFrom | libs/uwb-iot/uwb_core/gki/common/uwb_gki_buffer.cc:431-441 | the retry over the fixed pools keeps the block well formed |
| GkiBuffer.FindGetPoolBufStep | libs/uwb-iot/uwb_core/gki/common/uwb_gki_buffer.cc:426-444 | keeps the block well formed and gives nothing for a size above every fixed pool |
| GkiBuffer.FreeBufStep | libs/uwb-iot/uwb_core/gki/common/uwb_gki_buffer.cc:458-503 | a free is accepted iff the buffer is undamaged, UNLINKED and has a valid queue id; a refused free changes nothing |
| GkiBuffer.EnqueueStep | libs/uwb-iot/uwb_core/gki/common/uwb_gki_buffer.cc:605-643 | an enqueue is accepted iff the buffer is undamaged and UNLINKED; a refused one changes nothing; the set of headers is kept |
| GkiBuffer.DequeueStep | libs/uwb-iot/uwb_core/gki/common/uwb_gki_buffer.cc:656-686 | dequeuing keeps the queue sound; an empty queue gives nothing and changes nothing |
| GkiBuffer.SetPoolPermissionStep | libs/uwb-iot/uwb_core/gki/common/uwb_gki_buffer.cc:751-766 | an unknown pool id is refused with GKI_INVALID_POOL and nothing changes |
| GkiBuffer.InsertPos | libs/uwb-iot/uwb_core/gki/common/uwb_gki_buffer.cc:785-789 | the insertion point is the first list position whose pool is at least as large, or the list end |
| GkiBuffer.AddToPoolList | libs/uwb-iot/uwb_core/gki/common/uwb_gki_buffer.cc:778-798 | the in-use list keeps its length and holds only pool ids |
| GkiBuffer.PoolIndex | libs/uwb-iot/uwb_core/gki/common/uwb_gki_buffer.cc:815-819 | the position found holds the pool and no earlier position does |
| GkiBuffer.RemoveFromPoolList | libs/uwb-iot/uwb_core/gki/common/uwb_gki_buffer.cc:810-826 | the in-use list keeps its length |
| GkiBuffer.FreeBufKeepsValid | libs/uwb-iot/uwb_core/gki/common/uwb_gki_buffer.cc:481-501 | freeing keeps the pool books balanced, and an accepted free always finds cur_cnt above zero, so that guard never fires |
| GkiBuffer.TakeKeepsValid | libs/uwb-iot/uwb_core/gki/common/uwb_gki_buffer.cc:293-308 | handing out a free buffer keeps the pool books balanced |
| GkiBuffer.ServeFromPoolTakes | libs/uwb-iot/uwb_core/gki/common/uwb_gki_buffer.cc:278-308 | a pool with room always has a free head, so the alloc_free_queue branch is never reached and the buffer is that head |
| GkiBuffer.GetBufKeepsValid | libs/uwb-iot/uwb_core/gki/common/uwb_gki_buffer.cc:244-317 | getbuf keeps the books; it gives a buffer exactly when a nonzero size fits some pool in use, and gives nothing only without changing anything |
| GkiBuffer.GetBufFirstFit | libs/uwb-iot/uwb_core/gki/common/uwb_gki_buffer.cc:257-308 | getbuf serves the head of the first fitting public pool with room, now UNLINKED and counted, with max_cnt following |
| GkiBuffer.SortedFit | libs/uwb-iot/uwb_core/gki/common/uwb_gki_buffer.cc:257-276 | because the in-use list is sorted by size, every pool from the first big enough one on is big enough |
| GkiBuffer.GetPoolBufKeepsValid | libs/uwb-iot/uwb_core/gki/common/uwb_gki_buffer.cc:335-386 | getpoolbuf keeps the books; a pool with room serves its own head whatever its permission; an exhausted pool falls back to getbuf for its size |
| GkiBuffer.FindFromKeepsValid | libs/uwb-iot/uwb_core/gki/common/uwb_gki_buffer.cc:426-444 | find_get_poolBuf keeps the books |
| GkiBuffer.FreeUndoesTake | libs/uwb-iot/uwb_core/gki/common/uwb_gki_buffer.cc:458-503 | freeing the buffer just taken is accepted, restores cur_cnt and every header, and moves the buffer from the head to the tail of its free queue |
| GkiBuffer.QueueFifo | libs/uwb-iot/uwb_core/gki/common/uwb_gki_buffer.cc:605-686 | enqueue then dequeue is first in first out: the old head comes out (the new buffer from an empty queue) and the rest keeps its order with the new buffer last |
| GkiBuffer.EnqueueDequeueRoundTrip | libs/uwb-iot/uwb_core/gki/common/uwb_gki_buffer.cc:605-686 | enqueuing on an empty queue and dequeuing gives the buffer back and restores the queue and every header |
| GkiBuffer.EnqueueKeepsValid | libs/uwb-iot/uwb_core/gki/common/uwb_gki_buffer.cc:605-643 | enqueue keeps the pool books |
| GkiBuffer.DequeueKeepsValid | libs/uwb-iot/uwb_core/gki/common/uwb_gki_buffer.cc:656-686 | dequeue keeps the pool books and leaves a sound queue |
| GkiBuffer.PermissionBits | libs/uwb-iot/uwb_core/gki/common/uwb_gki_buffer.cc:751-766 | for a known pool the call succeeds, makes the pool restricted exactly when asked, and leaves every other pool's permission and all other state alone |
| GkiBuffer.AddToPoolListSorted | libs/uwb-iot/uwb_core/gki/common/uwb_gki_buffer.cc:778-798 | inserting keeps the in-use list sorted by size: the pool goes in before the first pool at least as large and the rest shift up |
| GkiBuffer.RemoveFromPoolListOrder | libs/uwb-iot/uwb_core/gki/common/uwb_gki_buffer.cc:810-826 | removing takes the pool out and keeps the others sorted and in order |
| GkiBuffer.EmptyState | libs/uwb-iot/uwb_core/gki/common/uwb_gki_buffer.cc:138-149 | the cleared control block is well formed |
| GkiBuffer.BufferInitState | libs/uwb-iot/uwb_core/gki/common/uwb_gki_buffer.cc:125-226 | the start-up control block is well formed |
| GkiBuffer.BufferInitShape | libs/uwb-iot/uwb_core/gki/common/uwb_gki_buffer.cc:125-226 | start-up lays out pools 0, 1 and 2 with 20 x 64, 10 x 128 and 5 x 320 free buffers and lists them in that order |
| GkiBuffer.BufferInitValid | libs/uwb-iot/uwb_core/gki/common/uwb_gki_buffer.cc:125-226 | after start-up the books balance and the in-use list is sound and sorted |
| GkiBuffer.FirstUnused | libs/uwb-iot/uwb_core/gki/common/uwb_gki_buffer.cc:919-922 | the pool found is the first without memory, or the pool count when all have memory |
| GkiBuffer.UnusedLeavesRoom | libs/uwb-iot/uwb_core/gki/common/uwb_gki_buffer.cc:919-930 | a pool without memory is not in the in-use list, so the list has room for it |
| GkiBuffer.CreatePoolStep | libs/uwb-iot/uwb_core/gki/common/uwb_gki_buffer.cc:906-946 | create_pool keeps the block well formed |
| GkiBuffer.CreatePoolLaysOut | libs/uwb-iot/uwb_core/gki/common/uwb_gki_buffer.cc:906-946 | a successful create lays out the first pool without memory with the aligned size and count free buffers, lists it in size order, and restricts it exactly when asked |
| GkiBuffer.CreatePoolKeepsValid | libs/uwb-iot/uwb_core/gki/common/uwb_gki_buffer.cc:906-946 | create_pool keeps the books; it answers 0xFF, changing nothing, exactly for an oversized request, no free pool or no memory |
| GkiBuffer.StartedListed | libs/uwb-iot/uwb_core/gki/common/uwb_gki_buffer.cc:810-826 | a pool with memory is in the in-use list |
| GkiBuffer.DeletePoolStep | libs/uwb-iot/uwb_core/gki/common/uwb_gki_buffer.cc:962-996 | delete_pool keeps the block well formed |
| GkiBuffer.IdlePoolAllFree | libs/uwb-iot/uwb_core/gki/common/uwb_gki_buffer.cc:971-989 | every buffer of a pool whose cur_cnt is zero is FREE |
| GkiBuffer.DeleteKeepsBooks | libs/uwb-iot/uwb_core/gki/common/uwb_gki_buffer.cc:962-996 | deleting an idle pool keeps every pool's books and the headers |
| GkiBuffer.DeleteKeepsOrder | libs/uwb-iot/uwb_core/gki/common/uwb_gki_buffer.cc:810-826 | removing an idle pool from the in-use list keeps the rest sorted and in order |
| GkiBuffer.DeleteKeepsList | libs/uwb-iot/uwb_core/gki/common/uwb_gki_buffer.cc:962-996 | deleting an idle pool keeps the in-use list sound |
| GkiBuffer.DeletePoolKeepsValid | libs/uwb-iot/uwb_core/gki/common/uwb_gki_buffer.cc:962-996 | delete_pool keeps the books; it is refused, changing nothing, exactly when the pool has buffers out; an accepted delete leaves the pool without memory or counters and out of the list |
| GkiBuffer.Gki.constructor | libs/uwb-iot/uwb_core/gki/common/uwb_gki_buffer.cc:125-226 | the new control block is the start-up state |
| GkiBuffer.Gki.LayOutPool | libs/uwb-iot/uwb_core/gki/common/uwb_gki_buffer.cc:47-94 | the state after laying out a pool is the one InitFreeQueue describes |
| GkiBuffer.Gki.AllocPool | libs/uwb-iot/uwb_core/gki/common/uwb_gki_buffer.cc:96-113 | the state and the answer are those of AllocFreeQueue |
| GkiBuffer.Gki.TakeHead | libs/uwb-iot/uwb_core/gki/common/uwb_gki_buffer.cc:293-308 | the state and buffer are those of Take |
| GkiBuffer.Gki.ServePool | libs/uwb-iot/uwb_core/gki/common/uwb_gki_buffer.cc:278-308 | the state and buffer are those of ServeFromPool |
| GkiBuffer.Gki.GetBuf | libs/uwb-iot/uwb_core/gki/common/uwb_gki_buffer.cc:244-317 | the two search loops give the state and buffer of GetBufStep |
| GkiBuffer.Gki.GetPoolBuf | libs/uwb-iot/uwb_core/gki/common/uwb_gki_buffer.cc:335-386 | the state and buffer are those of GetPoolBufStep |
| GkiBuffer.Gki.FindGetPoolBuf | libs/uwb-iot/uwb_core/gki/common/uwb_gki_buffer.cc:426-444 | the retry loop gives the state and buffer of FindGetPoolBufStep |
| GkiBuffer.Gki.FreeBuf | libs/uwb-iot/uwb_core/gki/common/uwb_gki_buffer.cc:458-503 | the state and answer are those of FreeBufStep |
| GkiBuffer.Gki.SetPoolPermission | libs/uwb-iot/uwb_core/gki/common/uwb_gki_buffer.cc:751-766 | the state and status are those of SetPoolPermissionStep |
| GkiBuffer.Gki.InsertPool | libs/uwb-iot/uwb_core/gki/common/uwb_gki_buffer.cc:778-798 | the in-use array becomes AddToPoolList of the old one |
| GkiBuffer.Gki.FindInsertPos | libs/uwb-iot/uwb_core/gki/common/uwb_gki_buffer.cc:785-789 | the first loop stops at InsertPos |
| GkiBuffer.Gki.ShiftUp | libs/uwb-iot/uwb_core/gki/common/uwb_gki_buffer.cc:791-795 | entries i..n-1 move up one place, the rest stay |
| GkiBuffer.Gki.RemovePool | libs/uwb-iot/uwb_core/gki/common/uwb_gki_buffer.cc:810-826 | the in-use array becomes RemoveFromPoolList of the old one |
| GkiBuffer.Gki.CreatePool | libs/uwb-iot/uwb_core/gki/common/uwb_gki_buffer.cc:906-946 | the state and pool id are those of CreatePoolStep |
| GkiBuffer.Gki.DeletePool | libs/uwb-iot/uwb_core/gki/common/uwb_gki_buffer.cc:962-996 | the state and answer are those of DeletePoolStep |
| GkiBuffer.Gki.Enqueue | libs/uwb-iot/uwb_core/gki/common/uwb_gki_buffer.cc:605-643 | the queue and headers are those of EnqueueStep; nothing else changes |
| GkiBuffer.Gki.Dequeue | libs/uwb-iot/uwb_core/gki/common/uwb_gki_buffer.cc:656-686 | the queue, headers and buffer are those of DequeueStep; nothing else changes |
| GkiBuffer.ServeFromPool | libs/uwb-iot/uwb_core/gki/common/uwb_gki_buffer.cc:278-308 | serving from a pool found with room keeps the control block well formed |
| GkiBuffer.QueueKeepsValid | libs/uwb-iot/uwb_core/gki/common/uwb_gki_buffer.cc:605-686 | moving a buffer between QUEUED and UNLINKED keeps the pool books |
| GkiBuffer.BufferInitBooks | libs/uwb-iot/uwb_core/gki/common/uwb_gki_buffer.cc:125-226 | laying out the fixed pools balances every pool's books and leaves the headers sound |
| GkiBuffer.InitUnusedKeepsPools | libs/uwb-iot/uwb_core/gki/common/uwb_gki_buffer.cc:47-94 | laying out a pool without memory keeps every pool's books and the headers sound |
| GkiBuffer.AddUnusedSorted | libs/uwb-iot/uwb_core/gki/common/uwb_gki_buffer.cc:778-798 | entering a pool missing from a sorted in-use list keeps it sorted and puts the pool at its place |
| GkiBuffer.AddUnusedKeepsList | libs/uwb-iot/uwb_core/gki/common/uwb_gki_buffer.cc:906-946 | entering a pool without memory in the in-use list keeps the list sound |
| GpioHandler.ReadPins | demos/SR040/demo_tracker_ble/handlers/src/GPIO_Handler.c:36-50 | the mask read back sets only bits of the pins scanned, below bit 22 |
| GpioHandler.CommonBits | demos/SR040/demo_tracker_ble/handlers/src/GPIO_Handler.c:36-50 | the pins selected by both masks form a value below bit 22 |
| GpioHandler.SetThenRead | demos/SR040/demo_tracker_ble/handlers/src/GPIO_Handler.c:23-50 | reading back the pins just set gives, for the pins of the mask, exactly the bits written and nothing for the others |
| GpioHandler.ReadPinsOfEmptyMask | demos/SR040/demo_tracker_ble/handlers/src/GPIO_Handler.c:36-50 | an empty mask reads back 0 |
| GpioHandler.GpioBank.SetGpioState | demos/SR040/demo_tracker_ble/handlers/src/GPIO_Handler.c:23-34 | succeeds; each pin of the mask takes its bit of the values, the others and the flashing periods keep theirs |
| GpioHandler.GpioBank.GetGpioState | demos/SR040/demo_tracker_ble/handlers/src/GPIO_Handler.c:36-50 | succeeds with the mask of the selected pins that are high |
| GpioHandler.GpioBank.SetGpioPeriod | demos/SR040/demo_tracker_ble/handlers/src/GPIO_Handler.c:52-62 | succeeds; each pin of the mask takes the period, the levels are unchanged |
| GpioHandler.GpioBank.HandleUiCmd | demos/SR040/demo_tracker_ble/handlers/src/GPIO_Handler.c:64-149 | a request is rejected exactly when its subtype or length is wrong; a set or period request changes exactly the pins it names; a state read answers status 1 and the read mask |
| GpioHandler.UiResponseLayout | demos/SR040/demo_tracker_ble/handlers/src/GPIO_Handler.c:64-149 | a state read's response is status 1 followed by the read mask big endian; any other answer is the status byte alone |
| HalUtils.FirstIndex | libs/halimpl/utils/phNxpUciHal_utils.cc:144-170 | the position found holds the data and no earlier node does; the list end means the data is not held |
| HalUtils.RemoveFirstTakesOne | libs/halimpl/utils/phNxpUciHal_utils.cc:130-182 | removing takes out exactly one occurrence when there is one, else leaves the list as it was |
| HalUtils.AddThenRemove | libs/halimpl/utils/phNxpUciHal_utils.cc:82-182 | adding fresh data and removing it gives the list back |
| HalUtils.ListHead.Init | libs/halimpl/utils/phNxpUciHal_utils.cc:36-47 | the list is empty; the answer is 1 iff the mutex was created |
| HalUtils.ListHead.Add | libs/halimpl/utils/phNxpUciHal_utils.cc:82-119 | with a node allocated the data is appended and the answer is 1; otherwise nothing changes and it is 0 |
| HalUtils.ListHead.Remove | libs/halimpl/utils/phNxpUciHal_utils.cc:130-182 | the first node holding the data is unlinked; the answer is 1 iff the data was held |
| HalUtils.ListHead.GetAndRemoveNext | libs/halimpl/utils/phNxpUciHal_utils.cc:193-224 | an empty list answers 0; otherwise the head's data is handed out, the rest stays in order, and the answer is 1 |
| HalUtils.ListHead.Destroy | libs/halimpl/utils/phNxpUciHal_utils.cc:58-71 | every item is taken off in order and the list is empty; 1 iff the mutex was deleted |
| HalUtils.Monitor.InitCbData | libs/halimpl/utils/phNxpUciHal_utils.cc:357-377 | without a semaphore it fails and changes nothing; otherwise the status starts FAILED, the context is stored and the record is listed when a node could be allocated |
| HalUtils.Monitor.CleanupCbData | libs/halimpl/utils/phNxpUciHal_utils.cc:388-406 | the semaphore is deleted and the record taken off the list |
| HalUtils.Monitor.Release | libs/halimpl/utils/phNxpUciHal_utils.cc:420-423 | the record's status becomes FAILED and its semaphore is posted once |
| HalUtils.Monitor.ReleaseAll | libs/halimpl/utils/phNxpUciHal_utils.cc:417-426 | the list ends empty and every listed record is FAILED, posted once for each time it was listed |
| NxpConfig.FindIndex | libs/halimpl/utils/SR100T/phNxpUwbConfig.cc:156-171 | the position found holds the key and no earlier entry does |
| NxpConfig.NxpParamFind | libs/halimpl/utils/SR100T/phNxpUwbConfig.cc:146-172 | NULL exactly when no entry holds the key; otherwise the first entry holding it |
| NxpConfig.Find | libs/halimpl/utils/SR100T/phNxpUwbConfig.cc:146-172 | the search loop answers what NxpParamFind describes |
| NxpConfig.GetNxpNumValue | libs/halimpl/utils/SR100T/phNxpUwbConfig.cc:246-272 | succeeds iff the output pointer is set, the key is found and the width is 1, 2 or 4; the value is then the stored one reduced to that width |
| NxpConfig.GetNxpByteArrayValue | libs/halimpl/utils/SR100T/phNxpUwbConfig.cc:219-235 | succeeds iff a TYPE_DATA entry with memory holds the key; its byte 0 is the length and the value is the bytes after it |
| NxpConfig.StrLen | libs/halimpl/utils/SR100T/phNxpUwbConfig.cc:193-195 | the length counts the bytes before the first NUL |
| NxpConfig.GetNxpStrValue | libs/halimpl/utils/SR100T/phNxpUwbConfig.cc:183-199 | succeeds iff a TYPE_STR entry holds the key and its string fits; the buffer is zeroed and then holds the string |
| NxpConfig.TableKeysDistinct | libs/halimpl/utils/SR100T/phNxpUwbConfig.cc:55-135 | the table's keys are all different |
| NxpConfig.TableLookups | libs/halimpl/utils/SR100T/phNxpUwbConfig.cc:107-134 | the DPD entry timeout reads 500, the low power mode 1 and the FW log thread id 0 |
| NxpConfig.MissingKeysFail | libs/halimpl/utils/SR100T/phNxpUwbConfig.cc:55-135 | the HPD timeout, MHR-in-CCM, DDFS tone and TELEC keys are absent, so reading them fails |
| NxpConfig.NoStringsInTable | libs/halimpl/utils/SR100T/phNxpUwbConfig.cc:55-135 | no entry is a string, so every string read fails |
| NxpConfig.SessionTimeoutTruncated | libs/halimpl/utils/SR100T/phNxpUwbConfig.cc:72 | the session timeout reads 3600000 as a long and 61056 when truncated to a short |
| NxpConfig.CoreConfigsConsistent | libs/halimpl/utils/SR100T/phNxpUwbConfig.cc:37-52 | the core configs byte array's length byte counts the 158 bytes after it, and the UCI command in them announces the bytes after its header |
| OsalTimer.IdIndexRoundTrip | libs/halimpl/osal/phOsalUwb_Timer.cc:33-49 | exactly the ids 101..103 name a slot, and id and slot index convert into each other |
| OsalTimer.FirstFree | libs/halimpl/osal/phOsalUwb_Timer.cc:409-424 | the answer is 0 iff every slot is used, otherwise 1 + the index of the first free slot |
| OsalTimer.CleanupFrom | libs/halimpl/osal/phOsalUwb_Timer.cc:308-330 | cleanup keeps the number of slots |
| OsalTimer.StepsKeepTable | libs/halimpl/osal/phOsalUwb_Timer.cc:82-292 | create, start, stop and delete keep the slot table invariant |
| OsalTimer.CreateHandsOutFirstFree | libs/halimpl/osal/phOsalUwb_Timer.cc:82-123 | create answers INVALID, changing nothing, iff every slot is used; otherwise the id of the first free slot, which was not in use and is now Idle |
| OsalTimer.DeleteThenCreateReuses | libs/halimpl/osal/phOsalUwb_Timer.cc:82-292 | deleting a timer from a full table and creating again gives the same id back |
| OsalTimer.StartRuns | libs/halimpl/osal/phOsalUwb_Timer.cc:154-192 | starting a created timer with a callback leaves it Running with that callback; success iff the RTOS start succeeded |
| OsalTimer.StartRejects | libs/halimpl/osal/phOsalUwb_Timer.cc:154-192 | start refuses, changing nothing, exactly an id naming no used slot or a NULL callback |
| OsalTimer.StopStops | libs/halimpl/osal/phOsalUwb_Timer.cc:216-243 | stopping a Running timer stops it when the RTOS agrees; an Idle one is an invalid parameter; stopping twice is harmless |
| OsalTimer.DeleteFrees | libs/halimpl/osal/phOsalUwb_Timer.cc:267-292 | delete frees the slot whatever the RTOS answers, succeeds iff the RTOS delete did, touches no other slot, and a second delete is an invalid parameter |
| OsalTimer.CleanupFrees | libs/halimpl/osal/phOsalUwb_Timer.cc:308-330 | cleanup leaves every slot free: used ones cleared, free ones unchanged |
| OsalTimer.OsalTimers.constructor | libs/halimpl/osal/phOsalUwb_Timer.cc:33-49 | the static table starts with every slot cleared |
| OsalTimer.OsalTimers.CheckForAvailableTimer | libs/halimpl/osal/phOsalUwb_Timer.cc:409-424 | the loop answers FirstFree of the table |
| OsalTimer.OsalTimers.Create | libs/halimpl/osal/phOsalUwb_Timer.cc:82-123 | the table and id are those of CreateStep |
| OsalTimer.OsalTimers.Start | libs/halimpl/osal/phOsalUwb_Timer.cc:154-192 | the table and status are those of StartStep |
| OsalTimer.OsalTimers.Stop | libs/halimpl/osal/phOsalUwb_Timer.cc:216-243 | the table and status are those of StopStep |
| OsalTimer.OsalTimers.CheckTimerPresence | libs/halimpl/osal/phOsalUwb_Timer.cc:438-450 | success iff the handle is that of a used slot, otherwise an invalid parameter |
| OsalTimer.OsalTimers.Delete | libs/halimpl/osal/phOsalUwb_Timer.cc:267-292 | the table and status are those of DeleteStep |
| OsalTimer.OsalTimers.Cleanup | libs/halimpl/osal/phOsalUwb_Timer.cc:308-330 | the table becomes CleanupFrom of the old one |
| OsalTimer.OsalTimers.Expired | libs/halimpl/osal/phOsalUwb_Timer.cc:375-396 | the fired slot becomes Stopped and its callback is called once with its id and context; nothing else changes |
| OsalTimer.OsalTimers.IsTimersRunning | libs/halimpl/osal/phOsalUwb_Timer.cc:464-475 | true iff some slot is Running |
| PerParseCore.Slice | demos/SR040/demo_device_calibration_py/per_parse_core.py:148 | a Python slice never fails: it is cut at the end of the list and holds the elements from i on |
| PerParseCore.ClassifyRxStatus | demos/SR040/demo_device_calibration_py/per_parse_core.py:153-177 | a zero error mask counts OK and is the only OK outcome; otherwise each of the four buckets moves by one exactly when one of its bits is set, several can move together, and bits above the nine named ones move nothing |
| PerParseCore.FirstPathPower | demos/SR040/demo_device_calibration_py/per_parse_core.py:191-200 | corrected: the first-path power is bytes 22 and 23 little endian read as a signed 16-bit value |
| PerParseCore.FirstPathPowerAsWrittenIsOffByOne | demos/SR040/demo_device_calibration_py/per_parse_core.py:198-203 | as written, the conversion gives the raw value minus 0xFFFF: one too high for every negative power and negative for every positive one |
| PerParseCore.FirstPathPowerExample | demos/SR040/demo_device_calibration_py/per_parse_core.py:202-203 | as written, the bytes DC CD give -12835 where the signed value is -12836 |
| PerParseCore.Step | demos/SR040/demo_device_calibration_py/per_parse_core.py:220-262 | each pass of the record loop that does not raise moves the index on by at least the two header bytes |
| PerParseCore.WalkKeeps | demos/SR040/demo_device_calibration_py/per_parse_core.py:220-262 | walking the records keeps the notification and PSDU counts and the statistics invariant, never lowers OK, and an OK verdict it reports was counted |
| PerParseCore.LogNtfKeeps | demos/SR040/demo_device_calibration_py/per_parse_core.py:211-265 | every notification counts exactly one and keeps the statistics invariant |
| PerParseCore.RxStatusLengthMismatchSkips | demos/SR040/demo_device_calibration_py/per_parse_core.py:226-230 | an RX status record whose length is not 2 is stepped over and changes no counter |
| PerParseCore.UnknownTagSkips | demos/SR040/demo_device_calibration_py/per_parse_core.py:260-262 | a record with an unknown tag is stepped over by its length and changes nothing else |
| PerParseCore.Report | demos/SR040/demo_device_calibration_py/per_parse_core.py:63-80 | the record holds the frame count, attenuation 0, errors = frames - OK + PSDU errors, and a PER of 0 with no frames |
| PerParseCore.ReportBounds | demos/SR040/demo_device_calibration_py/per_parse_core.py:72-79 | on consistent statistics the error total lies between the PSDU errors and the frame count, so the PER is within 0..100 |
| PerParseCore.ReportExample | demos/SR040/demo_device_calibration_py/per_parse_core.py:72-79 | ten frames, seven OK and one PSDU error give four errors and a PER of 40 |
| PerParseCore.PyAddOne | demos/SR040/demo_device_calibration_py/per_parse_core.py:158 | adding one succeeds exactly on an integer; on a tuple Python raises TypeError |
| PerParseCore.ResetAsWrittenBreaksCounting | demos/SR040/demo_device_calibration_py/per_parse_core.py:57-61 | as written, the reset stores tuples, so the next counted RX status raises TypeError; with integer zeros it counts from one |
| PerParseCore.UciLogger.constructor | demos/SR040/demo_device_calibration_py/per_parse_core.py:41-52 | every counter starts at zero |
| PerParseCore.UciLogger.ResetLogStats | demos/SR040/demo_device_calibration_py/per_parse_core.py:53-62 | corrected: every counter becomes zero |
| PerParseCore.UciLogger.PrintTestStats | demos/SR040/demo_device_calibration_py/per_parse_core.py:63-144 | produces the Report of the statistics so far, then resets them |
| PerParseCore.UciLogger.HandleTagRxStatus | demos/SR040/demo_device_calibration_py/per_parse_core.py:145-180 | the statistics, next index and OK verdict are those of the RX status classification |
| PerParseCore.UciLogger.HandleTagRxFirstPathInfo | demos/SR040/demo_device_calibration_py/per_parse_core.py:181-209 | corrected: the statistics and next index are those of the first-path record step, which appends the signed reading FirstPathPower of bytes 22 and 23 |
| PerParseCore.UciLogger.HandleRecord | demos/SR040/demo_device_calibration_py/per_parse_core.py:221-262 | corrected: one pass of the record loop gives the statistics, index, verdict and PSDU of Step, whose first-path samples are signed readings |
| PerParseCore.UciLogger.HandleLogNtf | demos/SR040/demo_device_calibration_py/per_parse_core.py:211-265 | corrected: the statistics after one notification, and whether an IndexError escapes, are those of LogNtf, whose first-path samples are signed readings |
| PnpCore.ExtractAngleReadsBack | demos/SR040/demo_device_calibration_py/pnp_core.py:132-136 | a word written little endian at index 31 is what extract_angle reads back |
| PnpCore.ExtractDistanceReadsBack | demos/SR040/demo_device_calibration_py/pnp_core.py:138-139 | a half-word written little endian at index 29 is what extract_distance reads back |
| PnpCore.TwosCompSigned | demos/SR040/demo_device_calibration_py/pnp_core.py:141-145 | on a bits-wide pattern the result is in the signed range: the pattern less 2^bits exactly when the sign bit is set, the pattern itself otherwise |
| PnpCore.TwosCompRoundTrip | demos/SR040/demo_device_calibration_py/pnp_core.py:141-145 | reading back the pattern of a signed value gives the value |
| PnpCore.MeasuredAngleIs16Bit | demos/SR040/demo_device_calibration_py/pnp_core.py:251 | with bytes 33 and 34 zero the angle is the signed 16-bit value at index 31; otherwise those bytes push the result to 0x8000 or more |
| PnpCore.Pushed | demos/SR040/demo_device_calibration_py/pnp_core.py:257-261 | after a push the history ends with the new sample and stays within the window of five |
| PnpCore.PushedKeepsWindow | demos/SR040/demo_device_calibration_py/pnp_core.py:257-261 | the history is always the last five measurements |
| PnpCore.Reader.constructor | demos/SR040/demo_device_calibration_py/pnp_core.py:216-223 | histories empty, not ranging, no retry requested, no release yet |
| PnpCore.Reader.Measure | demos/SR040/demo_device_calibration_py/pnp_core.py:251-275 | a distance of 0xFFFF is dropped; otherwise both histories take the measurement and its window sums are reported |
| PnpCore.Reader.HandlePacket | demos/SR040/demo_device_calibration_py/pnp_core.py:224-317 | only responses and notifications with a complete payload change state: the ranging notification sets isRanging and, with status 0, gives a report; releases and retry requests follow the header; the thread ends only as written, on a response or notification whose payload came back short, and with the correction (`intended`) every packet lets the reader go on |
| PnpCore.ShortPayloadEndsReader | demos/SR040/demo_device_calibration_py/pnp_core.py:309-310 | as written, a four-byte response of which two bytes arrived raises TypeError and ends the reader thread |
| PnpCore.FramingRoundTrip | demos/SR040/demo_device_calibration_py/pnp_core.py:175-181 | unframing gives the command back for every command that frames and does not start with the prefix byte |
| PnpCore.FramingShape | demos/SR040/demo_device_calibration_py/pnp_core.py:175-181 | exactly the UCI commands (0x2X) get the three bytes 01 00 len before them; the rest go out unchanged |
| PnpCore.FirstUnframed | demos/SR040/demo_device_calibration_py/pnp_core.py:172-181 | the index found is that of the first command that cannot be framed; all earlier ones can |
| PnpCore.Transmissions | demos/SR040/demo_device_calibration_py/pnp_core.py:186-194 | with the port closed nothing goes out |
| PnpCore.TransmissionsStep | demos/SR040/demo_device_calibration_py/pnp_core.py:174-198 | one more command adds its packet once, or twice after a retry request, when the port is open |
| PnpCore.Writer.constructor | demos/SR040/demo_device_calibration_py/pnp_core.py:385 | the queue and the port output start empty |
| PnpCore.Writer.AddCommand | demos/SR040/demo_device_calibration_py/pnp_core.py:162-165 | the command joins the tail of the queue; nothing is written |
| PnpCore.Writer.WriteAll | demos/SR040/demo_device_calibration_py/pnp_core.py:167-200 | every command up to the first that cannot be framed goes out framed, repeated after a retry; that command's exception ends the thread with the rest still queued, otherwise the queue ends empty |
| PnpCore.Writer.TakeHead | demos/SR040/demo_device_calibration_py/pnp_core.py:174 | the head command is taken off the queue |
| PnpCore.Writer.Send | demos/SR040/demo_device_calibration_py/pnp_core.py:186-198 | the packet is written once, twice after a retry request, when the port is open; nothing otherwise |
| PnpCore.TransmissionsCount | demos/SR040/demo_device_calibration_py/pnp_core.py:186-198 | with the port open, one packet goes out per command plus one per requested retry |
| SpiTransport.TableEntry | libs/halimpl/transport/SPI/qn9090/phNxpUwb_SpiTransport.c:85-96 | each table entry is a 16-bit register |
| SpiTransport.Crc | libs/halimpl/transport/SPI/qn9090/phNxpUwb_SpiTransport.c:99-107 | the CRC of any data is a 16-bit register |
| SpiTransport.TableStepIsBitStep | libs/halimpl/transport/SPI/qn9090/phNxpUwb_SpiTransport.c:104 | one table-driven step equals the textbook bitwise CRC step for the byte |
| SpiTransport.CrcIsBitwise | libs/halimpl/transport/SPI/qn9090/phNxpUwb_SpiTransport.c:99-107 | the table-driven CRC equals CRC-16/XMODEM computed bit by bit, polynomial 0x1021, initial value 0 |
| SpiTransport.CrcResidue | libs/halimpl/transport/SPI/qn9090/phNxpUwb_SpiTransport.c:99-107 | running the CRC over data followed by its own CRC, high byte first, leaves a zero register |
| SpiTransport.RciFrame | libs/halimpl/transport/SPI/qn9090/phNxpUwb_SpiTransport.c:425-429 | the frame written is always 256 bytes |
| SpiTransport.WrittenFrameChecks | libs/halimpl/transport/SPI/qn9090/phNxpUwb_SpiTransport.c:413-477 | a written frame carries the data first, zeros up to the CRC, and a CRC the reader accepts |
| SpiTransport.RciReadAccepts | libs/halimpl/transport/SPI/qn9090/phNxpUwb_SpiTransport.c:338-411 | a nonzero count needs the handshake, the read and the CRC to succeed; the checked reader never reads past the buffer and hands out exactly the count it reports |
| SpiTransport.RciReadOverRuns | libs/halimpl/transport/SPI/qn9090/phNxpUwb_SpiTransport.c:396-404 | as written, a frame with a correct CRC announcing 255 payload bytes makes the reader copy 259 bytes out of a 256-byte buffer |
| SpiTransport.RciRoundTrip | libs/halimpl/transport/SPI/qn9090/phNxpUwb_SpiTransport.c:338-477 | corrected: a packet written by RciWrite comes back whole from the checked reader when it does not start with the 0x00 pad byte |
| SpiTransport.UciLengthAgrees | libs/halimpl/transport/SPI/qn9090/phNxpUwb_SpiTransport.c:228-238 | the transport decodes the same payload length from a header as the UCI layer |
| SpiTransport.Header | libs/halimpl/transport/SPI/qn9090/phNxpUwb_SpiTransport.c:200-214 | the header taken from the first read is four bytes: after a 0x00 pad byte, otherwise the first four |
| SpiTransport.PaddedPacketRead | libs/halimpl/transport/SPI/qn9090/phNxpUwb_SpiTransport.c:155-260 | a packet read in one pass after a pad byte arrives whole and the count is its length |
| SpiTransport.EmptyPacketInflatesCount | libs/halimpl/transport/SPI/qn9090/phNxpUwb_SpiTransport.c:215-226 | as written, an empty packet before the real one leaves its four header bytes in the count: 10 reported for a 6-byte packet |
| SpiTransport.IntendedCountIsPacket | libs/halimpl/transport/SPI/qn9090/phNxpUwb_SpiTransport.c:215-226 | corrected: with the count restarted on every pass, a nonzero count is the length of the bytes delivered |
| SpiTransport.FailedWriteReportsLength | libs/halimpl/transport/SPI/qn9090/phNxpUwb_SpiTransport.c:315-329 | as written, a failed SPI transfer is reported as all bytes written |
| SpiTransport.IntendedWriteReportsOnlySent | libs/halimpl/transport/SPI/qn9090/phNxpUwb_SpiTransport.c:262-336 | corrected: a write reports a count exactly when the data went out, and then the count is the length |
| SpiTransport.Transport.FillEntry | libs/halimpl/transport/SPI/qn9090/phNxpUwb_SpiTransport.c:86-95 | the inner loop leaves entry i of the table in temp |
| SpiTransport.Transport.InitTable | libs/halimpl/transport/SPI/qn9090/phNxpUwb_SpiTransport.c:81-97 | every one of the 256 entries is filled with its value |
| SpiTransport.Transport.Crc16 | libs/halimpl/transport/SPI/qn9090/phNxpUwb_SpiTransport.c:99-107 | the loop computes Crc of the input |
| SpiTransport.Transport.CopyIn | libs/halimpl/transport/SPI/qn9090/phNxpUwb_SpiTransport.c:424-425 | the zeroed buffer takes the data up front and zeros after it |
| SpiTransport.Transport.StoreCrc | libs/halimpl/transport/SPI/qn9090/phNxpUwb_SpiTransport.c:427-429 | the CRC goes into the last two bytes, low byte first; the rest is unchanged |
| SpiTransport.Transport.RciWrite | libs/halimpl/transport/SPI/qn9090/phNxpUwb_SpiTransport.c:413-477 | no data or no length fails and sends nothing; otherwise the frame is sent when RDY went low, and the status is that of the SPI write |
| SpiTransport.Transport.RciRead | libs/halimpl/transport/SPI/qn9090/phNxpUwb_SpiTransport.c:338-411 | the count and bytes are those RciReadFrom describes |
| SpiTransport.Transport.UciRead | libs/halimpl/transport/SPI/qn9090/phNxpUwb_SpiTransport.c:155-260 | the count and bytes after the passes are those ReadFrom describes |
| SpiTransport.Transport.UciWrite | libs/halimpl/transport/SPI/qn9090/phNxpUwb_SpiTransport.c:262-336 | the count reported is the one WriteFrom describes |
| SpiTransport.RciExchange | libs/halimpl/transport/SPI/qn9090/phNxpUwb_SpiTransport.c:338-477 | what RciWrite sends, RciRead (checked) gives back |
| Sr040Internal.GetExtTlvBuffer | libs/uwb-iot/uwb_api/Api/SR040/UwbApi_Proprietary_Internal.cpp:38-69 | the TLV written for an extended parameter is the id, its width's length byte and the value, and the returned length is the number of bytes written |
| Sr040Internal.ExtTlvShape | libs/uwb-iot/uwb_api/Api/SR040/UwbApi_Proprietary_Internal.cpp:38-69 | two-byte ids give 4 bytes with the value low byte first, one-byte ids give 3 bytes, any other id gives only its own byte |
| Sr040Internal.ParseDeviceInfo | libs/uwb-iot/uwb_api/Api/SR040/UwbApi_Proprietary_Internal.cpp:83-130 | the index walk returns false on empty data and otherwise the result of the record-by-record reading of the device information |
| Sr040Internal.UnknownIdConsumesTwoBytes | libs/uwb-iot/uwb_api/Api/SR040/UwbApi_Proprietary_Internal.cpp:93-128 | an id the parser does not know consumes only its id and length bytes, so its value bytes are read as the next record |
| Sr040Internal.VersionsReadFixedCounts | libs/uwb-iot/uwb_api/Api/SR040/UwbApi_Proprietary_Internal.cpp:101-109 | the firmware and device version records read three and two bytes whatever their length byte says |
| Sr040Internal.DeviceNameOverflows | libs/uwb-iot/uwb_api/Api/SR040/UwbApi_Proprietary_Internal.cpp:97-100 | as written, a nine-byte device name is copied whole into the eight-byte name array |
| Sr040Internal.CheckedDevInfoStaysInBounds | libs/uwb-iot/uwb_api/Api/SR040/UwbApi_Proprietary_Internal.cpp:93-128 | with a length check on the copied records, every finished parse leaves the three arrays within their declared sizes |
| Sr040Internal.EncodeEntry | libs/uwb-iot/uwb_api/Api/SR040/UwbApi_Proprietary_Internal.cpp:93-128 | the record the device sends for one entry has at least its id and length bytes |
| Sr040Internal.DevInfoRoundTrip | libs/uwb-iot/uwb_api/Api/SR040/UwbApi_Proprietary_Internal.cpp:93-128 | records whose values fit their arrays parse successfully to the structure with each entry applied in order, for both the parser as written and the checked one |
| Sr040Internal.DevInfoStep | libs/uwb-iot/uwb_api/Api/SR040/UwbApi_Proprietary_Internal.cpp:93-128 | the parser steps over one well-formed record by applying that entry and moving past its bytes |
| Sr040Internal.ArrayEntryStep | libs/uwb-iot/uwb_api/Api/SR040/UwbApi_Proprietary_Internal.cpp:97-100 | a name, serial number or CCC version record is copied whole and the index moves past its value |
| Sr040Internal.FixedEntryStep | libs/uwb-iot/uwb_api/Api/SR040/UwbApi_Proprietary_Internal.cpp:101-122 | a version record sets its fields from its fixed bytes and the index moves past them |
| Sr040Internal.CalibStatusNtf | libs/uwb-iot/uwb_api/Api/SR040/UwbApi_Proprietary_Internal.cpp:141-150 | the calibration status is FAILURE for an empty notification and the first byte otherwise |
| Sr040Internal.EncodeTone | libs/uwb-iot/uwb_api/Api/SR040/UwbApi_Proprietary_Internal.cpp:346-363 | one DDFS tone configuration is 18 bytes |
| Sr040Internal.EncodeTones | libs/uwb-iot/uwb_api/Api/SR040/UwbApi_Proprietary_Internal.cpp:346-363 | the tone configurations take 18 bytes each |
| Sr040Internal.ToneRoundTrip | libs/uwb-iot/uwb_api/Api/SR040/UwbApi_Proprietary_Internal.cpp:346-363 | one encoded tone configuration decodes back to itself |
| Sr040Internal.TonesRoundTrip | libs/uwb-iot/uwb_api/Api/SR040/UwbApi_Proprietary_Internal.cpp:346-363 | the encoded tone table decodes back to the same configurations in order |
| Sr040Internal.FormCalibrationCommand | libs/uwb-iot/uwb_api/Api/SR040/UwbApi_Proprietary_Internal.cpp:279-386 | the command is the proprietary set-trim header and the parameter's record, and the command length is 3 plus the parameter length plus the 4-byte header |
| Sr040Internal.WriteCalibValue | libs/uwb-iot/uwb_api/Api/SR040/UwbApi_Proprietary_Internal.cpp:294-380 | the value bytes written for each calibration parameter are that parameter's encoding |
| Sr040Internal.CalibrationCommandLengths | libs/uwb-iot/uwb_api/Api/SR040/UwbApi_Proprietary_Internal.cpp:289-385 | for every parameter the payload is 3 bytes plus the parameter length, the length byte counts the payload and the command length counts the whole command |
| Sr040Internal.UnknownCalibIdLength | libs/uwb-iot/uwb_api/Api/SR040/UwbApi_Proprietary_Internal.cpp:380-385 | an unknown id leaves only the three header bytes written |
| Sr040Internal.CalibValueRoundTrip | libs/uwb-iot/uwb_api/Api/SR040/UwbApi_Proprietary_Internal.cpp:294-380 | every calibration value has its parameter's length and decodes back to the parameter |
| Sr040Internal.CalibrationRoundTrip | libs/uwb-iot/uwb_api/Api/SR040/UwbApi_Proprietary_Internal.cpp:279-386 | the calibration command decodes back to the parameter it was built from |
| Sr040Internal.Param | libs/uwb-iot/uwb_api/Api/SR040/UwbApi_Proprietary_Internal.cpp:433-457 | one test parameter is its id, a length byte equal to the value's size, and the value |
| Sr040Internal.FormTestModeCommand | libs/uwb-iot/uwb_api/Api/SR040/UwbApi_Proprietary_Internal.cpp:388-511 | an unknown mode returns false and leaves the length as it was; otherwise the command is the test-start header and the mode's parameters, and the length is the payload length plus the header |
| Sr040Internal.WriteTestPayload | libs/uwb-iot/uwb_api/Api/SR040/UwbApi_Proprietary_Internal.cpp:397-503 | the switch adds up the payload length and writes the mode's parameter records |
| Sr040Internal.TestModeLengthIffFits | libs/uwb-iot/uwb_api/Api/SR040/UwbApi_Proprietary_Internal.cpp:399-509 | the summed payload length is the payload's size modulo 256, and matches the command exactly when the payload fits in one byte |
| Sr040Internal.TestPayloadSizes | libs/uwb-iot/uwb_api/Api/SR040/UwbApi_Proprietary_Internal.cpp:397-503 | a transmit payload is 25 bytes plus the PSDU and every other mode's payload is at most 21 bytes |
| Sr040Internal.TransmitLengthWraps | libs/uwb-iot/uwb_api/Api/SR040/UwbApi_Proprietary_Internal.cpp:425-458 | as written, a 231-byte PSDU makes a 260-byte command announce a payload of 0 bytes |
| Sr040Internal.FormTestModeCommandChecked | libs/uwb-iot/uwb_api/Api/SR040/UwbApi_Proprietary_Internal.cpp:388-511 | the builder with a payload bound succeeds exactly for a known mode whose payload fits, and then the length byte and the command length count the command's bytes |
| Sr100tInternal.GetExtAppConfigTlvBuffer | libs/uwb-iot/uwb_api/Api/SR100T/UwbApi_Proprietary_Internal.cpp:62-87 | the TLV is 0xE3, the id, the width's length byte and the value, and the returned length counts those bytes |
| Sr100tInternal.GetExtTestConfigTlvBuffer | libs/uwb-iot/uwb_api/Api/SR100T/UwbApi_Proprietary_Internal.cpp:99-130 | the TLV is 0xE5, the id, the width's length byte and the value, and the returned length counts those bytes |
| Sr100tInternal.GetExtDeviceConfigTlvBuffer | libs/uwb-iot/uwb_api/Api/SR100T/UwbApi_Proprietary_Internal.cpp:142-166 | the TLV is 0xE4, the id, the width's length byte and the value, and the returned length counts those bytes |
| Sr100tInternal.GetExtDebugConfigTlvBuffer | libs/uwb-iot/uwb_api/Api/SR100T/UwbApi_Proprietary_Internal.cpp:178-212 | the TLV is 0xE4, the id, the width's length byte and the value, and the returned length counts those bytes |
| Sr100tInternal.ExtAppConfigTlvShape | libs/uwb-iot/uwb_api/Api/SR100T/UwbApi_Proprietary_Internal.cpp:62-87 | a known extended application id gives 0xE3, the id, 1 and the value byte; an unknown one gives only 0xE3 and the id; and the unknown ids are exactly 3, 4 and those from 9 on |
| Sr100tInternal.ExtTestConfigTlvShape | libs/uwb-iot/uwb_api/Api/SR100T/UwbApi_Proprietary_Internal.cpp:99-130 | after 0xE5 and the id the filter count takes four bytes, the gain two and the calibration option one, each low byte first |
| Sr100tInternal.ExtDeviceConfigTlvShape | libs/uwb-iot/uwb_api/Api/SR100T/UwbApi_Proprietary_Internal.cpp:142-166 | the DPD entry timeout takes two bytes low byte first, the wake-up source and WTX count one byte, other ids nothing |
| Sr100tInternal.ExtDebugConfigTlvShape | libs/uwb-iot/uwb_api/Api/SR100T/UwbApi_Proprietary_Internal.cpp:178-212 | the thread ids take two bytes low byte first, the logging switches one byte, other ids nothing |
| Sr100tInternal.ParseDeviceInfo | libs/uwb-iot/uwb_api/Api/SR100T/UwbApi_Proprietary_Internal.cpp:226-289 | the index walk returns false on empty data and otherwise the result of the record-by-record reading of the device information |
| Sr100tInternal.DevInfoStaysInBounds | libs/uwb-iot/uwb_api/Api/SR100T/UwbApi_Proprietary_Internal.cpp:245-282 | the length checks keep every copy inside its array: any finished parse leaves the arrays their sizes and the name length within the name array |
| Sr100tInternal.EncodeEntry | libs/uwb-iot/uwb_api/Api/SR100T/UwbApi_Proprietary_Internal.cpp:238-285 | the record of one entry has at least its extended id, id and length bytes |
| Sr100tInternal.DevInfoRoundTrip | libs/uwb-iot/uwb_api/Api/SR100T/UwbApi_Proprietary_Internal.cpp:226-289 | a list of accepted records parses successfully to the structure with each entry applied in order, the firmware minor version being the high nibble of its byte |
| Sr100tInternal.DevInfoStep | libs/uwb-iot/uwb_api/Api/SR100T/UwbApi_Proprietary_Internal.cpp:238-285 | the parser steps over one accepted record by applying that entry and moving past its bytes |
| Sr100tInternal.DevInfoRejects | libs/uwb-iot/uwb_api/Api/SR100T/UwbApi_Proprietary_Internal.cpp:245-285 | an unknown id fails the parse, as does a version record whose length is not 3, a name longer than 48 bytes or a chip id longer than 16 |
| Sr100tInternal.ParseDebugParams | libs/uwb-iot/uwb_api/Api/SR100T/UwbApi_Proprietary_Internal.cpp:301-343 | the loop reads exactly the given number of records, each skipping its extended id byte and advancing by its length |
| Sr100tInternal.DebugRoundTrip | libs/uwb-iot/uwb_api/Api/SR100T/UwbApi_Proprietary_Internal.cpp:301-343 | parsing a listed set of debug records applies each of them in order, whatever surrounds them |
| Sr100tInternal.DebugStep | libs/uwb-iot/uwb_api/Api/SR100T/UwbApi_Proprietary_Internal.cpp:303-341 | one record sets the field its id names and moves past its extended id, id, length and value bytes |
| Sr100tInternal.DoCalibrationNtf | libs/uwb-iot/uwb_api/Api/SR100T/UwbApi_Proprietary_Internal.cpp:527-537 | an empty notification leaves status 0xFF and no value; the stored length always equals the stored value's size |
| Sr100tInternal.DoCalibrationNtfRoundTrip | libs/uwb-iot/uwb_api/Api/SR100T/UwbApi_Proprietary_Internal.cpp:527-537 | a notification made of a status byte and a value yields that status, the value and its length |
| SwupApi.Stream.ToUint32 | libs/uwb-iot/swup/SwupApi.h:63-74 | the value is the next four bytes least significant first, the cursor moves on by four and the buffer is unchanged |
| SwupApi.Stream.ToUint16 | libs/uwb-iot/swup/SwupApi.h:78-86 | the value is the next two bytes least significant first, the cursor moves on by two and the buffer is unchanged |
| SwupApi.Stream.ToArray | libs/uwb-iot/swup/SwupApi.h:55-60 | the copy is exactly the next len bytes and the cursor moves on by len |
| SwupApi.TransferManifestFrame | libs/uwb-iot/swup/Swup.c:83-98 | the manifest frame is the SWUP command, sub command, frame type and a length byte counting the payload, then the chunk index and the 128-byte chunk |
| SwupApi.TransferComponentFrame | libs/uwb-iot/swup/Swup.c:46-61 | the component frame carries its header with a length byte counting the payload, the component index, the segment number low byte first and the 128-byte segment |
| SwupApi.DecodeDeviceInfo | libs/uwb-iot/swup/Swup.c:283-327 | a response with the wrong command, sub command or length byte 0x2C is a generic error; otherwise the status word and SWUP status are read, and the rest of the record only on success |
| SwupApi.GetDeviceInfo | libs/uwb-iot/swup/Swup.c:307-326 | the stream-cursor decoding yields exactly the device-information record the decoding function gives |
| SwupApi.DeviceInfoPayload | libs/uwb-iot/swup/Swup.c:316-325 | a device-information payload is 0x2C bytes long |
| SwupApi.DeviceInfoResponse | libs/uwb-iot/swup/Swup.c:303-326 | a device-information response fills the 256-byte response buffer |
| SwupApi.DeviceInfoLayout | libs/uwb-iot/swup/Swup.c:316-325 | each field of the device-information record lies at its own offset in the payload |
| SwupApi.DeviceInfoRoundTrip | libs/uwb-iot/swup/Swup.c:283-327 | decoding a response the device builds gives back the status word and SWUP status, and every field of the record on success |
| SwupApi.DecodeDeviceId | libs/uwb-iot/swup/Swup.c:329-372 | a response with the wrong command, sub command or length byte 0x1C is a generic error; otherwise the status word and SWUP status are read, and the rest only on success |
| SwupApi.ReadDeviceId | libs/uwb-iot/swup/Swup.c:352-371 | the stream-cursor decoding yields exactly the identification record the decoding function gives |
| SwupApi.DeviceIdPayload | libs/uwb-iot/swup/Swup.c:361-370 | a device-identification payload is 0x1C bytes long |
| SwupApi.DeviceIdResponse | libs/uwb-iot/swup/Swup.c:348-371 | a device-identification response fills the 256-byte response buffer |
| SwupApi.DeviceIdLayout | libs/uwb-iot/swup/Swup.c:361-370 | each field of the identification record lies at its own offset in the payload |
| SwupApi.DeviceIdRoundTrip | libs/uwb-iot/swup/Swup.c:329-372 | decoding a response the device builds gives back the status word and SWUP status, and every identification field on success |
| SwupApi.DeviceIdAt | libs/uwb-iot/swup/Swup.c:361-370 | an identification payload at offset 4 of a response is read back field by field from its own offsets |
| SwupUpdate.StartingSegment | libs/uwb-iot/swup/Swup_update.c:107-114 | segments are numbered from 1 exactly for old internal parts, whose SWUP version byte 4 is below 40 and byte 6 is 0x04, and from 0 otherwise |
| SwupUpdate.ComponentCount | libs/uwb-iot/swup/Swup_update.c:169 | the count is the number of whole 128-byte segments that fit after the 512-byte manifest |
| SwupUpdate.ComponentCountWraps | libs/uwb-iot/swup/Swup_update.c:171-173 | the segment count computed in 32 bits is the number of whole segments for a package holding its manifest; for a shorter package it wraps past every value the 16-bit segment counter can reach |
| SwupUpdate.ManifestCommands | libs/uwb-iot/swup/Swup_update.c:153-159 | there are four manifest commands and command i carries chunk index i |
| SwupUpdate.ComponentCommands | libs/uwb-iot/swup/Swup_update.c:167-178 | there is one command per segment, all for component 0, numbered consecutively from the starting index |
| SwupUpdate.SegmentBounds | libs/uwb-iot/swup/Swup_update.c:174-175 | every segment the loop reads lies inside a package that holds all of them |
| SwupUpdate.ComponentAt | libs/uwb-iot/swup/Swup_update.c:172-177 | the j-th segment command carries segment number start + j and the 128 bytes at offset 512 + j * 128 |
| SwupUpdate.ManifestAt | libs/uwb-iot/swup/Swup_update.c:155-157 | the i-th manifest command carries the 128 bytes at offset i * 128 |
| SwupUpdate.PlanShape | libs/uwb-iot/swup/Swup_update.c:150-204 | from ACTIVE the plan is clear, four manifest chunks and start, then the segments, verify-all and finish; from TRANSFER it is only the segments, verify-all and finish |
| SwupUpdate.Drive | libs/uwb-iot/swup/Swup_update.c:150-204 | the commands sent are a prefix of the plan; each one but the last got a reply that let the run go on, and a run cut short ends at a reply that stopped it |
| SwupUpdate.DriveStops | libs/uwb-iot/swup/Swup_update.c:150-204 | a run whose first k replies pass and whose k-th stops it sends exactly k + 1 commands and reports that reply's error |
| SwupUpdate.Execute | libs/uwb-iot/swup/Swup_update.c:94-209 | the control flow with its two loops yields the same status and the same commands sent as the reference outcome of the update |
| SwupUpdate.SendManifest | libs/uwb-iot/swup/Swup_update.c:150-163 | from ACTIVE the clear, the four chunks and the start either stop the run at the first unexpected reply or all six are sent and accepted |
| SwupUpdate.TransferAndFinish | libs/uwb-iot/swup/Swup_update.c:165-204 | from the transfer label on, the segments, verify-all and finish go out in order and the run matches the reference outcome |
| SwupUpdate.SendSegments | libs/uwb-iot/swup/Swup_update.c:167-178 | the segment loop either stops at the first reply that does not keep the device in TRANSFER or sends and gets accepted every segment |
| SwupUpdate.PayloadAppend | libs/uwb-iot/swup/Swup_update.c:150-204 | the package bytes carried by a sequence of commands are those of its parts, in order |
| SwupUpdate.ManifestPayloadPrefix | libs/uwb-iot/swup/Swup_update.c:153-159 | the first k manifest commands carry the first k * 128 package bytes |
| SwupUpdate.ComponentPayloadPrefix | libs/uwb-iot/swup/Swup_update.c:167-178 | the first k segment commands carry the k * 128 bytes after the manifest |
| SwupUpdate.TailPayload | libs/uwb-iot/swup/Swup_update.c:182-203 | verify-all and finish carry no package bytes |
| SwupUpdate.SegmentsPayload | libs/uwb-iot/swup/Swup_update.c:165-204 | the segment commands and the closing pair carry all the whole segments |
| SwupUpdate.OpeningPayload | libs/uwb-iot/swup/Swup_update.c:150-163 | the opening six commands from ACTIVE carry the whole manifest |
| SwupUpdate.ManifestPayload | libs/uwb-iot/swup/Swup_update.c:153-159 | the four manifest commands carry the whole 512-byte manifest |
| SwupUpdate.SingleNoPayload | libs/uwb-iot/swup/Swup_update.c:150-204 | a command without data carries no package bytes |
| SwupUpdate.PlanPayload | libs/uwb-iot/swup/Swup_update.c:150-204 | a whole plan carries the manifest when it starts from ACTIVE and every whole segment after it, each byte once and in order |
| SwupUpdate.FinishIsLast | libs/uwb-iot/swup/Swup_update.c:189-203 | finish is the last command of every plan and appears nowhere else in it |
| SwupUpdate.ExecuteGating | libs/uwb-iot/swup/Swup_update.c:102-148 | a command is sent exactly when the device information was read and the device is in TRANSFER, or in ACTIVE with a type-check id its key version accepts; ACTIVE starts with the clear, TRANSFER with the first segment or verify-all |
| SwupUpdate.ExecuteDeliversPackage | libs/uwb-iot/swup/Swup_update.c:94-209 | a run that reaches finish has sent the manifest from ACTIVE and every whole segment after it |
| SwupUpdate.ExecuteSucceeds | libs/uwb-iot/swup/Swup_update.c:94-209 | when every reply is the expected one and finish answers success or nothing, the whole plan goes out and success is reported |
| SwupUpdate.ExecuteReportsSuccessWithoutUpdate | libs/uwb-iot/swup/Swup_update.c:102-120 | as written, a device that is not ready is reported as updated although nothing was sent |
| SwupUpdate.ExecuteReportsSuccessWhenCutShort | libs/uwb-iot/swup/Swup_update.c:150-151 | as written, a reply with success but a SWUP status other than ACTIVE ends the run with success after one command |
| SwupUpdate.ExecuteIntendedSuccess | libs/uwb-iot/swup/Swup_update.c:94-209 | with the intended status, success holds exactly when the device was ready, the whole plan went out and finish answered success or nothing |
| SwupUpdate.ExecuteIntendedAgrees | libs/uwb-iot/swup/Swup_update.c:94-209 | the intended status sends the same commands and differs from the written one only on runs the written one calls successful without finishing |
| TlvBuilder.Frame | demos/SR040/demo_tracker_ble/src/TLV_Builder.c:146-156 | a frame is the type byte, the value length low byte first, and the value |
| TlvBuilder.ParseFrame | demos/SR040/demo_tracker_ble/src/TLV_Builder.c:199-221 | a frame reads exactly when its header's length matches the bytes after the header, and then gives its type and those bytes |
| TlvBuilder.FrameRoundTrip | demos/SR040/demo_tracker_ble/src/TLV_Builder.c:146-221 | a frame reads back as the TLV it was written from |
| TlvBuilder.ParseFrameRoundTrip | demos/SR040/demo_tracker_ble/src/TLV_Builder.c:146-221 | a frame that reads is the frame of what it reads as |
| TlvBuilder.Added | demos/SR040/demo_tracker_ble/src/TLV_Builder.c:67-144 | a field is appended while the value stays within 64 bytes, and otherwise the whole value is dropped |
| TlvBuilder.AddOne | demos/SR040/demo_tracker_ble/src/TLV_Builder.c:67-82 | adding a list of one field is adding that field |
| TlvBuilder.AddTwo | demos/SR040/demo_tracker_ble/src/TLV_Builder.c:67-144 | adding two fields adds them one after the other |
| TlvBuilder.AddThree | demos/SR040/demo_tracker_ble/src/TLV_Builder.c:67-144 | adding three fields adds them one after the other |
| TlvBuilder.AddAllFits | demos/SR040/demo_tracker_ble/src/TLV_Builder.c:67-144 | fields that fit together make up the value in order, and the value never grows past 64 bytes once a field is dropped |
| TlvBuilder.Builder.TlvStart | demos/SR040/demo_tracker_ble/src/TLV_Builder.c:51-59 | a new response of the given type starts with an empty value and the rest of the buffer untouched |
| TlvBuilder.Builder.TlvCancel | demos/SR040/demo_tracker_ble/src/TLV_Builder.c:61-65 | cancelling drops the value and keeps the buffer valid |
| TlvBuilder.Builder.TlvAddU8 | demos/SR040/demo_tracker_ble/src/TLV_Builder.c:67-82 | a byte is appended exactly when it fits in the 64-byte value, and otherwise the value is dropped with the buffer bytes unchanged |
| TlvBuilder.Builder.TlvAddU16 | demos/SR040/demo_tracker_ble/src/TLV_Builder.c:84-102 | two bytes high byte first are appended exactly when they fit, and otherwise the value is dropped |
| TlvBuilder.Builder.TlvAddU32 | demos/SR040/demo_tracker_ble/src/TLV_Builder.c:104-125 | four bytes most significant first are appended exactly when they fit, and otherwise the value is dropped |
| TlvBuilder.Builder.TlvAddPtr | demos/SR040/demo_tracker_ble/src/TLV_Builder.c:127-144 | a byte string is appended exactly when it fits, and otherwise the value is dropped |
| TlvBuilder.Builder.TlvSend | demos/SR040/demo_tracker_ble/src/TLV_Builder.c:146-184 | the frame of the type and value is handed over exactly when the interface is BLE, and success means BLE accepted it; the value is unchanged |
| TlvBuilder.SentResponseReads | demos/SR040/demo_tracker_ble/src/TLV_Builder.c:146-184 | the frame sent for any response reads back as its type and value and is at most 67 bytes |
| TlvBuilder.Appended | demos/SR040/demo_tracker_ble/src/TLV_Builder.c:203-210 | the chunk is appended behind the bytes received so far, and the received size stays within the buffer |
| TlvBuilder.Completed | demos/SR040/demo_tracker_ble/src/TLV_Builder.c:212-232 | a TLV is handed on exactly when a header is in and the received size equals the expected one, and then reception restarts; otherwise nothing changes |
| TlvBuilder.RecvStep | demos/SR040/demo_tracker_ble/src/TLV_Builder.c:199-233 | one call keeps the received size within the buffer and restarts reception whenever it hands a TLV on |
| TlvBuilder.Feed | demos/SR040/demo_tracker_ble/src/TLV_Builder.c:199-233 | a run of calls keeps the received size within the buffer |
| TlvBuilder.AppendChunk | demos/SR040/demo_tracker_ble/src/TLV_Builder.c:203-210 | each chunk of a frame being received keeps the received bytes a prefix of the frame, and the expected size is the frame's once the header is in |
| TlvBuilder.AppendPrefix | demos/SR040/demo_tracker_ble/src/TLV_Builder.c:203-210 | appending the frame's next bytes keeps the received bytes a prefix of the frame and reads its length once three bytes are in |
| TlvBuilder.Reassembly | demos/SR040/demo_tracker_ble/src/TLV_Builder.c:199-233 | however a frame is cut into chunks, it is handed on once, whole, when its last byte arrives, and reception restarts |
| TlvBuilder.ChunkedFrameReassembles | demos/SR040/demo_tracker_ble/src/TLV_Builder.c:199-233 | a TLV sent in chunks of any size from idle is exactly the TLV handed on |
| TlvBuilder.FeedBelowExpected | demos/SR040/demo_tracker_ble/src/TLV_Builder.c:203-212 | while the expected size is still ahead, chunks are only appended and nothing is handed on |
| TlvBuilder.RecvOverflows | demos/SR040/demo_tracker_ble/src/TLV_Builder.c:203-204 | as written, a header announcing 4000 bytes followed by nine 255-byte chunks takes the received bytes past the 2053-byte buffer |
| TlvBuilder.CheckedRecvStaysInBounds | demos/SR040/demo_tracker_ble/src/TLV_Builder.c:199-233 | with the room checked, the receive buffer keeps its size whatever arrives |
| TlvBuilder.Receiver.constructor | demos/SR040/demo_tracker_ble/src/TLV_Builder.c:242-260 | initialisation leaves reception idle over an empty buffer, with BLE as the interface |
| TlvBuilder.Receiver.TlvRecv | demos/SR040/demo_tracker_ble/src/TLV_Builder.c:199-233 | the call records the interface and its new state and handed-on TLV are those of one reception step |
| TlvBuilder.Receiver.TlvFlushInput | demos/SR040/demo_tracker_ble/src/TLV_Builder.c:235-240 | flushing restarts reception and keeps the buffer's bytes and the interface |
| TlvMng.PathCalls | demos/SR040/demo_tracker_ble/src/TLV_Mng.c:160-215 | the calls that take a state down to uninit are one per level: stop ranging, deinit the session, shut down |
| TlvMng.Below | demos/SR040/demo_tracker_ble/src/TLV_Mng.c:160-215 | each accepted call moves the state one level down |
| TlvMng.StepCall | demos/SR040/demo_tracker_ble/src/TLV_Mng.c:160-215 | the call a state steps down with is the first call of its path |
| TlvMng.ShutDownCalls | demos/SR040/demo_tracker_ble/src/TLV_Mng.c:160-215 | a shutdown makes the calls of its path in order, every one but the last accepted, and all of them when it reaches uninit |
| TlvMng.ShutDownReachesUninit | demos/SR040/demo_tracker_ble/src/TLV_Mng.c:160-215 | a shutdown reaches uninit exactly when the middleware accepts every call of the path, 0xE0 counting as accepted for the shutdown |
| TlvMng.ShutDownStops | demos/SR040/demo_tracker_ble/src/TLV_Mng.c:160-215 | a shutdown that does not reach uninit stops at a refused call, in the state it was made from, with the rest of the path still to do |
| TlvMng.RetryResumes | demos/SR040/demo_tracker_ble/src/TLV_Mng.c:160-215 | a shutdown retried after a refusal picks up where the first stopped, so the two runs make the path's calls exactly once each apart from the refused one |
| TlvMng.ShutDownStep | demos/SR040/demo_tracker_ble/src/TLV_Mng.c:162-213 | one turn of the loop either moves below with the step call accepted or stops after the refused call |
| TlvMng.TlvManager.HandleShutDown | demos/SR040/demo_tracker_ble/src/TLV_Mng.c:160-215 | the final state and the calls made are those of the shutdown run from the old state; the session id is unchanged |
| TlvMng.MiddlewareResponseLayout | demos/SR040/demo_tracker_ble/src/TLV_Mng.c:147-151 | a middleware response is the handler's tag with the subtype first and then the payload when they fit, and an unhandled request is answered by END and its subtype alone |
| TlvMng.HandleTlv | demos/SR040/demo_tracker_ble/src/TLV_Mng.c:79-158 | the frame sent is the built response: a middleware response for types up to setup management, the UI or config answer for those commands; only a UI command changes the GPIO state |
| UciDefs.BuildHdr0 | libs/uci-core/uci/include/uci_defs.h:84-85 | for a type below 8 and a group below 16 the header byte is the type in bits 7..5 and the group in bits 3..0 |
| UciDefs.PBuildHdr0 | libs/uci-core/uci/include/uci_defs.h:87-88 | for fields in range the header byte is the type in bits 7..5, the boundary flag in bit 4 and the group in bits 3..0 |
| UciDefs.BuildHdr1 | libs/uci-core/uci/include/uci_defs.h:91 | the second header byte is the opcode id unshifted |
| UciDefs.ParseHdr0 | libs/uci-core/uci/include/uci_defs.h:94-97 | the parsed type, boundary flag and group are below 8, 2 and 16 and together make up the whole byte |
| UciDefs.ParseHdr1 | libs/uci-core/uci/include/uci_defs.h:110-112 | the parsed opcode id is below 64 and equals the byte when the byte fits in six bits |
| UciDefs.PutHdr0 | libs/uci-core/uci/include/uci_defs.h:84-85 | writing a header byte appends one byte, keeps the earlier ones, and the byte parses back to the type and group |
| UciDefs.ParseBuildHdr0 | libs/uci-core/uci/include/uci_defs.h:84-97 | parsing a built header gives back the type and group with no boundary flag |
| UciDefs.ParsePBuildHdr0 | libs/uci-core/uci/include/uci_defs.h:87-97 | parsing a header built with a boundary flag gives back all three fields |
| UciDefs.ParseBuildHdr1 | libs/uci-core/uci/include/uci_defs.h:91-112 | a built opcode byte parses back to the opcode when it fits in six bits |
| UciDefs.PayloadLength | libs/uci-core/uwb/uwb/uwb_ucif.cc:243-249 | the announced payload length is byte 3, or byte 3 high and byte 2 low when the extended-length bit of byte 1 is set |
| UciDefs.ExtendedLengthIsTopBit | libs/uci-core/uwb/uwb/uwb_ucif.cc:243-244 | the extended-length indicator is exactly the top bit of byte 1 |
| UciHalFwd.Header | libs/halimpl/fwd/SR100T/phNxpUciHal_fwd.cc:220-224 | the checksummed APDU header is four bytes, the class then the instruction, then the length word |
| UciHalFwd.CalcLrc | libs/halimpl/fwd/SR100T/phNxpUciHal_fwd.cc:523-541 | the LRC is the byte that brings the buffer's sum to a multiple of 256, and 0 for an empty buffer |
| UciHalFwd.SumNext | libs/halimpl/fwd/SR100T/phNxpUciHal_fwd.cc:523-541 | adding the next byte to the running sum modulo 256 gives the sum of the longer prefix |
| UciHalFwd.GeneralStatus | libs/halimpl/fwd/SR100T/phNxpUciHal_fwd.cc:89-163 | the status succeeds exactly when the MISO APDU is a general answer whose instruction is the ready answer of the mode; failures, acknowledgements and unknown classes fail |
| UciHalFwd.AnswerClass | libs/halimpl/fwd/SR100T/phNxpUciHal_fwd.cc:176 | the expected answer class keeps the query's class and has the answer subclass |
| UciHalFwd.AckFor | libs/halimpl/fwd/SR100T/phNxpUciHal_fwd.cc:195-215 | the acknowledgement is VALID exactly when the answer has the expected class and instruction, no segment flag and an acceptable size; otherwise it is the first fault's error code |
| UciHalFwd.QueryData | libs/halimpl/fwd/SR100T/phNxpUciHal_fwd.cc:165-236 | a successful query brings in as many bytes as the answer announced, at most the maximum and exactly it when asked, taken from the second APDU whose header, data and LRC sum to a multiple of 256 |
| UciHalFwd.ClosedSum | libs/halimpl/fwd/SR100T/phNxpUciHal_fwd.cc:222-223 | header, data and the LRC byte of header and data sum to a multiple of 256 |
| UciHalFwd.PutUnfold | libs/halimpl/fwd/SR100T/phNxpUciHal_fwd.cc:293-333 | the transfers of an image are one round followed by the transfers of what remains after 2048 bytes |
| UciHalFwd.Regroup | libs/halimpl/fwd/SR100T/phNxpUciHal_fwd.cc:293-333 | appending transfer lists is associative |
| UciHalFwd.PutCarriesImage | libs/halimpl/fwd/SR100T/phNxpUciHal_fwd.cc:282-336 | the payload transfers, put together without their LRC bytes, give back the image |
| UciHalFwd.PutCount | libs/halimpl/fwd/SR100T/phNxpUciHal_fwd.cc:282-336 | an image takes one header and payload pair per 2048-byte chunk started, and an empty image a single header |
| UciHalFwd.PutRound | libs/halimpl/fwd/SR100T/phNxpUciHal_fwd.cc:293-333 | in every round but the last the header carries the segment flag alone, the last carries its data size plus one, each payload holds up to 2048 data bytes and sums with its header to a multiple of 256 |
| UciHalFwd.FollowedExtends | libs/halimpl/fwd/SR100T/phNxpUciHal_fwd.cc:293-335 | a run inside a later round extends the acknowledged run before it |
| UciHalFwd.AckedThrough | libs/halimpl/fwd/SR100T/phNxpUciHal_fwd.cc:307-331 | a round whose last transfer was acknowledged was acknowledged throughout |
| UciHalFwd.HbciMaster.Transceive | libs/halimpl/fwd/SR100T/phNxpUciHal_fwd.cc:180-181 | one transfer appends what went out, and the MISO APDU and the result are the chip's answer to it |
| UciHalFwd.HbciMaster.GetStatus | libs/halimpl/fwd/SR100T/phNxpUciHal_fwd.cc:77-87 | the header goes out with an empty length and the status is success exactly when the transfer went through |
| UciHalFwd.HbciMaster.QueryInfo | libs/halimpl/fwd/SR100T/phNxpUciHal_fwd.cc:165-236 | a query succeeds exactly when the answer data passes every check, the data is appended to the info on success, and a maximum above the MISO data size fails before anything is sent |
| UciHalFwd.HbciMaster.AcknowledgeInfo | libs/halimpl/fwd/SR100T/phNxpUciHal_fwd.cc:195-236 | the acknowledgement sent carries the first fault's code, and the data is appended exactly when the query data checks pass |
| UciHalFwd.HbciMaster.GetGeneralInfo | libs/halimpl/fwd/SR100T/phNxpUciHal_fwd.cc:238-266 | a class other than general query or an unknown item fails with nothing sent; success brings in exactly the item's size |
| UciHalFwd.HbciMaster.SendPayload | libs/halimpl/fwd/SR100T/phNxpUciHal_fwd.cc:311-324 | the data goes out followed by the LRC of the header and data, and the result says whether the reply acknowledged it |
| UciHalFwd.HbciMaster.PutChunk | libs/halimpl/fwd/SR100T/phNxpUciHal_fwd.cc:293-333 | one round sends the header and, when there is data, the data and its LRC, following the round's planned transfers until a reply is not an acknowledgement |
| UciHalFwd.HbciMaster.PutCommand | libs/halimpl/fwd/SR100T/phNxpUciHal_fwd.cc:282-336 | the transfers sent follow the image's plan, and success holds exactly when the last reply acknowledged, in which case the whole plan went out |
| UciHmsgs.Gid | libs/uci-core/uwb/uci/uci_hmsgs.cc:40-833 | every builder's group id is a four-bit UCI group |
| UciHmsgs.Oid | libs/uci-core/uwb/uci/uci_hmsgs.cc:40-833 | every builder's opcode id fits in the low bits of byte 1 |
| UciHmsgs.Entries | libs/uci-core/uwb/uci/uci_hmsgs.cc:579-585 | the multicast controlee list takes six bytes per controlee, the short address then the sub-session id, both little-endian |
| UciHmsgs.LengthFieldCountsPayload | libs/uci-core/uwb/uci/uci_hmsgs.cc:40-833 | the size constants and sums each builder writes into the length byte are the size of the payload it writes, modulo 256 |
| UciHmsgs.Header | libs/uci-core/uwb/uci/uci_hmsgs.cc:113-116 | the header parses as a command of the builder's group and opcode; the length byte is the payload size, or for a PSDU longer than 255 bytes bit 7 of byte 1 is set and bytes 2 and 3 hold the length little-endian |
| UciHmsgs.Encode | libs/uci-core/uwb/uci/uci_hmsgs.cc:107-118 | the buffer is the header followed by the payload, and its length is the header size plus the payload size; for the capability command this is the corrected packet, with byte 3 written, not the one `uci_snd_get_caps_info_cmd` builds |
| UciHmsgs.ComposeHeader | libs/uci-core/uwb/uci/uci_hmsgs.cc:113-116 | the header written byte by byte is the command's header |
| UciHmsgs.ComposeEntries | libs/uci-core/uwb/uci/uci_hmsgs.cc:579-585 | the controlee entries written one at a time are the controlee list's encoding |
| UciHmsgs.ComposePayload | libs/uci-core/uwb/uci/uci_hmsgs.cc:580-585 | the session id, action, count and controlees written one after the other are the multicast-list command's payload, and every other builder's arguments are its payload |
| UciHmsgs.SendCommand | libs/uci-core/uwb/uci/uci_hmsgs.cc:40-58 | FAILED when no buffer can be had and nothing is queued; otherwise OK with the encoded command handed to the command queue |
| UciHmsgs.DecodeFrame | libs/uci-core/uwb/uci/uci_hmsgs.cc:113-118 | a packet is accepted as a command frame only when its length field matches the bytes after the header |
| UciHmsgs.FrameOfEncode | libs/uci-core/uwb/uci/uci_hmsgs.cc:107-118 | the header of a command whose payload fits announces exactly its payload |
| UciHmsgs.DecodeEntriesOfEntries | libs/uci-core/uwb/uci/uci_hmsgs.cc:579-585 | the controlee list reads back from its entries |
| UciHmsgs.CoreRoundTrip | libs/uci-core/uwb/uci/uci_hmsgs.cc:40-156 | every core command reads back from its own payload |
| UciHmsgs.ConfigFields | libs/uci-core/uwb/uci/uci_hmsgs.cc:228-253 | a session id little-endian, one byte and the data after it read back field by field |
| UciHmsgs.MulticastFields | libs/uci-core/uwb/uci/uci_hmsgs.cc:563-592 | the multicast payload is the session id, the action, the count and six bytes per controlee, and the controlees read back |
| UciHmsgs.SessionRoundTrip | libs/uci-core/uwb/uci/uci_hmsgs.cc:167-346 | every session-management command reads back from its own payload |
| UciHmsgs.RangeRoundTrip | libs/uci-core/uwb/uci/uci_hmsgs.cc:357-462 | every ranging command reads back from its own payload |
| UciHmsgs.AppDataRoundTrip | libs/uci-core/uwb/uci/uci_hmsgs.cc:473-523 | every application-data command reads back from its own payload |
| UciHmsgs.TestRoundTrip | libs/uci-core/uwb/uci/uci_hmsgs.cc:604-833 | every test command reads back from its own payload |
| UciHmsgs.PayloadRoundTrip | libs/uci-core/uwb/uci/uci_hmsgs.cc:40-833 | every command reads back from the frame of its own group, opcode and payload |
| UciHmsgs.EncodeRoundTrip | libs/uci-core/uwb/uci/uci_hmsgs.cc:40-833 | an encoded command reads back as itself exactly when its payload length fits the header; a longer one has its length byte cut to eight bits and no longer describes itself |
| UciHmsgs.CapabilityLengthByteUnwritten | libs/uci-core/uwb/uci/uci_hmsgs.cc:534-551 | as written, the capability command writes its length in byte 2 and leaves byte 3 stale, so it reads back only when that byte is zero; the intended packet always reads back |
| Utilities.FieldSizeIsWritten | demos/common/Utilities.c:24-541 | each field writes exactly as many bytes as the size the serializers add to the offset for it |
| Utilities.TotalSizeIsWritten | demos/common/Utilities.c:24-541 | every field list accounts for exactly the bytes it writes |
| Utilities.Serialize | demos/common/Utilities.c:24-541 | the writing loop of the serializers writes the fields' encoding and reports its length modulo 2^16, as the 16-bit offset casts do |
| Utilities.EncodeSnoc | demos/common/Utilities.c:24-541 | writing one more field appends its bytes |
| Utilities.EncodeOne | demos/common/Utilities.c:24-541 | a single field writes its own bytes |
| Utilities.EncodeAppend | demos/common/Utilities.c:24-541 | writing two field lists one after the other writes their encodings in order |
| Utilities.AddrLen | demos/common/Utilities.c:24-58 | the ranging-parameter address length is 8 exactly on SR100T with a non-short addressing mode, and 2 otherwise |
| Utilities.RangingParamsSize | demos/common/Utilities.c:24-58 | the ranging parameters take three bytes, one more for the addressing mode on SR100T, one address per device and controlee, and the device type |
| Utilities.SumSnoc | demos/common/Utilities.c:24-541 | one more width adds its value to the sum |
| Utilities.TotalSizeIsSum | demos/common/Utilities.c:24-541 | the size of a field list is the sum of its field widths |
| Utilities.PerParamsSize | demos/common/Utilities.c:99-132 | the PER test parameters serialize to 29 bytes |
| Utilities.DebugParamsSize | demos/common/Utilities.c:61-96 | the debug parameters serialize to 16 bytes |
| Utilities.MeasMacLen | demos/common/Utilities.c:162-169 | the ranging-data address length is 2 exactly for the short addressing mode and 8 otherwise |
| Utilities.TotalSizeAppend | demos/common/Utilities.c:24-541 | the size of two field lists together is the sum of their sizes |
| Utilities.TwrFieldsSize | demos/common/Utilities.c:162-200 | one two-way measurement takes its address and 21 bytes |
| Utilities.TotalSizeOne | demos/common/Utilities.c:24-541 | a single field's list has that field's size |
| Utilities.TwrListSize | demos/common/Utilities.c:162-200 | the two-way measurements take their address and 21 bytes each |
| Utilities.RangingDataTwoWaySize | demos/common/Utilities.c:134-270 | a two-way ranging notification takes 17 bytes plus an address and 21 bytes per measurement |
| Utilities.ControleeFields | demos/common/Utilities.c:532-538 | the controlee records are two fields per controlee |
| Utilities.ControleeEncodeSnoc | demos/common/Utilities.c:532-538 | the controlee records' bytes are those of all but the last followed by the last's subsession id and status |
| Utilities.ControleeLength | demos/common/Utilities.c:532-538 | the controlee records take five bytes each |
| Utilities.RecordKept | demos/common/Utilities.c:532-538 | a five-byte record already written stays in place when another is appended |
| Utilities.RecordAppended | demos/common/Utilities.c:532-538 | an appended record sits right after the bytes before it |
| Utilities.ControleeBytes | demos/common/Utilities.c:532-538 | record i holds subsession id i little-endian and then status i |
| Utilities.MulticastNtfSize | demos/common/Utilities.c:518-541 | the multicast notification takes six bytes plus five per controlee |
| Utilities.MulticastHeaderBytes | demos/common/Utilities.c:523-530 | the multicast header is the session id little-endian, the remaining-list byte and the controlee count |
| Utilities.MulticastBytesSplit | demos/common/Utilities.c:518-541 | the multicast bytes are the header followed by the controlee records |
| Utilities.MulticastRecordRoundTrip | demos/common/Utilities.c:518-541 | controlee i of the serialized notification reads back as subsession id i and status i |
| Utilities.MulticastRoundTrip | demos/common/Utilities.c:518-541 | a serialized multicast notification with at most eight controlees is decoded by the UCI multicast parser back to the same notification |
| UwbConfigHandler.EntryFor | demos/SR040/demo_tracker_ble/handlers/src/UWB_ConfigHandler.c:39-52 | an entry is found exactly when the table has one with the id, and it is a table entry with that id |
| UwbConfigHandler.FindConfigById | demos/SR040/demo_tracker_ble/handlers/src/UWB_ConfigHandler.c:44-52 | the loop over the table returns the entry for the id, or none |
| UwbConfigHandler.ConfigLengths | demos/SR040/demo_tracker_ble/handlers/src/UWB_ConfigHandler.c:39-67 | a BLE name is accepted with 1 to 24 bytes and an interval with exactly two |
| UwbConfigHandler.WriteFor | demos/SR040/demo_tracker_ble/handlers/src/UWB_ConfigHandler.c:69-102 | a write is made exactly for an id the table has with a value length it allows; a name is written as given and an interval is read big-endian |
| UwbConfigHandler.HandleWriteCfgRequest | demos/SR040/demo_tracker_ble/handlers/src/UWB_ConfigHandler.c:69-102 | the write asked of the store is the one the request allows, and the result is true exactly when one was asked and the store accepted it |
| UwbConfigHandler.HandleConfigCmd | demos/SR040/demo_tracker_ble/handlers/src/UWB_ConfigHandler.c:118-203 | the error flag is set exactly when the request fails, a set with at least five bytes asks for the write its id and value allow, and the response holds the answer fields |
| UwbConfigHandler.ConfigResponseLayout | demos/SR040/demo_tracker_ble/handlers/src/UWB_ConfigHandler.c:118-203 | a ping answers its subtype and the two versions, a read of the interval answers 1 and the interval in four bytes big-endian, any other request one status byte that is 1 exactly when it went through |
| UwbConfigHandler.SetConfigAnswer | demos/SR040/demo_tracker_ble/handlers/src/UWB_ConfigHandler.c:124-138 | setting the interval answers 1 exactly when the store accepts it, and the interval written is the one the request carries |
| UwbGkiTime.Ids | libs/uwb-iot/uwb_core/gki/common/uwb_gki_time.cc:75-130 | the ids of a run of pool entries are those entries' timer ids in order |
| UwbGkiTime.FindTimer | libs/uwb-iot/uwb_core/gki/common/uwb_gki_time.cc:78-84 | the search stops at the first entry holding the id, none before it does, or at the end when none does |
| UwbGkiTime.MsgFromPoolFinds | libs/uwb-iot/uwb_core/gki/common/uwb_gki_time.cc:75-85 | an id is found exactly when a live entry holds it, and then the event is that of the first such entry |
| UwbGkiTime.DeleTimerStep | libs/uwb-iot/uwb_core/gki/common/uwb_gki_time.cc:103-130 | deleting keeps the pool well formed and its size unchanged |
| UwbGkiTime.DeleTimerRemovesFirst | libs/uwb-iot/uwb_core/gki/common/uwb_gki_time.cc:103-130 | deleting a present id takes its first entry out of the live entries keeping the others' order and lowers the count by one; an absent id changes nothing |
| UwbGkiTime.RemoveKeepsDistinct | libs/uwb-iot/uwb_core/gki/common/uwb_gki_time.cc:116-127 | taking one entry out keeps the ids distinct |
| UwbGkiTime.DeleKeepsDistinct | libs/uwb-iot/uwb_core/gki/common/uwb_gki_time.cc:103-130 | deleting keeps the live ids distinct |
| UwbGkiTime.RemoveDropsId | libs/uwb-iot/uwb_core/gki/common/uwb_gki_time.cc:116-127 | taking an entry out of entries with distinct ids drops its id and no other |
| UwbGkiTime.DeleTimerDropsId | libs/uwb-iot/uwb_core/gki/common/uwb_gki_time.cc:103-130 | with distinct ids, deleting one leaves every other live id and only those |
| UwbGkiTime.StartTimerStep | libs/uwb-iot/uwb_core/gki/common/uwb_gki_time.cc:201-229 | recording a started timer keeps the pool well formed and its size unchanged |
| UwbGkiTime.StartTimerAppends | libs/uwb-iot/uwb_core/gki/common/uwb_gki_time.cc:201-229 | a created timer is appended behind the live entries with its event and the count grows by one; a failed creation records nothing |
| UwbGkiTime.StartThenExpire | libs/uwb-iot/uwb_core/gki/common/uwb_gki_time.cc:167-229 | a timer started under a fresh id is found with its event, and deleting it gives back the live entries from before |
| UwbGkiTime.StopAllFrom | libs/uwb-iot/uwb_core/gki/common/uwb_gki_time.cc:305-312 | the as-written stop-all loop keeps the pool well formed and its size unchanged |
| UwbGkiTime.StopAllUnfold | libs/uwb-iot/uwb_core/gki/common/uwb_gki_time.cc:307-311 | one turn of the stop-all loop stops and deletes the id then stored at the loop index |
| UwbGkiTime.StopAllSkipsEveryOther | libs/uwb-iot/uwb_core/gki/common/uwb_gki_time.cc:305-312 | as written, stopping a pool of three timers a, b, c stops a and c (c twice) and leaves b live with its timer running |
| UwbGkiTime.StopAllIntended | libs/uwb-iot/uwb_core/gki/common/uwb_gki_time.cc:305-312 | stopping the head entry until none is live keeps the pool well formed and its size unchanged |
| UwbGkiTime.DeleHead | libs/uwb-iot/uwb_core/gki/common/uwb_gki_time.cc:103-130 | deleting the head entry's id removes the head |
| UwbGkiTime.StopAllIntendedClears | libs/uwb-iot/uwb_core/gki/common/uwb_gki_time.cc:305-312 | stopping as intended empties the pool and stops every live timer once, in pool order |
| UwbGkiTime.TimerPool.constructor | libs/uwb-iot/uwb_core/gki/common/uwb_gki_time.cc:75-130 | a new pool is zeroed and empty, with no timer calls and nothing posted |
| UwbGkiTime.TimerPool.GetMsgFromPool | libs/uwb-iot/uwb_core/gki/common/uwb_gki_time.cc:75-85 | the search over the live entries answers the first matching entry's event, or none |
| UwbGkiTime.TimerPool.DeleTimer | libs/uwb-iot/uwb_core/gki/common/uwb_gki_time.cc:103-130 | the array and count after deletion are the deletion step's, with no timer calls and nothing posted |
| UwbGkiTime.TimerPool.FindPosition | libs/uwb-iot/uwb_core/gki/common/uwb_gki_time.cc:107-113 | the search loop finds the first live entry holding the id, or the count |
| UwbGkiTime.TimerPool.ShiftDown | libs/uwb-iot/uwb_core/gki/common/uwb_gki_time.cc:117-120 | entries after the position move down one place and all others stay |
| UwbGkiTime.TimerPool.Record | libs/uwb-iot/uwb_core/gki/common/uwb_gki_time.cc:204-216 | recording a created timer makes the pool the start step's |
| UwbGkiTime.TimerPool.Expire | libs/uwb-iot/uwb_core/gki/common/uwb_gki_time.cc:150-181 | an expired timer found in the pool is stopped, its event posted and it is deleted; an unknown id changes nothing |
| UwbGkiTime.TimerPool.StopOne | libs/uwb-iot/uwb_core/gki/common/uwb_gki_time.cc:300-304 | a nonzero id is stopped and deleted only while some timer is active |
| UwbGkiTime.TimerPool.StopEntry | libs/uwb-iot/uwb_core/gki/common/uwb_gki_time.cc:307-311 | one turn of the stop-all loop stops and deletes the id stored at the index |
| UwbGkiTime.TimerPool.StopAll | libs/uwb-iot/uwb_core/gki/common/uwb_gki_time.cc:305-312 | stopping with id 0 leaves the pool and the timer calls of the as-written stop-all run |
| UwbGkiTime.GkiTimers.constructor | libs/uwb-iot/uwb_core/gki/common/uwb_gki_time.cc:184-242 | both pools start empty |
| UwbGkiTime.GkiTimers.StartTimer | libs/uwb-iot/uwb_core/gki/common/uwb_gki_time.cc:184-242 | the created id is answered in every case and recorded only in the pool of TIMER_0 or TIMER_1, the other pool unchanged |
| UwbGkiTime.GkiTimers.StopTimer | libs/uwb-iot/uwb_core/gki/common/uwb_gki_time.cc:261-317 | an unknown timer number does nothing; id 0 stops the whole pool as written; another id stops that timer and asks the OS to stop it while one is active, and changes neither the pool nor the OS calls when none is; the other pool is untouched |
| UwbGkiTime.TimerListQ.Init | libs/uwb-iot/uwb_core/gki/common/uwb_gki_time.cc:332-339 | the list has no entries and no ticks |
| UwbHbci.OrBits | demos/pnp/rhodes/UWB_Hbci.c:196-197 | or-ing two values of w bits gives a value of w bits |
| UwbHbci.OrBitsZero | demos/pnp/rhodes/UWB_Hbci.c:196-197 | or-ing into zero bits leaves the other operand |
| UwbHbci.OrLowNibble | demos/pnp/rhodes/UWB_Hbci.c:196-197 | or-ing a nibble into a byte whose low nibble is clear adds it |
| UwbHbci.Lrc | demos/pnp/rhodes/UWB_Hbci.c:209-215 | the checksum is the byte that brings the packet's byte sum to a multiple of 256 |
| UwbHbci.Finished | demos/pnp/rhodes/UWB_Hbci.c:191-227 | finishing a packet with a payload adds exactly one checksum byte, and a header-only packet keeps its length |
| UwbHbci.FinishedIgnoresByte2 | demos/pnp/rhodes/UWB_Hbci.c:191-227 | whatever byte 2 held before, finishing gives the same packet |
| UwbHbci.HeaderFields | demos/pnp/rhodes/UWB_Hbci.c:172-205 | the segment nibble reads back from byte 3; a final packet's 12-bit length field holds the payload and checksum, a segment's is zero |
| UwbHbci.BuiltBytes | demos/pnp/rhodes/UWB_Hbci.c:172-227 | a built packet is the class, the instruction, the length bytes, the payload and, when there is a payload, its checksum |
| UwbHbci.ParseBuilt | demos/pnp/rhodes/UWB_Hbci.c:172-227 | every packet built with a segment nibble and at most a chunk of payload reads back as what was put in |
| UwbHbci.ParsedFields | demos/pnp/rhodes/UWB_Hbci.c:172-227 | a packet that reads back has the layout of a built packet with the fields read |
| UwbHbci.SameHeader | demos/pnp/rhodes/UWB_Hbci.c:193-205 | two headers with the same segment nibble and length field are the same bytes |
| UwbHbci.BuiltParsed | demos/pnp/rhodes/UWB_Hbci.c:172-227 | every packet that reads back is the one built from its parts |
| UwbHbci.BuiltSum | demos/pnp/rhodes/UWB_Hbci.c:207-216 | the checksum makes the byte sum of a packet with a payload a multiple of 256 |
| UwbHbci.QueryHeader | demos/pnp/rhodes/UWB_Hbci.c:172-227 | a query is the final packet of a header without payload |
| UwbHbci.AnswerHeader | demos/pnp/rhodes/UWB_Spi_Driver_Interface.c:41-42 | an answer header in the receive driver's layout carries the class and instruction, and its bytes 2 and 3 read as the segment nibble above the 12-bit length |
| UwbHbci.CheckReadsAnswerSegment | demos/pnp/rhodes/UWB_Hbci.c:162-171 | the check accepts an answer exactly when its class, instruction and segment nibble are the expected ones, whatever its length, and the driver reads a final answer's length as sent |
| UwbHbci.HbciPacket.constructor | demos/pnp/rhodes/UWB_Hbci.c:159-160 | the static buffer starts zero-filled with an empty packet |
| UwbHbci.HbciPacket.Prepare | demos/pnp/rhodes/UWB_Hbci.c:172-178 | preparing writes the class, instruction and segment nibble, sets the length to the header and clears the checksum; byte 2 is untouched |
| UwbHbci.HbciPacket.Add | demos/pnp/rhodes/UWB_Hbci.c:180-189 | the payload is appended exactly when the packet stays within the buffer, and otherwise nothing changes |
| UwbHbci.HbciPacket.AddChecked | demos/pnp/rhodes/UWB_Hbci.c:180-189 | with one byte kept for the checksum, the payload is appended exactly when the packet stays strictly within the buffer |
| UwbHbci.HbciPacket.WriteLength | demos/pnp/rhodes/UWB_Hbci.c:193-205 | the length bytes written are those of the packet's length and segment |
| UwbHbci.HbciPacket.ComputeCrc | demos/pnp/rhodes/UWB_Hbci.c:207-213 | the loop leaves the byte that brings the packet's byte sum to a multiple of 256 |
| UwbHbci.HbciPacket.Done | demos/pnp/rhodes/UWB_Hbci.c:191-227 | finishing writes the length bytes and appends the checksum of a packet with a payload; a packet filling the whole buffer is reported as overflowing |
| UwbHbci.FullPacketOverflows | demos/pnp/rhodes/UWB_Hbci.c:180-215 | as written, a chunk and one byte more pass the bound of the add, and the checksum then lands past the buffer |
| UwbHbci.CheckedAddNeverOverflows | demos/pnp/rhodes/UWB_Hbci.c:180-215 | with room kept for the checksum, every payload accepted into a prepared packet is at most a chunk and never overflows |
| UwbHbci.NumChunks | demos/pnp/rhodes/UWB_Hbci.c:297 | the chunk count is the image size divided by 2048 rounded up |
| UwbHbci.ChunkLen | demos/pnp/rhodes/UWB_Hbci.c:299-310 | each chunk holds 1 to 2048 bytes inside the image, and only the last one reaches its end |
| UwbHbci.ChunksTile | demos/pnp/rhodes/UWB_Hbci.c:299-336 | the chunks from i on, joined, are the image from chunk i's start |
| UwbHbci.ChunksJoin | demos/pnp/rhodes/UWB_Hbci.c:299-336 | the chunks of an image, joined, are the image |
| UwbHbci.ChunkPacket | demos/pnp/rhodes/UWB_Hbci.c:312-318 | a chunk's packet carries payload beyond its header |
| UwbHbci.ChunkSteps | demos/pnp/rhodes/UWB_Hbci.c:299-336 | the chunk loop makes two transfers per chunk |
| UwbHbci.PlanStep | demos/pnp/rhodes/UWB_Hbci.c:253-352 | transfer 3 + j of the download is transfer j of the chunk loop |
| UwbHbci.PlanSteps | demos/pnp/rhodes/UWB_Hbci.c:318-335 | each chunk is sent as its header and then its payload, each answered by an acknowledgement |
| UwbHbci.PlanCarriesImage | demos/pnp/rhodes/UWB_Hbci.c:253-352 | the chip reads back each chunk as a download packet with its segment nibble, only the last chunk is final, and the chunks joined are the image |
| UwbHbci.SendQuery | demos/pnp/rhodes/UWB_Hbci.c:262-265 | a prepared and finished query sends the query header |
| UwbHbci.QueryFinished | demos/pnp/rhodes/UWB_Hbci.c:191-227 | finishing a prepared header-only final packet gives the query header |
| UwbHbci.SendChunk | demos/pnp/rhodes/UWB_Hbci.c:312-329 | the header and the rest sent for chunk i are the two halves of its packet |
| UwbHbci.FillChunk | demos/pnp/rhodes/UWB_Hbci.c:312-316 | after preparing and adding, the packet holds the download header and chunk i |
| UwbHbci.PreparedFinished | demos/pnp/rhodes/UWB_Hbci.c:172-227 | whatever byte 2 held, finishing a prepared packet gives the built one |
| UwbHbci.FollowNext | demos/pnp/rhodes/UWB_Hbci.c:253-352 | after an expected answer the download makes the plan's next transfer |
| UwbHbci.PlanQueries | demos/pnp/rhodes/UWB_Hbci.c:253-352 | the download opens with the status query and the switch to HIF mode, and has three transfers for an empty image or four plus two per chunk |
| UwbHbci.SendChunkRound | demos/pnp/rhodes/UWB_Hbci.c:299-336 | one turn of the chunk loop sends the header and, when its answer passes, the payload, following the plan |
| UwbHbci.SendChunks | demos/pnp/rhodes/UWB_Hbci.c:299-336 | the chunk loop follows the plan and reaches the end exactly when every answer passes |
| UwbHbci.EncryptedFwDownload | demos/pnp/rhodes/UWB_Hbci.c:253-352 | the download follows the plan up to the first answer that fails its check, and succeeds exactly when the image has bytes and every answer passes |
| UwbHbci.SendQueries | demos/pnp/rhodes/UWB_Hbci.c:262-290 | the three opening queries follow the plan and stop at the first unexpected answer |
| UwbHifHandler.Copy | demos/pnp/Uwb_Hif_Handler.c:84-92 | the received size grows by the count of bytes copied and stays within the buffer |
| UwbHifHandler.CopyContents | demos/pnp/Uwb_Hif_Handler.c:84-87 | the bytes already received are kept and the copied bytes land right after them |
| UwbHifHandler.Fill | demos/pnp/Uwb_Hif_Handler.c:72-93 | the copy loop keeps the receiver's sizes consistent with its buffer |
| UwbHifHandler.FillStep | demos/pnp/Uwb_Hif_Handler.c:72-93 | one turn copies one byte before the header is in, the rest of the call while it stays within the expected size, and otherwise the bytes still expected; a zero copy spins and a negative one overruns |
| UwbHifHandler.TaskTlv | demos/pnp/Uwb_Hif_Handler.c:124-126 | the handler task reads the type, the big-endian length and a value of that length after them |
| UwbHifHandler.FillFrame | demos/pnp/Uwb_Hif_Handler.c:72-93 | feeding the next bytes of a frame copies them all and moves on to the position after them |
| UwbHifHandler.FrameInOneCall | demos/pnp/Uwb_Hif_Handler.c:70-126 | a frame handed over in one call is taken whole, the HIF task is woken once, and it reads the frame's type, length and value |
| UwbHifHandler.Feed | demos/pnp/Uwb_Hif_Handler.c:70-102 | a run of calls keeps the receiver's sizes consistent with its buffer |
| UwbHifHandler.ChunkedFrame | demos/pnp/Uwb_Hif_Handler.c:70-102 | however a frame is cut into non-empty pieces, the HIF task is woken exactly once, after the last piece, and the buffer then holds the frame |
| UwbHifHandler.FrameInPieces | demos/pnp/Uwb_Hif_Handler.c:70-102 | pieces of a frame fed to an idle receiver leave it idle again with the frame in the buffer and the HIF task woken once |
| UwbHifHandler.NeverBeyondExpected | demos/pnp/Uwb_Hif_Handler.c:72-93 | once the header is in the loop never fills past the expected size, unless the header's length wrapped the 16-bit expected size |
| UwbHifHandler.ExtraByteStalls | demos/pnp/Uwb_Hif_Handler.c:72-93 | as written, a call carrying one byte past a TLV with an empty value never returns |
| UwbHifHandler.LongFrameOverflows | demos/pnp/Uwb_Hif_Handler.c:84 | as written, a TLV longer than the 2176-byte buffer is copied past its end |
| UwbHifHandler.FillLength | demos/pnp/Uwb_Hif_Handler.c:84-87 | the loop only writes right after the bytes received, so the buffer grows only to what has been received |
| UwbHifHandler.CheckedFillStaysInBounds | demos/pnp/Uwb_Hif_Handler.c:70-102 | the corrected callback always returns and keeps the buffer at its 2176 bytes |
| UwbHifHandler.HifReceiver.constructor | demos/pnp/Uwb_Hif_Handler.c:70-102 | the receiver starts idle over a zeroed buffer with no error |
| UwbHifHandler.HifReceiver.CopyIn | demos/pnp/Uwb_Hif_Handler.c:84-92 | one copy leaves the state of the copy step and the error flag alone |
| UwbHifHandler.HifReceiver.ReadDataCb | demos/pnp/Uwb_Hif_Handler.c:70-102 | the callback's new state and wake-up are those of the copy loop followed by the completion check, which clears the error flag when it wakes the HIF task; a spinning or overrunning loop is reported |
| UwbLogging.SizeSub | libs/halimpl/log/uwb_logging.cc:108-110 | unsigned subtraction gives the plain difference whenever it does not go below zero |
| UwbLogging.StringOutParts | libs/halimpl/log/uwb_logging.cc:106-129 | what the string formatter writes is the part its copy loop copies followed by the spaces its padding loop pads |
| UwbLogging.StringLeavesRoom | libs/halimpl/log/uwb_logging.cc:106-129 | the string formatter writes nothing for a size of 1 or less or above the 800-byte buffer, always leaves a byte for the terminator, and writes a prefix of the message padded to its column |
| UwbLogging.StringAligned | libs/halimpl/log/uwb_logging.cc:106-129 | with room for the whole column the message comes out left-aligned in a field as wide as the requested total, or as the message when it is longer |
| UwbLogging.DigitIsTable | libs/halimpl/log/uwb_logging.cc:134 | a nibble's digit is the entry of the hex table |
| UwbLogging.Pair | libs/halimpl/log/uwb_logging.cc:138-139 | each byte is written as two hex characters |
| UwbLogging.GroupEnd | libs/halimpl/log/uwb_logging.cc:143-148 | a space follows every fourth byte |
| UwbLogging.Chunk | libs/halimpl/log/uwb_logging.cc:138-148 | each turn writes two characters, plus one after every fourth byte |
| UwbLogging.Turns | libs/halimpl/log/uwb_logging.cc:137 | the hex loop stops at the first turn whose test fails |
| UwbLogging.ReachedGoes | libs/halimpl/log/uwb_logging.cc:137 | every turn before the last passes the loop test |
| UwbLogging.StopsAtTurns | libs/halimpl/log/uwb_logging.cc:137 | the loop stops at the first failing turn and at no earlier one |
| UwbLogging.HexTextGrows | libs/halimpl/log/uwb_logging.cc:137-149 | the text of fewer bytes is never longer |
| UwbLogging.AllTurns | libs/halimpl/log/uwb_logging.cc:137-149 | with room for three characters per remaining byte and the terminator every remaining turn runs |
| UwbLogging.HexWhole | libs/halimpl/log/uwb_logging.cc:131-153 | with room for three characters per byte and the terminator, the hex formatter writes the whole text and a terminator |
| UwbLogging.HexDigits | libs/halimpl/log/uwb_logging.cc:134 | reading a hex digit gives back its nibble |
| UwbLogging.UnhexChunk | libs/halimpl/log/uwb_logging.cc:138-148 | reading back a byte's characters gives the byte |
| UwbLogging.HexTextSplit | libs/halimpl/log/uwb_logging.cc:137-149 | the text of the first bytes followed by the text of the rest is the text of them all |
| UwbLogging.UnhexFrom | libs/halimpl/log/uwb_logging.cc:137-149 | reading back the text from any byte on gives those bytes |
| UwbLogging.HexTextRoundTrip | libs/halimpl/log/uwb_logging.cc:131-153 | the hex text carries the bytes: reading it back gives them again |
| UwbLogging.HexTextLength | libs/halimpl/log/uwb_logging.cc:137-149 | the hex text is two characters per byte and one space per group of four |
| UwbLogging.HexOverruns | libs/halimpl/log/uwb_logging.cc:137-151 | as written, with two bytes of room the loop still writes a pair and the terminator lands one byte past the room given |
| UwbLogging.CheckedRoom | libs/halimpl/log/uwb_logging.cc:137-149 | with the corrected loop test, what is written and what is left add up to the room given, and a byte is always left |
| UwbLogging.CheckedHexFits | libs/halimpl/log/uwb_logging.cc:131-153 | the corrected hex formatter never writes more than the room given, terminator included |
| UwbLogging.LogBuffer.CopyChars | libs/halimpl/log/uwb_logging.cc:115-119 | the copy loop copies the message up to one byte short of the room, only when the room is within the 800-byte buffer, and nothing else changes |
| UwbLogging.LogBuffer.PadChars | libs/halimpl/log/uwb_logging.cc:121-125 | the padding loop writes spaces up to one byte short of the room, only when the room is below 800, and nothing else changes |
| UwbLogging.LogBuffer.FormatString | libs/halimpl/log/uwb_logging.cc:106-129 | the count returned is the number of characters written, which are the string formatter's text, and nothing else in the buffer changes |
| UwbLogging.LogBuffer.HexLoop | libs/halimpl/log/uwb_logging.cc:137-149 | the loop writes the hex text of the bytes it gets to, and its count is that text's length |
| UwbLogging.LogBuffer.FormatHex | libs/halimpl/log/uwb_logging.cc:131-153 | the hex formatter writes the text and a terminator, counts the terminator, and changes nothing else in the buffer |
| UwbLogging.LogBuffer.Store | libs/halimpl/log/uwb_logging.cc:138-151 | characters written through the pointer land from its position on and nothing else changes |
| UwbLogging.Spins | libs/halimpl/log/uwb_logging.cc:283-284 | each spin prints two characters |
| UwbLogging.SpinAfter | libs/halimpl/log/uwb_logging.cc:283-287 | the spin index always stays within the ten-character pattern |
| UwbLogging.SpinNextWraps | libs/halimpl/log/uwb_logging.cc:283-287 | the index moves one place round the pattern |
| UwbLogging.SpinAfterWraps | libs/halimpl/log/uwb_logging.cc:283-287 | after n spins the index has gone n places round the pattern |
| UwbLogging.SpinsSplit | libs/halimpl/log/uwb_logging.cc:279-288 | a run of spins prints what its first part prints followed by what the rest prints from where the first part left the index |
| UwbLogging.SpinsShow | libs/halimpl/log/uwb_logging.cc:279-288 | each spin shows the pattern character at its index followed by a carriage return |
| UwbLogging.FullTurn | libs/halimpl/log/uwb_logging.cc:281-287 | after ten spins the index is back where it started |
| UwbLogging.Spinner.Spin | libs/halimpl/log/uwb_logging.cc:279-288 | the spinner prints the character at its index and a carriage return and moves the index round the pattern |
| UwbMain.GetStatusName | libs/uci-core/uwb/uwb/uwb_main.cc:959-1022 | a status code has a printable name, and the name is "UNKNOWN" exactly for the codes the switch does not list |
| UwbMain.HalDataCallback | libs/uci-core/uwb/uwb/uwb_main.cc:317-343 | data from the HAL is posted to the UCI task, unchanged, exactly when the core is neither opening nor closing the HAL, the data is present and a buffer is free |
| UwbMain.FlushStep | libs/uci-core/uwb/uwb/uwb_main.cc:223-240 | a flush leaves a full window, no response pending, no retry and an empty queue, and keeps the rest of the command flow |
| UwbMain.FlushRestoresInvariant | libs/uci-core/uwb/uwb/uwb_main.cc:223-240 | after a flush the command-flow invariant holds again: window within its maximum, a pending response only with a command out, a queue only while the window is closed |
| UwbMain.UwbCb.SetCmd | libs/uci-core/uwb/uwb/uwb_main.cc:223-240 | replacing the command-flow fields leaves the state and the callback alone |
| UwbMain.UwbCb.Init | libs/uci-core/uwb/uwb/uwb_main.cc:441-453 | initialisation leaves state NONE, a full command window, no response pending, no retry, no recovery in progress, no saved command and an empty queue |
| UwbMain.UwbCb.FlushCmdQueue | libs/uci-core/uwb/uwb/uwb_main.cc:223-240 | flushing frees every queued command, resets the window, pending flag and retry count, and keeps the invariant |
| UwbMain.UwbCb.Enable | libs/uci-core/uwb/uwb/uwb_main.cc:366-378 | enabling without a response callback is an invalid parameter and changes nothing; with one the core waits for the HAL to open and reports success |
| UwbStatus.StVal | libs/halimpl/inc/phUwbStatus.h:46-49 | success stays success; any other code keeps its low byte and carries the component id in the high byte |
| UwbStatus.Status | libs/halimpl/inc/phUwbStatus.h:55 | the status code is the low byte of a composed status |
| UwbStatus.CompId | libs/halimpl/inc/phUwbStatus.h:56 | the component id is the high byte of a composed status |
| UwbStatus.StValRoundTrip | libs/halimpl/inc/phUwbStatus.h:46-56 | a byte-sized code and component id come back out of the composed status, which is never taken for success |
| UwbStatus.StValInjective | libs/halimpl/inc/phUwbStatus.h:46-49 | two different codes of one component compose to different statuses |
| UwbStatus.WideCodeTruncated | libs/halimpl/inc/phUwbStatus.h:46-49 | a code wider than a byte loses its high byte, so INVALID_DEVICE (0xFFFF) composes like 0x00FF |
| UwbUcif.CheckCmdQueueStep | libs/uci-core/uwb/uwb/uwb_ucif.cc:137-196 | commands are sent first in first out: an offered command goes behind those waiting, nothing is sent while the window is closed, and otherwise the oldest waiting command is sent |
| UwbUcif.CheckCmdQueue | libs/uci-core/uwb/uwb/uwb_ucif.cc:137-196 | the control block's command flow after the call is that of the first-in first-out step, and nothing else in the block changes |
| UwbUcif.HandToHal | libs/uci-core/uwb/uwb/uwb_ucif.cc:164-193 | sending saves the command's header and a copy for retransmission, raises the raw flag for a raw command, shrinks the window, marks a response pending with no retry, and hands the bytes to the HAL |
| UwbUcif.SendCmd | libs/uci-core/uwb/uwb/uwb_ucif.cc:207-217 | a missing buffer is ignored; any other command is offered to the queue as an ordinary, not raw, command |
| UwbUcif.UpdateCmdWindow | libs/uci-core/uwb/uwb/uwb_ucif.cc:66-83 | a response at a full window changes nothing; otherwise the window grows by one, the pending flag and retry count clear, and the oldest waiting command is sent |
| UwbUcif.Recovery | libs/uci-core/uwb/uwb/uwb_ucif.cc:1339-1351 | recovery, unless one is already running, clears the pending flag and retry count and flushes the command queue |
| UwbUcif.CmdTimeout | libs/uci-core/uwb/uwb/uwb_ucif.cc:94-126 | a timeout retransmits the saved command while retries remain, and otherwise reports a failure through the response callback and recovers |
| UwbUcif.CheckCmdQueueKeepsInvariant | libs/uci-core/uwb/uwb/uwb_ucif.cc:137-196 | sending keeps the command-flow invariant: window within its maximum, a pending response only with a command out, commands waiting only while the window is closed |
| UwbUcif.UpdateCmdWindowKeepsInvariant | libs/uci-core/uwb/uwb/uwb_ucif.cc:66-83 | a response keeps the command-flow invariant |
| UwbUcif.CmdTimeoutKeepsInvariant | libs/uci-core/uwb/uwb/uwb_ucif.cc:94-126 | a timeout keeps the command-flow invariant |
| UwbUcif.UpdateAtFullWindowIsNoOp | libs/uci-core/uwb/uwb/uwb_ucif.cc:68-73 | a response while the window is full changes nothing |
| UwbUcif.OpenWindowSendsAtOnce | libs/uci-core/uwb/uwb/uwb_ucif.cc:143-193 | a command offered while the window is open and nothing waits goes to the HAL at once, its header is saved and the window shrinks by one |
| UwbUcif.ResponsesSendInOrder | libs/uci-core/uwb/uwb/uwb_ucif.cc:66-196 | with a window of one, each matching response releases the oldest waiting command, so the HAL receives the queued commands in queue order |
| UwbUcif.OneResponse | libs/uci-core/uwb/uwb/uwb_ucif.cc:66-196 | with a window of one, a response sends the oldest waiting command and closes the window again |
| UwbUcif.BytesAppend | libs/uci-core/uwb/uwb/uwb_ucif.cc:137-196 | the commands handed over for two runs of the queue are those of the first followed by those of the second |
| UwbUcif.RetriesThenRecovers | libs/uci-core/uwb/uwb/uwb_ucif.cc:94-126 | a command that never gets a response is retransmitted exactly the retry limit times, then one more timeout reports a failure and recovery leaves a flushed queue and a full window |
| UwbUcif.RetriesAccumulate | libs/uci-core/uwb/uwb/uwb_ucif.cc:97-101 | each timeout within the retry limit retransmits the same saved command and counts one retry, changing nothing else |
| UwbUcif.TimeoutsSplit | libs/uci-core/uwb/uwb/uwb_ucif.cc:94-105 | k + 1 timeouts are k timeouts followed by one more |
| UwbUcif.Payload | libs/uci-core/uwb/uwb/uwb_ucif.cc:240-247 | the payload is as long as the header's length field says |
| UwbUcif.WithTotalLength | libs/uci-core/uwb/uwb/uwb_ucif.cc:285-290 | the reassembled packet keeps its first two bytes and payload, and bytes 2 and 3 hold the total payload length little-endian, truncated to 16 bits |
| UwbUcif.ChainStep | libs/uci-core/uwb/uwb/uwb_ucif.cc:249-301 | a fragment with the boundary flag is stored and nothing is routed: the first whole, later ones of the same group and opcode by payload only; the packet that ends the chain routes everything gathered and resets the chain; any other packet is routed as it is |
| UwbUcif.ChainBound | libs/uci-core/uwb/uwb/uwb_ucif.cc:249-268 | the 1024-byte chain buffer is never checked: a first fragment stays inside it exactly when it is at most 1024 bytes, a later one exactly when its payload fits after the bytes gathered |
| UwbUcif.ChainedPacket.Process | libs/uci-core/uwb/uwb/uwb_ucif.cc:249-301 | the static chained packet changes as the chaining step says and routes what it says |
| UwbUcif.ContinueStep | libs/uci-core/uwb/uwb/uwb_ucif.cc:258-264 | a continuation fragment of the current chain appends its payload |
| UwbUcif.EndStep | libs/uci-core/uwb/uwb/uwb_ucif.cc:273-297 | the fragment that ends the current chain routes the gathered packet with its total length and resets the chain |
| UwbUcif.RunChainQuietStep | libs/uci-core/uwb/uwb/uwb_ucif.cc:249-268 | a packet that routes nothing leaves the rest of the run to the new chain state |
| UwbUcif.RunChainEnd | libs/uci-core/uwb/uwb/uwb_ucif.cc:273-297 | the fragment that ends a chain, fed alone, routes the gathered packet |
| UwbUcif.ChainCompletes | libs/uci-core/uwb/uwb/uwb_ucif.cc:249-301 | once a chain has started, continuation fragments and the fragment ending it route exactly one packet: the gathered bytes and every later payload in order, with the total length, and the chain is reset |
| UwbUcif.PayloadsCons | libs/uci-core/uwb/uwb/uwb_ucif.cc:258-264 | the payloads of a run of fragments are the first one's followed by the rest's |
| UwbUcif.ChainReassembles | libs/uci-core/uwb/uwb/uwb_ucif.cc:249-301 | a chain begun by a first fragment and ended by a final one, all of one group and opcode, routes the first fragment followed by every later payload as one packet |
| UwbUcif.RawResponseStep | libs/uci-core/uwb/uwb/uwb_ucif.cc:297-301 | corrected: the raw callback gets the whole routed packet, and the flag is cleared before the window update so a raw command sent by that update keeps its flag |
| UwbUcif.RawChainedResponseTruncated | libs/uci-core/uwb/uwb/uwb_ucif.cc:297-298 | as written, the raw callback of a reassembled two-fragment response gets the length of the last fragment and loses the last payload byte |
| UwbUcif.RawFlagOfNextCommandCleared | libs/uci-core/uwb/uwb/uwb_ucif.cc:297-300 | as written, a raw command sent by the window update after a raw response has its flag cleared again, so its response would be routed as an ordinary one |
| UwbUcif.ProcessEventStep | libs/uci-core/uwb/uwb/uwb_ucif.cc:229-376 | while a raw command waits, anything but a notification is its response, handed on by the corrected raw step (the whole packet, the flag cleared before the window update); a response not matching the saved header is dropped and leaves the window alone; a matching one is routed to its group and updates the window; notifications are routed to their group, proprietary ones with the whole packet |
| UwbUcif.ProcessEvent | libs/uci-core/uwb/uwb/uwb_ucif.cc:229-376 | the chained packet, command flow and outcome after the call are those of the routing step, raw responses included through the corrected raw step, and nothing else in the control block changes |
| UwbUcifNtf.MacLen | libs/uci-core/uwb/uwb/uwb_ucif.cc:872-879 | the addressing mode selects a 2-byte short or an 8-byte extended address |
| UwbUcifNtf.TwrRfuLen | libs/uci-core/uwb/uwb/uwb_ucif.cc:888-895 | the reserved bytes skipped make every two-way record 35 bytes whatever the address length |
| UwbUcifNtf.DecodeTwr | libs/uci-core/uwb/uwb/uwb_ucif.cc:872-895 | a two-way measurement is read field by field with arrays of their declared lengths |
| UwbUcifNtf.RangeHeader | libs/uci-core/uwb/uwb/uwb_ucif.cc:856-866 | the fixed part of a ranging notification is read from the payload, the data length is the payload's and the measurement count is byte 24 |
| UwbUcifNtf.TwrRecords | libs/uci-core/uwb/uwb/uwb_ucif.cc:870-896 | the loop reads one record per measurement |
| UwbUcifNtf.TwrRecordsAt | libs/uci-core/uwb/uwb/uwb_ucif.cc:870-896 | measurement i is the record at its own 35-byte offset after the header |
| UwbUcifNtf.DecodeTdoa | libs/uci-core/uwb/uwb/uwb_ucif.cc:898-921 | the one-way measurement is read field by field, its device information and blink payload as long as their size bytes say, and only when they lie inside the payload |
| UwbUcifNtf.TdoaSizesUnchecked | libs/uci-core/uwb/uwb/uwb_ucif.cc:917-921 | the device information and blink payload are as long as their size bytes say, unchecked, so they fit their 127-byte arrays exactly when both size bytes are at most 127 |
| UwbUcifNtf.RangingOutcome | libs/uci-core/uwb/uwb/uwb_ucif.cc:843-929 | nothing is delivered for an empty payload, without a callback or with more than MAX_NUM_RESPONDERS measurements; otherwise the header is delivered with one record per measurement for two-way ranging and one one-way record for one-way ranging |
| UwbUcifNtf.ReadTwrRecords | libs/uci-core/uwb/uwb/uwb_ucif.cc:870-896 | the record loop completes exactly when every record lies inside the payload, and then yields the records at their offsets |
| UwbUcifNtf.ProcRangingData | libs/uci-core/uwb/uwb/uwb_ucif.cc:843-929 | the ranging-data handler delivers what the ranging outcome says |
| UwbUcifNtf.ControleeRecords | libs/uci-core/uwb/uwb/uwb_ucif.cc:1071-1074 | one sub-session id and one status per controlee |
| UwbUcifNtf.ControleeRecordsAt | libs/uci-core/uwb/uwb/uwb_ucif.cc:1071-1074 | controlee i is the 5-byte record at its own offset after the 6-byte header |
| UwbUcifNtf.MulticastOutcome | libs/uci-core/uwb/uwb/uwb_ucif.cc:1051-1079 | nothing is delivered for an empty payload, without a callback or with more than MAX_NUM_CONTROLLEES controlees; otherwise the count is byte 5 and there is one id and one status per controlee |
| UwbUcifNtf.ProcMulticastListUpdateNtf | libs/uci-core/uwb/uwb/uwb_ucif.cc:1051-1079 | the multicast-list handler delivers what the multicast outcome says |
| UwbUcifNtf.TwrBytes | libs/uci-core/uwb/uwb/uwb_ucif.cc:872-895 | a two-way measurement takes 35 bytes on the wire |
| UwbUcifNtf.TwrBytesLayout | libs/uci-core/uwb/uwb/uwb_ucif.cc:872-895 | each field of a two-way record lies where the decoder reads it |
| UwbUcifNtf.DecodeTwrBytes | libs/uci-core/uwb/uwb/uwb_ucif.cc:872-895 | a two-way record decodes back to the measurement it was written from, wherever it sits |
| UwbUcifNtf.TwrListBytes | libs/uci-core/uwb/uwb/uwb_ucif.cc:870-896 | a list of measurements takes 35 bytes per record |
| UwbUcifNtf.TwrListBytesAt | libs/uci-core/uwb/uwb/uwb_ucif.cc:870-896 | record i of the list sits at 35 times i |
| UwbUcifNtf.RangeHeaderBytes | libs/uci-core/uwb/uwb/uwb_ucif.cc:856-866 | the fixed part of a ranging notification takes 25 bytes |
| UwbUcifNtf.TwoWayBytes | libs/uci-core/uwb/uwb/uwb_ucif.cc:843-896 | a two-way notification is as long as its data length says |
| UwbUcifNtf.RangeHeaderRoundTrip | libs/uci-core/uwb/uwb/uwb_ucif.cc:856-866 | the header bytes decode back to every header field |
| UwbUcifNtf.TwoWayRecordRoundTrip | libs/uci-core/uwb/uwb/uwb_ucif.cc:870-896 | record i of a two-way notification decodes back to measurement i |
| UwbUcifNtf.TwoWayRoundTrip | libs/uci-core/uwb/uwb/uwb_ucif.cc:843-929 | decoding the bytes of a two-way ranging notification delivers that notification, every header field and every measurement |
| UwbApiAppConfig.AppConfigMappingInverse | libs/uwb-iot/uwb_api/Api/SR100T/AppConfigParams.h:68-109 | the mapping has one UCI id per setting, and each UCI id maps back to its setting |
| UwbApiAppConfig.AppConfigMappingInjective | libs/uwb-iot/uwb_api/Api/SR100T/AppConfigParams.h:68-109 | no two settings share a UCI id |
| UwbApiAppConfig.ExtMappingLayout | libs/uwb-iot/uwb_api/Api/SR100T/AppConfigParams.h:111-121 | each extended entry carries its own position as the sub-id in the high byte and the extended group id in the low byte |
| UwbApiAppConfig.ExtTlv | libs/uwb-iot/uwb_api/Api/SR100T/UwbApi_Proprietary_Internal.cpp:62-87 | an extended setting's TLV starts with the extended group id and its sub-id |
| UwbApiAppConfig.SupportedAppConfigCases | libs/uwb-iot/uwb_api/Api/UwbApi_Internal.cpp:970-973 | a setting is accepted exactly when it is one of the 42 UCI settings or one of the nine extended ones |
| UwbApiAppConfig.TlvSetAppConfigBufAsWritten | libs/uwb-iot/uwb_api/Api/UwbApi_Internal.cpp:966-985 | as written, an unsupported setting gives nothing, a UCI setting gives its mapped TLV, and an extended one indexes the extended table with 0xE3, past its end |
| UwbApiAppConfig.ExtIndexOutOfBounds | libs/uwb-iot/uwb_api/Api/UwbApi_Internal.cpp:976 | as written, every extended setting reads past the nine-entry extended table, and the TLV it writes is that of the sub-id read past the table, for every setting alike, so it differs from the setting's own TLV for every extended setting but the one with that sub-id |
| UwbApiAppConfig.TlvSetAppConfigBuf | libs/uwb-iot/uwb_api/Api/UwbApi_Internal.cpp:966-985 | corrected: an unsupported setting gives nothing, a UCI setting gives its mapped TLV, and an extended one gives the TLV of its own sub-id, the way the API's set call looks it up |
| UwbApiAppConfig.ExtSettingNamesItself | libs/uwb-iot/uwb_api/Api/UwbApi_Internal.cpp:974-980 | with the corrected lookup each extended setting's TLV names the extended group and the setting's own sub-id |
| UwbApiAppConfig.AppConfigTlvParser | libs/uwb-iot/uwb_api/Api/UwbApi_Internal.cpp:942-964 | a 32-bit value becomes four bytes that read back as it, a byte array is copied whole, and any other type fails |
| UwbApiInternal.ValueBytes | libs/uwb-iot/uwb_api/Api/UwbApi_Internal.cpp:722-813 | the value a builder writes is the leading bytes of the caller's value, as many as the setting's width or array length |
| UwbApiInternal.TlvRoundTrip | libs/uwb-iot/uwb_api/Api/UwbApi_Internal.cpp:722-813 | a known setting's TLV starts with its id, and reading it back by its length byte gives the value bytes the builder took |
| UwbApiInternal.TlvSize | libs/uwb-iot/uwb_api/Api/UwbApi_Internal.cpp:722-813 | a TLV is the id, plus one length byte and the value for a known setting, so the builders return 3, 4 or 6 for scalars and the array length plus 2 for arrays |
| UwbApiInternal.WriteTlv | libs/uwb-iot/uwb_api/Api/UwbApi_Internal.cpp:722-813 | the common writing of every builder produces the TLV, with the returned length being its size counted in eight bits |
| UwbApiInternal.WriteByte | libs/uwb-iot/uwb_api/Api/UwbApi_Internal.cpp:727 | a byte written through the buffer index is appended and counted |
| UwbApiInternal.WriteU16 | libs/uwb-iot/uwb_api/Api/UwbApi_Internal.cpp:722-813 | a 16-bit value is appended low byte first and counted |
| UwbApiInternal.WriteU32 | libs/uwb-iot/uwb_api/Api/UwbApi_Internal.cpp:722-813 | a 32-bit value is appended low byte first and counted |
| UwbApiInternal.WriteArray | libs/uwb-iot/uwb_api/Api/UwbApi_Internal.cpp:722-813 | an array is appended byte by byte and counted |
| UwbApiInternal.GetAppConfigTlvBuffer | libs/uwb-iot/uwb_api/Api/UwbApi_Internal.cpp:722-813 | the application-config builder writes the id, its length and its value, and returns that size |
| UwbApiInternal.Placed | libs/uwb-iot/uwb_api/Api/UwbApi_Internal.cpp:722-809 | byte k written lands at index k modulo 256 of the caller's buffer, the last one written there staying |
| UwbApiInternal.LongArrayTlvWraps | libs/uwb-iot/uwb_api/Api/UwbApi_Internal.cpp:799-807 | a 255-byte array value makes a 257-byte TLV whose last value byte overwrites the id, and the length returned is 1 |
| UwbApiInternal.GetTestConfigTlvBuffer | libs/uwb-iot/uwb_api/Api/UwbApi_Internal.cpp:825-866 | the test-config builder writes the id, its length and its value, and returns that size |
| UwbApiInternal.GetCoreDeviceConfigTlvBuffer | libs/uwb-iot/uwb_api/Api/UwbApi_Internal.cpp:878-910 | the core-config builder writes the id, its length and its value, and returns that size |
| UwbApiInternal.AppConfigTlvShape | libs/uwb-iot/uwb_api/Api/UwbApi_Internal.cpp:722-813 | the application-config builder returns 3 for one-byte ids, 4 for two-byte ids low byte first, 6 for four-byte ids, the array length plus 2 for arrays with that length as the length byte, and 1 for unknown ids |
| UwbApiInternal.ParseRangingParams | libs/uwb-iot/uwb_api/Api/UwbApi_Internal.cpp:186-227 | the ranging-parameter parser reads the given number of records through a moving pointer and stores the known ones |
| UwbApiInternal.ParseEncodedParams | libs/uwb-iot/uwb_api/Api/UwbApi_Internal.cpp:186-227 | parsing a response that lists parameters record by record applies each of them in order, whatever precedes or follows, skipping unknown ids by their length |
| UwbApiInternal.EncodeSplit | libs/uwb-iot/uwb_api/Api/UwbApi_Internal.cpp:188-225 | the first record splits off an encoded list |
| UwbApiInternal.RecordStep | libs/uwb-iot/uwb_api/Api/UwbApi_Internal.cpp:188-225 | one turn of the parser consumes one record and applies it |
| UwbApiInternal.UnknownRecordSkipped | libs/uwb-iot/uwb_api/Api/UwbApi_Internal.cpp:221-224 | a record with an unknown id is passed over by its length and changes nothing |
| UwbApiInternal.CompletionRsp | libs/uwb-iot/uwb_api/Api/UwbApi_Internal.cpp:596-610 | a nonempty raw response lands at the start of the response buffer and the bytes beyond it keep their contents; a response longer than the buffer is copied whole, past its end; any other completion leaves the buffer alone |
| UwbApiInternal.WaitStatusCases | libs/uwb-iot/uwb_api/Api/UwbApi_Internal.cpp:672-710 | a wait succeeds exactly when the event was already received, the semaphore was posted in time, or the awaited event is the session status notification; otherwise it fails |
| UwbApiInternal.RawUciResponseChecked | libs/uwb-iot/uwb_api/Api/UwbApi_Internal.cpp:621-659 | a raw command whose response names another group or opcode fails, and a matching response reports the device's status byte |
| UwbApiInternal.RawUciPassesThrough | libs/uwb-iot/uwb_api/Api/UwbApi_Internal.cpp:645-650 | a timeout or an HPD wake-up while waiting is reported as such, and a device error as a timeout, whatever the response buffer holds |
| UwbApiInternal.ApiContext.SetWaitEvent | libs/uwb-iot/uwb_api/Api/UwbApi_Internal.cpp:578-581 | setting the awaited event changes only the awaited event |
| UwbApiInternal.ApiContext.WaitForNotification | libs/uwb-iot/uwb_api/Api/UwbApi_Internal.cpp:672-710 | the wait returns the wait status, awaits the event only when it was not already received, and always resets the received event |
| UwbApiInternal.ApiContext.RawCommandResponseCb | libs/uwb-iot/uwb_api/Api/UwbApi_Internal.cpp:596-610 | the raw response callback records the response length, and for a nonempty response its status byte and bytes, otherwise a failure, and releases the waiter; the 255-byte `rsp_data` stays within bounds exactly when the response fits it |
| UwbApiInternal.ApiContext.DeviceManagementEvent | libs/uwb-iot/uwb_api/Api/UwbApi_Internal.cpp:240-566 | a response timeout, a device status of 0xFC, or a device status of UWBD_STATUS_ERROR while the response is pending sets the timeout, HPD wake-up or timeout status, records the event and releases the waiter |
| UwbApiInternal.ApiContext.SendRawUci | libs/uwb-iot/uwb_api/Api/UwbApi_Internal.cpp:621-659 | sending a raw command waits, when the send succeeds, for what completes it, and then checks the response's group and opcode against the command's; the response buffer overruns its 255 bytes exactly when a longer response arrives |

## Left out

- Threads, semaphores, mutexes, message queues and timers of the RTOS are not modelled. Where code waits, whether the wait ended in time is a parameter (`posted`, the reply functions); where it posts or sends a message, the model records the event in a log field.
- Hardware and transports are parameters: SPI transfers and the RDY/INT lines, the USART, flash, the psector, the ADC and the random number generator. Waits on the RDY and INT lines are taken to end, and `phNxpUwb_UciRead`'s wait loop that jumps back to its own label while INT stays low is not followed.
- `phNxpUwb_HeliosInit`, `phNxpUwb_HeliosDeInit` and `phNxpUwb_SwitchProtocol` only create and delete OS objects and are not modelled.
- Floating point is not modelled:
  - the RSSI `log10` values of `per_parse_core.py`;
  - the first-path and CFO float aggregates and percentages of `demo_rx_per.c`;
  - `convertQFormatToFloat` of `pnp_core.py`.
  The model keeps the integer inputs, and the averages of `pnp_core.py` are kept as sums over the window.
- `utlv.c`, which `demo_rx_per.c` calls for each tag, is not part of this model. Its lookup is a found/not-found parameter.
- `uwb_types.h` and `uwb_int.h` are not part of this model:
  - the `UWB_STREAM_TO_*` and `*_TO_STREAM` macros are taken to be little-endian, as their use in the code requires;
  - the command window and retry limits are constructor parameters of `UwbMain.UwbCb`.
- The quick timers that `uwb_ucif.cc` starts and stops around a command are not modelled. The response and notification handlers other than the ranging and multicast parsers are dispatch into the API layer and are not modelled either.
- `UWB_Enable`: the HAL `open` call and the test-response callback are not modelled.
- In `uwb_main.cc`, `UWB_Disable` and the `UWB_*` wrappers that call one builder of `uci_hmsgs.cc` are not modelled (the builders are).
- UwbUcif.ProcessEvent: requires the packet to carry the payload its header announces. The transport delivers whole packets, and the model does not follow reads past a short one.
- UwbUcif.ChainStep: requires the same well-formed packet.
- UwbUcif.ChainStep and UwbUcif.ChainedPacket.Process: the 1024-byte chain buffer is a sequence that grows with every fragment. `UwbUcif.ChainBound` states when a copy stays inside the buffer; what a longer copy overwrites past it is not modelled.
- UwbUcifNtf.DecodeTdoa: the device information and blink payload keep every byte their size bytes announce. `UwbUcifNtf.TdoaSizesUnchecked` states when they fit the 127-byte arrays; what a longer copy overwrites in the structure is not modelled.
- UwbApiInternal.CompletionRsp and UwbApiInternal.ApiContext.RawCommandResponseCb: `rsp_data` is a sequence of at least 255 bytes, which a longer response lengthens; `InBounds` says whether every copy stayed inside the array. What a longer copy overwrites in the context is not modelled.
- UwbApiInternal.WriteTlv and UwbApiInternal.GetAppConfigTlvBuffer: the TLV is returned as the bytes in the order they are written, and the length wraps at 256. Where they land in the caller's buffer under the 8-bit index is stated separately (`UwbApiInternal.Placed`, `UwbApiInternal.LongArrayTlvWraps`).
- SwupUpdate.PackageFits and SwupUpdate.Execute: the package must hold the 512-byte manifest and fewer than 0xFFFF segments. For other packages the segment loop of `Swup_Execute` does not reach its bound and reads past the package while the device stays in TRANSFER (`SwupUpdate.ComponentCountWraps`). That run is not modelled.
- `uci_snd_*`: a periodic-TX call with a null PSDU pointer counts the length without copying data. The model always copies.
- `UwbApi_Internal.cpp`: `uwbInit`, `recoverUWBS`, `cleanUp` and `getDeviceInfo` are call-and-wait wrappers and are not modelled. Of `ufaDeviceManagementCallback`, only the three events that end a raw command's wait are modelled: the response timeout, the HPD wake-up status and a device error while a response is pending. The device state it records and the recovery notification sent for a device error with no command pending are not modelled.
- SR100T proprietary file: the notification handlers other than `handle_do_calibration_ntf`, plus `setDefaultCoreConfigs` and `extDeviceManagementCallback`, are dispatch and call-and-wait code and are not modelled.
- SR040 proprietary file: `setDefaultCoreConfigs` and `extDeviceManagementCallback` are not modelled, for the same reason.
- `uwb_gki_buffer.cc`:
  - the pool access mask is modelled as the set of restricted pool ids, not as a 16-bit word;
  - `get_buf_size`, `find_buf_start`, task ownership and `os_free` of static pools in `delete_pool` are not modelled.
- UwbGkiTime.GkiTimers.StartTimer: requires room in the pool. `start_timer` has no bound check and would write past the pool.
- `phNxpUciHal_utils.cc`: the list mutex, `listDump`, `init_monitor`, `cleanup_monitor` and `emergency_recovery` are not modelled.
- `phNxpUwbConfig.cc`: `long` is taken to be 4 bytes, as on the 32-bit targets.
- `phOsalUwb_Timer.cc`: the RTOS timer calls are parameters. The deferred-call path is not modelled.
- SpiTransport.Transport.RciWrite: requires at most 256 bytes of data. The source copies longer data past its frame.
- SpiTransport.Status: the values of `RETURNED_SUCCESS` and `RETURNED_FAILURE` are not part of this model, so they are a datatype.
- `uwb_logging.cc`:
  - `phUwb_LogPrint`, `phUwb_LogPrint_au8` and the colour functions are not modelled;
  - the hex formatter's loop is modelled on values and then stored in place (`UwbLogging.LogBuffer.HexLoop` and `Store`), so the transient terminator written after each group space, which the next pair overwrites, is not modelled.
- `board.c`:
  - integers are unbounded where the source stays within `int32` (`Board.SlopeBounds` and `FitsInt32` show it does);
  - the `OLD_XTAL32M_CAL` table, the 32 kHz variant, `temp_computation` and the ADC sequencing are not modelled;
  - the delay after trimming is left out;
  - flash, psector and RNG are parameters.
- `pnp_core.py`:
  - plotting, printing, the serial port and sleeps are not modelled;
  - `handleLogNtf` of `per_parse_core.py`, which the reader calls for log notifications, is not linked to it;
  - `HardResetSR040` and `Configure` only send fixed command lists and are not modelled.
- PerParseCore.FirstPathTag: appends the signed reading `FirstPathPower` of bytes 22 and 23. `_handleTagRxFirstPathInfo` appends `FirstPathPowerAsWritten`, the raw value minus 0xFFFF: one more for a negative power, and a negative number for a positive one (`PerParseCore.FirstPathPowerAsWrittenIsOffByOne`). The values the tool's RSSI list starts from are therefore not the model's samples.
- PerParseCore.UciLogger.HandleTagRxFirstPathInfo: stores the same corrected sample, not the raw value minus 0xFFFF.
- PerParseCore.UciLogger.HandleRecord: on a first-path record, stores the corrected sample, not the raw value minus 0xFFFF.
- PerParseCore.UciLogger.HandleLogNtf: the first-path samples it collects are the corrected ones, not the raw values minus 0xFFFF.
- PnpCore.Writer.AddCommand: requires room in the queue, where Python's `Queue.put` would block until there is room.
- `Utilities.c`: serializers whose field lists have no separate size lemma are covered only by `Utilities.TotalSizeIsWritten` and `Utilities.Serialize`.
- `Swup.c`: the commands other than those `Swup_Execute` sends are not modelled. `RciWrite` and `read_swup_response` are the reply function.
- SwupApi.DeviceInfoRoundTrip: decodes into a zeroed record.
- `TLV_Builder.c`: the semaphores and queues are not modelled, and neither is the UART path, which is compiled out.
- `UWB_ConfigHandler.c`: `UWBT_Config.h` is not part of this model, so the ids BLE_NAME = 0 and BLE_INTERVAL = 1 are assumed. What the store answers is a parameter.
- `TLV_Mng.c`: each sub-handler's answer is a parameter.
- `UWB_Hbci.c`: after a failed transfer, `hbci_transceive` sets the answer's data to NULL, and the error print of `hbci_check` then dereferences it. This is not modelled.
- `phNxpUciHal_fwd.cc`: `phHbci_Master`, `phHbci_MasterPatchROM` and `phHbci_MasterHIFImage` are not modelled because they loop without bound, driven by the chip. `phHbci_GetInfo` only dispatches on the class, and `fw_download` is option and file handling; neither is modelled.

## Notes on the code

- `serializeDataFromPerParams` (demos/common/Utilities.c:99-132) writes 29 bytes, the sum of its field widths.
- The configuration handler answers with type CONFIG_DEVICE_CMD (0x50), as the code does.
- The configuration handler reads the BLE interval back as 4 bytes.
- With no temperature measurement yet, the tcxo delta stays 0. So the crystal is re-trimmed then only when the threshold is 0: the initial call passes 0 and the periodic call passes 2 (`Board.RunDecision`).
- The battery level can reach 109 %, because the ADC full range is 3600 mV and a full battery is 3300 mV (`Board.FullScaleBattery`).
- `extract_angle` reads 4 bytes and folds them as a 16-bit value, so nonzero bytes 33 and 34 give a value of 0x8000 or more (`PnpCore.MeasuredAngleIs16Bit`).
- `phHbci_QueryInfo` checks the LRC of the answer left by the acknowledgement transfer, not of the answer that announced the size. It is modelled as written.
- `listAdd` unlocks the list mutex without holding it when allocation fails (libs/halimpl/utils/phNxpUciHal_utils.cc:89-93).

## Findings

| source | as written | input that shows it | evidently intended | confidence | as-written member | corrected member |
|---|---|---|---|---|---|---|
| demos/SR040/demo_device_calibration_py/per_parse_core.py:198-203 | the first-path power is `0xFFFF0000 \| raw` minus `0xFFFFFFFF`, that is `raw - 0xFFFF` whatever the sign bit | bytes DC CD: -12835 where the signed value is -12836; a positive raw value comes out negative | the 16-bit two's-complement value | not executed; high | PerParseCore.FirstPathPowerAsWrittenIsOffByOne | PerParseCore.FirstPathPower |
| demos/SR040/demo_device_calibration_py/per_parse_core.py:57-61 | `_resetLogStats` stores the tuple `(0,)` in each RXERROR counter | a reset followed by an RX status: `+= 1` on a tuple raises TypeError | integer zeros, so counting starts again from one | not executed; high | PerParseCore.ResetAsWrittenBreaksCounting | PerParseCore.UciLogger.ResetLogStats |
| libs/uci-core/uwb/uwb/uwb_ucif.cc:298 | the raw callback of a reassembled response gets the length of the last fragment | a raw response in two fragments of one payload byte each: 5 of the 6 reassembled bytes are delivered | the length of the reassembled packet | not executed; high | UwbUcif.RawChainedResponseTruncated | UwbUcif.RawResponseStep |
| libs/uci-core/uwb/uwb/uwb_ucif.cc:297-300 | the raw flag is cleared after the raw handler has updated the window, which may already have sent a queued raw command and raised the flag | window 1, a raw command waiting behind the one answered: it is sent and its flag cleared | clear the flag before the window update | not executed; medium | UwbUcif.RawFlagOfNextCommandCleared | UwbUcif.RawResponseStep |
| libs/uwb-iot/swup/Swup_update.c:102-120 | `Swup_Execute` returns the status of the successful GET_DEVICE_INFO when the device is not ready for an update | a device in neither ACTIVE nor TRANSFER, or with a key-version mismatch: success, nothing sent | a failure status | not executed; high | SwupUpdate.ExecuteReportsSuccessWithoutUpdate | SwupUpdate.ExecuteIntendedSuccess |
| libs/uwb-iot/swup/Swup_update.c:150-151 | a reply of success with a SWUP status other than ACTIVE ends the run with success | every command answered with success and SWUP status INIT: success after the first command | a failure status | not executed; high | SwupUpdate.ExecuteReportsSuccessWhenCutShort | SwupUpdate.ExecuteIntendedSuccess |
| libs/uci-core/uwb/uci/uci_hmsgs.cc:534-551 | the capability command writes its payload length into byte 2 and leaves byte 3 as the pool left it | a pool buffer whose byte 3 is not zero: the command announces a payload | byte 2 zero and byte 3 the length 0, as in the other builders | not executed; high | UciHmsgs.CapabilityLengthByteUnwritten | UciHmsgs.EncodeRoundTrip |
| libs/uwb-iot/uwb_api/Api/UwbApi_Internal.cpp:976 | the SR100T branch indexes the nine-entry extended table with the high byte of the setting, always 0xE3 | every extended setting reads entry 0xE3, past the table, and writes a TLV that does not depend on the setting | index with the low byte, as `UwbApi_SetAppConfig` does | not executed; high | UwbApiAppConfig.ExtIndexOutOfBounds | UwbApiAppConfig.ExtSettingNamesItself |
| libs/uwb-iot/uwb_api/Api/SR040/UwbApi_Proprietary_Internal.cpp:425-458 | the TRANSMIT payload length is summed in a `UINT8` | a 231-byte PSDU: a 260-byte command that announces a payload of 0 bytes | refuse a payload that does not fit the length byte | not executed; medium | Sr040Internal.TransmitLengthWraps | Sr040Internal.FormTestModeCommandChecked |
| libs/uwb-iot/uwb_api/Api/SR040/UwbApi_Proprietary_Internal.cpp:97-100 | the device-info parser copies each record's length unchecked into 8-byte arrays | a nine-byte device name | check the length against the array | not executed; medium | Sr040Internal.DeviceNameOverflows | Sr040Internal.CheckedDevInfoStaysInBounds |
| demos/SR040/demo_tracker_ble/src/TLV_Builder.c:203-204 | `tlvRecv` copies each chunk without checking the 2053-byte buffer | a header announcing 4000 bytes followed by nine 255-byte chunks | flush the input when a chunk would not fit | not executed; medium | TlvBuilder.RecvOverflows | TlvBuilder.CheckedRecvStaysInBounds |
| demos/pnp/Uwb_Hif_Handler.c:72-93 | once a TLV is complete the copy size is 0, so bytes beyond it keep the loop spinning | a TLV with an empty value followed by one more byte in the same call | stop at the end of the TLV | not executed; low (the caller delivers one TLV per call) | UwbHifHandler.ExtraByteStalls | UwbHifHandler.CheckedFillStaysInBounds |
| demos/pnp/Uwb_Hif_Handler.c:84 | the expected size is never checked against the 2176-byte buffer | a TLV longer than the buffer | reject a length that does not fit | not executed; medium | UwbHifHandler.LongFrameOverflows | UwbHifHandler.CheckedFillStaysInBounds |
| demos/pnp/rhodes/UWB_Hbci.c:180-215 | `hbci_add`'s bound admits a full packet, leaving no room for the checksum | a payload of 2049 bytes: the checksum lands past the buffer | keep a byte for the checksum | not executed; medium (latent: chunks are at most 2048 bytes) | UwbHbci.FullPacketOverflows | UwbHbci.CheckedAddNeverOverflows |
| libs/uwb-iot/uwb_core/gki/common/uwb_gki_time.cc:305-312 | stopping all timers advances the index while each deletion shifts the entries left | timers a, b, c: a and c (twice) are stopped and b stays live | stop the first entry until the pool is empty | not executed; high | UwbGkiTime.StopAllSkipsEveryOther | UwbGkiTime.StopAllIntendedClears |
| libs/halimpl/transport/SPI/qn9090/phNxpUwb_SpiTransport.c:396-404 | an RCI read copies 4 plus the announced length out of the 256-byte frame | a frame with a correct CRC announcing 255 bytes: 259 bytes copied | bound the length by the frame | not executed; medium | SpiTransport.RciReadOverRuns | SpiTransport.RciReadAccepts |
| libs/halimpl/transport/SPI/qn9090/phNxpUwb_SpiTransport.c:315-329 | `phNxpUwb_UciWrite` reports the full length after a failed SPI transfer | a transfer that fails | report -1, the failure value the function returns on its other error paths | not executed; high | SpiTransport.FailedWriteReportsLength | SpiTransport.IntendedWriteReportsOnlySent |
| libs/halimpl/transport/SPI/qn9090/phNxpUwb_SpiTransport.c:215-226 | the byte count is kept across the restart after an empty packet | an empty packet before a 6-byte one: 10 reported | restart the count | not executed; medium | SpiTransport.EmptyPacketInflatesCount | SpiTransport.IntendedCountIsPacket |
| libs/halimpl/log/uwb_logging.cc:137-151 | the hex loop only tests that more than one byte is left, but writes two or three | one byte with two bytes of room: three bytes written | test for room for the whole pair and the terminator | not executed; high | UwbLogging.HexOverruns | UwbLogging.CheckedHexFits |
| boards/QN9090_SR040_TR3_SPI/board.c:344-353 | the compensation is normalised only when the ATE temperature is not 23, which is also the value used when the word is invalid | a valid ATE word of exactly 23 °C: a 65 fF correction is left at 23 °C | normalise whenever the word is valid | not executed; medium | Board.AteAt23IsIgnored | Board.CompensationIntendedNormalised |
| demos/SR040/demo_device_calibration_py/pnp_core.py:309-310 | the short-payload message adds an `int` to a `str` | a four-byte response of which two bytes arrived: TypeError ends the reader thread | print the message and go on | not executed; high | PnpCore.ShortPayloadEndsReader | PnpCore.Reader.HandlePacket |
