# Verification of the RISC-V SoC simulator's memory system, protocol and trap logic

A Dafny model of a small RV32I system simulated at transaction level: a write-through
cache in front of a routed, aliased memory; the four-phase non-blocking protocol between
DMA, display and memory with its payload pool, event queue and DRAM refresh; and the CPU's
instructions from the assembled word on, trap entry and return, and program loading.
`dafny verify dfyconfig.toml` checks everything.

## What is modelled

**Memory and routing.** `MemoryModel` holds the byte array, the address translation relative
to the loaded base, the streaming and byte-enable loop, and the blocking, non-blocking and
debug entry points. `InterconnectModel` holds the address map of `main.cpp` (memory at 0x0 and
at 0x80000000), the translation to target-relative addresses and the hop context that routes
responses. `HexLoader` loads Intel HEX text in place; `HexImage` relates the text, the record
list it encodes, the bytes it leaves and what a fetch then reads.

**Cache.** `CacheIndex` has the mask and division address split, `CacheOps` way search, victim
choice, fill and the cases of an access on values, and `CacheModel.Cache` the module that runs
them in place over the interconnect. `CacheView` sees the cache as a partial map from addresses
to bytes. `Coherence` proves, over every sequence of CPU accesses through both aliases and
writes beside the cache, when a cached byte can be stale, and that with no foreign writer and
each byte used through one alias the cache refines flat memory. `LruStack`, `LruRefinement` and
`LruCache` prove that the time stamps implement least-recently-used replacement, with residency
and inclusion between associativities.

**Non-blocking protocol.** `AtProtocol` is a timed step system over any number of initiators:
payload table, pool, pending event-queue entries with due times, initiator program counters,
events, refresh and clock. A step is a thread resumption, an event-queue callback, a refresh
boundary or the passing of time; any due step may come next. `AtInvariant` has its invariant,
`AtSafety` what follows for reachable states and single steps, `AtTermination` the bound on the
steps of a run. `PayloadPool` and `DmaPort` are the objects: the memory manager, the DMA's
registers, and the code an initiator runs between two waits.

**DMA.** `DmaEngine` puts the transfer thread on top of the protocol as initiator 0, beside
initiators, register writes and outside memory writes of any kind. `DmaStart` proves which
register writes start it, `DmaTiming` its exact duration and termination, `WordCopy` what its
copy loop does to memory for every overlap, and `DmaCopy` that a transfer does just that
whatever runs beside it. `SocVisibility` adds the CPU behind its cache and proves when the CPU
sees what a transfer wrote.

**CPU.** `Isa` has the instruction decoders against the encodings of the specification and
`Execute` the instructions on words. `Numbers` says what the host's 32-bit operators do to the
values of words; with it `Rv32i` proves the executor against the instruction set described on
numbers, `Assembly` from the assembled word on, and `Zicsr` the SYSTEM instructions. `CsrModel`
has the control registers, `Cpu` the CPU thread and the interrupt check, `Interrupts` the
transparency of interrupts over whole runs, and `ClintModel` the timer. `CachedCpu` runs
programs through the cache, code and data in either alias and peripherals beside it, and proves
that they see flat memory.

## Where the code differs from its evident intent

The model follows the code, and states exactly when it meets the intent.

- `imm_S` does not shift instruction bits 31:25 above bits 11:7 (cpu/rv32-lt/base_isa.h:54-55):
  it agrees with the S format exactly when those bits are zero (`ImmSAgreesIff`), so a store
  reaches its address exactly for offsets 0 to 31 (`StoreOffsetIff`).
- A hit counts twice in `m_hits` (cache/cache.cpp:196 and 147), and a read miss counts once
  there as well: `CountersTrack` has the exact counts. The tick still increases strictly.
- `reset_stats` rewinds the tick (cache/cache.cpp:43-48). Without it the line just used is
  never the next victim (`TouchedIsSafe`, `WrittenIsSafe`). At any time after it, `ReadNext`,
  `WriteNext` and `NextSinceReset` say exactly when it is, and for the first access
  `ReadHitAfterReset`, `WriteHitAfterReset` and `FillAfterReset` do so by the stamps alone;
  `ResetForgetsRecency` gives a run from an empty cache where it is.
- The offset of a HEX record is a 32-bit difference (mem/memory.cpp:298-310), so a record below
  the first data address can land in memory: all such records are dropped exactly for first
  addresses up to 2^32 - SIZE (`DropsBelowIff`, `BelowBaseIff`), and `BelowBaseLands` shows one
  that lands for every larger one.
- Hits and fills leave the caller's delay alone; only a write miss and a bypassed access count
  the time downstream (cache/cache.cpp:193-217).
- A region whose end reaches 2^64 would match no address (interconnect/interconnect.cpp:35-43):
  `ContainsIff`. The system maps none.
- The non-blocking memory path has no bounds check, the blocking one does, in 32 bits
  (mem/memory.cpp:114 against 178): the two agree exactly when that check passes
  (`BlockingAgreesIff`).
- The DMA's 32-bit offset wraps for sizes above 2^32 - 4: the loop ends exactly for the sizes
  up to there (`OffsetLoopEnds`).
- A copy whose destination starts inside the source above its first byte loses source bytes:
  the copy is faithful exactly otherwise, or for a single word (`FaithfulIff`). What the span
  becomes instead is known for every distance (`OverlapRepeats`, `ShortOverlap`).
- `CSR::mret` clears mstatus.MPP, the MRET instruction does not; the CPU uses the latter
  (`MretsDiffer`).

## Model

| member | source | states |
|---|---|---|
| Words.AndLowMask | cache/cache.cpp:65-68 | masking with a power of two minus one is the remainder |
| Words.AndHighMask | cache/cache.cpp:114-141 | masking with the complement rounds down to a multiple |
| Words.HalfWrites | periph/dma/dma.cpp:34-89 | a write to one half of a 64-bit register keeps the other half |
| MemoryModel.DirectBaseIff | mem/memory.h:62-70 | translation is the identity on [0, SIZE) exactly for the bases 0 and SIZE to 2^64 - SIZE |
| MemoryModel.OffsetIs | mem/memory.h:62-70 | an address k above the base, in the 64-bit space, has offset k; outside that window an address below 8 MB is its own offset, every other is past the end |
| MemoryModel.AccessReads | mem/memory.cpp:79-99 | for any request, a read fills exactly the enabled in-range lanes, each from its own location |
| MemoryModel.AccessWrites | mem/memory.cpp:79-99 | for any request, each location holds its last writer's byte, or its old one |
| MemoryModel.StreamingRead | mem/memory.cpp:79-99 | an enabled read byte i is memory at address + (i mod width); nothing else changes |
| MemoryModel.StreamingWrite | mem/memory.cpp:79-99 | a written location holds the last enabled byte of its residue class; nothing else changes |
| MemoryModel.PlainAccess | mem/memory.cpp:79-99 | without streaming and byte enables the loop is one block copy |
| MemoryModel.BlockingIsNonBlocking | mem/memory.cpp:104-130 | in range, blocking and non-blocking access have the same effect |
| MemoryModel.BlockingAgreesIff | mem/memory.cpp:104-130 | the two agree exactly when the blocking path's bound check passes |
| MemoryModel.RefusedIff | mem/memory.cpp:104-130 | the blocking path refuses exactly the accesses that end past memory and do not wrap in 32 bits; a refusal changes nothing |
| MemoryModel.DebugIsNonBlocking | mem/memory.cpp:240-260 | so does debug access, for plain payloads in range |
| MemoryModel.IgnoreDiffers | mem/memory.cpp:240-260 | a debug access that is neither read nor write transfers nothing, the other paths take it for a write |
| MemoryModel.RefreshPenalty | mem/memory.cpp:51-59 | the penalty is what is left of the 70 ns of the refresh cycle, and zero outside it |
| MemoryModel.Memory.AccessMem | mem/memory.cpp:79-99 | the loop in place leaves memory and buffer as the access specification says |
| MemoryModel.Memory.BTransport | mem/memory.cpp:104-130 | memory, buffer and response of the blocking path; its delay is 10 ns and the refresh penalty, and nothing for a refusal |
| MemoryModel.Memory.PeqBeginReq | mem/memory.cpp:166-182 | memory, buffer and response of the BEGIN_REQ callback |
| MemoryModel.Memory.TransportDbg | mem/memory.cpp:240-260 | memory, buffer, response and count of the debug path |
| InterconnectModel.SocMap | main.cpp:99-104 | exactly the two aliases are routed to memory, each at its offset |
| InterconnectModel.SocRouting | main.cpp:92-104 | every 64-bit address is routed as the design's map says: memory at both aliases, the DMA, the display, the FPU and the CLINT each on a port of its own, at the address less the base; nothing else is mapped |
| InterconnectModel.BuildMap | main.cpp:92-104 | the calls that allocate ports and map regions give five distinct ports and that routing |
| InterconnectModel.LookupFirst | interconnect/interconnect.cpp:35-43 | of overlapping regions the first decides |
| InterconnectModel.ContainsIff | interconnect/interconnect.cpp:35-43 | a region holds the addresses from its base on, and none if its end reaches 2^64 |
| InterconnectModel.NonBlockingPathIs | interconnect/interconnect.cpp:82-126 | the non-blocking path delivers the translated request and restores the address |
| InterconnectModel.PathsAgree | interconnect/interconnect.cpp:49-126 | with a direct base and in range, both paths select the same port and offset, leave the same memory, data and response, and restore the address |
| InterconnectModel.DebugPathAgrees | interconnect/interconnect.cpp:210-231 | so does the debug path, for plain payloads |
| InterconnectModel.UnmappedAgree | interconnect/interconnect.cpp:49-96 | all three paths refuse an unmapped address |
| InterconnectModel.ResponsesReachIssuer | interconnect/interconnect.cpp:135-166 | both responses go to the issuer and the absolute address comes back, whatever stale context the payload carried |
| InterconnectModel.Interconnect.FindPort | interconnect/interconnect.cpp:35-43 | the port of the first region that contains the address, or -1 |
| InterconnectModel.Interconnect.BTransport | interconnect/interconnect.cpp:49-74 | the socket called and the address its target sees are those of the routing; translate, forward, restore, with the target's time; an unmapped address changes nothing and takes none |
| InterconnectModel.Interconnect.NbTransportFw | interconnect/interconnect.cpp:82-126 | BEGIN_REQ saves address and port in a new context and translates; a refusal changes nothing |
| InterconnectModel.Interconnect.NbTransportBw | interconnect/interconnect.cpp:135-166 | routes to the recorded port and restores the address on BEGIN_RESP |
| InterconnectModel.Interconnect.TransportDbg | interconnect/interconnect.cpp:210-231 | the debug path in place: the socket called, the address its target sees, the count of bytes transferred |
| HexLoader.StoreLine | mem/memory.cpp:296-320 | the payload loop of a data line, clipped at the end of memory |
| HexLoader.LoadHex | mem/memory.cpp:272-334 | memory, base and entry point after the loop over lines; 0x80000000 and no change for an unreadable file |
| HexLoader.OnlyRecordLines | mem/memory.cpp:288-291 | lines that do not begin with a colon do not matter |
| HexLoader.PaddedLine | mem/memory.cpp:264-270 | a line that ends early reads as if padded with zeros |
| HexLoader.NoDigit | mem/memory.cpp:264-270 | a character that is no hexadecimal digit reads as zero |
| HexImage.ParsesRecord | mem/memory.cpp:264-334 | the text of a record does what the record says, in either case of its digits |
| HexImage.ParsesText | mem/memory.cpp:272-334 | loading the text of a record list is loading the list |
| HexImage.LoadedImage | mem/memory.cpp:272-334 | every location of memory holds the byte of the last record that lands on it, counted modulo 2^32 from the first data address, or its old byte; that address is base and entry point |
| HexImage.LowBaseAsWritten | mem/memory.cpp:298-310 | for a base up to 2^32 - SIZE, each byte of [base, base + SIZE) is what the last covering record gave it, and records below the base are dropped |
| HexImage.DropsBelowIff | mem/memory.cpp:298-310 | records below the first data address are dropped for every record list exactly when that address is at most 2^32 - SIZE |
| HexImage.BelowBaseIff | mem/memory.cpp:298-310 | one record below the base stores nothing exactly when it lies at most 2^32 - SIZE below |
| HexImage.BelowBaseLands | mem/memory.cpp:298-310 | for every larger base, a record list whose record at address zero lands in memory |
| HexImage.FetchOffset | mem/memory.h:62-70 | at a mapped address from base on, memory offset and load offset agree exactly for the stated bases |
| HexImage.RecordsThenFetch | interconnect/interconnect.cpp:49-69 | after loading, an interconnect read returns the loaded bytes |
| HexImage.LoadThenFetch | mem/memory.cpp:272-334 | so it is when the records are loaded from their text |
| CacheIndex.SplitIs | cache/cache.cpp:65-78 | mask, quotient and modulo are remainder, remainder and quotient of the block number |
| CacheIndex.Capacity | cache/cache.h:15-23 | the number of sets is how many whole groups of one line a way fit the size |
| CacheIndex.SplitInjective | cache/cache.cpp:65-78 | tag and set name the block, with the offset the address |
| CacheIndex.SplitSurjective | cache/cache.cpp:65-78 | every triple in bounds is the split of a 64-bit address |
| CacheIndex.BlockInMemory | cache/cache.cpp:114-141 | the line around a memory address stays inside its alias, at the rounded offset |
| CacheOps.FindLine | cache/cache.cpp:80-90 | the way found holds the tag, and if none is found no way does |
| CacheOps.VictimWay | cache/cache.cpp:92-112 | the first invalid way if there is one, else the first of the smallest stamps |
| CacheOps.RelookupSucceeds | cache/cache.cpp:194-217 | the search after a fill always succeeds |
| CacheOps.BypassIsPeripheral | main.cpp:64-65 | the addresses that bypass the cache are exactly those the bus routes to a peripheral |
| CacheModel.Cache.FindLine | cache/cache.cpp:80-90 | the loop returns the first way that holds the tag |
| CacheModel.Cache.VictimWay | cache/cache.cpp:92-112 | the two loops return the first invalid way, else the first of the smallest stamps |
| CacheModel.Cache.AddMmioBypass | cache/cache.cpp:60-63 | afterwards exactly the addresses of the new range, ends included, bypass the cache besides those that did before |
| CacheModel.Cache.IsMmio | cache/cache.cpp:50-58 | whether some bypass range contains the address |
| CacheModel.Cache.FillLine | cache/cache.cpp:114-141 | the way receives memory's block with its own tag and keeps its stamp; memory is unchanged |
| CacheModel.Cache.ReadHit | cache/cache.cpp:143-153 | the bytes of the line, a new stamp and one more hit |
| CacheModel.Cache.WriteHit | cache/cache.cpp:155-168 | line and memory both take the bytes |
| CacheModel.Cache.BTransport | cache/cache.cpp:173-218 | state, memory and buffer after each of the five cases; a read of any kind and a write to a resident byte leave the caller's delay alone, a write to an absent line adds the access below; a bypassed access leaves the lines alone, goes where the bus routes it and costs what it costs there |
| CacheModel.PlainBlockingPath | cache/cache.cpp:114-168 | behind the map, a plain blocking access is a block copy at the physical offset |
| CacheView.FillView | cache/cache.cpp:114-141 | a fill makes the block resident with memory's bytes; other blocks keep their bytes or leave |
| CacheView.ReadView | cache/cache.cpp:194-217 | what a read does to every resident byte |
| CacheView.WriteView | cache/cache.cpp:155-168 | what a write does to every resident byte: a miss does not allocate |
| CacheView.ReadReturns | cache/cache.cpp:143-153 | a read returns the resident bytes of its line |
| Coherence.ModulePerforms | cache/cache.cpp:173-218 | the in-place access path computes the operations the run theorems speak of |
| Coherence.PerformSound | cache/cache.cpp:173-218 | every operation keeps each tag at most once in its set |
| Coherence.StalenessBound | cache/cache.cpp:114-168 | for every interleaving, a cached byte differs from memory only if DMA or the other alias wrote it since the later of its line's fill and the CPU's last write to it |
| Coherence.BesideWriteShows | main.cpp:67-70 | the converse: such a write of another value leaves the cached byte stale |
| Coherence.LoadsFresh | cache/cache.cpp:173-218 | a load returns memory's byte wherever it is not stale |
| Coherence.RefinesFlatMemory | cache/cache.cpp:173-218 | with no foreign writer, and each byte used through one alias, whichever it is, all responses and final memory are those of flat memory |
| Coherence.OneAliasRefines | cache/cache.cpp:173-218 | so it is for accesses that all go through one alias |
| LruStack.InclusionStep | cache/cache.cpp:92-112 | one reference keeps the small list included in the large one |
| LruStack.ResidentIff | cache/cache.cpp:92-112 | a touched line is listed exactly while fewer distinct others than ways were touched since |
| LruRefinement.HitMirrors | cache/cache.cpp:143-168 | stamping a line moves its tag to the front of the recency list |
| LruRefinement.FillMirrors | cache/cache.cpp:92-141 | filling the victim inserts the tag in front and drops the last of a full set |
| LruCache.RunTracks | cache/cache.cpp:173-218 | after any run whose tick stays below 2^32 each set holds its recency list, stamps are distinct and ordered, and misses = misses, hits = 2 * hits + read misses |
| LruCache.Residency | cache/cache.cpp:92-112 | a line ever read or hit is resident exactly while fewer distinct other lines than ways were touched since its last touch |
| LruCache.MoreWaysNeverHurt | cache/cache.cpp:92-112 | more ways hold a superset of the lines and never miss more, on every trace |
| LruCache.TouchedIsSafe | cache/cache.cpp:92-112 | after any run without a reset, the line a read touches is not the next victim of a set with other ways |
| LruCache.WrittenIsSafe | cache/cache.cpp:155-168 | nor is the line a write hit touches |
| LruCache.ReadHitAfterReset | cache/cache.cpp:43-48 | after any run and reset_stats, a read hit makes its line the next victim exactly when the rest of the set is valid and no way in front has stamp 2 |
| LruCache.WriteHitAfterReset | cache/cache.cpp:43-48 | so does a write hit |
| LruCache.FillAfterReset | cache/cache.cpp:43-48 | so does a fill, and in a full set a fill always does |
| LruCache.ReadNext | cache/cache.cpp:92-112 | from any state, over every run whose tick stays below 2^32: the line a read stamps is the next victim exactly when each other way of its set was not stamped in the run, is valid, and has a stamp at or above the new tick, above it in front |
| LruCache.WriteNext | cache/cache.cpp:155-168 | the same of a write hit |
| LruCache.NextSinceReset | cache/cache.cpp:43-48 | the same for every run after reset_stats in any state, by the stamps the reset left |
| LruCache.SmallExists | cache/cache.cpp:12-41 | there is a cache of one set with two ways, and it can be empty |
| LruCache.ResetForgetsRecency | cache/cache.cpp:43-48 | a run from an empty cache after which a reset makes the line just read the next victim, and without it does not |
| PayloadPool.ReturnThenTake | tlm/soc_common.h:26-43 | what is freed is what is allocated next |
| PayloadPool.SoCMM.Allocate | tlm/soc_common.h:26-35 | the last pooled object, or a new one; it leaves the pool and has no references |
| PayloadPool.SoCMM.Free | tlm/soc_common.h:38-43 | the object joins the pool with an incomplete response |
| PayloadPool.SoCMM.Release | tlm/soc_common.h:38-43 | the last reference frees the object, others do not |
| DmaPort.WriteThenRead | periph/dma/dma.cpp:34-89 | a register reads back what was written, no write disturbs another |
| DmaPort.Programmed | tests/c_programs/test_dma.c:40-52 | six register writes program any transfer |
| DmaPort.AtInitiator.BeginWord | periph/dma/dma.cpp:152-175 | the payload leaves with translated address, new context, one reference and the right buffer |
| DmaPort.AtInitiator.NbTransportBw | periph/dma/dma.cpp:108-143 | END_REQ wakes, BEGIN_RESP captures the word, wakes and answers END_RESP |
| DmaPort.AtInitiator.EndWord | periph/dma/dma.cpp:191-201 | one reference is dropped; the object is pooled if it was the last |
| AtProtocol.Hop | interconnect/interconnect.cpp:98-120 | a mapped request leaves with the physical offset and a context naming its issuer |
| AtInvariant.StepInv | mem/memory.cpp:138-214 | every step of every initiator, callback, refresh and clock keeps the invariant |
| AtInvariant.FireBeginReqIs | mem/memory.cpp:166-192 | a BEGIN_REQ callback finds its issuer waiting for END_REQ and changes just that issuer and its payload |
| AtInvariant.FireBeginRespIs | mem/memory.cpp:194-207 | a BEGIN_RESP callback finds its issuer waiting for the response and returns the issued address |
| AtInvariant.FireEndRespIs | mem/memory.cpp:209-213 | memory's release leaves the initiator's reference: nothing is freed there |
| AtInvariant.ReleaseIsLast | periph/dma/dma.cpp:191-199 | the initiator's release is the last one, after all four phases, with nothing pending |
| AtSafety.RunsAreSafe | tlm/soc_common.h:26-43 | over every run of N initiators: references count holders, no pooled payload is pending or held, none is shared, each goes through the four phases in order, and at most N are created |
| AtSafety.FreedOnce | mem/memory.cpp:209-213 | a payload enters the pool exactly when its holder's thread releases it, after all four phases |
| AtSafety.AccessOnlyInsideCall | mem/memory.cpp:166-182 | memory and buffers change only at a BEGIN_REQ callback, and only the buffer of an issuer still inside its call |
| AtSafety.EndReqReachesIssuer | periph/dma/dma.cpp:108-121 | END_REQ reaches the issuer, who is waiting, and nobody else, under recycling, 10 ns and the stall after the request |
| AtSafety.BeginRespReachesIssuer | periph/dma/dma.cpp:123-139 | BEGIN_RESP reaches the issuer, who is waiting, with the original absolute address, 20 ns and the stall after the request |
| AtSafety.StepBounded | tlm/soc_common.h:26-35 | a new payload is created only when fewer than N exist |
| AtSafety.Progress | periph/dma/dma.cpp:175-191 | no reachable state is stuck: something is due, or time can pass |
| AtSafety.WordTime | periph/display/display.cpp:105-135 | a word operation takes 21 ns and its stall |
| AtSafety.RefreshSchedule | mem/memory.cpp:51-74 | in every run memory refreshes during the last 70 ns of each 7870, and a request that finds it so is stalled to their end |
| AtTermination.StepWork | mem/memory.cpp:166-214 | every step but the passing of time leaves less to do at this instant |
| AtTermination.RunLength | periph/dma/dma.cpp:175-198 | the steps of a run up to any time are bounded |
| AtTermination.WordEnds | periph/dma/dma.cpp:175-201 | in every run that goes past its response time, a busy initiator releases its payload: no wake-up is lost |
| AtTermination.WordEndsWithin | periph/display/display.cpp:105-135 | every run of enough steps, whichever they are, contains that release |
| WordCopy.CopyFrame | periph/dma/dma.cpp:254-258 | nothing but the destination changes |
| WordCopy.AscendingCopies | periph/dma/dma.cpp:254-258 | a destination at or below the source, or clear of it, receives the old source |
| WordCopy.OverlapRepeats | periph/dma/dma.cpp:254-258 | with the destination e >= 4 bytes above, byte j of the span becomes old byte j mod e |
| WordCopy.ShortOverlap | periph/dma/dma.cpp:254-258 | with the destination e = 1, 2 or 3 bytes above, destination byte i becomes an old source byte: the i-th, set back by e as often as min(i / 4, (3 - i mod 4) / (4 - e)) |
| WordCopy.WordsRepeat | periph/dma/dma.cpp:254-258 | with the destination d words above, word i becomes old word i mod d |
| WordCopy.OverlapLoses | periph/dma/dma.cpp:254-258 | a memory on which a partial overlap from above loses a byte |
| WordCopy.FaithfulIff | periph/dma/dma.cpp:254-258 | the loop copies every memory faithfully exactly outside that overlap, or for one word at most |
| WordCopy.TransferLoop | periph/dma/dma.cpp:241-264 | the loop in place, with its 32-bit offset, is that function |
| DmaEngine.MoveInv | periph/dma/dma.cpp:241-264 | every move keeps the protocol's invariant and the thread's place in its loop |
| DmaStart.PollStarts | periph/dma/dma.cpp:241-257 | a poll that finds bit 0 of CTRL set and a size that is not zero sends a read of the word at the source address |
| DmaStart.PollFinishes | periph/dma/dma.cpp:241-264 | with size zero it clears CTRL and sends nothing |
| DmaStart.PollIdles | periph/dma/dma.cpp:241-248 | with bit 0 clear it waits for ten more nanoseconds and changes nothing else |
| DmaStart.DriverStarts | tests/c_programs/test_dma.c:40-55 | after a driver's six register writes the next poll sends the first read of the transfer if the CTRL written is odd, and nothing if it is even |
| DmaStart.SilentFromPowerUp | periph/dma/dma.cpp:12-25 | from power-up, whatever else happens, the DMA sends nothing before a register write sets bit 0 of CTRL |
| DmaStart.SilentAfterTransfer | periph/dma/dma.cpp:254-262 | nor after a transfer has ended |
| DmaTiming.EveryTransferTime | periph/dma/dma.cpp:254-261 | from power-up, any transfer, of size zero too, that clears its start bit took exactly 42 ns a word and its stalls, at most 70 ns per window, and met its deadline |
| DmaTiming.TransferTime | periph/dma/dma.cpp:254-261 | the same at the finishing move, with the number of windows bounded |
| DmaTiming.OneStallPerWindow | mem/memory.cpp:138-157 | a refresh window that stalled a request of the transfer stalls no other |
| DmaTiming.BeforeDeadline | mem/memory.cpp:51-74 | every instant of a transfer lies before its deadline |
| DmaTiming.TransferEnds | periph/dma/dma.cpp:254-261 | a transfer under way makes a bounded number of moves |
| DmaTiming.TransferCompletes | periph/dma/dma.cpp:241-264 | from any point of a transfer there is a run of the system alone that ends it |
| DmaTiming.SystemProgress | periph/dma/dma.cpp:241-264 | the system can always make a move, with or without a transfer |
| DmaTiming.OffsetLoopEnds | periph/dma/dma.cpp:254-258 | the offset loop ends exactly for sizes up to 2^32 - 4 |
| DmaCopy.OwnStep | mem/memory.cpp:166-182 | each access of the thread takes effect in its BEGIN_REQ callback |
| DmaCopy.TransferCopies | periph/dma/dma.cpp:254-261 | a region nobody else writes becomes the word-by-word copy, whatever runs beside the transfer |
| DmaCopy.TransferDelivers | periph/dma/dma.cpp:254-261 | so the destination receives the old source and nothing else of the region changes |
| DmaCopy.ReadersRespect | periph/display/display.cpp:105-135 | beside readers such as the display, no protocol step but the thread's touches a region |
| DmaCopy.ExactCopy | periph/dma/dma.cpp:254-261 | with readers only beside it, memory at the end of a transfer is exactly the word-by-word copy |
| SocVisibility.StaysAbsent | cache/cache.cpp:173-218 | only a load of one of its lines brings a range into the cache |
| SocVisibility.TransferDelivered | periph/dma/dma.cpp:241-264 | at the end of a transfer memory has the source and the cache nothing else |
| SocVisibility.PowerUpRuns | main.cpp:51-83 | whatever CPU accesses and hardware moves follow power-up, the invariant the next rows rest on holds |
| SocVisibility.TransferVisible | tests/c_programs/test_dma.c:40-75 | end to end: once a transfer that CTRL bit 0 started has ended, every later CPU load of the destination through the cache, by either alias, returns the old source bytes |
| SocVisibility.VisibleFromPowerUp | tests/c_programs/test_dma.c:22-75 | the same for every transfer after any run from power-up |
| Isa.ShiftsExtend | cpu/rv32-lt/base_isa.h:47-82 | the shift pairs of the decoders are sign extensions |
| Isa.ImmIIsShift | cpu/rv32-lt/base_isa.h:47-50 | the I immediate is the arithmetic shift of the word by 20 |
| Isa.RoundTripI | cpu/rv32-lt/base_isa.h:18-50 | decoding inverts the I encoding for every field and representable immediate |
| Isa.RecodeI | cpu/rv32-lt/base_isa.h:18-50 | every word is the I encoding of what it decodes to |
| Isa.RoundTripR | cpu/rv32-lt/base_isa.h:18-46 | decoding inverts the R encoding |
| Isa.RecodeR | cpu/rv32-lt/base_isa.h:18-46 | every word is the R encoding of what it decodes to |
| Isa.RoundTripB | cpu/rv32-lt/base_isa.h:59-67 | decoding inverts the B encoding |
| Isa.RecodeB | cpu/rv32-lt/base_isa.h:59-67 | every word is the B encoding of what it decodes to |
| Isa.RoundTripU | cpu/rv32-lt/base_isa.h:69-72 | decoding inverts the U encoding |
| Isa.RecodeU | cpu/rv32-lt/base_isa.h:69-72 | every word is the U encoding of what it decodes to |
| Isa.RoundTripJ | cpu/rv32-lt/base_isa.h:74-82 | decoding inverts the J encoding |
| Isa.RecodeJ | cpu/rv32-lt/base_isa.h:74-82 | every word is the J encoding of what it decodes to |
| Isa.RoundTripS | cpu/rv32-lt/base_isa.h:52-57 | the fields of an S word, and the S immediate of the specification, which the next row compares with, invert the S encoding |
| Isa.ImmSAgreesIff | cpu/rv32-lt/base_isa.h:52-57 | the coded S immediate is the specification's exactly when bits 31:25 are zero |
| Isa.StoreOffsetIff | cpu/rv32-lt/base_isa.h:52-57 | a store reaches the address its text names exactly for offsets 0 to 31 |
| Numbers.SumNumber | cpu/rv32-lt/base_isa.h:374-377 | the sum of two words is the sum of their values modulo 2^32 |
| Numbers.DifferenceNumber | cpu/rv32-lt/base_isa.h:378-381 | so is the difference |
| Numbers.LessIff | cpu/rv32-lt/base_isa.h:391-394 | the order of words is that of their values |
| Numbers.SignedLessIff | cpu/rv32-lt/base_isa.h:386-390 | the signed order is that of their two's complement values |
| Numbers.LeftNumber | cpu/rv32-lt/base_isa.h:382-385 | a left shift multiplies by a power of two modulo 2^32 |
| Numbers.RightNumber | cpu/rv32-lt/base_isa.h:399-402 | a logical right shift divides by one |
| Numbers.SarNumber | cpu/rv32-lt/base_isa.h:403-406 | an arithmetic right shift divides the two's complement value, rounding down |
| Numbers.BitwiseNumber | cpu/rv32-lt/base_isa.h:395-414 | an operation on words that works on each bit is the one on numbers that does |
| Rv32i.Comparisons | cpu/rv32-lt/base_isa.h:227-280 | each of the six branches is taken exactly when its comparison of the values, signed or unsigned, holds |
| Rv32i.AluCalculates | cpu/rv32-lt/base_isa.h:335-414 | every operation, register or immediate, gives the value its name promises; an illegal function code gives none |
| Rv32i.ExtendedIs | cpu/rv32-lt/base_isa.h:284-313 | the five loads give the signed or unsigned value of the bytes they name |
| Rv32i.ExecutorIsRv32i | cpu/rv32-lt/base_isa.h:521-680 | for every state and every word outside the SYSTEM opcode, registers, PC and memory after the executor are those the specification's description of the decoded instruction gives |
| Assembly.AssembledIff | cpu/rv32-lt/base_isa.h:18-82 | for every encodable instruction, decoding inverts assembling exactly unless it is a store with an offset outside 0 to 31 |
| Assembly.AssembledRuns | cpu/rv32-lt/base_isa.h:198-680 | executing the word of any other encodable instruction performs the instruction |
| Assembly.ThreadPerforms | cpu/rv32-lt/core.cpp:78-114 | one iteration of the CPU thread, with no interrupt due, performs the instruction whose word lies at the PC |
| Execute.StoreThenLoad | cpu/rv32-lt/core.cpp:216-301 | a stored value is what a load of that size and place returns |
| Execute.StoreThenLoadWord | cpu/rv32-lt/base_isa.h:284-331 | a word load returns the word last stored at its memory address |
| Execute.ZeroKept | cpu/rv32-lt/registers.h:51-57 | no instruction changes x0 |
| Execute.IndexIsNumber | cpu/rv32-lt/registers.h:44-57 | five-bit fields name the registers one to one, field 0 is x0 |
| CachedCpu.ReturnsMemory | cpu/rv32-lt/core.cpp:216-259 | a read through a cache that agrees with memory returns memory's bytes |
| CachedCpu.ProgramMatches | cpu/rv32-lt/core.cpp:88-114 | a program whose accesses to memory each lie inside a line, and which uses each byte through one alias (code and data may use different ones), has the same registers, PC and memory through the cache as on flat memory, after every number of instructions and whatever the peripherals return |
| CachedCpu.ProgramMatchesFromEmpty | main.cpp:51-68 | so has every such program that starts with an empty cache |
| CachedCpu.FlatRunIsPlain | cpu/rv32-lt/core.cpp:88-114 | that run is the uninterrupted run of the interrupt theorems |
| CachedCpu.ProgramIsTrace | cpu/rv32-lt/core.cpp:88-301 | whatever program runs, cache and memory are those of its sequence of fetches, loads and stores, of which the theorems about staleness and replacement speak |
| Execute.LuiAddi | cpu/rv32-lt/base_isa.h:521-603 | LUI then ADDI with rounded upper and signed lower part yields every constant in any register but x0, and changes nothing else |
| CsrModel.OwnWrite | cpu/rv32-lt/csr.h:62-116 | a write changes exactly the writable bits of its own register, none of mcause |
| CsrModel.OthersKept | cpu/rv32-lt/csr.h:62-116 | a write leaves every other register |
| CsrModel.Addresses | cpu/rv32-lt/csr.h:27-34 | which register each address names; every other reads zero |
| CsrModel.TrapThenMret | cpu/rv32-lt/csr.h:131-141 | trap entry disables interrupts and remembers them, MRET restores them |
| CsrModel.MretsDiffer | cpu/rv32-lt/csr.h:145-153 | the class's own return differs from the instruction's in MPP only |
| CsrModel.Csr.Read | cpu/rv32-lt/csr.h:62-76 | the register at an address, zero elsewhere |
| CsrModel.Csr.Write | cpu/rv32-lt/csr.h:79-116 | only the writable bits of the addressed register change |
| CsrModel.Csr.UpdateExternalIp | cpu/rv32-lt/csr.h:121-127 | the three pending bits equal the platform's, every other bit and register stays |
| CsrModel.Csr.TakeTrap | cpu/rv32-lt/csr.h:131-141 | MIE is clear and MPIE was MIE, MPP is machine mode, other status bits stay; mepc is the PC and mcause names cause and kind |
| CsrModel.Csr.Mret | cpu/rv32-lt/csr.h:145-153 | the PC is mepc; MIE was MPIE, MPIE is set, MPP is clear, other status bits stay |
| Cpu.Registers.SetValue | cpu/rv32-lt/registers.h:51-57 | x0 stays zero, and a write to it or to no register changes nothing |
| Cpu.Registers.GetValue | cpu/rv32-lt/registers.h:44-49 | x0 reads zero, a number that names no register reads all ones, any other its register |
| Cpu.CausePriority | cpu/rv32-lt/core.cpp:133-147 | the cause taken is active, and nothing of higher priority (external, software, timer) is |
| Cpu.TakenIs | cpu/rv32-lt/core.cpp:116-147 | a trap is taken exactly when mstatus bit 3 is set and one of bits 3, 7 and 11 is set in both pending and mie; it is the first of 11, 3, 7 |
| Cpu.CheckedIs | cpu/rv32-lt/core.cpp:116-159 | control registers and PC after the check, by bits: the handler's PC is the base of mtvec, plus four times the cause exactly in mode 1; without a trap only the pending bits change |
| Cpu.Hart.CheckPending | cpu/rv32-lt/core.cpp:116-159 | the check in place does exactly that |
| Zicsr.CsrInstructionIs | cpu/rv32-lt/base_isa.h:425-490 | each of the six CSR instructions puts the old value into rd, moves the PC on, and changes the writable bits of its one register as its name says; nothing else changes |
| Zicsr.MretIs | cpu/rv32-lt/base_isa.h:492-508 | MRET goes to mepc; mstatus bit 3 becomes what bit 7 was, bit 7 is set, the rest stays |
| Zicsr.EcallIs | cpu/rv32-lt/base_isa.h:510-517 | ECALL stops the simulation and changes nothing else |
| Zicsr.OtherIs | cpu/rv32-lt/base_isa.h:680-705 | any other word of the opcode with function code 0 or 4 is skipped |
| Interrupts.NoneTaken | cpu/rv32-lt/core.cpp:116-132 | with MIE clear no interrupt is taken |
| Interrupts.EntersHandler | cpu/rv32-lt/core.cpp:146-158 | a trap establishes the handler's part of the invariant |
| Interrupts.MretRestores | cpu/rv32-lt/base_isa.h:492-508 | MRET restores the interrupted program, PC included, and turns interrupts on |
| Interrupts.RunTransparent | cpu/rv32-lt/core.cpp:88-159 | over every run with courteous handlers, the main program is where its own instructions alone would have taken it |
| Interrupts.MainUnaffected | cpu/rv32-lt/core.cpp:88-159 | from any running machine: the projection onto the main program is its plain run, MIE is restored outside handlers, no second trap is taken inside |
| Interrupts.ProgramUnaffected | cpu/rv32-lt/core.cpp:88-159 | the same on the simulator's instructions, for a main program without SYSTEM instructions whose loads and stores stay in memory |
| Interrupts.TimerTaken | periph/clint/clint.cpp:28-36 | with interrupts on and the timer enabled, the trap taken n ticks later is the timer's exactly from tick mtimecmp - mtime on |
| ClintModel.BothHalves | periph/clint/clint.cpp:70-86 | writing both halves in either order stores the value |
| ClintModel.WriteThenRead | periph/clint/clint.cpp:38-94 | a register reads back what was written, no write disturbs another |
| ClintModel.RegisterMap | periph/clint/clint.cpp:38-94 | the addresses of msip and of the halves of mtimecmp and mtime; every other is refused |
| ClintModel.PendingBits | periph/clint/clint.cpp:28-36 | the timer bit is set exactly when mtime has reached mtimecmp, the software bit exactly when msip is not zero |
| ClintModel.FiresOnTime | periph/clint/clint.cpp:104-111 | the timer interrupt becomes pending at tick mtimecmp - mtime and not before |
| ClintModel.SafeReprogram | periph/clint/clint.cpp:70-77 | the three-write sequence sets a new compare value with no spurious interrupt |
| ClintModel.Clint.InterruptPending | periph/clint/clint.cpp:28-36 | the pending bits in place |
| ClintModel.Clint.WriteRegister | periph/clint/clint.cpp:61-94 | the whole state and the response after a register write |

## Left out

- The SystemC kernel, sockets, events and the event-queue library: the step system of
  `AtProtocol` replaces them; it lets due steps of one instant come in any order.
- Separate read and write buffers of an initiator: one word buffer stands for both, since a DMA
  write sends the word its read just filled.
- The upstream port numbers of main.cpp: an initiator's index is its port number, the DMA's is 0.
- Unmapped addresses on the non-blocking path: initiators issue to memory only.
- Peripherals other than the DMA, the CLINT and memory: behind the interconnect they may change
  response and buffer in any way, and nothing else. The DMA's and the CLINT's registers are
  functions of the offset and the 32-bit value; their 1 ns access time is not modelled.
- A hart without a CLINT, whose interrupt check does nothing: main.cpp always connects one.
- Temporal decoupling (the quantum keeper) and direct memory access: scheduling and a shortcut
  with no effect on the properties proved; the shipped cache offers no direct access.
- The wrap-around of the 64-bit hit and miss counters: the 32-bit stamp is exact in any case.
- Malformed HEX text with characters past the end of a line reads as the terminator; checksums
  are not checked by the source either.
- Executor.execute is modelled on values (`Execute.Run`, `Cpu.Step`), not in place; in-place
  update is modelled for the register file, the control registers and the interrupt check.
- Interrupts.ProgramUnaffected: memory changes by the CPU's own stores alone; a handler that
  starts a DMA transfer is outside it.
- CachedCpu.ProgramMatches: memory changes by the CPU's own stores alone; a store that starts a
  DMA transfer belongs to `SocVisibility`.
- Illegal instructions are reported and skipped, as in the source; fetching from outside memory,
  which stops the simulation, is not modelled as a stop.
- The refresh thread and the transfer thread are steps of the system rather than loops with
  waits; `WordCopy.TransferLoop` is the transfer's loop without what runs beside it.
- The FPU, ELF loading, display output, the AXI4 extension, printing and statistics.
- Host endianness: words are little-endian.
