# A verified model of the core descriptions' protocol machines

The repository describes hardware cores. Its hand-written parts are a few state machines in
Verilog, C and C++ that carry protocol obligations. This project models those parts in Dafny
and proves what each of them is for, over every run, every input or every interleaving with
the other side.

| module | what it models |
|---|---|
| `Common` | the option type, byte lanes and a sequence lemma that several models share |
| `Arith` | division facts the address arithmetic needs |
| `WbBurst` | burst address successors of the BFM, the bridge and `wb_common` |
| `BurstBridge` | the Wishbone-to-Avalon bridge with burst support, against an arbitrary in-order slave |
| `BurstOracle` | the self-checking burst transaction of the bus functional model |
| `Crc` | the debug link CRC-32 and the shift loops around it |
| `RspPacket` | packet framing of the GDB remote serial protocol |
| `Matchpoints` | the chained hash table and software breakpoints |
| `NpcCache` | the NPC cache in front of a core that forgets its NPC |
| `DebugPipes` | the two processes and three pipes between the GDB server and the simulator |
| `PipeRuns` | whole runs of that protocol, and exactly which calls it is safe for |
| `VpiSide` | the simulator's reading code, checked against that protocol |
| `ChainCache` | the cached scan-chain selection |
| `BurstRam` | the Wishbone B3 burst RAM against a flat memory |
| `AxiMemory` | the AXI memory under arbitrary delay and async bits |
| `Ps2` | the PS/2 UART with its debouncer and watchdog |
| `JtagScan` | the resumable JTAG scan loop |
| `Interconnect` | the interconnect generator's masks and port order with the bus multiplexer |

Clocked Verilog is a step on a record of registers: combinational values are settled,
nonblocking assignments are simultaneous, blocking ones in order. The environment (the other
bus side, the other process, the wires) is a sequence of arbitrary inputs, restricted only by
what its protocol demands. C code with linked nodes, buffers and globals is classes, arrays and
loops, each tied to a specification function by its `ensures`; lemmas about those functions
state the protocol's promises.

Addresses of 32 bits are numbers below 2^32 with explicit wrap-around; 4-bit counters wrap
modulo 16; registers that are shifted or summed bit by bit are sequences of booleans with
bit 0 first (the CRC registers, the PS/2 shift register, the JTAG bytes).

## Where the code falls short of its promise

Each of these is proved with its exact condition.

- The bridge hangs in FLUSH_PIPE until reset if and only if the slave waits in the first drain
  cycle, when the request that is still asserted is dropped but stays counted
  (`StuckIffDropped`, `DroppedRequestExists`).
- The expected-data loop is right for linear bursts exactly up to the size of the address space
  (`PassesIffNoRoundTrip`); `adr_range` loses a length equal to the size of its length field
  (`LinearRangeCovers`).
- Cycle-step packets make the main loop drop the NPC cache of a core that never ran. The NPC
  reported is then zero until the register is written again, so it is right exactly if it was not
  written before in the stall period or zero is the expected address (`NpcIsAsExpected`,
  `WrongNpcExists`, `ZeroIsNotWritten`).
- A block larger than `data_storage` breaks the pipe protocol, and only that does: a written one
  stays in the pipe for the next call to read as its own, a read one leaves both processes waiting
  (`DisciplinedIffBlocksFit`, `LargeWriteStays`, `LargeReadBlocks`). `get_block_data_from_vpi`
  passes the same address to every read, so a block is right exactly if one read delivers it
  (`RepliesDelivered`, `ReplyCanBeSplit`). The tail of a block that is not made of whole words is
  dropped (`StoredIffWholeWords`).
- `put_packet` escapes into a buffer of fixed size without checking it; it is overrun exactly by
  payloads whose length and escapes exceed 558 (`OverrunsIffTooManyEscapes`).
- `dbg_cpu0_write_ctrl` passes `data & 2` to a function that keeps bit 0, so a reset request is
  never sent (`ResetBitIsLost`).
- The RAM looks at the burst tags while the strobe is low, when a master may drive anything: if
  the wait cycles directly after a beat of an incrementing burst all carry a tag other than 001,
  010 and 111, that is a classic or a reserved one, and a further beat that is not the last
  follows, the beat after it is refused; otherwise every access is served (`ServedIffTagsKept`,
  `DroppedTagsExist`).
- The generated masks are right exactly for power-of-two sizes with aligned offsets
  (`MaskDecodesRange`); `ff1` takes a 32-bit integer, so slaves on port 32 and above are never
  selected and hang their master (`DecodeReachesSlave`, `PortsPast32Hang`).
- With a zero clock period a JTAG scan ends without clocking anything (`ZeroPeriodScan`, `PeriodNeeded`).

The comment at `cores/jp_vpi/c/gdb.c:1512` lists three escaped characters and speaks of oring
with 0x20; the code escapes four and flips the bit, which the model follows. `hex` returns -1
for a character that is no digit, and the checksum is computed from that all the same, as in
the code. The comment at `cores/jp_vpi/c/gdb.c:972` calls `i` an instruction step; the code
stops at once, and the model follows it.

## Model

| member | source | states |
|---|---|---|
| BurstBridge.ClockKeepsAccount | cores/wb_avalon_bridge/verilog/wb_to_avalon_bridge.v:111-205 | in every reachable state and for every behaviour of master and slave, outstanding reads equal `pending_reads` until the last request is accepted and one more after it; the hung drain is entered by a dropped request and by nothing else |
| BurstBridge.RunAccounting | cores/wb_avalon_bridge/verilog/wb_to_avalon_bridge.v:111-205 | the same over whole runs from reset; IDLE is only re-entered with nothing outstanding |
| BurstBridge.CountersDoNotWrap | cores/wb_avalon_bridge/verilog/wb_to_avalon_bridge.v:163-168 | `pending_reads` and `reads_left` move by exactly the reads accepted and returned, so neither 4-bit counter wraps before exit |
| BurstBridge.DrainEndsWithLastRead | cores/wb_avalon_bridge/verilog/wb_to_avalon_bridge.v:185-191 | a drain that lost no request returns to IDLE exactly when the last outstanding read comes back |
| BurstBridge.StuckIffDropped | cores/wb_avalon_bridge/verilog/wb_to_avalon_bridge.v:171-191 | FLUSH_PIPE hangs if and only if the slave waits in the first drain cycle while `read_req` is still up, with no reset since |
| BurstBridge.StuckNeverAcks | cores/wb_avalon_bridge/verilog/wb_to_avalon_bridge.v:185-212 | a hung bridge acknowledges nothing and requests nothing until reset |
| BurstBridge.DroppedRequestExists | cores/wb_avalon_bridge/verilog/wb_to_avalon_bridge.v:179-191 | a concrete run of three clocks that loses a request |
| BurstBridge.BurstDelivers | cores/wb_avalon_bridge/verilog/wb_to_avalon_bridge.v:99-212 | under every waitrequest/readdatavalid pattern a held burst gets exactly 4/8/8/16 acknowledges, the k-th carrying the slave's word for the k-th wrap successor, and the bridge is in IDLE with nothing outstanding exactly when all are given |
| BurstBridge.ProductiveCycleProgresses | cores/wb_avalon_bridge/verilog/wb_to_avalon_bridge.v:148-183 | each cycle in which the slave accepts or answers moves the burst on; a burst takes exactly two such events per beat |
| BurstBridge.SingleReadAcked | cores/wb_avalon_bridge/verilog/wb_to_avalon_bridge.v:111-212 | from any idle state of any run, a held read that is no incrementing burst is asked for until accepted and not again, and exactly one cycle acknowledges it: the one in which its word returns |
| BurstBridge.UnansweredReadNotAcked | cores/wb_avalon_bridge/verilog/wb_to_avalon_bridge.v:207-212 | while its word is not there no cycle acknowledges it |
| BurstBridge.SingleWriteAcked | cores/wb_avalon_bridge/verilog/wb_to_avalon_bridge.v:111-212 | from any idle state of any run, a held write is driven until accepted and not again, and exactly one cycle acknowledges it: the one after its acceptance |
| BurstBridge.WaitingWriteNotAcked | cores/wb_avalon_bridge/verilog/wb_to_avalon_bridge.v:207-212 | while the slave waits no cycle acknowledges it |
| WbBurst.WrapClosedForm | cores/wb_bfm/wb_bfm-0/wb_bfm_common.v:36-38 | the k-th wrap successor is the start block plus the stepped offset in it |
| WbBurst.WrapStaysInBlock | cores/wb_bfm/wb_bfm-0/wb_bfm_common.v:36-38 | a wrapping burst never leaves its aligned block |
| WbBurst.WrapOrder | cores/wb_bfm/wb_bfm-0/wb_bfm_common.v:36-38 | the wrap successor has order exactly 4, 8 or 16 |
| WbBurst.LinearOrder | cores/wb_bfm/wb_bfm-0/wb_bfm_common.v:35 | a linear burst revisits an address only after the whole address space |
| WbBurst.NextAddrAgreement | cores/wb_common/wb_common.v:22-42 | `wb_next_adr` on word addresses is `next_addr` of the BFM and of the bridge on every word-aligned 32-bit address |
| BurstOracle.LastWriteWins | cores/wb_bfm/wb_bfm-0/wb_bfm_transactor.v:150-155 | after a write burst a flat memory holds, at each beat's address, the data of the last beat congruent to it |
| BurstOracle.OthersUntouched | cores/wb_bfm/wb_bfm-0/wb_bfm_master.v:71-111 | a write burst leaves every address outside its beats as it was |
| BurstOracle.WriteBurst | cores/wb_bfm/wb_bfm-0/wb_bfm_master.v:71-111 | the write burst against a flat memory stores every beat at its iterated address |
| BurstOracle.ReadBurst | cores/wb_bfm/wb_bfm-0/wb_bfm_master.v:113-154 | the read burst returns what the flat memory holds at the iterated addresses |
| BurstOracle.ExpectedData | cores/wb_bfm/wb_bfm-0/wb_bfm_transactor.v:162-170 | the expected-data loop computes the last congruent beat for every word |
| BurstOracle.OracleIsExact | cores/wb_bfm/wb_bfm-0/wb_bfm_transactor.v:141-170 | the loop predicts the beat that wrote each word last if and only if the burst is not linear or is no longer than the address space |
| BurstOracle.PassesIffNoRoundTrip | cores/wb_bfm/wb_bfm-0/wb_bfm_transactor.v:141-179 | the comparison finds no difference for all data if and only if the burst is not linear or is no longer than the address space |
| BurstOracle.Transaction | cores/wb_bfm/wb_bfm-0/wb_bfm_transactor.v:126-181 | write burst, read burst and comparison report exactly whether the prediction equals what the flat memory returns |
| BurstOracle.WrapRangeCovers | cores/wb_bfm/wb_bfm-0/wb_bfm_transactor.v:75-86 | `adr_range` of a wrapping burst covers every beat, whatever the length |
| BurstOracle.LinearRangeCovers | cores/wb_bfm/wb_bfm-0/wb_bfm_transactor.v:60-74 | `adr_range` of a linear burst covers it if and only if its length survives the `$clog2(MAX_BURST_LEN)`-bit field (or it starts at 0) |
| BurstOracle.RangeIsTight | cores/wb_bfm/wb_bfm-0/wb_bfm_transactor.v:60-96 | the range of a linear burst whose length survives, and of a constant one, is exactly the bytes of its words |
| Crc.CalculateCrcIsStep | cores/jp_vpi/verilog/vpi_debug_module.v:1638-1713 | the 32 unrolled assignments of both registers are the generator step |
| Crc.CrcCalcIsCalculateCrc | cores/jp_vpi/c/rsp-rtl_sim.c:71-77 | the C step, with its 28-bit masks, is the same function as the Verilog update |
| Crc.PolyIsConstant | cores/jp_vpi/c/rsp-rtl_sim.c:71-77 | the taps of the unrolled update spell the C generator constant |
| Crc.FeedLinear | cores/jp_vpi/verilog/vpi_debug_module.v:1638-1675 | feeding bits is linear over exclusive or |
| Crc.FeedInjective | cores/jp_vpi/verilog/vpi_debug_module.v:1638-1675 | different registers stay different under the same bits |
| Crc.BurstErrorsDetected | cores/jp_vpi/verilog/vpi_debug_module.v:1638-1713 | equal-length messages that differ only inside a window of at most 32 bits never share a CRC |
| Crc.LeadingZeroSeen | cores/jp_vpi/verilog/vpi_debug_module.v:925-974 | a zero bit in front of a message changes its CRC if and only if the seed is not clear, and with the seed of all ones it does |
| Crc.TrailerMatch | cores/jp_vpi/verilog/vpi_debug_module.v:1678-1715 | after any message and 32-bit trailer the incoming register is zero if and only if the trailer is the message's CRC, most significant bit first |
| Crc.ShiftOutPayload | cores/jp_vpi/verilog/vpi_debug_module.v:944-963 | the payload loop drives the storage words from their top bits and keeps the running CRC |
| Crc.PayloadBit | cores/jp_vpi/verilog/vpi_debug_module.v:944-963 | bit r of a transfer's word q is bit 31 - r of the stored word |
| Crc.ShiftOutCrc | cores/jp_vpi/verilog/vpi_debug_module.v:965-974 | the CRC leaves from bit 31 down to bit 0 |
| Crc.ShiftOut | cores/jp_vpi/verilog/vpi_debug_module.v:923-974 | the write half drives header, payload and the CRC of both, which any receiver's register cancels to zero |
| Crc.ShiftIn | cores/jp_vpi/verilog/vpi_debug_module.v:1010-1040 | the read loop packs the bits into `data_storage` words, with a left-over word at the end and nothing else touched |
| Crc.ShiftRoundTrip | cores/jp_vpi/verilog/vpi_debug_module.v:944-1040 | of what the write loop drives, in any number of bytes, the read loop stores every whole word as it was and the top bytes of a left-over word in its low bytes |
| RspPacket.RspClient.PutPacket | cores/jp_vpi/c/gdb.c:1108-1164 | sends copies of the escaped, checksummed frame until acknowledged or the connection fails; a frame longer than the local buffer is reported, and only such a one |
| RspPacket.RspClient.BuildFrame | cores/jp_vpi/c/gdb.c:1116-1151 | the loop that escapes and sums the payload builds exactly the frame, and runs behind its buffer if and only if the frame is longer |
| RspPacket.FrameSums | cores/jp_vpi/c/gdb.c:1119-1151 | the two digits of a frame, in lower case, spell a number congruent modulo 256 to the plain sum of its escaped body |
| RspPacket.KnownFrames | cores/jp_vpi/c/gdb.c:1108-1164 | "OK" goes out as $OK#9a and the empty packet as $#00 |
| RspPacket.EscapeTable | cores/jp_vpi/c/gdb.c:1135-1145 | which byte follows '}' for each of the four escaped characters, and that no other one is escaped |
| RspPacket.OverrunsIffTooManyEscapes | cores/jp_vpi/c/gdb.c:1111-1151 | a payload overruns the buffer if and only if its length and its number of escapes exceed 558; never up to 279 bytes |
| RspPacket.HashesOverrun | cores/jp_vpi/c/gdb.c:1111-1151 | at every greater length some payload does |
| RspPacket.RspClient.GetPacket | cores/jp_vpi/c/gdb.c:1211-1328 | the nested reading loops compute the receiver automaton: packet, acknowledgements sent and input left unread, with the body in the buffer |
| RspPacket.AcceptedIffSumMatches | cores/jp_vpi/c/gdb.c:1217-1327 | a frame is accepted with '+' if and only if the plain sum of its body is congruent modulo 256 to the number its digits spell, and answered with '-' otherwise |
| RspPacket.KnownRequest | cores/jp_vpi/c/gdb.c:1217-1327 | $?#3f is accepted |
| RspPacket.HexTable | cores/jp_vpi/c/gdb.c:1703-1709 | digits are written in lower case and read in either |
| RspPacket.RspUnescape | cores/jp_vpi/c/gdb.c:1520-1546 | unescaping in place gives the decoded bytes of the original buffer: the read index never falls behind the write index |
| RspPacket.FlipsBit5 | cores/jp_vpi/c/gdb.c:1532-1536 | unescaping changes bit 5 of the byte behind '}' and nothing else |
| RspPacket.UnescapeEscape | cores/jp_vpi/c/gdb.c:1520-1546 | unescaping undoes escaping |
| RspPacket.FramingRoundTrip | cores/jp_vpi/c/gdb.c:1108-1328 | behind any noise `get_packet` accepts the frame `put_packet` built and hands back the escaped body, which unescapes to the payload |
| RspPacket.Resynchronises | cores/jp_vpi/c/gdb.c:1217-1327 | for every split of the input into garbage, restarts, oversized and corrupt frames: one '-' per rejected frame, one '+' on the returned one, whose body is clean, short enough and sums to its trailer |
| RspPacket.EveryInputSplits | cores/jp_vpi/c/gdb.c:1217-1327 | every finite input has such a split, so `get_packet` is determined on all of them |
| Matchpoints.AddRefinesMap | cores/jp_vpi/c/gdb.c:1580-1606 | adding refines a map keyed by type and address and keeps an existing entry |
| Matchpoints.DeleteRefinesMap | cores/jp_vpi/c/gdb.c:1658-1690 | deleting removes exactly the one entry of its key |
| Matchpoints.MpHash.constructor | cores/jp_vpi/c/gdb.c:1555-1564 | all chains empty |
| Matchpoints.MpHash.MpHashAdd | cores/jp_vpi/c/gdb.c:1580-1606 | the linked-list code computes the table's `Add`; chains stay acyclic, disjoint, hashed by `addr % 1021` and free of duplicates |
| Matchpoints.ChainsByHash | cores/jp_vpi/c/gdb.c:1580-1606 | spelled out: chain i holds addresses that are i modulo 1021, and no key is held twice |
| Matchpoints.MpHash.MpHashLookup | cores/jp_vpi/c/gdb.c:1622-1636 | finds the entry of its key if there is one |
| Matchpoints.MpHash.MpHashDelete | cores/jp_vpi/c/gdb.c:1658-1690 | unlinks exactly one node and returns it |
| Matchpoints.BreakpointsTransparent | cores/jp_vpi/c/gdb.c:3721-3872 | over every sequence of Z0/z0 requests memory is the original overlaid with the trap word exactly on the live set, each entry holds the original word, and removing all restores memory |
| Matchpoints.LiveIffInserted | cores/jp_vpi/c/gdb.c:3721-3872 | a breakpoint is live if and only if it was inserted and not removed since |
| Matchpoints.TrapsInMemory | cores/jp_vpi/c/gdb.c:3864-3866 | memory itself holds the trap word at every live breakpoint |
| Matchpoints.GdbStub.RspInsertMatchpoint | cores/jp_vpi/c/gdb.c:3850-3872 | reads, records and patches the word |
| Matchpoints.GdbStub.RspRemoveMatchpoint | cores/jp_vpi/c/gdb.c:3721-3748 | restores the recorded word, or does nothing for an absent entry |
| NpcCache.Gdb.GetNpc | cores/jp_vpi/c/gdb.c:1885-1924 | reads the register once per stall period and answers from the cache after that |
| NpcCache.Gdb.SetNpc | cores/jp_vpi/c/gdb.c:1841-1870 | writes only a changed address, and caches it while stalled |
| NpcCache.Gdb.SetStallState | cores/jp_vpi/c/gdb.c:4135-4156 | an unstall drops the cache |
| NpcCache.Gdb.RspCheckForException | cores/jp_vpi/c/gdb.c:583-600 | a stalled core drops the cache |
| NpcCache.InitialConsistent | cores/jp_vpi/c/gdb.c:461-485 | after initialisation the NPC reported is where the core is held |
| NpcCache.NpcIsAsExpected | cores/jp_vpi/c/gdb.c:499-577 | over every run, with cycle-step packets anywhere, the NPC reported is the last one set in the stall period, or else where it began, if and only if no cycle step was answered since the register was last written in the period or the address is zero; no cached value survives an unstall |
| NpcCache.NpcRightWithoutCycleSteps | cores/jp_vpi/c/gdb.c:499-577 | over every run from initialisation without cycle-step packets every reported NPC is the expected one, although the register reads as zero after a write |
| NpcCache.GetIsIdempotent | cores/jp_vpi/c/gdb.c:1885-1924 | reading the NPC does not change what later reads return |
| NpcCache.SetReported | cores/jp_vpi/c/gdb.c:1841-1870 | a set address is reported at once |
| NpcCache.StopReported | cores/jp_vpi/c/gdb.c:507-552 | a core that is interrupted or found stopped is reported where it is, one at a breakpoint at the breakpoint |
| NpcCache.ContinueResumes | cores/jp_vpi/c/gdb.c:2027-2053 | continuing lets the core run, from the address given if and only if it is not the zero that a dropped cache reports while the core is elsewhere |
| NpcCache.WrongNpcExists | cores/jp_vpi/c/gdb.c:973-985 | a run from initialisation after which a set address is reported as zero |
| NpcCache.ZeroIsNotWritten | cores/jp_vpi/c/gdb.c:1841-1870 | once the cache is dropped, setting zero writes nothing and the core goes on from where it was |
| DebugPipes.SentIsUnderstood | cores/jp_vpi/c/rsp-rtl_sim.c:89-165 | every field is read in the role it was sent in; of a block the whole words |
| DebugPipes.FieldsOnThePipe | cores/jp_vpi/c/rsp-rtl_sim.c:110-165 | for each call the words on the pipe, in order: address, length or size, then data |
| DebugPipes.LowByteFirst | cores/jp_vpi/c/rsp-rtl_sim.c:119-137 | words go over a pipe low byte first |
| DebugPipes.LargestBlocks | cores/jp_vpi/c/jp_vpi.c:648-655 | blocks of up to 4096 words and a tail fit |
| DebugPipes.ReplySizes | cores/jp_vpi/verilog/vpi_debug_module.v:290-361 | how much the simulator answers to each call that fits: a word, a byte, a block or nothing |
| DebugPipes.StoredIffWholeWords | cores/jp_vpi/c/jp_vpi.c:624-688 | nothing of a call is dropped if and only if its block is made of whole words |
| DebugPipes.NextReadFollowsSent | cores/jp_vpi/verilog/vpi_debug_module.v:271-361 | the simulator reads a call's bytes piece by piece, all of them and no more |
| DebugPipes.StepKeepsInv | cores/jp_vpi/verilog/vpi_debug_module.v:257-378 | every step of either process keeps the conversation invariant; the server's buffer takes each read of a block at its start |
| DebugPipes.NeverBothBlocked | cores/jp_vpi/c/rsp-rtl_sim.c:89-600 | while calls remain, one of the two processes can go on |
| DebugPipes.RunsAreBounded | cores/jp_vpi/c/rsp-rtl_sim.c:89-600 | every interleaving ends |
| PipeRuns.ProtocolSafety | cores/jp_vpi/verilog/vpi_debug_module.v:257-378 | for every call sequence whose blocks fit and every interleaving: calls are carried out in order as sent, every byte of a reply is read and none beyond it, all three pipes are empty after each response, and the run is finite and stops only when every call is answered |
| PipeRuns.DisciplinedIffBlocksFit | cores/jp_vpi/c/jp_vpi.c:648-655 | this discipline holds in every run of a call sequence if and only if every block fits `data_storage`; a read of 2^31 bytes or more counts as a read of nothing, as in the receive loop |
| PipeRuns.LargeWriteStays | cores/jp_vpi/c/jp_vpi.c:648-655 | after a block too large to store, the call ends with the whole block left in the pipe |
| PipeRuns.LargeReadBlocks | cores/jp_vpi/c/jp_vpi.c:828-848 | a block too large to return, of less than 2^31 bytes, leaves both processes waiting for good |
| PipeRuns.RepliesDelivered | cores/jp_vpi/c/rsp-rtl_sim.c:167-266 | over every run a finished call's buffer holds the reply of its own execution, whatever it held before, if and only if at most one read fetched it, as always for a word or a byte |
| PipeRuns.ReplyCanBeSplit | cores/jp_vpi/c/rsp-rtl_sim.c:209-232 | for every block of two bytes or more whose reply becomes visible in two parts, with a read between them, the buffer is wrong |
| DebugPipes.GetBlockDataFromVpi | cores/jp_vpi/c/rsp-rtl_sim.c:209-232 | the receive loop lands every piece at the start of the buffer |
| DebugPipes.BlockDataArrivesIffOneRead | cores/jp_vpi/c/rsp-rtl_sim.c:225-232 | the caller gets its block, whatever its buffer held, if and only if one read delivers all of it |
| VpiSide.Vpi.GetWord | cores/jp_vpi/c/jp_vpi.c:482-588 | reads one word, which the protocol expects there |
| VpiSide.Vpi.GetCommandBlockData | cores/jp_vpi/c/jp_vpi.c:591-695 | stores the whole words of a block, reads off a shorter tail, and reads nothing of a block beyond the storage; every read is the one the protocol's schedule has next |
| VpiSide.Vpi.GetArguments | cores/jp_vpi/verilog/vpi_debug_module.v:271-361 | the fetches of the case statement consume exactly the call's bytes and leave the call with its whole words |
| ChainCache.RtlSim.DbgReset | cores/jp_vpi/c/rsp-rtl_sim.c:281-315 | reset forgets the cached chain |
| ChainCache.RtlSim.DbgSetChain | cores/jp_vpi/c/rsp-rtl_sim.c:340-361 | a redundant selection sends nothing |
| ChainCache.RtlSim.DbgWb | cores/jp_vpi/c/rsp-rtl_sim.c:415-557 | each Wishbone access is preceded by the selection it needs, keeping the cache in agreement |
| ChainCache.RtlSim.DbgCpu0 | cores/jp_vpi/c/rsp-rtl_sim.c:560-600 | the same for CPU register accesses |
| ChainCache.RtlSim.DbgCpu0WriteCtrl | cores/jp_vpi/c/rsp-rtl_sim.c:639-644 | the same for control writes, with the word really sent |
| ChainCache.RtlSim.DbgCpu0ReadCtrl | cores/jp_vpi/c/rsp-rtl_sim.c:647-654 | the same for control reads, with the bits handed back |
| ChainCache.SelectAgrees | cores/jp_vpi/c/rsp-rtl_sim.c:340-361 | after selecting a chain the device has it selected, sent or not |
| ChainCache.CacheAlwaysAgrees | cores/jp_vpi/c/rsp-rtl_sim.c:282-654 | over every run including resets `current_chain` is -1 or equals `dbg_chain` and the device's chain, and every request so far was served on its chain |
| ChainCache.SelectionsFindDebug | cores/jp_vpi/c/rsp-rtl_sim.c:281-315 | over every run each chain selection finds the debug instruction loaded if and only if no access comes before the first reset |
| ChainCache.EachAccessAsksOnce | cores/jp_vpi/c/rsp-rtl_sim.c:340-654 | over every run each access issues its request exactly once and in order |
| ChainCache.ExecutedOnRightChain | cores/jp_vpi/c/rsp-rtl_sim.c:282-654 | together with the pipes: under every interleaving, what the simulator executes finds its own chain selected |
| ChainCache.ResetBitIsLost | cores/jp_vpi/c/rsp-rtl_sim.c:364-383 | the control word sent is the one asked for if and only if the reset bit is clear, since `data & 2` is masked with 1 |
| ChainCache.CtrlRoundTrip | cores/jp_vpi/verilog/vpi_debug_module.v:1121-1236 | writing and reading number the two control bits differently, and the reading function puts them back: a device that returns its bits in order gives the word written |
| Common.MergedLanes | cores/ram_wb/ram_wb_b3.v:103-108 | a merge takes the selected lanes and leaves the others |
| BurstRam.StepInStep | cores/ram_wb/ram_wb_b3.v:47-145 | one clock of the RAM and any compliant master: an answer is an error if the burst is lost, and otherwise an acknowledge for exactly the word addressed |
| BurstRam.RunRefinesFlatMemory | cores/ram_wb/ram_wb_b3.v:47-145 | for every compliant master, whose tags are free while its strobe is low, the acknowledged beats of every run read and byte-merge a flat memory one at a time at the addressed words |
| BurstRam.WriteBeatLanes | cores/ram_wb/ram_wb_b3.v:103-117 | an acknowledged write beat, in the memory array: selected lanes of the addressed word hold the data, the others what they held, and no other word changes |
| BurstRam.ReadBeatWord | cores/ram_wb/ram_wb_b3.v:112-117 | an acknowledged beat returns the addressed word of the memory array; one that does not write leaves it alone |
| BurstRam.NoBeatNoChange | cores/ram_wb/ram_wb_b3.v:110-117 | a clock without an acknowledge changes nothing in the array |
| BurstRam.BeatsReadLastWrites | cores/ram_wb/ram_wb_b3.v:47-145 | over every compliant run each acknowledged beat returns, lane by lane, what was last written to that lane of the addressed word |
| BurstRam.NextIndexIsNextAddr | cores/ram_wb/ram_wb_b3.v:78-84 | the next beat's word is that of the bus functional model's next address |
| BurstRam.ServedIffTagsKept | cores/ram_wb/ram_wb_b3.v:78-145 | after every run an access is answered in its second cycle at the latest; with an acknowledge if and only if no beat but a last one of an incrementing burst came directly after wait cycles that all carried neither 001, 010 nor 111, and with an error if and only if one did |
| BurstRam.LostIffTagsDropped | cores/ram_wb/ram_wb_b3.v:78-89 | RAM and master disagree on the address after a run if and only if it dropped its tags so; an error comes only then |
| BurstRam.DroppedTagsExist | cores/ram_wb/ram_wb_b3.v:78-137 | for each such tag, classic or reserved, a compliant run of five clocks from reset in which the third beat is refused |
| BurstRam.ResetRefines | cores/ram_wb/ram_wb_b3.v:53-59 | reset establishes the refinement |
| AxiMemory.TakeRequest | cores/picorv32/axi4_memory.v:75-96 | a request is latched at once and its ready and fast flags scheduled, only if none is latched or taken |
| AxiMemory.AnswerRequests | cores/picorv32/axi4_memory.v:98-139 | a read answers with memory before this edge's write; a write is strobed; out of range finishes |
| AxiMemory.NegEdge | cores/picorv32/axi4_memory.v:141-147 | the falling-edge block as a function of registers, signals and async bits |
| AxiMemory.PosEdge | cores/picorv32/axi4_memory.v:149-189 | the rising-edge block as a function of registers, signals and delay bits |
| AxiMemory.CycleKeepsInv | cores/picorv32/axi4_memory.v:141-189 | for every choice of async and delay bits: requests accepted or on the wires are the requests served or latched, in order |
| AxiMemory.ExactlyOnce | cores/picorv32/axi4_memory.v:75-189 | over every run each read request gets one response in order with what memory held at that time, each address/data pair one strobed update and one response, and `$finish` is not reached |
| AxiMemory.ServedWriteLanes | cores/picorv32/axi4_memory.v:111-139 | a served write, in the memory array: strobed lanes of the addressed word hold the data, the others what they held, no other word changes, and console output changes nothing |
| AxiMemory.ServedReadWord | cores/picorv32/axi4_memory.v:98-109 | a served read answers with the addressed word of the array; without a served write the array stays |
| AxiMemory.ReadsReturnLastWrites | cores/picorv32/axi4_memory.v:98-139 | over every run each read returns, lane by lane, what the writes served before it left there |
| AxiMemory.OutOfRangeFinishes | cores/picorv32/axi4_memory.v:101-134 | $finish is called exactly for a read from byte address 65536 on, and for a write there that is not to 0x10000000 |
| AxiMemory.ResponsesStay | cores/picorv32/axi4_memory.v:158-164 | rvalid with its data and bvalid stay until accepted |
| AxiMemory.OpenGateServes | cores/picorv32/axi4_memory.v:141-147 | only a closed gate or an unaccepted response postpones a latched request |
| AxiMemory.OpenGateAnswersOnPosEdge | cores/picorv32/axi4_memory.v:187-188 | the same for answers on the rising edge |
| AxiMemory.OpenGateTakesOnPosEdge | cores/picorv32/axi4_memory.v:183-185 | and for taking requests there |
| AxiMemory.ReadAnsweredAtOnce | cores/picorv32/axi4_memory.v:141-189 | with open gates either edge takes a new read and answers it with the word at its address |
| AxiMemory.WriteDoneAtOnce | cores/picorv32/axi4_memory.v:141-189 | with open gates either edge takes a new write and stores its data at its address |
| Ps2.ReceiverIsCollector | cores/ps2/verilog/ps2.v:177-314 | without a write request the registers refine a collector of the bits at the falls, whatever line, clock, watchdog and host do |
| Ps2.ParityTree | cores/ps2/verilog/ps2.v:209-219 | the parity tree is the parity of the eight low bits, and bit 8 matches it if and only if the nine bits have odd parity |
| Ps2.OddOnesCounts | cores/ps2/verilog/ps2.v:209-219 | odd parity is an odd number of ones |
| Ps2.FramesInOrder | cores/ps2/verilog/ps2.v:221-284 | falls that come apart and in time are cut into frames of eleven, none lost or doubled |
| Ps2.FlagsTellFrames | cores/ps2/verilog/ps2.v:286-314 | `data_o` is the last frame's byte; `ibf` and `parity_err` tell whether some frame had right or wrong parity |
| Ps2.FlagRules | cores/ps2/verilog/ps2.v:286-314 | clears win over what sets a flag; the watchdog ends a frame under way with a frame error, and nothing else sets that |
| Ps2.ByteReceived | cores/ps2/verilog/ps2.v:177-314 | every byte's frame, at any spacing of its falls, ends with the byte in `data_o` and `ibf` set |
| Ps2.OddErrorsReported | cores/ps2/verilog/ps2.v:293-313 | inverted data or parity bits set `parity_err` and keep `ibf` clear if and only if their number is odd |
| Ps2.HostWrites | cores/ps2/verilog/ps2.v:346-354 | a host write to a UART that is not sending leaves its byte waiting to be sent, in the idle state as a write request |
| Ps2.PendingWaits | cores/ps2/verilog/ps2.v:229-232 | it waits for the end of a frame that is being received |
| Ps2.FrameSent | cores/ps2/verilog/ps2.v:318-344 | from a write request the line at the device's falls is the byte's frame |
| Ps2.FrameCompletes | cores/ps2/verilog/ps2.v:238-276 | eleven falls after the watchdog has ended the request the whole frame is out |
| Ps2.AcknowledgeEnds | cores/ps2/verilog/ps2.v:271-281 | a write ends with the acknowledge or the watchdog, and nothing else, ready to receive |
| Ps2.Loopback | cores/ps2/verilog/ps2.v:177-344 | what one UART sends another receives |
| Ps2.FallsApartAndInTime | cores/ps2/verilog/ps2.v:113-175 | debounced falls are at least 262 clocks apart, and the watchdog leaves 16512 clocks after one |
| Ps2.EdgeSeen | cores/ps2/verilog/ps2.v:131-162 | a settled clock that changes gives a fall or rise in the next clock |
| Ps2.LowGivesOneFall | cores/ps2/verilog/ps2.v:113-162 | a level that goes low and is held for 131 clocks or more gives exactly one fall |
| Ps2.HighGivesNoFall | cores/ps2/verilog/ps2.v:113-162 | one that goes high gives none |
| Ps2.WatchdogFires | cores/ps2/verilog/ps2.v:164-175 | without a further edge the watchdog fires 16512 clocks after the one that follows a fall |
| Ps2.PromptIsTimely | cores/ps2/verilog/ps2.v:113-175 | every PS/2 clock waveform that keeps the pace satisfies what reception asks of the falls |
| Ps2.WaveformReceived | cores/ps2/verilog/ps2.v:113-314 | from any PS/2 clock waveform that keeps the pace, with a byte's frame on the line at its debounced falls, to the byte in `data_o` |
| Ps2.FrameOnWires | cores/ps2/verilog/ps2.v:113-314 | from a waveform alone: eleven admissible clock periods with a byte's frame on the data line at the falling edges leave the byte in the data register |
| JtagScan.JtagServer.GenClkOnce | cores/verilator_tb_utils/jtagServer.cpp:61-109 | one `gen_clk` call as a function of its static variables |
| JtagScan.JtagServer.DoScanChain | cores/verilator_tb_utils/jtagServer.cpp:188-253 | one `do_scan_chain` call as a function of its static variables, pins and buffer |
| JtagScan.GenStep | cores/verilator_tb_utils/jtagServer.cpp:77-108 | a bit takes period + 2 low calls, period high calls, capturing in the first, and one more |
| JtagScan.TickKeepsInv | cores/verilator_tb_utils/jtagServer.cpp:188-253 | every resumed call keeps the scan invariant over TDI, TDO, TMS, clock phase and buffer |
| JtagScan.ScanCompletes | cores/verilator_tb_utils/jtagServer.cpp:188-253 | with length == ceil(nb_bits/8) the scan reaches DONE, not earlier than its last call, with exactly nb_bits rising edges; edge m carries bit m % 8 of byte m / 8 of the buffer sent, or zero without one, the TDO it sampled is that bit of `buffer_in`, whose other bits are zero, and TMS is raised on the last bit only |
| JtagScan.PeriodNeeded | cores/verilator_tb_utils/jtagServer.cpp:82-108 | some number of calls completes the scan if and only if the clock period is not zero |
| JtagScan.ZeroPeriodScan | cores/verilator_tb_utils/jtagServer.cpp:82-108 | with a zero clock period the scan ends as well, with no rising edge at all |
| Interconnect.Slave.LoadDict | cores/wb_intercon/sw/wb_intercon_gen:144-162 | the settings after loading a section up to its first illegal entry |
| Interconnect.SettingIsLast | cores/wb_intercon/sw/wb_intercon_gen:144-162 | every setting is that of the last loaded entry that names it |
| Interconnect.SettingKept | cores/wb_intercon/sw/wb_intercon_gen:144-162 | a setting that no loaded entry names stays as it is |
| Interconnect.OutcomeIsFirstIllegal | cores/wb_intercon/sw/wb_intercon_gen:153-162 | the outcome names the first illegal entry: an unknown property, or a bus type other than wishbone and avalon |
| Interconnect.MaskFollowsSize | cores/wb_intercon/sw/wb_intercon_gen:150-152 | whatever the entries and their order, the mask belongs to the size |
| Interconnect.MaskDecodesRange | cores/wb_intercon/sw/wb_intercon_gen:150-152 | the mask decodes exactly the slave's range if and only if the size is a power of two and the offset a multiple of it |
| Interconnect.PartOfConcat | cores/wb_intercon/sw/wb_intercon_gen:222-268 | list element k of a generated concatenation is port n-1-k |
| Interconnect.Ff1 | cores/verilog_utils/verilog_utils.vh:53-64 | the loop finds the lowest set bit of the 32 an integer keeps |
| Interconnect.Clog2 | cores/verilog_utils/verilog_utils.vh:41-48 | the loop counts halvings |
| Interconnect.Log2Least | cores/verilog_utils/verilog_utils.vh:41-48 | clog2 is the least number of bits that count n things |
| Interconnect.SelectIsWideEnough | cores/wb_intercon/wb_mux.v:95-109 | the select signal never truncates what ff1 returns |
| Interconnect.LowestMatchWins | cores/wb_intercon/wb_mux.v:103-119 | cyc goes to the lowest matching port, if it is one of the first 32, and to no other |
| Interconnect.LastContainingWins | cores/wb_intercon/sw/wb_intercon_gen:222-268 | on overlap exactly the last containing slave of the list, which has the lowest port, is addressed |
| Interconnect.DecodeReachesSlave | cores/wb_intercon/wb_mux.v:103-119 | with aligned, disjoint power-of-two ranges cyc reaches a slave if and only if its range contains the address and its port is below 32 |
| Interconnect.ResponseIsSlaves | cores/wb_intercon/wb_mux.v:125-128 | the addressed slave's data, ack, err and rty are returned |
| Interconnect.ErrorIffUnmapped | cores/wb_intercon/wb_mux.v:111-112 | an access errs in the next clock if and only if no range contains its address |
| Interconnect.PortsPast32Hang | cores/wb_intercon/wb_mux.v:109-119 | an access to a slave on port 32 or above addresses nobody and reports no error |

## Left out

- BurstBridge.BurstDelivers: the slave is one that answers in order and at the earliest in the cycle after acceptance; writes of the bridge are passed through and only their states are modelled.
- BurstOracle.Transaction: the random choice of address, length and type and the multi-word bit vectors are parameters; strobes are all set, as in the transactor.
- Crc.ShiftOut: the status bits, the ready poll and the deliberate CRC error of the write task are not modelled; `debug_cpu_go` with several words is not either.
- RspPacket.RspClient.PutPacket: what happens once the buffer is overrun is undefined in C; the model stops and reports it before anything is sent.
- RspPacket.FramingRoundTrip: the payload's escaped form has at most GDB_BUF_MAX - 2 bytes, the most `get_packet` takes.
- Matchpoints.BreakpointsTransparent: addresses are word aligned; errors of `gdb_write_block` and the parsing and length warnings of the packet are not modelled.
- NpcCache.NpcIsAsExpected: register read errors that close the connection are not modelled.
- PipeRuns.ProtocolSafety: pipes have no capacity limit, so a write never waits for its reader; a read of up to four bytes is taken to wait for all of them; blocks to write are shorter than 2^31 bytes, the length being an int; the detach command, which ends the simulation, has no call.
- PipeRuns.LargeWriteStays: with a pipe smaller than the block the server would stay inside its write instead of ending the call.
- PipeRuns.ReplyCanBeSplit: a reply write may become visible in parts of any size; POSIX makes writes of up to PIPE_BUF bytes atomic, which the model does not.
- VpiSide.Vpi.GetArguments: the words returned to the simulator through VPI handles are the method's reads; an unknown command, which ends the simulation, is not modelled.
- ChainCache.CacheAlwaysAgrees: the retry counters and the test routine are not modelled.
- BurstRam.RunRefinesFlatMemory: a run ends with its first error, and the master keeps cyc through a burst; the address is the word index the RAM uses, so addresses outside the memory are not told apart, and contents loaded from a file are the initial memory.
- AxiMemory.ExactlyOnce: addresses stay in range, since the code ends the simulation otherwise; the instruction flag and console printing are not modelled, and the registers are a record passed and returned.
- AxiMemory.PosEdge: the delay bits appear inverted, as the gates they open, and their random generation is not modelled.
- BurstBridge, BurstRam and Ps2 give the clocked blocks as step functions, without update in place.
- Ps2.FrameSent: the falls are those of a device that clocks the frame while the watchdog is quiet; the two input synchroniser stages, the open-collector lines and the clock output register are not modelled, and what the UART sees is the sampled values.
- Ps2.FallsApartAndInTime: counters are numbers that never exceed 128, their carry; a fall before the first one after reset is taken to lie far back.
- JtagScan.ScanCompletes: `cur_period` is a number without the limit of a C int, so periods beyond 2^31 are not modelled as they are in C; the reset and TMS sequences of the TAP are left out.
- Interconnect.MaskDecodesRange: offset and size are those of a 32-bit address space; longer literals, which Verilog truncates, are not modelled.
- Interconnect.DecodeReachesSlave: broadcast signals (address, data, select, tags) are copies and left out, as are arbiters and data resizers of the generator.
- Sockets, processes, signals, VPI handles and all printing: foreign calls; only byte streams and pipe contents are kept.
- Packet dispatch, queries and register packets of the debugger stub: tables without an invariant.
- Byte order of memory packets and hardware breakpoint slots: host dependent, or undefined in the code when no slot is free.
- The bridge without burst support, the Avalon-to-Wishbone bridge, data resizing, GPIO: little state.
- Bus arbitration: the arbiter's source is not part of this model.
- Loader, test benches, configuration and vendor files: input, constants or build data.
