# Models of the Sun-2 FPGA bus testbenches and test tools

This project models the self-contained parts of the Sun-2 FPGA repository that other
people's measurements lean on: the bus models its testbenches compare the hardware with,
and the small programs that write patterns to its memory, disks and network and say what
came back wrong. It is laid out one Dafny module per component.

**Clocked and event-driven machines.** `MdioPhy` (clause 22 of IEEE 802.3), `I2cTarget`,
`BlockFile` and `JtagUart` each hold a state, a step function that is one clock edge or
one bus event, and a class whose methods are the module's `always` blocks, proved equal to
the step. In the step every right-hand side is the state before the edge, and where two
non-blocking assignments meet the later one wins. What the module is for is then proved
about whole runs of the step, against a simpler object: a register file, a log of writes,
a disk, a queue. Module parameters are constants without a value, so every result holds
for all their values. MDC, SCL and clock edges are the only time there is.

**Self-describing data.** `Decimal` divides by ten with shifts; `PatternWords` and
`PatternDisk` are the words of `patwr` and `memdwell`, their decoders, and the chunked
passes over a disk; `Stream` is both ends of `netchk`; `LoopFill`, `MemCheck` and `StrCopy`
are the M68010 `dbcc` loops of `loopprobe`, `memchk` with `memloop.s`, and `strprobe`, over
the one definition of the instruction in `M68k`. `Counting` is the count of places where
two sequences differ, which is what every checker reports; `Buffers`, `Bits`,
`Bitwise` and `Division` hold the types and the arithmetic the modules share.

**Binary layout.** `RomPatch` and `RomTable` are the PROM patcher and the case table made
from its output. `Xylogics` is the disk controller as its RTL executes I/O parameter
blocks, one block at a time; `XyChain` and `WrProbe` are the two boot programs that drive
it, with their memory as one array.

## Results worth knowing

Some promises hold only under a condition, and the condition is proved exact.

* `JtagUart.FromReset`: `rcount` is the number of bytes waiting if and only if no edge has
  both pushed and popped; each such edge leaves it one low for good.
* `JtagUart.InOrder`: reads return the host's bytes in order if and only if no read found more
  than RDEPTH of them waiting; otherwise each returns the last byte pushed into its slot.
  `JtagUart.FailsExactly`: runs that miscount and runs that read out of order exist if and
  only if RDEPTH is at least 2, and `JtagUart.Overruns` is one.
* `JtagUart.WspaceIs`: WSPACE is the free space if and only if no edge has both sent and
  drained, which leaves `wcount` high for good, and the free space is below 128.
  `JtagUart.WspaceFailsExactly`: runs on which it is wrong exist if and only if WDEPTH is at
  least 2, and `JtagUart.SendMeets` is one.
* `I2cTarget.TogetherExactly`: a master that takes SCL down and lets go of SDA on one clock,
  as boards/DECA/deca_adv7513_init.sv does after the eighth bit, is understood if and only if
  no byte that ends in a zero has its SDA edge delivered first; each of those counts as a STOP.
* `PatternWords.UniformReports`: under `-u` a stray word is reported with the right distance if
  and only if its sector is a multiple of 128.
* `BlockFile.Interrupted`: a reset in the middle of a write leaves a torn block, and exactly
  how torn.
* `Stream.SentExactly`: `netchk s` ignores short writes, so it sends the pattern if and only
  if every write begins on a multiple of 512, or is a single byte that happens to coincide
  (at an even offset, or 257 past a multiple of 512); `Stream.FalseAlarm` is what its host
  then says.
* `XyChain.CompletesExactly`: the DVMA window has room for 120 IOPBs, but the card's chain
  limit is 64 links, so a chain completes if and only if it has at most 65 and every block of
  it is on the drive. The repository's prose (README.md:833-857) does not mention the limit;
  the RTL decides.
* `XyChain.PackingExact`: block numbers survive the cylinder, head and sector packing if and
  only if they are below 262144; above that the card reaches the block modulo 262144.
* `WrProbe.Round`: a round passes if and only if the drive has its sectors and there are at
  most 48 of them; beyond that the two buffers overlap and the poison is what gets written.
* `WrProbe.WrongBlockShows`: the comment on the pattern promises that a sector at the wrong
  block fails the compare; it does if and only if the blocks differ modulo 256.
* `LoopFill.WrongBlockCounted`: the same for blocks modulo 65536.
* `MemCheck.MFill`: a count of zero, which `memchk` never passes, wraps to 65536 longwords.
* `I2cTarget.StepSafe`: clearing the output in the START and STOP handlers never changes it,
  because on a wired-AND bus neither can happen while the output is on.

## Conventions

Machine integers are unbounded unless the width matters; where it does, as in `Decimal`
and `M68k`, the wrap is written out. Fields that do not overlap are combined by sums rather
than ORs. Memory, disks and streams are faithful unless a member says otherwise:
`LoopFill` and `MemCheck` take what the memory loses or spoils as a parameter. A Verilog
register file or shift register is a sequence of bits, most significant first.

## Model

| member | source | states |
|---|---|---|
| `MdioPhy.Refinement` | tb/mdio_phy_model.sv:118-196 | For any list of frames, each behind any number of ones including none, the bit machine ends in the state the register file reaches serving the frames one by one, and the wire carries exactly its replies |
| `MdioPhy.FrameRun` | tb/mdio_phy_model.sv:118-196 | One frame from the hunt and back to it |
| `MdioPhy.StartRun` | tb/mdio_phy_model.sv:122-130 | The start pattern is found behind any one, so no preamble is needed |
| `MdioPhy.MidStep` | tb/mdio_phy_model.sv:131-152 | Every register of the machine at every bit time of the body, in closed form, is kept by each edge |
| `MdioPhy.BodyRun` | tb/mdio_phy_model.sv:131-196 | From any bit time the rest of the body ends in the served frame, with the answers of the bit times left |
| `MdioPhy.WriteFrame` | tb/mdio_phy_model.sv:154-165 | A write to this PHY changes its own register (register 0 without bit 15), registers 1 and 17 as well when it restarts the negotiation, no other register and only the write count |
| `MdioPhy.ForeignFrame` | tb/mdio_phy_model.sv:137-145 | A frame for another PHY raises n_bad_addr by one, changes nothing else, and is not answered |
| `MdioPhy.ReadFrame` | tb/mdio_phy_model.sv:180-196 | A read sees a zero in bit time 48 and the register, most significant bit first, in 49 to 64, a released wire in every other; contention stays put if and only if the station let go for both turnaround bits |
| `MdioPhy.NumberedRegister` | tb/mdio_phy_model.sv:138-190 | A frame whose register field is the binary digits of r, most significant first, reads exactly register r, or writes exactly it, and the result of a negotiation into registers 1 and 17 exactly if r is zero and bit 15 or 9 of the data is set |
| `Bits.IndexShift` | tb/mdio_phy_model.sv:138-184 | A bit shifted into a five-bit field doubles its number and is its low bit |
| `MdioPhy.IdleBus` | tb/mdio_phy_model.sv:118-130 | A bus nobody drives changes nothing |
| `MdioPhy.ReadReturnsLastWrite` | tb/mdio_phy_model.sv:154-196 | After any frames, a write, and any frames that do not touch its register, a read returns what was written |
| `MdioPhy.FastestWins` | tb/mdio_phy_model.sv:80-96 | The negotiated result is advertised and nothing better is; with nothing advertised it is 10 half; resolved and link bits are set |
| `MdioPhy.LinkIsUp` | tb/mdio_phy_model.sv:95 | Register 1 after a negotiation is its default with bits 2 and 5 set |
| `MdioPhy.PowerUpIs` | tb/mdio_phy_model.sv:52-76 | The defaults as numbers, and zeros in every other register |
| `MdioPhy.PhyModel.constructor` | tb/mdio_phy_model.sv:60-76 | Power-up is between frames with the data-sheet defaults |
| `MdioPhy.PhyModel.Negotiate` | tb/mdio_phy_model.sv:80-96 | The blocking assignments to registers 17 and 1, from the advertisement registers as they were |
| `MdioPhy.PhyModel.Commit` | tb/mdio_phy_model.sv:154-165 | Edge 64 of a write is the abstract store; the non-blocking store lands after the negotiation |
| `MdioPhy.PhyModel.DriveEdge` | tb/mdio_phy_model.sv:180-196 | The block that drives the answer |
| `MdioPhy.PhyModel.FollowEdge` | tb/mdio_phy_model.sv:118-171 | The block that follows the frame |
| `MdioPhy.PhyModel.Posedge` | tb/mdio_phy_model.sv:118-196 | Both blocks on one edge, each reading the state before it, are one step of the machine |
| `MdioPhy.PhyModel.Clock` | tb/mdio_phy_model.sv:118-196 | A whole bit stream is a run of the machine, and returns what a station samples |
| `I2cTarget.RoundTrip` | tb/i2c_slave_model.sv:51-119 | From power-up, decoding the waveform of any list of transactions logs exactly the pairs of those addressed to this target, the first MAX_LOG kept, with the count, the last values, the START, STOP and foreign-address counts exact; an abandoned byte or an odd sub-address logs nothing |
| `I2cTarget.ParsesWhatWasPrinted` | tb/i2c_slave_model.sv:51-119 | The same from any state between transactions, as a fold over the transactions, STOP or repeated START |
| `I2cTarget.TransactionRun` | tb/i2c_slave_model.sv:51-119 | One whole transaction |
| `I2cTarget.BytesRun` | tb/i2c_slave_model.sv:79-117 | Payload bytes are logged in pairs if the target is selected, and not at all otherwise |
| `I2cTarget.ByteRun` | tb/i2c_slave_model.sv:67-117 | Eight bits and the ninth clock advance the phase machine by one byte |
| `I2cTarget.StepSafe` | tb/i2c_slave_model.sv:51-119 | On any move of the master: the output changes only on a falling SCL, no second reaction to its own output is ever needed, and the counters move only for conditions the master made |
| `I2cTarget.BusSafety` | tb/i2c_slave_model.sv:51-119 | On every run: each START and STOP counted was made by the master, and the output is steady for as long as SCL does not fall |
| `I2cTarget.NoEdge` | tb/i2c_slave_model.sv:51-79 | A line set to the level it has moves nothing |
| `I2cTarget.Acknowledges` | tb/i2c_slave_model.sv:102-113 | Whatever the master does while the ninth clock is high, the acknowledgement holds, and it is given exactly when the target is selected, which after an address byte is when the address is its own |
| `I2cTarget.ServedAllIs` | tb/i2c_slave_model.sv:91-99 | The fold over transactions in flat terms: log, counts and table |
| `I2cTarget.TogetherExactly` | tb/i2c_slave_model.sv:51-119 | From power-up, what a master that moves both lines at once after each eighth bit sends is taken as it was meant if and only if no byte ending in a zero has its SDA edge delivered first; the STOPs counted are those meant and one for each of those bytes |
| `I2cTarget.SentRun` | tb/i2c_slave_model.sv:60-117 | One such byte, in either order of delivery, is taken like any other or is a STOP |
| `I2cTarget.TargetModel.constructor` | tb/i2c_slave_model.sv:43-46 | Power-up state |
| `I2cTarget.TargetModel.SdaFell` | tb/i2c_slave_model.sv:51-58 | START handler |
| `I2cTarget.TargetModel.SdaRose` | tb/i2c_slave_model.sv:60-64 | STOP handler |
| `I2cTarget.TargetModel.SclRose` | tb/i2c_slave_model.sv:67-75 | Sampling handler |
| `I2cTarget.TargetModel.Record` | tb/i2c_slave_model.sv:92-98 | A selected data byte enters the table, the bounded log and the count |
| `I2cTarget.TargetModel.SclFell` | tb/i2c_slave_model.sv:79-119 | Falling-clock handler: phase, acknowledgement and log |
| `I2cTarget.TargetModel.Deliver` | tb/i2c_slave_model.sv:51-119 | One move of the master through the handlers is one step of the bus, and leaves it safe |
| `BlockFile.RunRefines` | tb/blk_file.sv:101-161 | Every run of clocks, starts and resets included at any time, is a run of a disk whose commands take effect when they end, or in part when a reset ends them |
| `BlockFile.StepRefines` | tb/blk_file.sv:101-161 | Whatever the inputs, one clock of the transfer machine and the late buffer is one clock of that disk |
| `BlockFile.BusyCounts` | tb/blk_file.sv:101-161 | Each clock of a command but a reset uses up exactly one of its remaining clocks, and done rises on the last and on no other |
| `BlockFile.OneDonePerStart` | tb/blk_file.sv:105-157 | On every run accepted starts are done pulses and commands a reset abandoned, but for one in flight |
| `BlockFile.CommandCompletes` | tb/blk_file.sv:108-157 | A command reports after exactly its latency and not before; in range it has moved its block; out of range it sets the error and touches neither medium nor buffer |
| `BlockFile.Interrupted` | tb/blk_file.sv:105-107 | A reset any number of clocks into a command abandons it without done or error: of an in-range write the block holds as many bytes of the buffer as Landed gives for that many clocks, of an in-range read the buffer as many of the block, and their old ones behind; nothing else changes |
| `BlockFile.BlockPersists` | tb/blk_file.sv:139-152 | Over any run, resets and torn writes included, a block keeps its contents until a write to it is accepted |
| `BlockFile.ReadsLastWrite` | tb/blk_file.sv:101-161 | A block written and read back, with any run between that accepts no other write to it, is the buffer that was written |
| `BlockFile.SpliceBlock` | tb/blk_file.sv:148-149 | A write, whole or torn, replaces its own block and no other |
| `BlockFile.StoredAt` | rtl/sun2-multibus/sun2_xy450.sv:316-325 | A store by the controller changes its own byte of the buffer and no other |
| `BlockFile.DevStep` | tb/blk_file.sv:101-161 | Whatever the inputs, resets included, lba stays below the block count and idx below 512 in every transfer state |
| `BlockFile.WritesOn` | tb/blk_file.sv:139-152 | One clock of a write: how many bytes have landed and how far into the next one it is |
| `BlockFile.ReadsOn` | tb/blk_file.sv:131-137 | One clock of a read: how many bytes have left the medium, the last of them still on the port |
| `BlockFile.BlkFile.constructor` | tb/blk_file.sv:52-71 | The image on zeroed media, counted in whole blocks |
| `BlockFile.BlkFile.Transfer` | tb/blk_file.sv:108-160 | The clocked state machine outside reset |
| `BlockFile.BlkFile.Posedge` | tb/blk_file.sv:101-161 | One clock, reset included |
| `JtagUart.FromReset` | tb/jtag_uart_model.sv:64-116 | On every run rcount is the true occupancy less one per edge on which a push met a pop, so it is right if and only if none did; wcount drifts the other way; transfers take two edges |
| `JtagUart.Drift` | tb/jtag_uart_model.sv:77-113 | The counter and pointer equations behind it, kept along every run |
| `JtagUart.Noted` | tb/jtag_uart_model.sv:76-113 | When the host's byte is taken, a byte is drained, sent or read, and a transfer counted, in terms of the inputs and the counters |
| `JtagUart.InOrder` | tb/jtag_uart_model.sv:77-99 | On every run from reset, read r returns the last byte pushed into its slot; the reads return the bytes pushed in order, each once, if and only if none found more than RDEPTH of them waiting |
| `JtagUart.RunAccounted` | tb/jtag_uart_model.sv:77-99 | The ring holds the last RDEPTH bytes pushed, coinciding edges or not, and every read is accounted for |
| `JtagUart.FailsExactly` | tb/jtag_uart_model.sv:77-99 | Some run from reset has a coinciding edge, and some run reads out of order, if and only if RDEPTH is at least 2 |
| `JtagUart.Overruns` | tb/jtag_uart_model.sv:77-99 | Such a run: one coinciding edge, RDEPTH more pushes, and the second read returns the newest byte |
| `JtagUart.Queue` | tb/jtag_uart_model.sv:77-99 | On every run without a coinciding edge the ring is a queue: order, rcount, and the pointer distance with empty and full told apart |
| `JtagUart.TwoCycles` | tb/jtag_uart_model.sv:85-113 | A read or a write of either register, held until waitrequest falls, acts on its first edge only: one pop or one byte sent at most, and the answer to a read is still there on the second |
| `JtagUart.Answers` | tb/jtag_uart_model.sv:92-104 | Bit positions of RVALID, WSPACE and the byte; a CONTROL read takes nothing |
| `JtagUart.WspaceIs` | tb/jtag_uart_model.sv:61-113 | On every run from reset WSPACE is the free space if and only if no edge has both sent and drained and the free space is below 128; what it is otherwise |
| `JtagUart.WspaceFailsExactly` | tb/jtag_uart_model.sv:61-113 | Some run from reset has a send meet a drain, and some run has WSPACE wrong, if and only if WDEPTH is at least 2 |
| `JtagUart.SendMeets` | tb/jtag_uart_model.sv:82-108 | Such a run: one byte is left, and wcount says two |
| `JtagUart.UartModel.Reset` | tb/jtag_uart_model.sv:65-72 | Reset empties both FIFOs |
| `JtagUart.UartModel.HostEnd` | tb/jtag_uart_model.sv:76-82 | The host's side of an edge |
| `JtagUart.UartModel.Answer` | tb/jtag_uart_model.sv:91-114 | The slave's side of an edge |
| `JtagUart.UartModel.Posedge` | tb/jtag_uart_model.sv:73-115 | Both ends on one edge, later assignments winning |
| `Decimal.Estimate` | tools/loopprobe/loopprobe.c:95-97 | No intermediate sum overflows 32 bits, and the remainder before correction is below twenty |
| `Decimal.Div10` | tools/loopprobe/loopprobe.c:93-100 | The shifts compute v / 10 for every 32-bit v |
| `Decimal.PutDec` | tools/loopprobe/loopprobe.c:102-108 | Prints the numeral of v, never past ten of its twelve bytes |
| `Decimal.PutDecBySubtraction` | tools/strprobe/strprobe.c:106-117 | Prints the same string by repeated subtraction |
| `Decimal.NumeralUnique` | tools/loopprobe/loopprobe.c:102-108 | That string is the only one of digits without a leading zero whose value is v |
| `Decimal.TenDigits` | tools/loopprobe/loopprobe.c:104 | Ten digits are enough for 32 bits |
| `PatternWords.ReportsExactly` | tools/patwr.c:194-217 | A word found at p is reported as coming from d words away with its generation if and only if it is the word that belongs at p + d, for every word and every d in (-16384, 16384] |
| `PatternWords.WordIs` | tools/patwr.c:132-167 | Both generations are the word position modulo 32768 behind a tag |
| `PatternWords.DisplacementIs` | tools/patwr.c:207-209 | Whatever the word, the distance printed is in the window and congruent to its place |
| `PatternWords.Injective` | tools/patwr.c:149-167 | Words of the default encoding agree exactly when their generation does and their positions do modulo 32768 |
| `PatternWords.UniformRepeats` | tools/patwr.c:132-147 | The -u words agree exactly when the offsets in the sector do |
| `PatternWords.UniformReports` | tools/patwr.c:194-217 | Under -u the word of p + d found at p is reported as d words away with its sector if and only if that sector is a multiple of 128 |
| `PatternWords.StrayExactly` | tools/memdwell.c:98-105 | The halfword decoder, both ways, on its own window |
| `PatternWords.Fill` | tools/memdwell.c:72-79 | The buffer holds its pattern |
| `PatternWords.Verify` | tools/memdwell.c:81-112 | Counts exactly the wrong halfwords and shows the first eight with their decoding |
| `PatternDisk.Patwr` | tools/patwr.c:255-334 | Any number of passes on a faithful medium stamps the range and nothing else; verify-only counts passes times the words of the range and finds passes times the wrong ones; after a write none; a fill stops after one pass; a range that does not fit fails |
| `PatternDisk.WritePass` | tools/patwr.c:278-294 | Transfers of up to 64 sectors that meet every sector of the range once leave each with its words |
| `PatternDisk.StampedWord` | tools/patwr.c:278-294 | The words of a stamped medium as numbers, by absolute position, in all three encodings |
| `PatternDisk.VerifyPass` | tools/patwr.c:306-327 | The same transfers read every word once and count the wrong ones |
| `PatternDisk.FillBuffer` | tools/patwr.c:283-287 | The buffer holds the words of the chunk |
| `PatternDisk.CheckBuffer` | tools/patwr.c:315-325 | Words looked at and words wrong in a chunk |
| `PatternDisk.StampedIsRight` | tools/patwr.c:311-325 | A stamped range has no wrong word |
| `Stream.BoardCheck` | tools/netchk.c:88-108 | However read cuts the stream, nbad is the number of wrong longwords in the whole blocks taken; if reads bring what there is, those are all the blocks asked for that the stream contains |
| `Stream.HostCheck` | tools/netchk_host.py:48-62 | However recv cuts the stream, every wrong byte and no other is counted |
| `Stream.CountsAgree` | tools/netchk.c:95-107 | On the same whole blocks, wrong longwords <= wrong bytes <= 4 wrong longwords |
| `Stream.BytesAndLongs` | tools/netchk.c:97-104 | The same for any two streams of whole longwords |
| `Stream.CompareBlock` | tools/netchk.c:96-104 | A block compared longword by longword |
| `Stream.HostPattern` | tools/netchk_host.py:18-23 | The bytearray is the pattern at its offset |
| `Stream.HostSend` | tools/netchk_host.py:41-47 | The concatenated chunks are the pattern from zero |
| `Stream.BuildRef` | tools/netchk.c:75-76 | The reference is the first 16384 bytes of the pattern |
| `Stream.RefTiles` | tools/netchk.c:10-20 | The reference tiles the stream for ever |
| `Stream.UniformWords` | tools/patwr.c:157 | The uniform words of tools/patwr.c, high byte first, are the stream from any sector boundary |
| `Stream.BoardSend` | tools/netchk.c:112-117 | The bytes sent are a prefix of the reference per successful write, until enough has gone |
| `Stream.SentExactly` | tools/netchk.c:113-117 | What is sent is the pattern if and only if every write begins on a multiple of 512 (or is a single coinciding byte) |
| `Stream.SentAligned` | tools/netchk.c:113-117 | It is on every run of writes that are multiples of 512 |
| `Stream.FalseAlarm` | tools/netchk.c:113-117 | On a faultless network the host counts a wrong byte exactly when a short write moved the board off that alignment |
| `LoopFill.FillLoopmode` | tools/loopprobe/loopprobe.c:136-142 | dbra writes its sixteen-bit count plus one longwords, less those the memory loses |
| `LoopFill.FillNoloop` | tools/loopprobe/loopprobe.c:146-153 | The control writes the same |
| `LoopFill.FillBlocks` | tools/loopprobe/loopprobe.c:205-213 | With or without loop mode every block gets its value, in whole blocks, less the lost writes, and nothing behind them changes |
| `LoopFill.WritesExactly` | tools/loopprobe/loopprobe.c:208 | Exactly nlong longwords are written if and only if nlong is a multiple of BLK |
| `LoopFill.Check` | tools/loopprobe/loopprobe.c:183-203 | The count of wrong longwords, and the first of them |
| `LoopFill.WantIs` | tools/loopprobe/loopprobe.c:188 | The wanted longwords as numbers, sixteen of each value |
| `LoopFill.HighBit` | tools/loopprobe/loopprobe.c:188 | The high half is the bitwise or of 5A00 and the pass |
| `LoopFill.LostCounted` | tools/loopprobe/loopprobe.c:183-237 | Over any earlier contents the check counts exactly the lost writes that left a wrong value, so a fill that lost none passes |
| `LoopFill.WrongBlockCounted` | tools/loopprobe/loopprobe.c:174-179 | A word of another block is counted if and only if the blocks differ modulo 65536 |
| `LoopFill.Case` | tools/loopprobe/loopprobe.c:226-237 | Poison, fill and check: the count is the number of writes the memory lost |
| `LoopFill.PoisonIsForeign` | tools/loopprobe/loopprobe.c:226-227 | The poison is no value of either pass |
| `LoopFill.SumLoopmode` | tools/loopprobe/loopprobe.c:164-172 | The loop-mode sum of count plus one longwords |
| `LoopFill.SumByReads` | tools/loopprobe/loopprobe.c:241-242 | The same sum by ordinary reads |
| `LoopFill.SumConcat` | tools/loopprobe/loopprobe.c:164-172 | One longword is its own sum, and the sums of two stretches add up, modulo 2^32, to that of both |
| `MemCheck.MFill` | tools/memloop.s:20-41 | All n longwords, in stretches of 32768, and nothing else (65536 for a count of zero) |
| `MemCheck.MCheck` | tools/memloop.s:45-73 | Nothing, or the first longword that differs |
| `MemCheck.Scan` | tools/memchk.c:53-70 | The scan that restarts behind each bad longword counts exactly the bad ones |
| `MemCheck.Memchk` | tools/memchk.c:48-76 | Whatever longwords the memory spoils after each fill, the total is the wrong ones of every fill of every pass, and zero if and only if there was none |
| `MemCheck.StuckBitCounted` | tools/memchk.c:34-37 | A bit that every fill of some pass leaves at one value is counted, whichever bit and value |
| `MemCheck.SurvivorCounted` | tools/memchk.c:15-20 | A longword that holds after a fill what it held before is counted |
| `MemCheck.ValuesAre` | tools/memchk.c:34-37 | Zeros, the byte 5A four times, ones in the low half, and after each its complement |
| `StrCopy.StrncpyLoop` | tools/strprobe/strprobe.c:156-173 | Copies exactly the bytes through the first NUL or the count, writes nothing else, and leaves the padding count in d1 |
| `StrCopy.LengthIs` | tools/strprobe/strprobe.c:167-168 | That number of bytes is the only one at which the loop can stop |
| `RomPatch.Rompatch` | tools/rompatch.c:82-111 | There is an output if and only if the image is whole, there is a patch file, all of them open, every line applies and the output path takes it; it is then the in-order fold. The path is opened only if every line applies, and the exit status says what became of it |
| `RomPatch.OneFile` | tools/rompatch.c:88-95 | An image of exactly 32 KiB is whole and what is behind it does not count; no patch file, no image or one file that does not open and there is no output |
| `RomPatch.Apply` | tools/rompatch.c:37-80 | One file, in place, with the exit status of the first line refused |
| `RomPatch.AcceptedExactly` | tools/rompatch.c:55-74 | A list is accepted if and only if every entry names an even address of the PROM and two sixteen-bit words and expects what the last earlier entry left there, or the original word; the result then holds at every address what the last entry left, every unlisted word unchanged |
| `RomPatch.RefusedExactly` | tools/rompatch.c:50-71 | The first line that does not apply decides the exit status: 3 if only its expected word is wrong, 2 otherwise |
| `RomPatch.AnyPatch` | tools/rompatch.c:55-76 | Any word of the image may be replaced by any other |
| `RomPatch.UndoRestores` | tools/rompatch.c:65-74 | The list reversed with expected and new exchanged restores the image |
| `RomPatch.AppliedCounts` | tools/rompatch.c:76 | The count of entries applied |
| `RomTable.Print` | tools/rom.c:22-49 | The four modes print the odd lane, the even lane, the words or the doublewords, big-endian from a little-endian host |
| `RomTable.CaseComplete` | rtl/sun2-common/bootrom.v:10-15 | For a whole image every index of the fourteen-bit case has exactly one label, and reads the big-endian word |
| `RomTable.PutTable` | tools/rom.c:29-42 | One patched word changes one label |
| `RomTable.Commutes` | tools/rom.c:29-42 | Printing a patched image is editing the printed table, for any accepted list |
| `RomTable.LanesInterleave` | tools/rom.c:17-28 | What `rom 1` and `rom 0` print interleaves to the image, the first with the even bytes |
| `RomTable.LanesMakeWords` | tools/rom.c:23-42 | Label by label what `rom W` prints is the even byte over the odd one |
| `RomTable.WordsMakeDoublewords` | tools/rom.c:29-47 | And what `rom D` prints is two of its words, high one first |
| `RomTable.Swap16Is` | tools/rom.c:31-41 | The swap of a little-endian load is the big-endian word |
| `RomTable.Swap32Is` | tools/rom.c:45-46 | The same for doublewords |
| `Xylogics.OnwardIsLinear` | rtl/sun2-multibus/sun2_xy450.sv:873-885 | Sector, head, cylinder carry is one more in linear block addresses |
| `Xylogics.MoveEnds` | rtl/sun2-multibus/sun2_xy450.sv:873-890 | A transfer that ends well leaves no sectors and the addresses of the next one |
| `Xylogics.FetchStore` | rtl/sun2-multibus/sun2_xy450.sv:660-679 | Fetching an IOPB that was stored gives it back |
| `Xylogics.StoreInverts` | rtl/sun2-multibus/sun2_xy450.sv:660-679 | In memory the two bytes of each word of an IOPB change places, both ways |
| `Xylogics.FlagBits` | rtl/sun2-multibus/sun2_xy450.sv:482-493 | The flags by the number of their bit |
| `Xylogics.GoWraps` | rtl/sun2-multibus/sun2_xy450.sv:649-655 | An IOPB address is taken modulo 65536, and one below that is where the walk begins |
| `Xylogics.DataAddrIs` | rtl/sun2-multibus/sun2_xy450.sv:500-502 | A relocated data address is sixteen times the relocation on, in twenty bits |
| `Xylogics.OnwardWraps` | rtl/sun2-multibus/sun2_xy450.sv:873-885 | Where the disk address registers wrap |
| `Xylogics.RefusalIs` | rtl/sun2-multibus/sun2_xy450.sv:709-719 | The completion code of a read or a write that is not accepted, by number and in order of precedence |
| `Xylogics.OtherRefusals` | rtl/sun2-multibus/sun2_xy450.sv:709-745 | The same of the other commands |
| `Xylogics.OtherCommands` | rtl/sun2-multibus/sun2_xy450.sv:720-745 | The commands that transfer nothing: status goes back, Drive Reset with cylinder zero, and Set Drive Size sets the limits of its drive type |
| `Xylogics.UpdatedIs` | rtl/sun2-multibus/sun2_xy450.sv:905-978 | The status bytes, the disk address, sector count and data address that go back, read as fields; no other byte changes |
| `Xylogics.DoneIsSkipped` | rtl/sun2-multibus/sun2_xy450.sv:697-707 | An IOPB with DONE set is fetched and left alone |
| `Xylogics.MoveOut` | rtl/sun2-multibus/sun2_xy450.sv:795-845 | A transfer that leaves the DVMA window ends with a slave acknowledge error |
| `XyChain.Build` | tools/xychain/xychain.c:143-170 | The 24 bytes of the IOPB, the two of each word exchanged, become the order's fields and no other byte of memory changes |
| `XyChain.BuildReadsBack` | tools/xychain/xychain.c:129-137 | iopb_get returns what was built, for up to 120 IOPBs, and building one disturbs no other and no buffer |
| `XyChain.FieldsRead` | tools/xychain/xychain.c:156-169 | Every field the card reads is what was asked for |
| `XyChain.LinkBytes` | tools/xychain/xychain.c:303-306 | The command, mode, disk address and sector count bytes of a chained read, as numbers |
| `XyChain.LinkAddresses` | tools/xychain/xychain.c:303-306 | Its buffer and its link, as numbers |
| `XyChain.OtherBytes` | tools/xychain/xychain.c:149-158 | The ECC mode, the throttle, clear status bytes and zeros |
| `XyChain.CompleteBytes` | tools/xychain/xychain.c:312-315 | Where the status bytes and the sector of a finished IOPB are in memory |
| `XyChain.PackingExact` | tools/xychain/xychain.c:151-163 | The card reaches the block modulo 262144, which is the block asked for if and only if that is below 262144 |
| `XyChain.IopbPut` | tools/xychain/xychain.c:129-132 | One byte, in its word's other half |
| `XyChain.IopbGet` | tools/xychain/xychain.c:134-137 | One byte back from there |
| `XyChain.Fill` | tools/xychain/xychain.c:257-261 | One buffer and nothing else |
| `XyChain.BuildChain` | tools/xychain/xychain.c:303-306 | A linked list of IOPBs |
| `XyChain.ChainRuns` | tools/xychain/xychain.c:297-340 | A chain of built IOPBs within the drive, and no longer than the links the card has left, runs exactly those, in order, each done with its sector in its buffer, no other byte changed, interrupting once, or once each with IEI |
| `XyChain.HardErrorStops` | rtl/sun2-multibus/sun2_xy450.sv:981-991 | With e the first IOPB whose block is off the drive: those before it run, IOPB e comes back 0x85 with its code and nothing in its buffer, every IOPB and buffer behind it is as it was built, the error bit is set and the interrupts are counted |
| `XyChain.Reissued` | README.md:848-853 | After a hard error every IOPB and buffer behind it is untouched, and a second Go at the next one finishes the chain |
| `XyChain.RanBytes` | tools/xychain/xychain.c:297-377 | A chain that ran changed no byte outside its IOPBs and their buffers |
| `XyChain.UntouchedBytes` | README.md:848-853 | An IOPB behind it is untouched if and only if its 24 bytes and the 512 of its buffer are |
| `XyChain.ChainOverruns` | rtl/sun2-multibus/sun2_xy450.sv:1002-1015 | Of a longer chain the first 65 run, the last of them is marked with a timeout and interrupts twice with IEI, and the rest are untouched |
| `XyChain.CompletesExactly` | rtl/sun2-multibus/sun2_xy450.sv:981-1015 | A chain ends without an error if and only if it has at most 65 IOPBs and every block is on the drive; otherwise how many ran and how the last of them is marked |
| `XyChain.StaleTailIgnored` | tools/xychain/xychain.c:354-377 | A live IOPB behind a clear CHEN is not run: neither it nor its buffer changes |
| `XyChain.RunChain` | tools/xychain/xychain.c:303-310 | Building any chain leaves it standing ready in memory, and the card runs that |
| `XyChain.ChainTest` | tools/xychain/xychain.c:303-352 | The exerciser's own checks pass if and only if the chain is within the card's limit and the drive, for any stale tail pointer, and then the sectors are in the buffers |
| `XyChain.SetDriveSize` | tools/xychain/xychain.c:284-291 | Set Drive Size with maximum indices gives the card the label geometry |
| `WrProbe.Round` | tools/wrprobe/wrprobe.c:218-258 | A round passes if and only if the drive has its sectors and there are at most 48; then its pattern is on its blocks and no other. The error bit is set if and only if the drive has not, and otherwise the count of wrong bytes is exact |
| `WrProbe.PlainBytes` | tools/wrprobe/wrprobe.c:124-149 | The bytes of this program's IOPBs, as numbers |
| `WrProbe.SentDiffers` | tools/wrprobe/wrprobe.c:218-227 | What the overlap of the two buffers spoils: some byte is wrong if and only if there are more than 48 sectors |
| `WrProbe.WrongBlockShows` | tools/wrprobe/wrprobe.c:177-186 | A sector that lands at the wrong block is wrong in all 512 bytes, unless the block numbers agree modulo 256, and then in none |
| `WrProbe.PatBit` | tools/wrprobe/wrprobe.c:182-186 | Each bit of the pattern is the parity of that bit of seven times the block, eleven times the offset and the offset's high byte |
| `WrProbe.PoisonShows` | tools/wrprobe/wrprobe.c:225-226 | Poison is the pattern of no sectors, so a card that never touched memory does not pass |
| `WrProbe.Fill` | tools/wrprobe/wrprobe.c:190-195 | The write buffer holds the pattern |
| `WrProbe.Verify` | tools/wrprobe/wrprobe.c:197-209 | Counts exactly the wrong bytes |
| `WrProbe.MoveWrites` | rtl/sun2-multibus/sun2_xy450.sv:761-890 | A write puts consecutive sectors of memory on consecutive blocks and nowhere else |
| `WrProbe.MoveReads` | rtl/sun2-multibus/sun2_xy450.sv:761-890 | A read puts consecutive blocks in consecutive memory and nowhere else |
| `WrProbe.MoveShort` | rtl/sun2-multibus/sun2_xy450.sv:761-766 | A transfer that runs off the medium ends with a header-not-found error |

## Left out

- Unknown (X) values: registers the source leaves uninitialised start with arbitrary values of their type, and `blk_file`'s state variable starts idle.
- Real time: `TURNAROUND_NS` is taken to elapse before the next MDC edge; SCL and SDA edges at the same instant are delivered one after the other, in either order.
- `$display` text, `printf` text, console output, command-line parsing, sockets and file opening other than their outcomes.
- The text of patch files: `fgets`, the comment rule and `sscanf` are replaced by a line that is blank, garbled or three numbers.
- `blk_ready`, `blk_writeback` and the 32-bit width of the media index in tb/blk_file.sv, which cannot wrap for a medium that fits its array.
- The two clocks around a command on which the controller's buffer port changes hands; while a command is in flight a store by the controller does not reach the buffer.
- MemCheck.Memchk: what the memory spoils is fixed between a fill and the next one; a longword that reads differently each time is not described.
- WrProbe.Round: at most 448 sectors, which is where the read buffer meets the end of the DVMA window.
- The controller is modelled one step per IOPB rather than per clock; relocation registers are zero, as both programs leave them, and the Attention protocol and a controller reset in flight are not modelled.
- The card's write-back of an IOPB stores all 24 bytes in the model, and bytes 2, 3 and 6 to 16 in the RTL; they differ only if a data buffer overlaps its own IOPB, which no buffer of the two programs does.
- Interrupts are counted for a handler that clears IPND between IOPBs, and cannot in the one clock between the end of the last IOPB and the end of the chain.
- PatternDisk.Patwr: the path is a raw device of fixed size, where a regular file would grow on a write past its end instead of failing; a transfer that does not fit is taken to move nothing, and what earlier chunks of a failing pass left on the disk is not described.
- StrCopy.StrncpyLoop: source and destination do not overlap, and no access faults.
- The data bytes of Read Drive Status, which neither program issues.
- The fixed test sequences of the two boot programs' `main`, of which XyChain.ChainTest and WrProbe.Round are the general case; the comparison of block 1 with the running program.
- LoopFill.FillBlocks: the loop variable does not wrap, since memory ends first; the word-sized fill of case D is left out.
- The MMU, bridges, cache, DVMA, arbiter and SCSI RTL, the CPU-fault probes, and the build and synthesis scripts.
