# Board-test firmware: models and proofs

A Dafny model of the algorithms and protocols in a board-test firmware, with proofs of what they are
for. `dafny verify dfyconfig.toml` checks all of it.

| part | files | the main results |
|---|---|---|
| MD5 | `Md5Rfc`, `Md5Registers`, `Md5Context` | any cutting of a message into updates gives the digest of RFC 1321, although the 32-bit words live in 64-bit registers with garbage above them |
| DMA list builder | `SysDma` | every sequence of prepared transfers, walked by the controller, equals plain copies, although two pieces of state survive between calls |
| SPI NOR | `SpiNor`, `SpiNorDriver` | on a flash that programs a page within the polls success means the image is in the flash, whatever else it did to the cells it was given; on any slower one it may mean nothing; a sound flash succeeds exactly when every byte can be written, and then every cell is accounted for |
| CRC-16 | `Crc16` | the table loop is polynomial long division; bursts of up to 16 bits and all errors of odd weight are detected, and the limit is sharp |
| SD card | `SdCard`, `SdCommands`, `SdVoltage`, `SdProtocol`, `SdRegister` | over a bus that loses any commands and answers, exactly which losses make the driver send what the card does not expect; register fields across words read what the card sent |
| eMMC | `EmmcTiming` | bus width and timing agreement under refused switches and a failing bus, and the one exception |
| SD host data paths | `SdhciPio`, `SdhciAdma` | a write followed by a read restores the buffer, however often interrupted; the descriptor table tiles the buffer exactly below 4 GB, and hangs exactly when it does not fit |
| printf | `PrintfNumber`, `Printf`, `PrintfFormat`, `PrintfReads` | a format spelled from directives prints what they mean, and every conversion reads back as its argument; bounded output is a prefix of the unbounded one |
| lock and console | `ConsoleLock` | mutual exclusion and whole messages for any number of harts, nothing lost, no deadlock, and in every run a holder that takes its steps frees the lock |
| memory | `Mem` | memmove is a move for every overlap; exactly when an ascending copy is one |
| interrupts | `Plic` | each claim dispatched to the handler last registered and completed once; no source is left in service if and only if every handler leaves its own enabled |

`MachineWords` and `Options` are shared helpers. Machine integers are natural numbers with their
width and wrap-around written out; bitwise operations are defined bit by bit. Objects whose fields
the source updates in place are classes, and buffers it fills are arrays. Hardware is modelled as an
object next to the driver: it may be slow, refuse, or hold anything where its data sheet promises
nothing.

Standards used as independent references: RFC 1321 sections 3.1 to 3.5 (MD5); SD Physical Layer
Specification sections 4.3.9 (application commands), 4.8 (card states), 5.2 and 5.3 (CID and CSD); RISC-V Platform-Level Interrupt
Controller Specification (claim and completion).

## Model

| member | source | states |
|---|---|---|
| `Md5Registers.FormF` | common/md5.c:50 | the rewritten form ((c ^ d) & b) ^ d is the function F of RFC 1321, on numbers of any width |
| `Md5Registers.FormG` | common/md5.c:51 | the same for the rewritten G |
| `Md5Registers.LowMix` | common/md5.c:50-53 | in every round the mixing function on 64-bit registers has the low half RFC 1321 prescribes, whatever the upper halves hold |
| `Md5Registers.LowRotate` | common/md5.c:55-70 | the masked rotation of a register rotates its low 32 bits, whatever is above |
| `Md5Registers.R` | common/md5.c:55-70 | one use of a step macro performs, modulo 2^32, the next operation of section 3.4 of RFC 1321 |
| `Md5Registers.Round1` | common/md5.c:97-113 | the first 16 macro uses, constants and operand order included, are the first round of RFC 1321 |
| `Md5Registers.Round2` | common/md5.c:115-131 | the second round, likewise |
| `Md5Registers.Round3` | common/md5.c:133-149 | the third round, likewise |
| `Md5Registers.Round4` | common/md5.c:151-167 | the fourth round, likewise |
| `Md5Registers.HostC2lIsWord` | common/md5.c:92-95 | loading by shifts gives the little-endian words of the block |
| `Md5Registers.OneBlock` | common/md5.c:72-174 | 64 steps in 64-bit registers are the 32-bit compression of RFC 1321 section 3.4, for every chain value and block |
| `Md5Context.HostL2cIsLittleEndian` | common/md5.c:41-45 | storing by shifts and masks writes the word low-order byte first |
| `Md5Context.CountAdds` | common/md5.c:205-211 | the split counter with its carry test adds eight times the length modulo 2^64 |
| `Md5Context.PaddedBlocks` | common/md5.c:253-269 | one or two final blocks, split where the length still fits, are exactly the padding of sections 3.1 and 3.2 |
| `Md5Context.LengthBytes` | common/md5.c:263-270 | the two counter words in order are the 64-bit length |
| `Md5Context.Context.constructor` | common/md5.c:184-194 | the initial context stands for the empty message |
| `Md5Context.Context.BlockDataOrder` | common/md5.c:72-174 | n blocks in a row absorb exactly those bytes |
| `Md5Context.Context.FillBlock` | common/md5.c:214-224 | a buffer topped up to a block absorbs it and is empty again |
| `Md5Context.Context.Update` | common/md5.c:196-246 | the context then stands for the old message and the piece: buffer, chain and counter invariants for every piece, the empty one included |
| `Md5Context.Context.WholeBlocks` | common/md5.c:232-245 | whole blocks are absorbed from the caller's buffer, the rest is kept |
| `Md5Context.Context.FinishBlocks` | common/md5.c:253-272 | after the padding the chain is that of the padded message |
| `Md5Context.Context.Final` | common/md5.c:248-279 | the result is the digest RFC 1321 defines for the message |
| `Md5Context.Md5` | common/md5.c:281-295 | the one-call form gives the digest of its buffer |
| `Md5Context.DigestOfPieces` | common/md5.c:196-279 | for every cutting of a message into updates, empty pieces included, the digest is that of the concatenation |
| `SysDma.BaseControl` | drivers/sysdma/sysdma.c:123-130 | the control word has beats of four bytes at both ends, addresses that advance, both masters 0, each burst length in its own field, and nothing else |
| `SysDma.ControlBits` | drivers/sysdma/sysdma.c:141-157 | setting VALID and then LAST, also twice, leaves the other bits alone |
| `SysDma.BuildOne` | drivers/sysdma/sysdma.c:137-155 | one turn of the loop adds one well-formed item and links it behind the one before |
| `SysDma.MarkLast` | drivers/sysdma/sysdma.c:157 | the final store turns the built items into a chain that ends with the last one |
| `SysDma.WalkChain` | drivers/sysdma/sysdma.c:111-158 | a controller that takes the size of an item from its control word and walks a finished chain moves exactly len bytes, as one plain copy, in as many items as there are |
| `SysDma.CopyTwice` | drivers/sysdma/sysdma.c:137-143 | copying a prefix and then the rest is copying the whole, for disjoint areas |
| `SysDma.Dma.PrepareMemoryToMemory` | drivers/sysdma/sysdma.c:111-158 | after every call, first or later, the chain from the start address describes exactly this transfer, with these bursts in every item, although the first store of a later call lands in an old item |
| `SysDma.Dma.RunChannel` | drivers/sysdma/sysdma.c:292-330 | the channel started at a chain performs the walk |
| `SysDma.Dma.Transfer` | drivers/sysdma/sysdma.c:111-158 | preparing and running a transfer with any burst sizes is a copy, outside the descriptor area |
| `SysDma.Dma.TransferAll` | drivers/sysdma/sysdma.c:111-158 | so is every sequence of transfers, over the state that survives between calls |
| `SysDma.LoopEndsIff` | drivers/sysdma/sysdma.c:137-138 | the loop ends if and only if the length is a multiple of four |
| `SpiNor.AddressReaches` | drivers/spi_nor/bm_spi_nor.c:223-232 | three address bytes make the flash see the address modulo 16 MB |
| `SpiNor.ProgrammedCells` | drivers/spi_nor/bm_spi_nor.c:238-257 | a page program that stays inside its page clears bits of exactly the addressed cells |
| `SpiNor.DataOut` | drivers/spi_nor/bm_spi_nor.c:458-481 | the FIFO loop sends exactly the bytes asked for, of any number up to 65535, although its last word may be read past them |
| `SpiNor.DataIn` | drivers/spi_nor/bm_spi_nor.c:186-202 | the FIFO loop stores the bytes of the line in order and at most three behind them |
| `SpiNor.Flash.Command` | drivers/spi_nor/bm_spi_nor.c:333-394 | the flash: write enable, and erase only when enabled and not busy, of the aligned block |
| `SpiNor.Flash.CommandWithData` | drivers/spi_nor/bm_spi_nor.c:396-492 | the flash: page program only when enabled and not busy |
| `SpiNorDriver.WaitReady` | drivers/spi_nor/bm_spi_nor.c:748-757 | polling takes exactly the time of its status reads off the time the flash is still busy, and leaves it ready if and only if that is all of it |
| `SpiNorDriver.EraseSector` | drivers/spi_nor/bm_spi_nor.c:721-760 | refuses misaligned addresses; erases exactly the addressed sector; a sector size without a command changes nothing and is no error |
| `SpiNorDriver.DoPageProgram` | drivers/spi_nor/bm_spi_nor.c:790-827 | fails, changing nothing, exactly when too long, misaligned or sent to a flash that is busy by then; else programs the addressed bytes and nothing else, and leaves the flash busy for exactly what outlasts the status reads |
| `SpiNorDriver.DataRead` | drivers/spi_nor/bm_spi_nor.c:216-236 | a read fills the buffer with the cells of a flash that is ready by then, and with whatever a busy one drives |
| `SpiNorDriver.EraseSectors` | drivers/spi_nor/bm_spi_nor.c:857-861 | the erase loop clears exactly the sectors from the base on, around the end of the flash if need be |
| `SpiNorDriver.PageIsNew` | drivers/spi_nor/bm_spi_nor.c:867-894 | no page is programmed over one verified within the last 16 MB |
| `SpiNorDriver.PageWritable` | drivers/spi_nor/bm_spi_nor.c:877-889 | on a faithful flash the comparison of a page succeeds exactly when its bytes only clear bits |
| `SpiNorDriver.FlashProgram` | drivers/spi_nor/bm_spi_nor.c:837-898 | on a flash that programs a page within the polls, however it spoils the cells addressed, result 0 implies the image is stored; on a faithful one, however slow to program, result 0 means the erased contents with the image's zeros cleared; on a sound one it is 0 if and only if every byte is writable on the erased contents; on one that overruns it is 0 for any image the busy flash happens to show |
| `SpiNorDriver.UnseenOverrun` | drivers/spi_nor/bm_spi_nor.c:813-889 | for every page-program time beyond the polls a run that reports success with nothing stored |
| `SpiNorDriver.ErasesEnough` | drivers/spi_nor/bm_spi_nor.c:843-855 | the sectors erased cover the image if and only if their number fits the 8-bit counter and the flash has an erase command for them |
| `SpiNorDriver.AlwaysWritableIff` | drivers/spi_nor/bm_spi_nor.c:843-861 | every image of a size can be programmed over any contents if and only if that holds |
| `SpiNorDriver.ProgramImage` | drivers/spi_nor/bm_spi_nor.c:837-898 | a sound 64 KB-sector flash always takes such an image, and nothing outside the erased sectors changes |
| `Crc16.Division` | common/crc16.c:28-62 | the remainder is that of dividing by x^16+x^12+x^5+1: the dividend is the quotient times the polynomial plus a remainder of degree below 16 |
| `Crc16.TableIsShifts` | common/crc16.c:28-62 | every entry of the table is its index shifted through the register eight times |
| `Crc16.TableStepBits` | common/crc16.c:71 | one table step feeds the eight bits of a byte |
| `Crc16.Crc16Ccitt` | common/crc16.c:64-74 | the loop folds the table step over the buffer, and returns the start value for a length that is not positive |
| `Crc16.Crc16Pacing` | common/crc16.c:76-86 | the word variant is the byte variant on the low bytes |
| `Crc16.CcittFeeds` | common/crc16.c:64-74 | the whole loop is the bit-at-a-time register, for every start value and message |
| `Crc16.CcittIsDivision` | common/crc16.c:64-74 | and that is long division of the message, the start value added to its front |
| `Crc16.CcittAppend` | common/crc16.c:64-74 | the checksum of a concatenation continues from that of the first part |
| `Crc16.AppendedChecksum` | common/crc16.c:64-74 | a message followed by its checksum, high byte first, has checksum 0 |
| `Crc16.BurstDetected` | common/crc16.c:64-74 | two different messages of one length that differ within 16 consecutive bits have different checksums, for every start value |
| `Crc16.FeedParity` | common/crc16.c:64-74 | the register keeps the parity of start value and message, since x + 1 divides the polynomial |
| `Crc16.OddErrorDetected` | common/crc16.c:64-74 | two messages of one length that differ in an odd number of bits have different checksums, for every start value |
| `Crc16.GeneratorMissed` | common/crc16.c:64-74 | the limit is sharp: an error of the 17 bits of the polynomial itself is never seen |
| `SdCard.Bus.Send` | drivers/sdhci/bm_sdhci.c:595-615 | a command reaches the card or not and its answer the host or not; it succeeds exactly when both do and the card obeys it and gives the data; every loss and every illegal command is kept |
| `SdCard.LossesOfEntries` | drivers/sdhci/bm_sdhci.c:595-615 | the kinds of losses of a run are those of the commands in its log |
| `SdVoltage.SelectVoltage` | drivers/sdhci/mmc.c:115-134 | 0 exactly when no voltage of the defined range is known to both sides, and else the highest of these alone |
| `SdVoltage.OpCondArgument` | drivers/sdhci/mmc.c:226-233 | the power-up argument keeps the voltage, asks for high capacity, and for 1.8 V exactly when a UHS mode is wanted |
| `SdProtocol.Host.DeviceState` | drivers/sdhci/mmc.c:22-37 | status reads end, the last of them delivered, with the card ready and otherwise unchanged, or in the assertion when one is lost; they are legal exactly when the card expects no application command |
| `SdProtocol.Host.SendIfCond` | drivers/sdhci/mmc.c:58-79 | tells the card of a supply from 2.7 V exactly when the operating condition has one, so that without a loss the card answers exactly then |
| `SdProtocol.Host.SendAppOpCond` | drivers/sdhci/mmc.c:81-113 | the polls end with the card ready, and tell whether it accepts 1.8 V, or at a lost command; they go on for ever only without the high-capacity bit or for want of patience |
| `SdProtocol.Host.GetCid` | drivers/sdhci/mmc.c:220-253 | a card identified is signalling at 1.8 V exactly when it can and the host wants a UHS mode; without a loss the reset fails only where the data line says the voltage did not change, or where 1.8 V is forced and not to be had; all commands are legal |
| `SdProtocol.Host.SendScr` | drivers/sdhci/mmc.c:919-952 | its commands are legal if and only if the ACMD51 was not lost on its way; without a loss the register is the card's |
| `SdProtocol.Host.ReadSsr` | drivers/sdhci/mmc.c:810-882 | errors are passed over, and the card is left expecting ACMD13 exactly when that was lost on its way, or the answer to the CMD55 before it |
| `SdProtocol.Host.SdSwitch` | drivers/sdhci/mmc.c:322-353 | legal exactly when the card expects no application command; the function reported is the one the card is in, and which one that is after an error |
| `SdProtocol.Host.SetWidth4` | drivers/sdhci/mmc.c:291-320 | host and card change to four lines together, or the host does not |
| `SdProtocol.Host.SetupCard` | drivers/sdhci/mmc.c:1006-1041 | reading SCR, status and switch registers is legal exactly when no ACMD51 was lost, nor an ACMD13 with a CMD6 to follow, and leaves the card where it was |
| `SdProtocol.Host.InitUhsCard` | drivers/sdhci/mmc.c:428-621 | success means four lines and the timing the card is in: SDR104 before DDR50, SDR50, SDR25 and SDR12 among the shared modes, exactly if the card takes it, tuned for the first three, and driver type A exactly for SDR104 on a card that has it; all commands are legal |
| `SdProtocol.Host.InitPlainCard` | drivers/sdhci/mmc.c:1131-1166 | success means equal widths, and equal timings exactly unless the answer to the switch to high speed was lost |
| `SdProtocol.Host.InitCard` | drivers/sdhci/mmc.c:1089-1170 | success means selected, addressed, equal widths, and the width and timing of the UHS or the 3.3 V branch; a scan without losses fails for the stated reasons only; the legality of Rescan for the part behind the first reset |
| `SdProtocol.Host.Rescan` | drivers/sdhci/mmc.c:2295-2312 | over every bus, all commands of the first scan are legal if and only if no ACMD51 was lost on its way, nor an ACMD13 or the answer to the CMD55 before it with a CMD6 to follow; success leaves the card selected, addressed, with equal widths, on the lines and the timing both sides can best, with a voltage from 2.7 V in common, and equal timings exactly unless the answer to the high-speed switch was lost |
| `SdProtocol.Scan` | drivers/sdhci/mmc.c:2295-2312 | every such card comes up over a reliable bus; over one that loses every ACMD51, or every ACMD13 or announcement of it, the scan is illegal |
| `SdProtocol.FailingScans` | drivers/sdhci/mmc.c:838-952 | the four losses the driver does not cope with, one after the other, on any ordinary card |
| `SdProtocol.ExampleIsPlain` | drivers/sdhci/mmc.c:1089-1170 | a concrete card meets what these runs ask of one |
| `SdProtocol.Host.ReadBlocks` | drivers/sdhci/mmc.c:2319-2375 | returns the blocks asked for and leaves the card in the transfer state, one block or many, or ends in an assertion; illegal exactly for several blocks when an application command is expected |
| `SdProtocol.Host.EraseBlocks` | drivers/sdhci/mmc.c:2439-2484 | erases exactly the blocks asked for and waits for the transfer state; at an assertion it has erased these or none |
| `SdProtocol.Host.Operate` | drivers/sdhci/mmc.c:2319-2484 | any number of reads and erases in any order, each read seeing the erases before it, up to the first assertion |
| `SdProtocol.BlocksAfterAt` | drivers/sdhci/mmc.c:2439-2484 | a block holds the erased byte exactly when some operation erased it, and otherwise what it held |
| `SdProtocol.Session` | drivers/sdhci/mmc.c:2295-2484 | a scan and any operations behind it, together, over every bus, with the exact condition for their legality; the lines and timing the scan has chosen stay; behind a successful scan only a loss or a misread read stops them, and without a loss an ordinary card passes |
| `SdRegister.LongResponse` | drivers/sdhci/bm_sdhci.c:331-342 | the four words are the response registers shifted up by the stripped byte, modulo 2^128 |
| `SdRegister.ResponseWordIs` | drivers/sdhci/bm_sdhci.c:1084-1095 | the same, word by word |
| `SdRegister.UnstuffIsField` | drivers/sdhci/mmc.c:651-663 | the macro reads floor(x / 2^start) modulo 2^size for every field of 1 to 32 bits, also across two words |
| `SdRegister.UnstuffReadsCard` | drivers/sdhci/mmc.c:651-663 | assembled and unstuffed, a field is the one in the register the card sent, for any garbage in the controller's upper byte |
| `SdRegister.LowByteIsZero` | drivers/sdhci/bm_sdhci.c:331-342 | the byte the controller strips reads as 0 |
| `SdRegister.Card.DecodeCid` | drivers/sdhci/mmc.c:668-690 | the decoded CID is the card's |
| `SdRegister.Card.DecodeCsd` | drivers/sdhci/mmc.c:695-773 | the decoded CSD is the card's in both structure versions; any other is an error that changes nothing |
| `SdRegister.RateMeans` | drivers/sdhci/mmc.c:625-633 | a transfer rate is its value times its unit, as section 5.3 of the SD specification gives them; reserved codes give 0 |
| `SdRegister.AccessTimeMeans` | drivers/sdhci/mmc.c:635-642 | an access time is the smallest number of nanoseconds not below value times unit |
| `SdRegister.CapacityMeans` | drivers/sdhci/mmc.c:715-753 | the capacity is size and multiplier for version 1, and units of 512 KB for version 2 exactly below the largest size, which comes out as 0 |
| `SdRegister.EraseSizeMeans` | drivers/sdhci/mmc.c:728-733 | the erase size is the sector size of version 1 in sectors of 512 bytes, or one |
| `EmmcTiming.Host.SetBusWidth` | drivers/sdhci/mmc.c:524-528 | the host can be told to use four lines only when the device already does |
| `EmmcTiming.Host.RawSwitch` | drivers/sdhci/mmc.c:1776-1822 | with status reads, success means the register was written and a refusal that nothing was; without, only a later status tells |
| `EmmcTiming.Host.SelectBusWidth` | drivers/sdhci/mmc.c:1831-1866 | host and device widths agree on success; a positive result says four lines |
| `EmmcTiming.Host.SwitchStatus` | drivers/sdhci/mmc.c:1874-1884 | reports a refusal exactly when there was one |
| `EmmcTiming.Host.SelectHs200` | drivers/sdhci/mmc.c:1893-1939 | success means HS200 and four lines on both sides, or a host held to one line with its timing unchanged; after a refusal the old timing is back |
| `EmmcTiming.Host.SelectHs` | drivers/sdhci/mmc.c:1944-1965 | success means high speed on both sides, but after a refusal the host alone keeps it; without faults on the bus it reports exactly what the device decided |
| `EmmcTiming.RefusedHs` | drivers/sdhci/mmc.c:1944-1965 | a refused switch in full: the error is reported, the host is on high speed, the device is not |
| `EmmcTiming.Host.SelectHsDdr` | drivers/sdhci/mmc.c:1997-2058 | the DDR width keeps host and device on four lines |
| `EmmcTiming.Host.SelectTiming` | drivers/sdhci/mmc.c:1970-1992 | no timing is selected when none is shared, high speed when there is no HS200, and HS200 exactly when the device has accepted it; a refusal is no error, and on a faultless bus it succeeds unless the supply fails |
| `EmmcTiming.Host.InitCard` | drivers/sdhci/mmc.c:2167-2274 | on success the lines are as told on both sides, timing and signal voltage are those of the shared modes, and the timings are equal, except that behind a host on high speed or DDR the device is on high speed exactly when it has accepted the switch; for every outcome four lines on the host imply four on the device; with a faultless bus, a willing device and a sound supply it succeeds |
| `EmmcTiming.FirstScan` | drivers/sdhci/bm_sdhci.c:1555-1673 | the same from the set-up host on |
| `SdhciPio.WriteBlock` | drivers/sdhci/bm_sdhci.c:245-276 | the words written carry the block, for every block size, the last word padded |
| `SdhciPio.ReadBlock` | drivers/sdhci/bm_sdhci.c:212-243 | the block receives the first bytes of the words, which are consumed exactly, and nothing else changes |
| `SdhciPio.Request.TransferWrite` | drivers/sdhci/bm_sdhci.c:278-304 | however many blocks the controller takes, those sent are the next ones downwards, each once |
| `SdhciPio.Request.TransferRead` | drivers/sdhci/bm_sdhci.c:278-304 | likewise for a read: the stretch read equals the sender's, the rest is untouched |
| `SdhciPio.SendBlocks` | drivers/sdhci/bm_sdhci.c:278-304 | all calls of an interrupted write together send the blocks in order |
| `SdhciPio.SendAndReceive` | drivers/sdhci/bm_sdhci.c:212-304 | write and read back restore the buffer, for every number and size of blocks and however either was interrupted, and complete exactly when the controller was ready often enough |
| `SdhciAdma.WriteDesc` | drivers/sdhci/bm_sdhci.c:80-96 | the controller reads back attributes, length modulo 65536 and address; neighbours are untouched |
| `SdhciAdma.SegmentsTile` | drivers/sdhci/bm_sdhci.c:123-130 | the segments follow one another without gap or overlap, and are ceil(total / 65536) many |
| `SdhciAdma.WalkListed` | drivers/sdhci/bm_sdhci.c:112-139 | a listed table with its end marker is walked as its segments, length 0 standing for 65536 |
| `SdhciAdma.TablePre` | drivers/sdhci/bm_sdhci.c:112-139 | from either start offset the controller transfers the segments of the size modulo 2^32, which make up the buffer if and only if it is smaller than 4 GB; every write is inside the table, and the capacity check hangs if and only if the descriptors and the end marker do not fit |
| `SdhciAdma.WholeBuffer` | drivers/sdhci/bm_sdhci.c:118 | the product in 32 bits is the whole size exactly below 4 GB |
| `SdhciAdma.FourGigabytes` | drivers/sdhci/bm_sdhci.c:118-139 | a request for 4 GB passes the capacity check with nothing to transfer |
| `SdhciAdma.CmdDescInit` | drivers/sdhci/bm_sdhci.c:98-109 | the command descriptors stay in front of the ADMA3 data descriptors |
| `PrintfNumber.DigitsValue` | common/stdlib/subr_prf.c:193-207 | the digits, read in their base, give the number |
| `PrintfNumber.DigitsLength` | common/stdlib/subr_prf.c:67-68 | a number below 2^n has at most n digits in every base |
| `PrintfNumber.KsPrintN` | common/stdlib/subr_prf.c:193-207 | the digits of every 64-bit number in every base, reversed behind a NUL, fit the 65-byte buffer |
| `PrintfNumber.NumberLength` | common/stdlib/subr_prf.c:506-533 | the text is as long as the larger of the width and sign, prefix and the larger of precision and digits |
| `PrintfNumber.NumberRoundTrip` | common/stdlib/subr_prf.c:490-533 | reading the text in its base gives sign and magnitude, for every base, width, precision and flag |
| `PrintfNumber.SignedRoundTrip` | common/stdlib/subr_prf.c:490-495 | a signed conversion reads as the two's complement value |
| `Printf.Sink.Put` | common/stdlib/subr_prf.c:157-166 | one character more is counted, and stored while there is room for it and the NUL |
| `Printf.PutNumber` | common/stdlib/subr_prf.c:490-533 | the numeric branch prints the layout: spaces, sign, prefix, zeros, digits, spaces |
| `Printf.PutText` | common/stdlib/subr_prf.c:415-434 | the string branch prints at most the precision, padded on the right side |
| `Printf.ScanConversion` | common/stdlib/subr_prf.c:275-326 | the modifier loop finds the conversion character and its flags |
| `Printf.KvPrintf` | common/stdlib/subr_prf.c:235-548 | the engine ends on every supported format, prints its output and counts it |
| `Printf.VsnrPrintf` | common/stdlib/subr_prf.c:172-185 | exactly the first min(result, size - 1) characters and a NUL are stored, nothing for size 0, and the result does not depend on the size |
| `Printf.VsnPrintf` | common/stdlib/subr_prf.c:143-155 | the same with radix 10 |
| `PrintfFormat.ScanDirective` | common/stdlib/subr_prf.c:275-326 | scanning %[flags][width][.precision][length]conversion yields the meaning of its parts |
| `PrintfFormat.SpelledOutput` | common/stdlib/subr_prf.c:235-548 | a format spelled from literals and directives prints the literals and what the directives mean, each with its own arguments |
| `PrintfFormat.FormatOutput` | common/stdlib/subr_prf.c:235-548 | and every such format is supported |
| `PrintfFormat.DecimalReadsBack` | common/stdlib/subr_prf.c:473-533 | %d under any flags, width and precision reads back as the int argument |
| `PrintfReads.UnsignedReads` | common/stdlib/subr_prf.c:439-468 | %u, %o, %x, %X and %r read, in base 10, 8, 16 or the radix, as the argument modulo the size its length modifier names |
| `PrintfReads.SignedReads` | common/stdlib/subr_prf.c:360-489 | %d, %i, %y and %+r read as the argument as a signed number of that size |
| `PrintfReads.PointerReads` | common/stdlib/subr_prf.c:401-406 | %p reads in base 16 as all 64 bits |
| `PrintfReads.LetterCase` | common/stdlib/subr_prf.c:442-446 | %X prints capital letters, every other conversion small ones |
| `PrintfReads.HexPrefix` | common/stdlib/subr_prf.c:401-533 | the prefix 0x is there exactly with the flag #, for pointers exactly without a width, and for numbers other than 0 |
| `PrintfReads.NumericShape` | common/stdlib/subr_prf.c:490-533 | sign, prefix, digits for the precision or for zero filling, and blanks up to the width on the right side: the length of all of them |
| `PrintfReads.StringShape` | common/stdlib/subr_prf.c:415-434 | %s shows the string, or (null), cut to the precision at the right side, filled up to the width |
| `PrintfReads.CharacterShape` | common/stdlib/subr_prf.c:343-345 | %c shows the low byte of its argument |
| `PrintfReads.ArgumentsTaken` | common/stdlib/subr_prf.c:275-434 | a directive takes one argument for each star and one of its own |
| `ConsoleLock.StepInv` | common/riscv_lock.c:18-45 | every step of every hart keeps the invariant |
| `ConsoleLock.MutualExclusion` | common/thread_safe_printf.c:11-23 | in every run of any number of harts at most one holds the lock, one does exactly while the word is set, and the console is whole messages and a prefix of the holder's |
| `ConsoleLock.NothingLostFromStart` | common/thread_safe_printf.c:11-23 | each hart's messages appear once each, in the order of its calls |
| `ConsoleLock.HolderFinishes` | common/riscv_lock.c:42-45 | the holder can always print the rest of its message and free the lock |
| `ConsoleLock.HolderReleases` | common/thread_safe_printf.c:11-23 | in every run, whatever the others do, the holder frees the lock if and only if it takes one step for each remaining character and one more, and its message is then in the log |
| `ConsoleLock.WaitingFinishes` | common/riscv_lock.c:31-40 | from every reachable state a waiting hart can be scheduled to completion, behind at most one other message |
| `Mem.MemCmp` | common/stdlib/mem.c:45-62 | 0 exactly when the bytes agree, otherwise one more than the index of the first difference |
| `Mem.MemCpy` | common/stdlib/mem.c:67-76 | an ascending copy, with the repetition an overlap causes |
| `Mem.AscendingSafe` | common/stdlib/mem.c:67-76 | it is a move for all contents if and only if the destination does not start inside the source behind its first byte |
| `Mem.WrappingTest` | common/stdlib/mem.c:100-109 | the one unsigned comparison tells exactly whether the destination starts in the source |
| `Mem.MemMove` | common/stdlib/mem.c:98-120 | for every overlap the destination receives what the source held, and nothing else changes |
| `Plic.OneEnableChanges` | common/system.c:130-148 | the read-modify-write changes the enable bit of one source only |
| `Plic.System.constructor` | common/system.c:193-212 | after initialisation nothing is registered or enabled |
| `Plic.System.MaskIrq` | common/system.c:121-134 | a source from 16 on is disabled, others are as before; the enable words stay those of the history |
| `Plic.System.UnmaskIrq` | common/system.c:135-150 | likewise for enabling |
| `Plic.System.RequestIrq` | common/system.c:214-235 | a number out of range is refused without a change; otherwise handler, priority and enable bit are set |
| `Plic.System.Claim` | common/system.c:151-154 | the controller: the claimable source of the highest priority, the lowest of these, or 0 exactly when there is none |
| `Plic.System.Complete` | common/system.c:155-158 | the controller: completion is obeyed exactly for an enabled source |
| `Plic.System.Dispatch` | common/system.c:254-265 | the claimed source goes to the handler last registered for it, with its number and data, or is reported missing; what its calls make of every enable bit |
| `Plic.System.Serve` | common/system.c:254-267 | a claimed source leaves service if and only if its handler leaves it enabled |
| `Plic.System.DoIrq` | common/system.c:249-270 | with any handlers, which may do something else every time, the loop ends; claims, dispatches and completions keep their order; nothing is claimable at the end; every source pending before and not after was claimed; no source is in service if and only if none was before and every handler dispatched left its own source enabled |
| `Plic.NoneStuck` | common/system.c:254-267 | the sources left behind by a stretch of history are those of masking handlers |
| `Plic.Interrupted` | common/system.c:249-270 | one interrupt with a handler of any calls: masked at the end, it stays in service |
| `Plic.MaskingHandlers` | common/system.c:249-270 | a handler that disables its source leaves it in service, one that disables and enables it does not |
| `Plic.ClaimsCompleted` | common/system.c:249-270 | in such a history every claim of a source is completed exactly once |

## Left out

- Register polling, delays, timeouts, fences, cache maintenance, clock and PHY set-up; a device answers eventually. Erase and page-program times beyond the polling limits are parameters of the flash.
- SpiNor.DataOut: the error return of a FIFO that stays full for 300 ms is left out; the caller does not look at it, and what the flash then takes is not defined.
- SpiNorDriver.FlashProgram: for images above 16 MB it states the last 16 MB, which are what the flash can hold. A flash that does not program as its data sheet says still changes the cells addressed only. Time passes between transfers, not during one.
- SdProtocol.Host.Rescan: standard-capacity cards and a second scan, with the card already at 1.8 V, are not covered. All commands are legal only under the condition stated, since the source passes over failures of ACMD51 and ACMD13; a card is taken to read behind CMD55 only those commands as application commands that have such a meaning.
- SdCard.Bus.Send: the switch error and other error flags in an answer are not modelled; every card supports four data lines, as section 5.6 of the SD Physical Layer Specification requires of memory cards.
- SdProtocol.Host.InitUhsCard: the driver type set on the host's pads and software tuning are left out; the controller decides how many tuning blocks it asks for.
- SdProtocol.Host.ReadBlocks: the block count command is never enabled by the host set-up and is not modelled; a single-block read is taken to have ended when its data have arrived.
- EmmcTiming.Host.InitCard: power-up, identification and the extended CSD are one step that may fail; whether there is an extended CSD and a partition to switch off are parameters.
- EmmcTiming.FirstScan: the same, and the timings host and device share are a parameter.
- EmmcTiming.Host.RawSwitch: the delay behind a switch is taken to be as long as the device needs, as it declares.
- EmmcTiming.Host.SelectHs: agreement of host and device in high speed fails after a refused switch (RefusedHs), because the source does not restore the timing there.
- SdhciAdma.TablePre: the 26-bit length mode is not modelled; requests of 4 GB and more are transferred in part only (FourGigabytes).
- SdhciPio.SendAndReceive: the order of the blocks on the card (last first) is modelled, not judged.
- Printf.KvPrintf: formats with %b, %D or %n and formats that end inside a conversion are excluded; counts and widths are not bounded to 32 bits; `sprintf` and `vsprintf`, which store without a bound, are left out.
- Printf.VsnrPrintf: the same formats are excluded.
- Printf.VsnPrintf: the same formats are excluded.
- Mem.MemCmp: the source counts in a 32-bit int, which wraps for buffers of 2^31 bytes and more; the count is unbounded here.
- Plic.System.DoIrq: nested interrupts and sources from 256 on are left out. A handler that leaves its own source disabled keeps it in service, since the controller ignores the completion (MaskingHandlers).
- Plic.System.MaskIrq: numbers from 256 on, whose enable bits lie behind the modelled registers, are left out.
- Plic.System.UnmaskIrq: likewise.
- ConsoleLock.MutualExclusion: sequentially consistent memory; the barriers of the source are not modelled.
- SysDma.Dma.TransferAll: source, destination and descriptor area are disjoint and lengths positive multiples of four, as the source needs; the device directions add a quarter of the offset to an integer address, so the copy property does not carry over to them.
- SPI NAND, I2C, UART, timers, DDR and PHY tables, the command line, `strcpy`, `_sbrk` and the start of secondary harts: register plumbing or easy members.
- MMC block writes: their last poll waits for ready-for-data, not for the transfer state.
