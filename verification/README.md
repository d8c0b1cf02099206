# The transmit half of a P25 site, verified

SiteSim is a Project 25 Phase 1 control-channel site. It builds trunking signalling blocks (TSBKs), codes and frames
them, modulates the frames with C4FM, and hands the samples to an SDR through a ring shared by two threads; when a
radio asks for something on the uplink it queues an answer behind its own broadcasts. This project models that chain
in Dafny and proves what it is for: that a radio can read every frame back, how much damage a frame survives and why,
that the ring is a queue whatever the two threads do, that every broadcast and every queued answer gets its turn, and
that an affiliation or registration request comes back answered with the fields it was sent with.

What the transmitter computes is compared with what the receiving side of the same repository knows by itself: its
sync pattern, its trellis and interleaving tables, the roots of its NID code, its slicer, its status symbols, and the
numbers and bit positions its message decoder reads. None of these is written in terms of the transmitter's tables.

`dafny verify dfyconfig.toml` checks everything.

| file | models |
|---|---|
| `Crc.dfy`, `CrcBytes.dfy`, `CrcDetection.dfy` | the CRC register as polynomial division, by bits and by bytes, and what it detects |
| `Trellis.dfy`, `Interleaver.dfy`, `StatusSymbols.dfy`, `Nid.dfy` | the coding stages, with their inverses and distances |
| `Bch.dfy`, `NidCode.dfy` | the BCH bound, and the NID code as the multiples of its generator, 23 bits apart |
| `Tsbk.dfy`, `Messages.dfy` | the block and its messages, with a reader for each |
| `Frame.dfy`, `FrameRecovery.dfy` | whole frames, a receiver, distance and burst tolerance of the composed code |
| `BitOrder.dfy`, `GoodBursts.dfy` | the order of the bits under the CRC, and bursts against all the stages together |
| `DibitRegister.dfy`, `RunPatterns.dfy`, `GoodDistance.dfy` | the CRC a dibit at a time, which light patterns it misses, and the exact distance of good frames |
| `RingProtocol.dfy`, `SoapyTx.dfy` | the ring as two interleaving threads, and as a class |
| `C4fm.dfy` | the polyphase modulator against plain convolution |
| `Scheduler.dfy`, `ControlChannel.dfy` | the frame scheduler over whole histories, and the class that drives the rest |
| `Site.dfy` | the five system messages of a configured site |
| `SiteRun.dfy`, `Progress.dfy` | the producer thread's loop against every schedule of the reading thread: what it keeps, and that it moves on |
| `Uplink.dfy`, `EndToEnd.dfy`, `OnAir.dfy` | requests, the handler, request-to-answer fidelity, and an answer's way to the hardware |
| `Bits.dfy`, `Words.dfy`, `Distance.dfy`, `Modular.dfy`, `Wrappers.dfy` | bits and values of words, Hamming distance, ring arithmetic, options |

The functions that pack or choose values are functions; the code that works step by step is written as methods with
loops or as classes that update their fields, each proved to compute the function that the lemmas are about.

## Where the code and its words differ

- The comment at src/tx/ControlChannel.cpp:101 says that every burst of five frames carries all the system messages.
  That holds exactly when the queue is empty at the start of the burst and nothing is queued before its last frame
  (`BurstExactly`); one block queued before the first burst already breaks it (`OneBlockBreaksBurst`), and with four
  queued a burst carries one system message (`BusyBurst`). What holds always is one per burst and all five in any 25
  frames (`Fairness`).
- The handler logs "queued" for an affiliation or a registration whether or not the queue took the answer
  (src/rx/RxPipeline.cpp:179-198). What it logs is true exactly when fewer than 128 blocks are queued
  (`LoggedQueuedIff`); 128 are reached by queueing alone (`QueueFills`), and then a request is logged and nothing
  else happens (`QueuedInNameOnly`).
- BuildURegRsp sends verdict 1 for an accepted registration (src/p25/TSBK.cpp:179). The repository's own decoder takes
  0 for acceptance and 1 for failure (third_party/dsd-neo/src/protocol/p25/phase2/p25p2_vpdu.c:3314-3335), so what it
  reads is an acceptance exactly when the answer was not built as one (`AcceptanceMisread`).
- The tester puts the system of a registration request at bit 36 of the arguments (subscriber_test/p25.go:187-190); the
  decoder prints what stands four bits higher, which is the same system only for zero (`SystemMisread`).
- BuildIDENUp keeps the offset only when its magnitude fits eight bits, and the base frequency, to within its
  unit of 5 Hz, only below 5 * 2^32 (`IdenUpRoundTrip` says exactly when).
- A frame survives any burst of 24 dibits, and not every one of 25, if the receiver does not heed the CRC
  (`BurstTolerance`, `BurstLimit`). If it does, a frame survives any burst of 37, and none survives every one of 38
  (`GoodBurstTolerance`, `GoodBurstLimit`). Two good frames are at least ten dibits and sixteen bits apart, and every
  good frame has another just so far away (`GoodFrameDistance`, `NearestNeighbour`).

## Model

| member | source | states |
|---|---|---|
| `Crc.CrcCcitt` | src/p25/TSBK.cpp:36-50 | the loop over a 32-bit register that is never masked returns the inverted result of the 16-bit register run over the 80 bits |
| `Crc.RunDivides` | src/p25/TSBK.cpp:36-50 | the feedback bits of the loop are a quotient and the register a remainder of M(x)x^16 by x^16+x^12+x^5+1, for bit strings of any length |
| `Crc.RemainderUnique` | src/p25/TSBK.cpp:37 | quotient and remainder by the generator are unique |
| `Crc.RunIsRemainder` | src/p25/TSBK.cpp:36-50 | a string is the remainder of M(x)x^16 if and only if it is what the register holds |
| `CrcBytes.RunIsDigest` | src/p25/TSBK.cpp:36-50 | over whole bytes the loop can be run a byte at a time, in closed form |
| `CrcBytes.DigestLinear` | src/p25/TSBK.cpp:36-50 | and the register of a difference of byte strings is the difference of the registers |
| `CrcDetection.RunLinear` | src/p25/TSBK.cpp:36-50 | the register of a sum is the sum of the registers |
| `CrcDetection.ZeroRunIsMultiple` | src/p25/TSBK.cpp:36-50 | the register ends at zero if and only if the string is a multiple of the generator |
| `CrcDetection.BurstDetected` | src/p25/TSBK.cpp:36-50 | a nonzero pattern within 16 neighbouring bits leaves a nonzero register |
| `CrcDetection.OddDetected` | src/p25/TSBK.cpp:36-50 | so does every pattern of odd weight |
| `CrcDetection.DoubleDetected` | src/p25/TSBK.cpp:36-50 | so does every two-bit pattern in up to 96 bits |
| `CrcDetection.RunAbsorbs` | src/p25/TSBK.cpp:36-50 | running on over 16 more bits only depends on their sum with the register |
| `CrcDetection.Residue` | src/p25/TSBK.cpp:85-98 | a message passes with its check word if and only if the register run over both ends in 0x1D0F |
| `CrcDetection.UndetectedIffMultiple` | src/p25/TSBK.cpp:85-98 | damage to a good codeword passes if and only if it is a multiple of the generator |
| `CrcDetection.GoodCodewordsFarApart` | src/p25/TSBK.cpp:85-98 | two good codewords differ in an even number of bits, at least four, two of them sixteen or more apart |
| `Tsbk.BuildTsbk` | src/p25/TSBK.cpp:85-98 | the method that fills the twelve bytes returns header, arguments and check word, high byte first |
| `Tsbk.BlockReads` | src/p25/TSBK.cpp:85-98 | a receiver reads back the header word and the arguments of every built block, and its CRC passes |
| `Tsbk.UndetectedDamage` | src/p25/TSBK.cpp:85-98 | a damaged block passes if and only if the damage is a multiple of the generator |
| `Tsbk.DamageDetected` | src/p25/TSBK.cpp:85-98 | up to three flipped bits, any odd number, and any damage within 16 neighbouring bits make the CRC fail |
| `Trellis.TrellisEncode` | src/p25/TSBK.cpp:52-65 | the loop with its flush step computes the recursive code, and a decoder by the receiver's table gets the input back |
| `Trellis.TablesAgree` | third_party/dsd-neo/src/protocol/p25/p25_12.c:24 | for every state and input, the four bits sent are the entry of the receiver's own transition table |
| `Trellis.DecodeIffEncode` | src/p25/TSBK.cpp:52-65 | decoding by the receiver's table yields an input if and only if the string is that input's code, flush included |
| `Trellis.CodeDistance` | src/p25/TSBK.cpp:29-65 | for inputs of any length, two that differ in w bits are coded at least w + 2 dibits and w + 4 bits apart, so at least three and five |
| `Trellis.EveryPartingPays` | src/p25/TSBK.cpp:29-65 | on the paths of any two inputs, from any two states, the code adds two dibits or four bits to the inputs' own distance in every place where they part |
| `Trellis.AdjacentSteps` | src/p25/TSBK.cpp:52-65 | two different inputs differ in two adjacent steps, in three dibits there or in the step after as well |
| `Interleaver.DataInterleave` | src/p25/TSBK.cpp:67-83 | the loops with strides of eight compute the interleaving permutation |
| `Interleaver.Inverse` | src/p25/TSBK.cpp:67-83 | de-interleaving undoes it, and the other way round |
| `Interleaver.InterleavedByTable` | third_party/dsd-neo/src/protocol/p25/p25_12.c:15-19 | what is sent in each place is what the receiver's own table says |
| `Interleaver.Spread` | src/p25/TSBK.cpp:67-83 | neighbouring trellis steps are sent at least 12 pairs apart, steps two apart at least 23 |
| `StatusSymbols.InsertStatusSymbols` | src/p25/Frame.cpp:33-58 | both loops together, the padding loop with its measure, put the status symbol in every slot 35 modulo 36, data in between and zeros to fill, in 36 ceil(n/35) dibits |
| `StatusSymbols.DataAt` | src/p25/Frame.cpp:33-58 | data dibit m is found at m + m/35 |
| `StatusSymbols.Recovered` | src/p25/Frame.cpp:33-58 | for data of any length, dropping the status slots and taking n dibits restores the data |
| `Nid.EncodeBch` | src/p25/NID.hpp:22-29 | the loop over the rows computes the sum of the selected rows, of which the rows below say what it is |
| `Nid.Linear` | src/p25/NID.hpp:10-29 | the NID code is linear over exclusive or |
| `Nid.Systematic` | src/p25/NID.hpp:10-29 | the top sixteen bits of every codeword are its data |
| `Bch.BchBound` | third_party/dsd-neo/include/dsd-neo/fec/BCH_63_16.hpp:94-109 | any string of at most 63 bits whose syndromes at 1 to 22 vanish in the field of 64 elements has no bit set, or at least 23 |
| `NidCode.CodewordIsMultiple` | third_party/dsd-neo/include/dsd-neo/fec/BCH_63_16.hpp:308-345 | every codeword is, without its last bit, a multiple of the generator of degree 47; the last bit is the sum of the two lowest data bits |
| `NidCode.CodewordClean` | third_party/dsd-neo/include/dsd-neo/fec/BCH_63_16.hpp:94-109 | the receiver's 22 syndromes of every codeword vanish |
| `NidCode.NidDistance` | src/p25/NID.hpp:10-29 | the first 63 bits of any two codewords differ in at least 23 |
| `NidCode.NidLimit` | src/p25/NID.hpp:10-29 | and those of two of them in just 23 |
| `NidCode.NearestNid` | src/p25/NID.hpp:10-29 | after at most eleven bit errors the NID that was sent is the only nearest one |
| `Messages.NetStatusRoundTrip` | src/p25/TSBK.cpp:100-108 | NET_STS_BCAST is a good block, the last of its frame and in the clear, with opcode 0x3B, from which every masked field is read back; its reserved bits are zero |
| `Messages.RfssStatusRoundTrip` | src/p25/TSBK.cpp:110-121 | RFSS_STS_BCAST likewise, with opcode 0x3A |
| `Messages.IdenUpRoundTrip` | src/p25/TSBK.cpp:123-138 | IDEN_UP, with opcode 0x3D: the fields are read back, the offset if and only if its magnitude is at most 255; five times the units read are the base frequency, to within 5 Hz, if and only if it is below 5 * 2^32 |
| `Messages.OffsetRoundTrip` | src/p25/TSBK.cpp:126-130 | the sign-magnitude offset field is read back if and only if the magnitude is at most 255 |
| `Messages.VoiceGrantRoundTrip` | src/p25/TSBK.cpp:140-146 | GRP_VCH_GRANT has opcode 0x00 and is read back field by field |
| `Messages.VoiceGrantUpdateRoundTrip` | src/p25/TSBK.cpp:148-154 | GRP_VCH_GRANT_UPD has opcode 0x02 and is read back field by field |
| `Messages.AffiliationResponseRoundTrip` | src/p25/TSBK.cpp:156-165 | GRP_AFF_RSP has opcode 0x28 and is read back field by field; its reserved bits are zero |
| `Messages.LocationResponseRoundTrip` | src/p25/TSBK.cpp:167-175 | LOC_REG_RSP has opcode 0x2B and is read back field by field; its reserved bits are zero |
| `Messages.RegistrationResponseRoundTrip` | src/p25/TSBK.cpp:177-185 | U_REG_RSP has opcode 0x2C and is read back field by field, the verdict being 1 for an accepted unit and 0 for another |
| `Messages.AcceptanceMisread` | third_party/dsd-neo/src/protocol/p25/phase2/p25p2_vpdu.c:3314-3335 | the repository's decoder takes it for an acceptance if and only if it was not built as one, and otherwise for a failure |
| `Messages.AdjacentStatusRoundTrip` | src/p25/TSBK.cpp:187-196 | ADJ_STS_BCAST has opcode 0x3C and is read back field by field; its reserved bits are zero |
| `Messages.BuildSyncBcast` | src/p25/TSBK.cpp:198-247 | the method that packs the bytes and folds them into a word builds the SYNC block for the given clock |
| `Messages.SyncRoundTrip` | src/p25/TSBK.cpp:198-247 | opcode 0x30; of any calendar time, year of the century, month from one, day, hour, minute, 135 slots a second and the flags are read back; the offset read is the local one in half hours, rounded towards zero and held to 31 either way |
| `Messages.OffsetByteRoundTrip` | src/p25/TSBK.cpp:219-223 | the offset in half hours, sign and magnitude, is read back |
| `Frame.BytesToDibits` | src/p25/Frame.cpp:8-16 | appends the dibits of the bytes |
| `Frame.BytesOfDibits` | src/p25/Frame.cpp:8-16 | the dibits of any bytes spell those bytes |
| `Frame.Uint64ToDibits` | src/p25/Frame.cpp:18-31 | appends the last n dibits of the word |
| `Frame.BuildFrame` | src/p25/Frame.cpp:60-86 | composes sync, NID, coded and interleaved block and status symbols into 180 dibits |
| `Frame.BuildTduFrame` | src/p25/Frame.cpp:88-101 | composes a terminator of 180 dibits |
| `FrameRecovery.FrameRoundTrip` | src/p25/Frame.cpp:60-86 | a receiver with its own sync pattern, NID test, DUID, tables and CRC gets back (NAC mod 4096, DUID 7, block) from every frame whose block passes its CRC, and nothing otherwise |
| `FrameRecovery.TduReads` | src/p25/Frame.cpp:88-101 | a terminator is in sync, passes the NID test with its NAC and DUID 3, carries zeros, and is never taken for a block |
| `FrameRecovery.StatusUnknown` | third_party/dsd-neo/src/protocol/p25/phase1/p25_status_symbol.c:70-115 | every status symbol of every frame is 2, so the receiver cannot tell from them which side sent it |
| `FrameRecovery.FrameDistance` | src/p25/Frame.cpp:60-86 | frames of different blocks differ in at least three dibits and at least five bits |
| `BitOrder.SameOrder` | src/p25/TSBK.cpp:36-50 | the bits the CRC covers, in its order, are the bits of the dibits that the trellis code is given |
| `FrameRecovery.FrameKeepsDibits` | src/p25/Frame.cpp:60-86 | two frames under one NAC are exactly as many dibits apart as their coded blocks |
| `FrameRecovery.FrameKeepsBits` | src/p25/Frame.cpp:60-86 | and exactly as many bits |
| `DibitRegister.ZeroDigest` | src/p25/TSBK.cpp:36-50 | bytes leave the CRC register at zero if and only if their dibits, added at its low end two turns at a time, leave it at zero |
| `RunPatterns.NeverCarried` | src/p25/TSBK.cpp:36-50 | of two runs of dibits with at most six set bits between them, the register carries neither onto the other over any distance within a block |
| `GoodDistance.FewRunsAreHeavy` | src/p25/TSBK.cpp:36-50 | damage to a block that the CRC misses has eleven set bits at least if it is one run of dibits, and seven if it is two |
| `GoodDistance.GoodFrameDistance` | src/p25/Frame.cpp:60-86 | frames of different blocks that pass the CRC differ in at least ten dibits and at least sixteen bits: CRC, trellis, interleaver and status symbols together |
| `GoodDistance.NearestNeighbour` | src/p25/Frame.cpp:60-86 | every good block has another good one whose frame differs in exactly ten dibits and exactly sixteen bits: the distance is exact |
| `GoodDistance.NearestIsSent` | src/p25/Frame.cpp:60-86 | after at most two bit errors or one dibit error the sent block is the only nearest one; among good blocks after seven bit errors or four dibit errors |
| `FrameRecovery.BurstTolerance` | src/p25/Frame.cpp:33-86 | two blocks whose frames agree outside some 24 consecutive on-air dibits are equal |
| `FrameRecovery.BurstLimit` | src/p25/Frame.cpp:33-86 | two different blocks whose frames agree outside 25: the bound is exact over all blocks |
| `GoodBursts.GoodDigest` | src/p25/TSBK.cpp:85-98 | a block passes its CRC if and only if its twelve bytes leave the register at 0x1D0F |
| `GoodBursts.GoodBurstTolerance` | src/p25/Frame.cpp:33-86 | two blocks that pass the CRC and whose frames agree outside some 37 consecutive on-air dibits are equal |
| `GoodBursts.GoodBurstLimit` | src/p25/Frame.cpp:33-86 | every good block has another good one whose frame agrees with its own outside 38: the bound is exact over good blocks |
| `RingProtocol.StepInv` | src/tx/SoapyTx.cpp:151-180 | every load, byte copy and publication of either thread keeps the ring invariant, stale loads included |
| `RingProtocol.RunInv` | src/tx/SoapyTx.cpp:151-180 | so every interleaving does |
| `RingProtocol.StepIsQueueStep` | src/tx/SoapyTx.cpp:157-173 | publishing a write appends its bytes to the queue, publishing a read takes what was read off the front, no other step shows |
| `RingProtocol.RegionsDisjoint` | src/tx/SoapyTx.cpp:157-173 | a cell still to be written is never a cell still to be read |
| `RingProtocol.NothingInvented` | src/tx/SoapyTx.cpp:175-180 | what was published and the write in progress are what was handed to write |
| `RingProtocol.RingRefinesFifo` | src/tx/SoapyTx.cpp:151-180 | in every run the bytes read are a prefix of the bytes written, occupancy stays below N, and full never looks empty |
| `RingProtocol.ChunksCarry` | src/tx/SoapyTx.cpp:216-236 | in every run each chunk handed to the hardware is full, and without the zero padding the chunks are a prefix of what was written |
| `RingProtocol.NoSpin` | src/tx/SoapyTx.cpp:175-180 | for every schedule, if the threshold and the bytes written between two passed polls fit the ring, the wait in write never waits |
| `RingProtocol.ChunksAligned` | src/tx/SoapyTx.cpp:216-236 | if writes are whole I/Q pairs, every read starts on an I byte and ends on a Q byte, short reads included |
| `RingProtocol.IndicesEven` | src/tx/SoapyTx.cpp:157-173 | and both published indices are always even |
| `RingProtocol.CellsInRange` | src/tx/SoapyTx.cpp:157-173 | in every state that keeps the invariant, a byte about to be copied in or out has its cell inside the ring |
| `RingProtocol.NeverStuck` | src/tx/SoapyTx.cpp:151-180 | and each thread has exactly one step to take, except that the producer between operations may poll or write |
| `RingProtocol.ReaderDrains` | src/tx/SoapyTx.cpp:216-236 | for every schedule, each read after the first since a write takes a full chunk or all there is, so the ring empties a chunk at a time |
| `RingProtocol.ReadsEnd` | src/tx/SoapyTx.cpp:216-236 | while nothing is written, every chunk + 3 of the reader's own steps complete a read |
| `RingProtocol.OperationEnds` | src/tx/SoapyTx.cpp:175-180 | a poll passes within four of the producer's own steps once the reader has caught up, and a write that finds room ends within its bytes and three |
| `SoapyTx.SoapyTx.constructor` | src/tx/SoapyTx.hpp:56-58 | a new ring is empty |
| `SoapyTx.SoapyTx.RingAvailable` | src/tx/SoapyTx.cpp:151-155 | returns how many bytes the ring holds, fewer than its size |
| `SoapyTx.SoapyTx.RingWrite` | src/tx/SoapyTx.cpp:157-164 | appends the bytes to the contents |
| `SoapyTx.SoapyTx.RingRead` | src/tx/SoapyTx.cpp:166-173 | removes the oldest n bytes and returns them in order |
| `SoapyTx.SoapyTx.Write` | src/tx/SoapyTx.cpp:175-180 | where there is room, appends the bytes |
| `SoapyTx.SoapyTx.NextChunk` | src/tx/SoapyTx.cpp:221-231 | delivers a full chunk, or what there is padded with zeros, and removes exactly what it delivered |
| `C4fm.PolyphaseIsConvolution` | src/p25/C4FM.cpp:42-76 | the accumulator for symbol k and phase p is the FIR sum over the stream up-sampled by 500, for any 4001 taps |
| `C4fm.ModulateInPieces` | src/p25/C4FM.cpp:58-83 | modulating a and then b gives the samples and the state of modulating a + b |
| `C4fm.PhaseIsFm` | src/p25/C4FM.cpp:70-77 | the phase after any sample is the running sum of the convolved stream |
| `C4fm.SymbolsCarry` | third_party/dsd-neo/src/core/frames/dsd_dibit.c:1008-1021 | the modulator's levels are, of 1, 3, -1 and -3, exactly those that the receiver's slicer takes for the dibits |
| `C4fm.ModulatedAt` | src/p25/C4FM.cpp:64-82 | every sample pair is the carrier at the phase of frequency modulation by the convolved stream of those levels, wherever the piece began |
| `C4fm.ModulatorIsFm` | src/p25/C4FM.cpp:58-83 | so from reset the output is frequency modulation of the up-sampled and filtered levels |
| `C4fm.SignalLasts` | src/p25/C4FM.hpp:9-15 | at 2.4 MHz and 4800 baud the signal lasts as long as its symbols, and the filter spans four of them either way |
| `C4fm.C4fm.BuildFilter` | src/p25/C4FM.cpp:42-50 | the table holds h[500j + p], zero past the last tap |
| `C4fm.C4fm.Push` | src/p25/C4FM.cpp:65-68 | the circular history holds the last nine symbols |
| `C4fm.C4fm.Accumulate` | src/p25/C4FM.cpp:71-76 | the inner loop computes the filter for its phase |
| `C4fm.C4fm.ModulateOne` | src/p25/C4FM.cpp:65-80 | one symbol's 500 sample pairs, and the phase after them |
| `C4fm.C4fm.Modulate` | src/p25/C4FM.cpp:58-83 | the loop over dibits computes the specified samples, history and phase, and adds the levels that the slicer takes for the dibits |
| `Scheduler.StepInv` | src/tx/ControlChannel.cpp:22-138 | start, stop, queueing and frames keep the scheduler's invariant |
| `Scheduler.HistoryInv` | src/tx/ControlChannel.cpp:22-138 | so every history from a fresh channel does |
| `Scheduler.Conservation` | src/tx/ControlChannel.cpp:22-138 | over every history, accepted blocks are those sent, in order and once each, followed by those queued; at most 128 are queued; a run is block frames with a terminator after every fifth; the log is the last 500 messages |
| `Scheduler.WindowComplete` | src/tx/ControlChannel.cpp:94-125 | a window of a run carries all five system messages if and only if it carries five of any kind |
| `Scheduler.BurstExactly` | src/tx/ControlChannel.cpp:101-131 | a burst carries all five system messages if and only if the queue was empty when it began and nothing was queued before its last frame |
| `Scheduler.OneBlockBreaksBurst` | src/tx/ControlChannel.cpp:101-131 | one block queued after a start, and the first burst does not carry all five |
| `Scheduler.BusyBurst` | src/tx/ControlChannel.cpp:101-131 | a burst begun with four blocks queued carries one system message and those four |
| `Scheduler.Fairness` | src/tx/ControlChannel.cpp:94-131 | any 25 consecutive frames of a run carry all five system messages, however busy the queue |
| `Scheduler.IdleFairness` | src/tx/ControlChannel.cpp:94-131 | five frames or more, begun with an empty queue and with nothing queued meanwhile, carry all five, wherever they begin |
| `Scheduler.SentExactlyWhen` | src/tx/ControlChannel.cpp:94-125 | a queued block has been sent, in its turn, if and only if more open slots have passed than there were blocks ahead |
| `Scheduler.Latency` | src/tx/ControlChannel.cpp:37-41 | a block accepted with p ahead is sent within (p+1)+ceil((p+1)/4) frames, so within 160, and exactly then if accepted before a system slot |
| `Scheduler.StartsAfresh` | src/tx/ControlChannel.cpp:22-28 | a run begins with the first system message, whatever was sent before, and sends its block frames with a terminator after every fifth |
| `Scheduler.StoppedIsSilent` | src/tx/ControlChannel.cpp:30-41 | a stopped channel sends and logs nothing until it is started, and queues blocks as ever |
| `ControlChannel.ControlChannel.constructor` | src/tx/ControlChannel.cpp:10 | a new channel is the scheduler's initial state |
| `ControlChannel.ControlChannel.StartRun` | src/tx/ControlChannel.cpp:22-28 | is the scheduler's start step |
| `ControlChannel.ControlChannel.StopRun` | src/tx/ControlChannel.cpp:30-33 | is the scheduler's stop step |
| `ControlChannel.ControlChannel.Queue` | src/tx/ControlChannel.cpp:37-41 | is the scheduler's queueing step |
| `ControlChannel.ControlChannel.GetLog` | src/tx/ControlChannel.cpp:43-50 | returns the last entries, at most as many as asked for |
| `ControlChannel.ControlChannel.AddLogEntry` | src/tx/ControlChannel.cpp:52-56 | appends, and forgets the oldest beyond 500 |
| `ControlChannel.ControlChannel.SendFrame` | src/tx/ControlChannel.cpp:60-63 | adds to the ring, where there is room, what continues the signal of everything sent before |
| `ControlChannel.ControlChannel.PickBlock` | src/tx/ControlChannel.cpp:101-125 | takes the block and the log line the scheduler chooses |
| `ControlChannel.ControlChannel.ProduceFrame` | src/tx/ControlChannel.cpp:94-138 | one turn of the loop is the scheduler's frame step; its writes find room; the ring gets exactly the continuation of the modulated signal of the block and of the terminator if due |
| `Site.SystemMessages` | src/tx/ControlChannel.cpp:72-86 | each of the five system messages is a good block with the opcode of its place, from which the site's configuration, the next site's number modulo 256, or the time is read back |
| `ControlChannel.SignalIsFm` | src/p25/C4FM.cpp:58-83 | every sample ever written is frequency modulation by the levels that carry all frames sent, across frame boundaries |
| `SiteRun.TraceFeasible` | src/tx/ControlChannel.cpp:94-138 | every run of the producer loop beside the reading thread is a run of the ring protocol |
| `SiteRun.LoopIsPaced` | src/tx/ControlChannel.cpp:94-138 | from the loop's own control flow: every write is a frame of 180000 bytes, and at most a block and a terminator are written between two passed polls |
| `SiteRun.WaitForRoomIsDead` | src/tx/ControlChannel.cpp:96-137 | so the wait in write never waits, whatever the reader does, and of its 4194304 bytes the ring holds at most half and two frames |
| `SiteRun.PollsAtHalf` | src/tx/ControlChannel.cpp:96-98 | a poll passes if and only if what it found is at most half of 4194304 bytes |
| `SiteRun.AlwaysAligned` | src/tx/SoapyTx.cpp:157-173 | so every read starts on an I byte and both published indices are always even |
| `SiteRun.HardwareHears` | src/tx/SoapyTx.cpp:198-236 | for every schedule, starts, stops and queueing included: the chunks of 16384 bytes given to the hardware are, without padding, a prefix of the FM signal of the frames the scheduler sent, and the scheduler keeps its invariant |
| `Progress.NeverStuck` | src/tx/ControlChannel.cpp:94-138 | in every state of every run the reader has a step to take, and the loop has exactly one while the channel runs |
| `Progress.LoopMovesOn` | src/tx/ControlChannel.cpp:94-138 | for every schedule, after 23 reads since the last write the poll passes within four of the loop's own steps, and a frame handed to write is published within 180003 |
| `Progress.PollEnds` | src/tx/ControlChannel.cpp:96-98 | so the wait before a block ends for every schedule, after a bounded number of the reader's steps and then four of the loop's |
| `Uplink.RxPipeline.HandleIspTsbk` | src/rx/RxPipeline.cpp:158-224 | switches on the opcode, logs the entry and queues the response specified for it, and does nothing else |
| `Uplink.RequestOpcode` | third_party/dsd-neo/src/protocol/p25/phase1/p25p1_tsbk_isp.c:32 | the opcode read from a request's first byte is the one it was built with |
| `Uplink.RequestPassedOn` | third_party/dsd-neo/src/protocol/p25/phase1/p25p1_tsbk.c:1051-1054 | every request is the last of its frame, in the clear and of manufacturer 0, which is what the receiver requires to pass it to the handler |
| `Uplink.AffiliationAnswered` | subscriber_test/p25.go:181-184 | an affiliation request, told by its opcode, is logged, and answered by a good GRP_AFF_RSP naming its talkgroup and its 24-bit source |
| `Uplink.RegistrationAnswered` | subscriber_test/p25.go:187-190 | a registration request, told by its opcode, is logged, and answered by a good U_REG_RSP with verdict 1 under the site's own system, for the unit that asked, whatever system it named |
| `Uplink.SystemMisread` | third_party/dsd-neo/src/protocol/p25/phase1/p25p1_tsbk_isp.c:98-101 | the system that the decoder prints for it is the one asked for, less its last digit, and so the same if and only if that is zero |
| `Uplink.GroupRequestsLogged` | subscriber_test/p25.go:163-178 | voice requests and alarms are logged with their fields and never answered |
| `Uplink.UnitRequestsLogged` | subscriber_test/p25.go:169-196 | unit-to-unit requests and deregistrations likewise |
| `Uplink.RequestsAreBare` | subscriber_test/p25.go:162-196 | the requests leave every argument bit zero that is not one of their fields; a registration's system is at bit 36 |
| `Uplink.AnyRequest` | src/rx/RxPipeline.cpp:158-224 | of any twelve bytes, the handler's source is bytes 7 to 9, its target 4 to 6 and its talkgroup 5 and 6; any other opcode is logged with its code and never answered |
| `Uplink.LoggedQueuedIff` | src/rx/RxPipeline.cpp:179-198 | where the handler logs an answer as queued, it has one, and the channel takes it if and only if fewer than 128 blocks are queued; otherwise the channel does not change |
| `Uplink.QueueFills` | src/tx/ControlChannel.cpp:37-41 | n blocks queued one after another, up to 128, are all in the queue |
| `EndToEnd.QueuedIsSent` | src/tx/ControlChannel.cpp:94-138 | an accepted block is carried by some later frame within 160 block frames |
| `EndToEnd.AffiliationServed` | src/rx/RxPipeline.cpp:179-189 | a framed affiliation request is received, passed on, recognised by the opcode on air, answered if there is room, and the answer is on air within 160 frames and read back with the request's fields; with a full queue nothing changes |
| `EndToEnd.RegistrationServed` | src/rx/RxPipeline.cpp:191-198 | the same for a registration request |
| `EndToEnd.QueuedInNameOnly` | src/rx/RxPipeline.cpp:179-189 | with a running channel's queue full, a framed affiliation request is received, passed on and logged as queued, and the channel does not change |
| `EndToEnd.BroadcastHeard` | src/tx/ControlChannel.cpp:72-127 | the frame of each system message is received with the site's NAC as a good block that says what the site is, and is logged under the name of its opcode |
| `EndToEnd.SyncLevels` | third_party/dsd-neo/include/dsd-neo/core/sync_patterns.h:34 | every frame opens with the receiver's sync pattern in the levels 3 and -3 |
| `EndToEnd.OthersIgnored` | third_party/dsd-neo/src/protocol/p25/phase1/p25p1_tsbk.c:1046-1054 | a framed block that fails its CRC, is protected or is another manufacturer's leaves the channel as it was |
| `OnAir.FrameHeard` | src/tx/SoapyTx.cpp:198-236 | in every run, once the hardware has received that much, the k-th 180000 bytes without padding are the samples of the k-th frame the scheduler sent, continuing the signal of the frames before |
| `OnAir.AcceptedIsHeard` | src/tx/ControlChannel.cpp:94-138 | in every run, a block accepted by a running channel is carried by some later frame once 160 more have begun without a stop, and the hardware hears that frame's samples in its place |
| `OnAir.AffiliationHeard` | src/rx/RxPipeline.cpp:179-189 | so is the answer to a framed affiliation request: it names the radio's talkgroup and unit, and radios can read the frame that carries it |

## Left out

- Calls into SoapySDR, HackRF and dsd-neo, device handling and writeStream results are not modelled. Of dsd-neo
  there is what a receiver needs to read an undamaged frame: sync, NID syndromes, DUID, tables, slicer, opcodes and
  fields. Its error correction, its timing and a signalling frame of several blocks, which the site and the tester
  never send, are not modelled.
- Floating point: taps, symbols and phase are reals, the phase step is a parameter, and the two carrier components are
  arbitrary functions into int8; rrcSample, the scaling of the taps, rounding and quantisation are not modelled.
- The clock is a parameter of BuildSyncBcast; so is the local offset, which the code takes as zero where struct tm has
  no such field. Years before 1900 are not modelled.
- Time: how long the waits last is counted in steps of the two threads, not in seconds, and that both keep taking
  steps is for the operating system.
- Weak memory: an index publication is one step that both threads see at once; byte copies are separate steps.
- Sleeping, thread creation and joining are not modelled. The back-off loop is polling steps in `RingProtocol` and
  `SiteRun`; a stop while it sleeps sends nothing.
- Interleaving inside one turn of the producer loop: start, queueing and the return of stop happen between turns in
  `Scheduler`, and in `SiteRun` a frame is chosen, counted and logged in the step that hands it to write; the queue
  and the log are each behind a mutex in the source, and stop waits for the turn in progress.
- The frame counters are naturals; their wrap-around after billions of frames is not modelled.
- SoapyTx.SoapyTx.Write: requires room; when the wait for room ends depends on both threads and is in `RingProtocol`.
- ControlChannel.ControlChannel.SendFrame: requires room, for the same reason.
- ControlChannel.ControlChannel.ProduceFrame: is a turn that begins with the poll passed; turns that wait are in
  `SiteRun`.
- The loop without hardware that drains the ring is the same reading step and is not modelled apart.
- The tester's own copies of the coding chain and the modulator are ports of the C++ ones and are not modelled twice.
- The receive log's text formatting is a datatype of entries; the channel's own log lines are strings.
- Plain field packers are functions, as in the source they are single expressions; their contracts are the round trips.
- A channel's configuration is fixed, and its offset and base frequency are given as integers: reconfiguring between
  runs and the conversions from megahertz are not modelled.
- The user interface, the JSON file and the build are not modelled.
