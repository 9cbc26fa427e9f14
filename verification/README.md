# Verification of a DERO AstroBWT miner

This project models the logic of the miner that decides whether a hash is right and whether a share
is worth sending, and proves it correct for all inputs and all interleavings.

- **Suffix arrays.** The proof of work is SHA-256 over a suffix array, so every route that builds one must agree
  with suffix order. `Suffix` fixes that order. `InduceLeft` and `InduceRight` are the final induction of
  libsais in place, with its sign marks; `LmsPrepare` and `LmsPlace` gather, count and place the LMS suffixes
  around it. `LmsNames` proves that names of LMS substrings keep their order and that sorting the text of names
  sorts the LMS suffixes, `LmsReduce` is the in-place code around that recursion, and `Libsais` puts everything
  behind the first induction together. `Lcp` is the Phi, PLCP and LCP computation. `TwoByte` is the two-byte
  bucket route. `SpsaKey` to `Spsa` are the stamp-based route: markers, layout, count and scatter passes, radix
  sort, tie sort, and the emitted stream. `Scatter` and `StdSort` hold the counting scatter and the comparison
  sort that several of them share.
- **Branch stage.** `BranchTable` is the miner's opcode table. `WolfLanes` and `WolfDispatch` show that the
  scalar, table and vector forms of the 16 byte operations agree, and `WolfLaws` what each of them computes.
  `WolfStage` is one iteration of the chunk loop as a function, `StageLaws` says what it does to every byte,
  hash word and key and when the loop stops, `WolfStamps` proves what its markers promise, and `WolfCompute` is
  the loop over the worker's buffers, proved to follow that function. Both callers start the loop with equal
  hash words, so its first iteration always re-keys (`WolfStamps.FirstRekeys`), and markers that read back tile
  the chunks. `WolfRuns` holds two kinds of run from that start that SPSA or the marker word do not take. RC4,
  XXHash64, FNV-1a and SipHash enter as arbitrary functions.
- **Hashing.** `Sha256` and `Sha256Block` are the block function in software and vector form, `Sha256Stream` the
  streaming context, `Sha256X2` the two-lane version; `Sha256Laws` gives the functions bit by bit and the byte
  orders, `Sha256Example` the published example. `XxHash` is the incremental XXHash64, `XxHashExamples` holds
  published values. `HashRoutes` joins them to the suffix-array routes. `Difficulty` is the target arithmetic.
- **Share submission.** `Protocol` is a state machine of atomic steps for any number of miner threads and the
  network thread, `ProtocolSafety` its invariants over all runs, `WireOrigin` where the digits of every share
  come from, `HeaderGap` one run that matters, and `ShareQueue` the code of the shared operations, each proved
  to be a run of those steps. `SubmitMessage` is the text of a share, `HexText` hexadecimal text both ways,
  `JsonText` how fields are found in a frame. `Frame` and `FrameStream` are WebSocket framing over a stream that
  arrives in pieces, `FrameLaws` the bytes of a frame.
- **Captures.** `Capture` is the capture-file writer, any of whose writes may fail, and reader.

`Bytes` holds byte-order conversions.

## Findings

- **Small SPSA buckets.** A bucket of fewer than 32 entries is sorted by (key, position) and not by full suffix.
  The stream is then the suffix array exactly when no such bucket holds two positions with equal eight-byte keys
  whose suffix order differs from their position order (`SpsaBuckets.StreamIsSuffixArray`). Nine equal bytes are
  a text where it is not (`SpsaBuckets.NineEqualBytes`; `SpsaBuckets.EqualBytesTies` says for which equal
  bytes), although a comment in `src/spsa.cpp` calls the route correct.
- **Buffer of modified bytes.** At most 16384 positions are recorded one by one; the rest is dropped without
  notice. `SpsaLayout.VisitCount` says what is visited then, and `SpsaLayout.ConservationIff` and
  `Spsa.SpsaStream` are the exact conditions for any markers, full buffer or not. Markers that tile conserve the
  text exactly when everything recorded fits (`SpsaLayout.Conservation`, `HashRoutes.BranchMarkersAligned`).
  Single-chunk runs leave the range 0..255, and markers of that range conserve no text over 16384 bytes
  (`SpsaLayout.FullRangesConserve`). `WolfRuns.OverflowCounterexample` is such a run over any opcode table, from
  the callers' start; its hash functions are chosen. Whether the real hash functions ever overflow the buffer is
  not settled here.
- **Long runs.** A run of more than 127 chunks does not survive the packing into seven bits
  (`WolfStamps.MarkerDecodes`). `WolfRuns.LongRunCounterexample` is such a run over any opcode table, so over
  the miner's own, from the callers' start; it uses opcode 253 and chosen hash functions. Whether the real hash
  functions ever give one is not settled here. What the marker then claims is still sound, because it claims a
  part of the run (`WolfStamps.StampSoundness`).
- **Funnel identity.** The identity stated beside the counters fails when a send fails with shares behind it in
  the same batch: those are discarded without being counted (`ProtocolSafety.HeaderIdentity`;
  `HeaderGap.HeaderCounterexample` is a run where it fails).
- **Torn capture records.** A write that fails part way leaves its bytes in the file, and the next record
  follows them. What was written before always comes back; everything comes back exactly when the bytes from the
  torn ones on begin like the records written later, reserved bytes aside (`Capture.TornBackIff`). One torn byte
  can break that (`Capture.TornByteCounterexample`), and a torn header need not (`Capture.TornHeaderUnnoticed`).
- **Message buffer.** A job id of more than 389 characters makes the submit message end early
  (`SubmitMessage.SentWhole`).
- **Difficulty 1.** The long division drops the leading digit of its quotient, so difficulty 1 gives a target of
  0 and not 2^256 (`Difficulty.AcceptsIff`).

`dafny verify dfyconfig.toml` checks all modules together.

## Model

| member | source | states |
|---|---|---|
| `Suffix.SuffixArrayIsSuffixArray` | src/libsais.c:6891-6922 | the reference suffix array lists every position once, in strictly increasing suffix order |
| `Suffix.SuffixArrayUnique` | src/libsais.c:6891-6922 | any permutation of the positions in suffix order equals the reference, so routes that meet it agree with each other |
| `Suffix.RankMonotone` | src/libsais.c:4821-4841 | rank is an order isomorphism from suffixes to slots; the empty suffix ranks -1 |
| `Suffix.LessIsLexicographic` | src/sa_2byte_radix.cpp:25-31 | the suffix order is the lexicographic one: at the first difference the smaller byte, or the end of the text, comes first |
| `Buckets.TypeOfPredecessor` | src/libsais.c:4830-4836 | the type of a predecessor can be read off two bytes and the current type |
| `Buckets.LBeforeS` | src/libsais.c:4821-4841 | inside one bucket every L-type suffix precedes every S-type suffix |
| `Buckets.SlotBounds` | src/libsais.c:4821-4841 | slot k lies below a bucket's start, or below its L-section's end, exactly when its suffix says so |
| `Buckets.RankInBucket` | src/libsais.c:5450-5470 | a suffix's final slot lies in its bucket, behind the L-section exactly when it is S-type |
| `InduceLeft.LeftPlace` | src/libsais.c:4830-4836 | reading a suffix and writing its L-type predecessor at the cursor with its mark keeps the scan invariant |
| `InduceLeft.FilledBeforeRead` | src/libsais.c:4821-4841 | every L-slot is filled strictly before the scan reaches it |
| `InduceLeft.FilledInOrder` | src/libsais.c:4821-4841 | the L-slots of a bucket are filled left to right, in suffix order |
| `InduceLeft.FinalSortingScanLeftToRight` | src/libsais.c:4821-4841 | from LMS suffixes at the bucket tails, the scan leaves every L-type suffix in its final slot with its mark, and every cursor at its section's end |
| `InduceRight.RightRead` | src/libsais.c:5457-5463 | slot i holds the suffix of rank i when it is read, positive exactly when an S-type predecessor is still to be placed |
| `InduceRight.RightPlace` | src/libsais.c:5457-5463 | reading and writing the S-type predecessor below the cursor keeps the scan invariant |
| `InduceRight.FinalSortingScanRightToLeft` | src/libsais.c:5450-5470 | the second scan leaves exactly the suffix array, all marks cleared |
| `InduceRight.InduceFinalOrder` | src/libsais.c:6202-6222 | both scans together turn placed LMS suffixes into the suffix array, for every text of at least two bytes |
| `LmsPrepare.TypeFlag` | src/libsais.c:740-752 | the comparison c1 > c0 - f0 carries the type to the predecessor |
| `LmsPrepare.CountAndGatherLmsSuffixes` | src/libsais.c:726-770 | returns the number of LMS positions, stores them increasing at the end of SA, and counts every position by byte, own type and predecessor type |
| `LmsPrepare.FreqOfCells` | src/libsais.c:1398-1427 | the four histogram cells of a byte add up to its frequency |
| `LmsPrepare.InitializeBucketsStartAndEnd` | src/libsais.c:1398-1427 | from the histogram, the start and end of every bucket and the optional frequencies |
| `LmsPlace.LmsFit` | src/libsais.c:4599-4626 | the LMS suffixes of a bucket fit behind its L-section |
| `LmsPlace.PlaceLmsSuffixesInterval` | src/libsais.c:4599-4626 | in-place, overlapping moves put the sorted LMS suffixes at their bucket tails and clear everything else |
| `Libsais.FinishSuffixArray` | src/libsais.c:6915-6922 | placing and inducing the sorted LMS suffixes yields the suffix array, also when there is none |
| `Libsais.BuildSuffixArray` | src/libsais.c:6882-6922 | gathering, bucket boundaries, naming, recursion, placing and inducing together give the suffix array and the frequencies, for every text and any outcome of the first induction, also below two bytes |
| `Libsais.SortLmsSuffixes` | src/libsais.c:6903-6913 | from LMS positions sorted and marked by substring, naming, the solved reduced text and its translation back leave the LMS suffixes in suffix order, also when all names differ |
| `LmsNames.SubTotal` | src/libsais.c:6900-6903 | of two LMS substrings one is below the other, or they are equal |
| `LmsNames.NamesPreserveOrder` | src/libsais.c:4103-4131 | a smaller name means a smaller LMS substring, and only then |
| `LmsNames.ReducedOrder` | src/libsais.c:6903-6913 | two suffixes of the text of names compare as the LMS suffixes they stand for |
| `LmsNames.SortedFromReduced` | src/libsais.c:6903-6913 | the suffix array of the text of names, translated back, lists all LMS suffixes in suffix order |
| `LmsReduce.CellsAreNames` | src/libsais.c:4133-4157 | the marked cells of the table of half positions are the names in text order, because no two LMS positions share a half |
| `LmsReduce.LmsRoom` | src/libsais.c:6903-6913 | fewer than half of the positions are LMS positions, so list, table and gathered names fit side by side |
| `LmsReduce.RenumberLmsSuffixes` | src/libsais.c:4103-4131 | the number of names, and each name in the cell of its half position |
| `LmsReduce.GatherMarkedLmsSuffixes` | src/libsais.c:4133-4157 | in place, the names in text order at the end of SA, the front untouched |
| `LmsReduce.GatherLmsSuffixes` | src/libsais.c:459-488 | the LMS positions once more at the end of SA, without touching the solved front |
| `LmsReduce.ReconstructLmsSuffixes` | src/libsais.c:4548-4577 | each number at the front becomes the position it stands for |
| `Lcp.PhiIsPredecessor` | src/libsais.c:8116-8147 | Phi is the immediate predecessor in suffix order |
| `Lcp.CommonBetween` | src/libsais.c:8163-8190 | of two smaller suffixes the closer one shares at least as long a prefix |
| `Lcp.PlcpShrinksByOne` | src/libsais.c:8163-8190 | moving one position on shortens the common prefix with the predecessor by at most one |
| `Lcp.ComputePhi` | src/libsais.c:8116-8147 | the scatter over the suffix array writes each position's predecessor |
| `Lcp.ComputePlcp` | src/libsais.c:8163-8190 | in place, each entry becomes the longest common prefix with the predecessor; the matched comparisons number at most the text length |
| `Lcp.ExtendMatch` | src/libsais.c:8170-8176 | from any length known to match, the inner loop ends at the longest common prefix |
| `Lcp.ComputeLcp` | src/libsais.c:8311-8338 | LCP in suffix-array order is the common prefix of neighbouring suffixes |
| `Scatter.DestOrder` | src/sa_2byte_radix.cpp:76-80 | a counting scatter is stable: destinations order by key, then by index |
| `Scatter.DestOnto` | src/sa_2byte_radix.cpp:76-80 | every slot receives an element |
| `Scatter.ScatteredElements` | src/sa_2byte_radix.cpp:76-80 | the scatter is a permutation |
| `StdSort.Sort` | src/sa_2byte_radix.cpp:91-94 | a sort over any strict total order: sorted and a permutation |
| `TwoByte.SuffixCmp` | src/sa_2byte_radix.cpp:25-31 | the comparison's sign is the suffix order, zero only for the same position |
| `TwoByte.PairOrder` | src/sa_2byte_radix.cpp:55-60 | bucket order never contradicts suffix order, with the implicit 0 behind the last byte |
| `TwoByte.ScatterPositions` | src/sa_2byte_radix.cpp:76-80 | positions land by pair, and every cursor ends at its bucket's end |
| `TwoByte.SortBuckets` | src/sa_2byte_radix.cpp:84-97 | sorting each bucket by full suffix gives the suffix array |
| `TwoByte.SaConstruct2Byte` | src/sa_2byte_radix.cpp:45-98 | exactly the suffix array, for every byte string including the empty one |
| `SpsaKey.ExtractSortKey8Bytes` | src/spsa_local.cpp:51-62 | the loaded key is the big-endian value of the next eight bytes, zero-padded |
| `SpsaKey.KeyOrder` | src/spsa_local.cpp:51-62 | a smaller key is a smaller suffix; padding never misleads |
| `SpsaSort.PassSorts` | src/spsa_local.cpp:104-112 | a stable pass on one key byte extends the sorted digits by that byte |
| `SpsaSort.RadixPasses` | src/spsa_local.cpp:100-114 | three ping-pong passes and the copy back sort by the upper half of the key when the first byte is shared |
| `SpsaSort.EntryLessIsSuffixOrder` | src/spsa_local.cpp:75-83 | the tie comparator is the suffix order |
| `SpsaSort.SortTies` | src/spsa_local.cpp:115-126 | sorting each run of equal upper halves puts the bucket in suffix order |
| `SpsaSort.InsertionSort` | src/spsa_local.cpp:88-98 | (key, pos) order, a permutation |
| `SpsaSort.RadixSortEntries` | src/spsa_local.cpp:85-127 | a permutation: suffix order from 32 entries on, (key, pos) order below |
| `SpsaSort.KeyPosOrderIsSuffixOrder` | src/spsa_local.cpp:88-98 | (key, pos) order is suffix order exactly when no equal-key pair is inverted |
| `SpsaLayout.Conservation` | src/spsa_local.cpp:227-246 | tiling markers: every position of the text is visited exactly once if and only if the recorded positions fit the buffer |
| `SpsaLayout.ChunkReach` | include/spsa_state.hpp:98-113 | the untouched part of a chunk and its recorded bytes are the chunk's positions, as far as the text goes, one entry each |
| `SpsaLayout.VisitCount` | src/spsa_local.cpp:227-246 | for any markers: the chunks taken, numbered from 0, and the text behind the last one are visited or dropped for lack of room, and nothing else; how many entries that is |
| `SpsaLayout.ConservationIff` | src/spsa_local.cpp:227-246 | for any markers, full buffer or not: every position is visited once exactly when the markers are aligned and nothing is dropped, or chunks are numbered to the end of the text and just the tail they cover again is dropped |
| `SpsaLayout.CollectClosed` | src/spsa_local.cpp:227-246 | the collection in closed form: each marker takes min(count, whole chunks behind its first) chunks, and the tail starts behind the last one taken |
| `SpsaLayout.DroppedSize` | include/spsa_state.hpp:98-113 | as long as no chunk number runs past the text, exactly the recorded positions beyond 16384 are dropped |
| `SpsaLayout.FullRangesConserve` | include/spsa_state.hpp:98-113 | tiling markers with the range 0..255 record the whole text, so they conserve exactly the texts of at most 16384 bytes |
| `Spsa.SpsaState.constructor` | include/spsa_state.hpp:82-91 | an empty layout |
| `Spsa.SpsaState.Reset` | include/spsa_state.hpp:86-91 | back to the empty layout |
| `Spsa.SpsaState.BeginStamp` | include/spsa_state.hpp:93-96 | a new stamp at the running chunk number |
| `Spsa.SpsaState.TakeChunk` | include/spsa_state.hpp:98-113 | the stamp's count and the modified positions of the chunk, up to the buffer's cap |
| `Spsa.SpsaState.TakeMarker` | src/spsa_local.cpp:229-240 | all chunks of one marker that lie inside the text |
| `Spsa.SpsaState.CollectMarkers` | src/spsa_local.cpp:227-245 | all markers, then the tail of the text |
| `SpsaMerge.CountPass` | src/spsa_local.cpp:139-154 | bucket counts over the visited positions |
| `SpsaMerge.ScatterPass` | src/spsa_local.cpp:172-193 | the scatter pass visits the same positions in the same order as the count pass |
| `SpsaMerge.PrefixOffsets` | src/spsa_local.cpp:156-168 | offsets are prefix sums and the total is the number of visits |
| `SpsaBuckets.SortAllBuckets` | src/spsa_local.cpp:194-210 | every bucket keeps its positions and gets its size's order |
| `Spsa.SpsaState.MergeStamps` | src/spsa_local.cpp:129-211 | visited positions grouped by first byte, each bucket sorted; nothing changes without a stamp |
| `Spsa.SpsaState.SpsaIntegrated` | src/spsa_local.cpp:219-292 | refuses texts over 71000 bytes, otherwise emits the merged stream of a fresh collection; without any marker, the stream held from before |
| `SpsaBuckets.StreamIsSuffixArray` | src/spsa_local.cpp:129-211 | the stream is the suffix array exactly when no bucket below 32 entries holds an inverted equal-key pair |
| `SpsaBuckets.NineEqualBytes` | src/spsa_local.cpp:88-98 | nine equal bytes are such a text: the small-bucket sort keeps position order where suffix order is the reverse |
| `SpsaBuckets.EqualBytesTies` | src/spsa_local.cpp:88-98 | texts of equal bytes are ordered by the small-bucket sort exactly from 32 bytes on, or up to eight bytes, or up to one when the byte is 0 |
| `Spsa.SmallTieCounterexample` | src/spsa_local.cpp:88-98 | on nine equal bytes no markers whatever lead to the suffix array |
| `Spsa.SpsaStream` | src/spsa_local.cpp:219-292 | for any markers, full buffer or not: the stream is a permutation exactly when the collection conserves the text, and the suffix array exactly when also no small bucket holds an inverted tie |
| `WolfLanes.LaneOpBytes` | include/simd_wolf.h:213-232 | each of the 16 vector operations acts on the two bytes of a 16-bit lane as the scalar one does, without contamination |
| `WolfLanes.SquareBytes` | include/simd_wolf.h:33-48 | the split 16-bit multiplication is the byte multiplication |
| `WolfLanes.ShiftLeftBytes` | include/simd_wolf.h:54-73 | shifting by multiplication is the per-byte left shift |
| `WolfLanes.ShiftRightBytes` | include/simd_wolf.h:77-99 | shifting by multiplication is the per-byte right shift |
| `WolfLanes.RotateLow` | include/simd_wolf.h:103-109 | the variable rotation of the low byte |
| `WolfLanes.RotateHigh` | include/simd_wolf.h:103-109 | the variable rotation of the high byte |
| `WolfLanes.ReverseMovesBits` | src/astrobwt.cpp:91-97 | bit reversal moves bit i to bit 7 - i and is its own inverse |
| `WolfLaws.RotationCodes` | src/astrobwt.cpp:117-121 | codes 11, 13 and 15 move bit i to bit i + 1, i + 3 and i + 5 around the byte |
| `WolfLaws.XorRotationCodes` | src/astrobwt.cpp:118-120 | codes 12 and 14 combine each bit with the one 2 and 4 places below |
| `WolfLaws.OwnRotationCode` | src/astrobwt.cpp:116-116 | code 10 rotates the byte by its own low three bits |
| `WolfLaws.BitwiseCodes` | src/astrobwt.cpp:109-111 | codes 3, 4 and 5 are exclusive or, complement and conjunction of bits |
| `WolfLaws.ReverseCode` | src/astrobwt.cpp:114-114 | code 8 moves bit i to bit 7 - i |
| `WolfLaws.FlipCode` | src/astrobwt.cpp:107-107 | code 1 takes away the byte with bits 0, 5 and 6 flipped |
| `WolfLaws.CountCode` | src/astrobwt.cpp:115-115 | code 9 combines the byte with its number of ones |
| `WolfLaws.ProductCodes` | src/astrobwt.cpp:106-108 | codes 0 and 2 are twice the byte and its square, modulo 256 |
| `WolfLaws.ShiftCodes` | src/astrobwt.cpp:112-113 | codes 6 and 7 multiply and divide by 2 to the power of the low two bits |
| `WolfLaws.CodeOrder` | src/astrobwt.cpp:101-125 | an opcode runs its highest byte's code first, each on the result of the one before |
| `WolfDispatch.InitCodeLut16` | src/astrobwt.cpp:43-52 | packing opcodes into nibbles loses nothing when every instruction is below 16 |
| `WolfDispatch.UnaryIgnoresPos2` | src/astrobwt.cpp:195-205 | an opcode without instructions 3 and 5 does not depend on the byte at pos2 |
| `WolfDispatch.InitLut` | src/astrobwt.cpp:174-208 | each unbranched opcode has a table row equal to the scalar result on all 256 inputs; one branched opcode keeps the row counter in a byte |
| `WolfDispatch.BranchScalar` | src/astrobwt.cpp:298-303 | the scalar loop leaves the branched chunk, also when source and target coincide |
| `WolfDispatch.BranchLut` | src/astrobwt.cpp:287-291 | the lookup loop leaves the same chunk |
| `WolfDispatch.RunLanes` | include/simd_wolf.h:207-234 | four instructions on a 32-byte register give the scalar result in every byte |
| `WolfDispatch.BranchLanes` | include/simd_wolf.h:195-234 | load, run, blend and store leave the same chunk; only bytes behind the chunk may differ |
| `WolfDispatch.Dispatch` | src/astrobwt.cpp:286-303 | whichever form is chosen, the chunk is the same |
| `WolfCompute.InitTables` | src/astrobwt.cpp:43-52 | start-up leaves tables that agree with the opcode table, as the branch stage needs them |
| `BranchTable.TableIsValid` | src/branch.cpp:13-78 | the miner's table: every instruction is below 16, and the 104 listed opcodes are exactly those that read the byte at pos2 |
| `WolfCompute.MinerTables` | src/astrobwt.cpp:43-62 | start-up with the miner's own table and branched opcodes leaves tables that agree with it, in its room and processor cases alike |
| `WolfStamps.BranchRange` | src/astrobwt.cpp:263-359 | one iteration without encryption changes only offsets p1..p2 and 255 |
| `StageLaws.SwitcherBytes` | src/astrobwt.cpp:223-234 | the lowest byte of the switcher is the opcode, the next two are the ends of the range in either order, pulled together modulo 32 when more than 32 apart |
| `StageLaws.SwitcherBits` | src/astrobwt.cpp:224-224 | the switcher is the exclusive or of both hash words and the counter |
| `StageLaws.CounterCounts` | src/astrobwt.cpp:218-221 | the counter starts at 0 and counts modulo 65536 |
| `StageLaws.Mix253Bits` | src/astrobwt.cpp:254-259 | opcode 253 combines each bit with the byte's bit two above and the other byte's bit five above |
| `StageLaws.Op253Hashes` | src/astrobwt.cpp:253-264 | opcode 253 hashes once a byte, with the byte mixed and those behind it still as they were |
| `StageLaws.BranchBytes` | src/astrobwt.cpp:252-314 | each byte after the branch stage, for every opcode: mixed, cleared, run through its four codes, exchanged and reversed, or left alone |
| `StageLaws.HashesAfter` | src/astrobwt.cpp:319-339 | both hash words after no, one, two or three further hashes, by the bounds 48, 32 and 16 on the difference |
| `StageLaws.EncryptedTwice` | src/astrobwt.cpp:341-343 | encrypting twice with one key restores the chunk |
| `StageLaws.IterationEnd` | src/astrobwt.cpp:282-358 | each byte of the finished chunk, the key and the hash words, by the bound 64 on the difference and opcodes 254 and 255 |
| `StageLaws.StopsFirst` | src/astrobwt.cpp:360-363 | the loop stops at the first of iterations 261 to 276 that leaves a last byte of 240 or more, otherwise at 277 |
| `StageLaws.LengthOfText` | src/astrobwt.cpp:376-379 | the raw text length is 256 bytes for every chunk but the last four, and the low ten bits of bytes 253 and 254, the first one higher |
| `StageLaws.TextAccepted` | src/spsa_local.cpp:219-226 | every raw text of the branch stage has from 65792 to 70911 bytes, so SPSA never refuses one for its size |
| `WolfStamps.IterateOk` | src/astrobwt.cpp:220-366 | every iteration keeps the marker invariant, whatever the opcodes, hashes and key stream |
| `WolfStamps.StampSoundness` | src/astrobwt.cpp:341-374 | for every emitted marker as it reads back: any two of the chunks it claims agree at every offset below 255 outside its range, whatever the opcodes, hashes and key stream, and however long the run |
| `WolfStamps.RunSoundness` | src/astrobwt.cpp:341-374 | the same over the whole run that a marker stands for |
| `WolfStamps.FinalStage` | src/astrobwt.cpp:220-384 | 261 to 277 iterations, at most 277 markers, and a text shorter than 256 bytes per chunk |
| `WolfStamps.MarkerDecodes` | src/astrobwt.cpp:343-350 | what the packed word reads back as for every start and length; it is the run exactly when the length fits seven bits |
| `WolfStamps.MarkersTileIff` | src/astrobwt.cpp:341-374 | from equal hash words, as both callers start, the markers tile the chunks from 0 exactly when each reads back as its run; there is always one |
| `WolfStamps.FitMarkers` | src/astrobwt.cpp:341-374 | runs of at most 127 chunks all have their marker, read back, and reach the last chunk |
| `WolfStamps.FirstRekeys` | src/astrobwt.cpp:220-240 | from equal hash words the first iteration re-keys, whatever the words, key, chunk and opcodes |
| `WolfRuns.OverflowCounterexample` | include/spsa_state.hpp:98-113 | over any opcode table and from equal hash words, chosen hash functions give a run of single-chunk markers that tile, are aligned and record the whole text, which is more than the buffer holds |
| `WolfRuns.LongRunCounterexample` | src/astrobwt.cpp:343-350 | over any opcode table and from equal hash words, chosen hash functions give a first run of more than 127 chunks, whose marker does not read back as that run |
| `WolfCompute.BranchChunk` | src/astrobwt.cpp:246-319 | copy, special opcodes and dispatch over the scratch buffer compute the branch stage |
| `WolfCompute.ConditionalHash` | src/astrobwt.cpp:319-339 | the selector counts the bounds that A stays below, and the fall-through switch on it hashes three, two, one or no times |
| `WolfCompute.StepChunk` | src/astrobwt.cpp:246-359 | branch stage, hashes, encryption and last byte of one iteration |
| `WolfCompute.WorkerData.Iteration` | src/astrobwt.cpp:220-366 | one iteration of the loop over the worker's fields is one step of the specification |
| `WolfCompute.WorkerData.WolfCompute` | src/astrobwt.cpp:212-392 | the worker ends with the chunks, hash state, key, markers and stripped text length of the specified run; from equal hash words the markers tile exactly when they read back |
| `WolfCompute.WorkerData.HashScratch` | src/astrobwt.cpp:665-678 | keying, encrypting and hashing the scratch bytes, then the stage: the specified run from that start, whose markers tile exactly when they read back |
| `HashRoutes.HashStream` | src/spsa_local.cpp:248-290 | hashing positions in batches of 64 words is the digest of their serialization |
| `HashRoutes.HashBothRoutes` | src/spsa_local.cpp:219-292 | the two-byte route hashes the suffix array; the SPSA route hashes the same bytes exactly when the collection conserves the text and no small bucket holds an inverted tie |
| `HashRoutes.SerializeInjective` | src/spsa_local.cpp:248-290 | different position streams are different bytes |
| `HashRoutes.StreamWord` | src/spsa_local.cpp:248-290 | word i of the hashed bytes is position i, least significant byte first |
| `HashRoutes.BranchMarkersAligned` | src/astrobwt.cpp:341-374 | markers left by the branch stage that read back are aligned with every text, and conserve it exactly when the recorded positions fit the buffer |
| `HashRoutes.BranchStream` | src/spsa_local.cpp:219-292 | from such markers the SPSA stream is the suffix array exactly when the recorded positions fit and no small bucket holds an inverted tie |
| `HashRoutes.HashPair` | src/astrobwt.cpp:1044-1046 | hashing two suffix arrays in lockstep gives both digests |
| `Sha256Block.BlockSoft` | src/sha256_ni.cpp:207-227 | the software rounds compute the compression function |
| `Sha256Laws.RotationBits` | src/sha256_ni.cpp:205-205 | a rotation by n moves bit i + n, around the word, to bit i |
| `Sha256Laws.SmallSigma0Bits` | src/sha256_ni.cpp:212-212 | each bit is the parity of bits i + 7, i + 18 around the word and i + 3, section 4.1.2 of FIPS 180-4 |
| `Sha256Laws.SmallSigma1Bits` | src/sha256_ni.cpp:213-213 | likewise for 17, 19 and the shift by 10 |
| `Sha256Laws.BigSigma0Bits` | src/sha256_ni.cpp:221-221 | each bit is the parity of bits i + 2, i + 13 and i + 22 around the word |
| `Sha256Laws.BigSigma1Bits` | src/sha256_ni.cpp:219-219 | likewise for 6, 11 and 25 |
| `Sha256Laws.ChooseBits` | src/sha256_ni.cpp:219-219 | Ch takes each bit from y where x has a one, and from z elsewhere |
| `Sha256Laws.MajorityBits` | src/sha256_ni.cpp:221-221 | Maj is each bit's majority |
| `Sha256Laws.WordIsBigEndian` | src/sha256_ni.cpp:209-210 | message words are read most significant byte first |
| `Sha256Laws.WordBytesOf` | src/sha256_ni.cpp:306-309 | the digest is written most significant byte first |
| `Sha256Example.AbcDigest` | src/sha256_ni.cpp:20-44 | with the round constants and initial state of the source, the digest of abc is the published one |
| `Sha256Block.FourRoundsOk` | src/sha256_ni.cpp:94-98 | two vector instructions per group perform four rounds on the state halves |
| `Sha256Block.HalvesRoundTrip` | src/sha256_ni.cpp:62-79 | the shuffles into and out of the vector layout are inverse |
| `Sha256Block.WindowCompletes` | src/sha256_ni.cpp:104-165 | msg1, the aligned addition and msg2 yield the next four schedule words |
| `Sha256Block.ScheduleGroupOk` | src/sha256_ni.cpp:100-168 | the four rolling windows hold the right words or halves at every group |
| `Sha256Block.BlockNi` | src/sha256_ni.cpp:82-174 | the vector block computes the compression function |
| `Sha256Stream.ZeroCountLeast` | src/sha256_ni.cpp:289-300 | the padding uses the least number of zero bytes, section 5.1.1 of FIPS 180-4 |
| `Sha256Laws.LengthIsBigEndian` | src/sha256_ni.cpp:301-304 | the length field is the number of bits modulo 2^64, most significant byte first |
| `Sha256Laws.PaddedMessage` | src/sha256_ni.cpp:289-305 | message, byte 0x80, zeros and length field, in less than 73 bytes more and a multiple of 64 |
| `Sha256Stream.CounterStep` | src/sha256_ni.cpp:267-270 | the two counter words hold the bit length modulo 2^64 after any update |
| `Sha256Stream.Sha256Ctx.constructor` | src/sha256_ni.cpp:257-262 | an empty message |
| `Sha256Stream.Sha256Ctx.Update` | src/sha256_ni.cpp:264-287 | the context has taken in the old message followed by the new bytes |
| `Sha256Stream.Sha256Ctx.Final` | src/sha256_ni.cpp:289-310 | the digest of everything given, in one or two final blocks |
| `Sha256Stream.HashPieces` | src/sha256_ni.cpp:257-311 | every split of a message gives the one-shot digest, with either block code |
| `Sha256X2.BuildTail` | src/sha256_x2.cpp:113-123 | whole blocks of the message followed by the tail are the padded message |
| `Sha256X2.Compress2` | src/sha256_x2.cpp:231-270 | interleaved groups perform 64 rounds on each lane independently |
| `Sha256X2.LockStep` | src/sha256_x2.cpp:318-365 | an active lane is compressed, an exhausted lane keeps its state |
| `Sha256X2.HashTwo` | src/sha256_x2.cpp:282-376 | each output is the single-message digest, for any two lengths |
| `XxHash.Hasher.constructor` | include/xxhash64.h:29-37 | nothing added yet |
| `XxHash.Hasher.Add` | include/xxhash64.h:43-95 | the hasher has taken in the old bytes followed by the new ones; false for none |
| `XxHash.Hasher.Digest` | include/xxhash64.h:100-150 | the hash of everything added |
| `XxHash.ShortStart` | include/xxhash64.h:114-118 | below 32 bytes the third lane still holds the seed |
| `XxHashExamples.EmptyHash` | include/xxhash64.h:100-150 | the published hash of the empty string |
| `XxHashExamples.DigestHash` | include/xxhash64.h:100-150 | the published hash of a text of 14 bytes, which uses each of the three loops over the rest |
| `XxHashExamples.TextHash` | include/xxhash64.h:43-150 | the published hash of a text of 39 bytes, with one whole stripe |
| `XxHashExamples.Boundaries` | include/xxhash64.h:100-137 | at which lengths the loops over the rest change, and from where whole stripes count |
| `XxHash.HashPieces` | include/xxhash64.h:43-164 | every split gives the hash of the whole |
| `Difficulty.ComputeTarget` | src/difficulty.cpp:14-35 | floor(2^256 / d) from d = 2 on; nothing for 1; all ones for 0 and below |
| `Difficulty.CheckHash` | src/difficulty.cpp:37-47 | accepts exactly when the little-endian hash is at most the big-endian target |
| `Difficulty.AcceptsIff` | src/difficulty.cpp:14-47 | from 2 on a hash passes exactly when hash times difficulty is at most 2^256; 1 passes only the zero hash; 0 and below pass everything |
| `Difficulty.AcceptsAntitone` | src/difficulty.cpp:14-47 | from 2 on a harder difficulty accepts no more |
| `Difficulty.AcceptHash` | src/miner.cpp:153-200 | target and comparison together: from 2 on a hash passes exactly when hash times difficulty is at most 2^256 |
| `ProtocolSafety.MinerStepSafe` | src/miner.cpp:22-47 | every miner step keeps the safety invariant |
| `ProtocolSafety.NetStepSafe` | src/network.cpp:597-706 | every network step keeps the safety invariant |
| `ProtocolSafety.RunSafe` | src/network.cpp:723-795 | the safety invariant holds after every interleaving, across reconnects |
| `ProtocolSafety.WireSafety` | src/network.cpp:652-706 | every share sent belongs to the epoch current at the send and to the last job frame of its session: job id, work bytes before the nonce, and difficulty |
| `WireOrigin.WorkSpelled` | include/hex.h:40-48 | the bytes that a frame's 96 digits spell are the job's work bytes |
| `WireOrigin.WireShares` | src/network.cpp:652-706 | a share on the wire has the first 86 digits of the session's last job frame, and was found in this run |
| `WireOrigin.LastDigits` | src/miner.cpp:164-190 | the last ten digits of a share are the nonce of a find step of the run and the number of the thread that made it |
| `WireOrigin.EpochsDiffer` | src/network.cpp:614-640 | the epoch moves exactly with the job: jobs of consecutive epochs differ and the last is the current one; frames taken have 96 digits and a job id |
| `WireOrigin.QueueHoldsLatest` | include/dluna.h:136-148 | at every moment the queue holds exactly the latest of all entries ever made, at most 32, so an eviction takes the oldest |
| `ProtocolSafety.RunOrder` | src/network.cpp:652-706 | tickets along wire, batch and queue increase after every interleaving |
| `ProtocolSafety.SentOnceInOrder` | src/network.cpp:652-706 | shares are sent in queueing order and no find is sent twice |
| `ProtocolSafety.RunFunnel` | include/dluna.h:98-103 | every find is dropped stale, evicted, sent, failed, queued, drained, between gates, or discarded behind a failed send; the queue never exceeds 32 |
| `ProtocolSafety.HeaderIdentity` | include/dluna.h:98-103 | the shorter identity beside the counters holds at rest exactly when no failed send had items behind it |
| `HeaderGap.HeaderCounterexample` | src/network.cpp:652-706 | for any two different nonces that meet the difficulty, a run of one miner that comes to rest with two finds and only one failed send counted |
| `ShareQueue.MinerState.constructor` | include/dluna.h:56-122 | the initial shared state |
| `ShareQueue.MinerState.TakeSnapshot` | src/miner.cpp:144-153 | the job under the lock becomes the worker's snapshot |
| `ShareQueue.MinerState.CountFind` | src/miner.cpp:25-25 | a find is counted before any gate |
| `ShareQueue.MinerState.Gate1` | src/miner.cpp:27-31 | passes exactly when the epoch is the share's, otherwise counts one stale drop |
| `ShareQueue.MinerState.Gate2` | src/miner.cpp:35-41 | the same under the mutex, which a passing share keeps |
| `ShareQueue.MinerState.SubmitEnqueue` | include/dluna.h:136-148 | appends, evicting the oldest entry of a full queue; false exactly then |
| `ShareQueue.MinerState.HandleJob` | src/network.cpp:597-645 | a frame with 96 digits and a job id replaces the job, its bytes and the session flag; the epoch grows by one exactly when the job changes |
| `ShareQueue.MinerState.HandleFrame` | src/network.cpp:597-645 | the same from the text of a frame, for the fields found in it |
| `ShareQueue.MinerState.Cleanup` | src/network.cpp:321-337 | the connection is marked down, then the queue emptied into the stale count; stated for no other thread stepping between the two |
| `ShareQueue.MinerState.OpenSession` | src/network.cpp:452-472 | the staged shares are dropped, the session flag cleared, then the connection announced; stated for no other thread stepping between the three |
| `ShareQueue.MinerState.SubmitShares` | src/network.cpp:652-706 | the drain is a run of network steps; it ends alive or with one failed send and the session closing; stated for no other thread stepping in between |
| `ShareQueue.MinerState.Funnel` | include/dluna.h:98-103 | the conservation law in terms of the fields |
| `HexText.HexStr` | include/hex.h:14-24 | two lower-case digits a byte |
| `HexText.HexstrToBytes` | include/hex.h:40-48 | two characters a byte, each pair as strtol reads it in base 16 |
| `HexText.HexRoundTrip` | include/hex.h:14-48 | the digits of a blob read back as the blob |
| `HexText.AnyCase` | include/hex.h:40-48 | so do its upper-case digits |
| `SubmitMessage.SentWhole` | src/network.cpp:685-690 | the 512-byte buffer carries the whole message exactly when the job id has at most 389 characters, otherwise its first 511 |
| `SubmitMessage.SentReadsBack` | src/network.cpp:685-690 | from such a message job id and blob can be read back |
| `JsonText.FieldFound` | src/network.cpp:61-74 | behind the first place with the key, a text without quotes is found whole |
| `JsonText.NumberFound` | src/network.cpp:79-94 | behind the first place with the key, a number written in decimal is found, up to 2^63 - 1 |
| `JsonText.NegativeFound` | src/network.cpp:79-94 | a negative number likewise, down to -2^63 |
| `JsonText.FieldMissing` | src/network.cpp:61-94 | a field without its key is empty or 0, and so is a number that is a text or missing |
| `JsonText.ShareFields` | src/network.cpp:685-690 | a share's message, read by the same rules, has the job id and digits it was made of, for every job id without a quote |
| `Frame.MaskedTwice` | src/network.cpp:511-516 | masking twice restores the payload, section 5.3 of RFC 6455 |
| `Frame.LengthRoundTrip` | src/network.cpp:487-502 | the 7-, 16- and 64-bit length forms read back, section 5.2 of RFC 6455 |
| `FrameLaws.ExtensionIsBigEndian` | src/network.cpp:487-502 | the extended length is the payload length in two or eight bytes, most significant first, section 5.2 of RFC 6455 |
| `FrameLaws.LengthRead` | src/network.cpp:539-553 | the reader takes seven bits, or two bytes as 256 a + b, or eight bytes most significant first |
| `FrameLaws.TextFrame` | src/network.cpp:480-527 | the bytes of a sent text: 0x81, mask bit and length, extended length, mask, masked payload |
| `FrameLaws.MaskedDigits` | src/network.cpp:511-516 | each bit of masked byte i is the parity of payload byte i and mask byte i mod 4, section 5.3 of RFC 6455 |
| `FrameLaws.MaskPeriod` | src/network.cpp:511-516 | the mask starts over every four bytes |
| `FrameLaws.FirstByteMeans` | src/network.cpp:575-589 | close frames and unfinished messages are refused, pings answered, everything else is a message |
| `FrameLaws.SizeLimits` | src/network.cpp:555-559 | payloads over 1048576 bytes are refused, and control frames over 125 |
| `Frame.RoundTrip` | src/network.cpp:480-577 | parsing a written frame gives its payload for every mask and length form and uses exactly that frame; pings are recognised |
| `FrameStream.Connection.RecvAll` | src/network.cpp:249-281 | exactly the requested bytes through any partial reads with fewer than 200 stalls in a row; no message when a first read stalls at once |
| `FrameStream.Connection.SendAll` | src/network.cpp:202-217 | writes everything through any partial writes, or what the connection still took |
| `FrameStream.Connection.SendMessage` | src/network.cpp:480-521 | writes the encoded frame, or as much of it as the connection takes before it breaks |
| `FrameStream.Connection.ReadMessage` | src/network.cpp:530-577 | a message, an answered ping or an idle poll whatever the schedule, otherwise -1; the parsed message for certain when the bytes arrive in time; bytes behind the frame stay |
| `FrameStream.SendThenRead` | src/network.cpp:480-577 | whatever the split into pieces and the idle polls before, the reader gets what the writer sent, up to 1 MiB |
| `Capture.CaptureWriter.constructor` | tools/replay/cap_format.h:73-95 | a writer without a file |
| `Capture.HeaderLayout` | tools/replay/cap_format.h:75-95 | magic, version, sequence number and stage count at their offsets, least significant byte first |
| `Capture.RecordLayout` | tools/replay/cap_format.h:107-126 | id, two lengths and four zero bytes, least significant byte first, then input and output |
| `Capture.CaptureWriter.Open` | tools/replay/cap_format.h:75-95 | a header without stages, or failure when the file does not open or the header does not arrive whole |
| `Capture.CaptureWriter.WriteStage` | tools/replay/cap_format.h:97-127 | appends the record, refuses lengths above 32 bits or a missing file, or fails and leaves what arrived; every write has its own outcome |
| `Capture.CaptureWriter.Close` | tools/replay/cap_format.h:129-141 | patches the stage count, or as many of its bytes as arrive, into the header and nothing else; succeeds exactly when all arrive and the file closes |
| `Capture.CaptureReader.Open` | tools/replay/cap_format.h:154-207 | succeeds exactly on a valid header and finds the record offsets |
| `Capture.CaptureReader.ReadStage` | tools/replay/cap_format.h:212-234 | on an opened file what the offsets lead to, on none nothing |
| `Capture.TruncationSafe` | tools/replay/cap_format.h:154-234 | after any truncation that keeps the header, a record comes back exactly when it lies whole inside the rest; otherwise the read fails |
| `Capture.TornTailSafe` | tools/replay/cap_format.h:97-207 | whatever lies behind the first torn bytes, the records before them come back as far as the count goes, and nothing beyond it |
| `Capture.RecordAtIff` | tools/replay/cap_format.h:154-234 | a record is read at an offset exactly when its encoding lies there, but for the reserved bytes |
| `Capture.TornBackIff` | tools/replay/cap_format.h:97-207 | everything written comes back exactly when the bytes from the first torn ones on begin like the records written after them; so it does when none was |
| `Capture.TornByteCounterexample` | tools/replay/cap_format.h:97-127 | one torn byte, and the record written next does not come back |
| `Capture.TornHeaderUnnoticed` | tools/replay/cap_format.h:97-127 | a torn header followed by a record that repeats it does no harm |
| `Capture.WriteThenRead` | tools/replay/cap_format.h:73-234 | whatever each write leaves: the records before the first torn bytes come back, and all of them exactly when the rest begins like those written later; with room enough, every record in order |

## Left out

- Libsais.BuildSuffixArray: the first induction, which sorts the LMS positions by substring, marks the last of each class and leaves the LMS bucket starts, is not modelled; its result is a parameter.
- Libsais.SortLmsSuffixes: the construction for integer alphabets that sorts the text of names is a parameter, a function that returns that text's suffix array.
- libsais with extra space behind SA (fs > 0): the text of names lies at the end of SA itself.
- libsais OpenMP, GSA, BWT and unBWT variants: they multiply cases without a different theorem.
- Unrolled and prefetching loop bodies: modelled as their scalar loop; prefetches have no effect on values.
- std::sort: `StdSort.Sort` stands for it, over comparators proved to be strict total orders.
- Parallel blocks of the LCP computation: the threads == 1 path only.
- Stamp fields bytes_pos1, bytes_255 and ModifiedByte.byte_value: written and never read.
- Spsa.SpsaState.SpsaIntegrated: before the first call the counters of a state are 0; the code leaves them uninitialised, which matters only for a first call without markers, and the branch stage always leaves one (`HashRoutes.BranchMarkersAligned`).
- Position-level merge entries and their decoding: no code in the modelled route produces them.
- Slack elements of all_entries and the reuse of thread-local buffers: sizes only.
- HashRoutes.HashBothRoutes: compares what the two routes hash; unequal bytes might still collide under an arbitrary compression.
- AVX2 registers are 16 lanes of 16 bits and a scratch store of 32 bytes; instruction selection and alignment are not modelled.
- RC4, Salsa20, FNV-1a and SipHash: arbitrary functions. XXHash64 is arbitrary inside the branch stage and concrete in `XxHash`.
- Round constants and initial state of SHA-256 are parameters of the theorems; `Sha256Example` has those of the source. Its cryptographic strength is not a subject.
- XxHash.Hasher.Add: lengths are unbounded numbers, so the addition bufferSize + length does not wrap; the total length does, modulo 2^64.
- dluna_v114 descriptor stages and the Tritonn port: their implementations are not part of this model.
- Text frames with a zero character, which would end the text early, and keys too long for the 128-byte pattern: the miner's own keys are short.
- Sockets, TLS, DNS, back-off and timeouts: the network thread's choices are steps that may happen at any time; the quit flag and shutdown are left out.
- Poll cadence of the mining loop: a worker may take a new snapshot at any moment, which covers every cadence; hashing is one step that finds or not.
- Data races and memory order: a lock section or an atomic operation is one step. The accepted, rejected, blocks, totalHashes and staleHashesObserved counters are display only.
- Capture files: failures to open, size or read a file for reading, null pointers, and re-opening a writer that is still open.
- ShareQueue.MinerState.Cleanup: stated for no other thread stepping between its two parts, which are methods of their own; `ProtocolSafety` covers every interleaving of the same steps.
- ShareQueue.MinerState.OpenSession: likewise between its three parts.
- ShareQueue.MinerState.SubmitShares: likewise between swap, epoch load and sends, so the empty queue at its end is a sequential fact.
- Console, command line, configuration, hash-rate display, CPU pinning, huge pages and signals.
