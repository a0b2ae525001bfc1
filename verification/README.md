# Verification of the bzip2 library and of two parts of pax

This project models the bzip2 1.0.6 compression library and two stateful parts of pax in
Dafny, and proves that they do what they are for. `dafny verify dfyconfig.toml` checks all
of it.

## What is proved

**The library as a whole.** A compressor object accepts any sequence of run, flush and finish
requests, with input and output space cut up in any way. Once a finish request has been
carried out, what the caller received decompresses to what the caller supplied
(`Compressor.EndToEnd`), and a request is left unfinished only for want of space. A
decompressor object, given any bytes, with either of its two decoders and with input and
output space cut up in any way, reports the end of the stream only with exactly the text that
the stream stands for, and an error only if the stream has that error
(`Decompressor.Decompress`); what it steps is the decoder with its code tables and its blocked
list. The two meet in `Stream.RoundTrip`, which holds for any sorted listing of the rotations,
any code tables and any padding. A block or a stream stored with a wrong checksum is always
refused (`Stream.WrongBlockCrc`, `Stream.WrongCombinedCrc`), and no byte can change without
changing the checksum of its text (`Crc.OneByteTells`).

Without flushes the bytes put out are a function of the bytes put in, whatever the division
of either (`Compressor.OutputDependsOnInputAlone`), and every block but the last is full
(`Cutting.BlocksAreFull`): every step of the compressor that makes a
choice is also given as a function, and its contract says that this is what it computes. Two
work factors give different streams only for blocks that repeat themselves and that only one
of them lets the main sort finish (`SorterChoice.SameCutsSameOutput`).

**Block sorting.** Rotations and their order are defined once (`Rotations`). Both sorters are
proved against that order, in their own terms: the fallback sort by prefix doubling with its
header bitmap, and the main sort by its radix pass, string quicksort, Shell sort, pointer-scan
synthesis and quadrants. The inverse transform is proved from "the listing is sorted" alone.

**The other stages.** The initial run-length code, move-to-front with run digits (written over
the pointers still being read, and read back through a sliding list of sublists), code lengths
(termination, a complete code of at most 17 bits, and no cheaper one for the weights it is
built from), canonical codes and the decoder's
tables, the bit stream, selectors, delta-coded lengths, checksums, the size of the output, and
suspending the decoder at any bit.

**pax.** `map_dev` keeps (device, inode) pairs apart within the header fields of an archive,
and the block buffer appends exactly where the trailer began.

## How it is organised

| part | files |
|---|---|
| order of rotations, permutations, counting | `Rotations`, `Permutations`, `Counting` |
| machine words and bits | `Bits`, `BitStream`, `Bitmap`, `Crc`, `CrcPolynomial` |
| fallback sort | `RangeSort`, `Pending`, `FallbackQSort`, `Radix`, `Doubling`, `Twins`, `FallbackSort` |
| main sort | `MainOrder`, `MainSimpleSort`, `MainQSort`, `MainRadix`, `RunningOrder`, `Predecessors`, `Synthesis`, `SynthesisDone`, `Repetition`, `MainSort`, `Budget`, `BlockSort` |
| blocks that repeat themselves | `Doubled`, `SorterChoice`, `SortersDiffer` |
| inverse transform | `InverseBwt`, `BwtDecode` |
| run-length code | `RunLength`, `Collect`, `Cutting`, `Output` |
| move-to-front | `Mtf`, `MtfEncode`, `MtfDecode` |
| codes | `CanonicalCode`, `HuffmanTables`, `HuffmanForest`, `HuffmanHeap`, `HuffmanCost`, `HuffmanLengths`, `CodeTables`, `InitialTables` |
| format and compressor | `BlockFormat`, `SendMtf`, `BlockCompress`, `Emission`, `OutputSize`, `Compressor` |
| decoder | `Decoder`, `DecoderState`, `HeaderDecode`, `SymbolDecode`, `BlockDecode`, `ValueReader`, `Resume`, `Stream`, `Decompressor`, `Buffers` |
| pax | `PaxDevices`, `PaxBuffer` |

Code that works by changing things in place is modelled by classes and array methods, each
proved against a specification function; the properties are lemmas about those functions.
`Decoder` describes the decoder as a machine that asks for a few bits at a time: its state
holds the variables that the program saves and restores, and a variable that is no longer
needed is cleared, so that equal histories give equal states.

## Where the code and its comments differ

- `blocksort.c:964-985` says that a smaller quadrant number means a smaller rotation. In a big
  bucket two equal rotations can receive different numbers: they do unless the number of
  rotations equal to each other divides the unit to which places are shifted down
  (`MainSort.MeaningExact`). `MainSort.Sort` promises that exact condition throughout, and
  `Doubled.MeaningFails` is a block for which the comment is wrong. Where the meaning holds,
  `mainGtU` answers exactly; where it does not, `mainGtU` can answer "greater" for equal
  rotations. What the sort needs, and what is proved for every block, is that the numbers
  never contradict the order.
- `blocksort.c:1056-1061` says that the stream is the same whichever sorter is used. The last
  column, the tables and the selectors always are. `origPtr` is for a block that does not
  repeat itself (`SorterChoice.OneRow`), and then so is the stream. For a block that repeats
  itself it need not be: `SortersDiffer.WorkFactorMatters` gives an input of 510002 bytes that
  is sent differently with work factors up to 3 and from 4 on, because up to 3 the main sort
  gives up and from 4 on it finishes. Both streams decode alike. A difference takes a block
  that repeats itself and of which only one work factor lets the main sort finish
  (`SorterChoice.SameSorter`).
- The bytes of a stream depend on when its end was announced, exactly when the last byte fills
  a block: `bzlib.c:384` starts a new block before `bzlib.c:390` sees that the input has ended
  (`Cutting.EndsAlike`, `Compressor.SameInputSameOutput`).
- `tables.c:653-668` promises that remapping keeps files apart. With several source devices it
  does not: a new number may be the device of a file already stored unmapped
  (`PaxDevices.TwoSourcesCollide`). `PaxDevices.RunApart` and `PaxDevices.RunCollides` show that
  avoiding this is exactly what is needed.
- `appnd_start` is exact for every archive of whole blocks, which are those whose size is a
  multiple of 512 (`PaxBuffer.WholeIff`). For other archives it is exact if and only if the
  whole blocks it moves back lie in the file (`PaxBuffer.Buffer.AppndStart`); otherwise the
  offset is clamped to the start of the file and the writer stands too far on, as in
  `PaxBuffer.ShortFile`.

## Model

| member | source | states |
|---|---|---|
| Compressor.Compressor.EndToEnd | archivers/bzip2/files/bzlib.c:407-464 | Once a finish request has been carried out, decompressing all that the caller has received gives all that the caller supplied: for every input, block size, work factor, sequence of run, flush and finish requests, and division of input and output space |
| Compressor.Compressor.Compress | archivers/bzip2/files/bzlib.c:407-464 | The mode machine, with the outcome of every request: PARAM_ERROR exactly for a run request that can neither take nor give anything, SEQUENCE_ERROR exactly for a request out of turn or a finish with no space and nothing to read; FLUSH_OK and FINISH_OK only when the output space is used up; STREAM_END means that all input given was taken, nothing is pending and every byte written was delivered; a completed flush means the same and an empty block |
| Compressor.Compressor.HandleCompress | archivers/bzip2/files/bzlib.c:361-401 | Terminates for every mode and chunking, and reports progress if and only if input was taken or output given, which is predicted from the state before: space while writing, input while reading, either of them while finishing. Stops only for want of space, for want of input while running, or when the request is carried out |
| Compressor.Compressor.BlocksDependOnInputAlone | archivers/bzip2/files/bzlib.c:289-401 | Without a flush, the contents of the blocks sent are a function of the bytes supplied (and of whether the first finish request itself brought some of them), not of how they were cut up |
| Compressor.Compressor.OutputDependsOnInputAlone | archivers/bzip2/files/bzlib.c:361-464 | Without a flush, the bytes put out are one function of block size, work factor, the bytes supplied and whether the first finish request brought some: sorting, code tables, selectors, padding and all |
| Compressor.SameInputSameOutput | archivers/bzip2/files/bzlib.c:361-464 | Two finished runs without flushes over the same bytes put out the same bytes if and only if their ends were announced alike or the last byte does not fill a block |
| Compressor.SameBlocksSameOutput | archivers/bzip2/files/bzlib.c:361-464 | With flushes too, equal blocks mean equal output, padding included |
| Compressor.Compressor.OutputIsStream | archivers/bzip2/files/bzlib.c:407-464 | What has been put out at the end is the stream of the blocks, in bytes, and depends on the bytes of the blocks alone |
| Compressor.Compressor.MoreToCome | archivers/bzip2/files/bzlib.c:436-452 | Without a flush, while a finish request is not complete the stream is longer than what has been given: more space is really needed |
| Stream.CountIsKnown | archivers/bzip2/files/decompress.c:222-240 | The number of blocks can be told from the bits of any stream, so streams of different numbers of blocks differ |
| Cutting.EndsAlike | archivers/bzip2/files/bzlib.c:383-395 | Giving input along with the finish request cuts the stream differently from giving it before, with a block less, if and only if the last byte fills a block (line 384 comes before line 390) |
| Cutting.BlocksAreFull | archivers/bzip2/files/bzlib.c:288-329 | Whatever the input and either way of ending: every block but the last holds 100000*blockSize100k - 19 to - 15 bytes, and the last at least one and at most 100000*blockSize100k - 10 |
| Cutting.CutGrows | archivers/bzip2/files/bzlib.c:261-284 | Blocks once finished stay as they are whatever input comes later |
| Emission.EmittedAlike | archivers/bzip2/files/bzlib.c:383-395 | The bytes sent do not depend on when the end was announced unless the last byte fills a block |
| Emission.OnlyBytes | archivers/bzip2/files/compress.c:46-54 | There is only one way to put bits into bytes with fewer than eight zeros added |
| Compressor.Compressor.CopyInputUntilStop | archivers/bzip2/files/bzlib.c:289-329 | Takes input until the block is full, the input ends or the promised input has been taken; what has been taken is in a block or pending |
| Compressor.Compressor.CopyOutputUntilStop | archivers/bzip2/files/bzlib.c:334-356 | Delivers the written bytes in order until they or the space run out |
| Compressor.Compressor.CompressBlock | archivers/bzip2/files/compress.c:602-667 | Header before the first block, block unless empty, trailer and padding after the last; both checksums kept; the output fits in the 4(n+34) - nblock bytes behind the block |
| Stream.RoundTrip | archivers/bzip2/files/decompress.c:195-609 | Any stream that stands for a list of blocks, with any sorted listing of equal rotations, any tables and any padding, decompresses to their text, with block and combined checksums agreeing |
| Decompressor.Decompressor.Decompress | archivers/bzip2/files/bzlib.c:808-858 | On any bytes whatever, with the table-driven decoder, either output loop and any division of input and output space: STREAM_END only if all of the stream decompresses to exactly what has been put out, an error only if it comes to that error, OK only for want of space with more to come, for want of input still to come, or because the stream is cut short, SEQUENCE_ERROR exactly after the end; so every complete stream ends as the abstract decoder says, checksums included |
| Stream.WrongBlockCrc | archivers/bzip2/files/bzlib.c:826-832 | A block whose stored checksum is not that of its text makes every stream bad, whatever precedes and follows it; so it never ends with STREAM_END |
| Stream.WrongCombinedCrc | archivers/bzip2/files/bzlib.c:843-850 | So does a stored combined checksum that is not that of the blocks |
| Crc.UpdateTellsByte | archivers/bzip2/files/bzlib_private.h:167-172 | For any table whose entries differ in their low bytes two different bytes give two different checksums |
| Crc.UpdateTellsCrc | archivers/bzip2/files/bzlib_private.h:167-172 | And two different checksums remain different after one more byte |
| Crc.OneByteTells | archivers/bzip2/files/bzlib_private.h:155-172 | Two texts that differ in exactly one byte have different checksums, wherever it stands |
| Crc.CombineTells | archivers/bzip2/files/bzlib.c:832-835 | The combined checksum depends on the checksum of the last block and on that of the blocks before it |
| CrcPolynomial.FoldByBits | archivers/bzip2/files/bzlib_private.h:167-172 | With that table the checksum taken byte by byte is the one taken bit by bit, by polynomial division |
| CrcPolynomial.BlockChecksum | archivers/bzip2/files/bzlib_private.h:157-165 | The checksum of a text starts from all ones and is complemented at the end |
| CrcPolynomial.EntriesDiffer | archivers/bzip2/files/crctable.c:24-104 | The entries of the table of the polynomial 0x04c11db7 do differ in their low bytes |
| Decompressor.Decompressor.OutputSoFar | archivers/bzip2/files/bzlib.c:808-858 | At every moment, whatever the bytes supplied, what has been put out is a prefix of what the stream decompresses to, if it does |
| Buffers.CompressBuffer | archivers/bzip2/files/bzlib.c:1247-1295 | Succeeds if and only if the parameters are valid and the stream for the source fits the destination, and then gives that stream, which decompresses to the source; OUTBUFF_FULL exactly when it does not fit, and a refusal for valid parameters exactly when there is neither source nor destination |
| Buffers.DecompressBuffer | archivers/bzip2/files/bzlib.c:1299-1348 | For any source: if it decompresses to a text, success with exactly that text if it fits and OUTBUFF_FULL if not; for a bad source its error and for one cut short UNEXPECTED_EOF, unless the destination is full before that |
| Collect.Collector.AddCharToBlock | archivers/bzip2/files/bzlib.c:261-284 | One more byte: the block and the pending run together stand for one byte more; the block grows by at most five bytes, and its symbol map and checksum stay right |
| Collect.Collector.AddPairToBlock | archivers/bzip2/files/bzlib.c:216-247 | Writing a run of 1 to 255 appends its code; the block then decodes to the old content, and the checksum is that of this content, every byte of which makes a difference to it (`Crc.OneByteTells`) |
| Collect.Collector.FlushRL | archivers/bzip2/files/bzlib.c:252-256 | Nothing is left pending and the block decodes to all that was gathered |
| RunLength.UnRleAppendRun | archivers/bzip2/files/bzlib.c:216-247 | Appending a coded run to a block that it cannot lengthen appends its expansion, for every block |
| Output.OutputStage.UnRleFast | archivers/bzip2/files/bzlib.c:536-682 | For any block: delivers as much of its text as there is room for, updates the checksum by exactly those bytes, and leaves exactly the rest, wherever it is interrupted; corruption is reported only if the run-length code of the block breaks off, and if it does, unless the space is used up first |
| Output.OutputStage.UnRleSmall | archivers/bzip2/files/bzlib.c:706-804 | The same contract for the loop over the 20-bit vector |
| Output.OutputStage.FinishedIff | archivers/bzip2/files/bzlib.c:820-822 | The caller's test for the end of a block holds if and only if the block is sound and nothing of it remains |
| Output.IndexIntoF | archivers/bzip2/files/bzlib.c:687-698 | The bisection finds the symbol whose bucket holds the row |
| MainSort.Sort | archivers/bzip2/files/blocksort.c:751-1011 | If the budget lasts, the listing is a permutation with all rotations in non-decreasing lexicographic order, for every block longer than the overshoot, periodic ones included; the block is unchanged. Listing and remaining budget are one function of block and budget. After every big bucket the quadrants have their stated meaning if and only if, for each bucket numbered so far, the number of equal rotations divides the unit of its numbers |
| MainSort.StepOne | archivers/bzip2/files/blocksort.c:878-907 | After step 1 every small bucket [ss,j], j != ss, is marked, and every marked bucket is in order |
| MainSort.StepTwo | archivers/bzip2/files/blocksort.c:911-946 | After step 2 the listing is still a permutation by buckets, and every bucket [t,ss] with t not done, [ss,ss] included, is in order |
| SynthesisDone.Finish | archivers/bzip2/files/blocksort.c:918-944 | From sorted buckets [ss,j] the two scans fill every [t,ss] not yet done with exactly its rotations, in order, and assertion 1007 holds for every block |
| SynthesisDone.FillBucket | archivers/bzip2/files/blocksort.c:923-934 | Unless the block is all ss, the scans meet in every bucket not yet done and fill it in order |
| SynthesisDone.AllOneSymbol | archivers/bzip2/files/blocksort.c:936-944 | For the block of one symbol nothing is scanned, the start is 0 and the end nblock-1, and the buckets are in order: the second half of assertion 1007 |
| Synthesis.UpRoom | archivers/bzip2/files/blocksort.c:923-928 | There is always room in the bucket for a predecessor found by the upward scan |
| Synthesis.UpPut | archivers/bzip2/files/blocksort.c:923-928 | Filing a predecessor keeps the row sorted, each bucket equal to the predecessors of what was passed, and every other place unchanged |
| Synthesis.DownRoom | archivers/bzip2/files/blocksort.c:929-934 | The downward scan never reaches what the upward scan has filled |
| Synthesis.DownPut | archivers/bzip2/files/blocksort.c:929-934 | The same step for the downward scan |
| Predecessors.PredsRow | archivers/bzip2/files/blocksort.c:923-934 | The predecessors, with one first symbol, of rotations in order are distinct and in order |
| Predecessors.LowComplete | archivers/bzip2/files/blocksort.c:923-928 | Every rotation of a run of ss followed by a smaller symbol is reached |
| Predecessors.LowBeforeHigh | archivers/bzip2/files/blocksort.c:923-934 | Rotations found by the upward scan precede those found by the downward scan |
| MainSort.StepThree | archivers/bzip2/files/blocksort.c:987-1004 | The new quadrant numbers, shifted to 16 bits, never contradict the order of rotations; they are the places themselves for at most 65534 rotations; the copies behind the block mirror the start, and other buckets keep their numbers |
| MainSort.MeaningExact | archivers/bzip2/files/blocksort.c:964-985 | The meaning that the comment gives to quadrant numbers holds of a finished big bucket of any size, shifted or not, if and only if the bucket is empty or the number of rotations equal to each other divides the unit of the shift |
| MainSort.MeaningInRow | archivers/bzip2/files/blocksort.c:964-985 | For any unit, the numbers of a bucket have the stated meaning if and only if places with different numbers hold different rotations |
| Repetition.OneSize | archivers/bzip2/files/blocksort.c:964-985 | Every rotation of a block has the same number of rotations equal to it |
| Repetition.ClassOf | archivers/bzip2/files/blocksort.c:964-985 | In the sorted bucket of one symbol, two rotations are equal if and only if no multiple of that number separates their places |
| MainSort.MeaningIff | archivers/bzip2/files/blocksort.c:949-1004 | For every block, budget and number of big buckets sorted, given what Sort ensures of them (Sort ensures the conclusion as well): the quadrants have the stated meaning if and only if each bucket numbered so far can have it, which block and bucket size decide |
| MainSort.AlwaysCan | archivers/bzip2/files/blocksort.c:964-985 | In a block that does not repeat itself every bucket can have the stated meaning |
| MainSort.UnshiftedCan | archivers/bzip2/files/blocksort.c:964-1004 | A bucket of 1 to 65534 rotations can have it only then |
| Doubled.MeaningFails | archivers/bzip2/files/blocksort.c:964-985 | For the block 0 251^5000 0 251^5000 and any budget of at least 1252 the main sort gets past the bucket of 0, and the stated meaning is then wrong |
| Doubled.MainLists | archivers/bzip2/files/blocksort.c:751-1011 | On that block the main sort charges for one comparison, so it gives up without a budget and otherwise finishes, and lists rotation 0 before its equal 5001 |
| MainOrder.MainGtU | archivers/bzip2/files/blocksort.c:347-469 | Whenever the quadrants have their stated meaning, true if and only if strictly greater; in any case greater implies not smaller, and not greater implies not greater in order. Answer and work charged are one function of block, quadrants and positions; no position read lies beyond nblock + 33 |
| MainOrder.OvershootNeeded | archivers/bzip2/files/blocksort.c:347-469 | The overshoot cannot be shorter: for every block size there is a block and a comparison that is decided by position nblock + 33 |
| MainOrder.SymbolsCost | archivers/bzip2/files/blocksort.c:390-469 | One comparison charges at most an eighth of the block and two, however long rotations agree |
| MainOrder.ExactWhenDistinct | archivers/bzip2/files/blocksort.c:347-469 | For rotations that are not equal the answer is exact: true if and only if strictly greater |
| MainSimpleSort.Sort | archivers/bzip2/files/blocksort.c:485-565 | Permutes only its range and, unless abandoned, leaves it in rotation order; abandoned or not, the result and the work charged are those of the specification |
| MainQSort.Sort | archivers/bzip2/files/blocksort.c:621-717 | Permutes only its range and, unless abandoned, leaves it in rotation order; the stack stays below 24 entries, so assertion 1001 never fails; result and work charged are those of the specification |
| MainQSort.SplitMeans | archivers/bzip2/files/blocksort.c:696-716 | Replacing a range by its three parts, largest first, keeps every pair outside the pending ranges in order, their agreement to depth d, and the bound on the stack |
| MainQSort.KeyDecides | archivers/bzip2/files/blocksort.c:656-661 | The symbol d places on decides rotations that agree so far, or makes them agree on one more |
| MainQSort.Partition | archivers/bzip2/files/blocksort.c:656-700 | Three-way partition around the median of three, unless all symbols there are the same |
| MainQSort.Median3 | archivers/bzip2/files/blocksort.c:583-594 | The median: one of the three, with at most one below and at most one above |
| MainRadix.CountPairs | archivers/bzip2/files/blocksort.c:769-798 | The rolling count of symbol pairs, the cleared quadrants, and the mirrored first symbols |
| MainRadix.PlacePairs | archivers/bzip2/files/blocksort.c:802-828 | Every rotation lies in the bucket of its first two symbols, and the table holds the bucket starts |
| RunningOrder.Find | archivers/bzip2/files/blocksort.c:834-864 | A permutation of the big buckets, from the smallest to the largest, ties broken as by the Shell sort |
| RunningOrder.OrderAscends | archivers/bzip2/files/blocksort.c:834-864 | The Shell sort of any table of bucket starts is a permutation by ascending size |
| FallbackSort.Sort | archivers/bzip2/files/blocksort.c:212-329 | A permutation with all rotations in order, for every block, and one and the same function of the block; two equal rotations alone with their first symbol stay as the first pass lists them; the block, whose storage holds the class numbers meanwhile, is rebuilt |
| Twins.BucketTwins | archivers/bzip2/files/blocksort.c:292-304 | Refining any bucket leaves two equal rotations that have a bucket to themselves where they are |
| FallbackSort.Double | archivers/bzip2/files/blocksort.c:247-313 | The doubling loop terminates with the rotations in order, for every block |
| FallbackSort.RefineRound | archivers/bzip2/files/blocksort.c:266-306 | A round with step H: the listing is ordered by 2H symbols and headers mark exactly the classes of rotations that agree on them |
| FallbackSort.RefineBucket | archivers/bzip2/files/blocksort.c:292-304 | Sorting one class by class number and marking the changes refines it to 2H symbols |
| FallbackSort.AssignClasses | archivers/bzip2/files/blocksort.c:266-271 | The class numbers order rotations by what follows their first H symbols |
| FallbackSort.ReconstructBlock | archivers/bzip2/files/blocksort.c:315-329 | The block rebuilt from the listing and the counts is the original; assertion 1005 never fails |
| FallbackSort.RadixPass | archivers/bzip2/files/blocksort.c:236-241 | The one-symbol radix pass puts every position into the bucket of its symbol |
| Doubling.BucketRefined | archivers/bzip2/files/blocksort.c:292-304 | Ordering a class by the class numbers H places on orders it by 2H symbols |
| Doubling.OrderedEnough | archivers/bzip2/files/blocksort.c:311-312 | When no class has two members, or H exceeds the block, the order is the full order of rotations |
| Bitmap.ScanRun | archivers/bzip2/files/blocksort.c:278-291 | The scan by words stops at the same bit as a scan bit by bit |
| Bitmap.SetBh | archivers/bzip2/files/blocksort.c:205-208 | Setting a header changes that bit and no other |
| FallbackQSort.FallbackQSort3 | archivers/bzip2/files/blocksort.c:93-182 | Orders its range by class number and permutes nothing else; the stack stays below 23 entries, so assertion 1004 never fails |
| FallbackQSort.FallbackSimpleSort | archivers/bzip2/files/blocksort.c:32-60 | Orders its range by class number and permutes nothing else |
| Pending.RangeStep | archivers/bzip2/files/blocksort.c:109-175 | Replacing a pending range by ranges that cover what is still out of order inside it keeps all other pairs in order |
| Pending.FitsHigher | archivers/bzip2/files/blocksort.c:702-716 | A part at most half (a third) as large fits one (two) places higher on the stack |
| RangeSort.PartitionScan | archivers/bzip2/files/blocksort.c:663-689 | The scans of the three-way partition, as both quicksorts use them |
| RangeSort.GatherPivots | archivers/bzip2/files/blocksort.c:697-700 | Exchanging the ends leaves smaller keys, pivots, larger keys, in that order |
| BlockSort.Sort | archivers/bzip2/files/blocksort.c:1031-1089 | Whichever sorter runs, including a retreat from the main sort, the listing is sorted, origPtr is the place of rotation 0, and both are a function of block and work factor |
| BlockSort.SameLastColumn | archivers/bzip2/files/blocksort.c:1056-1061 | All sorted listings of a block have the same last column |
| BlockSort.SameStart | archivers/bzip2/files/blocksort.c:1056-1061 | All sorted listings of a block have the block itself at the same place if and only if no other rotation equals it |
| SorterChoice.SameCutsSameOutput | archivers/bzip2/files/blocksort.c:1056-1061 | Two finished compressors with any work factors and the same bytes in their blocks have sent the same if and only if every block has the same place in both listings; and that is so if each block that repeats itself is listed by the same sorter in both |
| SorterChoice.WorkFactorIff | archivers/bzip2/files/blocksort.c:1056-1061 | The same for one input and two work factors, as functions of the input |
| SorterChoice.BlockAlike | archivers/bzip2/files/blocksort.c:1056-1061 | One block is sent in equally many bits by both sorters, and in the same bits if and only if its place is the same |
| SorterChoice.OneRow | archivers/bzip2/files/blocksort.c:1056-1061 | For a block that does not repeat itself the place is the same |
| SorterChoice.SameSorter | archivers/bzip2/files/blocksort.c:1042-1075 | The listing depends on the work factor only through whether the main sort is used and lasts |
| Budget.AfterMore | archivers/bzip2/files/blocksort.c:1062-1075 | A main sort that finishes would with more budget have done the same, and have the rest left |
| SortersDiffer.WorkFactorMatters | archivers/bzip2/files/blocksort.c:1056-1061 | The block 0 251^5000 0 251^5000, sorted with any work factor up to 3 and any from 4 on: it stands at place 1 of the first listing and 0 of the second, and the streams for the input that makes this block are different, for every block size |
| SortersDiffer.InputIsTwice | archivers/bzip2/files/bzlib.c:216-284 | The input 0, 255000 times 251, 0, 255000 times 251 makes exactly that one block, for every block size |
| Rotations.CmpIsLexicographic | archivers/bzip2/files/blocksort.c:347-469 | The comparison used throughout is the lexicographic order of rotations |
| BwtSpec.ChainRecoversBlock | archivers/bzip2/files/decompress.c:558-566 | From the last column and origPtr of any sorted listing, the chain of rows spells the block, periodic blocks included |
| BwtSpec.LFStepsBack | archivers/bzip2/files/decompress.c:558-563 | The row counted for a symbol holds the rotation one place earlier, up to equal rotations |
| BwtDecode.BuildFast | archivers/bzip2/files/decompress.c:558-563 | Each entry keeps its symbol and gains the row that leads to it |
| BwtDecode.BuildSmall | archivers/bzip2/files/decompress.c:524-544 | On the cycle through origPtr the links are reversed; rows on other cycles keep their forward links |
| BwtDecode.SetLL | archivers/bzip2/files/bzlib_private.h:458-473 | Storing a 20-bit value changes that entry and no other |
| BwtDecode.MakeCftab | archivers/bzip2/files/decompress.c:500-514 | The running totals are in range and ascending, so the checks on them never fail |
| Output.OutputStage.GetFast | archivers/bzip2/files/bzlib_private.h:444-456 | Draws the next symbol of the block from the 32-bit vector |
| Output.OutputStage.GetSmall | archivers/bzip2/files/bzlib_private.h:475-479 | Draws the same symbol by bisection and the reversed link |
| Mtf.DecodeEncode | archivers/bzip2/files/decompress.c:375-484 | Decoding values and run digits undoes their encoding, for every list of symbols |
| MtfEncode.GenerateMtfValues | archivers/bzip2/files/compress.c:120-231 | The values and their frequencies are those of the plain transformation of the last column, although they overwrite the pointers being read |
| MtfEncode.PutSymbol | archivers/bzip2/files/compress.c:163-209 | wr plus the pending run never passes the pointer being read |
| MtfEncode.FindAndMove | archivers/bzip2/files/compress.c:192-208 | The rotating search finds the symbol's place and moves it to the front |
| MtfDecode.BlockedList.Move | archivers/bzip2/files/decompress.c:425-477 | The sliding list of sixteen sublists refines move-to-front on a plain list, re-packing included |
| MtfDecode.BlockedList.Repack | archivers/bzip2/files/decompress.c:466-475 | Re-packing at the bottom keeps the list; nothing unread is overwritten |
| SymbolDecode.ReadDigits | archivers/bzip2/files/decompress.c:379-396 | The digits of a run add up, and the test of N against two million does not fire on runs of at most 900000 |
| ValueReader.MakeMapsD | archivers/bzip2/files/decompress.c:27-36 | The symbols in use, in ascending order |
| ValueReader.UndoSelectorMtf | archivers/bzip2/files/decompress.c:302-314 | The shifting loop undoes the move-to-front coding of the selectors |
| ValueReader.Reader.Answer | archivers/bzip2/files/decompress.c:74-102 | With tables, blocked list, block storage and symbol counts the decoder does exactly what the abstract machine does on every answer to a request for part of a value, failures included |
| ValueReader.Reader.Take | archivers/bzip2/files/decompress.c:375-486 | One decoded value: run digits, run expansion, move-to-front or end of block, with the overflow tests |
| HuffmanLengths.MakeCodeLengths | archivers/bzip2/files/huffman.c:63-148 | Terminates, for 2 to 258 symbols, with every length in 1..17 and Kraft sum exactly one, as a function of the frequencies. Where no rescaling is needed no prefix code of any lengths up to 17 makes the text shorter; where it is needed the same holds of the weights that the frequencies were rescaled to |
| HuffmanCost.MergeStep | archivers/bzip2/files/huffman.c:99-112 | Joining the two lightest weights: any code for the weights before gives one for those after that is shorter by at least the two weights |
| HuffmanCost.ThriftyStep | archivers/bzip2/files/huffman.c:99-112 | A forest that can still become a cheapest code remains one when its two lightest roots are joined |
| HuffmanCost.HeavierIsShorter | archivers/bzip2/files/huffman.c:99-124 | In a cheapest code a heavier symbol never has the longer code word |
| HuffmanLengths.Flatten | archivers/bzip2/files/huffman.c:142-146 | Rescaling strictly lowers the total weight as long as some length is too long |
| HuffmanLengths.TooLongIsHeavy | archivers/bzip2/files/huffman.c:115-123 | A length above 17 needs a total weight that cannot be reached once all weights are at most two |
| HuffmanForest.DepthBound | archivers/bzip2/files/huffman.c:100-109 | A tree whose packed depth is d weighs at least a Fibonacci number that grows with d |
| HuffmanHeap.ExtractTop | archivers/bzip2/files/huffman.c:101-102 | Takes a lightest root off the heap and leaves a heap of the others |
| HuffmanHeap.Insert | archivers/bzip2/files/huffman.c:106-108 | Adds a node to the heap |
| HuffmanTables.AssignCodes | archivers/bzip2/files/huffman.c:152-166 | Every symbol gets its canonical code |
| HuffmanTables.CreateDecodeTables | archivers/bzip2/files/huffman.c:170-200 | limit, base and perm are, wherever the decoder looks, the tables that the lengths determine |
| CanonicalCode.PrefixFree | archivers/bzip2/files/huffman.c:152-166 | No code is the beginning of another |
| CanonicalCode.CodeFits | archivers/bzip2/files/huffman.c:152-166 | Every code fits in its length |
| CanonicalCode.LongerExceeds | archivers/bzip2/files/decompress.c:90-97 | Read to a shorter length, a code exceeds every code of that length, so the walk does not stop early |
| SymbolDecode.ReadCode | archivers/bzip2/files/decompress.c:74-102 | From a symbol's code the decoder finds that symbol after exactly its code length in bits |
| SymbolDecode.ReadValues | archivers/bzip2/files/decompress.c:349-492 | Decoding the 50-symbol groups of a block gives back the last column |
| HeaderDecode.FeedSelectors | archivers/bzip2/files/decompress.c:286-314 | The selectors are read back, with their move-to-front coding undone |
| HeaderDecode.SelectorsUndone | archivers/bzip2/files/decompress.c:302-314 | Undoing the move-to-front of the selectors, for every list |
| HeaderDecode.FeedTables | archivers/bzip2/files/decompress.c:316-329 | The delta-coded lengths of all tables are read back |
| HeaderDecode.FeedMapping | archivers/bzip2/files/decompress.c:266-284 | The two-level symbol map is read back |
| HeaderDecode.FeedPreamble | archivers/bzip2/files/decompress.c:222-264 | Block header, checksum, randomisation bit and origPtr are read back |
| Compressor.Compressor.InputPhase | archivers/bzip2/files/bzlib.c:382-398 | The input phase: nblock never exceeds 100000*blockSize100k - 10, so the decoder's size tests never reject a block; every byte taken is in a block or pending; and without a flush every block sent while more follows holds at least 100000*blockSize100k - 19 bytes |
| Compressor.Compressor.SentWhenFull | archivers/bzip2/files/bzlib.c:382-398 | At every moment of a run without flushes all blocks sent, but for the last when the input has ended, hold at least 100000*blockSize100k - 19 bytes |
| HeaderDecode.HeaderExact | archivers/bzip2/files/decompress.c:197-211 | The stream header is the only four bytes after which the decoder waits for a block |
| HeaderDecode.BlockMagicExact | archivers/bzip2/files/decompress.c:222-234 | The block magic is the only six bytes that lead to a block |
| HeaderDecode.EndMagicExact | archivers/bzip2/files/decompress.c:582-593 | The end magic is the only six bytes that lead to the stream's checksum |
| HeaderDecode.FeedTrailer | archivers/bzip2/files/decompress.c:582-607 | The stream trailer is read back |
| BlockDecode.FeedBlock | archivers/bzip2/files/decompress.c:222-492 | The decoder reads a block back: last column, origPtr and checksum |
| CodeTables.ChooseTables | archivers/bzip2/files/compress.c:271-459 | The tables and selectors after the four passes, as a function of values and frequencies; the block can be sent with them, all tables are complete codes, there is a selector for every 50 values, and assertions 3002 and 3003 hold |
| InitialTables.EachPreferredOnce | archivers/bzip2/files/compress.c:282-318 | Before the first pass every symbol of the alphabet is preferred, at cost 0, by exactly one table, and costs 15 in all others |
| InitialTables.StretchShare | archivers/bzip2/files/compress.c:286-298 | The stretch of symbols that a table prefers reaches its share of the remaining frequency with its last symbol and not before; only every second part, but for the first and last, may leave that symbol to the next |
| CodeTables.SelectTables | archivers/bzip2/files/compress.c:333-440 | Every group is given the first of the cheapest tables of the pass, and the new frequencies are the counts of the values by the table of their group |
| CodeTables.FirstLeast | archivers/bzip2/files/compress.c:392-402 | The table chosen costs no more than any other and less than every earlier one |
| CodeTables.PackedCosts | archivers/bzip2/files/compress.c:361-390 | Costs added up two to a word are the same as those added up one by one |
| SendMtf.SendMtfValues | archivers/bzip2/files/compress.c:239-598 | The bits sent are those of the format, for the tables and selectors that the passes over the values arrive at, with which the values can be sent |
| SendMtf.SendData | archivers/bzip2/files/compress.c:544-594 | The codes of all values, group by group; the selectors used up are exactly those chosen |
| SendMtf.CodeSelectors | archivers/bzip2/files/compress.c:461-478 | Move-to-front positions of the selectors |
| SendMtf.SendMapping | archivers/bzip2/files/compress.c:494-513 | The two-level symbol map |
| SendMtf.SendTable | archivers/bzip2/files/compress.c:531-540 | The delta-coded lengths of one table |
| BlockCompress.SendBlock | archivers/bzip2/files/compress.c:626-650 | The bits sent for a block are those of the format for the sorted block, its checksum and origPtr, and a function of its bytes and the work factor |
| BitStream.BitWriter.Write | archivers/bzip2/files/compress.c:58-78 | Writing n bits appends exactly those bits, whole bytes first |
| BitStream.BitWriter.Finish | archivers/bzip2/files/compress.c:46-54 | All bits end up in bytes, with fewer than eight zeros added |
| OutputSize.BlockShort | archivers/bzip2/files/compress.c:619-666 | A bound on the bits of a block, from code lengths of at most 17 |
| OutputSize.OutputFits | archivers/bzip2/files/bzlib.c:176-201 | That bound, with header, trailer and bits held over, fits behind the block for every block size |
| OutputSize.QuadrantFits | archivers/bzip2/files/blocksort.c:1052-1054 | The aligned quadrants fit behind the block as well |
| Resume.ChunksDoNotMatter | archivers/bzip2/files/decompress.c:43-65 | However the input is cut into pieces, the suspended and resumed decoder ends in the same state, with the same bits left, as with all of it at once |
| Resume.RunOnAppend | archivers/bzip2/files/decompress.c:167-193 | Decoding what has arrived and the rest later is decoding all of it |
| Resume.BitReader.GetBits | archivers/bzip2/files/decompress.c:43-65 | Takes exactly the bits asked for, or none and loses nothing |
| Resume.BitReader.Decompress | archivers/bzip2/files/decompress.c:106-640 | The decoder with its tables and blocked list goes on from wherever it was suspended, as far as the input reaches, exactly as the abstract machine does |
| Resume.BitReader.StepControl | archivers/bzip2/files/decompress.c:195-347 | Outside the values of a block the decoder answers every request as the abstract machine does, and sets up tables, maps and list when the values begin |
| Resume.BitReader.StepValue | archivers/bzip2/files/decompress.c:349-609 | Within the values likewise, up to the end of the block or a failure |
| DecoderState.AfterKeeps | archivers/bzip2/files/decompress.c:195-609 | On any input whatever the saved variables stay in range: tables, selectors, lengths, list and block |
| DecoderState.NeedBounded | archivers/bzip2/files/decompress.c:43-65 | No request is for nothing or for more than twenty bits |
| PaxDevices.RunOverOneDevice | archivers/pax/files/tables.c:800-885 | For any files from one source device, after any devices recorded by add_dev, unless it goes bad: stored pairs fit the fields, equal and only equal inodes are stored alike, and no stored device is one of those recorded |
| PaxDevices.RunApart | archivers/pax/files/tables.c:800-885 | The same for runs over any source devices, as long as no file clashes with those stored by then: equal and only equal files are stored alike |
| PaxDevices.RunCollides | archivers/pax/files/tables.c:846-852 | A run with a clash can go wrong: after some of its first files there is one more that would be stored like a different one before it |
| PaxDevices.MapKeeps | archivers/pax/files/tables.c:800-885 | Storing one more file from any device keeps all stored pairs apart, unless it needs a number and the next free one is the device of a file stored unmapped |
| PaxDevices.NumberGiven | archivers/pax/files/tables.c:853-885 | A file that needs a number is given the next one that neither the table nor its own device has |
| PaxDevices.ClashCollides | archivers/pax/files/tables.c:846-852 | That hypothesis is needed: after such a clash there is a file that will be stored like an earlier one |
| PaxDevices.TwoSourcesCollide | archivers/pax/files/tables.c:846-852 | Two cpio files, device 1 inode 5 and device 2 inode 65541, that are stored alike |
| PaxDevices.StoredApart | archivers/pax/files/tables.c:800-885 | From the invariant: two files are stored alike if and only if they are the same file |
| PaxDevices.SameAgain | archivers/pax/files/tables.c:826-841 | A file met again is stored as before and changes nothing |
| PaxDevices.DeviceTable.Map | archivers/pax/files/tables.c:800-885 | The program's search and registration do what the specification says, wrap-around of the counter included |
| PaxBuffer.Append | archivers/pax/files/buf_subs.c:241-327 | On an archive of whole blocks, after any reading: the archive becomes its bytes up to tlen before the reader, then the new bytes, then zeros up to a block boundary |
| PaxBuffer.Buffer.AppndStart | archivers/pax/files/buf_subs.c:241-327 | Succeeds exactly when the blocks that it goes back to can be read again, and then places the writer at a stated place, which is tlen before the reader if and only if the whole blocks back to there lie in the file |
| PaxBuffer.ShortFile | archivers/pax/files/buf_subs.c:241-327 | An archive of 20000 bytes, opened for appending and read up to 10752, with a trailer of 1024 bytes before that: appnd_start succeeds and keeps 10208 bytes instead of 9728 |
| PaxBuffer.WholeIff | archivers/pax/files/ar_io.c:361-388 | The block size chosen for appending divides the size of a regular file if and only if 512 does |
| PaxBuffer.ChooseBlock | archivers/pax/files/ar_io.c:361-388 | The block size: the one asked for if it divides the size of the file; otherwise the largest multiple of 512 up to 32256 that does, if there is one, and 10240 if there is none |
| PaxBuffer.Buffer.RdWrbuf | archivers/pax/files/buf_subs.c:552-588 | The next bytes of the stream, or as many as there are |
| PaxBuffer.Buffer.RdSkip | archivers/pax/files/buf_subs.c:426-486 | Moves forward in the stream, by seeking over whole blocks; reports an early end |
| PaxBuffer.Buffer.Pback | archivers/pax/files/buf_subs.c:410-416 | Data pushed back is read again |
| PaxBuffer.Buffer.Fill | archivers/pax/files/buf_subs.c:891-928 | The next block of the file, without moving the reader |
| PaxBuffer.Buffer.WrRdbuf | archivers/pax/files/buf_subs.c:516-540 | Appends to the stream |
| PaxBuffer.Buffer.WrSkip | archivers/pax/files/buf_subs.c:600-618 | Appends zeros to the stream |
| PaxBuffer.Buffer.WrFin | archivers/pax/files/buf_subs.c:495-503 | Fills the last block up with zeros and writes it |
| PaxBuffer.Buffer.Flush | archivers/pax/files/buf_subs.c:939-1010 | Writes a full block; the stream is unchanged |

## Left out

- Randomised blocks: the compressor never makes them; the decoder model refuses them.
- The literal entries of the checksum table: checksums are folds over any table of 256 words, and `CrcPolynomial` says what the table of its polynomial makes of them.
- Allocation failure, version and parameter queries, the stdio wrappers, the command-line program, `bzip2recover`, verbosity output: input/output and user interface.
- Byte counters that wrap around (`total_in`, `total_out`): nothing depends on them.
- Hand-unrolled copies (the steps of `mainGtU`, the radix loops, the fast tracks of `sendMTFValues`): modelled once, as loops; the packed cost table is modelled.
- Shared storage: `arr1` and `arr2` are separate arrays here. Where the sharing matters it is kept: values written over pointers (`MtfEncode`), the block under the class numbers (`FallbackSort`), room for output and quadrants (`OutputSize`). The main sort works on a copy of the block with the overshoot behind it.
- Arrays that an operation only reads are passed as sequences, and explicit stacks are sequences with their bound asserted.
- Pointers to C arrays inside `DState` (`limit`, `base`, `perm`) are sequences per group, made by the array methods of `HuffmanTables`.
- Memory that the decoder has not written: entries of `perm` past the alphabet read as 0, and `selectorMtf` has no fixed capacity.
- Calls after an error: the decompressor is not used again once it has reported one.
- SorterChoice.SameCutsSameOutput: of a block that repeats itself and that only one of two work factors lets the main sort finish, it says that the streams are the same exactly when both listings have it at the same place, not for which blocks that is so; this depends on how the quicksorts of both sorters exchange equal rotations.
- HuffmanLengths.MakeCodeLengths: where a length would exceed 17 it states that the code is the cheapest for the rescaled weights, not for the frequencies themselves, because rescaling gives that up.
- pax devices other than regular files, several volumes, `wrlimit`, media errors, signals: the archive is one file with an offset, and its operations are the regular-file branches of `ar_read`, `ar_write`, `ar_fow`, `ar_rev` and `ar_set_wr`.
- pax hash chains: the device table is a map from devices to lists of remappings. Storage masks are taken to be all ones up to some bit, as in every caller, so masking is a remainder.
- pax header formats, number conversion, link and name tables, file copying: true but easy.
