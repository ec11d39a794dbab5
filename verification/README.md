# bzip2, the zlib checksums and gSOAP's chunk framing: model and proofs

This project models three self-contained pieces of the bundled libraries and proves what they
are for.

**bzip2 1.0.6** (`dep/bzip2`). Both programs are modelled as they are written: loops over
arrays, explicit stacks, objects whose methods update their fields. Every stage has a
specification on sequences, and every method is proved against it.

- *Sorting.* `Rotations` defines the rotation order; `FallbackSort` (prefix doubling on a
  marked bucket table) and `MainSort` (radix step, 3-way string quicksort, pointer scans,
  rank cache) both reach it for every block; `BlockSort` chooses between them.
- *Inversion.* `Inverse` proves that any sorted order, periodic blocks included, is undone by
  the decoder's walk; `InverseTables` builds the two tables the decoder walks on.
- *Symbols.* `Mtf` is the move-to-front and run code; `MtfEncoder` produces it from a rotating
  list, `SlidingMtf` and `MtfDecoder` read it with sixteen sliding lines in a 4096-byte array.
- *Huffman codes.* `Heap`, `HuffmanTree` and `HuffmanLengths` build length-limited codes,
  `HuffmanOptimal` proves that no code costs less, `CanonicalCodes` assigns them and makes the
  decoder's tables, `TableChoice` selects the tables of a block.
- *The wire.* `BitIO`, `SideInfo`, `Selectors`, `CodingTables`, `SymbolGroups`, `Payload` and
  `Container` write every field of the format. Each reader is proved equal, on every input, to
  a parsing function, and each parsing function is proved to undo the writer. `Locality` proves
  that no parsing function looks ahead, and `BlockSize` bounds what a block can take.
- *Checksums.* `BlockCrc` has the checksum of a block with its table, `BlockChecksums` the
  combined checksum of a stream in closed form.
- *The programs.* `RunLength`, `CompressStream` and `StreamFormat` are the compressor's state
  machine around the block compressor; `BlockOutput`, `BlockInput` and `Decompressor` are the
  decompressor. `StreamMeaning` defines for any bits at all what a decompressor gives out and
  how it ends, and `Decompressor.Decompress` is proved to do that on every input, for any
  pieces and any buffers. `EndToEnd.CompressAndRestore` joins the programs: whatever calls the
  compressor's caller makes, and however the compressed bytes and the output buffers are cut
  up, the decompressor gives back the input with every checksum in order; and finishing calls
  with enough room in all do reach the end of the stream.

**zlib's checksums** (`dep/zlib`). `Crc32` (over `Gf2`) has the table construction, the
byte-wise loop, the word-wise loops for either byte order and `crc32_combine_`; `Adler32` has the deferred reductions and
`adler32_combine_`. Both combining functions are proved to give the checksum of the
concatenation.

**gSOAP's HTTP chunked transfer coding** (`dep/gsoap`). `ChunkedTransfer` (over `HexNumerals`)
has the buffered chunk writer and the reader, and proves that the reader delivers exactly what
was sent, and what any well-formed body holds, whoever wrote it.

Five places where the code does less than its documentation, comments or format suggest, each
with an input and the exact condition:

- The comment at `dep/bzip2/blocksort.c:1059-1061` says that both sorting engines give the
  same stream. The last column is always the same (`Rotations.LastColumnUnique`), but the start
  row need not be: the two orders of a block of two equal symbols are both sorted and start in
  different rows (`Rotations.TwoStreams`). All sorted orders of a block have one start row
  exactly when no rotation of the block by less than its length is the block itself
  (`Rotations.OneStreamIffAperiodic`).
- The decoder accepts a 15-bit selector count and only checks that it is not zero, but stores
  the selectors in arrays of 18002 places. `CodingTables.SelectorWritesInside` proves that
  well-formed selectors stay inside exactly when there are at most 18002 of them, and
  `CodingTables.OneSelectorTooMany` gives the smallest count that does not.
- `adler32` skips the full reduction for a single byte. `Adler32.Checksum` proves that its
  result is the defined checksum exactly when the excess this can leave does not arise.
  `Adler32.NoExcess` shows that it never does for a checksum that came in reduced, and
  `Adler32.SomeExcess` gives one that did not and leaves it.
- A chunked message to which nothing was sent is a line end and the last chunk, which is not
  well-formed chunked coding. `ChunkedTransfer.MessageIsCoding` proves that what is sent is
  well-formed exactly when something was sent and no line end between chunks is missing, and
  that none is missing in any message of less than 2^64 bytes.
- The chunk reader takes the bytes of a chunk's line for signed characters and keeps at most
  sixteen digits of its size. `ChunkedTransfer.SizeRead` proves that a line is read as the size
  it spells exactly when it has at most sixteen digits or spells zero, and no byte 255 stands in
  its extension; `ChunkedTransfer.CodingIsRead` what that means for whole bodies, and
  `ChunkedTransfer.SeventeenDigits` gives a chunk that is lost.

## Model

| member | source | states |
|---|---|---|
| Rotations.CmpIsLexicographic | dep/bzip2/blocksort.c:347-469 | the symbol-by-symbol comparison used throughout is the lexicographic order of the rotated strings, and is zero exactly when the rotations are equal |
| Rotations.SortedOrdersAgree | dep/bzip2/blocksort.c:1057-1061 | any two sorted orders of a block hold equal rotations in every row |
| Rotations.LastColumnUnique | dep/bzip2/blocksort.c:1057-1061 | any two sorted orders have the same last column, so the engine that ran cannot be told from it |
| Rotations.StartRowsAgree | dep/bzip2/blocksort.c:1057-1061 | the rows two engines would transmit as start row hold the block itself in either order |
| Rotations.OneStreamIffAperiodic | dep/bzip2/blocksort.c:1057-1061 | all sorted orders of a block put rotation 0 in the same row, so both engines give one stream, if and only if no shorter rotation of the block is the block itself |
| Rotations.TwoStreams | dep/bzip2/blocksort.c:1057-1061 | a block of two equal symbols has two sorted orders with different start rows, and is not aperiodic |
| BitTable.Skip | dep/bzip2/blocksort.c:277-292 | the scan that goes bit by bit, then word by word, then bit by bit ends at the first position whose bit differs, thanks to the sentinel |
| FallbackQSort.FallbackSimpleSort | dep/bzip2/blocksort.c:32-60 | the range ends sorted by class, rearranged, everything outside untouched |
| FallbackQSort.FallbackQSort3 | dep/bzip2/blocksort.c:93-180 | the range ends sorted by class and only rearranged, for every range; it terminates and the assertion on the stack of 100 entries holds |
| FallbackQSort.HalvingDivide | dep/bzip2/blocksort.c:166-179 | pushing the larger part first keeps every stack entry below half of the one two places deeper, so at most 31 are in use |
| PrefixDoubling.RefineBucket | dep/bzip2/blocksort.c:294-305 | sorting one class by the classes H places on, and marking where they change, orders it to depth 2H with headers exactly at the new classes |
| FallbackSort.RefinePass | dep/bzip2/blocksort.c:266-311 | one pass doubles the depth to which fmap is sorted and the headers mark exactly the classes of that depth |
| FallbackSort.FallbackSort | dep/bzip2/blocksort.c:212-329 | for every block, fmap ends as a permutation in rotation order and the block bytes, overwritten on the way, are restored |
| MainCompare.GtU | dep/bzip2/blocksort.c:347-469 | under the invariant on the ranks, the answer agrees with the rotation order whenever the rotations differ, and no read goes past nblock + 33 |
| MainSimpleSort.SimpleSort | dep/bzip2/blocksort.c:485-555 | Shell sort of a bucket: permutes its range, and while the budget lasts leaves it in rotation order |
| MainQSort.QSort3 | dep/bzip2/blocksort.c:621-717 | permutes its range and, when the budget has not run out, leaves it in rotation order; the assertion on the stack holds |
| MainQSort.NarrowingDivide | dep/bzip2/blocksort.c:699-715 | pushing the three parts by decreasing size keeps the stack below 63 entries before each push |
| Radix.DealRows | dep/bzip2/blocksort.c:802-830 | after the radix step every position stands in the bucket of its symbol pair and ftab holds the bucket starts |
| RunningOrder.SortBuckets | dep/bzip2/blocksort.c:832-860 | the 256 buckets are listed from the least to the most full |
| InducedOrder.PredsRanked | dep/bzip2/blocksort.c:923-934 | predecessors of positions listed in order are themselves met in order, the fact behind filling a bucket by scanning |
| InducedOrder.ScanComplete | dep/bzip2/blocksort.c:923-934 | a scan that writes ahead of itself still meets every position of its type |
| PointerScan.ScanUpwards | dep/bzip2/blocksort.c:923-928 | the upward scan fills every bucket [t, ss] from its start, in order, with exactly the positions that precede a falling symbol ss |
| PointerScan.ScanDownwards | dep/bzip2/blocksort.c:929-934 | the downward scan fills the remaining places from the end, in order |
| PointerScan.SynthesisedMixed | dep/bzip2/blocksort.c:911-946 | after both scans every bucket [t, ss] not yet done is sorted without a comparison, no other row has changed, and the two cursors of ss meet |
| PointerScan.SynthesisedSame | dep/bzip2/blocksort.c:937-944 | the same for a block of one repeated symbol, with the second alternative of assertion 1007 |
| MainSort.EnterRanks | dep/bzip2/blocksort.c:964-1004 | entering the shifted 16-bit ranks of a finished bucket keeps the invariant mainGtU relies on |
| MainSort.Sort | dep/bzip2/blocksort.c:751-1007 | when it returns with budget left, ptr is a permutation in rotation order although most small buckets were never compared; the block is unchanged either way |
| BlockSort.Sort | dep/bzip2/blocksort.c:1031-1090 | whichever engine runs, also after the other gave up, ptr ends in rotation order, the block is intact and origPtr is the row of rotation 0 |
| Inverse.InversionRestores | dep/bzip2/bzlib_private.h:444-449 | for every block and every sorted order of it, following the inverse of the last column's stable sort from the start row spells the block, equal rotations included |
| InverseTables.MakeCftab | dep/bzip2/decompress.c:494-516 | the counting step gives the first row of every symbol and none of its range checks fires on a real histogram |
| InverseTables.BuildFast | dep/bzip2/decompress.c:559-564 | every word of tt ends up with its symbol in the low byte and the inverse permutation above it |
| InverseTables.BuildForward | dep/bzip2/decompress.c:526-534 | ll16 and ll4 together hold the forward permutation of the column |
| InverseTables.ReverseCycle | dep/bzip2/decompress.c:536-545 | pointer reversal along the one cycle through origPtr inverts the permutation there and touches no other cycle |
| InverseTables.IndexIntoF | dep/bzip2/bzlib.c:687-698 | the binary search returns the bucket whose rows contain the index, for any table that brackets it |
| RunLength.ExpandStored | dep/bzip2/bzlib.c:224-246 | the stored form of any legal run list expands to the bytes it stands for, without a corruption report |
| RunLength.CorruptIffCutOff | dep/bzip2/bzlib.c:608-661 | a block is reported corrupt exactly when it ends inside a run of four without its count |
| BlockOutput.DState.StartFast | dep/bzip2/decompress.c:494-576 | any received column with any start row becomes a table for the fast expander that owes that column's expansion |
| BlockOutput.DState.StartSmall | dep/bzip2/decompress.c:494-555 | the same for the 20-bit table, also when the permutation has several cycles |
| BlockOutput.DState.UnRleFast | dep/bzip2/bzlib.c:536-682 | for any room offered, the bytes put out followed by the bytes still owed are the bytes owed before, and the checksum is that of the bytes put out |
| BlockOutput.DState.UnRleSmall | dep/bzip2/bzlib.c:706-804 | the same promise about the same owed bytes, so both expanders emit one byte sequence |
| Mtf.DecodeEncode | dep/bzip2/decompress.c:375-486 | reading the encoder's symbols gives the column back, stops right behind the end marker whatever follows, and takes no error branch, the guard on N included |
| Mtf.EncodeDecode | dep/bzip2/decompress.c:375-486 | every symbol string the decoder accepts is the encoding of what it decodes to: the code is one-to-one |
| Mtf.RunValueIsPlaceSum | dep/bzip2/decompress.c:384-396 | a run stands for the sum over its symbols of 2^i for RUNA and 2^(i+1) for RUNB at place i |
| Mtf.EncodeCloses | dep/bzip2/compress.c:163-230 | the encoder's symbols stay inside the alphabet and the end marker occurs once, at the end |
| Mtf.EncodeShort | dep/bzip2/compress.c:120-231 | at most one symbol for every byte plus the end marker |
| Mtf.DecodeDrawn | dep/bzip2/decompress.c:395-480 | whatever the symbols, the decoder only draws on as many list places as there are used bytes, so it reads only the filled part of seqToUnseq, and never more than the room allows |
| ByteMap.NamesAgree | dep/bzip2/decompress.c:27-37 | the list makeMaps_d builds names every column of positions by the used values in order, for any map |
| ByteMap.NamedCompact | dep/bzip2/decompress.c:27-37 | naming undoes the encoder's renumbering |
| MtfEncoder.EncodingBounds | dep/bzip2/compress.c:163-167 | before position i is read, the symbols written and those the pending run will need number at most i: the overlay of mtfv on ptr is safe |
| MtfEncoder.GenerateMtfValues | dep/bzip2/compress.c:120-231 | mtfv ends as the encoding of the last column, with its exact symbol frequencies, in at most nblock + 1 places |
| SlidingMtf.Access | dep/bzip2/decompress.c:423-475 | one access to the sixteen sliding lines is one move to front of a plain 256-element list; the lines stay ordered and disjoint, and are moved up again when the first base reaches 0 |
| MtfDecoder.DecodeColumn | dep/bzip2/decompress.c:351-486 | each symbol is read when it is wanted; whatever there is to read, the loop stores exactly what the decoding function makes of it, with its histogram, and an error in the symbols comes before a failure to read further ones |
| Heap.ExtractMin | dep/bzip2/huffman.c:101-102 | removes a lightest node and leaves a heap of the others |
| Heap.Insert | dep/bzip2/huffman.c:107-109 | adds a node and leaves a heap |
| HuffmanTree.LeafDepth | dep/bzip2/huffman.c:100-121 | a leaf at depth d forces a total weight of at least the Fibonacci number d + 2 |
| HuffmanTree.TreeKraft | dep/bzip2/huffman.c:100-121 | the leaf depths of a finished tree use up the code space exactly |
| HuffmanOptimal.BestFrom | dep/bzip2/huffman.c:100-121 | when every step merged two lightest nodes, then at every stage no code lengths of the roots within the code space cost less than their depths in the finished tree |
| HuffmanOptimal.LeavesOptimal | dep/bzip2/huffman.c:100-121 | the leaf depths cost at most as much as any lengths that satisfy Kraft's inequality |
| HuffmanLengths.HalvedLeaves | dep/bzip2/huffman.c:142-146 | when a code came out too long, halving the weights strictly lowers their sum |
| HuffmanLengths.SeventeenBitsSuffice | dep/bzip2/compress.c:447-451 | 258 symbols and 17 bits satisfy the condition under which the rescaling ends |
| HuffmanLengths.MakeCodeLengths | dep/bzip2/huffman.c:63-148 | terminates with every length in 1..maxLen and Kraft sum exactly 1; the code is optimal for the frequencies, with 1 for a frequency of 0, or for their weights after k halvings, and then before each halving an optimal code had a length above maxLen |
| CanonicalCodes.FitsIffKraft | dep/bzip2/huffman.c:152-166 | every code fits in its length exactly when the lengths satisfy Kraft's inequality |
| CanonicalCodes.AssignCodes | dep/bzip2/huffman.c:152-166 | every symbol gets its canonical code, and the running code stays below 2^30 |
| CanonicalCodes.CreateDecodeTables | dep/bzip2/huffman.c:170-200 | limit is the last code of each length, base the offset into perm, perm the symbols sorted by length and number |
| CanonicalCodes.MatchUnique | dep/bzip2/huffman.c:152-166 | no code is a prefix of another, for any lengths at all |
| CanonicalCodes.RoundTrip | dep/bzip2/decompress.c:74-101 | a code followed by any bits decodes to its symbol and uses up just its length, for any lengths with Kraft sum at most 1 |
| SymbolGroups.ReadSymbol | dep/bzip2/decompress.c:87-100 | the bit-by-bit reader returns the one symbol whose code comes first in the stream and consumes exactly it, or reports starvation or an error exactly when no code matches |
| SymbolGroups.SymbolReader.Next | dep/bzip2/decompress.c:74-102 | each symbol is read with the table its group of fifty selects; running out of selectors is an error |
| SymbolGroups.SendSymbols | dep/bzip2/compress.c:544-594 | every symbol is sent once, with its group's table, and the number of groups equals the number of selectors |
| SymbolGroups.SymbolsParse | dep/bzip2/compress.c:544-594 | reading the sent symbols gives them back and stops behind the end marker, whatever follows |
| SymbolGroups.HeardCloses | dep/bzip2/decompress.c:74-102 | on any input, the symbols read stay in the alphabet and end in the end marker exactly when reading succeeds |
| TableChoice.FirstTables | dep/bzip2/compress.c:279-317 | the first tables divide the alphabet into consecutive parts, each taken just long enough to reach its share of the symbols left (one less for every second part in between), and a table is cheap exactly on its part |
| TableChoice.FastCosts | dep/bzip2/compress.c:358-385 | the three packed 32-bit sums equal the six plain costs: fifty lengths cannot carry over |
| TableChoice.Round | dep/bzip2/compress.c:323-437 | every group gets the first of its cheapest tables, and the frequencies counted for each table are those of the symbols that went through it |
| TableChoice.ChooseTables | dep/bzip2/compress.c:263-452 | two to six complete codes of at most 17 bits and one selector in range for every fifty symbols, at most 18002; the tables sent are those of four rounds, in each of which every group chose the first cheapest table of the round before and every table became an optimal code for the symbols of the groups that chose it |
| Selectors.ApplyCodes | dep/bzip2/decompress.c:302-314 | move-to-front coding of the selectors is undone |
| Selectors.EncodeSelectors | dep/bzip2/compress.c:461-478 | the rotating loop produces the position of every selector in the move-to-front list |
| Selectors.DecodeSelectors | dep/bzip2/decompress.c:302-314 | the shifting loop produces what the positions stand for |
| SideInfo.SendMap | dep/bzip2/compress.c:494-511 | sixteen bits for the rows in use, then sixteen for each of those |
| SideInfo.ReceiveMap | dep/bzip2/decompress.c:266-281 | equals the parsing function on every input |
| SideInfo.MapParses | dep/bzip2/decompress.c:266-281 | the map is read back as it was written, whatever follows |
| CodingTables.SelectorsParse | dep/bzip2/decompress.c:286-300 | what any selector bits lead to: the positions written, a refusal, or a write past the array |
| CodingTables.SelectorWritesInside | dep/bzip2/decompress.c:286-300 | well-formed selectors stay inside the arrays if and only if there are at most 18002 of them, and then they are read back |
| CodingTables.SelectorCountInside | dep/bzip2/decompress.c:286-300 | on any input at all, a count of at most 18002 never leads outside the array |
| CodingTables.OneSelectorTooMany | dep/bzip2/bzlib_private.h:125 | with 18003 selectors the last one is written one place past the end; with 18002 all is well |
| CodingTables.ReceiveSelectors | dep/bzip2/decompress.c:286-300 | equals the parsing function on every input, the writes past the array included |
| CodingTables.LengthsParse | dep/bzip2/decompress.c:316-329 | the code lengths are read back from their up and down steps, whatever follows |
| CodingTables.ReceiveLengths | dep/bzip2/decompress.c:316-329 | equals the parsing function on every input |
| BitIO.BitWriter.W | dep/bzip2/compress.c:58-80 | the bits of v follow all bits written before, for every fill of the 32-bit buffer |
| BitIO.BitWriter.FinishWrite | dep/bzip2/compress.c:46-54 | all bits end up in whole bytes, fewer than eight zero bits added |
| BitIO.BitReader.GetBits | dep/bzip2/decompress.c:43-65 | the next n bits of the stream, or nothing if there are not so many, whatever pieces the input arrives in |
| BitIO.SupplyWhole | dep/bzip2/decompress.c:43-65 | a byte string has the same bits however it is cut into pieces |
| Payload.SendMtfValues | dep/bzip2/compress.c:239-598 | tables and selectors are those of the four rounds, everything the encoder chooses for a block can be sent, and map, selectors, lengths and symbols are written in that order |
| Payload.BodyParses | dep/bzip2/decompress.c:266-373 | the front of every body an encoder may send is read back as it was, and its symbols are then heard to the end, whatever follows |
| Payload.ReceiveFront | dep/bzip2/decompress.c:266-347 | map, selectors and code lengths: equals the parsing function on every input, and leaves a decoding table for every code |
| Container.PutUInt32 | dep/bzip2/compress.c:83-89 | four byte writes are the 32 bits of the number |
| Container.HeaderParses | dep/bzip2/decompress.c:222-264 | a block header is read back, its start row accepted |
| Container.TrailerParses | dep/bzip2/decompress.c:582-603 | the trailer is recognised and its checksum read back |
| Container.ReceiveHeader | dep/bzip2/decompress.c:222-264 | equals the parsing function on every input |
| RoundTrip.ColumnStandsForBlock | dep/bzip2/decompress.c:494-576 | the transmitted column and start row determine the block |
| RoundTrip.EncodeBlock | dep/bzip2/compress.c:616-652 | sorting and symbol coding of any block give symbols that stand for it |
| RoundTrip.Emit | dep/bzip2/bzlib.c:817-840 | for any sizes of output buffers the output is a prefix of the block's expansion, all of it once finished; no byte is lost or repeated, corruption is reported only where the expansion has it, and buffers with room for everything do finish the block |
| BlockInput.ReceiveBlock | dep/bzip2/decompress.c:266-578 | on every input a block is received, refused or waits for input exactly as the parsing function says, and a received one owes the expansion of its column and start row |
| BlockCodec.SendItem | dep/bzip2/compress.c:630-653 | header and body of a block are written, and what was sent stands for the block |
| BlockCodec.ItemParses | dep/bzip2/decompress.c:266-578 | a sent block is read back as its last column, whatever follows, and expands to exactly the input of its runs |
| BlockSize.BodyShort | dep/bzip2/compress.c:239-598 | the body of a block of n symbols takes at most 20 n bits, six for every fifty symbols, and 60692 for the map, the counts and the tables |
| BlockSize.BlockShort | dep/bzip2/compress.c:602-653 | a block of n bytes with its header takes at most 21 n + 61000 bits |
| StreamFormat.ItemsShort | dep/bzip2/compress.c:602-667 | all blocks together take at most 27 bits for every byte of input and 61000 for every block, and no block is empty |
| StreamFormat.CompressBlock | dep/bzip2/compress.c:602-667 | stream header before the first block, the block unless empty, trailer with the combined checksum after the last, each exactly once |
| BlockCrc.EntryIs | dep/bzip2/crctable.c:31-99 | each of the 256 table entries is the remainder of its index, eight bits further on, by the CRC polynomial |
| BlockCrc.UpdateIs | dep/bzip2/bzlib_private.h:167-172 | one table step lets a byte meet the top of the register and divides out eight bits |
| BlockCrc.BurstShows | dep/bzip2/bzlib_private.h:157-172 | two blocks that differ in up to four neighbouring bytes have different checksums |
| BlockCrc.Residue | dep/bzip2/bzlib_private.h:157-172 | a block followed by its own checksum has checksum 0x38fb2284 whatever the block, and the empty block has checksum 0 |
| BlockChecksums.CombinedIsSpread | dep/bzip2/compress.c:607-608 | the combined checksum is the exclusive or of all block checksums, each turned left by its distance from the last block |
| BlockChecksums.CombinedBit | dep/bzip2/bzlib.c:832-835 | bit k of the combined checksum is the sum modulo two of one bit of every block's checksum, as many places to the right of k, around the word, as the block is before the last |
| BlockChecksums.SwapShows | dep/bzip2/compress.c:607-608 | exchanging two neighbouring blocks keeps the combined checksum if and only if the exclusive or of their checksums is unchanged by a turn of one place |
| CompressStream.EState.AddChar | dep/bzip2/bzlib.c:260-284 | one more byte is accounted for, in the pending run or in the block; the block keeps its bound |
| CompressStream.EState.CloseBlock | dep/bzip2/compress.c:616-667 | the block becomes one more part of the stream, and its compressed bytes fit behind it in arr2 |
| CompressStream.EState.CopyOutput | dep/bzip2/bzlib.c:334-356 | what is delivered and what waits is what was produced; stops only without room or with nothing left |
| CompressStream.EState.HandleCompress | dep/bzip2/bzlib.c:361-403 | terminates, keeps the invariant of the state machine, and rests only without input, without room, or with everything promised handed over; every block it hands over is full but for the one that seals a flush or finish, and it makes progress when it finishes with room for output |
| CompressStream.EState.Compress | dep/bzip2/bzlib.c:407-464 | for any call in any state: bytes are only taken from the front and only appended; RUN takes everything or fills the room, and hands over full blocks only; of the blocks handed over in a flush or finish all but the sealing one are full; without a new block nothing is produced; the return value says exactly whether the call was out of order, made no progress, left bytes waiting or completed what was promised; a FINISH with room and unchanged input returns BZ_FINISH_OK or BZ_STREAM_END, and BZ_STREAM_END means that everything offered is in the delivered stream |
| CompressStream.EState.BlocksFew | dep/bzip2/bzlib.c:386-392 | the stream has no more blocks than have been handed over, and all but those handed over early have taken nblockMAX bytes each: four fifths of that many bytes of input |
| CompressStream.EState.DeliveredShort | dep/bzip2/bzlib.c:407-464 | at any time at most 119 + 61027 n bits have been delivered for n bytes of input consumed |
| CompressStream.EState.InputIsDecodable | dep/bzip2/bzlib.c:216-464 | at any time the input consumed is the decoding of the finished blocks, then the current block, then the pending run, and nblock is at most nblockMAX + 5 |
| CompressStream.EState.StreamIsComplete | dep/bzip2/compress.c:602-667 | at the end the delivered bytes are one complete stream for exactly the input consumed |
| Locality.HeaderLocal | dep/bzip2/decompress.c:222-264 | what has been read of a header stays the same when more input follows |
| Locality.BlockLocal | dep/bzip2/decompress.c:266-578 | the same for a whole block: only missing input can be made up for, an error stays an error |
| StreamMeaning.ItemMeans | dep/bzip2/bzlib.c:817-842 | a sent block under its own checksum stands for its input followed by the rest of the stream, under any other it is refused once its bytes are out |
| StreamMeaning.StreamMeans | dep/bzip2/bzlib.c:808-858 | a complete stream means the input of its blocks and ends there, whatever follows; with a wrong combined checksum it is refused in the end |
| StreamMeaning.CutBlock | dep/bzip2/bzlib.c:808-858 | a stream cut off anywhere inside a block gives out the blocks before it and asks for input |
| StreamMeaning.CutTrailer | dep/bzip2/bzlib.c:808-858 | a stream cut off anywhere inside the trailer gives out all its blocks and asks for input |
| StreamMeaning.EmptyFileMeans | dep/bzip2/compress.c:619-667 | fourteen bytes written out are the whole stream of an empty input, and they mean it |
| StreamMeaning.MeaningOnward | dep/bzip2/bzlib.c:808-858 | on any input, more input never takes back a byte and changes no end but that for want of input |
| Decompressor.OneBlock | dep/bzip2/bzlib.c:817-842 | on every input a block is put out and checked, or stops, exactly as its meaning says, and leaves the tables ready for the next |
| Decompressor.Decompress | dep/bzip2/bzlib.c:808-858 | on every input, in any pieces, the output is what the input means and the return value says how it ends: end of stream, bad data, bad header, or more input wanted; unless the output buffers fill up first, and then the output is a prefix of it |
| EndToEnd.Play | dep/bzip2/bzlib.c:407-464 | any script of calls keeps the state machine sound and loses no input, and whatever the sizes of the buffers the stream has at most one block for every 4 nblockMAX / 5 bytes of input, one for every BZ_FLUSH and the last one |
| EndToEnd.FinishOff | dep/bzip2/bzlib.c:449-461 | finishing calls hand over full blocks but for the last one and fill every buffer they are given or end the stream, so buffers with more room than the input can need do end it |
| EndToEnd.RestorePart | dep/bzip2/bzlib.c:808-858 | from a delivered stream cut off anywhere, in any pieces, a decompressor gives a prefix of the input and never an error |
| EndToEnd.BlockRoundTrip | dep/bzip2/compress.c:602-653 | any block of legal runs, through sorting, symbols, codes, bits and back, comes out as its input with the matching checksum, in full exactly when the buffers have room for it |
| EndToEnd.CompressAndRestore | dep/bzip2/bzlib.c:808-858 | compressing by any script of calls and then finishing, and decompressing from any pieces into any buffers, gives back the input offered, all of it exactly when the buffers have room for it; after a script of BZ_RUN calls, finishing with enough room does reach the end |
| Gf2.MatrixTimes | dep/zlib/crc32.c:327-341 | the loop over the bits of the vector is the matrix product over GF(2) |
| Crc32.MakeCrcTable | dep/zlib/crc32.c:107-130 | row k of the first four is every byte followed by k more zero bytes, and the last four are their byte-swapped images |
| Crc32.CrcBytes | dep/zlib/crc32.c:227-235 | the table-driven loop computes the bit-by-bit CRC |
| Crc32.FourUpdates | dep/zlib/crc32.c:241-243 | four byte steps are one step on the little-endian word |
| Crc32.CrcLittle | dep/zlib/crc32.c:247-278 | the word-at-a-time loop computes the same CRC for every length and alignment |
| Crc32.SwapLinear | dep/zlib/crc32.c:281-284 | swapping bytes commutes with combining registers, the fact behind the swapped tables |
| Crc32.CrcBig | dep/zlib/crc32.c:287-320 | the loop for big-endian machines, on a byte-swapped register and swapped tables, computes the same CRC for every length and alignment |
| Crc32.Checksum | dep/zlib/crc32.c:204-236 | whichever loop the build and the machine choose, the CRC of the buffer; zero for a missing one |
| Crc32.Residue | dep/zlib/crc32.c:204-236 | a string followed by its own checksum, lowest byte first, has checksum 0x2144df1c whatever the string |
| Crc32.OperatorApplies | dep/zlib/crc32.c:327-341 | a matrix holding the images of the 32 single bits acts on every register as so many zero bits |
| Crc32.Square | dep/zlib/crc32.c:344-352 | squaring a matrix doubles its number of zero bits |
| Crc32.Combine | dep/zlib/crc32.c:355-408 | repeated squaring applies exactly 8 len2 zero bits to the first checksum |
| Crc32.CrcOfConcatenation | dep/zlib/crc32.c:355-408 | the CRC of a concatenation is the first CRC moved on by the length of the second part, combined with the second CRC |
| Crc32.CrcCombine | dep/zlib/crc32.c:411-417 | from the two checksums and the second length, the checksum of the concatenation, for all byte strings |
| Adler32.ReduceLate | dep/zlib/adler32.c:101-126 | reducing both sums only at the end gives what reducing after every byte gives |
| Adler32.NeverWraps | dep/zlib/adler32.c:14-16 | in 5552 bytes neither sum leaves 32 bits, whatever 16-bit halves it starts from |
| Adler32.NmaxIsTight | dep/zlib/adler32.c:14-16 | in 5553 bytes it can |
| Adler32.Mod63 | dep/zlib/adler32.c:45-56 | the reduction without division equals the remainder for every 63-bit length |
| Adler32.Checksum | dep/zlib/adler32.c:65-133 | one for a missing buffer; else equal to the per-byte definition exactly when a single byte leaves no excess, always for a checksum that came in reduced, and congruent to it in any case, with and without division |
| Adler32.NoExcess | dep/zlib/adler32.c:78-86 | a checksum whose halves came in reduced leaves no excess |
| Adler32.SomeExcess | dep/zlib/adler32.c:78-86 | the single byte 0 after 0xfffffff0 does |
| Adler32.Combine | dep/zlib/adler32.c:136-162 | the checksum of the concatenation from the two checksums and the second length; a negative length gives 0xffffffff |
| ChunkedTransfer.Sender.Send | dep/gsoap/stdsoap2.cpp:719-747 | any bytes are appended to what has been sent, in full chunks and the buffer |
| ChunkedTransfer.Sender.FlushRaw | dep/gsoap/stdsoap2.cpp:801-821 | the wire grows by one well-formed chunk |
| ChunkedTransfer.Sender.EndSend | dep/gsoap/stdsoap2.cpp:8033-8037 | the message on the wire is its chunks and one terminator, and their contents are all that was sent; it is no chunked coding when nothing was sent, and is one for any number of bytes from one to below 2^64 |
| ChunkedTransfer.MessageIsCoding | dep/gsoap/stdsoap2.cpp:801-821 | what is sent is well-formed chunked coding if and only if something was sent and every chunk but the first has its line end in front |
| HexNumerals.DigitIsPlace | dep/gsoap/stdsoap2.cpp:1031-1034 | the digits accepted are the sixteen, in either case, and the value of each is its place among them |
| HexNumerals.WrittenIsRead | dep/gsoap/stdsoap2.cpp:1140 | every number, in any number of digits that suffices and with each digit in either case, is read as itself |
| HexNumerals.HexIsWritten | dep/gsoap/stdsoap2.cpp:806-809 | a size is sent in upper case with as many digits as it takes |
| ChunkedTransfer.SizeRead | dep/gsoap/stdsoap2.cpp:1122-1140 | the line that announces a chunk, in any spelling and with any extension, is read as the size it spells if and only if it has at most sixteen digits or spells zero, and no byte 255 stands in the extension |
| ChunkedTransfer.CodingIsRead | dep/gsoap/stdsoap2.cpp:1097-1164 | any well-formed body whose sizes have at most sixteen digits and keep 64 KiB below 2^64 is read to its end, and its data is delivered in full if and only if no extension holds a byte 255 |
| ChunkedTransfer.SeventeenDigits | dep/gsoap/stdsoap2.cpp:1128-1140 | a chunk of one byte whose size is spelled in seventeen digits ends the message |
| ChunkedTransfer.SentIsRead | dep/gsoap/stdsoap2.cpp:1097-1164 | whatever chunks are sent, the reader delivers their contents and then the end |
| ChunkedTransfer.ChunkRead | dep/gsoap/stdsoap2.cpp:1122-1140 | a chunk header, with or without the line end in front, is read as the chunk's length |
| ChunkedTransfer.Receiver.GetChunkChar | dep/gsoap/stdsoap2.cpp:1014-1024 | the next character of buffer and network, or end of file exactly when both are exhausted |
| ChunkedTransfer.Receiver.ReadHeader | dep/gsoap/stdsoap2.cpp:1123-1140 | equals the header parsing function on every input |
| ChunkedTransfer.Receiver.RecvRaw | dep/gsoap/stdsoap2.cpp:1097-1164 | delivers the next bytes of the chunk, as many as are at hand, or the end of the data |
| ChunkedTransfer.ReceiveAll | dep/gsoap/stdsoap2.cpp:1097-1164 | on any input at all, in whatever pieces it arrives, the caller's loop delivers exactly what the input holds |
| ChunkedTransfer.Exchange | dep/gsoap/stdsoap2.cpp:719-822 | any sends, any buffer sizes and any splitting of the received bytes give the concatenated payload |

## Left out

- InverseTables.BuildFast: packed words are numbers, with `|` and shifts written as addition, multiplication and remainder; the lemmas beside it show that the fields do not overlap.
- BitTable.Skip: the bit table is an array of flags and a word test looks at its 32 flags.
- FallbackSort.FallbackSort: `eclass` and the block share storage in the program; here the block is overwritten explicitly where the program overwrites it.
- MtfEncoder.GenerateMtfValues: `mtfv` and `ptr` are separate arrays; the bound that makes their overlay safe is stated on its own.
- MainSort.Sort: the array is exactly nblock long, and the block and the ranks are passed to the comparison by value.
- HuffmanLengths.MakeCodeLengths: asks for frequencies that sum to less than 2^23, because larger ones overflow the 32-bit weights; a block has at most 900001 symbols.
- StreamFormat.CompressBlock: the unrolled steps, here and in the other methods, are written as loops.
- EndToEnd.FinishOff: the room asked for is a bound for any input of that length, not the length of the stream at hand.
- CompressStream.EState.Compress: the byte counters total_in and total_out, null pointers and allocation failures are not modelled.
- Decompressor.Decompress: stops being followed at a randomised block, a decoding path for streams the encoder has not written since version 0.9.5, and at a selector written past its array; calls after the end of the stream are not modelled.
- BlockOutput.DState.UnRleFast: when corruption is found the caller's counts stay as they were although bytes have been put into the buffer; the model returns those bytes.
- BitIO.BitReader.GetBits: suspension in the middle of a value is modelled as going on with the next piece of input; the saving and restoring of the decoder's local variables is not.
- SymbolGroups.SymbolReader.Next: the group pointers gLimit, gBase and gPerm are an index into a list of tables.
- Adler32.Checksum: a missing buffer whose length is given as one is read by the program; the model has no length without a buffer.
- HexNumerals.WrittenIsRead: models the C library's strtoul; gSOAP's replacement for platforms without one stops after 32 bits.
- ChunkedTransfer.CodingIsRead: the header fields that may follow the last chunk are not parsed; they are part of what comes behind the message.
- ChunkedTransfer.Receiver.RecvRaw: a chunk size that carries the buffer index past the range of size_t is outside what is promised; characters are signed, and size_t has 64 bits.
- ChunkedTransfer.Sender.Send: network errors, the deflate filter and the send hooks are not modelled.
- The BZFILE and stdio layer, the allocation callbacks and the verbosity messages: file and memory plumbing.
- BlockCrc.UpdateIs: the compressor and the decompressor are proved for every checksum step, given to both as a parameter; `BlockCrc.Update` is the program's.
- zlib's deflate, inflate and gz layers, and the rest of gSOAP: sockets, headers, attachments and XML.
