# bzip2 and zlib, modelled and proved

A model, in Dafny, of the bzip2 library kept under `dep/bzip2`, with proofs that what it compresses comes back, and of
the parts of zlib under `dep/zlib` where a fast form has to agree with a plain one. Every stage is written in the form
of the source, as methods over arrays and objects whose fields change, and proved against a specification over
sequences; the stages are then put together.

bzip2:

* `HuffmanHeap`, `HuffmanTree`, `CodeCost`, `OptimalTree`, `HuffmanLengths`, `HuffmanCode`, `HuffmanDecode` - the code lengths built with a heap in an array, why no other code costs less, the loop that limits them, canonical codes, and the limit/base/perm tables.
* `Rotations`, `RotationPrefixes`, `FallbackSimpleSort`, `FallbackQSort`, `FallbackPass`, `FallbackSort` - the Burrows-Wheeler transform and the prefix-doubling sort with bucket header bits.
* `RotationOrder`, `MainCompare`, `MainSimpleSort`, `MainQSort`, `SmallBuckets`, `PointerScan`, `MainRadix`, `MainSort`, `BlockSort` - the other sort, with its budget: comparison by bytes and quadrants, the radix pass, the buckets that are sorted and the ones that two pointer scans fill in; and the choice between the two sorts.
* `InverseBwt`, `InverseBwtSmall` - the inverse transform, in the form with one table and in the nibble-packed form with pointer reversal.
* `MoveToFront`, `MtfEncode`, `MtfRows` - move-to-front with run digits, the encoder that works in place, and the decoder's sliding rows.
* `MappingTable`, `Selectors`, `CodingTables`, `CodeTables`, `BlockTables`, `SymbolStream`, `ColumnDecode`, `TableChoice`, `BlockFormat`, `BlockEncode`, `BlockDecode` - the fields of a block, written and received bit by bit.
* `RunLength`, `RunPacker`, `RunUnpack`, `RunUnpackSmall`, `BlockCrc`, `CrcValues` - the run packing in front of all this, and the checksum of its input.
* `StreamFormat`, `StreamCompress`, `StreamDecompress`, `RoundTrip` - the state machines of `BZ2_bzCompress` and `BZ2_bzDecompress`, and the theorems about whole runs and about both together.

zlib:

* `LowBits`, `InflateCode`, `InflateEntries`, `InflateTable` - the two-level decoding tables of `inflate_table`: looking up any bits gives what reading the canonical code bit by bit gives.
* `Lz77`, `InflateSpec`, `InflateSymbols`, `InflateMeaning`, `InflateInput`, `InflateLookUp`, `InflateWindow`, `InflateState`, `InflateFast`, `InflateBlock`, `InflateSplit`, `InflateSync` - decoding a block with these tables: what every symbol means in numbers, the states from `LEN` to `LIT` that can stop at any byte of input or output, `inflate_fast`, the sliding window, what any sequence of calls comes to, and the search for a place to start again. `InflateExample` and `InflateSyncExample` prove what becomes of given bytes.
* `DeflateHash`, `DeflateChains`, `DeflateState`, `DeflateMatch`, `DeflateFill`, `DeflateOutput`, `DeflateTally`, `DeflateTurns`, `DeflateFast`, `DeflateSlow`, `DeflateRle`, `DeflateCalls` - finding matches with hash chains over a sliding window, greedily, lazily or for runs only: which match the search finds, which token every turn emits, that the tokens expand to the input, and that calls with room come to the end. `TokenBits` and `DeflateInflate` carry this on to what `inflate` makes of the tokens.
* `Adler32` - the checksum with the remainder put off, and the combination of two.
* `CrcShift`, `CrcCombine`, `CrcTables` - the CRC with one table and with four, and the combination of two checksums by squaring matrices over GF(2).

The specification of the bzip2 format is the group of functions `ReadStream`, `ReadBlocks`, `ReadBlock` and what they call:
they say what a string of bits decodes to, up to the end it finds, which may be the trailer, the end of the bits, or an
error. The decoder is proved to compute them, for every input and every division of input and output among calls; the
encoder is proved to write bits that they decode to the data. Which tables and which sorted order the encoder picks does
not matter to the theorems, and `TableChoice`, `FallbackSort` and `MainSort` show that what it picks is among the sound choices.

`BZ2_decompress` is a coroutine: whenever `GET_BITS` runs out of input it saves its locals and the label, and the next call
jumps back there. Here every label is a constructor of a datatype that holds the locals saved at it (`MapAt`, `SelAt`,
`CodeAt`, `SymbolAt`, `ColumnAt`, `BlockAt` and `State`), and for every label a function `Rest` says what reading on from it gives. Every
section is proved, for whatever bits may come later, to keep the value of `Rest` across an interruption, and to be
interrupted only where the bits so far do not suffice.

For `inflate` the specification is `Run`: what decoding gives from any state on, byte by byte. A point of decoding is the mode, the
bits still to come and all the output so far. What a distance may reach depends on what is kept of the history: the window, and the
output of the call under way. `Run` therefore has a parameter for where the calls begin, with one call for everything (`Wide`) and one
call for every byte (`Narrow`) as the extremes. `Reaches` says that going on from one point gives what going on from another gives, whatever
bits follow, up to a distance that one way of keeping the history allows and another does not. Every state, and `inflate_fast` as a whole,
is proved to lead to a point that is reached in this sense, so fast and slow decoding agree, and what any calls come to lies between the
two extremes.

Numbers are unbounded here; where the source relies on a width, the bound is proved (the 32-bit weights of the heap, the
16-bit costs, the 32-bit limits, the run counter). Where bits matter, bit vectors are used.

## Findings

Where the code does not do what it is meant to, with an input and the exact condition:

* A block may announce up to 32767 selectors, and the arrays `selectorMtf` and `selector` have 18002 places. `BlockOutside` says exactly which blocks make the decoder write outside them, `BlockInside` that announcing at most 18002 rules it out, `OutsideStream` gives a stream. The model stops there with a reply of its own.
* When a block ends within a run (four equal bytes without a count), `unRLE_obuf_to_output_FAST` returns without writing its locals back, so the bytes that call put out do not show in `avail_out`. `ShownOfCorrupt` says how many bytes of such a block a call shows for every room, so what the caller sees depends on how the output is divided; `unRLE_obuf_to_output_SMALL` does not do this. `RunsPastStream` gives a stream with such a block; `SameForEverySplit` says that this is the only case.
* When bits are left over, `inflateSync` shifts the bit buffer up by their number instead of down before it takes bytes out of it, so it searches bytes that are not in the input. `HeldBytesRight` says that the bytes are right, for every content of the buffer, exactly when the number of bits held is below 8 or a multiple of 8. `StopsHolding` is a call that leaves 9 bits held, with all input taken, and what is then searched.
* With a window of fewer than 32768 bytes, a distance beyond the window is copied when it lies within the output of the same call and rejected otherwise, so that the outcome depends on how the output is divided. `Meanings` says that, behind a history that the window holds, it is the same for every division exactly when no distance goes beyond the window; `InflateAll` and `InflateOnce` say that room for one byte per call and room for everything show the two sides of it; `SplitMatters` gives 39 bytes. With 32768 bytes there is no such distance.
* `inflate_fast` is entered with up to 14 bits held, against its own comment that there are fewer than 8. It still gives back no byte that it has not taken; `FirstCode` says why.
* In `deflate_slow` the position of a match that waits for a better one can leave the window when it slides, and `match_start` wraps around below 0; only its 32-bit difference to `strstart` is used, and `SlideWindow` keeps that.

## Model

| member | source | states |
|---|---|---|
| CodeLengthHeap.TopIsLightest | dep/bzip2/huffman.c:33-59 | in a heap ordered from position 1, no queued node is lighter than the one at the top |
| CodeLengthHeap.UpHeap | dep/bzip2/huffman.c:33-42 | the rising node leaves the heap ordered and the queued nodes the same multiset; the sentinel at position 0 stops it |
| CodeLengthHeap.DownHeap | dep/bzip2/huffman.c:44-59 | the sinking node leaves the heap ordered and the queued nodes the same multiset |
| CodeLengthHeap.PopLightest | dep/bzip2/huffman.c:101-102 | takes one node out of the queue, and no node that was queued is lighter |
| CodeLengthTree.JoinFits | dep/bzip2/huffman.c:29-31 | the joined cell fits 32 bits, its depth field does not overflow into the weight, and a node of height h weighs at least the Fibonacci number of h |
| CodeLengthTree.Join | dep/bzip2/huffman.c:103-109 | joining the two lightest roots keeps the forest, the total root weight, the Fibonacci balance and the height fields |
| CodeLengthTree.DepthBelowHeight | dep/bzip2/huffman.c:115-119 | no node hangs deeper than the root's height field says |
| CodeLengthTree.EveryCutIsOne | dep/bzip2/huffman.c:100-119 | every level cut through a finished tree sums to exactly 1, hence so do its leaves |
| CodeLengths.FlatWeightsFit | dep/bzip2/huffman.c:142-146 | once every weight is 1 or 2, no leaf of a tree over at most 258 symbols is deeper than 12 |
| CodeLengths.LengthsOfTree | dep/bzip2/huffman.c:114-121 | lengths read off a finished tree have Kraft sum exactly 1 |
| CodeLengths.TooLongIsHeavy | dep/bzip2/huffman.c:123-146 | if a length is above 12 some weight exceeds 2, so that flattening strictly lowers the total |
| CodeLengths.JoinTwo | dep/bzip2/huffman.c:100-110 | each merge takes the two lightest roots, queues their parent and changes nothing else in the arrays |
| CodeCost.Merge | dep/bzip2/huffman.c:100-110 | the exchange argument: for any lengths that leave room for a prefix code, the two lightest parts can be made one, and the lengths that remain cost less by what the join costs |
| OptimalTree.ThriftyStep | dep/bzip2/huffman.c:100-110 | so after every merge, what has been spent and what the roots still need costs no more than any code |
| OptimalTree.EveryCutCosts | dep/bzip2/huffman.c:114-121 | every level cut through a finished tree costs what the merges above it cost, hence so do the depths of its leaves |
| OptimalTree.TreeIsOptimal | dep/bzip2/huffman.c:92-121 | no prefix code for the weights costs less than the depths of the leaves |
| CodeLengths.ReadLengths | dep/bzip2/huffman.c:114-121 | every length is the depth of its leaf, and tooLong is reported exactly when one exceeds maxLen |
| CodeLengths.GrowTree | dep/bzip2/huffman.c:84-123 | one turn of the retry loop: optimal lengths for the weights of this turn, which stay as they are |
| CodeLengths.MakeCodeLengths | dep/bzip2/huffman.c:63-148 | for every alphabet of 2 to 258 symbols and every frequencies that fit the cells the retry loop ends, with all lengths in 1..maxLen, Kraft sum exactly 1, and no prefix code that costs less for the frequencies, at least 1 each, flattened as often as an optimal code had a length above maxLen |
| HuffmanCode.CodesAreDense | dep/bzip2/huffman.c:152-166 | the codes of each length end exactly where the Kraft sum of the lengths up to it says |
| HuffmanCode.CodeFits | dep/bzip2/huffman.c:152-166 | with Kraft sum at most 1, every code fits in its number of bits |
| HuffmanCode.AssignCodes | dep/bzip2/huffman.c:152-166 | the array holds the canonical code of every symbol |
| HuffmanCode.CreateDecodeTables | dep/bzip2/huffman.c:170-200 | limit, base and perm are the tables of the canonical code: perm lists the symbols by length, limit the last code of each length, base what to subtract |
| HuffmanCode.LimitsFit | dep/bzip2/huffman.c:190-197 | whatever lengths a stream declares, no limit outgrows a signed 32-bit integer |
| HuffmanDecode.OneSymbolOnly | dep/bzip2/huffman.c:152-166 | no two code words both start the same bit string: the code is prefix-free |
| HuffmanDecode.SymbolRoundTrip | dep/bzip2/huffman.c:152-200 | for every list of lengths with Kraft sum at most 1, reading the code of symbol i gives i after exactly its own bits, whatever follows |
| HuffmanDecode.LookUp | dep/bzip2/decompress.c:88-101 | comparing with limit and subtracting base finds the symbol that the bit-by-bit specification finds |
| HuffmanDecode.GetSymbol | dep/bzip2/decompress.c:88-101 | fetches exactly the symbol the specification reads, or reports a corrupt code exactly when it does; wherever the input runs out, the label and (zn, zvec) say how to go on, whatever bits come next |
| BitReader.Reader.GetBits | dep/bzip2/decompress.c:43-65 | takes the next n bits as a number, whatever comes after them; with too few so far all input is in the buffer and nothing is lost |
| BitWriter.Writer.W | dep/bzip2/compress.c:58-78 | appends the n low bits of v to the bits written, in order, through the 32-bit buffer |
| BitWriter.Writer.Finish | dep/bzip2/compress.c:46-54 | pads the last byte with zeros: the whole output is what was written and fewer than 8 padding bits |
| BitWriter.TopByte | dep/bzip2/compress.c:58-67 | the byte shifted out of the 32-bit buffer is the first 8 live bits |
| FallbackSimpleSort.SimpleSort | dep/bzip2/blocksort.c:32-59 | sorts its slice by class, permutes only that slice |
| FallbackQSort.Separate | dep/bzip2/blocksort.c:132-162 | after the scanning loops nothing is left unlooked at and equal elements stand at both ends |
| FallbackQSort.Partition | dep/bzip2/blocksort.c:126-170 | either everything equals the pivot, or the slice is parted into less, equal and greater with the two remaining ranges disjoint |
| FallbackQSort.ReplaceTop | dep/bzip2/blocksort.c:172-178 | replacing the top range by two parted ones keeps every pair not in one pending range in order |
| FallbackQSort.StackShallow | dep/bzip2/blocksort.c:109-113 | a range too long for the simple sort is never above position 27 of the stack, so assertion 1004 cannot fire |
| FallbackQSort.QSort3 | dep/bzip2/blocksort.c:93-180 | sorts its slice by class, permutes only that slice, ends, and never fills the stack |
| FallbackPass.AssignRanks | dep/bzip2/blocksort.c:266-271 | every rotation gets the header of the class of the rotation H further on |
| RotationPrefixes.HeadOrder | dep/bzip2/blocksort.c:266-271 | comparing headers of depth h is comparing prefixes of length h |
| RotationPrefixes.RankDoubles | dep/bzip2/blocksort.c:266-305 | among rotations equal on h bytes, the rank orders them on 2h bytes |
| FallbackPass.NextBucket | dep/bzip2/blocksort.c:278-292 | finds the next bucket with more than one member, 32 header bits at a time, stopping at the sentinels |
| FallbackPass.PrefixesStay | dep/bzip2/blocksort.c:295-297 | sorting inside a bucket moves no h-byte prefix |
| FallbackPass.BucketDone | dep/bzip2/blocksort.c:294-306 | sorting one bucket and setting its header bits advances the pass past it |
| FallbackPass.DoublingPass | dep/bzip2/blocksort.c:263-309 | takes a list sorted to depth H with its header bits to depth 2H; afterwards the bits mark exactly the classes equal on 2H bytes |
| FallbackSort.FillBuckets | dep/bzip2/blocksort.c:236-241 | the initial radix sort lists every position once, sorted by first byte |
| FallbackSort.SetFirstHeaders | dep/bzip2/blocksort.c:243-257 | the first header bits mark the classes of depth 1, and the 64 sentinel bits are in place |
| FallbackSort.Reconstruct | dep/bzip2/blocksort.c:322-328 | the block that the ranks overwrote is rebuilt from the order; assertion 1005 cannot fire |
| FallbackSort.FallbackSort | dep/bzip2/blocksort.c:212-329 | fmap lists all rotations in non-decreasing order and the block is as before |
| RotationPrefixes.DeepEnough | dep/bzip2/blocksort.c:311-312 | a list sorted to a depth of at least the block length, or with no ties left, is sorted as whole rotations |
| Rotations.SortedIsUnique | dep/bzip2/blocksort.c:1061-1062 | two sorted lists with the same members are the same list |
| Rotations.LastColumnUnique | dep/bzip2/blocksort.c:1061-1062 | any two sorted orders of the rotations, however ties are broken, give the same last column |
| Rotations.SteppedIsSorted | dep/bzip2/decompress.c:559-564 | sorting the last column stably and stepping every rotation back gives the sorted rotations again, ties or not |
| Rotations.WalkGivesBlock | dep/bzip2/decompress.c:559-574 | from any sorted order with rotation 0 at origPtr, the walk along the inverse permutation regenerates the block, periodic blocks included |
| InverseBwt.OneInverse | dep/bzip2/decompress.c:559-564 | there is only one way to list the places of the last column in sorted order |
| InverseBwt.LinkAll | dep/bzip2/decompress.c:559-564 | the in-place loop over tt leaves the byte in the low 8 bits and the inverse permutation above them |
| InverseBwt.FastBwt.constructor | dep/bzip2/decompress.c:559-566 | the cells of tt hold the inverse permutation, and the walk starts at origPtr |
| InverseBwt.FastBwt.GetFast | dep/bzip2/bzlib_private.h:444-449 | yields the next byte of the walk, and never leaves the table |
| InverseBwtSmall.SetLLGet | dep/bzip2/bzlib_private.h:458-473 | a 20-bit entry stored as 16 bits and a nibble comes back, and no other entry changes |
| InverseBwtSmall.ComputeT | dep/bzip2/decompress.c:526-534 | T is computed in place: each cell is read as a byte before it is overwritten |
| InverseBwtSmall.ReversePointers | dep/bzip2/decompress.c:536-545 | the do loop ends, and inverts T on exactly the cycle of origPtr |
| InverseBwtSmall.IndexIntoF | dep/bzip2/bzlib.c:687-698 | the binary search finds the byte whose range of the first column holds the position |
| InverseBwtSmall.IndexIntoFFinds | dep/bzip2/bzlib.c:687-698 | that byte is the one the walk meets there |
| InverseBwtSmall.SmallBwt.GetSmall | dep/bzip2/bzlib_private.h:475-479 | yields the next byte of the same walk |
| RunUnpackSmall.FormsAgree | dep/bzip2/decompress.c:524-576 | for any last column and origPtr, the nibble-packed, pointer-reversed form and the tt form meet the same bytes |
| MoveToFront.MtfRoundTrip | dep/bzip2/compress.c:157-230 | for every column, decoding the symbols with run digits and list gives back the column |
| MtfEncode.GenerateMtfValues | dep/bzip2/compress.c:120-231 | mtfv, written over the words of ptr, holds exactly the symbols of the last column; no word is overwritten before it is read and at most nblock + 1 values come out; mtfFreq counts them |
| MtfRows.FrontRow | dep/bzip2/decompress.c:445-462 | moving an element to the front of the whole list is moving it within its row and passing one element on from every row above |
| MtfRows.Rows.Take | dep/bzip2/decompress.c:423-475 | the two-level structure does plain move-to-front |
| MtfRows.Rows.Compact | dep/bzip2/decompress.c:463-472 | the rows are copied to the top of mtfa without overwriting a cell still to be read, and the list stays the same |
| CharacterMaps.MapsInverse | dep/bzip2/decompress.c:27-36 | the encoder's and the decoder's map are inverse on the characters in use |
| CharacterMaps.MakeMapsE | dep/bzip2/compress.c:106-115 | every character in use gets its rank among them |
| CharacterMaps.MakeMapsD | dep/bzip2/decompress.c:27-36 | the table lists the characters in use in order |
| MappingTable.MapRoundTrip | dep/bzip2/compress.c:494-511 | the decoder reads back the table of characters in use, whatever follows |
| MappingTable.WriteMap | dep/bzip2/compress.c:494-511 | writes exactly the bits of the table |
| MappingTable.Maps.Receive | dep/bzip2/decompress.c:266-281 | receives what the specification reads; interrupted at any bit it stands at one of its two labels, from which reading on gives the same, and the bits so far do not suffice |
| Selectors.SelectorsRoundTrip | dep/bzip2/compress.c:461-524 | the decoder reads back the number of tables and every selector |
| Selectors.EncodeSelectors | dep/bzip2/compress.c:461-478 | selectorMtf holds the positions in a list to whose front every selector is moved |
| Selectors.WriteSelectors | dep/bzip2/compress.c:517-524 | writes exactly the bits of the selectors |
| Selectors.DecodeSelectors | dep/bzip2/decompress.c:302-314 | undoes the positions in place |
| Selectors.SelectorTable.Receive | dep/bzip2/decompress.c:286-314 | receives what the specification reads into arrays of 18002 places, from any of its three labels; fails exactly when the specification does |
| Selectors.OutsideExactly | dep/bzip2/decompress.c:287-299 | the 18003rd write to selectorMtf happens exactly when the number of tables is valid and more than 18002 selectors arrive before the bits run out or one is out of range |
| Selectors.FewEnough | dep/bzip2/decompress.c:289-290 | an announcement of at most 18002 selectors rules that out |
| Selectors.OutsideExample | dep/bzip2/decompress.c:287-299 | bits that announce 18003 selectors, all of which arrive |
| CodingTables.TablesRoundTrip | dep/bzip2/compress.c:528-539 | the decoder reads back the delta-coded lengths of every table |
| CodingTables.WriteTable | dep/bzip2/compress.c:531-539 | writes exactly the bits of one table |
| CodeTables.CodeTables.Receive | dep/bzip2/decompress.c:316-329 | receives what the specification reads, from any of its three labels; a length outside 1..20 on the way is an error |
| CodeTables.CodeTables.MakeTables | dep/bzip2/decompress.c:331-347 | limit, base, perm and minLens are the decoding tables of all coding tables received |
| SymbolStream.ColumnRoundTrip | dep/bzip2/compress.c:544-594 | whatever column the symbols stand for, their bits in groups of 50 under the selected tables decode to it |
| ColumnDecode.BeginSymbol | dep/bzip2/decompress.c:74-88 | changes groups every 50 symbols; without a selector for the group the block is corrupt, as in the specification |
| ColumnDecode.FetchSymbol | dep/bzip2/decompress.c:87-101 | fetches the symbol the specification reads with the tables of its group, from either label |
| ColumnDecode.ColumnDecoder.Digit | dep/bzip2/decompress.c:379-396 | adds a run digit; N is kept below its guard and es between 0 and 2N - 3, below 2^23 |
| ColumnDecode.ColumnDecoder.RunSymbol | dep/bzip2/decompress.c:379-415 | one more digit, or the run is written out and the symbol behind it is dealt with, as the specification says |
| ColumnDecode.ColumnDecoder.Receive | dep/bzip2/decompress.c:349-486 | receives the column the specification reads, never writes beyond nblockMAX, and unzftab counts its bytes; interrupted at any bit it stands at one of the six labels with es, N, groupNo, groupPos, zn, zvec and nblock saved |
| TableChoice.InitialTables | dep/bzip2/compress.c:279-317 | every length is one of the two starting costs, and no symbol is cheap in two tables, whatever the frequencies |
| TableChoice.PackedCosts | dep/bzip2/compress.c:331-376 | adding up two costs in one word gives each cost by itself: no sum of 50 lengths carries out of its 16 bits |
| TableChoice.BestTable | dep/bzip2/compress.c:356-401 | the first table in which the group costs least; every cost is below 2^16 |
| TableChoice.SelectGroups | dep/bzip2/compress.c:342-435 | every group of 50 selects the table in which it costs least, and every table counts each symbol as often as it stands in the groups that selected the table |
| TableChoice.ChooseTables | dep/bzip2/compress.c:266-458 | 2 to 6 tables, according to the number of symbols; complete codes of lengths 1..17 for every table, each of them optimal for the symbols of the groups that select the table, and a selector for every group: assertions 3001 to 3005 hold |
| BlockEncode.WriteSymbols | dep/bzip2/compress.c:544-594 | writes exactly the coded symbols; the selectors are used up exactly (assertions 3006 and 3007) |
| BlockEncode.SendMtfValues | dep/bzip2/compress.c:239-598 | writes the map, the selectors, the tables and the symbols of the block, within the room left |
| BlockFormat.MappedBack | dep/bzip2/decompress.c:423-481 | coding the last column in ranks and mapping the ranks back gives the last column |
| BlockFormat.BlockRoundTrip | dep/bzip2/decompress.c:224-486 | for every non-empty block, every listing of its rotations and every sound choice of tables and selectors, reading the block's bits gives back its header fields and last column |
| BlockEncode.BlockDecodes | dep/bzip2/compress.c:602-653 | the whole chain: a block sorted in any valid order and coded with any sound tables decodes, by the inverse walk, to itself |
| BlockEncode.EncodeBlock | dep/bzip2/compress.c:616-653 | what is written decodes to the block it was given, and never outgrows the part of arr2 behind the block |
| BlockDecode.BuildCftab | dep/bzip2/decompress.c:494-516 | cftab holds the cumulative counts, and the range checks never fail on tables that were received |
| BlockDecode.BlockReceiver.Receive | dep/bzip2/decompress.c:224-516 | receives the block the specification reads, or fails exactly when it does, from any label within a block and whatever bits come next; the column is in the cells and cftab cumulative |
| BlockFormat.BlockOutside | dep/bzip2/decompress.c:224-299 | receiving a block leaves the arrays exactly when the block gets to its selectors with 2 to 6 tables and more than 18002 selectors arrive |
| BlockFormat.BlockInside | dep/bzip2/decompress.c:289-290 | a block that announces at most 18002 selectors never does |
| RunLength.RunsRoundTrip | dep/bzip2/bzlib.c:216-247 | for every list of runs of 1 to 255, unpacking the packed block gives the bytes back, whatever two bytes the decoder reads behind it |
| RunPacker.Packer.AddPair | dep/bzip2/bzlib.c:216-247 | the run is appended to the block in packed form, its bytes enter the CRC and the characters in use |
| RunPacker.Packer.FlushRL | dep/bzip2/bzlib.c:251-256 | the pending run is written and nothing is pending |
| RunPacker.Packer.AddChar | dep/bzip2/bzlib.c:260-284 | the data are one byte longer, at most 5 bytes enter the block, and a run is pending |
| RunUnpack.FastUnpacker.UnRle | dep/bzip2/bzlib.c:589-681 | puts out the next part of what the block owes and exactly as much as room is used up, carries the CRC along, stops only for lack of room or at the end; reports corruption exactly when the block ends within a run and all bytes up to there had room, and then leaves next_out and avail_out as they were |
| RunUnpack.ShownOfCorrupt | dep/bzip2/bzlib.c:628-661 | of a block that ends within a run a call shows as many bytes as it has room for, but none if it has room for all |
| RunUnpackSmall.SmallUnpacker.UnRle | dep/bzip2/bzlib.c:759-803 | the same for the small form, but a corrupt block is put out in full before it is reported, and reported only with room for one byte more |
| RunUnpackSmall.OutputsAgree | dep/bzip2/bzlib.c:536-804 | unpackers of both forms over the same column owe the same bytes and the same verdict |
| BlockCrc.RegisterConcat | dep/bzip2/bzlib_private.h:167-172 | the CRC register over a concatenation is the register over the second part, started from the first |
| CrcValues.UpdateIsDivision | dep/bzip2/bzlib_private.h:167-172 | a look-up in the table is eight one-bit steps of the register with the byte added to its top |
| CrcValues.StepInNumbers | dep/bzip2/crctable.c:31-35 | a step moves the register up by one bit and, if the top bit was set, adds 0x04c11db7 |
| CrcValues.TableEntries | dep/bzip2/crctable.c:35-98 | the entries of the table at 0 and at the powers of two up to 64 |
| CrcValues.LastEntries | dep/bzip2/crctable.c:67 | the entry at 128, the last power of two |
| CrcValues.CheckValue | dep/bzip2/bzlib_private.h:155-172 | the register begins with 0xffffffff, and the checksum of the digits 1 to 9 is 0xfc891918 |
| CrcValues.Complemented | dep/bzip2/bzlib_private.h:162-165 | the checksum is the register complemented |
| CrcValues.CombineRotates | dep/bzip2/compress.c:606-608 | the combined CRC is rotated left by one bit, and that of the block is added to it |
| StreamFormat.StreamRoundTrip | dep/bzip2/compress.c:602-667 | the stream of any list of written blocks, with header and trailer and whatever bits follow, reads back as the data of all blocks |
| StreamFormat.OutsideStream | dep/bzip2/decompress.c:286-299 | a stream, with header and block header, at which the decoder writes outside its arrays |
| StreamFormat.RunsPastBlock | dep/bzip2/bzlib.c:651-680 | four equal bytes without a count make a block that ends within a run, and what it puts out |
| StreamFormat.RunsPastStream | dep/bzip2/bzlib.c:651-680 | for every level, byte and CRC, a stream with header whose first block is these four bytes, and that the decoder reads to the same end |
| StreamCompress.Compressor.constructor | dep/bzip2/bzlib.c:148-211 | an empty stream in the running mode, valid for every block size from 1 to 9 |
| StreamCompress.Compressor.CopyInputUntilStop | dep/bzip2/bzlib.c:289-329 | takes input until the block is full, the input or the expected input is used up; what was taken is accounted for |
| StreamCompress.Compressor.CopyOutputUntilStop | dep/bzip2/bzlib.c:334-356 | moves the next bytes of zbits to the output, one for each place of room, until there is no room or no more of them |
| StreamCompress.Compressor.CompressBlock | dep/bzip2/compress.c:602-667 | the block written decodes to the data it was filled with, and the combined CRC goes along; the header comes first and the trailer once |
| StreamCompress.Compressor.HandleCompress | dep/bzip2/bzlib.c:361-403 | ends for every input and room; all that was taken is in a block, in the block being filled or in the pending run; it stops only without input, without room, or with the flush or the stream complete, and given room it comes nearer to that |
| StreamCompress.Compressor.Complete | dep/bzip2/bzlib.c:452-461 | when the stream has ended its output reads back as exactly all input consumed, with fewer than 8 padding bits |
| StreamCompress.Compressor.BzCompress | dep/bzip2/bzlib.c:407-464 | for every sequence of calls: input is neither lost nor taken twice, the output grows by exactly the room used up, a finished flush has written everything, a finished stream decodes to all input, and a call out of sequence is refused with nothing changed; a flush or finish that is not complete has used all room, and if there was any has come nearer to its end; running with room and input takes it or uses all room |
| StreamDecompress.Decompressor.BeginOutput | dep/bzip2/decompress.c:518-576 | sets up either form of the inverse transform so that what is owed is what the specification makes of the block |
| StreamDecompress.Decompressor.StepInBlock | dep/bzip2/decompress.c:197-224 | resuming at any label within a block leaves what the specification makes of the bits to come unchanged; with too little input nothing more follows from it |
| StreamDecompress.Decompressor.OutputPhase | dep/bzip2/bzlib.c:819-839 | puts out as much as there is room for; at the end of the block the CRC decides exactly as in the specification; bytes are missing only where the FAST routine finds the block to end within a run |
| StreamDecompress.Decompressor.BzDecompress | dep/bzip2/bzlib.c:808-858 | for every division of input and output among calls: what a call puts out, followed by what remains, is what the specification reads; BZ_OK with room left means that nothing more follows from the input so far; every other reply comes with the end the specification finds, for truncated, corrupt and complete streams alike |
| RoundTrip.DecompressPieces | dep/bzip2/bzlib.c:808-858 | any sequence of calls with any pieces of input and any rooms puts out exactly the data that the specification reads up to the end it finds, or a beginning of them while it waits |
| RoundTrip.SameForEverySplit | dep/bzip2/bzlib.c:808-858 | two runs over the same input, in the same form or in different ones, that came to an end gave the same reply and the same output, however input and output were divided; only on a block that ends within a run, and only if one of them used the FAST form, the output may differ |
| RoundTrip.DecompressAll | dep/bzip2/bzlib.c:808-858 | with room for one byte or more per call every stream is decompressed to its end |
| RoundTrip.Restore | dep/bzip2/bzlib.c:407-858 | the output of any finished sequence of compressor calls decompresses, in either form and with any room per call, to exactly the input consumed |
| RoundTrip.FlushStream | dep/bzip2/bzlib.c:442-449 | a flush is complete after finitely many calls, for any rooms as long as there is some in every call, and all that was taken is then in blocks |
| RoundTrip.CompressAll | dep/bzip2/bzlib.c:407-464 | the compressor is driven through any pieces of input, with flushes anywhere, to the end of the stream, for any rooms as long as there is some in every call, and has then consumed all pieces |
| RoundTrip.ThereAndBack | dep/bzip2/bzlib.c:407-858 | any data, compressed in any pieces with any flushes and rooms at any level, come back from either form of the decompressor |
| RotationOrder.OrderIsLex | dep/bzip2/blocksort.c:347-469 | counting the smaller rotations numbers the rotations so that comparing numbers is comparing rotations |
| RotationOrder.OrderNext | dep/bzip2/blocksort.c:911-935 | rotations with the same first character are in the order of the rotations one further on; otherwise the characters decide |
| RotationOrder.OrderAhead | dep/bzip2/blocksort.c:514-516 | rotations that agree on k characters are in the order of what follows |
| MainCompare.GtU | dep/bzip2/blocksort.c:347-469 | the answer is in accordance with the order of the two rotations, equal ones either way; nothing beyond the 34 places of overshoot is read |
| MainSimpleSort.InsertGap | dep/bzip2/blocksort.c:510-522 | one insertion permutes the slice; with gap 1 it extends the sorted part |
| MainSimpleSort.SimpleSort | dep/bzip2/blocksort.c:485-555 | permutes only its slice, and sorts it unless the budget runs out |
| MainQSort.Med3 | dep/bzip2/blocksort.c:583-592 | one of the three, with another not above and another not below it |
| MainQSort.MainPartition | dep/bzip2/blocksort.c:661-700 | on the character behind the first d: all equal, or parted into smaller, equal and greater with the equal part not empty |
| MainQSort.CutStart | dep/bzip2/blocksort.c:699-704 | the three parts are in the order of the rotations, and the middle one agrees on one character more |
| MainQSort.ThreeShrink | dep/bzip2/blocksort.c:706-715 | pushing the parts largest first keeps the sizes on the stack below a bound that shrinks like Fibonacci numbers grow |
| MainQSort.RangingTop | dep/bzip2/blocksort.c:644-654 | a range that is parted further lies at most 32 places up the stack, so assertion 1001 cannot fire |
| MainQSort.MainQSort3 | dep/bzip2/blocksort.c:621-717 | for any slice agreeing on its first d characters: ends, permutes only the slice, sorts it unless the budget runs out, and never fills the stack |
| PointerScan.RoomLeft | dep/bzip2/blocksort.c:923-934 | while anything is left to scan whose predecessor's bucket is unfinished, that bucket has a free place: the two fronts never run into each other |
| PointerScan.SkipStep | dep/bzip2/blocksort.c:926-932 | passing over a predecessor in a finished bucket keeps the scan invariant |
| PointerScan.PutStep | dep/bzip2/blocksort.c:923-934 | a copy from either side keeps the scan invariant: copies are in order, distinct, complete, and what has been copied to [ss,ss] is ready to be scanned |
| PointerScan.Covered | dep/bzip2/blocksort.c:923-934 | in a block with a second character, both scans together meet every position with ss |
| PointerScan.ScansMeet | dep/bzip2/blocksort.c:937-944 | the two scans meet exactly in every unfinished bucket [t,ss] |
| PointerScan.ScanEnds | dep/bzip2/blocksort.c:911-946 | afterwards every unfinished bucket [t,ss], [ss,ss] included, is sorted, and everything else is as it was |
| PointerScan.UniformScan | dep/bzip2/blocksort.c:937-944 | the one exception: in a block of one repeated byte nothing is scanned, and copyStart is 0 and copyEnd nblock - 1 |
| PointerScan.Synthesise | dep/bzip2/blocksort.c:918-944 | the scanning loops do all this in place; assertion 1007 holds |
| MainRadix.CountPairs | dep/bzip2/blocksort.c:769-792 | ftab counts how often each pair of characters occurs, all quadrants are 0 |
| MainRadix.Overshoot | dep/bzip2/blocksort.c:794-798 | the block and the quadrants go on for 34 places as at their beginning |
| MainRadix.RadixSort | dep/bzip2/blocksort.c:802-830 | ptr lists every position once, in its small bucket, and ftab holds where each small bucket begins |
| MainRadix.RunningOrder | dep/bzip2/blocksort.c:837-860 | every big bucket once, from the smallest to the largest |
| MainSort.JoinBuckets | dep/bzip2/blocksort.c:868-907 | a run of sorted small buckets is sorted as a whole |
| MainSort.SortRest | dep/bzip2/blocksort.c:886-907 | step 1: all [ss,j] with j other than ss are sorted and marked, sorted buckets stay so, unless the budget runs out |
| MainSort.CopyBuckets | dep/bzip2/blocksort.c:918-946 | step 2: all [t,ss] are sorted and marked, no mark is lost |
| MainSort.UpdateQuadrants | dep/bzip2/blocksort.c:989-1004 | step 3: among equal characters a smaller quadrant means a rotation that is not greater, in the overshoot too; the values fit 16 bits (assertion 1002) |
| MainSort.CompleteBucket | dep/bzip2/blocksort.c:868-1006 | one big bucket more is finished and all that was known stays true; assertion 1006 holds |
| MainSort.MainSort | dep/bzip2/blocksort.c:751-1011 | unless the budget runs out, ptr lists all rotations in non-decreasing order; the block is unchanged in any case |
| BlockSort.BlockSort | dep/bzip2/blocksort.c:1031-1089 | for every block and work factor: the rotations are listed in order, the block is unchanged, and rotation 0 is found (assertion 1003) |
| StreamCompress.CompressInit | dep/bzip2/bzlib.c:148-211 | a valid compressor with nothing taken or put out, or a parameter error exactly when the block size or the work factor is out of range |
| InflateCode.AllDecoded | dep/zlib/inftrees.c:75-86 | under a complete set of lengths every bit string begins with the code of some symbol |
| InflateEntries.RootStep | dep/zlib/inftrees.c:216-239 | entering a code of at most root bits makes it right and keeps everything entered before |
| InflateEntries.SubStep | dep/zlib/inftrees.c:216-239 | so does entering a longer code in the sub-table its root bits lead to |
| InflateEntries.SubTableStep | dep/zlib/inftrees.c:259-289 | linking a new sub-table disturbs no string that is already looked up |
| InflateTable.Replicate | dep/zlib/inftrees.c:232-239 | the entry stands exactly at the indices whose low bits are the code, all other slots are as before |
| InflateTable.NextCode | dep/zlib/inftrees.c:241-250 | counting the reversed code up gives the next canonical code |
| InflateTable.SubTableSize | dep/zlib/inftrees.c:268-276 | no code with these root bits is longer than the sub-table allows |
| InflateTable.NextSymbol | dep/zlib/inftrees.c:253-257 | the symbol that comes next has the next length in use, and its code follows on |
| InflateTable.EnterCode | dep/zlib/inftrees.c:216-239 | one code is entered, in the table it belongs to |
| InflateTable.NextTable | dep/zlib/inftrees.c:259-289 | a sub-table is begun exactly when the root bits change; there is a link to every slot behind the root table |
| InflateTable.EnterAll | dep/zlib/inftrees.c:199-290 | the loop ends, and every code is looked up rightly |
| InflateTable.Bounds | dep/zlib/inftrees.c:112-128 | the longest and shortest length in use, with root forced in between |
| InflateTable.Leftover | dep/zlib/inftrees.c:130-136 | reports exactly the over-subscribed sets, and what an incomplete one leaves over |
| InflateTable.SortSymbols | dep/zlib/inftrees.c:140-147 | work lists the symbols in use by length, and in order within a length |
| InflateTable.SlotVisited | dep/zlib/inftrees.c:278-303 | each slot of the used part is looked at for some bit string |
| InflateTable.MakeTable | dep/zlib/inftrees.c:32-306 | 1 exactly when the entries outgrow 852 or 592, -1 exactly for over-subscribed sets and for incomplete ones other than a single bit; after 0, looking up any bit string through the root table and at most one sub-table gives the symbol and length of the canonical code, within the used entries, all of which are reached |
| CrcShift.ShiftLinear | dep/zlib/crc32.c:68-82 | letting zero bits enter the register is linear over GF(2) |
| CrcShift.RegisterAffine | dep/zlib/crc32.c:76-82 | what the register held before a string is only shifted by it: the register is a shifted start plus what the string gives from zero |
| CrcShift.CombinedCrc | dep/zlib/crc32.c:355-408 | shifting the CRC of A by the length of B and adding the CRC of B gives the CRC of the concatenation, for all A and B |
| CrcCombine.TimesIsShift | dep/zlib/crc32.c:327-341 | multiplying by the matrix of n zero bits lets n zero bits enter, for every vector |
| CrcCombine.MatrixTimes | dep/zlib/crc32.c:327-341 | the product of any matrix of 32 rows and any vector, without leaving the rows |
| CrcCombine.TimesLinear | dep/zlib/crc32.c:327-341 | multiplication by any matrix is linear |
| CrcCombine.MatrixSquare | dep/zlib/crc32.c:344-352 | for any matrix, multiplying by the square is multiplying twice |
| CrcCombine.SquareOperator | dep/zlib/crc32.c:344-352 | the square of the operator for n zero bits is the operator for 2n |
| CrcCombine.OneZeroBit | dep/zlib/crc32.c:369-375 | the first matrix is the operator for one zero bit |
| CrcCombine.Combine | dep/zlib/crc32.c:355-408 | for all strings A and B and every starting value, crc32_combine of their CRCs and the length of B is the CRC of A followed by B; for lengths not above 0 the first CRC comes back |
| CrcTables.ByteStep | dep/zlib/crc32.c:121-128 | eight zero bits are a look-up of the lowest byte added to the rest moved down |
| CrcTables.MakeTables | dep/zlib/crc32.c:90-133 | table k holds, for every byte, the register after the byte and k zero bytes |
| CrcTables.FourBytes | dep/zlib/crc32.c:241-243 | adding a little-endian word and letting 32 zero bits enter is four bytes entering one by one |
| CrcTables.FourAtOnce | dep/zlib/crc32.c:241-243 | the four look-ups of DOLIT4 are four bytes entering one by one |
| CrcTables.Crc32 | dep/zlib/crc32.c:200-235 | eight bytes and single bytes at a time give the CRC as it is defined bit by bit, for every length |
| CrcTables.Crc32Little | dep/zlib/crc32.c:247-278 | so do bytes up to a word boundary, 32 and 4 bytes at a time and the bytes left over, for every length and alignment |
| InflateSpec.EntryStays | dep/zlib/inflate.c:1030-1047 | once the code of a symbol is complete, bits that come later change nothing about it |
| InflateSpec.ShortTakesMore | dep/zlib/inffast.c:309-313 | while a code is not complete it takes more bits than are held, so that no more bytes go back than this call has taken |
| InflateSpec.NeverBeyond | dep/zlib/inftrees.c:60-72 | with a window of at least 32768 bytes no distance goes back beyond it, for any bits, history, point of decoding and division into calls |
| InflateSpec.NothingLost | dep/zlib/inflate.c:1124-1131 | within one call no distance goes beyond what the window held when it began and the output of the call |
| InflateSpec.LessStops | dep/zlib/inflate.c:1124-1131 | where less of the history is kept, decoding gives the same, or it stops earlier for a distance that goes back too far and has put out a beginning of the rest |
| InflateSpec.MatchReaches | dep/zlib/inflate.c:1122-1166 | copying any part of a match leads to the same output and the same end, whatever bits follow |
| InflateSymbols.MadeOk | dep/zlib/inftrees.c:106-305 | the tables for lengths and distances, of a complete code, a code of one bit or none, give every bit string a meaning that the bits it takes decide |
| InflateSymbols.NextIsSymbol | dep/zlib/inflate.c:1030-1048 | when the bits start with the canonical code of a symbol, that symbol is next, after exactly its own bits |
| InflateMeaning.LengthRead | dep/zlib/inftrees.c:60-65 | symbol i below 256 is the byte i, 256 ends the block, 257 to 285 are lengths that begin at 3, each where the one before ends, with extra bits that grow by one every four symbols, 285 is 258, and 286 and 287 are invalid: this is what decoding does with tables that have been made, behind the bits of the code |
| InflateMeaning.DistanceRead | dep/zlib/inftrees.c:66-72 | so for distances: symbol 0 is 1, each symbol begins where the one before ends, extra bits grow by one every two symbols, and 30 and 31 are invalid |
| InflateMeaning.PairRead | dep/zlib/inflate.c:1029-1121 | the code of a length with its extra bits and the code of a distance with its extra bits are read as that length and that distance |
| InflateMeaning.EveryDistance | dep/zlib/inftrees.c:66-72 | every distance from 1 to 32768 belongs to exactly one symbol |
| InflateMeaning.EveryLength | dep/zlib/inftrees.c:60-65 | every length from 3 to 258 belongs to exactly one symbol up to 284, and of all only 258 to 285 as well |
| InflateSymbols.MakeCodes | dep/zlib/inflate.c:993-1014 | the tables of a block are made exactly when neither set of lengths is over-subscribed or incomplete in a way inflate_table rejects and neither table needs more entries than it may; too many entries need codes longer than the root index, and no more are used than one sub-table for every longer code |
| InflateInput.BitIn.PullByte | dep/zlib/inflate.c:486-494 | a byte more is held, the bits that are unread stay the same |
| InflateInput.BitIn.DropBits | dep/zlib/inflate.c:508-513 | exactly the first n unread bits are gone |
| InflateInput.BitIn.ReturnUnused | dep/zlib/inffast.c:309-313 | whole bytes go back to the input, fewer than 8 bits stay held, the unread bits stay the same |
| InflateLookUp.NextSlow | dep/zlib/inflate.c:1030-1047 | pulling byte by byte finds the next symbol and leaves fewer than 8 bits, or all input is used and there is no symbol in it |
| InflateLookUp.NextFast | dep/zlib/inffast.c:121-132 | with 23 bits to come the next symbol is found at once, for any number of bits held |
| InflateWindow.OnePiece | dep/zlib/inflate.c:410-424 | bytes written in one piece leave the last bytes of the history in circular order |
| InflateWindow.TwoPieces | dep/zlib/inflate.c:410-418 | so do bytes that run over the end of the window |
| InflateWindow.Window.Update | dep/zlib/inflate.c:378-426 | the window holds the last min(total, wsize) bytes of the output, for any amount of new output |
| InflateState.State.CopyFromOutput | dep/zlib/inflate.c:1155-1164 | copying from the output is copying byte by byte from the history, also when the match overlaps itself |
| InflateState.State.CopyFromWindow | dep/zlib/inflate.c:1147-1164 | so is copying from a stretch of the window that holds those bytes of the history |
| InflateState.State.Piece | dep/zlib/inflate.c:1147-1153 | the bytes from a distance on lie one behind the other up to the end of the window or up to wnext |
| InflateFast.CopyFromBefore | dep/zlib/inffast.c:216-267 | the three cases of a match that begins before this call's output equal byte-by-byte copying from the history |
| InflateFast.CopyWrapped | dep/zlib/inffast.c:227-245 | the case that wraps around the window, up to three stretches |
| InflateFast.MatchFast | dep/zlib/inffast.c:186-281 | a match is copied, or rejected exactly when it goes back further than this call's output and the window |
| InflateFast.OneTurn | dep/zlib/inffast.c:120-307 | with 48 bits to come and room for 258 bytes one turn runs out of neither, and leads to what the specification says |
| InflateFast.FirstCode | dep/zlib/inffast.c:309-313 | up to 14 bits can be held on entry, and still no byte goes back that this call has not taken |
| InflateFast.DecodeFast | dep/zlib/inffast.c:67-324 | any number of turns leads to what the specification says, with mode LEN, TYPE or BAD and fewer than 8 bits held |
| InflateBlock.LenSlow | dep/zlib/inflate.c:1029-1068 | the state LEN moves on as specified, or the input is used up and the specification has no symbol either |
| InflateBlock.DistSlow | dep/zlib/inflate.c:1079-1105 | so does the state DIST |
| InflateBlock.MatchSlow | dep/zlib/inflate.c:1122-1166 | a part of the match is copied, or it is rejected exactly when the distance exceeds this call's output and the window |
| InflateBlock.Decode | dep/zlib/inflate.c:1020-1172 | fast and slow states together lead to what the specification says; the loop ends, at the end of the block, for an error, or with all input or all room used |
| InflateBlock.Inflate | dep/zlib/inflate.c:604-1251 | a call keeps the window up to date and leads to what the specification says of its share of the input; the reply tells an error and a call that did nothing; a code cut off at the end of the input is kept in the bit buffer |
| InflateSplit.Meanings | dep/zlib/inflate.c:1124-1131 | decoding byte by byte and decoding in one call mean the same, or a distance beyond the window ends the first earlier; with a history that the window holds they mean the same exactly when no distance goes beyond the window, and with 32768 bytes always |
| InflateSplit.Outcome | dep/zlib/inflate.c:604-1251 | whatever the calls were, with any window, history and held bits: the output is a beginning of what one call gives and at the end at least what byte-by-byte calls give; where both mean the same it is that; an end of block or a lack of bits is that of one call |
| InflateSplit.OutcomeExact | dep/zlib/inflate.c:604-1251 | calls that all keep the history in one way end with exactly the output and the end of that way |
| InflateSplit.Begin | dep/zlib/inflate.c:1014-1020 | a block can begin behind any history, with any bits of the byte before still held |
| InflateSplit.InflateShares | dep/zlib/inflate.c:604-1251 | for every division of input and room among calls, every window, history and held bits, the output lies between the two meanings as said under Outcome, and is all of it at the end where they are the same |
| InflateSplit.InflateAll | dep/zlib/inflate.c:604-1251 | for every amount of input and room per call the calls end; where the two meanings are the same, with exactly that output and end; with room for one byte per call with exactly the byte-by-byte meaning, the error for a distance beyond the window included |
| InflateSplit.InflateOnce | dep/zlib/inflate.c:604-1251 | one call with all input and more room than needed ends with exactly the output and the end of the one-call meaning |
| InflateExample.SplitMatters | dep/zlib/inflate.c:1124-1131 | with tables made from code lengths and a window of 256 bytes, the same 39 bytes of input give 303 bytes and the end of the block in one call, and 300 bytes and an error in calls with room for one byte |
| InflateSync.Step | dep/zlib/inflate.c:1347-1355 | one byte takes the length of the matched part of the pattern to that of the longer string |
| InflateSync.SyncSearch | dep/zlib/inflate.c:1338-1359 | the search stops right behind the first end of 00 00 FF FF, wherever the input is divided |
| InflateSync.HeldBytes | dep/zlib/inflate.c:1374-1387 | the bytes taken from the bit buffer are those of the buffer shifted up by the bits left over |
| InflateSync.HeldBytesRight | dep/zlib/inflate.c:1376-1384 | they are the whole bytes held, for every content, exactly when no bits are left over or there is no whole byte |
| InflateSyncExample.StopsHolding | dep/zlib/inflate.c:1366-1387 | a call that stops with all input taken and 9 bits held, after which inflateSync takes another byte out of the bit buffer than the one that is held |
| DeflateHash.LastThree | dep/zlib/deflate.c:161-167 | the rolling hash depends on the last three bytes only, for every memory level |
| DeflateHash.ThirdByte | dep/zlib/deflate.c:1245-1252 | two strings with equal hashes and equal first two bytes have equal third bytes |
| DeflateChains.Insert | dep/zlib/deflate.c:186-189 | inserting a string behind all others keeps every chain of strings with equal hash: each link leads to the latest one before, though the place in prev of an older string is taken |
| DeflateState.Deflate.InsertString | dep/zlib/deflate.c:186-189 | head and prev change at one place each; what was at the head of the chain of this hash is returned |
| DeflateChains.Bounded | dep/zlib/deflate.c:1712 | the last two positions of the input can be left to be inserted later |
| DeflateChains.Append | dep/zlib/deflate.c:1465-1466 | more input behind the valid bytes keeps the chains |
| DeflateChains.Slide | dep/zlib/deflate.c:1424-1447 | sliding window, head and prev keeps the chains |
| DeflateChains.Follow | dep/zlib/deflate.c:1282-1283 | a link that is within the limit leads to an earlier string with the same hash whose own link is good |
| DeflateMatch.FirstThree | dep/zlib/deflate.c:1240-1252 | the byte that is not compared is equal |
| DeflateMatch.MatchLength | dep/zlib/deflate.c:1240-1267 | 0 only if the strings do not agree on one byte more than the best; otherwise how far they agree, up to 258 |
| DeflateMatch.LongestMatch | dep/zlib/deflate.c:1146-1287 | of the strings that the chain leads to behind the limit, as many as max_chain_length or a quarter of it allows: the length and the place of the first that agrees on at least nice_match bytes, or else of the first that agrees on most, if it is more than prev_length, cut to the lookahead; every comparison is inside the window |
| DeflateMatch.NoneLonger | dep/zlib/deflate.c:1270-1287 | no string on the chain agrees on more bytes within the lookahead, unless the result is nice enough to stop |
| DeflateMatch.OnChain | dep/zlib/deflate.c:1282-1283 | the chain passes over no inserted string with the same hash behind the limit, unless it is cut for its length |
| DeflateMatch.LongestOfAll | dep/zlib/deflate.c:1146-1287 | of all strings that have been inserted and are near enough none agrees on more bytes, unless the search has stopped for a nice match or for the length of the chain |
| DeflateFill.SlideWindow | dep/zlib/deflate.c:1417-1449 | the window is the end of the input, the chains are good and lose no string that stays in the window, and match_start keeps its 32-bit distance even when it leaves the window |
| DeflateFill.ReadBuf | dep/zlib/deflate.c:1074-1099 | as much input as there is room for comes behind the valid bytes |
| DeflateFill.InsertPending | dep/zlib/deflate.c:1468-1487 | the hash is begun anew and the strings left over are inserted, all of them of which there are three bytes |
| DeflateFill.FillWindow | dep/zlib/deflate.c:1388-1530 | there is enough lookahead or no input, strstart leaves room for a search, its place in the input is the same, and no string that is near enough for a match is lost |
| DeflateTally.StoredBytes | dep/zlib/deflate.c:1536-1545 | the bytes handed on to be stored instead are those that the tokens of the block expand to |
| DeflateTally.FoundReal | dep/zlib/deflate.c:1666-1670 | equal bytes in the window are a real match in all that has been read |
| DeflateFast.FindMatch | dep/zlib/deflate.c:1650-1665 | the string is inserted when there are three bytes of it, and searched for when the head of its chain is near enough |
| DeflateFast.FastTurn | dep/zlib/deflate.c:1650-1709 | a turn emits the match the search finds if it has three bytes or more, and a literal otherwise; it inserts the strings inside a match that is no longer than max_insert_length; the tokens expand to what lies before the new strstart |
| DeflateFast.EncodeFast | dep/zlib/deflate.c:1626-1720 | for any flush and any room the tokens are those of a path of greedy turns and refills of the window from the state before; they expand to the input consumed, and to all of it when no more is asked for; more is asked for only without room, having taken something if it is to finish, or without input |
| DeflateSlow.MinusOne | dep/zlib/deflate.c:1794-1795 | the distance of the previous match is a 32-bit difference that sliding does not change |
| DeflateSlow.FindBetter | dep/zlib/deflate.c:1753-1784 | the search takes place when the previous match is shorter than max_lazy; its result counts unless it has up to 5 bytes under Z_FILTERED or 3 bytes more than 4096 back; a match longer than the previous one is real |
| DeflateSlow.PutPrevious | dep/zlib/deflate.c:1788-1813 | the previous match is emitted and the strings inside it are inserted |
| DeflateSlow.SlowTurn | dep/zlib/deflate.c:1750-1835 | a turn emits the previous match exactly if it has three bytes or more and the one at strstart is not longer, and inserts the strings inside it; otherwise it emits the byte before strstart if that is waiting, and the match at strstart waits; the tokens expand to what lies before strstart but for one byte that waits |
| DeflateSlow.EncodeSlow | dep/zlib/deflate.c:1728-1851 | as for deflate_fast, with lazy turns, and at the end of the input the byte that waits; nothing waits when no more is asked for |
| DeflateRle.RunLength | dep/zlib/deflate.c:1882-1898 | a run is a match at distance one, as long as the byte is repeated, up to 258 and the lookahead, and at least three bytes |
| DeflateRle.RleTurn | dep/zlib/deflate.c:1880-1916 | a turn emits the run at strstart, or a literal |
| DeflateRle.EncodeRuns | dep/zlib/deflate.c:1859-1965 | as for deflate_fast, with turns for runs only or for literals only |
| DeflateCalls.Forget | dep/zlib/deflate.c:929-936 | a full flush starts the window afresh, without any string, and keeps what the tokens expand to |
| DeflateCalls.Work | dep/zlib/deflate.c:896-906 | the level and the strategy decide by which turns the tokens are made: those of the path from the state before are of this kind |
| DeflateCalls.TokensExpand | dep/zlib/deflate.c:901-907 | between calls the tokens expand to all that was read but the lookahead and at most one byte, with matches of 3 to 258 bytes within MAX_DIST |
| DeflateCalls.Call | dep/zlib/deflate.c:663-948 | for every level, strategy, flush and room: the tokens keep expanding to the input; BufError comes exactly for a call without room, a repeated flush with nothing to do, and input after the end; a call that leaves room has taken all input, to finish it has ended the stream, to flush it has sent all blocks, and after a full flush no string of before can be found; a finish with room that does not end the stream brings it nearer to its end |
| DeflateCalls.KeptMeans | dep/zlib/zlib.h:564-575 | what the strategies promise of every match: none with Z_HUFFMAN_ONLY, only distance one with Z_RLE, and from level 4 on no match of three bytes more than 4096 back, nor, with Z_FILTERED, of fewer than six bytes |
| DeflateOutput.Output.FlushPending | dep/zlib/deflate.c:640-659 | as many of the waiting bytes go out as there is room for; afterwards there is no room or nothing waits |
| DeflateCalls.FinishAll | dep/zlib/deflate.c:663-948 | calls to finish end the stream, with nothing left waiting, for any rooms as long as there is some in every call |
| DeflateCalls.Compress | dep/zlib/deflate.c:663-948 | over any sequence of calls with any rooms the tokens expand to the beginning of the input, and to all of it at the end, and keep to the strategy as said under KeptMeans |
| DeflateCalls.CompressAll | dep/zlib/deflate.c:663-948 | whatever the calls before were, finishing with room in every call sends tokens that expand to all that was provided |
| TokenBits.TokenRun | dep/zlib/inflate.c:1020-1172 | decoding the codes of one token puts out what the token stands for |
| TokenBits.BlockInflates | dep/zlib/inflate.c:1020-1172 | decoding the codes of a block's tokens, however they are coded, gives what they expand to behind the history |
| DeflateInflate.BlockSurvives | dep/zlib/deflate.c:1536-1545 | the tokens of a block of deflate, coded in any way that can be read back, inflate to the bytes of the block, however much of the history is kept from call to call |
| DeflateInflate.BlockComesBack | dep/zlib/inflate.c:604-1251 | behind any earlier blocks, with a window no smaller than that of deflate, with any bits held, and for every amount of input and room per call, calls of inflate put out exactly the bytes of the block and stop at its end |
| Adler32.InPieces | dep/zlib/adler32.c:65-133 | the checksum of a string in two calls is the checksum of the whole |
| Adler32.NoOverflow | dep/zlib/adler32.c:15-16 | no sum leaves 32 bits within NMAX bytes, from any 16-bit halves |
| Adler32.MacrosDivide | dep/zlib/adler32.c:26-57 | MOD28, MOD and MOD63 are the remainder below 2^28, 2^32 and 2^63 |
| Adler32.Adler | dep/zlib/adler32.c:65-133 | the deferred form equals the definition byte by byte for every length, and agrees with it whatever word it starts from |
| Adler32.CombinedChecksum | dep/zlib/adler32.c:149-161 | the formula gives the checksum of the concatenation, for all strings |
| Adler32.Combine | dep/zlib/adler32.c:136-162 | adler32_combine_ computes the formula for every length, and no checksum for a negative one |

## Left out

- Calls of BZ2_bzDecompress after it has returned an error; the source would resume at the label where the error was found.
- SelectorTable.Receive: stops with a result of its own where the source writes outside selectorMtf; what the source does from there on is not modelled.
- Randomised blocks: reading one ends the model with a result of its own.
- Shared memory: zbits is an array of its own, limited to the part of arr2 that the block leaves free; the bytes that fallbackSort reads through eclass8 and the words it writes to the same place are modelled by one array whose bytes are lost in between; arr1, arr2, ftab and the quadrants are allocated per block.
- The unrolled copies for groups of 50 symbols, and the twelve unrolled comparisons of mainGtU, are modelled as the loops they unroll.
- Operators on words that only place fields side by side are modelled as sums and products of numbers.
- Verbosity, failing allocation, the 64-bit totals, the BZFILE layer and the command line.
- MakeTable: the limits ENOUGH_LENS and ENOUGH_DISTS are checked as in the source, but that they are never exceeded is not proved; a table for the lengths of a code is asked for with 7 root bits and lengths up to 7, as its caller does.
- crc32_big, the word-at-a-time form for machines of the other byte order.
- inflate: the headers, stored blocks, the code lengths of a block, the trailer and preset dictionaries; decoding is followed within one block, as with Z_BLOCK, and the mark for inflateMark is not kept.
- deflate: header, trailer, stored blocks at level 0, preset dictionaries, changes of level or strategy between calls; windows of 9 to 15 bits.
- deflate: trees.c, so that the bits of a block are any bits that can be read back as its tokens, and the number of bytes that a block adds to the output is any number.
- FillWindow: the zeros that are written behind the input are not modelled; what stands there is arbitrary.
- The windows of inflate are allocated at once rather than when they are first used.
- infback.c and the gzip file layer.
