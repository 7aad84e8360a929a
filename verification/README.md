# The bundled compression libraries, modelled and proved

The server ships two compression libraries with its dependencies: bzip2 (`deps/bzip2`) and zlib (`deps/zlib`). This
project is a Dafny model of bzip2 in both directions, from a caller's buffer to the bits of the stream and back, and of
the kernels of zlib: the sliding-window matcher, the fast inner loop of inflate, CRC-32 and Adler-32. Code that works on
arrays and state in C is a method or a class here, proved against functions on sequences; the promises are lemmas about
those functions and clauses of those methods.

The main results:

- **bzip2 as a whole.** Any sequence of compress calls that ends the stream has made a stream that stands for exactly the
  bytes taken, and every call that is given room comes nearer to that end (`Compressor`); a file written through the small
  buffer of the file interface is always closed as a complete stream of everything written (`FileWriting`). The
  decompressor gives out exactly the text of such a stream, in whatever pieces it comes in, in any portions and in both its
  forms (`StreamDecoding`, `BufferToBuffer`). In between: the run-length coder (`RunLength`), the two block
  sorts with all their quicksorts (`FallbackSort`, `FallbackQSort`, `MainOrder`, `MainSimpleSort`, `MainQSort`,
  `MainRadix`, `BucketScan`, `MainScan`, `QuadrantOrder`, `MainSort`, `BlockSort`), the inverse transform
  (`BurrowsWheeler`, `InverseVectors`, `RandTable`, `BlockOutput`), move-to-front and run coding (`MtfTable`, `MtfCoding`,
  `MtfEncoder`, `MtfDecoder`, `MtfRoundTrip`), Huffman lengths that are optimal for their weights, codes and tables
  (`HuffmanHeap`, `HuffmanOptimal`, `HuffmanLengths`, `HuffmanCodes`, `HuffmanDecoding`), the bit buffers (`BitStream`),
  and the parts of a block on the wire (`InUseMap`, `SymbolStream`, `BlockHeader`, `CodingTables`, `GroupChoice`,
  `BlockCrc`, `BlockPolynomial`, `BlockTransmission`, `BlockReception`, `BlockMarker`, `BlockPipeline`, `BlockCoding`,
  `StreamFormat`, `StreamSize`).
- **deflate.** The literals and matches handed on expand to the input, across any number of window slides, and every turn
  takes the match it should: the first of the longest among the newest strings with the hash, wherever the search has to
  look (`Deflate`, `MatchSteps` and `MatchSearch`, over `HashChains`, `DeflateHash` and `Lz77`).
- **inflate_fast.** What it writes is the plain expansion of the codes it reads, within six input and 258 output bytes a
  step, and no bit is lost (`InflateFast`, `InflateCodes`). For tables laid out as inftrees.h says, it reads back the
  literals, lengths and distances written in their codes (`DeflateCodes`, `InflateTables`; `FixedCodes` for the fixed
  ones), and the matcher's tokens give the input back (`DeflateInflate`).
- **Checksums.** The checksum of a bzip2 block is a polynomial remainder (`BlockPolynomial`), and so is the CRC of zlib;
  the braided CRC equals the byte loop, on both byte orders, and combining is concatenation (`Gf2`, `CrcPowers`,
  `CrcRegister`, `CrcWords`, `CrcBraid`, `Crc32`); Adler-32 with its late reductions equals the sums reduced at every byte
  (`Adler32`).

`Common`, `Counting` and `Rotations` hold what several modules share.

## Model

| member | source | states |
|---|---|---|
| Compressor.EState.BzCompress | deps/bzip2/bzlib.c:407-464 | Over any run of calls with any actions and buffer sizes: input taken goes into the finished blocks, the current block and the pending run without loss, and a block is closed only when it is full, except the last one of a flush or finish, with all input taken; a call that ends the stream has taken all input, delivered all output, and what was delivered is a complete stream of the level asked for that stands for exactly what was taken; a finished machine refuses every call. Progress: a run takes all input or uses all room, and is refused exactly when it has nothing to work on; a flush or finish is interrupted only when the room is used up, and is then nearer its end (less input, or the last block closed, or that much less to deliver); a finish fails exactly when there is no room and either no input or output waiting |
| Compressor.EState.HandleCompress | deps/bzip2/bzlib.c:360-403 | Terminates; keeps conservation, the block limit and the stream made so far; every block it closes is full, but for the last one of a flush or finish, closed when all input is taken; says exactly when progress was made; a run that stops has no input or no room left, a flush or finish no room left or nothing more to do; unless its work is done it has come nearer the end |
| Compressor.EState.CompressBlock | deps/bzip2/compress.c:602-667 | The stream so far grows by header, block and trailer as the block number, the block's length and the last-block flag say, and the blocks finished by exactly this one; its checksum is that of its plain text and is taken into the combined one; all bytes written fit behind the block in arr2 |
| Compressor.EState.AddCharToBlock | deps/bzip2/bzlib.c:260-284 | What the coder has taken grows by exactly this byte, whatever run it meets; the bytes in use, the block and its checksum stay those of the runs stored, and at most five bytes are added |
| RunLength.ExpandEncode | deps/bzip2/bzlib.c:215-284 | Runs stored as the coder stores them expand to the plain bytes, whatever byte a decoder would meet after the block |
| BufferToBuffer.BuffToBuffCompress | deps/bzip2/bzlib.c:1247-1295 | On success the destination is a stream of the level asked for that stands for the source; parameters out of range, the verbosity among them, are refused exactly, and an empty source given no room is the only other failure beside a full buffer |
| BufferToBuffer.BuffToBuffDecompress | deps/bzip2/bzlib.c:1299-1348 | Parameters out of range are refused exactly; otherwise, for every text the source stands for, in either form of the output: success with exactly this text if and only if the destination has room for it, otherwise a full buffer |
| BufferToBuffer.RoundTrip | deps/bzip2/bzlib.c:1247-1348 | Compressing and decompressing gives the source back |
| FileWriting.WriteOpen | deps/bzip2/bzlib.c:916-958 | Bad parameters are refused exactly; otherwise the file is open, empty and of the level asked for |
| FileWriting.BzFile.Write | deps/bzip2/bzlib.c:964-1005 | The loop ends for every buffer and state of an open file, never fails, and has taken all of the buffer; what the file held stays in front |
| FileWriting.BzFile.WriteClose | deps/bzip2/bzlib.c:1021-1083 | The finishing loop ends and never fails, and the file is then a complete stream of its level that stands for everything written; abandoned, it stays as it is |
| FileWriting.WrittenAndRead | deps/bzip2/bzlib.c:916-1083 | Whatever is written, in any parts and with any parameters allowed, comes back from the closed file, without any condition on the room of the writer |
| StreamDecoding.Decoder.BzDecompress | deps/bzip2/bzlib.c:808-858 | For every input, in whatever pieces it arrives, the call ends; when it reports the end of the stream, what was delivered is the text of whole blocks, each with the checksum that came with it, and the combined checksum is theirs; reading a well-formed stream, with randomised blocks or without, it never reports an error and overruns no table, stops short only when the room is used up and text remains, and has given out exactly the text at the end, over any number of calls and any room |
| StreamDecoding.Decoder.ReceiveNext | deps/bzip2/decompress.c:222-264 | From the bits between two blocks the next block, randomised or not, is ready for output, or the trailer has been read and the combined checksum compared; on a stream that was sent exactly what was sent |
| StreamDecoding.Decoder.GiveOut | deps/bzip2/bzlib.c:816-842 | Gives out as much of a block as there is room for; a complete block is accepted only with the checksum stored with it, and always when it is one that was sent; a fresh block that completes gave at least one byte |
| StreamFormat.RowsAppend | deps/bzip2/compress.c:630-653 | A stream of blocks grows at its end by the bits of the block sent, though it is read from its front |
| StreamFormat.EndSoFar | deps/bzip2/compress.c:657-666 | The bytes handed on earlier and those up to the filled last byte form a complete stream with the combined checksum of its blocks |
| StreamFormat.RunsWhole | deps/bzip2/bzlib.c:215-256 | A block that ends between two runs expands to its plain text and is never reported corrupt |
| StreamSize.RowSize | deps/bzip2/compress.c:619-653 | A block takes at most 20 bits a byte and 257419 bits more, whatever tables are chosen |
| StreamSize.FitsBehind | deps/bzip2/bzlib.c:176-178 | With the bits left over, header and trailer this is within the part of arr2 that the block leaves free, for every block size |
| BlockCoding.SendRow | deps/bzip2/compress.c:605-653 | Sorting, marker, checksum, row of the block, symbols and tables: what is written carries the block, for every block within the limit, with the selectors and tables that four rounds of choosing come to |
| BlockCoding.SelectorsFit | deps/bzip2/compress.c:455-458 | The selectors chosen for a block fit their table and the fifteen bits that count them, so assertion 3003 never fires |
| GroupChoice.ChooseGroups | deps/bzip2/compress.c:271-452 | The number of tables goes by the symbols; four rounds, each giving every group the first of its cheapest tables and counting for each table exactly the symbols of its groups; the first tables cut the alphabet into ranges by their share of the symbols, later ones are best codes for the counts of the round before |
| GroupChoice.Cheapest | deps/bzip2/compress.c:399-402 | The first of the cheapest tables |
| GroupChoice.TakeRange | deps/bzip2/compress.c:300-313 | A range ends where its symbols first reach their share, every other one in between a symbol earlier, and the count of its symbols is exact |
| GroupChoice.GroupCostMore | deps/bzip2/compress.c:344-393 | Sixteen bits are enough for the cost of fifty symbols: no sum wraps |
| FallbackSort.Sort | deps/bzip2/blocksort.c:212-329 | fmap ends as a permutation in non-decreasing order of the cyclic rotations, for every block, and the block that was overwritten is restored; assertion 1005 never fires; a block of one byte value is listed from its last position to its first |
| FallbackSort.RoundDoubles | deps/bzip2/blocksort.c:261-313 | One round takes an order refined to depth h, with header bits at exactly the bucket starts, to depth 2h |
| FallbackSort.DoubleDepth | deps/bzip2/blocksort.c:267-272 | Comparing two ranks, the second h further on, is comparing 2h characters, cyclically |
| FallbackQSort.QSort3 | deps/bzip2/blocksort.c:93-180 | Permutes the range and sorts it by key; where all keys are the same nothing moves |
| FallbackQSort.PushParts | deps/bzip2/blocksort.c:171-178 | Pushing the larger part first keeps entry k of the stack below n/2^k and the ranges disjoint, and the work left gets less |
| FallbackQSort.StackBound | deps/bzip2/blocksort.c:110-111 | Hence at most 28 entries for up to 2^31 elements: assertion 1004 never fires |
| FallbackQSort.SimpleSort | deps/bzip2/blocksort.c:32-59 | The two insertion passes permute the range and sort it by key |
| MainOrder.GtU | deps/bzip2/blocksort.c:347-469 | The verdict agrees with the order of the rotations, equal ones answered either way; every unit of the budget spent stands for eight letters that agree beyond the first twelve |
| MainSimpleSort.SimpleSort | deps/bzip2/blocksort.c:485-555 | Within the budget the range is sorted in rotation order and permuted, otherwise only permuted; the budget is spent on pairs of rotations that agree on twenty letters only |
| MainQSort.QSort3 | deps/bzip2/blocksort.c:621-717 | Within the budget the range is sorted in rotation order and permuted, otherwise only permuted, and the budget is spent on rotations that agree on twenty letters only; the stack of 100 entries is never exceeded (assertion 1001) |
| MainRadix.PlacePairs | deps/bzip2/blocksort.c:770-830 | Every rotation lies in the small bucket of its first two bytes, and ftab holds the bucket starts |
| MainRadix.RunningOrder | deps/bzip2/blocksort.c:837-860 | A permutation of the 256 big buckets in non-decreasing size |
| MainScan.ScanBucket | deps/bzip2/blocksort.c:918-944 | With all other small buckets of the row sorted, the two scans fill every small bucket [t, ss] in rotation order, [ss, ss] included, and leave finished ones alone |
| MainScan.ScanEnd | deps/bzip2/blocksort.c:937-941 | The two cursors of [ss, ss] meet, unless the block is one byte value throughout: assertion 1007 never fires |
| MainSort.Sort | deps/bzip2/blocksort.c:751-1011 | Within the budget ptr ends in rotation order; the block is kept; assertions 1002 and 1006 never fire; the sort never gives up on a block in which no two rotations agree on twenty letters, and a block of one byte value costs no budget and is listed from its first position to its last |
| MainSort.UpdateQuadrants | deps/bzip2/blocksort.c:961-1003 | Quadrants never put two rotations the wrong way round; within the bucket just done, unequal quadrants mean a strict order if and only if no class of the shift splits a set of equal rotations |
| QuadrantOrder.StrictWhen | deps/bzip2/blocksort.c:964-985 | The condition, over block and shift alone: for every rotation the last of its equals falls into the same class as the first |
| QuadrantOrder.TwoCopiesNotStrict | deps/bzip2/blocksort.c:964-985 | A block of two copies: the update of the bucket of the letter 1 gives its two equal rotations different quadrants |
| MainSort.TwoCopiesReached | deps/bzip2/blocksort.c:837-860 | The code comes to this update: in any running order by size that bucket is not the last, and for its size the condition fails |
| BlockSort.BlockSort | deps/bzip2/blocksort.c:1031-1089 | For every block length and work factor ptr is sorted in rotation order and origPtr is the row of the block itself (assertion 1003); for a block of one byte value which row that is |
| BlockSort.ColumnsAgree | deps/bzip2/blocksort.c:1056-1062 | Whichever sort ran, the last column is the same |
| BlockSort.OriginUnique | deps/bzip2/blocksort.c:1056-1087 | origPtr is the same for every sorted order if and only if no other rotation equals the block |
| BlockSort.OrderNotUnique | deps/bzip2/blocksort.c:1056-1087 | Every block of one byte value, of two bytes or more, has sorted orders that put the block itself in the first row and in the last |
| BlockSort.SortsDiffer | deps/bzip2/blocksort.c:1056-1060 | On a block of one byte value that is long enough for the main sort, with any budget, the main sort puts the block itself in the first row and the fallback sort in the last |
| BurrowsWheeler.InverseTransform | deps/bzip2/decompress.c:524-574 | From the last column of any sorted order and the row of the block, walking along the stable order of the column gives the block, periodic or not |
| BurrowsWheeler.SortedOrdersAgree | deps/bzip2/blocksort.c:1056-1062 | Any two sorted orders hold equal rotations in every row |
| InverseVectors.LinksStable | deps/bzip2/decompress.c:557-564 | The links built from cumulative counts are the stable order of the column and the inverse of its forward pointers |
| InverseVectors.LinkFast | deps/bzip2/decompress.c:557-564 | tt ends with each byte of the column and its link above it |
| InverseVectors.ReversePointers | deps/bzip2/decompress.c:536-545 | Reversing in place along origPtr returns to origPtr, and the entries on the cycle are then the inverse links, for every column |
| InverseVectors.IndexIntoF | deps/bzip2/bzlib.c:687-698 | The binary search finds the byte group the row falls into |
| BlockOutput.ContentOfSort | deps/bzip2/decompress.c:500-574 | What the walk reads from the column of a sorted order is the block that was sorted |
| BlockOutput.StartSmall | deps/bzip2/decompress.c:524-552 | Linking, reversing and the first fetch leave the low-memory output ready, for every column and row |
| BlockOutput.DState.UnRleFast | deps/bzip2/bzlib.c:536-682 | Writes on along the expansion of what the walk reads, uses all room or completes the block, and then has written exactly the expansion, with the checksum of the bytes written; reports corruption if and only if the last run lacks its count and the room reaches it, and then, unless the block is randomised, every field is as it was at the call |
| BlockOutput.DState.UnRleSmall | deps/bzip2/bzlib.c:706-804 | The same for the low-memory form, which reports corruption only when room is left over and has then written all that the expansion holds |
| BlockOutput.SameBytes | deps/bzip2/bzlib.c:536-804 | The two forms have written the same bytes whenever they have written equally many, for every block and every split of the room |
| BlockOutput.FormsAgreeWhen | deps/bzip2/bzlib.c:632-679 | The two forms answer alike and leave the same bytes written if and only if the block is not corrupt, or the call does not reach its end, or everything had been written before and room is left |
| BlockOutput.FormsDiffer | deps/bzip2/bzlib.c:632-679 | A block on which they differ |
| BlockOutput.RandomisedRestored | deps/bzip2/bzlib_private.h:133-149 | A block randomised by its sender is read as it was before |
| MtfTable.Table.ToFront | deps/bzip2/decompress.c:423-473 | The 4096 cells with 16 sliding bases denote one list of 256 values, before and after exactly one move to front |
| MtfTable.Table.Rebuild | deps/bzip2/decompress.c:461-470 | Rebuilding the cells in place keeps the list |
| MtfCoding.RunCodeUnique | deps/bzip2/compress.c:172-192 | A run length has exactly one RUNA/RUNB string; with RunCodeValue the two are inverse to each other |
| MtfCoding.RunCodeValue | deps/bzip2/compress.c:172-192 | The digits written for a run length count to it |
| MtfCoding.RunMeaning | deps/bzip2/decompress.c:375-409 | A string of run digits says its value many copies of the first list entry |
| MtfCoding.WeightBound | deps/bzip2/decompress.c:381-390 | The weight of the next digit is at most one more than the bytes read so far, so a legitimate run never meets the 2M guard |
| MtfEncoder.Encoder.GenerateMTFValues | deps/bzip2/compress.c:120-231 | The symbols written over the sort order mean the last column, end with the end-of-block symbol, are counted, and are at most one more than the block's bytes |
| MtfDecoder.Receiver.ReadColumn | deps/bzip2/decompress.c:351-486 | For every symbol sequence: done exactly when it ends and its meaning fits, and then the column and the byte counts are those of its meaning |
| MtfRoundTrip.ColumnRestored | deps/bzip2/decompress.c:351-486 | What is read from the symbols of a column is the column and its byte counts |
| MtfRoundTrip.NeverRefused | deps/bzip2/decompress.c:411-421 | The decoder's limits never refuse the symbols of a block that fits |
| BitStream.BitWriter.W | deps/bzip2/compress.c:58-78 | Appends the low n bits of v to everything written, whatever waits in the buffer |
| BitStream.BitReader.Get | deps/bzip2/decompress.c:43-60 | Takes the next n bits, and fails without loss exactly when fewer are left |
| HuffmanLengths.MakeCodeLengths | deps/bzip2/huffman.c:63-148 | Terminates for all frequencies below 2^23 in all, with every length in 1 .. maxLen and Kraft sum exactly one; no lengths with Kraft sum at most one cost less for the weights kept, which are the frequencies (zero counted as one) halved as often as the cheapest code of least depth was deeper than maxLen; assertions 2001 and 2002 never fire |
| HuffmanLengths.BestOfTree | deps/bzip2/huffman.c:94-124 | The leaf depths of a tree grown by joining lightest pairs, the shallower first among equals, cost the least of all lengths within Kraft's inequality, and of these they have the least greatest length |
| HuffmanLengths.CostOfTree | deps/bzip2/huffman.c:98-124 | What the leaf depths cost is the sum of the weights joined |
| HuffmanOptimal.MergeCodes | deps/bzip2/huffman.c:98-112 | The exchange argument: if the two lightest are joined and the rest is coded best, all is coded best |
| HuffmanLengths.DepthBounded | deps/bzip2/huffman.c:94-112 | A tree of depth d built by joining lightest pairs weighs at least Fibonacci(d + 2) |
| HuffmanLengths.TooLongIsHeavy | deps/bzip2/huffman.c:113-143 | A code longer than maxLen means some weight is three or more |
| HuffmanLengths.Scaled | deps/bzip2/huffman.c:143-147 | Then rescaling strictly lowers the total weight, so the loop ends |
| HuffmanLengths.KraftOfTree | deps/bzip2/huffman.c:113-124 | Depths of the leaves of a full tree have Kraft sum one |
| HuffmanCodes.AssignCodes | deps/bzip2/huffman.c:152-166 | The codes are the canonical ones of the lengths |
| HuffmanCodes.CodesFit | deps/bzip2/huffman.c:152-166 | All codes fit their lengths if and only if the Kraft inequality holds |
| HuffmanCodes.CreateDecodeTables | deps/bzip2/huffman.c:170-200 | limit, base and perm decode the canonical codes of the lengths |
| HuffmanDecoding.PrefixFree | deps/bzip2/huffman.c:152-200 | No code is the beginning of another |
| HuffmanDecoding.GetSymbol | deps/bzip2/decompress.c:69-102 | For lengths that satisfy the Kraft inequality: gives the symbol whose code comes next and takes exactly its bits; any other answer only when no code comes next |
| SymbolStream.SendData | deps/bzip2/compress.c:545-594 | Each symbol is written with the code of its group's table, all selectors are used up (assertion 3007) |
| SymbolStream.Source.ReceiveSymbols | deps/bzip2/decompress.c:373-486 | The symbols sent are read back, up to and with the end of block, consuming exactly their bits |
| CodingTables.SelectorsRestored | deps/bzip2/compress.c:461-478 | A row of move-to-front places determines the selectors |
| BlockTransmission.SendMTFValues | deps/bzip2/compress.c:461-598 | Mapping, selectors, lengths and data are written as one layout with usable tables, the lengths fitted to the counts handed over; assertions 3004 to 3007 never fire |
| CodingTables.ReceiveSelectors | deps/bzip2/decompress.c:283-313 | For every input a store falls outside the table if and only if tables and selectors are numbered as allowed, more than 18002 selectors are announced and 18003 of them arrive; otherwise the places sent are read back, or what is accepted is well formed |
| CodingTables.OverrunsWhen | deps/bzip2/decompress.c:289-313 | For selectors that were sent: if and only if there are more than 18002 |
| BlockReception.ReceiveMTFValues | deps/bzip2/decompress.c:267-350 | Reads every well-formed layout back exactly, to the last bit, if and only if its selectors fit the table, and overruns it otherwise; what it accepts otherwise is well formed |
| BlockReception.CrowdedOverruns | deps/bzip2/decompress.c:289-313 | A well-formed layout of 18003 selectors that overruns the table |
| BlockMarker.ReceiveMarker | deps/bzip2/decompress.c:222-264 | Reads back marker, checksum, randomisation bit and row of the block, or the first byte of the trailer |
| BlockPipeline.SendBlock | deps/bzip2/compress.c:239-598 | For any admissible choice of selectors and counts what is written carries the last column of the block, with exactly these selectors and lengths fitted to these counts |
| BlockPipeline.ReceiveBlock | deps/bzip2/decompress.c:264-523 | Gives the last column and its group starts back from what was written, if and only if the selectors fit their table; whatever it accepts is a column with its group starts and a row inside it |
| BlockPolynomial.ChecksumIsRemainder | deps/bzip2/bzlib_private.h:155-172 | The checksum of a block is the complement of the remainder of its bytes as a polynomial times x^32, with the start value in front |
| BlockPolynomial.RunningIsRemainder | deps/bzip2/bzlib_private.h:167-172 | The same of the running register, for any bytes |
| BlockPolynomial.CrcExponents | deps/bzip2/crctable.c:31-104 | The polynomial, exponent by exponent, that reduces it |
| BlockPolynomial.CombineBits | deps/bzip2/compress.c:607-608 | Bit by bit, the combined checksum is the old one moved up by one place round the end, with the block's checksum added |
| StreamFormat.MagicDigits | deps/bzip2/compress.c:630-659 | Blocks begin with twelve digits of pi, and the trailer with those of its square root |
| Deflate.Matcher.DeflateSlow | deps/zlib/deflate.c:1910-2030 | In every reachable state the tokens expand to the input up to strstart, less the byte of a pending match, across any number of slides; at the end of a flush they expand to all input. The call is a run of steps, each a filling of the window, an exact turn of the lazy matcher or the end of the block, and no turn takes place without a full lookahead while there is input |
| Deflate.Matcher.DeflateFast | deps/zlib/deflate.c:1811-1902 | The same for the greedy matcher and its turns |
| Deflate.Matcher.LongestMatch | deps/zlib/deflate.c:1348-1489 | For every window and chain: the first of the longest matches among the candidates visited, as far as there is lookahead, or what was pending if none is longer; a result above the previous length is a real match of that many bytes, within the distance limit |
| Deflate.Matcher.SlowTurn | deps/zlib/deflate.c:1929-2014 | One turn exactly: the string goes on record, a match longer than the pending one is looked for, and the pending match goes out with all it covers on record, or the byte owed as a literal |
| Deflate.Matcher.FastTurn | deps/zlib/deflate.c:1829-1892 | One turn exactly: the longest match goes out, or a literal if there is none of three bytes; the strings under a long match stay off the record |
| MatchSearch.PickIsLongest | deps/zlib/deflate.c:1405-1486 | Going through candidates comes to the first of the longest of those looked at, and all are looked at unless one is of nice length |
| MatchSteps.CandidatesAre | deps/zlib/deflate.c:1395-1486 | In a sound index the candidates of a search are the strings on record with the hash of the one at hand, nearest first, none left out above the limit, up to the chain length |
| MatchSteps.SearchIsLongest | deps/zlib/deflate.c:1348-1489 | A search finds as much as any candidate it looks at has in common with the string at hand, as far as that is ahead |
| MatchSteps.LiteralWithoutMatch | deps/zlib/deflate.c:1838-1891 | The greedy matcher takes a literal only if no candidate has three bytes in common |
| MatchSteps.NothingKept | deps/zlib/deflate.c:1942-1964 | The lazy matcher keeps nothing only if no candidate has three bytes in common, or the match found is one it must not keep |
| MatchSteps.SlowInData | deps/zlib/deflate.c:1398-1404 | What lies in the window beyond the data does not affect the turns of the lazy matcher |
| MatchSteps.FastInData | deps/zlib/deflate.c:1398-1404 | Nor those of the greedy one |
| Deflate.Matcher.FillWindow | deps/zlib/deflate.c:251-331 | Slides and reads without losing or changing a byte of the log, ends with enough lookahead or no input, and puts exactly those late strings on record that now have three bytes |
| Deflate.Matcher.InsertString | deps/zlib/deflate.c:150-164 | Puts the string on record, and nothing else changes in the index; what it returns is the newest older string with the same hash |
| Deflate.Matcher.Feed | deps/zlib/deflate.c:218-239 | Further input from the caller goes behind what has not been read |
| Deflate.LostMatchStart | deps/zlib/deflate.c:1561-1566 | A pending match that began one byte before the window after a slide still yields the right distance in unsigned arithmetic |
| HashChains.InsertSound | deps/zlib/deflate.c:160-164 | Inserting keeps every head the newest string on record with its hash, and every link within reach the newest one older than its own |
| HashChains.SlideSound | deps/zlib/deflate.c:187-209 | So does the slide |
| HashChains.Follow | deps/zlib/deflate.c:1484-1485 | Following a link within reach leads to the newest older string with the same hash, or to the end when there is none |
| DeflateHash.ThirdByte | deps/zlib/deflate.c:1439-1446 | Equal hashes and equal first two bytes make the third bytes equal: the comparison may be skipped |
| DeflateHash.HashParameters | deps/zlib/deflate.c:444-447 | Table size and mask are those of the bits, and the shift is the least that moves a byte out in three steps |
| Lz77.CopyGoesOn | deps/zlib/deflate.c:1956-1990 | A copy at a distance goes on along the input wherever the input repeats itself at that distance |
| InflateFast.Inflater.InflateFast | deps/zlib/inffast.c:50-302 | From the entry assumptions: the bytes written are the plain expansion of the codes read over window and output, at most seven bits stay in hand and none is lost, and the mode says why it stopped. For every message written in the codes of the tables: what was carried out are its first words, in place, all of them when the end of the block is reported, and an error only where a distance reaches back too far |
| InflateFast.Inflater.Turn | deps/zlib/inffast.c:100-288 | One step uses at most 6 input bytes and 258 output bytes and does what the code says |
| InflateFast.Inflater.CopyMatch | deps/zlib/inffast.c:155-242 | A match from a window that may have wrapped, from the output, or from both with overlap, is the plain copy |
| InflateTables.DecodeBack | deps/zlib/inffast.c:106-161 | With tables laid out for a book of codes, entry by entry with the op values of inftrees.h, decoding at the beginning of a word gives the literal or match it means, and behind the last word the end of the block |
| InflateTables.WalkReads | deps/zlib/inftrees.h:11-36 | Following a table reads a code laid out in it, in the first level or through a link |
| InflateTables.CodesBack | deps/zlib/inffast.c:96-288 | Whatever is decoded from the bits of a message, as far as they have arrived, are its first tokens |
| InflateTables.InvalidBack | deps/zlib/inffast.c:282-286 | The two symbols that stand for nothing are reported as invalid |
| DeflateCodes.WordFor | deps/zlib/inftrees.c:60-78 | Every length from 3 to 258 and distance from 1 to 32768 has symbols and extra bits by the tables of section 3.2.5 of RFC 1951 |
| FixedCodes.FixedBuilt | deps/zlib/inffixed.h:10-94 | The fixed tables are laid out for the fixed codes, which have a word for every literal and match |
| DeflateInflate.InputBack | deps/zlib/inffast.c:50-302 | The tokens of the matcher, written as a block in any full book of codes, never make inflate_fast report an error; what it has written is the beginning of the input, and at the end of the block all of it |
| InflateCodes.MaskAndShift | deps/zlib/inffast.c:106-110 | Masking gives the next bits, shifting leaves the ones after them |
| Gf2.MulIsProduct | deps/zlib/crc32.c:155-170 | The register product is the product of the polynomials modulo the CRC polynomial |
| Gf2.RemainderIsRemainder | deps/zlib/crc32.c:149-170 | Whatever multiple of the polynomial is added to a register's polynomial, the remainder is that register |
| CrcRegister.MultModP | deps/zlib/crc32.c:155-170 | The loop computes this product |
| CrcRegister.X2nModP | deps/zlib/crc32.c:176-187 | x to the n times 2^k, for every n and k, with the wrapped table index |
| CrcPowers.PowerWraps | deps/zlib/crc32.c:176-187 | The table of 32 powers serves every exponent: squaring the last gives the first again |
| CrcRegister.Combine | deps/zlib/crc32.c:1021-1026 | Combining the checksums of A and B with the length of B is the checksum of A followed by B |
| CrcRegister.RegIsRemainder | deps/zlib/crc32.c:694-1010 | The register is the remainder of the message polynomial times x^32 |
| CrcRegister.MakeCrcTable | deps/zlib/crc32.c:310-334 | Every entry of the byte table is eight shift steps of its index |
| CrcBraid.Braid | deps/zlib/crc32.c:528-540 | Every entry of both braid tables is the byte carried past a whole block of braids |
| CrcBraid.BlockStep | deps/zlib/crc32.c:779-836 | A step of all braids stands for taking the whole block of words into one register |
| CrcBraid.FinishIsReg | deps/zlib/crc32.c:838-868 | Folding the braids one after the other gives that register |
| Crc32.MakeTables | deps/zlib/crc32.c:310-469 | All tables the checksum needs, for any number and width of braids |
| Crc32.CrcZ | deps/zlib/crc32.c:694-1010 | For every buffer, length, alignment and start the braided checksum is the byte-at-a-time one, in both byte orders |
| Adler32.AdlerZ | deps/zlib/adler32.c:61-125 | For every length the sums are those reduced at every byte, with no overflow of 32 bits, when both halves come in reduced |
| Adler32.Update | deps/zlib/adler32.c:61-125 | For all 32-bit starts the exact condition for this |
| Adler32.UnreducedHalf | deps/zlib/adler32.c:72-81 | An input on which it fails |
| Adler32.ChecksumHalves | deps/zlib/adler32.c:123-125 | Both halves of a checksum are reduced, so it can be gone on from |
| Adler32.NoOverflow | deps/zlib/adler32.c:11-12 | NMAX bytes fit between reductions |
| Adler32.LateReduction | deps/zlib/adler32.c:96-121 | Reducing late gives what reducing at every byte gives |
| Adler32.Mod63 | deps/zlib/adler32.c:22-58 | The shift-only form is the remainder for every value below 2^63 |
| Adler32.Combine | deps/zlib/adler32.c:133-155 | The joined sums for reduced halves, and the error value for a negative length |
| Adler32.CombineIsConcat | deps/zlib/adler32.c:133-155 | Joined sums of A and B are the sums of A followed by B |

Assertion numbers are those of the `AssertH` calls in the source; each is an `assert` in the method named, or follows
from its contract.

## Findings

Places where the code does not do what its text says or what is asked of it, each with the exact condition and, where it
depends on the input, an input.

- **More selectors than the table holds.** The decoder accepts any number of selectors from 1 to 32767
  (deps/bzip2/decompress.c:289-313) and stores each in tables of 18002 places (deps/bzip2/bzlib_private.h:125, 402-403).
  For every input the stores stay inside the tables except when two to six tables and more than 18002 selectors are
  announced and 18003 of them arrive (`CodingTables.ReceiveSelectors`); for selectors that were sent, except when there are
  more than 18002 (`CodingTables.OverrunsWhen`). `BlockReception.CrowdedOverruns` is a well-formed block for which it
  happens. The model answers with a code of its own, `Overrun`, where the original would store outside. A stream here has at
  most 18002 selectors a block, and the compressor never sends more (`BlockCoding.SelectorsFit`).
- **A corrupt block in the fast form.** `unRLE_obuf_to_output_FAST` works on copies of the fields and leaves on corruption
  without saving them (deps/bzip2/bzlib.c:632-634, 669-679): what it has written in that call is not counted, and a
  further call writes it again. The low-memory form counts it. The two agree if and only if the block's last run has its
  count, or the room ends before the block does, or everything had been written in earlier calls and there is room left
  (`BlockOutput.FormsAgreeWhen`); they differ on the block 7 7 7 7 (`BlockOutput.FormsDiffer`).
- **One byte on an unreduced Adler-32.** `adler32_z` (deps/zlib/adler32.c:72-81) promises a checksum with both halves
  below 65521. Started from any 32-bit value it returns the sums reduced at every byte in all cases but one: a single
  byte added to an upper half that was not reduced. `Adler32.Update` has the condition: with halves `a` and `b`, the
  result is right if and only if the buffer is not one byte long or `b + (a + buf[0]) % 65521 < 131042`; from 65520 and
  65535 and a zero byte the upper sum comes out as 65534 and not 13 (`Adler32.UnreducedHalf`). From reduced
  halves, which is what every earlier call returns, this always holds (`Adler32.AdlerZ`).
- **An empty buffer into no room.** `BZ2_bzBuffToBuffCompress` (deps/bzip2/bzlib.c:1279-1281) answers a destination that
  is too small with `BZ_OUTBUFF_FULL`. For an empty source and a destination of no bytes the call inside makes no progress
  and its `BZ_SEQUENCE_ERROR` is passed on instead; `BufferToBuffer.BuffToBuffCompress` proves that this happens if and
  only if both are empty.
- **Main sort or fallback sort.** The comment at deps/bzip2/blocksort.c:1056-1060 says that the compressed stream does not
  depend on which sort ran. The last column does not (`BlockSort.ColumnsAgree`), but the row number that is sent with it may:
  it is the same for every sorted order if and only if no other rotation equals the block (`BlockSort.OriginUnique`). On
  10000 or more copies of one byte the two sorts do differ: the main sort puts the block in the first row, the fallback sort
  in the last (`BlockSort.SortsDiffer`; `BlockSort.OrderNotUnique` has both orders). Decoding is right either way
  (`BurrowsWheeler.InverseTransform`).
- **Quadrants.** The comment at deps/bzip2/blocksort.c:964-985 gives unequal quadrants a strict order. After the update of
  a big bucket this holds for its rotations if and only if no set of equal rotations is split between two classes of
  `1 << shifts` places (`MainSort.UpdateQuadrants`, `QuadrantOrder.StrictWhen`). Two copies of 4999 noughts and a one are
  a block for which it fails: the bucket of the ones is not the last, so it is updated, and its two equal rotations get the
  quadrants 0 and 1 (`QuadrantOrder.TwoCopiesNotStrict`, `MainSort.TwoCopiesReached`). What always holds, and is all that
  `MainOrder.GtU` and the sorts above it need, is that the order is never the wrong way round.

## Left out

- StreamDecoding.Decoder.BzDecompress: the pieces the input arrives in are given beforehand, and where the original saves
  its place, returns `BZ_OK` and is called again with the next piece, the model goes on from that very place
  (`BitStream.BitReader.Resume`); the labels and saved variables that do this in the original, and a change of the room in
  between, are not modelled. A decoder whose last piece has run out, or that has reported an error, is not meant to be
  called again.
- BlockOutput.DState.UnRleFast: the three loops for randomised, low-memory and plain output share their parts; a local copy
  of the state is an object of its own.
- FileWriting.BzFile.Write, FileWriting.BzFile.WriteClose: writing to the file itself always succeeds; the misuse checks
  (null handles, files open for reading) are not modelled. Nor is the reading side of the file interface.
- BlockPipeline.ReceiveBlock: reads all symbols of a block and then turns them into the column, where the original does both
  in one loop; of several errors in one malformed block another one may be met first.
- BlockCrc.Update: the table entry is computed by eight shift steps; the constants of deps/bzip2/crctable.c are not compared.
- BitStream.BitWriter.W: the output area is a row of bytes that grows (that it stays within `arr2` is proved beside it, in
  `Compressor.EState.CompressBlock`). Or-ing into clear bits is an addition.
- BlockCoding.SendRow: sorting area, block and symbols are separate arrays cut to the block's length and copied between the
  stages. Where the original shares memory and one use destroys the other, the model destroys the contents explicitly
  (`FallbackSort.Sort` the block under the classes, `MtfEncoder` the order under the symbols).
- GroupChoice.ChooseGroups: the unrolled loops for fifty symbols and six tables, here and in `SymbolStream`, are the loops
  they unroll; the counts of uses and of bits for the verbose mode are not modelled.
- FallbackQSort.QSort3, MainQSort.QSort3: the stack is one array of records instead of two or three arrays.
- Compressor.EState.BzCompress: counters of total input and output, memory and null-pointer checks are not modelled.
- MainSort.Sort: the counters and messages of the verbose mode.
- Deflate.Matcher.DeflateSlow, Deflate.Matcher.DeflateFast: the token buffer and the writing of blocks are a log of tokens
  and a free choice of when the buffer is full; `deflate_stored`, the run-length and Huffman-only strategies, dictionaries,
  parameter changes, headers, and the zeroing of the window beyond the data are not modelled (what lies there affects no
  turn: `MatchSteps.SlowInData`), nor the variants FASTEST, UNALIGNED_OK and LIT_MEM.
- Deflate.Matcher.LongestMatch: compares byte by byte and tests for the end at each, not at every eighth.
- InflateFast.Inflater.InflateFast: the decode tables are an input that meets the contract at deps/zlib/inftrees.h:11-36;
  `inflate_table`, which builds them for dynamic codes, is not modelled. `sane` is set, and the variants INFLATE_STRICT and
  INFLATE_ALLOW_INVALID_DISTANCE_TOOFAR_ARRR are not modelled. Registers of the loop are fields.
- FixedCodes.FixedBuilt: the fixed tables are written as a function of the index; the entries of deps/zlib/inffixed.h are
  not compared one by one.
- Crc32.CrcZ: a word is a row of bytes; the table that is built on first use and the ARM instructions are not modelled.
- Adler32.Update: masks and shifts are remainders and quotients.
- Memory allocation, the other file and stdio functions of both libraries, error strings, zlib's `trees.c`, `inflate.c` and
  `inftrees.c`, and everything in the repository outside these two libraries.
