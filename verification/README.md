# Verification of the drone server and its FFmpeg tree

This project models the parts of the repository whose correctness is not obvious from reading one function: the 4XM
decoder, the AAC encoder's two searches, the command trie and dispatcher of the drone server, the picture ring of
ffplay, the accounting of ffserver, the stream selection and frame-rate control of ffmpeg, the 8BPS decoder and the
character renderer of the A64 encoder. Code that updates arrays, objects or globals is written here as Dafny methods
that do the same, each tied by its contract to a function of its inputs or to what the source promises; the promises
that span several functions or whole runs are lemmas about those functions.

`dafny verify dfyconfig.toml` checks everything.

| file | what it models |
|---|---|
| `HuffmanBound`, `HuffmanForest`, `HuffmanDepth`, `HuffmanSides`, `HuffmanTables` | `read_huffman_tables` of 4xm.c: the ranges in the stream, the merge loop, the reading of the code words; optimality, prefix-freeness, decoding, the depth bound, and which bit each of two merged entries gets |
| `PBlockTree`, `PBlockCoding`, `PBlock`, `PBlockFrames` | `decode_p_block`, `mcdc` and the block loop of `decode_p_frame` in 4xm.c; every pixel of a frame in terms of the last picture and the words read |
| `AacSections`, `AacBandCosts`, `AacBandBound`, `AacBandInfo` | `encode_window_bands_info` of aaccoder.c: the search, the backtracking, the writer, what the result costs once written, and how far that is from the cheapest |
| `AacQuantizers` | `search_for_quantizers_twoloop` of aaccoder.c, `encode_scale_factors` of aacenc.c, and the grouping of short windows of aacpsy.c |
| `Trie` | src/data_structures/trie.c |
| `ControlStream`, `ControlServer` | src/control/control_server.c and the handlers of src/control/control_handlers.c |
| `PictureQueue` | the picture ring and frame clock of ffplay.c, as a state machine over the accesses of its two threads to what they share |
| `FFServer` | connections, bandwidth and feeds of ffserver.c, and the pass of its main loop over the list |
| `StreamSelection` | the choice of an input stream for every output stream in `transcode` of ffmpeg.c |
| `FrameSync` | the dropping and repeating of pictures in `do_video_out` of ffmpeg.c |
| `EightBps` | `decode_frame` of 8bps.c |
| `CharsetRenderer` | `render_charset` of a64multienc.c |
| `Bits`, `Sums` | bit strings as numbers, runs of equal elements, and sums over sequences |

## What was found

- The merge loop of 4xm.c has room for 255 merges. With all 257 symbols live it stops one merge short: two roots are
  left, both with an empty path, the Kraft sum is 2, and the words are not a prefix code. With at most 256 live symbols
  they are one. `HuffmanPrefixFree` states this as an equivalence.
- The question in the source whether the length overflow "can happen at all" has the answer no: no word is longer than
  22 bits, because a node of height h weighs at least Fib(h + 2) and all weights together are below 256 * 256. For the
  same reason the sentinel 256 * 256 is never mistaken for a weight.
- The section search of the AAC encoder finds the cheapest assignment of books to write exactly for windows of at most
  30 long or 6 short bands (`AlwaysBestIff`), and it does so even across zero bands, where the running minimum is kept
  from before them. From the first run length on that takes an escape, a path that is cheaper so far displaces one that
  will not need the escape; `CheaperIs` gives such costs for every larger number of bands. For any number of bands the
  result is within a number of escapes of every other assignment, counted along that assignment by `Missed`: at most one
  for each of its changes of book, one for every 30 long or 6 short bands, and, where bands are zero or there are more
  than 61 or 13, one for every 31 or 7 (`NeverFar`, `SlackAtMost`). The bound is reached with 31 long or 7 short bands,
  where it is one escape (`BoundReached`).
- The tables of run lengths of the section search say 10 bits for a run of 62 long bands and 6 for one of 14 short ones;
  the writer takes 15 and 9. For every other run they are right (`TableMatchesCode`).
- The two-loop search spends spare bits: with every count within the budget and nothing too distorted it makes all ten
  rounds and ends each band 72 below its start, or 62 below the lowest band heard (`SpareBitsSpent`).
- A character of the A64 renderer that needs both ends of the gradient is moved to the nearest one that does without one
  of them (`SettledIsNearest`).
- `rtp_new_connection` charges for the bandwidth of a stream whatever its type is, `close_connection` gives it back only
  for live streams. `RtpNewConnection` states exactly when the total stays right.
- The main loop of ffserver saves the successor of a connection before it handles it. When an RTSP client sends a
  TEARDOWN for the very session that comes next in the list, the loop goes on to a freed connection. A pass visits only
  listed connections if and only if this does not happen (`Pass`), and it does happen when a second client, connected
  after the SETUP, tears down the first one's session (`TeardownOfSuccessor`).
- The assertion of ffplay that the next picture is not due earlier reads two clocks without the mutex. It holds if and only
  if it is not the case that a flush had zeroed the next clock when it was read but not the other (`AssertionHoldsIff`).
  With the other clock read first, a flush in between breaks it (`FlushBreaksAssertion`); with the next one read first,
  only a reading between the two stores of the flush does (`NextFirstFailsIff`).
- Both threads of ffplay add to the frame timer without protection. An addition that overwrites another one can set the
  timer back below the clock of a queued picture, and the assertion then fails without any flush
  (`LostUpdateBreaksAssertion`); `ClocksKept` says exactly which writes keep the clocks in order, for a program that reads
  the timer again for the target as for one that keeps the sum. These are exactly the writes after which the assertion
  can only fail by a flush (`LandsIff`, and `AllLandIff` for whole runs): after any other one, wherever the video thread
  stands and whether or not there is room in the ring, the two threads can go on so that it fails.
- The control server reads at most 300 bytes of a datagram, and exits on an empty one. A datagram of whole commands is
  dispatched completely, and the server goes on, if and only if there is a command, and the bytes fit or only arguments
  that nobody reads are cut off (`DispatchedIff`).
- `insert_kv_pair_to_trie` copies the key through the pointer its caller gave to `insert_to_trie`, exactly when the key
  has a handler (`InsertKeyValue`).
- The search for the frame threshold never costs an output its input: as many inputs are found with it as without it
  (`EnoughIffUsable`), and the outputs share an input exactly when there are not enough (`SelectStreams`).
- The frame-rate control keeps its drift within 2.1 frames behind and half a frame ahead if and only if the first
  picture is at most 2.1 frames behind (`DriftBoundedIff`).

## Model

| member | source | states |
|---|---|---|
| HuffmanTables.TwoSmallest | FFMPEG/ffmpeg/libavcodec/4xm.c:565-578 | the scan finds the least and second least live frequency, the earlier entry first on ties; a minimum left at the sentinel means there was none |
| HuffmanTables.MergeEntries | FFMPEG/ffmpeg/libavcodec/4xm.c:581-586 | the in-place update is one merge of the forest: links, sides, weight, and both merged entries emptied; SiblingWords says what the sides mean |
| HuffmanTables.BuildForest | FFMPEG/ffmpeg/libavcodec/4xm.c:564-587 | the arrays end as the forest made by always merging the two lightest roots until one is left or the entries run out |
| HuffmanTables.ReadCode | FFMPEG/ffmpeg/libavcodec/4xm.c:590-601 | length and bits read from the leaf up are those of the path from the root down |
| HuffmanTables.ReadCodes | FFMPEG/ffmpeg/libavcodec/4xm.c:589-602 | so for all 257 symbols |
| HuffmanTables.ReadFrequencies | FFMPEG/ffmpeg/libavcodec/4xm.c:547-562 | the table read is what the range grammar denotes, with the end symbol set to 1, and reading stops at the next multiple of 4 |
| HuffmanTables.ReadRange | FFMPEG/ffmpeg/libavcodec/4xm.c:552-554 | the frequencies from start to end, both included, are the next bytes, none if start is above end, and no other one changes |
| HuffmanTables.ParseWritten | FFMPEG/ffmpeg/libavcodec/4xm.c:547-560 | reading back any ranges an encoder writes gives the table they describe and the position behind them |
| HuffmanTables.OverlayAt | FFMPEG/ffmpeg/libavcodec/4xm.c:551-560 | where ranges overlap, the last one says what an entry is; OverlayKeeps says that an entry of no range keeps its value |
| HuffmanTables.ReadHuffmanTables | FFMPEG/ffmpeg/libavcodec/4xm.c:534-609 | the code table holds, as length and value, exactly the words of the forest built from the frequencies read, at most 22 bits long; of two symbols merged with one another the less frequent, or the earlier of two as frequent, has an even value and the other the next one |
| HuffmanTables.SiblingWords | FFMPEG/ffmpeg/libavcodec/4xm.c:564-602 | of two entries merged into one the lighter, or the earlier of two as heavy, has the word of that entry and a 0, the other has it and a 1; the entry weighs as much as both |
| HuffmanTables.EntriesPair | FFMPEG/ffmpeg/libavcodec/4xm.c:564-602 | every entry but the roots is one of two; symbols weigh their frequencies, and roots have the empty word |
| HuffmanTables.LightestFirst | FFMPEG/ffmpeg/libavcodec/4xm.c:564-587 | an entry that was there when another one was merged, and stayed, is heavier, or as heavy and later in the table |
| HuffmanTables.HuffmanOptimal | FFMPEG/ffmpeg/libavcodec/4xm.c:564-602 | for any frequency table no prefix code on the same live symbols has a smaller sum of frequency times length |
| HuffmanTables.HuffmanKraft | FFMPEG/ffmpeg/libavcodec/4xm.c:564-602 | the Kraft sum is exactly 1, or exactly 2 when all 257 symbols are live |
| HuffmanTables.HuffmanPrefixFree | FFMPEG/ffmpeg/libavcodec/4xm.c:564-602 | the words are a prefix code if and only if at most 256 symbols are live |
| HuffmanTables.HuffmanDecodes | FFMPEG/ffmpeg/libavcodec/4xm.c:564-602 | for 2 to 256 live symbols decoding inverts encoding for every symbol sequence |
| HuffmanTables.HuffmanShort | FFMPEG/ffmpeg/libavcodec/4xm.c:594-598 | no word is longer than 22 bits, so the overflow branch is dead |
| HuffmanDepth.WeightBelowSentinel | FFMPEG/ffmpeg/libavcodec/4xm.c:565-579 | while the total weight is conserved no entry reaches the sentinel 256 * 256 |
| HuffmanDepth.ClimbFibonacci | FFMPEG/ffmpeg/libavcodec/4xm.c:564-598 | a root above a path of length n weighs at least Fib(n + 2) |
| HuffmanBound.KraftLowerBound | FFMPEG/ffmpeg/libavcodec/4xm.c:564-587 | any lengths meeting Kraft's inequality cost at least what repeated merging of the two lightest costs |
| HuffmanBound.PrefixKraft | FFMPEG/ffmpeg/libavcodec/4xm.c:589-602 | every prefix code meets Kraft's inequality |
| HuffmanBound.DecodeEncode | FFMPEG/ffmpeg/libavcodec/4xm.c:589-606 | with any prefix code of two or more live words decoding undoes encoding |
| HuffmanForest.FinishSums | FFMPEG/ffmpeg/libavcodec/4xm.c:564-587 | the cost of the depths is the sum of all merges made, and merging conserves the Kraft sum |
| HuffmanForest.FinishCount | FFMPEG/ffmpeg/libavcodec/4xm.c:564-580 | how many roots are left when the loop ends |
| HuffmanForest.PathPrefix | FFMPEG/ffmpeg/libavcodec/4xm.c:589-602 | in a single tree a word that starts another belongs to the same leaf or to an inner node |
| PBlockTree.ExactlyOneMatch | FFMPEG/ffmpeg/libavcodec/4xm.c:41-63 | each of the eight block type tables is a complete prefix code: whatever the bits, exactly one symbol matches |
| PBlockTree.LengthsAre | FFMPEG/ffmpeg/libavcodec/4xm.c:41-63 | how long the code of a symbol is, by its rank among those the table has: unary in the newer format, two or three bits in the older one |
| PBlockTree.CodesInOrder | FFMPEG/ffmpeg/libavcodec/4xm.c:41-63 | the codes are in the order of the symbols, only the skip of the older format comes first |
| PBlockTree.ReadSymbol | FFMPEG/ffmpeg/libavcodec/4xm.c:321-328 | the symbol read for a block size is one that size allows, so no split reaches the 1x1 entry |
| PBlockTree.LeavesTile | FFMPEG/ffmpeg/libavcodec/4xm.c:321-365 | the leaves of any partition tile its block: outside never stored, inside at most once, exactly once when every leaf stores |
| PBlockTree.ReadsUnique | FFMPEG/ffmpeg/libavcodec/4xm.c:321-365 | the streams and the place of a block determine the partition read |
| PBlockCoding.SymbolRead | FFMPEG/ffmpeg/libavcodec/4xm.c:41-70 | the code word of an allowed symbol is read as that symbol, whatever follows |
| PBlockCoding.TablesCoded | FFMPEG/ffmpeg/libavcodec/4xm.c:41-70 | so for every symbol, size and position of both formats |
| PBlockCoding.WrittenIsRead | FFMPEG/ffmpeg/libavcodec/4xm.c:321-365 | any legal partition written to the three streams is read back, and nothing more is consumed |
| PBlock.MovedAsWord | FFMPEG/ffmpeg/libavcodec/4xm.c:273-278 | one 32-bit addition moves two pixels, the left one's carry going into the right one |
| PBlock.Decoder.Move | FFMPEG/ffmpeg/libavcodec/4xm.c:280-319 | with scale 1 exactly the pixels of the block become the moved source pixels plus dc; CopyShows, StillShows and CopyAddShows say which these are |
| PBlock.CopyShows | FFMPEG/ffmpeg/libavcodec/4xm.c:330-336 | a copied pixel is the one of the last picture that is the displacement of its vector away |
| PBlock.StillShows | FFMPEG/ffmpeg/libavcodec/4xm.c:345-346 | a skip of the older format shows the pixel of the last picture at the same place |
| PBlock.CopyAddShows | FFMPEG/ffmpeg/libavcodec/4xm.c:347-353 | a copy with an addition adds the word to each pixel of a block one wide; in a wider one the two pixels of an even pair are the halves of one 32-bit sum |
| PBlock.InPictureIff | FFMPEG/ffmpeg/libavcodec/4xm.c:327-333 | a vector passes the test if and only if the rows it points to, as wide and as many as those of the block, lie in the picture |
| PBlock.Decoder.FillWith | FFMPEG/ffmpeg/libavcodec/4xm.c:280-319 | with scale 0 exactly the pixels of the block become dc |
| PBlock.Decoder.DecodePBlock | FFMPEG/ffmpeg/libavcodec/4xm.c:321-365 | terminates, consumes exactly the partition in the streams, draws its leaves over the picture and nothing else, and the first symbol read decides what it is |
| PBlock.Decoder.DecodeLeaf | FFMPEG/ffmpeg/libavcodec/4xm.c:330-364 | the leaf each code stands for, the bytes and words it takes, and what it draws: for copies and older skips, pixel by pixel, what the last picture has the displacement away, with or without the addition |
| PBlock.Decoder.DecodeCopy | FFMPEG/ffmpeg/libavcodec/4xm.c:330-336 | it copies if and only if all the rows the vector points to lie in the picture; otherwise it draws nothing and takes no word |
| PBlock.Decoder.DecodePair | FFMPEG/ffmpeg/libavcodec/4xm.c:356-363 | two words, side by side or one below the other |
| PBlock.DecodePFrame | FFMPEG/ffmpeg/libavcodec/4xm.c:409-415 | for any sides the frame is one legal partition per 8x8 block that covers it, in order, each drawn at its place, past the picture too; FramePixel says what each pixel then is |
| PBlock.FrameTiles | FFMPEG/ffmpeg/libavcodec/4xm.c:409-415 | over a frame each pixel is stored at most once, and exactly once when its block has no skip or out-of-picture vector |
| PBlock.PaintedByItsLeaf | FFMPEG/ffmpeg/libavcodec/4xm.c:321-415 | a pixel ends up with what its one leaf stores, in whatever order the leaves are drawn |
| PBlock.SourceReadable | FFMPEG/ffmpeg/libavcodec/4xm.c:332-352 | a vector that passes the test reads only inside the last picture |
| PBlockFrames.LeavesCover | FFMPEG/ffmpeg/libavcodec/4xm.c:321-365 | the leaves of a legal block cover each of its pixels exactly once, and no other pixel |
| PBlockFrames.FramePixel | FFMPEG/ffmpeg/libavcodec/4xm.c:409-415 | every pixel of a decoded frame is in one leaf and is what that leaf says: copied from the last picture the displacement away, with an addition or not, kept, copied from the same place, or given by a word |
| PBlockFrames.OutsideKept | FFMPEG/ffmpeg/libavcodec/4xm.c:409-415 | pixels outside of the blocks are kept |
| AacSections.FillTable | FFMPEG/ffmpeg/libavcodec/aaccoder.c:327-376 | the path array is the table of the search's recurrence, with the running minimum, its first book on ties, frozen over zero bands |
| AacSections.TableUnique | FFMPEG/ffmpeg/libavcodec/aaccoder.c:327-376 | the zero bands and costs determine that table, points and running minima |
| AacSections.CostIsAttained | FFMPEG/ffmpeg/libavcodec/aaccoder.c:332-376 | following prev from a point gives a choice of books costing no more than the point says, for any number of bands |
| AacSections.CostIsLowerBound | FFMPEG/ffmpeg/libavcodec/aaccoder.c:332-376 | no choice ending in a book costs less than its point or than changing from the cheapest point |
| AacSections.RunOfChosen | FFMPEG/ffmpeg/libavcodec/aaccoder.c:385-392 | a stored run is at least 1 and leads back to where its book was entered |
| AacSections.Backtrack | FFMPEG/ffmpeg/libavcodec/aaccoder.c:379-392 | terminates, and the stacked runs expand to exactly the chosen books |
| AacSections.WriteSections | FFMPEG/ffmpeg/libavcodec/aaccoder.c:394-409 | the bits are the sections' code, and band_type and zeroes are marked accordingly and nowhere else |
| AacSections.SectionsParsed | FFMPEG/ffmpeg/libavcodec/aaccoder.c:395-409 | parsing the sections by section 4.6.3 of ISO/IEC 14496-3 returns the book of every band and stops behind them |
| AacBandCosts.CheapestIsOptimal | FFMPEG/ffmpeg/libavcodec/aaccoder.c:325-392 | while every run costs the same, the backtracked books minimise band costs plus change costs over all assignments, zero bands included |
| AacBandCosts.SectionsAreRuns | FFMPEG/ffmpeg/libavcodec/aaccoder.c:394-409 | the length of the bits written is determined by the maximal runs of the assignment |
| AacBandCosts.BestWhenShort | FFMPEG/ffmpeg/libavcodec/aaccoder.c:325-409 | up to 30 long or 6 short bands that assignment has the least band costs plus bits written |
| AacBandCosts.TableMatchesCode | FFMPEG/ffmpeg/libavcodec/aaccoder.c:43-58 | the table of run lengths says what the writer takes for every run it covers, if and only if the run is not 62 long or 14 short bands |
| AacBandBound.Follow | FFMPEG/ffmpeg/libavcodec/aaccoder.c:332-376 | whatever the choice, the least cost of a row exceeds the choice's by at most the escapes counted along it, zero bands included |
| AacBandBound.PathIsWritten | FFMPEG/ffmpeg/libavcodec/aaccoder.c:332-409 | without zero bands, and for at most 61 long or 13 short bands, what a point stands for is written at no more than the point's cost and that of a section |
| AacBandBound.NeverFar | FFMPEG/ffmpeg/libavcodec/aaccoder.c:311-410 | for any costs and number of bands the choice found, once written, costs at most so many escapes more than any other choice costs without its own escapes |
| AacBandBound.SlackAtMost | FFMPEG/ffmpeg/libavcodec/aaccoder.c:311-410 | that number in terms of the other choice's changes and the number of bands |
| AacBandInfo.BoundReached | FFMPEG/ffmpeg/libavcodec/aaccoder.c:311-410 | with 31 long or 7 short bands there are costs for which what is found costs exactly that much more, one escape |
| AacBandInfo.CheaperIs | FFMPEG/ffmpeg/libavcodec/aaccoder.c:325-409 | from 31 long or 7 short bands on there are costs, none of them zero, for which another assignment is cheaper to write than the one taken, by exactly one escape |
| AacBandInfo.AlwaysBestIff | FFMPEG/ffmpeg/libavcodec/aaccoder.c:325-409 | for all costs and zero bands the search finds the cheapest assignment to write, if and only if there are at most 30 long or 6 short bands |
| AacBandInfo.EncodeWindowBandsInfo | FFMPEG/ffmpeg/libavcodec/aaccoder.c:311-410 | for any number of bands the books are those of the first cheapest point of the search, the written bits parse back to the marked books, and no assignment is cheaper by more than a bounded number of escapes; up to 30 long or 6 short bands none is cheaper at all |
| AacQuantizers.GroupWindows | FFMPEG/ffmpeg/libavcodec/aacpsy.c:449-460 | whatever the mask, the groups tile the eight windows, and whether a window's length is 0, which put_ics_info writes, is the bit of the mask |
| AacQuantizers.GroupedShortWindows | FFMPEG/ffmpeg/libavcodec/aacpsy.c:372-374 | a frame grouped by the first mask of the table is one the searches below accept; they visit the bands of windows 0, 3 and 6, the windows the mask leaves clear |
| AacQuantizers.CountBits | FFMPEG/ffmpeg/libavcodec/aaccoder.c:761-799 | every lookup of scalefactor bits and of the power tables is in range, and the least scalefactor of the bands counted is kept |
| AacQuantizers.RaiseKeeps | FFMPEG/ffmpeg/libavcodec/aaccoder.c:800-803 | raising by the step keeps every two bands within 60 and leaves room for the steps to come |
| AacQuantizers.LowerKeeps | FFMPEG/ffmpeg/libavcodec/aaccoder.c:804-808 | lowering by the step does too; WithinBudget says by how much |
| AacQuantizers.InnerLoop | FFMPEG/ffmpeg/libavcodec/aaccoder.c:757-812 | ends for every outcome of the tests, and keeps the bands within 60 of each other; it is the passes returned, ends with the count at most 2 percent over or the first scalefactor at 217 or above, and returns the least scalefactor counted, or the first one |
| AacQuantizers.PassesMean | FFMPEG/ffmpeg/libavcodec/aaccoder.c:800-812 | what these passes are: one over the budget raises every scalefactor below 218 less the step by exactly the step, any other one lowers every one above 60 less the step, no other one changes, the steps halve, and 1 is repeated exactly on the condition of the source |
| AacQuantizers.WithinBudget | FFMPEG/ffmpeg/libavcodec/aaccoder.c:757-812 | from step 32 with every count within the budget there are six passes, and exactly the scalefactors of 122 and above end 63 lower |
| AacQuantizers.OverBudget | FFMPEG/ffmpeg/libavcodec/aaccoder.c:757-812 | with the first six counts over it, exactly those of 154 and below are 63 higher after them |
| AacQuantizers.AdjustBands | FFMPEG/ffmpeg/libavcodec/aaccoder.c:814-831 | every band ends in one window of 60: where it was, or 1 or 2 finer if it is above 60, and if that is outside at the nearest end of the window; the flag says whether any has changed |
| AacQuantizers.InitialScalefactors | FFMPEG/ffmpeg/libavcodec/aaccoder.c:709-738 | for any grouping and whatever bands are quiet, a band that is not heard starts at 140 and any other one within 59 above it, and the flag says whether one is heard |
| AacQuantizers.SearchForQuantizers | FFMPEG/ffmpeg/libavcodec/aaccoder.c:693-834 | ends, and on return all bands lie in one window of 60 within 60..219; there is no round exactly if no band is heard, and else there are rounds until one changes nothing behind its inner loop, or ten |
| AacQuantizers.SpareBitsSpent | FFMPEG/ffmpeg/libavcodec/aaccoder.c:750-834 | with every count within the budget and no band too distorted it makes ten rounds, and each band ends 72 below its start, or 62 below the lowest start of a band heard if that is higher |
| AacQuantizers.DifferencesDecode | FFMPEG/ffmpeg/libavcodec/aacenc.c:396-409 | adding the coded differences up again gives the scalefactors (section 4.6.2 of ISO/IEC 14496-3) |
| AacQuantizers.GroupIsCoded | FFMPEG/ffmpeg/libavcodec/aacenc.c:399-408 | the scalefactors coded for a group without a zero band are all of its bands up to max_sfb, in order, before those of the next group |
| AacQuantizers.EncodeScaleFactors | FFMPEG/ffmpeg/libavcodec/aacenc.c:393-410 | after the search every difference the writer codes is an index 0..120, and they decode to the scalefactors |
| Trie.TernaryTrie.TraverseToChildChar | src/data_structures/trie.c:174-189 | from a level it reaches the level of one more character, or none when no key goes on so |
| Trie.TernaryTrie.Find | src/data_structures/trie.c:174-189 | folding the traversal over a key from the root finds exactly the handler and value stored for it |
| Trie.TernaryTrie.UnderStep | src/data_structures/trie.c:176-184 | below a node the nodes of its level are on the side their character says |
| Trie.TernaryTrie.Walk | src/data_structures/trie.c:131-168 | ends, reaches the key's node, adds only the prefixes of the key, and keeps order, blank nodes, parent links and all contents |
| Trie.TernaryTrie.InsertHandler | src/data_structures/trie.c:120-172 | what is stored, handler, value and key pointer, changes at this key and nowhere else: it gets this handler and the caller's pointer |
| Trie.TernaryTrie.InsertKeyValue | src/data_structures/trie.c:59-118 | what is stored changes at this key and nowhere else: it gets this value; the key's handler is returned, and the key is copied through its caller's pointer exactly if there is one |
| ControlServer.CreateControlCommandTrie | src/control/control_server.c:25-37 | the trie holds exactly the nine registered names with their handlers; NamesHandled spells them out |
| ControlServer.NamesHandled | src/control/control_server.c:29-37 | which name has which handler |
| ControlServer.TrieIsProper | src/control/control_server.c:25-37 | the names are known letter by letter, as the dispatcher needs them |
| ControlServer.Session.ControlReadArgs | src/control/control_handlers.c:32-54 | stops at the first carriage return and returns where the arguments start, or exits when there is none |
| ControlServer.Session.RunHandler | src/control/control_handlers.c:56-184 | of a command whose number is not lower than the last one passed on a REF passes on bit 9 of its control word as start and bit 8 as select, a PCMD or PCMD_MAG its own control word and values, with the magneto ones exactly for PCMD_MAG; CTRL answers control word 4; nothing else is passed on, and all of it is what sscanf makes of the buffer from the arguments on |
| ControlServer.HandleDatagram | src/control/control_server.c:76-114 | the node, the calls and what is passed on after a datagram are those of the scan over its bytes |
| ControlServer.Receive | src/control/control_server.c:78-86 | an empty datagram ends the program, of a longer one at most 300 bytes are read, and behind them the buffer keeps what it held; what is passed on is what these bytes ask for |
| ControlServer.ControlListen | src/control/control_server.c:45-119 | so over any sequence of datagrams of any length, the node and the buffer carrying over, until one ends the program |
| ControlStream.ScanCommands | src/control/control_server.c:87-113 | in a datagram of whole commands each handler is called once, in order, at its first argument byte, and every byte is consumed; a name that starts another is told apart |
| ControlStream.ScanPass | src/control/control_server.c:106-113 | a byte that calls no handler prolongs the letters matched so far, or is lost together with them |
| ControlStream.ListenToCommands | src/control/control_server.c:74-114 | so over any sequence of such datagrams of 1 to 300 bytes |
| ControlStream.ScanIsCut | src/control/control_server.c:78-113 | what becomes of whole commands of which only the first bytes are received |
| ControlStream.DispatchedIff | src/control/control_server.c:78-113 | a datagram of whole commands is dispatched completely, without an exit, if and only if there is a command and the bytes fit the buffer, or all but arguments the last handler does not read do |
| ControlStream.RefAsksFor | src/control/control_handlers.c:85-100 | a REF with control word 1024 k + 512 a + 256 b + r asks for start a and select b, and nothing else |
| ControlStream.PcmdAsksFor | src/control/control_handlers.c:142-184 | a PCMD asks for its control word and values without the magneto ones, a PCMD_MAG with them |
| ControlStream.OneCommandAsksFor | src/control/control_server.c:76-113 | a datagram of one whole command asks for what its handler makes of the bytes behind the equals sign |
| ControlStream.RefDatagram | src/control/control_handlers.c:85-100 | so a datagram of one REF asks for the start and select bits of its control word |
| ControlStream.GateOrders | src/control/control_handlers.c:95-99 | the numbers of orders passed on never decrease, and the last one kept is the highest ever sent; replies are not gated |
| PictureQueue.CountsKept | FFMPEG/ffmpeg/ffplay.c:1328-1426 | every access of either thread keeps size and indices in agreement with what was queued and shown |
| PictureQueue.ContentsKept | FFMPEG/ffmpeg/ffplay.c:1112-1213 | every access keeps the pending pictures in their slots |
| PictureQueue.ClocksKept | FFMPEG/ffmpeg/ffplay.c:1059-1109 | every access keeps the target clocks in order and behind the frame timer, except exactly an unpausing whose sum is below a pending target, or one fixed already, and is not itself overwritten |
| PictureQueue.FreshRunsLand | FFMPEG/ffmpeg/ffplay.c:1059-1109 | in a run in which no write of the timer overwrites another one unseen, no unpausing is such an exception |
| PictureQueue.RunKeepsContents | FFMPEG/ffmpeg/ffplay.c:1112-1213 | sizes, indices and contents over every run of every interleaving |
| PictureQueue.RunKeepsInv | FFMPEG/ffmpeg/ffplay.c:1059-1213 | and the clocks over every run without such an exception |
| PictureQueue.RingIsSafe | FFMPEG/ffmpeg/ffplay.c:1112-1213 | in every run the producer never fills or completes a slot the main thread may read, the size stays in 0..2, and pictures leave in the order queued |
| PictureQueue.QueuedAlone | FFMPEG/ffmpeg/ffplay.c:1071-1109 | undisturbed, a picture is due when the frame timer has moved on by the time from the last picture to it, if that is between 0 and 10 seconds, and else by the delay before; not at all or twice as far to follow the master clock |
| PictureQueue.ShownAlone | FFMPEG/ffmpeg/ffplay.c:1112-1213 | it is shown if and only if it is due when the main thread looks, and the video clock then runs from its time |
| PictureQueue.UnpausedAlone | FFMPEG/ffmpeg/ffplay.c:1059-1069 | unpausing moves the frame timer on by the time since the picture was shown; the video clock goes on from there, or where the input cannot pause from the time of the picture |
| PictureQueue.FlushedAlone | FFMPEG/ffmpeg/ffplay.c:1437-1457 | a flush of an empty ring leaves target clocks and delay at 0, no last time, and the frame timer at the time of day |
| PictureQueue.AssertionHoldsIff | FFMPEG/ffmpeg/ffplay.c:1135-1138 | in a run without such an exception, with both clocks read in either order, the assertion holds if and only if it is not so that the next one was read as zeroed by a flush and this one as not, and not 0 |
| PictureQueue.LandsIff | FFMPEG/ffmpeg/ffplay.c:1059-1138 | from a state in order, a step is no such exception if and only if after it the assertion can only fail by a flush, for all that can follow without another one |
| PictureQueue.AllLandIff | FFMPEG/ffmpeg/ffplay.c:1059-1138 | so a run has no such exception if and only if none of its states lets the assertion fail without a flush |
| PictureQueue.NextFirstFailsIff | FFMPEG/ffmpeg/ffplay.c:1135-1138 | there, with the next clock read first, it fails if and only if this one is read between the two stores of the flush |
| PictureQueue.FlushBreaksAssertion | FFMPEG/ffmpeg/ffplay.c:1137-1137 | with this clock read first, a run from the start of the program in which it fails, whole flush loop in between and no such exception |
| PictureQueue.LostUpdateBreaksAssertion | FFMPEG/ffmpeg/ffplay.c:1062-1103 | a run from the start of the program in which it fails though the next clock is no zeroed one, because an unpausing overwrote the update of a queued picture |
| PictureQueue.TimerGoesBackOnlyIf | FFMPEG/ffmpeg/ffplay.c:1437-1457 | the frame timer goes back only at the end of a flush, which waits for the ring to drain unless aborted, or when an update is lost |
| FFServer.Server.NewConnection | FFMPEG/ffmpeg/ffserver.c:763-810 | refused exactly at the limit; otherwise the new connection leads the list and all accounts agree |
| FFServer.Server.RtpNewConnection | FFMPEG/ffmpeg/ffserver.c:3301-3362 | refused exactly at the limit; the accounts agree exactly if it was refused or the stream is live or has no bandwidth |
| FFServer.Server.RtpNewAvStream | FFMPEG/ffmpeg/ffserver.c:3429-3433 | a session's carrier is a connection in the list, and the accounts still agree |
| FFServer.Server.HttpStartReceiveData | FFMPEG/ffmpeg/ffserver.c:2569-2609 | takes the feed exactly when it is free, writable and can be opened |
| FFServer.Server.HttpParseRequest | FFMPEG/ffmpeg/ffserver.c:1447-1856 | exactly a POST that the version, the stream, its feed and the disk allow starts receiving, other requests are answered or refused; the bandwidth grows by that of a live stream for a GET, also when it is then refused |
| FFServer.Server.CloseConnection | FFMPEG/ffmpeg/ffserver.c:812-897 | just this connection leaves the list, the bandwidth of its live stream is given back unless it was a POST, its feed is free, and nobody refers to it |
| FFServer.Server.HttpReceiveDataFails | FFMPEG/ffmpeg/ffserver.c:2755-2764 | the feed is free and the feeder closed; of the connections left exactly those that waited for data of the same feed change their state, to sending the trailer |
| FFServer.Server.BandwidthCovers | FFMPEG/ffmpeg/ffserver.c:883-884 | what is given back at closing never exceeds the total, so the unsigned counter does not wrap below zero |
| FFServer.Server.NothingOpenWhenEmpty | FFMPEG/ffmpeg/ffserver.c:812-897 | without connections the counters are zero and no feed is marked opened |
| FFServer.Server.HandleConnection | FFMPEG/ffmpeg/ffserver.c:899-1010 | handling a connection, and closing it if that fails, keeps all accounts in agreement; at most one connection leaves the list, a TEARDOWN taking the session, or one is put in front |
| FFServer.GoesOn | FFMPEG/ffmpeg/ffserver.c:708-714 | the successor saved is still in the list if and only if the visit did not tear it down, and is then nearer to the end |
| FFServer.Server.Pass | FFMPEG/ffmpeg/ffserver.c:708-715 | a pass from the head on, each visit going where the one before it saved, ends, keeps the accounts, and visits only listed connections if and only if no visit tears down the successor saved |
| FFServer.TeardownOfSuccessor | FFMPEG/ffmpeg/ffserver.c:3277-3295 | a reachable server in which the first visit of a pass tears down the successor saved |
| FFServer.Server.Run | FFMPEG/ffmpeg/ffserver.c:624-730 | in every state reached by any rounds of the loop: the count is the list's length and within the limit, the bandwidth is the sum of the charges, a feed is opened exactly when one connection feeds it, every carrier is in the list; and all connections visited are listed if and only if no visit hits the successor saved |
| StreamSelection.CountFound | FFMPEG/ffmpeg/ffmpeg.c:2074-2098 | how many usable inputs of each type meet its threshold |
| StreamSelection.FindThresholds | FFMPEG/ffmpeg/ffmpeg.c:2073-2102 | the bit-by-bit search yields the largest threshold below 2^31 met by as many inputs as there are outputs, or 0 if none is |
| StreamSelection.FindFirst | FFMPEG/ffmpeg/ffmpeg.c:2127-2149 | the first eligible input, and one is found exactly when one is left |
| StreamSelection.FindReusable | FFMPEG/ffmpeg/ffmpeg.c:2154-2161 | the last input of the type that is not thrown away |
| StreamSelection.Assign | FFMPEG/ffmpeg/ffmpeg.c:2103-2178 | each output gets the first input left that meets the threshold; an input is reused exactly when none is left, and then the last of its type, and the program stops exactly when nothing can be reused either |
| StreamSelection.AssignMapped | FFMPEG/ffmpeg/ffmpeg.c:2110-2122 | with maps each output gets the mapped input, refused exactly on a type mismatch |
| StreamSelection.SourceIs | FFMPEG/ffmpeg/ffmpeg.c:2123-2178 | the input of an output is of its type, not thrown away, of the program asked for and seen as often as the threshold says; no such input before it was left, or it is used again and no usable one of its type is behind it |
| StreamSelection.MostFramesWin | FFMPEG/ffmpeg/ffmpeg.c:2073-2178 | the only output of a type gets the usable input of which the most frames were seen, the first of several |
| StreamSelection.DistinctIffEnough | FFMPEG/ffmpeg/ffmpeg.c:2103-2178 | no two outputs share an input if and only if every type has enough |
| StreamSelection.SourcesInOrder | FFMPEG/ffmpeg/ffmpeg.c:2103-2178 | outputs of one type take their inputs in increasing order |
| StreamSelection.EnoughIffUsable | FFMPEG/ffmpeg/ffmpeg.c:2073-2102 | the threshold never makes a sufficient number of inputs insufficient |
| StreamSelection.SelectStreams | FFMPEG/ffmpeg/ffmpeg.c:2067-2178 | with enough usable inputs the selection succeeds with distinct inputs at or above the threshold; inputs are distinct only then |
| FrameSync.VideoOutput.DoVideoOut | FFMPEG/ffmpeg/ffmpeg.c:1167-1332 | the counters and the frames written for one picture, with their timestamps, in all vsync modes and at the frame limit |
| FrameSync.VideoOutput.EncodeAll | FFMPEG/ffmpeg/ffmpeg.c:1167-1332 | and for a run of pictures, one after the other |
| FrameSync.Modes | FFMPEG/ffmpeg/ffmpeg.c:1174-1186 | which methods give a constant and which a variable rate |
| FrameSync.DroppedIff | FFMPEG/ffmpeg/ffmpeg.c:1174-1195 | a picture is dropped if and only if it is beyond 1.1 frames behind at a constant rate, or 0.6 at a variable one; it then changes nothing else |
| FrameSync.RepeatedIff | FFMPEG/ffmpeg/ffmpeg.c:1184-1195 | it is repeated only at a constant rate, and as often as brings the output nearest to it |
| FrameSync.TimedAt | FFMPEG/ffmpeg/ffmpeg.c:1179-1183 | at a variable rate it keeps the timestamp due up to 0.6 frames ahead of it, and gets the nearest one beyond |
| FrameSync.TimestampsIncrease | FFMPEG/ffmpeg/ffmpeg.c:1174-1198 | in every non-zero mode timestamps strictly increase over any run, whatever the input times |
| FrameSync.PassThrough | FFMPEG/ffmpeg/ffmpeg.c:1196-1197 | in mode 0 each picture is one frame at its rounded time, nothing counted as dropped or repeated |
| FrameSync.PassThroughIncreases | FFMPEG/ffmpeg/ffmpeg.c:1196-1197 | in mode 0 timestamps increase if and only if the rounded input times do |
| FrameSync.PassThroughNeverBack | FFMPEG/ffmpeg/ffmpeg.c:1196-1197 | in mode 0 timestamps never go back if the input times do not |
| FrameSync.FramesConserved | FFMPEG/ffmpeg/ffmpeg.c:1187-1201 | frames out = pictures in + repeated - dropped below the limit, and never more; the limit is never passed, and is met when more is due |
| FrameSync.DriftBounded | FFMPEG/ffmpeg/ffmpeg.c:1174-1186 | at a constant rate the drift after any run stays within [-2.1, 0.5] |
| FrameSync.DriftBoundedIff | FFMPEG/ffmpeg/ffmpeg.c:1174-1186 | it does so all the time if and only if the first picture is at most 2.1 frames behind |
| FrameSync.OutputKeepsUp | FFMPEG/ffmpeg/ffmpeg.c:1184-1186 | from any start the output is at most half a frame behind |
| FrameSync.ConstantRate | FFMPEG/ffmpeg/ffmpeg.c:1254-1332 | at a constant rate the timestamps have no gap |
| FrameSync.VariableRate | FFMPEG/ffmpeg/ffmpeg.c:1179-1183 | at a variable rate nothing is repeated and every frame is within 0.6 of the time of the picture it shows |
| EightBps.LayoutFor | FFMPEG/ffmpeg/libavcodec/8bps.c:159-200 | every supported depth gives planes that fit a pixel and do not share a byte |
| EightBps.DecodePacket | FFMPEG/ffmpeg/libavcodec/8bps.c:108-129 | one control byte: literal, run of 257 minus it, end of a row that would overflow, or end of the input |
| EightBps.UnpackIs | FFMPEG/ffmpeg/libavcodec/8bps.c:107-130 | what a row comes to for each control byte and at each end, with the length left wrapping around below 0 |
| EightBps.DecodeRow | FFMPEG/ffmpeg/libavcodec/8bps.c:103-130 | the row's pixels are painted at their interleaved places, for any input |
| EightBps.DecodeFrame | FFMPEG/ffmpeg/libavcodec/8bps.c:88-132 | result and picture buffer are those of the decoding function, for any input |
| EightBps.AtIsOwned | FFMPEG/ffmpeg/libavcodec/8bps.c:103-121 | a pixel byte that passes the overflow test lies in its row, in the buffer, and belongs to its plane |
| EightBps.OtherBytesKept | FFMPEG/ffmpeg/libavcodec/8bps.c:88-132 | whatever the input, bytes of no plane keep their values |
| EightBps.RowStays | FFMPEG/ffmpeg/libavcodec/8bps.c:88-132 | whatever the input, decoding one row leaves the pixels of every other row and plane |
| EightBps.UnpackInverts | FFMPEG/ffmpeg/libavcodec/8bps.c:107-130 | reading the code of any packets gives their pixels and leaves what follows |
| EightBps.DecodingInverts | FFMPEG/ffmpeg/libavcodec/8bps.c:88-132 | a well-formed frame is accepted and every pixel of every used plane is at its place |
| EightBps.DataBehindLengths | FFMPEG/ffmpeg/libavcodec/8bps.c:88-89 | the data begins behind the lengths of all coded planes, the alpha plane included |
| EightBps.IndexShown | FFMPEG/ffmpeg/libavcodec/8bps.c:162-166 | at depth 8 a pixel is its palette index |
| EightBps.ColoursShown | FFMPEG/ffmpeg/libavcodec/8bps.c:167-190 | the bytes of a pixel, lowest first, are those of the third, second and first plane, or the reverse behind one unused byte where 32-bit pixels are big-endian |
| EightBps.PackMeans | FFMPEG/ffmpeg/libavcodec/8bps.c:107-130 | a greedy run-length encoder is inverted, and at most doubles a row |
| EightBps.EncodedIsWellFormed | FFMPEG/ffmpeg/libavcodec/8bps.c:89-105 | a frame of lengths and rows, with an unused alpha plane last, is well formed |
| EightBps.PictureRoundTrip | FFMPEG/ffmpeg/libavcodec/8bps.c:63-151 | every picture whose rows fit is decoded from its encoding |
| CharsetRenderer.GradientIsValid | FFMPEG/ffmpeg/libavcodec/a64multienc.c:192-197 | black, the three grays and white of the encoder, without rounding, are colours as the members below take them |
| CharsetRenderer.BuildTables | FFMPEG/ffmpeg/libavcodec/a64multienc.c:87-100 | index1 is the rank of a pixel among the colours, index2 the next colour, dither its step between the two |
| CharsetRenderer.DitherIs | FFMPEG/ffmpeg/libavcodec/a64multienc.c:90-97 | the dithering step is the number of whole sevenths of the way from the colour of a pixel to the next one, and 0 at both ends |
| CharsetRenderer.PixelShown | FFMPEG/ffmpeg/libavcodec/a64multienc.c:119-131 | a pixel is shown in its own colour where the pattern of its step is clear, and only where it is set in the next one |
| CharsetRenderer.RowIs | FFMPEG/ffmpeg/libavcodec/a64multienc.c:117-131 | the four pixels of a row, the leftmost one in the highest bits |
| CharsetRenderer.HighPositive | FFMPEG/ffmpeg/libavcodec/a64multienc.c:111-113 | the high difference is positive exactly if a pixel is above the fourth colour |
| CharsetRenderer.LowPositive | FFMPEG/ffmpeg/libavcodec/a64multienc.c:114-115 | the low difference is positive exactly if a pixel is below the second colour |
| CharsetRenderer.RenderChar | FFMPEG/ffmpeg/libavcodec/a64multienc.c:104-140 | the two differences, and the eight rows of both halves of the charset |
| CharsetRenderer.Clamp | FFMPEG/ffmpeg/libavcodec/a64multienc.c:143-149 | the pixels are cut off at the end with the smaller error, and no other character changes |
| CharsetRenderer.SettledHasNoConflict | FFMPEG/ffmpeg/libavcodec/a64multienc.c:141-159 | one clamp ends the conflict, so no character is rendered more than twice |
| CharsetRenderer.SettledUsesFourColours | FFMPEG/ffmpeg/libavcodec/a64multienc.c:141-159 | in five colours no finished character has both positive high and low difference, and exactly those without are left alone |
| CharsetRenderer.CutCosts | FFMPEG/ffmpeg/libavcodec/a64multienc.c:111-115 | the two differences are what it costs to do without the fifth colour and without the first, and no pixels that do without cost less |
| CharsetRenderer.SettledIsNearest | FFMPEG/ffmpeg/libavcodec/a64multienc.c:141-149 | no character that does without one of the ends is nearer to the one given than the one it is settled at; at equal cost the dark end goes |
| CharsetRenderer.RenderCharset | FFMPEG/ffmpeg/libavcodec/a64multienc.c:71-161 | ends although the counter is decremented; all characters are settled and shown in charset and colour map; the number of renderings is 256 plus the conflicts given |

## Left out

- Unseen library code: get_vlc2, init_vlc, put_bits and bswap_buf are bit sequences read most significant bit first; codecs, muxers and SDL are not part of this model.
- Sockets, files, poll, fork and clocks: what they deliver is a parameter (datagrams, whether a feed opens, a clock that does not go back).
- Floating point: costs, times and clocks are reals, and lrintf takes the real value; the float comparisons of the two-loop search are arbitrary booleans.
- read_huffman_tables: reading past the end of the buffer is excluded (the range grammar must end within it); the source does not check this.
- HuffmanDecodes: a single live symbol has an empty word, so decoding is stated for two or more.
- decode_p_frame: the size checks on the three streams and the message about bytes left; the streams are taken to be long enough. The mv table enters as any 256 displacements. The big-endian build of mcdc is not modelled.
- PBlock.DecodePFrame: the picture buffer is taken to have room for whole 8x8 blocks in both directions, which the source does not check but gets from its allocator.
- AacBandInfo.EncodeWindowBandsInfo: the run tables of the code have 64 and 16 entries, so more than 63 long or 15 short bands are excluded.
- codebook_trellis_rate, the faac and anmr searches, adjust_frame_information, and the distortions behind the two-loop search.
- iterate_key_value_pairs and the configuration commands; key and value buffers of the trie are unbounded except that insert_kv_pair_to_trie is given strings that fit them.
- ControlServer.Session.RunHandler: sscanf is any function of the bytes of the buffer from the arguments on, so what it leaves unset when it fails is taken to depend on them alone; what the drone makes of an order, and the contents of the configuration sent back, are not part of this model.
- Trie.TernaryTrie.InsertKeyValue: that the source writes through the caller's pointer, a string literal in all its registrations, is returned as a result; the memory behind that pointer is not modelled.
- PictureQueue.ClocksKept: the current pts and its drift are read and written as a pair, and an unpausing reads them, the timer and the clock in one step; the target of a picture becomes visible together with its being counted, under the mutex. Picture allocation, subtitles, skipped frames and the packet queue are left out.
- FFServer.Server.Run: the list of connections is a sequence; wrap-around of the 64-bit bandwidth counter at its top, chunked bodies and the contents of replies are left out. A run ends where a pass would go on to a freed connection; what the source does from there on is not defined. The configured streams given to RTP are assumed live; RtpNewConnection says what happens otherwise.
- StreamSelection.SelectStreams: media types are the five known ones; the synchronisation stream of an output is left out.
- FrameSync.VideoOutput.DoVideoOut: encoding itself, which may delay or drop frames, is left out; a frame is counted when it is given to the encoder.
- EightBps.DecodeFrame: the table of lengths must lie within the input, which the source does not check; palettes are left out.
- CharsetRenderer.RenderCharset: the codebook's pixels are 0..255, as the averages of such pixels are; elbg and the frame queue of the encoder are left out, and so is a64_compress_colram.
