# Verified models of six BusyBox algorithms

Dafny models of the algorithmic cores of six BusyBox applets, with proofs that they do what the applets promise.
`dafny verify dfyconfig.toml` checks everything.

| applet | what is modelled | main result |
|---|---|---|
| gzip | the whole of deflate: bit output, Huffman codes, block choice, hash chains, lazy matching | `Deflating.Compress`: the bytes written inflate, by a reference decoder for RFC 1951, to the bytes read; `Deflating.Deflater.Deflate`: every round searched and tallied as it should |
| lzop | `lzo1x_optimize`, which rewrites a compressed stream in place, and `lzo_adler32` | `LzoOptimizing.OptimizeStream`: the rewritten stream decodes to the same bytes, in exactly as many instructions fewer as the rewrites counted remove |
| factor | trial division over a packed wheel, with integer roots and squares | `Factoring.FactorNumber`: primes in order whose product is the number |
| dpkg | Debian version order, the three hash tables, dependency fields and the dependency check | `DpkgParse.CheckTexts`, `DebianVersion.CompareVersions` against the Debian Policy Manual, `DpkgTables.SearchAll` |
| expr | the recursive descent that evaluates while it reads | `ExprTrees.RunAccepts`, `ExprTrees.RunRenders`, `ExprPrecedence.Tighter`, `ExprEvaluating.ExprMain` |
| fold | the wrapping loop with its buffer and its way back to the last blank | `Folding.FoldAll`, `FoldText.FoldedUndone`, `FoldColumns.LinesMeasured`, `FoldColumns.BreaksMeasured` |

Code that changes state in place is modelled by classes and arrays with loops; each such method is tied to functions on sequences, and the laws are lemmas about those functions. Expression-like code is functions and lemmas.

## Layout

* Shared: `Options`, `Sums`, `Bits`.
* gzip, output: `BitWriter`; `Canonical` (canonical codes), `Rfc1951` (the reference decoder, sections 3.2.2 to 3.2.7), `Rfc1951Tables` (the rules behind its tables), `RunLength`, `Blocks` (what a block looks like in bits, and that it decodes).
* gzip, Huffman trees: `HuffmanShape`, `HuffmanLengths`, `HuffmanPass`, `HuffmanReassign`, `HuffmanForest`, `HuffmanHeap`, `HuffmanPadding` (lemmas on sequences), `HuffmanBuilder` (the code), `HuffmanOptimal`, `KraftInequality` (optimality), `CodeTrees`, `CodeTables`.
* gzip, blocks: `Tokens`, `TokenBuffer`, `BlockSending`, `LengthSending`, `BlockCosts`, `HeaderSending`, `BlockEncoder`.
* gzip, matching: `StringHash`, `HashChains`, `Matcher`, `Deflater`, `EqualBytes` (where the main loop goes on equal bytes).
* lzop: `Lzo1x` (the decoder), `LzoWriter` (what the compressor writes), `LzoRewrites` (why each rewrite keeps the meaning), `LzoOptimizer` (the code), `Adler`, `AdlerBase`.
* factor: `Primes`, `Wheel`, `Factorizer`.
* dpkg: `DebianPolicy` (the order of versions as documented), `DebianVersion`, `Probing`, `DpkgTables`, `DpkgDeps`, `DpkgStatus`, `DpkgParse`.
* expr: `ExprValues`, `ExprTrees`, `ExprPrecedence`, `ExprMeanings` (operators and keywords on arguments as typed), `ExprEvaluator`. fold: `FoldText`, `FoldColumns` (the column by what a terminal does), `Folder`.

## How the outside world is modelled

* gzip's reads deliver any nonempty prefix of what is left of the input, or fail; the results hold for every pattern of short reads. `Compress` therefore speaks of the part of the input that was read, which is all of it unless a read failed. Writes append to a sequence.
* gzip's sizes are parameters: window and buffer sizes, hash width, and the four level-dependent search limits. The contracts list what the code needs of them. The output buffer works in words of 16 or of 32 bits, as in the two configurations of the code.
* The LZO decoder is the reference that `lzo1x_optimize` is measured against: the same function's own reading of a stream, without its rewrites. `LzoWriter.StreamReads` ties it to what the compressor writes.
* dpkg compares indices into its name table; the model compares the strings, which `DpkgTables.SearchAll` shows to be the same. A status entry names its package; in the code it holds an index into the package table, whose entries keep their names (`DpkgTables.PackageTable.Insert`). Hashing follows the code for characters below 128 (`DpkgTables.MixFits`).
* expr's regular expressions are an arbitrary function from text and pattern to a result or a failure. Numbers read from text saturate at 64 bits as `strtoll` does.
* factor works on 64-bit numbers and 32-bit halves with their wrap-around; fold's Unicode mode is a flag.

## Where code, comments and documentation disagree

The models follow the code.

* gzip.c:1350 says that the padding symbol is 0 or 1. It is 2 exactly when 1 is the only symbol in use (`HuffmanPadding.TwoAdded`, `HuffmanPadding.OnlyOneInUse`). That symbol has no extra bits either, so that the costs stay exact.
* gzip.c:736 asserts that `strstart` stays MIN_LOOKAHEAD before the end of the window, and gzip.c:1866 says so too. That holds with a full lookahead (`Matching.Matcher.RoomToLook`), but not at the end of the input: there `longest_match` can look past the 2 * WSIZE bytes of the window. The last index it looks at is `strstart` plus the length it returns (`Matching.Matcher.LongestMatch`), so that it is sure to stay inside exactly when MAX_MATCH more bytes are there (`Matching.Matcher.LooksPast`). An input on which it does not is one of 4 * WSIZE - 3 equal bytes: the loop comes to search six bytes before the end of the window (`EqualBytes.ReachesEnd`), where the assertion fails and the search goes past the end (`Matching.Matcher.LooksPastAtEnd`). INSERT_STRING never leaves the window, which is a requirement of `Matching.Matcher.InsertString` that every call meets. The model's window has as many bytes more as such a search can look at, with arbitrary contents, and `Deflating.Compress` holds whatever they are.
* After a slide of the window `match_start` can be -1; it is an integer in the model, and is only used where it was just set.
* gzip.c:650 guards against `more` being -1. That is impossible, and is not modelled.
* expr's usage text says that comparisons are arithmetic if both arguments are numbers, else lexicographical. The code coerces each side on its own first, so that `01` is compared as `1` with text (`ExprValues.LeadingZero`, `ExprValues.LeadingZeroRight`), and `strtoll` saturates, so that 9223372036854775808 equals 9223372036854775807 (`ExprValues.BeyondMax`). `ExprValues.DocumentedExactly` says for which pairs of operands code and text agree, and `ExprValues.DocumentedWhenPlain` and `ExprValues.DocumentedWhenPlainRight` for which operands they do on either side of any text.
* expr evaluates both sides of `|` and `&`; an error on the right is an error of the whole.
* In a dpkg dependency a single `<` or `>` means `<<` or `>>` (dpkg.c:481-486).

## Model

| member | source | states |
|---|---|---|
| BitWriting.BitWriter.constructor | archival/gzip.c:1917-1922 | A new writer has sent nothing. |
| BitWriting.BitWriter.FlushOutbuf | archival/gzip.c:425-432 | Flushing moves bytes to the output; the bytes produced so far stay the same, in order. |
| BitWriting.BitWriter.Put16 | archival/gzip.c:445-481 | Exactly the two bytes of a word are appended, low byte first, across any buffer boundary. |
| BitWriting.BitWriter.Put32 | archival/gzip.c:484-499 | Exactly the four bytes are appended, low byte first, across any buffer boundary. |
| BitWriting.BitWriter.PutWord | archival/gzip.c:500-505 | A full bit buffer of 16 or 32 bits goes out as its bytes. |
| BitWriting.BitWriter.SendBits | archival/gzip.c:541-574 | The bits sent so far grow by the value's bits, lowest first; fewer bits than the buffer's width stay behind, and they fit it. |
| BitWriting.BitWriter.ShiftsInRange | archival/gzip.c:552-565 | For lengths up to 15 both shifts are by less than the buffer's width. |
| BitWriting.BitWriter.BiWindup | archival/gzip.c:596-609 | All bits are in bytes, and the last byte is filled up with zeros only. |
| BitWriting.BitWriter.PutStoredLength | archival/gzip.c:615-627 | LEN and its one's complement are appended after alignment. |
| BitWriting.BitWriter.CopyBlock | archival/gzip.c:615-631 | Padding, LEN, NLEN and then the bytes of the stretch, as section 3.2.4 of RFC 1951 asks. |
| Canonical.PrefixFree | archival/gzip.c:1254-1288 | In the order sent, no symbol's bits start with those of another symbol. |
| Canonical.DecodeEncoded | archival/gzip.c:1254-1288 | Reading a symbol's code bit by bit gives that symbol and stops behind it, whatever follows. |
| Canonical.LastCodeAllOnes | archival/gzip.c:1268-1272 | With a Kraft sum of one the last code of maximal length is all ones. |
| Canonical.SlotsIsKraft | archival/gzip.c:1254-1288 | Counting codes length by length gives the Kraft sum of the lengths. |
| CodeTrees.BiReverse | archival/gzip.c:581-591 | The result's bits are those of the code in reverse. |
| CodeTrees.GenCodes | archival/gzip.c:1254-1288 | Every symbol with a length gets the bit-reversed canonical code of section 3.2.2 of RFC 1951. |
| CodeTrees.FirstCodes | archival/gzip.c:1262-1267 | The first code of every length, from the counts. |
| CodeTables.InitLengths | archival/gzip.c:1983-1996 | The table agrees for every length from 3 to 258 with section 3.2.5 of RFC 1951, length 258 having its own code. |
| CodeTables.InitDistances | archival/gzip.c:1998-2014 | The two-part table gives for every distance up to 32768 its code, and every code its base. |
| Rfc1951Tables.LengthTable | archival/gzip.c:883-887 | The extra bits and bases of lengths, by the rule of section 3.2.5 of RFC 1951, cover 3 to 258 without a gap. |
| Rfc1951Tables.DistTable | archival/gzip.c:889-892 | The same for distances up to 32768. |
| Rfc1951Tables.OrderTable | archival/gzip.c:899-900 | The order of section 3.2.7: the repeat codes and zero, then the lengths by their distance from 8. |
| HuffmanBuilding.HuffmanBuilder.PqDownHeap | archival/gzip.c:1127-1149 | The heap property holds from the given index on, and the heap is a rearrangement of what it was. |
| HuffmanBuilding.HuffmanBuilder.PqRemove | archival/gzip.c:1299-1310 | The node taken out is one of least frequency; the others stay, as a heap. |
| HuffmanBuilding.HuffmanBuilder.InitHeap | archival/gzip.c:1325-1335 | The heap holds exactly the symbols of nonzero frequency; the others have length zero. |
| HuffmanBuilding.HuffmanBuilder.PadToTwo | archival/gzip.c:1342-1352 | At least two symbols; which ones are added, with frequency one; and what they will cost is taken off beforehand. |
| HuffmanPadding.TwoAdded | archival/gzip.c:1342-1351 | The padding adds symbol 2 if and only if 1 is the only symbol in use. |
| HuffmanPadding.OnlyOneInUse | archival/gzip.c:1343-1350 | Such a set of symbols, for which the comment is wrong. |
| HuffmanBuilding.HuffmanBuilder.Heapify | archival/gzip.c:1357-1358 | The whole array becomes a heap of the same nodes. |
| HuffmanBuilding.HuffmanBuilder.MergeTwo | archival/gzip.c:1364-1382 | The two nodes of least frequency get a common parent, in the heap and in the list of nodes. |
| HuffmanBuilding.HuffmanBuilder.GrowTree | archival/gzip.c:1357-1385 | A full binary tree over the symbols; the list names parents before children in non-increasing frequency; every merge joined two least roots. |
| HuffmanShape.KraftExcess | archival/gzip.c:1178-1203 | Clamping the depths adds one slot of maximal length for each inner node at the limit or deeper. |
| HuffmanShape.OverCount | archival/gzip.c:1184-1187 | The number of clamped nodes is twice that excess. |
| HuffmanPass.TallyEnd | archival/gzip.c:1178-1203 | After the first pass counts, overflow and both running costs are those of the clamped lengths. |
| HuffmanPass.ExcessAfterPass | archival/gzip.c:1178-1205 | The counts exceed a complete code by half the clamped nodes. |
| HuffmanLengths.ShorterExists | archival/gzip.c:1212-1214 | While there is excess, the search for a shorter code ends at length one or above. |
| HuffmanLengths.RepairRound | archival/gzip.c:1215-1221 | A round keeps the number of codes and removes exactly one unit of excess. |
| HuffmanBuilding.HuffmanBuilder.FirstPass | archival/gzip.c:1169-1203 | The first pass meets the invariants of lengths, counts and costs for every node listed. |
| HuffmanBuilding.HuffmanBuilder.CountLeaf | archival/gzip.c:1194-1202 | A leaf counts once under its length and adds frequency times code and extra bits to both totals. |
| HuffmanBuilding.HuffmanBuilder.VisitNode | archival/gzip.c:1182-1202 | One node: its length from its parent's, clamped, and every running total carried on. |
| HuffmanBuilding.HuffmanBuilder.RepairOverflow | archival/gzip.c:1211-1222 | The repair ends with no excess and as many codes as before. |
| HuffmanBuilding.HuffmanBuilder.MoveOne | archival/gzip.c:1212-1217 | One round of the repair, with the inner search inside the array. |
| HuffmanReassign.HandDone | archival/gzip.c:1229-1242 | When all lengths are handed out every leaf has one, and each length went to as many leaves as it was counted for. |
| HuffmanBuilding.HuffmanBuilder.Reassign | archival/gzip.c:1229-1242 | The lengths of the leaves fit the repaired counts, and the cost changes by exactly the difference. |
| HuffmanBuilding.HuffmanBuilder.GenBitlen | archival/gzip.c:1161-1244 | No length above the limit, a Kraft sum of exactly one, counts and both costs exact; without overflow the lengths are the depths. |
| HuffmanBuilding.HuffmanBuilder.BuildTree | archival/gzip.c:1312-1394 | A complete code for all symbols that occur, its canonical codes, and opt_len and static_len grown by exactly what the symbols cost with both codes. |
| HuffmanOptimal.DepthsOptimal | archival/gzip.c:1363-1383 | The depths of the tree have the least weighted length among all lengths that satisfy Kraft's inequality. |
| KraftInequality.CodeIsKraft | archival/gzip.c:1363-1383 | The word lengths of any prefix code satisfy Kraft's inequality. |
| KraftInequality.BuiltIsBest | archival/gzip.c:1312-1394 | What build_tree stores, when nothing had to be clamped, costs no more than any prefix code for the same symbols. |
| TokenBuffering.TokenBuffer.Store | archival/gzip.c:1575-1600 | Literals, lengths, distances and packed flags of one token more, a full flag byte saved. |
| TokenBuffering.TokenBuffer.SaveFlags | archival/gzip.c:1685 | With the partial last byte the flags of all tokens are stored. |
| BlockSending.SendCode | archival/gzip.c:1074-1075 | The bits of a symbol's code are sent, most significant first. |
| BlockSending.Tables.LengthCodeOf | archival/gzip.c:1650-1656 | Code, extra bits and their value for a match length. |
| BlockSending.Tables.DistCodeOf | archival/gzip.c:1659-1667 | Code, extra bits and their value for a distance. |
| BlockSending.SendNext | archival/gzip.c:1642-1669 | One round of the loop sends exactly the bits of the next token. |
| BlockSending.CompressBlock | archival/gzip.c:1630-1673 | The bits of all buffered tokens in order, then end-of-block. |
| Blocks.TokensDecode | archival/gzip.c:1630-1673 | Those bits decode by sections 3.2.3 and 3.2.5 of RFC 1951 to what the tokens expand to, and decoding stops there. |
| RunLength.RunLengthRoundTrip | archival/gzip.c:1454-1505 | The run-length items of any lengths expand to exactly those lengths; no repeat comes first. |
| RunLength.ReadLensDecodes | archival/gzip.c:1454-1505 | The items' bits decode by section 3.2.7 of RFC 1951 to the lengths, every count in its field. |
| LengthSending.ScanTree | archival/gzip.c:1402-1448 | Each symbol is counted as often as the items contain it, and the guard is set behind the lengths. |
| LengthSending.SendTree | archival/gzip.c:1454-1505 | The bits of exactly the items that were counted are sent. |
| LengthSending.CountRun | archival/gzip.c:1424-1434 | The counts for one run. |
| LengthSending.SendRun | archival/gzip.c:1473-1491 | The bits of one run. |
| HeaderSending.BuildBlTree | archival/gzip.c:1511-1538 | A header that describes both trees; opt_len grows by exactly its size in bits; the index of the last code sent. |
| HeaderSending.LastIndex | archival/gzip.c:1525-1532 | The last position in the order of section 3.2.7 of RFC 1951 with a length; it is never below 3. |
| HeaderSending.SendAllTrees | archival/gzip.c:1545-1567 | HLIT, HDIST, HCLEN and both run-length coded trees are sent, as the header says. |
| Blocks.HeaderDecodes | archival/gzip.c:1545-1567 | The header's bits are read back as the two sequences of code lengths. |
| Blocks.BlockDecodes | archival/gzip.c:1680-1766 | Each of the three kinds of block decodes to its output, and the decoder goes on behind it. |
| Blocks.StreamDecodes | archival/gzip.c:1680-1766 | Blocks, a final block and padding inflate to their output; fewer than eight zero bits are left. |
| BlockCosts.DataCost | archival/gzip.c:1693-1695 | What the two trees cost is the exact number of bits of the block's data. |
| BlockCosts.FixedCost | archival/gzip.c:1201-1202 | The same for the static trees. |
| BlockEncoding.BlockEncoder.constructor | archival/gzip.c:1969-2058 | Buffers, tables and static trees are set up, and the first block is empty. |
| BlockEncoding.InitStaticL | archival/gzip.c:2020-2048 | The static literal tree holds the fixed codes of section 3.2.6 of RFC 1951. |
| BlockEncoding.InitStaticD | archival/gzip.c:2050-2054 | The static distance tree holds the fixed 5-bit codes. |
| BlockEncoding.BlockEncoder.InitBlock | archival/gzip.c:1095-1112 | All counts are back to those of an empty block, and the bits sent stay. |
| BlockEncoding.BlockEncoder.Tally | archival/gzip.c:1573-1625 | The token is added with its counts; a flush is asked for exactly when the early-stop estimate says so or a buffer is full. |
| BlockEncoding.BlockEncoder.StopHere | archival/gzip.c:1602-1619 | The estimate, computed with its exact thresholds. |
| BlockEncoding.BlockEncoder.BuildDataTrees | archival/gzip.c:1688-1695 | opt_len and static_len are the exact sizes of the block's data. |
| BlockEncoding.BlockEncoder.Prepare | archival/gzip.c:1688-1700 | Trees and header are ready; opt_len is the exact size of a dynamic block, static_len of a static one. |
| BlockEncoding.BlockEncoder.SendBlock | archival/gzip.c:1702-1753 | A well-formed block that carries the tokens or the stretch is sent, and by flush_block's own measure no other of the three kinds takes fewer bytes. |
| BlockEncoding.SizeNear | archival/gzip.c:1703-1730 | That measure is at most ten bits below and seven bits above the real size of a block. |
| BlockEncoding.StoredFits | archival/gzip.c:1730-1741 | A block is stored only when its length fits the 16-bit LEN field. |
| BlockEncoding.BlockEncoder.FlushBlock | archival/gzip.c:1680-1766 | The blocks so far expand to all data so far; at the end the bytes written inflate to it. |
| StringHash.Forget | archival/gzip.c:1774 | After three updates the hash depends on three bytes only. |
| StringHash.ThirdEqual | archival/gzip.c:752-758 | With equal hashes and two equal bytes the third bytes are equal, so that it need not be compared. |
| HashChains.ChainsInsert | archival/gzip.c:1803-1808 | INSERT_STRING keeps: every string inserted leads to the last one before it with the same hash, none left out, and every head is the last string with its hash; so it finds the last string with the hash of the new one. |
| HashChains.ChainsSlide | archival/gzip.c:661-677 | Sliding window and tables keeps the same. |
| HashChains.ChainsSameBytes | archival/gzip.c:681-688 | So does reading more bytes behind the strings inserted. |
| Matching.Source.Read | archival/gzip.c:522-535 | A nonempty prefix of what is left, the end, or a failure; bytes outside the stretch stay. |
| Matching.Matcher.Slide | archival/gzip.c:655-679 | The upper half moves down; the window still shows the input at its new base, and the chains hold. |
| Matching.Matcher.FillWindow | archival/gzip.c:641-689 | The window shows more of the input, or the end was reached. |
| Matching.Matcher.FillWindowIfNeeded | archival/gzip.c:691-695 | A full lookahead or the end of the input; the loop ends. |
| Matching.Matcher.LmInit | archival/gzip.c:1927-1961 | Window, hash and chains at the start of the input. |
| Matching.Matcher.InsertString | archival/gzip.c:1803-1808 | The string at strstart heads its chain, and the last string before it with the same hash is returned; all three bytes are inside the 2 * WSIZE bytes of the window. |
| Matching.Matcher.MatchLength | archival/gzip.c:752-771 | How far two strings agree, up to 258 bytes, and that the byte where they part is the last one looked at. |
| Matching.Matcher.LongestMatch | archival/gzip.c:710-784 | A match longer than prev_length really is one, of allowed distance; the candidates looked at are the last strings with that hash, without a gap; none of them is longer; the search stopped only for length, chain limit, distance or the end of the chain. The last byte looked at is strstart plus the length returned. |
| Matching.Matcher.BestFound | archival/gzip.c:697-784 | A search that neither length nor chain limit cut short has found the best match: no string in reach that agrees in three bytes agrees in more. |
| Matching.AllLinked | archival/gzip.c:739-784 | Every string with the same hash up to the end of the search is among the candidates. |
| Matching.Matcher.RoomToLook | archival/gzip.c:736 | With a full lookahead the assertion holds, and every search stays inside the window. |
| Matching.Matcher.LooksPast | archival/gzip.c:732-767 | In a window of equal bytes a search looks MAX_MATCH bytes behind strstart or past the end, so that it stays inside if and only if that many bytes are there. |
| Matching.Matcher.LooksPastAtEnd | archival/gzip.c:732-767 | With strstart six bytes before the end of a window of equal bytes, at the end of the input, the assertion fails and every search goes past the window. |
| EqualBytes.Pair | archival/gzip.c:1817-1907 | On equal bytes two rounds find and emit a match of MAX_MATCH bytes, for every lazy limit. |
| EqualBytes.Pairs | archival/gzip.c:1817-1907 | Any number of such pairs, as long as the lookahead stays full. |
| EqualBytes.ReachesEnd | archival/gzip.c:1817-1907 | On 4 * WSIZE - 3 equal bytes, after two slides and 1018 rounds, the loop searches where `LooksPastAtEnd` says that it goes past the window. |
| Matching.Matcher.SkipMatch | archival/gzip.c:1861-1874 | All strings of the match are inserted, none of them past the window, and strstart stands behind it. |
| Deflating.Deflater.FindMatch | archival/gzip.c:1831-1850 | If the head of the chain is in reach and the match before is short enough, the length is that of the best candidate of such a search, cut to the lookahead, and one less for three bytes too far away; else it is two. A length of three or more stands for a repetition in the input; with a full lookahead nothing past the window is looked at. |
| Deflating.Deflater.EmitMatch | archival/gzip.c:1854-1878 | That match is the token tallied, the block is sent exactly if it is due, and the tokens cover the input up to the end of the match. |
| Deflating.Deflater.EmitLiteral | archival/gzip.c:1885-1888 | The byte before strstart is the token tallied, the block is sent exactly if it is due, and the tokens cover that byte. |
| Deflating.Deflater.Flush | archival/gzip.c:1786-1795 | The tokens since block_start become a block that covers exactly the bytes up to strstart. |
| Deflating.Deflater.Decide | archival/gzip.c:1819-1901 | The search at strstart is as described; the match before is tallied exactly if it has three bytes and the new one is not longer, else the byte before if it was waiting; strstart moves accordingly. |
| Deflating.Deflater.RegularMore | archival/gzip.c:1819-1906 | What a round did stays right when more of the input is read. |
| Deflating.Deflater.Step | archival/gzip.c:1819-1906 | One round searches and tallies as described, keeps the invariant that blocks and tokens expand to the input so far, and makes progress. |
| Deflating.Deflater.Deflate | archival/gzip.c:1810-1912 | The bytes written inflate to the bytes read, by a run of rounds from its start to its end each of which searched and tallied as described. |
| Deflating.Compress | archival/gzip.c:1810-1912 | The same from a fresh start, for every input and every pattern of reads; all of the input unless a read failed. |
| LzoOptimizing.Optimizer.Copy2 | archival/lzop.c:113-120 | The two bytes written are those the match would copy, also for distance one. |
| LzoOptimizing.Optimizer.Copy3 | archival/lzop.c:122-136 | The three bytes written are those the match would copy, also for distances one and two. |
| LzoRewrites.ShortGrows | archival/lzop.c:222-232 | A short match between a match and another becomes literals of the first. |
| LzoRewrites.MatchBecomesRun | archival/lzop.c:233-257 | Literals, match and run become one run, one byte further on. |
| LzoRewrites.RunGrows | archival/lzop.c:278-293 | Run, match and run become one run. |
| LzoRewrites.SameDecoding | archival/lzop.c:366-394 | A stream that follows the original step by step decodes to the same bytes. |
| LzoWriter.MatchReads | archival/libarchive/lzo1x_9x.c:502-567 | Every match that code_match writes, of each of its five kinds and any length and distance, is read back, with the number of literals behind it. |
| LzoWriter.RunReads | archival/libarchive/lzo1x_9x.c:570-593 | Every run that STORE_RUN writes is read back. |
| LzoWriter.StreamReads | archival/libarchive/lzo1x_9x.c:861-884 | Every stream of literals and matches, with its end marker, decodes to what they stand for. |
| LzoOptimizing.Optimizer.LiteralRun | archival/lzop.c:177-192 | The run's literals are copied and its start is remembered; stream and output still follow the original. |
| LzoOptimizing.Optimizer.NearStep | archival/lzop.c:214-260 | A two-byte match is kept or rewritten in one of two ways, which one exactly by the code's conditions; stream and output still follow the original. |
| LzoOptimizing.Optimizer.M2Step | archival/lzop.c:263-293 | A three-byte match in two bytes is rewritten exactly when it stands between runs that fit together; stream and output still follow the original. |
| LzoOptimizing.Optimizer.LongStep | archival/lzop.c:294-359 | A match in three or more bytes is kept or rewritten in one of two ways, which one exactly by the code's conditions; stream and output still follow the original. |
| LzoOptimizing.Optimizer.ToRun | archival/lzop.c:340-357 | Either rewrite with the overlapping memmove keeps the meaning, and takes one instruction out. |
| LzoOptimizing.Optimizer.Begin | archival/lzop.c:166-171 | The literals that the first byte of a stream announces. |
| LzoOptimizing.Optimizer.Optimize | archival/lzop.c:144-394 | The rewritten stream decodes to the bytes produced, and its instructions and those taken out are those of the original. |
| LzoOptimizing.OptimizeStream | archival/lzop.c:144-394 | For every stream that decodes within the buffer: same length, same decoding, the decoded bytes in the buffer, exactly as many instructions fewer as the counted rewrites take out, and the code says whether input is left. |
| Adler.LzoAdler32 | archival/lzop.c:510-537 | Equals the checksum of section 2.2 of RFC 1950 with a modulo at every byte, from every 32-bit start value; a null buffer gives 1. |
| Adler.NoOverflow | archival/lzop.c:513-534 | Neither 32-bit sum overflows within a chunk of 5552 bytes. |
| Adler.InTurn | archival/lzop.c:555-562 | Feeding two buffers in turn is feeding their concatenation. |
| AdlerBase.BaseIsLargestPrime | archival/lzop.c:514 | The modulus is the largest prime below 65536. |
| Factoring.UnpackWheel | coreutils/factor.c:101-120 | The table holds exactly the increments packed three bits each, and each word ends where its last increment does. |
| Wheel.Skipped | coreutils/factor.c:60-85 | A number the wheel jumps over divides n only if an earlier one does. |
| Wheel.OnWheelNext | coreutils/factor.c:204-211 | Moving on stays on the wheel, also over the turn back to WHEEL_START. |
| Wheel.NextDivisor | coreutils/factor.c:60-85 | No divisor of n lies below the next candidate. |
| Factoring.Isqrt | libbb/isqrt.c:20-35 | The integer square root, for every 64-bit number. |
| Factoring.NoDivisorLeft | coreutils/factor.c:137-159 | Rounding the root down to odd loses no divisor. |
| Factoring.SquareFactors | coreutils/factor.c:137-159 | A square's factors are its root's, twice as often. |
| Factoring.FewSquares | coreutils/factor.c:147-153 | The repetition count stays below 64, so that its byte does not overflow. |
| Factoring.Factorizer.IsqrtOdd | coreutils/factor.c:137-159 | Zero after factoring a square on the spot, else the odd root. |
| Factoring.Factorizer.PrintW | coreutils/factor.c:123-129 | The number is printed square_count times. |
| Factoring.Factorizer.DivideOut | coreutils/factor.c:195-201 | The divisor is divided out and printed; a square met on the way ends the search. |
| Factoring.Factorizer.Search | coreutils/factor.c:161-217 | Trial division ends with all prime factors printed, also when the candidate wraps around. |
| Factoring.Factorizer.Factorize | coreutils/factor.c:161-217 | The prime factors in order, each as often as square_count says; the recursion ends. |
| Factoring.FactorNumber | coreutils/factor.c:219-232 | For every 64-bit number from 1 on: a non-decreasing list of primes whose product it is, on one line. |
| DebianVersion.ComparePart | archival/dpkg.c:240-277 | The sign of the result is the order that section 5.6.12 of the Debian Policy Manual gives the two parts, which is that of their keys; no position runs past the end. |
| DebianVersion.CompareRuns | archival/dpkg.c:257-274 | Digit runs are compared as numbers of any size, leading zeros aside. |
| DebianVersion.CompareVersions | archival/dpkg.c:283-334 | By epoch, then upstream version, then revision, each in the order of the Debian Policy Manual. |
| DebianVersion.KeyIsPolicy | archival/dpkg.c:229-277 | The keys order any two parts as the policy does: stretches without digits by rank, tilde, end, letters, all others, and numbers by value, in turn. |
| DebianVersion.VersionsByPolicy | archival/dpkg.c:283-334 | The same for whole versions. |
| DebianVersion.FirstDifference | archival/dpkg.c:229-237 | At the first difference letters come before other characters, the tilde before all, and two of a kind go by value. |
| DebianVersion.EndFirst | archival/dpkg.c:229-237 | The end of a part comes before every character but the tilde and digits. |
| DebianVersion.VersionsAntisymmetric | archival/dpkg.c:283-334 | The order changes its sign when the versions change sides. |
| DebianVersion.VersionsTransitive | archival/dpkg.c:283-334 | The order is transitive. |
| DebianVersion.VersionsEquivalent | archival/dpkg.c:283-334 | Two versions are equivalent exactly when epochs and keys are the same. |
| DebianVersion.TildeFirst | archival/dpkg.c:229-237 | A tilde sorts before the end of a part. |
| DebianVersion.EpochFound | archival/dpkg.c:294-304 | The first colon ends a written epoch, whose value is the number of its digits; without a colon nothing is taken off. |
| DebianVersion.SplitRender | archival/dpkg.c:294-324 | A version written as epoch, upstream version and revision is split into them again. |
| DebianVersion.TestVersion | archival/dpkg.c:336-354 | Each operator holds exactly for the outcomes it names. |
| Probing.ProbesDiffer | archival/dpkg.c:193-205 | The first p steps of a probe sequence lead to different slots, p being prime. |
| Probing.Reaches | archival/dpkg.c:193-205 | Every slot is reached within p steps. |
| DpkgTables.MakeHash | archival/dpkg.c:169-186 | A start below p and a decrement from 1 to p - 1, by the code's arithmetic in 64 bits. |
| DpkgTables.MixFits | archival/dpkg.c:177-182 | For characters below 128 the shifted sum fits the int it is computed in. |
| DpkgTables.NameTable.Search | archival/dpkg.c:189-206 | The index of a string: the old one if it has one, also in a full table, else a slot that was free; all others stay. |
| DpkgTables.SearchAll | archival/dpkg.c:189-206 | Over any run of searches, as long as the table has slots for all different strings: equal strings get one index and different strings different ones, and old indices stay. |
| DpkgTables.EndsInTime | archival/dpkg.c:193-205 | A search that ends at all ends within one pass. |
| DpkgTables.ProbeEnds | archival/dpkg.c:193-205 | A probe sequence ends if and only if a slot is free or holds what is looked for. |
| DpkgTables.NameSearchEnds | archival/dpkg.c:195-203 | The search for a name ends if and only if there are fewer names than slots or the name is there. |
| DpkgTables.PackageSearchEnds | archival/dpkg.c:362-375 | The search for a package ends if and only if a slot is free or a package matches. |
| DpkgTables.StatusSearchEnds | archival/dpkg.c:217-225 | The search for a status ends if and only if a slot is free or the name is there. |
| DpkgTables.AllPassed | archival/dpkg.c:193-205 | A search that ends at a free slot has passed every entry with that hash. |
| DpkgTables.PackageTable.Search | archival/dpkg.c:356-377 | A package of that name whose version the operator accepts, if there is any; else a free slot on the way. |
| DpkgTables.PackageTable.Insert | archival/dpkg.c:685-688 | At most one package for each name and version up to equivalence; every entry keeps its name. |
| DpkgTables.StatusTable.Search | archival/dpkg.c:211-227 | The entry of a name, or the free slot where it goes. |
| DpkgTables.StatusTable.Put | archival/dpkg.c:788-790 | One status for each name; the others stay. |
| DpkgDeps.GetStatus | archival/dpkg.c:692-712 | The word at the given place of a status line, as StatusWords describes it. |
| DpkgDeps.StatusWords | archival/dpkg.c:692-712 | Word k of a line of three words is the k-th of them. |
| DpkgDeps.Database.SatisfiesDependency | archival/dpkg.c:963-978 | Installed for a pre-dependency, to be installed for a dependency. |
| DpkgStatus.StatusAllows | archival/dpkg.c:973-977 | Of a status line, in words: a dependency asks for install as its first, a pre-dependency for installed as its third, and no other kind is satisfied. |
| DpkgDeps.Database.SearchForProvides | archival/dpkg.c:395-408 | The next provider, and none in between. |
| DpkgDeps.Database.EdgeMet | archival/dpkg.c:1113-1147 | Met exactly when some package of that name and version, or some provider, satisfies it. |
| DpkgDeps.Database.CheckEdges | archival/dpkg.c:1096-1176 | The single pass with its counter and its skipping decides the AND of ORs that the edges stand for. |
| DpkgDeps.RoomIsEnough | archival/dpkg.c:193-227 | A free slot in either table makes all searches of the check end. |
| DpkgDeps.Database.CheckDeps | archival/dpkg.c:1064-1177 | Whenever the searches it can make end, it accepts if and only if every package that is wanted has all its dependencies met. |
| DpkgParse.AddSplitDependencies | archival/dpkg.c:429-519 | The edges of a line are appended to the node's, and what comes out is fit for the dependency check. |
| DpkgParse.AddField | archival/dpkg.c:444-514 | The edges of one comma-separated field, an OR edge in front of several alternatives. |
| DpkgParse.LineRoundTrip | archival/dpkg.c:429-519 | A dependency written as clauses of alternatives is read back as exactly their edges. |
| DpkgParse.LineFormed | archival/dpkg.c:429-519 | Every OR edge is followed by as many alternatives of its kind as it counts. |
| DpkgParse.LineAccepts | archival/dpkg.c:1096-1176 | The edges of a line are accepted if and only if every clause has an alternative that is met. |
| DpkgParse.AcceptsJoin | archival/dpkg.c:1096-1176 | Edges of several lines are accepted if and only if those of each line are. |
| DpkgParse.AnyLineAccepts | archival/dpkg.c:429-519 | Of every line that is read, in any spelling and of any kind, the edges are accepted if and only if each group between commas of a dependency has an alternative between bars that is met. |
| DpkgParse.LinesAccept | archival/dpkg.c:618-689 | The same for the lines of a package one after the other, of mixed kinds. |
| DpkgParse.AddLines | archival/dpkg.c:651-675 | The edges of all lines in turn, or a failure when one of them fails. |
| DpkgParse.FillPackage | archival/dpkg.c:618-688 | The package made of the lines replaces one of an equivalent version or takes a free slot, and the table stays made of texts; without a version nothing changes. |
| DpkgParse.CheckTexts | archival/dpkg.c:1064-1177 | check_deps on packages made of control-file lines accepts if and only if every package that is wanted has each of its dependency groups met. |
| ExprValues.NumberRoundTrip | coreutils/expr.c:177-203 | A number of any size made text spells that number, and the code reads it back if 64 bits hold it. |
| ExprValues.DivisionLaw | coreutils/expr.c:261-265 | Quotient and rest belong together, the rest smaller than the divisor and signed like the dividend. |
| ExprValues.DocumentedWhenPlain | coreutils/expr.c:217-228 | Against every text that is no number on the right, comparisons do what is documented if and only if the operand is no number or is spelt as it would be printed. |
| ExprValues.DocumentedWhenPlainRight | coreutils/expr.c:217-228 | The same for the right operand. |
| ExprValues.DocumentedExactly | coreutils/expr.c:217-228 | For every pair of operands: all comparisons do what is documented, with numbers of any size, if and only if they are not a number and a text that sorts between its spelling and the way it is printed, nor two different numbers that saturate to the same one. |
| ExprValues.PlainAgree | coreutils/expr.c:217-228 | Two operands that are no number or plainly spelt compare as documented. |
| ExprValues.LeadingZero | coreutils/expr.c:217-228 | An operand for which they do not. |
| ExprValues.LeadingZeroRight | coreutils/expr.c:217-228 | And one on the right. |
| ExprValues.Saturates | coreutils/expr.c:187-203 | Any two different numbers that saturate alike compare as equal, which as documented they are not. |
| ExprValues.BeyondMax | coreutils/expr.c:187-203 | Two numbers for which that happens: 2^63 and 2^63 - 1. |
| ExprTrees.RunRenders | coreutils/expr.c:317-537 | Every expression tree, written with the parentheses and quotes it needs, evaluates to its value or to its first failure. |
| ExprTrees.RunReads | coreutils/expr.c:317-537 | Every tree that fits the grammar is read as itself, over all levels, with left association. |
| ExprTrees.RunAccepts | coreutils/expr.c:540-559 | Arguments are accepted with a value if and only if they are those of a tree with that value. |
| ExprTrees.RunRejects | coreutils/expr.c:540-559 | A syntax error means that no tree is written that way. |
| ExprTrees.Unambiguous | coreutils/expr.c:317-537 | The same arguments are never those of two trees. |
| ExprTrees.RenderFits | coreutils/expr.c:317-401 | Parentheses and quotes make any tree fit, and keep its value. |
| ExprTrees.RenderNeeded | coreutils/expr.c:317-401 | Nothing is added if and only if the tree fits as it is. |
| ExprPrecedence.Tighter | coreutils/expr.c:403-537 | For any operands and any two operators of different levels, written out, arguments without parentheses are read as with parentheses around the tighter one, on either side. |
| ExprPrecedence.LeftToRight | coreutils/expr.c:403-537 | Operators of one level are read from left to right. |
| ExprPrecedence.WordOperand | coreutils/expr.c:317-345 | Every word but parentheses and keywords is such an operand. |
| ExprPrecedence.SumOfProduct | coreutils/expr.c:424-468 | 1 + 2 * 3 is 7. |
| ExprMeanings.SumsMean | coreutils/expr.c:59-61 | Typed as arguments, sums, differences and products are what they should be. |
| ExprMeanings.QuotientsMean | coreutils/expr.c:62-63 | Quotient and rest belong together, towards zero; dividing by zero fails. |
| ExprMeanings.ComparisonsMean | coreutils/expr.c:53-58 | Each of the seven comparisons of numbers gives 1 or 0 as it should. |
| ExprMeanings.TextsMean | coreutils/expr.c:75-76 | Text that is no number compares as in a dictionary. |
| ExprMeanings.ChoicesMean | coreutils/expr.c:51-64 | The first argument if it is neither null nor 0, else the second; the first if neither is, else 0; and what the pattern matches. |
| ExprMeanings.QuoteMeans | coreutils/expr.c:68-71 | quote gives any token, length its number of characters. |
| ExprMeanings.IndexMeans | coreutils/expr.c:65-67 | match is the colon; index is the first place of one of the characters, or 0. |
| ExprMeanings.SubstrMeans | coreutils/expr.c:66 | The characters from a place on, counted from 1, or none. |
| ExprMeanings.SpelledNumber | coreutils/expr.c:187-203 | A number may have white space and a sign before its digits. |
| ExprEvaluating.Value.ToText | coreutils/expr.c:177-183 | The value becomes its text. |
| ExprEvaluating.Value.ToArith | coreutils/expr.c:187-203 | The value becomes a number if it is one, and stays as it is otherwise. |
| ExprEvaluating.CmpCommon | coreutils/expr.c:217-243 | By number if both sides are numbers, else by text, for each operator code. |
| ExprEvaluating.ArithmeticCommon | coreutils/expr.c:247-266 | The operation, or the first of its three failures. |
| ExprEvaluating.DoColon | coreutils/expr.c:272-313 | Both sides become text, and the matcher decides. |
| ExprEvaluating.Evaluator.Eval7 | coreutils/expr.c:317-337 | Operand or parentheses: value, arguments left, or failure as the grammar says. |
| ExprEvaluating.Evaluator.Eval6 | coreutils/expr.c:341-401 | The keywords. |
| ExprEvaluating.Evaluator.Operands | coreutils/expr.c:365-382 | The second operand of match, index and substr. |
| ExprEvaluating.Evaluator.SubstrOperand | coreutils/expr.c:383-399 | The third operand of substr, and the substring within bounds. |
| ExprEvaluating.Evaluator.Eval5 | coreutils/expr.c:406-420 | The loop over `:` reads what the grammar's fifth level reads. |
| ExprEvaluating.Evaluator.Eval4 | coreutils/expr.c:424-444 | The same for `*`, `/` and `%`. |
| ExprEvaluating.Evaluator.Eval3 | coreutils/expr.c:448-468 | The same for `+` and `-`. |
| ExprEvaluating.Evaluator.Eval2 | coreutils/expr.c:472-498 | The same for the comparisons. |
| ExprEvaluating.Evaluator.Eval1 | coreutils/expr.c:502-518 | The same for the logical and. |
| ExprEvaluating.Evaluator.Eval | coreutils/expr.c:522-537 | The same for the logical or; the recursion ends on every argument list. |
| ExprEvaluating.ExprMain | coreutils/expr.c:540-559 | What is printed and the exit status: 0, 1 for a null value, 2 for an error. |
| FoldText.AdjustMonotone | coreutils/fold.c:44-66 | A character never leads to a smaller column from a larger one. |
| FoldText.ColumnBehind | coreutils/fold.c:157-163 | Text put at the start of a line ends no further right than where it was. |
| FoldColumns.MeasureIsColumn | coreutils/fold.c:44-66 | Whatever follows the terminal's rules, a tab to a multiple of eight above by at most eight, a backspace one back, a return to the start, is the column that fold counts. |
| FoldColumns.ColumnMeasures | coreutils/fold.c:44-66 | And fold's column follows them. |
| FoldColumns.PlainColumn | coreutils/fold.c:57-64 | Text without control characters moves on by its bytes, or with Unicode by those outside 0x80 to 0xbf; with -b all text by its bytes. |
| FoldColumns.TabStop | coreutils/fold.c:49-50 | Behind a tab the column is the next multiple of eight. |
| FoldColumns.BehindReturn | coreutils/fold.c:56-57 | Behind a return only what follows counts. |
| FoldColumns.BackspaceBack | coreutils/fold.c:52-55 | A backspace takes back a printed character, and nothing at the start. |
| FoldText.FoldedUndone | coreutils/fold.c:117-177 | Deleting the newlines put in gives back the input. |
| FoldText.FoldedFits | coreutils/fold.c:117-177 | In every output line each prefix of two or more characters keeps to the width. |
| FoldText.FoldedBreaks | coreutils/fold.c:117-177 | A line is broken only where what follows makes it too wide, at the first byte that does; with -s behind the last blank before that byte, if the line has one. |
| FoldColumns.LinesMeasured | coreutils/fold.c:117-177 | By any such measure no output line of two or more characters is wider than asked for. |
| FoldColumns.BreaksMeasured | coreutils/fold.c:117-177 | And every newline put in is needed: what follows makes the line too wide, at once, or with -s and a space or tab in the line, before the next one. |
| Folding.Folder.Grow | coreutils/fold.c:118-121 | There is always room for the next character, and the line is kept. |
| Folding.Folder.FindBlank | coreutils/fold.c:146-149 | The search from the end finds the last blank. |
| Folding.Folder.MoveUp | coreutils/fold.c:157-163 | What is behind the blank moves to the front, and fits with its column counted again. |
| Folding.Folder.Wrap | coreutils/fold.c:142-171 | The line goes out up to where it is cut, and the rest stays. |
| Folding.Folder.Rescan | coreutils/fold.c:122-172 | The character is taken, or the line was shortened; nothing is lost. |
| Folding.Folder.FoldStream | coreutils/fold.c:117-177 | What is written is the greedy folding of the input. |
| Folding.FoldAll | coreutils/fold.c:106-183 | The same for all inputs in turn; the exit status says whether one could not be opened. |

## Left out

- gzip's header, trailer, CRC-32, file handling and options.
- gzip's compression levels: the search limits are parameters of `Deflating.Compress`, with a chain limit of at least four.
- The unaligned-store variants of `put_16bit` and `put_32bit`, and all debugging code.
- BlockEncoding.StoredFits: assumes fewer than 0x4000 tokens, as in the default memory model; in the others the encoder's contract asks for a stretch below 65536 bytes, which the window guarantees.
- LzoOptimizing.OptimizeStream: streams without an end marker, and those whose output does not fit, are not modelled, because the code has no bounds checks of its own for them.
- The LZO compressors' search for matches and lzop's file format; what they write for a given choice of matches is `LzoWriter`.
- factor's reading of numbers from text and from standard input.
- dpkg's archives, scripts, file removal, status-file writing, telling apart the fields of a control file, and the conflicts half of `check_deps`.
- DpkgParse.AddSplitDependencies: a version clause without an operator, an illegal operator and a blank field end in a failure; the code leaves the first and the last undefined.
- DpkgTables.NameTable.Search: asks for a free slot or a known key, because a search of a full table for a new key does not end in the code either (`DpkgTables.NameSearchEnds`).
- DpkgTables.MakeHash: for bytes from 128 on the code shifts a negative or overflowing int, which C leaves undefined; the model takes bytes as unsigned.
- EqualBytes.ReachesEnd: follows the positions of the loop with reads that deliver all they are asked for; it is a function of its own, not derived from `Deflating.Deflater.Step`, whose reads are arbitrary. That every search finds the string before is part of that function.
- DebianVersion.SplitRender: epochs are taken modulo 2^32 for any number of digits; C leaves `atoi` above INT_MAX undefined, and glibc saturates from 2^63 on.
- DebianVersion.EpochFound: the same, as it takes the digits for a number of any size.
- expr's regular expressions, and the warning for a leading `^`.
- ExprEvaluating.ArithmeticCommon: a result that 64 bits do not hold, which C leaves undefined, is a failure of its own.
- fold's option parsing; a failing read or write.
- All other applets.
