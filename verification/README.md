# Kyte runtime verification

Kyte links a DEFLATE codec with its checksums (`deps/zlib`) and a runtime of its own
(`src/runtime`). This project models the algorithms of both that are hard to get right and
proves what they promise, for every input and every run.

The models follow the source's own form. An object that the source updates in place is a class
(`Deflater`, `TreeBuilder`, `BitBuffer`, `Reader`, `State`, `Window`, `Ring`, `KyteChan`,
`Object`), a buffer is an array, a loop is a loop. Each method is proved against a specification
that owes nothing to it, and what the source promises is proved about that specification.

- **Decoding.** `Canonical` defines the canonical prefix code of a list of lengths (section 3.2.2 of
  RFC 1951) and `BlockDecoding` a machine that decodes a block one bit string at a time (sections
  3.2.3 and 3.2.5). `InflateTable` builds the two-level tables and is shown to look up exactly that
  code. `InflateBlock` and `FastPath`, the checked and the unchecked decoding loop, are both shown
  to run that machine, over the circular window of `CircularWindow`; `Inflate` puts them together
  and shows that the division of input and output into calls does not matter. `BlockHeader` reads
  the description of a block's codes, and `TableBound` proves that their tables always fit.
- **Encoding.** `LazyMatching` and `FastMatching` (over `WindowFeed`, `HashChains` and
  `ChainSearch`) produce tokens that stand for exactly the input, each match adopted by the rule of
  `MatchChoice`. `HuffmanTree` builds the codes and is shown to be optimal; `LengthLimit` repairs
  lengths over the limit; `TreeSending`, `BlTree` and `CodeLengths` send the lengths and read them
  back. `CompressBlock` writes the tokens, and `RoundTrip` proves that a decoder which is given
  those bits writes the input again. `DynamicBlock` puts a whole block together and shows that it
  takes exactly the bits that building its trees had counted, and `BlockTrip` that it is read back
  to its codes and tokens. `FormatLaws` states in numbers of its own what both sides share.
- **Checksums.** `CrcField` is arithmetic on polynomials over GF(2) modulo the CRC polynomial.
  The braided loop of `CrcBraids` and the combination in `Crc32` are shown to equal one bit at a
  time. `Adler32` delays its reductions.
- **Decimals.** Alignment, rounding, comparison, sums, products, parsing and printing on 34
  digits (section 4.3.1 of IEEE 754-2008), with the exact conditions where they round twice.
- **Protocols.** The io_uring rings (`Uring`), the channel between coroutines (`AsyncChannel`)
  and reference counting (`RefCount`) run against an environment that may step in at every
  access; the HTML scanner (`HtmlScan`, `HtmlEscape`) looks at eight bytes at once.

Some of what the source says of itself, or relies on, holds only in part. Each of these has a
failing input and the exact condition, for all inputs, under which it holds:

- That fewer than eight bits are held on entry to `inflate_fast` (deps/zlib/inffast.c:23-29):
  always so exactly when no literal/length code word is longer than eight bits
  (`EntryBits.EntryBitsIff`, `EntryBits.LongWordEnters`, `EntryWitness.EnteredWithEight`). What
  holds for every code, and is enough, is that all bits held but the last byte contain no whole
  code word (`FastPath.InflateFast`).
- That the sum of two decimals is the exact sum rounded once (`DecimalSums.SumIsExactIff`,
  `DecimalSums.SumRoundedTwice`), and that a printed decimal reads back
  (`DecimalPrint.TextRoundTrip`, `DecimalPrint.TinyIsLost`).
- That one byte added to an Adler-32, or two values combined, are reduced by the subtractions there
  (`Adler32.Adler32Z`, `Adler32.OneTooFew`, `Adler32.Combine`, `Adler32.CombineTooFew`): not from
  every starting value.
- That the scan for HTML metacharacters stays within its 32-bit index (`HtmlScan.FindMeta`,
  `HtmlScan.LateStart`): not at the last few starts and lengths below 2^31.

## Model

| member | source | states |
|---|---|---|
| Canonical.PrefixFree | deps/zlib/trees.c:202-231 | Of the bit-reversed canonical codes of any lengths with a Kraft sum of at most one, no two can begin the same bits: a buffer that starts with the codes of s and of t has s equal to t. |
| Canonical.CompleteDecodes | deps/zlib/inftrees.c:125-133 | When the Kraft sum is exactly one, every bit buffer begins with the code of some symbol. |
| FormatLaws.WordBits | deps/zlib/trees.c:202-231 | The canonical words in numbers: the first word of a length is the one after the last shorter word, with a zero appended; the words of one length follow each other as their symbols do; and they are sent from the most significant bit down (section 3.2.2 of RFC 1951). |
| FormatLaws.ByteBits | deps/zlib/inflate.c:472-499 | The bits of a byte are read from the least significant up (section 3.1.1 of RFC 1951). |
| FormatLaws.ValAppend | deps/zlib/inflate.c:490-499 | In a number read from bits, the later a bit the more it counts. |
| TreeCodes.GenCodes | deps/zlib/trees.c:202-231 | From the counts per length, every symbol with a length gets its bit-reversed canonical code and keeps its length; every other element of the tree keeps its value. |
| SymbolOrder.SortSymbols | deps/zlib/inftrees.c:135-142 | The counting sort leaves in `work` exactly the symbols with a length, by length and, within a length, by symbol. |
| SymbolOrder.OverSubscribed | deps/zlib/inftrees.c:125-133 | If the running count of free codes would go below zero at any length, the Kraft sum is above one, so refusing there refuses no usable code. |
| TableSteps.AdvanceCode | deps/zlib/inftrees.c:234-243 | Adding one at the top of a bit-reversed code word gives the reversal of the next code word, the carry included and the last word followed by 0. |
| TableSteps.SizeSub | deps/zlib/inftrees.c:261-269 | The width found for a sub-table is enough for every later code word with the same root bits; and it is that of the current word, or the words shorter than it do not fill the slot. |
| TableSpace.SizeIsLongest | deps/zlib/inftrees.c:261-272 | In a complete code that width is the length of the longest code word with those root bits, so the space of a table depends on the lengths alone. |
| TableSpace.SizeEnd | deps/zlib/inftrees.c:271-275 | The running count of entries used never passes, and ends at, the root table plus one sub-table for each distinct root slot of a longer code word. |
| TableBound.SubTablesAtMost | deps/zlib/inftrees.c:261-275 | The sub-tables of a complete code have together at most as many entries as there are words longer than the root width, and 2^(15 - root) - 1 - (15 - root) more. |
| TableBound.LengthsFit | deps/zlib/inftrees.h:38-51 | No complete code of up to 286 lengths takes more than 852 entries with a root table of 9 bits. |
| TableBound.DistancesFit | deps/zlib/inftrees.h:38-51 | No complete code of up to 30 lengths takes more than 592 entries with a root table of 6 bits. |
| TableBound.Enough | deps/zlib/inftrees.h:38-51 | For all lengths `inflate_table` accepts from `inflate`, with the widths it is called with, the exact size of the table is within `ENOUGH_LENS` and `ENOUGH_DISTS`: the result +1 does not occur. |
| InflateTable.InflateTable | deps/zlib/inftrees.c:32-299 | For every list of lengths: the result is -1 exactly when the code is over-subscribed or incomplete in a way that is not allowed; +1 exactly when it is acceptable, has a symbol, and its exact size exceeds the table space of its kind; otherwise 0, and then looking up any bits in the root table and then its sub-table finds exactly the symbol whose code they begin with and that code's length, the entries used are exactly that size, and nothing outside the region is written. The root width is the requested one brought between the shortest and the longest length. |
| FormatLaws.LengthLaw | deps/zlib/inftrees.c:55-60 | Length code c, for the decoder and for the encoder (deps/zlib/trees.c:62-63): base c + 3 and no extra bits below 4; from 4 on c/4 - 1 extra bits and base 3 + (4 + c mod 4) 2^(c/4 - 1); the last is 258 alone. |
| FormatLaws.DistanceLaw | deps/zlib/inftrees.c:61-69 | Distance code d, for both: base d + 1 and no extra bits below 2; from 2 on d/2 - 1 extra bits and base 1 + (2 + d mod 2) 2^(d/2 - 1). |
| FormatLaws.LengthEntry | deps/zlib/inftrees.c:207-224 | What a table tells of a literal/length symbol, in numbers: the byte, the end of the block, base and extra bits, or that it is not valid. |
| FormatLaws.DistanceEntry | deps/zlib/inftrees.c:207-224 | The same of a distance symbol. |
| BlockDecoding.LookUpExtends | deps/zlib/inflate.c:1036-1046 | A symbol found in some bits is the symbol found in any longer input, so decoding before all input has come is sound. |
| FormatLaws.LengthStep | deps/zlib/inflate.c:1036-1075 | What a literal/length symbol makes the decoding machine do, in numbers. |
| FormatLaws.DistanceStep | deps/zlib/inflate.c:1087-1114 | The same of a distance symbol. |
| BitReader.Reader.NeedBits | deps/zlib/inflate.c:472-488 | Pulling bytes leaves the unread bits as they were; it stops short only with no input left, and never pulls a byte more than it has to. |
| BitReader.TooFewBits | deps/zlib/inflate.c:1036-1046 | When the entry found needs more bits than are held, no code word is decided by the bits held. |
| BitReader.TightTakes | deps/zlib/inffast.c:23-29 | Bits held in excess of a byte contain no whole code word, so the next code word leaves less than a byte of them. |
| EntryBits.EntryBitsIff | deps/zlib/inffast.c:23-29 | What state LEN can be left holding for want of input, in a usable code, is always less than eight bits if and only if no literal/length word is longer than eight bits. |
| EntryBits.ShortEntry | deps/zlib/inffast.c:23-29 | With no word longer than eight bits, every state in LEN, the fast path's entry included, holds less than eight. |
| EntryBits.LongWordEnters | deps/zlib/inflate.c:1026-1029 | With any longer word: every session that stands between two words with its input used up, given the first byte of that word and then six bytes and room for 258, comes to the fast path with exactly eight bits held. |
| EntryWitness.EnteredWithEight | deps/zlib/inffast.c:23-29 | One such state, built from a table of its own, at the entry of the fast path with eight bits. |
| EntryLookup.NextEntry | deps/zlib/inflate.c:1036-1061 | The lookup through root and sub-table gives the entry of the symbol the unread bits begin with and drops exactly its bits; it fails only at the end of the input with the symbol undecided, and then has dropped nothing, so what is held decides no word. |
| InflateBlock.LenState | deps/zlib/inflate.c:1026-1075 | State LEN makes the decoding machine's steps for one literal, length, end of block or invalid code; it stops only at the end of the input, when the machine has no step either, and leaves the machine where it was. |
| InflateBlock.LenExtState | deps/zlib/inflate.c:1076-1086 | State LENEXT adds the extra bits as the machine does, or waits for input with nothing changed. |
| InflateBlock.DistState | deps/zlib/inflate.c:1087-1114 | State DIST makes the machine's step for a distance code, the invalid ones included, or waits for input with nothing changed. |
| InflateBlock.DistExtState | deps/zlib/inflate.c:1115-1131 | State DISTEXT adds the extra bits as the machine does, or waits for input with nothing changed. |
| InflateBlock.MatchState | deps/zlib/inflate.c:1132-1176 | One piece of a match, from the window or from the output, is a run of the machine's single-byte copies; a distance too far back is the machine's error; it waits only for room to write. |
| InflateBlock.LitState | deps/zlib/inflate.c:1177-1182 | State LIT writes the literal as the machine does, or waits for room. |
| MatchCopy.PieceRuns | deps/zlib/inflate.c:1132-1176 | Any piece whose bytes each equal the byte `offset` before them, the piece's own included, is what the machine copies byte by byte. |
| Tokens.CopyBackAt | deps/zlib/inflate.c:1167-1173 | In an expanded match every byte equals the one `distance` before it, also when the match overlaps itself (section 3.2.3 of RFC 1951). |
| CircularWindow.Window.UpdateWindow | deps/zlib/inflate.c:368-412 | After showing the window any output, it stands for the whole history followed by that output: its content, in order, is the most recent part of it. |
| CircularWindow.Window.GetDictionary | deps/zlib/inflate.c:1278-1295 | What is read out is exactly the last bytes of the history, as many as the window holds. |
| CircularWindow.Window.Locate | deps/zlib/inflate.c:1135-1161 | For every distance into the window it finds where those bytes lie: the piece found is the history from that distance on, at least one byte and never past the end of the window. |
| FastPath.FastPass | deps/zlib/inffast.c:98-287 | With six bytes of input and room for 258 of output, one unchecked round is a run of the decoding machine to LEN, TYPE or BAD that reads at most six bytes and writes at most 258. |
| FastPath.ReturnUnused | deps/zlib/inffast.c:289-293 | Giving back whole bytes leaves the unread bits as they were, with less than a byte held. |
| FastPath.InflateFast | deps/zlib/inffast.c:50-302 | From its entry conditions the fast path is a run of the same machine as the checked states, so output, bit position and mode are theirs; it makes progress, keeps the invariant and returns holding less than a byte. |
| InflateRuns.RunsFeed | deps/zlib/inflate.c:590-600 | What was decoded stays decoded when more input arrives. |
| InflateRuns.RunsSight | deps/zlib/inflate.c:1135-1161 | With all distances at most 32768, a run that sees only the last 32768 bytes is a run that sees all of the output. |
| Inflate.RunStates | deps/zlib/inflate.c:1026-1182 | The states together, with the fast path where it may be taken, run the machine to where it cannot go on: the block's end, an error, no room to write, or no input. |
| Inflate.Leave | deps/zlib/inflate.c:1236-1250 | Leaving a call hands the output to the window and changes neither the output so far nor the unread input; the window sees all of the output it can hold. |
| Inflate.InflateCall | deps/zlib/inflate.c:590-620 | One call with any new input and any room runs the machine on from where the last call left it, writes its output at the place given and nowhere else counted, and stops only at the end of the block, an error, for want of input, or with the room used up; when for want of input, all input was taken. |
| Inflate.NewSession | deps/zlib/inflate.c:590-620 | A decoder with nothing read or written and a window of 32768 bytes or more is at the start of a session, so every result about sessions holds from there. |
| Inflate.Decode | deps/zlib/inflate.c:590-620 | With a 32K window, any sequence of calls stays on the one run of the machine over all of the input so far, with all of the output in reach. |
| Inflate.CallsDoNotMatter | deps/zlib/inflate.c:570-588 | Two decoders given the same block in any two divisions into calls: one's output begins with the other's, and when neither can go on they agree on output, mode and unread input. |
| StringHash.OldBytesGone | deps/zlib/deflate.c:131-163 | The rolling key, whatever it was before, is after three bytes their hash and nothing else: older bytes have been shifted out. |
| StringHash.ThirdByte | deps/zlib/deflate.c:1417-1425 | With at least eight hash bits, equal hashes and two equal first bytes force the third bytes to be equal. |
| HashChains.InsertKeeps | deps/zlib/deflate.c:150-163 | Inserting a string keeps every head and link: each names an earlier inserted string of the same hash, or one out of the window's reach. |
| HashChains.SlideKeeps | deps/zlib/deflate.c:187-212 | Subtracting the window size from every head and link, down to 0, keeps the same chains for the slid window. |
| HashChains.ChainThird | deps/zlib/deflate.c:1417-1425 | Two strings of one chain that agree on two bytes are a match of three. |
| WindowFeed.InsertString | deps/zlib/deflate.c:150-163 | Inserting keeps the chains and the rolling key and returns an earlier window position whose string has the same hash, or 0. |
| WindowFeed.SlideHash | deps/zlib/deflate.c:187-212 | Both tables describe the slid window afterwards. |
| WindowFeed.FillWindow | deps/zlib/deflate.c:251-365 | Reading on keeps window, chains and key in agreement with the text; the position in the text and the pending match stay what they were across a slide; exactly the input consumed is appended; and it stops only with enough lookahead or no input left. |
| ChainSearch.TryMatch | deps/zlib/deflate.c:1383-1454 | The quick tests at both ends pass over only strings that agree on no more bytes than the best so far; for the others the length is exactly how far the window agrees, and within the lookahead that is a match of the text. |
| ChainSearch.LongestMatch | deps/zlib/deflate.c:1348-1489 | The strings looked at are those of the chain that are near enough, nearest first and at most as many as the limit allows, up to the first that is good enough; the best length is the longest agreement among them, if longer than the one to beat, at the nearest string that has it; and what is returned is that length cut to the lookahead. |
| ChainSearch.NoneLonger | deps/zlib/deflate.c:1339-1346 | No string looked at matches the text for longer than what the search returns. |
| DeflateState.CopyOfMatch | deps/zlib/deflate.c:1959-1961 | Copying from a match extends the text before it to the text after it. |
| DeflateState.StoredIs | deps/zlib/trees.c:1093-1113 | The three bytes stored for a token read back as that token. |
| MatchChoice.ChosenAt | deps/zlib/deflate.c:1905-1909 | In a list of tokens so chosen: each match is the one found for its string, and at the next position none longer was found; each literal stands where no match was found, or a longer one at the next position. |
| LazyMatching.Search | deps/zlib/deflate.c:1937-1963 | What is decided for a string is the longest match among the strings looked at that is longer than the one held back, cut to the lookahead, unless it is no more than 5 long and filtered, or 3 and too far; if none is longer, no more than the one held back; and none, if the chain has no string within reach or the match held back is long enough already. |
| LazyMatching.DeflateSlow | deps/zlib/deflate.c:1910-2030 | From any state between calls it consumes input, keeps the invariant (the tokens stand for the text up to the current position, less a byte or match held back, and are chosen lazily among the matches found), may return whenever output room is short, and finishes only with all of the input told; and the symbol buffer never passes `sym_end`, a block going out whenever it gets there. |
| FastMatching.EagerSearch | deps/zlib/deflate.c:1836-1847 | What is found for a string is the longest match among the strings looked at, cut to the lookahead; none, if the chain has no string within reach. |
| FastMatching.DeflateFast | deps/zlib/deflate.c:1811-1900 | The same for the levels without lazy matching: no byte is held back, and every token is the match found for its string, or a literal where none was. |
| Deflate.SlowCall | deps/zlib/deflate.c:1910-2030 | Any number of calls with any inputs, limits and flush requests: the tokens tallied so far expand to exactly the text given so far up to the current position, less the one byte held back; each token is the lazy choice among the matches found; every match has length 3 to 258 and distance 1 to MAX_DIST; and after finishing they stand for all of the text; between calls the symbol buffer is short of `sym_end`. |
| Deflate.FastCall | deps/zlib/deflate.c:1811-1900 | The same for the fast levels, with no byte held back and every match taken as it is found. |
| HeapOrder.PqDownHeap | deps/zlib/trees.c:507-526 | Sinking one node makes its subtree a heap, with the same nodes, and touches nothing beyond the heap. |
| HeapOrder.RootLightest | deps/zlib/trees.c:487-526 | The root of a heap is a node of least frequency. |
| PrefixCodes.KraftInequality | deps/zlib/trees.c:617-624 | Any finite prefix code fits the code space: the sum over its words of 2^(m - length) is at most 2^m. |
| HuffmanCost.MergeIsLeast | deps/zlib/trees.c:617-693 | For any weights, no lengths that fit the code space cost less than always merging the two least weights. |
| HuffmanMerges.MadeIsLeast | deps/zlib/trees.c:667-693 | Merges that always take the two lightest nodes there are make nodes of exactly that least total frequency, however ties are broken. |
| TreeLengths.TreeSound | deps/zlib/trees.c:554-574 | Setting every length to its parent's plus one, down the finished tree and clamped at the limit, gives lengths with the counts per length, the bit totals and the overflow that belong to them; without overflow they fill the code space and cost what the merges made. |
| TreeDepths.TreeOverflow | deps/zlib/trees.c:554-575 | That pass counts an overflow exactly when some symbol lies deeper in the merged tree than the limit. |
| LengthLimit.PassRepairable | deps/zlib/trees.c:554-575 | The counts that an overflowing pass leaves satisfy the invariant of the repair loop: the excess of the Kraft sum is half the overflow, in units of the last level. |
| LengthLimit.Repair | deps/zlib/trees.c:580-591 | The repair loop always finds a leaf shorter than the limit, never takes a count below zero, ends, and leaves the same number of codes with a Kraft sum of exactly one. |
| BitLengths.OrderDescends | deps/zlib/trees.c:593-611 | Merging the lightest, the nodes are taken in order of frequency, which is the order the repaired lengths are given out in. |
| BitLengths.GenBitlen | deps/zlib/trees.c:538-611 | From a finished tree: lengths within the limit and a Kraft sum of one, counts per length, and bit totals grown by exactly frequency times length and extra bits; it was limited exactly when some symbol is too deep, and when not, the cost is the least; and when it was, a symbol that occurs more often than another never has the longer word. |
| OptimalCodes.CheapestCode | deps/zlib/trees.c:617-624 | Lengths that cost what merging costs are the cheapest of all prefix codes for those frequencies, over all sets of words and not only canonical ones. |
| OptimalCodes.CheapestRarer | deps/zlib/trees.c:617-624 | In any such cheapest lengths, of two symbols the one that occurs more often never has the longer word. |
| HuffmanTree.MergeOnce | deps/zlib/trees.c:667-693 | One round takes the two lightest nodes, joins them under a new one and restores the heap, keeping the whole invariant of the construction. |
| HuffmanTree.BuildTree | deps/zlib/trees.c:625-704 | For all frequencies (as many forced to 1 as are needed for two symbols): lengths within the limit that fill the code space, for exactly the symbols that occur, each with its canonical code; a symbol that occurs more often never has the longer word, limited or not; no prefix code is cheaper unless some symbol is deeper in the merged tree than the limit, and then some length is at the limit; and the two bit totals grow by exactly what the block will cost with these and with the static codes. |
| OptimalCodes.StaticIsBill | deps/zlib/trees.c:571-573 | The static total is what the same counts cost with the static lengths. |
| ForcedCodes.ForcedFree | deps/zlib/trees.c:648-660 | Taking one bit off the total for every symbol forced to occur leaves exactly the bits of the symbols that do occur. |
| LengthRuns.RunsExpand | deps/zlib/trees.c:751-792 | The runs chosen for any list of lengths, after any lengths before it, expand to that list, and every repeat is in 3 to 6, 3 to 10 or 11 to 138 and has a length to repeat. |
| TreeSending.ScanTree | deps/zlib/trees.c:710-745 | Every code-length symbol is counted exactly as often as the runs contain it; the tree changes only in its guard. |
| TreeSending.SendTree | deps/zlib/trees.c:751-792 | What is written is exactly the code words and extra bits of those runs. |
| BlTree.RunsLength | deps/zlib/trees.c:751-792 | The runs take exactly the bits that their symbols' counts are billed for. |
| BlTree.BuildBlTree | deps/zlib/trees.c:798-825 | The code built for both trees' runs is complete, has lengths of at most 7 and a word for every symbol either will send; the index returned is the last in the sending order with a length, and never below 4, so at least five lengths are sent; the bit total grows by exactly the bits of both lists of runs, three for each length sent, and 14; and the trees change only in their guards. |
| CodeLengths.TreesRead | deps/zlib/trees.c:831-853 | What is sent for the literal and then the distance tree is read back as the two lists of lengths one after the other, and nothing after it is touched. |
| CodeLengths.CodeLensState | deps/zlib/inflate.c:939-985 | The state CODELENS, stopped and entered again anywhere, is a run of the reading machine for run-coded lengths; it is done only with all lengths, and starves only when no step can be made. |
| FormatLaws.RepeatStep | deps/zlib/inflate.c:948-984 | What a code length symbol makes of the lengths read, in numbers: itself below 16; 16 the last one 3 to 6 times, 17 three to ten zeros, 18 from 11 to 138. |
| FormatLaws.RepeatBits | deps/zlib/trees.c:751-792 | What is sent for a repeat, in numbers: 16 and two bits, 17 and three, 18 and seven. |
| CodeTables.TrStaticInit | deps/zlib/trees.c:294-347 | The tables built give every match length and every distance its code, such that base plus extra bits is the value and the extra bits suffice; length 258 has the last code. |
| BitOutput.BitBuffer.SendBits | deps/zlib/trees.c:252-285 | The bits written are those written before followed by the value's, least significant first, across any boundary of the 16-bit buffer. |
| BitOutput.BitBuffer.BiFlush | deps/zlib/trees.c:166-176 | Flushing writes out whole bytes and neither adds nor loses a bit; at most seven stay. |
| BitOutput.BitBuffer.BiWindup | deps/zlib/trees.c:181-192 | Winding up adds zero bits up to the next byte and nothing else. |
| CompressBlock.CompressBlock | deps/zlib/trees.c:898-949 | What is written for a symbol buffer is exactly the code words and extra bits of its tokens in order, then the end-of-block code. |
| CompressBlock.BlockRuns | deps/zlib/trees.c:898-949 | The symbol round trip: for all encodable token lists and usable codes, the decoding machine on those bits writes the tokens' expansion, stops at end of block and leaves all following bits unread. |
| BlockLength.AllCovered | deps/zlib/trees.c:1093-1117 | Codes with a word for every symbol counted can write every token counted. |
| BlockLength.TokensLength | deps/zlib/trees.c:898-949 | The tokens of a block and its end take exactly the bits that the counts of their symbols are billed for, extra bits included. |
| DynamicBlock.HeaderFields | deps/zlib/trees.c:831-845 | Field by field: five bits of literal codes less 257, five of distance codes less 1, four of lengths sent less 4, and those lengths in three bits each, in the order written out there. |
| DynamicBlock.SendAllTrees | deps/zlib/trees.c:831-853 | What is written begins with those fields, and goes on with the runs of both trees in the code that they describe. |
| DynamicBlock.FlushDynamic | deps/zlib/trees.c:1000-1072 | From the symbol buffer and the counts of its symbols: the block written as a dynamic one takes exactly 3 bits more than the `opt_len` that building the three trees counted; it is its type, its trees and its tokens bit for bit, with complete codes that have a word for every token; no length that is not sent is other than zero. |
| BlockHeader.PlacesAt | deps/zlib/inflate.c:607-608 | The lengths that came stand in their places in the code length code, and all others are zero. |
| BlockHeader.Header.TypeState | deps/zlib/inflate.c:827-860 | State TYPEDO makes the header machine's step on three bits, or waits for input with nothing changed. |
| BlockHeader.Header.TableState | deps/zlib/inflate.c:898-916 | State TABLE reads the three sizes from 14 bits as the machine does, and refuses more than 286 lengths or 30 distances; or it waits with nothing changed. |
| BlockHeader.Header.OneLength | deps/zlib/inflate.c:917-922 | State LENLENS takes one length of three bits into its place, or waits with nothing changed. |
| BlockHeader.Header.BuildCodes | deps/zlib/inflate.c:923-938 | With all of them there, the table decodes exactly the code they describe, and they are refused exactly when they are neither a complete code nor all zero. |
| BlockHeader.Header.ReadLengths | deps/zlib/inflate.c:939-985 | State CODELENS, over a table of its own, runs the machine to all lengths, to a wrong repeat, or to the end of the input. |
| BlockHeader.Header.BuildTables | deps/zlib/inflate.c:987-1022 | Both tables decode exactly the two codes that were read; they are refused exactly when the end of the block has no word or one of the codes is not acceptable. |
| BlockHeader.Header.Read | deps/zlib/inflate.c:827-1022 | Entered at any of its states and stopped anywhere by the end of input, reading a header is one run of the machine on all of the bits. |
| BlockTrip.HeaderReads | deps/zlib/inflate.c:898-1022 | What `send_all_trees` wrote is read back: the machine comes to exactly both codes' lengths, by way of exactly the code length code, with the bits after the header unread. |
| BlockTrip.BlockReads | deps/zlib/trees.c:1000-1072 | A dynamic block that was written, whatever follows it, is read back: type, codes, and then the tokens' expansion to the end of the block, with the bits after it unread. |
| BlockTrip.ReadBlock | deps/zlib/inflate.c:827-1022 | The states on a block that was written always end with tables that decode exactly the codes it was written with, at the first bit of its tokens. |
| RoundTrip.BlockDecodes | deps/zlib/trees.c:898-949 | A block of tokens that continue a text, decoded after what came before it, gives the text up to where they stand. |
| RoundTrip.DecoderGetsText | deps/zlib/inflate.c:1026-1182 | For tokens that spell a text: a decoder that was given their bits in any pieces, by either of its paths, and can go no further has written exactly that text, is at the end of the block, and has the bits after it unread. |
| CrcField.MulAssociates | deps/zlib/crc32.c:151-170 | Multiplication modulo the CRC polynomial is associative. |
| CrcField.MulCommutes | deps/zlib/crc32.c:151-170 | It is commutative. |
| CrcProduct.MultModP | deps/zlib/crc32.c:151-170 | The loop with its early exit computes the product modulo the polynomial for all operands the source allows. |
| CrcProduct.AllAround | deps/zlib/crc32.c:172-187 | Squaring x thirty-two times modulo the polynomial gives x again, which is why the index into the table of squares may be taken modulo 32. |
| CrcProduct.X2nModP | deps/zlib/crc32.c:172-187 | For all n and k it returns x to the power n times 2^k modulo the polynomial. |
| CrcTables.FillBytes | deps/zlib/crc32.c:310-323 | Each entry of the byte table is the CRC register of that byte after eight single-bit steps. |
| CrcTables.FillPowers | deps/zlib/crc32.c:325-329 | Entry k of the table of powers is x to the power 2^k. |
| CrcTables.FillBraids | deps/zlib/crc32.c:528-540 | Entry (k, i) of the braid tables is byte i moved past the distance from its place in a word to the same word of the next block. |
| Crc32.Residue | deps/zlib/crc32.c:694-1010 | For every starting value and every string: the string with its CRC after it, lowest byte first, has the CRC 0x2144df1c (section 8 of RFC 1952). |
| Crc32.CrcAppends | deps/zlib/crc32.c:694-1010 | Calls in a row give the CRC of the whole. |
| Crc32.CombineIs | deps/zlib/crc32.c:1021-1026 | The CRC of s followed by t is that of s times x to the power 8 times the length of t, plus that of t. |
| Crc32.Combine | deps/zlib/crc32.c:1021-1026 | From the CRCs of any two byte strings and the length of the second, the CRC of the two in a row. |
| CrcWords.CrcWord | deps/zlib/crc32.c:676-681 | Eight table steps on a word are the CRC register after its eight bytes. |
| CrcWords.BraidWord | deps/zlib/crc32.c:799-834 | The sum of eight braid table entries is a word's register moved past all of a block but that word. |
| CrcBraids.LastBlock | deps/zlib/crc32.c:837-857 | Folding the five registers over the last block gives the register after the whole of it. |
| CrcBraids.Braided | deps/zlib/crc32.c:755-857 | Five braids over any number of blocks give the register of one byte after another. |
| CrcBraids.Crc32Z | deps/zlib/crc32.c:694-1010 | For every buffer, at any alignment and length, and every starting value, the result is the bit-at-a-time CRC; a null buffer gives 0. |
| Adler32.ChecksumIs | deps/zlib/adler32.c:61-125 | The checksum in numbers: 1 and all bytes added up, and as many ones as bytes and every byte times the number of bytes from it on, each modulo 65521, the second in the high half (section 8.2 of RFC 1950). |
| Adler32.FoldIs | deps/zlib/adler32.c:61-125 | Reducing both sums modulo 65521 after every byte is the same as reducing the plain sums at the end. |
| Adler32.ChecksumAppends | deps/zlib/adler32.c:61-125 | Calls in a row give the checksum of the whole. |
| Adler32.NoOverflow | deps/zlib/adler32.c:10-13 | Over 5552 bytes of 255 from reduced sums neither sum reaches 2^32. |
| Adler32.Adler32Z | deps/zlib/adler32.c:61-125 | With all its shortcuts the result is the checksum of RFC 1950 for every buffer and every starting value, reduced or not, except for a single byte where one subtraction does not reduce a sum, and then it is not; a null buffer gives 1. |
| Adler32.OneTooFew | deps/zlib/adler32.c:71-79 | A starting value and a byte for which one subtraction does not reduce. |
| Adler32.ReducedEnough | deps/zlib/adler32.c:71-79 | A starting value with reduced sums is never such an exception. |
| Adler32.CombineIs | deps/zlib/adler32.c:133-155 | Both sums of s followed by t from those of s and those of t begun at 1, and the length of t modulo 65521. |
| Adler32.CombineTooFew | deps/zlib/adler32.c:146-153 | A value that is not reduced and the checksum of a string for which those subtractions are too few. |
| Adler32.Combine | deps/zlib/adler32.c:133-155 | For any first value, reduced or not, and the checksum of any string of the length given: the result is the first value carried on over that string, if and only if the subtractions there are enough; for two checksums they are, and it is the checksum of the two strings in a row. A negative length gives 0xffffffff. |
| Decimal128.DecodePack | src/runtime/decimal.cpp:18-26 | A decimal whose coefficient and exponent fit is read back from its packed word. |
| Decimal128.PackIs | src/runtime/decimal.cpp:18-26 | The fields of a word in numbers: the sign in bit 127, the exponent plus 6176 from bit 113 on, and the coefficient. |
| Decimal128.PackClamps | src/runtime/decimal.cpp:18-26 | An exponent below -6176 or above 6111 is packed as that bound. |
| Decimal128.OneIs | src/runtime/decimal.cpp:18-26 | The word of 1 is 0x3040, then zeros, and a last bit of one. |
| Decimal128.WordIs | src/runtime/decimal.cpp:160-171 | What any word stands for, in numbers: special when both bits below the sign are set. |
| Decimal128.RoundDrop | src/runtime/decimal.cpp:184-194 | Dropping k digits gives the nearest integer to the coefficient over 10^k, the even one of two equally near, for all k. |
| Decimal128.NearestIs | src/runtime/decimal.cpp:184-194 | The nearest integer in numbers: the quotient when the remainder is below half or just half after an even quotient, and one more otherwise. |
| DecimalArith.Align | src/runtime/decimal.cpp:226-238 | Both operands are brought to one exponent, the lower of the two but at most 37 places below the higher leading digit: exactly when that is not above the operand's own, rounded half to even when it is; no coefficient passes 10^37. |
| DecimalArith.SignIs | src/runtime/decimal.cpp:344-355 | The sign of a difference is the order of the two values, each a signed coefficient times a power of ten. |
| DecimalArith.CmpValues | src/runtime/decimal.cpp:344-355 | Although alignment may round, the sign returned is that of the exact difference of the two values, for all coefficients a word can hold. |
| DecimalArith.Cmp | src/runtime/decimal.cpp:344-355 | The same on all packed words, coefficients of more than 34 digits included; special values compare equal to everything. |
| DecimalArith.SumExact | src/runtime/decimal.cpp:240-255 | With all digits of both operands within 37 places, the sum of the aligned operands, rounded, is the exact sum rounded once to 34 digits. |
| DecimalArith.ExactSumIs | src/runtime/decimal.cpp:240-255 | The exact sum in numbers: the signed coefficients in units of the lower exponent, added; the first 34 digits kept, the next rounded away half to even, a carry taken into the exponent. |
| DecimalSums.RoundedTwice | src/runtime/decimal.cpp:226-255 | Rounding first to p and then to an even multiple q of it equals rounding once, exactly unless the first rounding moved the value onto a tie of the second that goes the other way. |
| DecimalSums.SumIsExactIff | src/runtime/decimal.cpp:240-255 | For all pairs of decimals: the sum as the code computes it is the exact sum rounded once, if and only if the aligned sum is not such a tie and the operand with the higher leading digit is not a zero standing above the other. |
| DecimalSums.SumRoundedTwice | src/runtime/decimal.cpp:240-255 | A pair of decimals 39 places apart whose sum comes out different from the exact sum rounded once. |
| DecimalSums.ZeroOnTopValue | src/runtime/decimal.cpp:226-255 | With a zero standing above the other operand the sum still has the exact value if and only if no nonzero digit of that operand is below the common exponent. |
| DecimalArith.Add | src/runtime/decimal.cpp:257-259 | For all packed words: the packed aligned sum, which within 37 places and with the exponent in range decodes to the exact sum rounded once; a special operand gives zero. |
| DecimalArith.Sub | src/runtime/decimal.cpp:261-265 | The same with the sign of the second operand turned over. |
| DecimalArith.Mul | src/runtime/decimal.cpp:267-278 | Operands with more than 34 digits between them are shortened, to exactly 34 together, each that is shortened to 17 or more and less than 5/9 of a unit in its last place away; others are not; and the result is the exact product of what is left, negative when one operand is and it is not zero. |
| DecimalText.GuardRounds | src/runtime/decimal.cpp:46-87 | For any string of more than 34 digits, the 35th digit and whether a nonzero one follows decide the rounding half to even of the whole number. |
| DecimalText.ReadsAsSpelt | src/runtime/decimal.cpp:28-99 | For all blanks, signs, digits with underscores anywhere among them, a point and more digits, and an exponent after e or E with its own sign: what is read is the number of all digits times ten to the signed exponent less the digits after the point, rounded half to even at the 34th written digit, a carry taken into the exponent. |
| DecimalText.Parse | src/runtime/decimal.cpp:28-99 | For every string the packed word is that of what is read; so for every way to spell a literal it packs the number spelt. |
| DecimalPrint.ToString | src/runtime/decimal.cpp:109-151 | The text is the sign, the coefficient's digits and the decimal point or zeros its exponent asks for; a special value prints as 0. |
| DecimalPrint.TextIs | src/runtime/decimal.cpp:109-151 | The text in numbers: a minus sign exactly for a value below zero; the digits before and after the point are together the coefficient, with as many after it as the exponent is below zero; or the value in full. |
| DecimalPrint.TextRoundTrip | src/runtime/decimal.cpp:28-151 | Reading the printed text of a decimal gives its value back if and only if no nonzero digit stands below the 34th written one, leading zeros counted. |
| DecimalPrint.TinyIsLost | src/runtime/decimal.cpp:28-151 | A decimal that does not read back: 1 in the 34th decimal place. |
| DecimalPrint.PrintAndParse | src/runtime/decimal.cpp:28-151 | On packed words: printing one and parsing the text gives a word of equal value under exactly that condition. |
| RingIndex.WrapSlot | src/runtime/uring.cpp:178-205 | Wrapping a counter at 32 bits does not change its slot in a ring of up to 2^32 entries that is a power of two. |
| RingIndex.SlotsDiffer | src/runtime/uring.cpp:178-205 | Two counters less than a ring apart never share a slot. |
| Uring.EntryIs | src/runtime/uring.cpp:178-205 | The entry field by field: for POLL_ADD (6) the mask is in the poll field, cut to 32 bits, and the offset is cleared; for any other operation the offset is there. |
| Uring.Ring.SqIndex | src/runtime/uring.cpp:178-205 | The slot of the i-th submission is that of the counter's value under the ring's mask, wrapped or not. |
| Uring.Ring.Prep | src/runtime/uring.cpp:178-205 | With the kernel stepping in between any two accesses, for ever across index wrap: success appends the entry to the staged queue and overwrites none that was not taken; refusal changes nothing and means the ring was full. |
| Uring.Ring.SubmitAndWait | src/runtime/uring.cpp:212-226 | Everything staged is published, the kernel is told exactly how many entries are new, and there is no call when there is nothing to submit or wait for. |
| Uring.Ring.CqReady | src/runtime/uring.cpp:230-236 | The number returned covers all that was posted when the call began and nothing that is not posted when it ends. |
| Uring.Ring.Peek | src/runtime/uring.cpp:254-274 | With the kernel posting between the two reads, the entry read is the i-th completion not yet consumed. |
| Uring.Ring.Advance | src/runtime/uring.cpp:277-282 | Consumption moves on by exactly n, and not for n of 0 or less. |
| Uring.Ring.Drain | src/runtime/uring.cpp:230-282 | Asking what is ready, peeking at each and advancing delivers exactly the completions that follow those delivered before, in order, including all that was posted when it began. |
| Uring.DrainsCompose | src/runtime/uring.cpp:230-282 | The deliveries of one round followed by those of the next are the completions from the first to the last, none twice and none left out. |
| Uring.OverConsumed | src/runtime/uring.cpp:230-252 | A head that has run past the tail, by less than 2^32 less the ring, always shows as more completions than the ring holds, so the guard sees it. |
| AsyncChannel.KyteChan.SendLocked | src/runtime/concurrency.cpp:1274-1287 | A send appends the value and takes the receiver parked longest, if there is one. |
| AsyncChannel.KyteChan.Recv | src/runtime/concurrency.cpp:1289-1300 | A receive takes the oldest value, or finds none and parks the caller at the end of the waiters. |
| AsyncChannel.StepKeeps | src/runtime/concurrency.cpp:1261-1300 | Every step of any sender, receiver or reactor keeps the order of values and of wakeups and leaves no queued value without a receiver on its way while one is parked. |
| AsyncChannel.NoLostWakeup | src/runtime/concurrency.cpp:1274-1300 | In every run, while a receiver is parked, the values queued do not outnumber the receivers awake; when all that were woken have retried, nothing is left for those that are parked and all that was sent was received. |
| AsyncChannel.Delivered | src/runtime/concurrency.cpp:1274-1300 | In every run the values sent are those received followed by those queued, in order, and receivers are woken in the order they parked, each once. |
| RefCount.StepKeeps | src/runtime/alloc.cpp:507-555 | Every single access to the count by any thread keeps the invariant that ties the count to the references held and to the steps under way. |
| RefCount.Safe | src/runtime/alloc.cpp:525-555 | In every interleaving the destructor runs at most once, the free after it and once, both only with no reference left, and no step touches the object once it is freed. |
| RefCount.Counts | src/runtime/alloc.cpp:507-555 | In every interleaving, while any reference is held the count is the number of references and the object is alive. |
| RefCount.NoLeak | src/runtime/alloc.cpp:525-555 | When the last reference is gone and no thread is in the middle of an operation, the object has been destroyed and freed exactly once. |
| RefCount.ImmortalRun | src/runtime/alloc.cpp:513-548 | A negative count never changes in any run, and the object is never destroyed or freed. |
| RefCount.Object.Retain | src/runtime/alloc.cpp:507-523 | Called by a holder with all others stepping in between its accesses: its own accesses are those of the machine, it holds exactly one reference more besides those it was handed, and the object is alive. |
| RefCount.Object.Release | src/runtime/alloc.cpp:525-555 | Called by a holder: it holds exactly one reference less besides those it was handed; its own accesses are those of the machine; and if it takes the count to zero, and only then, it marks, destroys and frees the object, each once. |
| RefCount.Object.End | src/runtime/alloc.cpp:547-553 | The thread that took the count to zero marks, destroys and frees the object, in that order and each exactly once, whatever the others do meanwhile; the count stays at -999. |
| HtmlScan.FoundFirst | src/runtime/core.cpp:798-823 | In spite of the borrows between byte lanes, the word of marks is zero exactly when no byte is a metacharacter, and its lowest mark is at the first that is. |
| HtmlScan.ChunkFirst | src/runtime/core.cpp:806-815 | Eight bytes loaded at once hold the first metacharacter where the byte scan finds it, or none of the eight is one. |
| HtmlScan.FirstIs | src/runtime/core.cpp:654-662 | What ends the scan is one of the bytes 38, 60, 62, 34 and 39, and none of them stands before it. |
| HtmlScan.Scan | src/runtime/core.cpp:654-662 | The byte loop returns the index of the first metacharacter from its start on, or the length. |
| HtmlScan.FindMeta | src/runtime/core.cpp:798-823 | For every buffer and every 32-bit start, negative and past the end included: the index plus eight overflows exactly when the buffer is not empty and the search begins at, or comes to without a hit, the last place below 2^31 in steps of eight from its start; otherwise the word-at-a-time scan returns the same index as the byte scan. |
| HtmlScan.LateStart | src/runtime/core.cpp:798-823 | A start for which the index overflows. |
| HtmlScan.NoOverflow | src/runtime/core.cpp:798-823 | There is no overflow while length and start are at most 2^31 - 9. |
| HtmlEscape.PieceIs | src/runtime/core.cpp:857-865 | Byte by byte, spelt out: `&amp;`, `&lt;`, `&gt;`, `&quot;` and `&#39;` for the five metacharacters, and every other byte as it is. |
| HtmlEscape.RoundTrip | src/runtime/core.cpp:834-869 | Reading the entities of an escaped text back gives the text. |
| HtmlEscape.NoneLeft | src/runtime/core.cpp:834-869 | Every metacharacter an escaped text contains is the ampersand that begins one of the five entities. |
| HtmlEscape.EscapedLength | src/runtime/core.cpp:842-853 | The length worked out beforehand is exactly that of the escaped text. |
| HtmlEscape.Escape | src/runtime/core.cpp:834-869 | Unless the scan's index overflows, the buffer is filled exactly with the escaped text, each piece of it spelt out; the input comes back as it is when there is nothing to escape or no buffer could be had. |

## Left out

Contracts that say less than a reader might expect:

- Deflate.SlowCall: nothing is claimed of how short the output is; the strings looked at are those of a hash chain up to the limits of the level.
- BitLengths.GenBitlen: when a symbol is too deep, the repaired lengths never give a more frequent symbol the longer word, but are not claimed to be the cheapest within the limit, which they need not be.
- DecimalArith.Mul: past 34 digits the product is not claimed to be correctly rounded, which it need not be; the error of each shortened operand is bounded instead.
- InflateTable.InflateTable: code-length codes have lengths within the root width asked for, as 3-bit lengths and a width of 7 do. That 852 and 592 are reached by some codes is not shown, only that they are never exceeded.
- CrcProduct.MultModP: the first operand must not be 0, for which the source's loop does not end.
- DecimalPrint.ToString: texts that do not fit the 80-byte buffer are outside its precondition.
- RefCount.Object.Retain: the count of references does not reach 2^31.

Parts of the repository that are not modelled:

- zlib and gzip headers and trailers, stored blocks, flush modes (`Z_BLOCK`, `Z_TREES`, sync and full flush), preset dictionaries, `inflateSync`, `inflatePrime`, `inflateBack`, `deflateParams`, `deflateBound`, `deflate_stored`, `deflate_rle`, `deflate_huff`: bookkeeping around the parts proved here.
- Reading stored blocks, and the tables of blocks with the fixed codes: their tokens are decoded by the same states. `Z_TREES` and the check of the last block's flag before the next header.
- The choice between stored, static and dynamic blocks: the bit totals it reads are proved, the comparison is not modelled. `_tr_tally` counts symbols one at a time; here the counts are given as those of the tokens (`BlockLength.LUses`, `BlockLength.DUses`).
- How much room `deflate` has for output is any value at any time: the matchers may return at every block end.
- `match_start` may fall below zero when the window slides while no match is pending; the source's unsigned value wraps and is not used, here it is a negative integer. Zeroing the window past the input (`high_water`) is not modelled: no byte past the input decides anything.
- Loops unrolled eight or sixteen times by hand are shown as the loops they unroll. `UNALIGNED_OK` and `FASTEST` are not defined.
- Frequencies are not cut to 16 bits: a block has at most 32767 symbols.
- The tables of crc32.h: built here as `make_crc_table` builds them. The ARM and big-endian branches of `crc32_z`. Lengths are not negative; `uLong` arguments hold 32 bits.
- Decimals: exponent digits beyond an `int`, division, modulo, conversion to and from integers; exponents out of range are clamped by packing, as in the source.
- The parser's index and the indices after the scan are not bounded: lengths are at most 2^31 - 1.
- io_uring: setting up and mapping the rings, and liveness (that the kernel takes or posts anything); the kernel is an environment that keeps its side of the protocol, and memory is sequentially consistent.
- The channel: that a receiver taken off the run queue calls `recv` again is an assumption, as is that a parked coroutine is not done; that steps are eventually taken is not claimed. Reactor timers, `kyte_when_any` and the blocking `Channel` are not modelled.
- Reference counting: objects in an arena, the audit and the dumps; a destructor is one step.
- Crypto stubs, processes, sockets, logging, web views: foreign calls and input and output.
