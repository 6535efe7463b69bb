# AGS tools: verified models of the core algorithms

The tools in this repository unpack, disassemble, optimise, assemble and preprocess Adventure Game Studio files.
This project models the algorithms under the file handling and proves what each of them is for. `dafny verify
dfyconfig.toml` checks all of it.

Loops that fill buffers are methods over arrays, objects whose fields the source updates are classes, and each such
method is proved to do what a function on plain values says. What the source promises is then proved about those
functions.

**Inflate (`miniz_tinfl.c`).** The meaning of a deflate stream is given on a plain sequence of bits with canonical codes
and byte-by-byte copies (`Bits`, `Huffman`, `InflateSpec`; RFC 1951). The decoder with its 10-bit table, overflow tree,
bit buffer, refills, put-back, two-literals loop and three-byte copies is proved to return that meaning for every input
and every output size (`HuffmanTable`, `HuffmanDecode`, `BitReader`, `Inflate`, `InflateStream`, `InflateZlib`,
`FixedCodes`), and the deferred-modulo checksum to be that of RFC 1950 (`Adler32`). Codes of a single symbol are
included: the builder lets them through, and the specification says what bits decode to then.

**Virtual machine and optimisers (`agssim.c`, `agsoptimize`, `asmparse.y`).** `Vm` gives the effect of one instruction on
registers and memory, `Machine` carries it out in place. `Windows` proves each replacement: exact, or up to the dead word
above the stack or up to `bx`; where a rule needs a condition on its registers the condition is proved necessary as well.
`Program` lifts this to whole programs with labels and jumps by a simulation: a run of the old program is matched by one
of the new program. `Matcher` is the streaming line matcher, `Blocks` the passes that mark instructions in place.

**Hash table (`hsearch.c`).** `Probe` shows that triangular probing visits every slot, `HashTable` what a table stands
for and what a slot write does to that, `HTab` the class, refining a finite map through inserts, deletes and rehashes,
with every probe loop ending.

**Run-length codecs (`Targa.h`, `SpriteFile.c`).** Round trips and size bounds (`Runs`, `TargaRle`, `SpriteRle`). The
encoder with three modes and jumps between them is a loop over the same variables; the two jumps into other cases are
carried out in the step that takes them.

**Preprocessor (`preproc.c`).** The expression parser finds exactly the trees parenthesised as its binding powers ask
(`CondExpr`, `Evaluate`), and the three counters for `#if` simulate a stack of groups (`Conditionals`).

**Ring-buffer decoder (`lzw.c`).** Copies through the ring are byte-by-byte copies, and the decoder undoes the coding of
any literals and matches (`Lzw`).

**Assembler and disassembler (`Assembler.c`, `Script.c`).** `ObjectCode` says what it means that a script encodes a text.
The assembler yields such a script exactly for texts that can be assembled, the disassembler prints a text that its
script encodes, and so printing and assembling gives the code back (`RoundTrip`).

Where the code does not do what one would expect, it is modelled as it is, and the exact condition is proved:

- `htab_insert` stops at the first deleted slot, so it stands for a map only when the key is not behind one
  (`HashTable.InsertHoldsIff`, `HTab.InsertTwice`).
- `push, li, pop` and the rule for literal arithmetic are sound only for some registers (`Windows.PushLiPop`,
  `Windows.LiteralArith`).
- The line matcher drops the lines that wait for the rest of a window at the end of the file, and does not try a line that
  breaks a window as the start of another. A file loses lines, and a window in it is missed, exactly if an odd number of
  beginnings of windows stand one behind the other at the end of the file, or directly before the window
  (`Matcher.NothingLost`, `Matcher.WindowReplaced`; `Matcher.LosesLastLine` and `Matcher.NotTriedAgain` are instances).
- `#if -1` is not taken, and a pragma in a skipped branch comes out. A file is handled at every line as C has it exactly
  if no pragma stands in a skipped branch and the groups that start with `#if -1` have nothing in them that would show
  (`Conditionals.FileAsInC`, with `Conditionals.DiffersFromC` for groups of one line).
- Unary plus and minus bind like addition, so they take all of a product (`Evaluate.SignsBindLoosely`).
- Malformed conditions cause no error exactly if they are the text of a tree that may miss its last operand and leave
  parentheses open, or closed by another token, followed by any tokens that start with no operator
  (`Evaluate.PassesIf`, `Evaluate.PassesMalformed`; `Evaluate.PassesSilently` has instances).
- The comment at `SpriteFile.c:205-211` and the size allocated below it take a packed row to grow by a byte for every
  third pixel and one colour a row. It can grow by a byte for every two pixels, and every image fits what is allocated
  exactly if the width and height are such that this is no more (`SpriteRle.ImageIsTight`, `SpriteRle.AllocationFits`).

## Model

| member | source | states |
|---|---|---|
| Huffman.CompleteFits | miniz_tinfl.c:336-346 | if the Kraft total is 65536, no length has more codes than bit strings of that length are left |
| Huffman.AcceptedFits | miniz_tinfl.c:343-346 | the same for every code the table builder lets through, complete or with one symbol |
| Huffman.PrefixFree | miniz_tinfl.c:337-354 | no canonical code word is a prefix of another one |
| Huffman.WordExists | miniz_tinfl.c:337-354 | in a complete code every 15 bits start with the word of some symbol |
| HuffmanTable.Room | miniz_tinfl.c:365-385 | however the symbols are ordered, the overflow tree needs at most one pair of entries for each symbol (five pairs for a code of one symbol), so it stays in its array |
| HuffmanTable.FirstCodes | miniz_tinfl.c:331-342 | the builder's `next_code` and `total` are the smallest codes of RFC 1951 section 3.2.2 and twice the Kraft sum at length 15 |
| HuffmanTable.ReverseCode | miniz_tinfl.c:352-354 | the reversed code is the number whose bits, least significant first, are the code word |
| HuffmanTable.InsertShort | miniz_tinfl.c:355-364 | filling every 2^len-th slot makes the lookup table hold one symbol more and disturbs none that it holds |
| HuffmanTable.InsertLong | miniz_tinfl.c:365-385 | walking and growing the overflow tree makes it hold one symbol more, disturbs none, and stays inside the array |
| HuffmanTable.BuildTable | miniz_tinfl.c:321-386 | building succeeds exactly for complete codes and codes of at most one symbol, and the table and tree then represent the canonical code |
| HuffmanDecode.MatchUnique | miniz_tinfl.c:137-169 | bits that start with the word of a symbol decode to that symbol and to the length of its word, and to nothing else |
| HuffmanDecode.CompleteDecode | miniz_tinfl.c:137-169 | with a complete code, 15 bits always decode to a symbol whose word they start with |
| HuffmanDecode.DecodeStable | miniz_tinfl.c:102-129 | once bits decode to a symbol, bits behind them do not change it |
| HuffmanDecode.LookDecode | miniz_tinfl.c:155-156 | what the 10-bit table says is what the code says: a symbol with its length, a place in the tree, or nothing |
| HuffmanDecode.TreeDecode | miniz_tinfl.c:157-164 | a step in the tree goes to the pair for one bit more, or to the symbol whose word the bits are |
| HuffmanDecode.WalkTree | miniz_tinfl.c:159-163 | the loop over the tree ends at the symbol the bits decode to, and counts the bits of its word |
| HuffmanDecode.Lookup | miniz_tinfl.c:155-165 | table and tree together return exactly the symbol and code length that the canonical code assigns to the bits |
| BitReader.Reader.BufferSplit | miniz_tinfl.c:96-98 | masking and shifting the bit buffer yields the next bits of the stream and leaves the ones behind them |
| BitReader.Reader.FitsWord | miniz_tinfl.c:142-154 | the bit buffer never holds more than 32 bits, so nothing is shifted out of its variable |
| BitReader.Reader.PullByte | miniz_tinfl.c:74-76 | a refill leaves the unread bit stream as it was |
| BitReader.Reader.NeedBits | miniz_tinfl.c:70-77 | refilling succeeds exactly if the input has the bits, and changes no unread bit |
| BitReader.Reader.SkipBits | miniz_tinfl.c:78-88 | skipping shortens the unread stream by exactly the bits skipped, or fails when there are fewer |
| BitReader.Reader.GetBits | miniz_tinfl.c:89-100 | reading yields the next bits as a number and shortens the unread stream by exactly them |
| BitReader.Reader.GetByte | miniz_tinfl.c:59-68 | reading a byte past the empty buffer yields the next eight bits of the stream |
| BitReader.Reader.PutBack | miniz_tinfl.c:615-628 | putting bytes back leaves the unread stream as it was and fewer than eight bits buffered |
| BitReader.Reader.FillForCode | miniz_tinfl.c:102-129 | near the end of the input bytes are fetched one by one, each only because the bits so far held no whole code word; it fails exactly when the rest of the input holds none |
| BitReader.Reader.HuffDecode | miniz_tinfl.c:137-169 | decoding takes exactly the code word that starts the unread stream, and none when there is none |
| Inflate.CopyWhole | miniz_tinfl.c:568-583 | the copy of three bytes at a time equals the byte-by-byte copy of RFC 1951 section 3.2.3 for every distance up to the bytes produced, also where source and target overlap |
| Inflate.CopyUntilFull | miniz_tinfl.c:529-540 | a match longer than the output has room for is copied byte by byte until the output is full |
| Inflate.LiteralRun | miniz_tinfl.c:419-498 | the two-literals-at-a-time loop and the careful loop at the buffer ends stop at the same symbol with the same bytes written as decoding one symbol at a time |
| Inflate.InflateBlock | miniz_tinfl.c:416-585 | a compressed block yields what its symbols mean: the same bytes, the same stopping point, the same error |
| Inflate.StoredBlock | miniz_tinfl.c:241-282 | a stored block yields its bytes, first from the bit buffer and then from the input |
| InflateStream.FillFixed | miniz_tinfl.c:296-303 | the loops write the fixed code lengths of RFC 1951 section 3.2.6 |
| InflateStream.ReadCounts | miniz_tinfl.c:307-311 | the three counts are the 5, 5 and 4 bit fields of the header, at most 288, 32 and 19 |
| InflateStream.ReadCodeLengthLens | miniz_tinfl.c:312-319 | the lengths of the code for code lengths are read in the order of RFC 1951 section 3.2.7 |
| InflateStream.FillLens | miniz_tinfl.c:404-406 | a repeat appends that many lengths and needs no more than the array has |
| InflateStream.ReadAllLens | miniz_tinfl.c:387-414 | the run of code lengths is expanded as RFC 1951 section 3.2.7 says; a repeat with nothing before it and a run past the end fail; no write goes past 288 + 32 + 137 entries |
| InflateStream.DynamicBlock | miniz_tinfl.c:305-585 | a block with its own codes yields what its header and symbols mean |
| InflateStream.InflateRaw | miniz_tinfl.c:237-597 | the whole deflate stream: the table-driven, buffered decoder yields the blocks' meaning on the plain bit stream, and ends on a byte boundary with no bit buffered |
| InflateStream.Finish | miniz_tinfl.c:588-597 | at the end the reader stands at the next byte boundary and has given back every byte it did not use |
| FixedCodes.FixedComplete | miniz_tinfl.c:289-304 | both fixed codes are complete |
| FixedCodes.FixedBlockAccepted | miniz_tinfl.c:289-346 | a block with fixed codes is never refused |
| Adler32.BlockFits | miniz_tinfl.c:640-656 | the sums of a block of at most 5552 bytes fit 32 bits before they are reduced |
| Adler32.Checksum | miniz_tinfl.c:635-660 | reducing once per block yields the per-byte sums of RFC 1950 section 8.2 |
| Adler32.ChecksumsJoin | miniz_tinfl.c:635-660 | a checksum continued on a second stretch equals the checksum of both together |
| InflateZlib.CheckTrailer | miniz_tinfl.c:599-610 | the four trailer bytes, highest first, are compared with the checksum of the output |
| InflateZlib.InflateZlib | miniz_tinfl.c:224-664 | for every input and output size the decoder returns what the zlib stream means: bytes, bytes used, verdict on the checksum, or the status it stops with |
| Machine.Simulator.Write | agssim.c:344-355 | a store changes just the bytes at its address to those of the number, lowest first |
| Machine.Simulator.Push | agssim.c:363-368 | a push writes at the stack pointer and raises it by four, or faults and changes nothing |
| Machine.Simulator.Pop | agssim.c:370-377 | a pop takes the word below the stack pointer, or faults and changes nothing |
| Machine.Simulator.Step | agssim.c:421-693 | one step on registers and memory in place has the effect given for the instruction; a fault leaves both as they were |
| Vm.Load32Store | agssim.c:352-361 | a word that was written is read back |
| VmDead.StepCongruent | agssim.c:421-693 | an instruction that reads nothing dead does the same in states that differ only in dead bytes and registers, and what it writes is dead no more |
| Windows.PushPop | agsoptimize:56-62 | push and pop become a copy or nothing; only the four bytes above the stack differ |
| Windows.PushPopBack | asmparse.y:444-460 | a copy straight back after push and pop goes away too |
| Windows.PushLiPop | asmparse.y:477-493 | push, load, pop is replaced rightly exactly if the load does not go to `sp` (unless the pop faults in any case) and the three registers are not one |
| Windows.LoadNegative | agsoptimize:97-102 | the six lines that negate a number through `bx` become two |
| Windows.LoadNegative2 | agsoptimize:104-109 | four lines become two loads of the negative number, with all registers and bytes the same |
| Windows.Axmar | agsoptimize:118-124 | the load that went through `ax` goes to `bx` at once, with all registers and bytes the same |
| Windows.CopyBack | agsoptimize:126-129 | a copy back changes nothing |
| Windows.ReadSwap | agsoptimize:131-142 | a word is read into its final register at once |
| Windows.LiteralArith | agsoptimize:155-166 | adding a literal through a register is replaced rightly exactly if that register is not the one it is added to |
| Windows.LoadZero | agsoptimize:168-173 | a load of 0 equals the exclusive or of the register with itself |
| Windows.Compare | agsoptimize:78-82 | a comparison and the copy of its result become one comparison; only `bx` differs |
| Windows.CompareOrder | agsoptimize:84-95 | an ordering comparison against a number keeps its direction when the registers change places; only `bx` differs |
| Program.LabelAt | agssim.c:630-641 | a label stands before the same piece of the program on both sides |
| Program.Simulation | agsoptimize:3-12 | if every window is replaced rightly, each run of the old program that ends normally and reads nothing the replacements left dead is matched by a run of the new one, through jumps and loops, that ends the same but for what is dead |
| Program.ExactSimulation | agsoptimize:3-12 | if no replacement leaves anything dead, every run that ends normally ends in the very same state |
| Matcher.ReplacementKeeps | agsoptimize:56-173 | each rule's replacement keeps what its window does, up to what the rule leaves dead, exactly if it is sound; only the rule for literal arithmetic can be unsound |
| Matcher.GainCounts | agsoptimize:56-173 | the counter grows by the lines that went, and by one for a load of 0 |
| Matcher.CutGoesOn | agsoptimize:30-51 | what was decided stays; only the lines held back matter for what comes |
| Matcher.CutIsInput | agsoptimize:30-51 | the pieces in order, and then the lines held back, are the input |
| Matcher.CutByRule | agsoptimize:30-51 | every piece is a kept line or a whole window of the rule with its replacement: no window holds a label, a jump or a comment |
| Matcher.Stream.Feed | agsoptimize:30-51 | after every line the matcher has written the replaced input but for the lines held back, and counted what went |
| Matcher.Optimize | agsoptimize:279-290 | the whole pass: what is written is the input cut into windows and lines, with the windows replaced; the counter is the difference in lines |
| Matcher.HeldBackIs | agsoptimize:30-51 | what is held back after any lines: the beginning of a window at their end, if an odd number of such beginnings stand there one behind the other, and nothing otherwise |
| Matcher.NothingLost | agsoptimize:279-290 | all lines are still accounted for exactly if an even number of beginnings of windows stand at the end of the file |
| Matcher.EndsOutside | agsoptimize:279-290 | a file whose last line is no beginning or middle of a window loses nothing |
| Matcher.LosesLastLine | agsoptimize:279-290 | a file that ends with `push ax` loses that line |
| Matcher.WindowReplaced | agsoptimize:44-51 | wherever a window stands in a file, it is replaced exactly if an even number of beginnings of windows stand directly before it |
| Matcher.NotTriedAgain | agsoptimize:44-51 | a line that breaks a window is not tried as the start of another: the pair behind `push ax` is missed |
| Matcher.PassKeepsRuns | agsoptimize:279-290 | a pass keeps what a program does, but for what its rule leaves dead |
| Matcher.ExactPassKeepsRuns | agsoptimize:279-290 | the passes lnl2, axmar, mrswap, m4s, load0, and rlarith on two different registers, keep every final state to the last bit |
| Blocks.WindowKeeps | asmparse.y:428-498 | a window of the assembler's optimiser is replaced rightly exactly under its register condition |
| Blocks.CutIsBlock | asmparse.y:428-498 | the windows and kept instructions of a block are the block |
| Blocks.PushPopBlock | asmparse.y:428-465 | the in-place pass leaves the block with its windows replaced, and counts the instructions that went |
| Blocks.PushLiPopBlock | asmparse.y:466-498 | the in-place pass for push, load, pop leaves the block with its windows replaced, also where one window is rewritten before the next is looked at, and counts the instructions that went |
| Blocks.Discard | asmparse.y:613-624 | dropping the marked instructions leaves no mark and changes no other instruction |
| Blocks.Unit.OptPushPop | asmparse.y:428-465 | the pass over all blocks; the count is the number of lines the program lost |
| Blocks.Unit.OptPushLiPop | asmparse.y:466-498 | the pass for push, load, pop over all blocks; the count is the number of lines the program lost |
| Blocks.Unit.DiscardRemoved | asmparse.y:613-624 | no mark is left in any block, and the program text is the same |
| Blocks.PassKeepsRuns | asmparse.y:626-633 | either pass keeps what the whole program does, with all its jumps between blocks |
| Probe.AndMask | hsearch.c:108 | the mask of 2^k slots keeps the low k bits of an index |
| Probe.PathDistinct | hsearch.c:107-108 | two different probes of a round are at different slots |
| Probe.EverySlot | hsearch.c:107-108 | the offsets 0, 1, 3, 6, ... visit every slot of 2^k within 2^k probes |
| HashTable.SearchEnds | hsearch.c:102-114 | every search ends while used and dead slots do not fill the table |
| HashTable.SearchFinds | hsearch.c:102-114 | a search finds a key exactly if it is in the table, past any deleted slots |
| HashTable.SearchStopsEarly | hsearch.c:102-114 | a search that takes deleted slots finds a key exactly if it is there and behind none of them |
| HashTable.InsertHolds | hsearch.c:169-181 | a new key in the slot where its search stopped leaves every key reachable and extends the map |
| HashTable.InsertHoldsIff | hsearch.c:169-181 | an insert leaves a table that stands for a map exactly if the key was not there |
| HashTable.DeleteHolds | hsearch.c:158-167 | marking a slot deleted leaves every other key reachable and takes the key from the map |
| HashTable.MovedOne | hsearch.c:89-97 | moving one entry to the new table keeps all that were moved before it |
| HTab.HashOf | hsearch.c:57-65 | the hash of a key, modulo 2^64 |
| HTab.NewSize | hsearch.c:78-80 | the new size is the least power of two, from 8 on, that holds the entries |
| HTab.HTab.Create | hsearch.c:116-124 | a new table stands for the empty map and has room as asked, unless memory lacks |
| HTab.HTab.Lookup | hsearch.c:102-114 | the probe loop ends, at the first slot where the search may stop |
| HTab.HTab.Find | hsearch.c:132-148 | finding yields the map's value, or nothing exactly for keys not in it |
| HTab.HTab.Delete | hsearch.c:158-167 | deleting succeeds exactly for keys in the map and removes just that key |
| HTab.HTab.MoveAll | hsearch.c:89-97 | rehashing loses nothing: the new slots stand for the same map and hold no deleted slot |
| HTab.HTab.Resize | hsearch.c:67-100 | a larger table stands for the same map; without memory the old one is untouched |
| HTab.HTab.Insert | hsearch.c:169-195 | inserting adds exactly the key and value, never overwrites, grows before the table is too full, and on failure leaves the map as it was; used and dead slots stay at most mask - mask/4 |
| HTab.HTab.Next | hsearch.c:197-208 | the iterator yields key and value of the first used slot from its position on and the position behind it, or 0 when there is none |
| HTab.WalkYieldsEachKeyOnce | hsearch.c:197-208 | a walk with the iterator yields every key of the map once |
| HTab.InsertTwice | hsearch.c:158-195 | if two keys start at the same slot, inserting both, deleting the first and inserting the second again puts it into the table twice, and no map describes the result |
| HTab.TwoKeys | hsearch.c:57-65 | "a" and "i" are two such keys in a new table |
| TargaRle.DecodeStream | Targa.h:221-242 | decoding any stream of packets yields their pixels |
| TargaRle.WriteSeries | Targa.h:185-201 | a series costs one byte; cut short by a repetition it is owed to that repetition |
| TargaRle.WriteRepetition | Targa.h:185-201 | a repetition of two or more pixels pays back what was owed |
| TargaRle.Encode | Targa.h:139-217 | for 1 to 4 bytes a pixel, through all modes and both jumps, what is written decodes to the buffer's pixels, and never exceeds the bytes, one, and a third of the pixels |
| TargaRle.Decode | Targa.h:220-244 | the decoder writes what the stream yields for the room there is |
| SpriteRle.NeverMinus128 | SpriteFile.c:172-199 | no packet starts with the byte -128 |
| SpriteRle.UnpackStream | SpriteFile.c:55-79 | unpacking packets gives their pixels and takes just their bytes, whatever follows |
| SpriteRle.PackHolds | SpriteFile.c:172-199 | the greedy packets hold the row |
| SpriteRle.PackSmall | SpriteFile.c:172-199 | a packed row takes at most half a byte a pixel, rounded up, more than its pixels |
| SpriteRle.BoundIsTight | SpriteFile.c:172-199 | every row width and pixel size has a row that takes that whole bound |
| SpriteRle.ImageIsTight | SpriteFile.c:217-221 | every image size has an image that takes it in every row |
| SpriteRle.Packl | SpriteFile.c:172-199 | the scanner writes just the greedy packets of its row |
| SpriteRle.AgsPack | SpriteFile.c:201-226 | the packed rows one behind the other; unpacking them in one go over width times height pixels gives the image |
| SpriteRle.AllocationFits | SpriteFile.c:212-214 | for every width, height and pixel size, all images fit what is allocated exactly if height * ceil(width/2) is at most 1 + width * height / 3 + height * bpp |
| SpriteRle.FourteenPixels | SpriteFile.c:205-214 | a row of 14 one-byte pixels that takes 21 bytes, one more than are allocated |
| SpriteRle.Unpackl | SpriteFile.c:55-79 | the decoder returns the pixels, refuses a packet that runs over the wanted size, or runs out of input, as the stream has it |
| CondExpr.FindsTree | preproc.c:1055-1069 | the parser finds every tree parenthesised as the binding powers ask, also one with open parentheses or a missing last operand, in front of any tokens that do not go on with a tighter operator |
| CondExpr.ExprFound | preproc.c:1055-1069 | what the parser finds without a wrong token is such a tree, and its text and the rest are the tokens |
| CondExpr.FindsExactly | preproc.c:925-1069 | the parser finds a tree and leaves a rest exactly if the tokens are the tree's text and the rest, and the rest starts with no operator |
| CondExpr.ParsesExactly | preproc.c:925-1069 | the parser takes all tokens and finds a tree exactly if they are that tree's text: the grammar is unambiguous |
| Evaluate.Parser.Expr | preproc.c:1055-1069 | the loop returns the value of the tree it would find, stands behind it, and sets the error flag exactly if the tree fails |
| Evaluate.Parser.Nud | preproc.c:970-1000 | a prefix, a literal or a parenthesis is worth what its tree is |
| Evaluate.Parser.Led | preproc.c:1003-1042 | an operator joins the value before it and the tree behind it; division by 0 is an error, and so is the one the processor traps on |
| Evaluate.DoEval | preproc.c:1071-1105 | a condition has the value of its tree, and fails exactly for wrong tokens and undefined divisions |
| Evaluate.PrintedIsParsed | preproc.c:925-1069 | any expression printed with the parentheses it needs is read back as itself, with its value and no token left |
| Evaluate.LeftAssociative | preproc.c:1055-1069 | operators of equal power group to the left |
| Evaluate.PrefixFound | preproc.c:979-982 | a prefix operator in front of any expression goes down the left edge to where the binding powers put it |
| Evaluate.SignsBindLoosely | preproc.c:980-981 | unary plus and minus bind like addition: a sign takes the whole of an operation exactly if it is a multiplication, a division or a remainder |
| Evaluate.PassesIf | preproc.c:983-1069 | a token list passes without an error exactly if it is the text of a tree that may have open parentheses and miss its last operand, with no undefined division, and tokens that start with no operator |
| Evaluate.PassesMalformed | preproc.c:983-1069 | a list that passes is no expression exactly if a parenthesis has no partner, the last operand is missing, or tokens stand behind the expression |
| Evaluate.PassesSilently | preproc.c:983-990 | an unclosed parenthesis, one closed by another token, a missing operand and tokens behind the expression cause no error |
| Conditionals.DirectivesMeanGroups | preproc.c:1241-1288 | for all nested groups and at every line the three counters emit just the text of chosen branches, evaluate just the conditions that count, choose at most one branch a group, and come back to where they were |
| Conditionals.AlwaysNested | preproc.c:1175-1189 | at every point of balanced directives: active <= satisfied <= active + 1, satisfied <= level |
| Conditionals.Preprocessor.GoToLevel | preproc.c:1179-1188 | moving to another level changes the three fields as the set-level function says, and no text is emitted by it |
| Conditionals.Preprocessor.Handle | preproc.c:1241-1303 | one directive or line changes the counters and acts as the step function says |
| Conditionals.Preprocess | preproc.c:1175-1310 | a whole file, read with the three counters in place, emits and evaluates what the run over its directives says |
| Conditionals.SameAsC | preproc.c:1241-1288 | nested groups do at every line what C99 section 6.10.1 says, exactly if no pragma stands in a skipped branch and a counted `#if -1` has only pragmas in its branch, no further condition and nothing in its `#else` |
| Conditionals.FileAsInC | preproc.c:1175-1310 | the run of the three counters over a file does at every line what C says exactly under that condition |
| Conditionals.DiffersFromC | preproc.c:1179-1188 | for a group of one line: text is treated as in C exactly if the value is not -1, a pragma exactly if it is not 0 |
| Lzw.RingWrites | lzw.c:27-37 | the ring always holds the last 4096 bytes |
| Lzw.MatchSlot | lzw.c:25 | the masked subtraction finds the slot of the byte at the match's distance |
| Lzw.Decoder.Match | lzw.c:17-32 | copying through the ring equals the byte-by-byte copy for every distance up to 4096, overlapping or not |
| Lzw.Decoder.Decode | lzw.c:7-44 | the decoder returns the status and bytes the stream means; what the ring held at the start counts as the bytes before |
| Lzw.DecodesItems | lzw.c:7-44 | the decoder undoes the coding of any literals and matches into a buffer of the right size |
| Assembler.Asm.AddOrGetString | Assembler.c:126-144 | a string gets an offset where the string section holds it; one that is there already adds nothing |
| Assembler.Asm.AddExport | Assembler.c:107-113 | a function is listed with its position, unless its name is taken |
| Assembler.Asm.Emit | Assembler.c:447-501 | every word put down is right or listed to be patched, and gets the fixup its operand needs |
| Assembler.Asm.Read | Assembler.c:407-503 | after each line the code is that of the lines so far, up to the patches |
| Assembler.Asm.PatchLabels | Assembler.c:506-513 | patching works exactly if all labels are found before the end; then p + 1 + word is the label's position for every jump, and no other word changes |
| Assembler.Asm.GenerateImportTable | Assembler.c:303-312 | each called function that the script does not have is imported, once |
| Assembler.Asm.PatchFunctions | Assembler.c:515-529 | every reference gets its function's position or import, with the fixup for it, and no other word changes |
| Assembler.Assemble | Assembler.c:399-532 | a text is assembled exactly if its labels, variables and unique functions are there, and yields a script that encodes it |
| ObjectCode.SameCode | Assembler.c:399-532 | two scripts that encode one text have the same code, once strings and imports are looked up, and the same fixups |
| Disassembler.GetLabels | Script.c:168-215 | the label list is the sorted list of all jump targets |
| Disassembler.NextFixup | Script.c:737-739 | the forward-moving pointer finds the fixup of a word exactly if there is one |
| Disassembler.NextFunction | Script.c:647-663 | the forward-moving pointer finds the function that starts at an instruction exactly if one does |
| Disassembler.NextLabel | Script.c:664-674 | all mentions of a label are skipped at its instruction, and found exactly if there are any |
| Disassembler.Operand | Script.c:728-782 | an operand is printed as what its word means |
| Disassembler.Disassemble | Script.c:617-787 | the script encodes the printed text; each jump target has its label printed once, in order and in its place |
| RoundTrip.PrintedIsAssemblable | Script.c:617-787 | what is printed can be assembled |
| RoundTrip.Reassemble | Assembler.c:399-532 | printing and assembling a readable script gives its code back, once strings and imports are looked up, with the same functions and fixups |

## Left out

Inflate:

- InflateZlib.InflateZlib: says how many bytes of the input a complete stream takes, not how many are taken when decoding stops before its end.
- Suspending and resuming across calls, and the statuses for it: a call has all input there is and one output buffer.
- The wrapping output buffer. The buffer starts at the first byte of output.
- The 64-bit bit buffer and the 8-byte copies of the unaligned build; the model has the 32-bit buffer refilled by 16 bits and the copy of three bytes.
- Calls without the zlib header or with only the checksum flag.

Virtual machine and optimisers:

- Floating point, calls and returns, system calls, breakpoints and the instructions that the simulator does not carry out. With calls, addresses of functions and return addresses are values in registers and memory that differ between a program and its optimised form.
- `not`, which has one operand in the instruction table while the simulator reads two.
- Vm.Load32Store: memory is addressed by naturals; that the simulator's bounds test lets addresses just below 0 through is not modelled.
- Machine.Simulator.Step: a failed `assertlte`, a division by 0 or past the range and a shift by 32 or more are faults that end the run, where the simulator signals and goes on or C leaves the result open.
- VmDead.StepCongruent: covers the instructions of the model, not those named above.
- Program.Simulation: matches runs of programs without calls that end without a fault and that read no word or register a replacement left dead; the optimisers do not look for such reads, so this stays a condition on the run.
- Program.ExactSimulation: the same, without the condition on what is read.
- Matcher.PassKeepsRuns: the same as Program.Simulation.
- Matcher.ExactPassKeepsRuns: the same as Program.ExactSimulation.
- Blocks.PassKeepsRuns: the same as Program.Simulation.
- Matcher.Stream.Feed: lines are modelled as already parsed, not as characters, so trailing text that the unanchored patterns let through is not there.
- The passes that bring in macros, `sourceline`, `assertlte`, and `ptrstack2x`, and the passes of `asmparse.y` that look for overwritten registers: their soundness rests on conventions the code does not check.

Hash table:

- Copies of keys and their release, and destroying a table. Whether memory can be had is a parameter.
- HTab.HTab.Find: excludes keys whose hash is 0xdeadc0de; such a search would compare with the missing key of a deleted slot.
- HTab.HTab.Delete: the same.
- HTab.HTab.Insert: is stated for keys that are not behind a deleted slot; HashTable.InsertHoldsIff says what happens otherwise.

Codecs:

- SpriteRle.AgsPack: the packed image is a growing sequence, not a buffer of the allocated size; SpriteRle.AllocationFits says when that size suffices. Sizes are unbounded, where the source computes them in 32 bits.
- The file headers and footers around pixels, palettes and colour conversion.
- Lzw.Decoder.Decode: the bytes the ring holds before the first output, which C leaves open, are a parameter.

Preprocessor:

- Tokenising, macro expansion and including files. Directives carry the value of their condition.
- Evaluate.DoEval: arithmetic wraps at 32 bits and shift counts are taken modulo 32 where C leaves the result open; the quotient of the smallest number and -1, which traps, counts as a failure.

Assembler and disassembler:

- Assembler.Assemble: covers the code of a script, its functions, imports, strings and fixups; the data section and exported variables are not part of the model, and fixups have no order.
- The data section, the guessing of variable sizes, the `.sections` part and writing the object file, where fixups are sorted: fixups are a set.
- The text as characters: lines are modelled as parsed, so numbers and names are taken to be printed and read back as they are.
- Disassembler.GetLabels: the library's sort is modelled as an insertion sort.
- Disassembler.Disassemble: the flag that skips line numbers and the bits above the operation in an instruction word are not modelled; the debugging output is not either.
- RoundTrip.Reassemble: takes scripts whose functions start with `thisaddr` of their own position and have it nowhere else, whose jumps go to instructions other than those, and whose fixups are on `li` operands; other scripts cannot be written as text.

Not modelled at all, because they would add easier members only: the sorted and bucketed maps (`tglist.h`, `bmap.h`,
`hbmap.h`), the pack format (`Clib32.c`), and the data and room files (`DataFile.c`, `RoomFile.c`).
