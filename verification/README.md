# Rufus: verified models

Rufus is a Windows utility that formats USB drives and writes disk images to them. This project models the parts of
it that are algorithms rather than calls into Windows, and proves what they promise. Run `dafny verify dfyconfig.toml`
in this directory to check everything.

**The regular expression engine** (`src/cregex*.c`). `RegexTree` gives patterns their meaning: which spans of a string
a tree matches. `RegexParse` is the shunting-yard parser with its two-ended node buffer, proved against a recursive
descent; `RegexPrint` goes the other way, from trees to patterns, and says which trees there are; `RegexOverrun` says
when the parser steps past the end of a pattern. `CharClass` is the scan of character classes, done
twice in the code. `RegexCompile` is the compiler, an in-place emitter proved against a function; `RegexRun` says what
a program can do and proves that the compiler preserves meaning. `RegexVm` and `RegexMachine` are the lock-step
machine, as a function and as it is written; `RegexLevels` says what its lists hold and `RegexPriority` that it is
ordered backtracking. `RegexSearch` and `RegexEngine` put everything together.

**Hashing** (`src/hash.c`). `HashThreads` is the protocol of a reader and N hash threads over three buffers, as a state
machine over all interleavings, and `HashTermination` brings it to its end. `HashStream` is the streaming part of
SHA-1, SHA-256 and SHA-512. `ShaWords`, `Sha1` and `Sha256` are two of the block transforms against FIPS 180-4, and
`ShaDigest` joins transform and streaming. `PeRegions` selects the bytes of a PE image that are hashed.

**The bad-block scan** (`src/badblocks.c`). `BadBlockList` is the sorted list with its iterator, `BadBlockPattern` the
test patterns, `BadBlockDevice` what a device may do and what it then holds, `BadBlockLog` the requests of a phase and
what they find, `BadBlockRecovery` how requests get smaller and larger again, `BadBlockScan` the write and read passes
over an arbitrary device.

**Laying out and writing disks.** `PartitionLayout` is the computation in `CreatePartition` (`src/drive.c`), `Fat32`
the sizing and writing of large FAT32 volumes (`src/format_fat32.c`), `SectorWriter` and `ZeroDrive` two writers of
`src/format.c`. `Rounding` holds the alignment macros.

## How the code is represented

- Code that updates things in place is a class or a method with a loop (the thread lists, the node and program
  buffers, the hash context, the region and block lists, the scan, the writers); it is proved equal to a function or
  to a property stated outright. Recursion and expressions are functions.
- Characters are signed (-128 to 127), as in the code, so bytes from 0x80 on are included. Strings end at the first
  NUL. The byte after the terminator, which a negated class reads, is an arbitrary parameter (`beyond`).
- The memory behind a PE image, which the code may read, is an arbitrary parameter too.
- A NULL slot is -1. Pointers into buffers are indices.
- Devices, faults, user cancellation and read sizes are arbitrary functions of time; reads and writes of the hash
  threads interleave byte by byte.
- Assertions of `CreatePartition` are outcomes of their own. Unsigned 32-bit arithmetic is written out where it matters
  (`Fat32`, the SHA words, the 64-bit byte counter, region sizes).
- The 80 steps of SHA-1 and the additions to the state words are loops here, in groups of five steps and word by word.
  Rotations are written out with shifts, as the macros are, and shown to rotate.

## Where the code differs from what one might expect

- A quantifier that may be skipped counts as anchored when what it quantifies does, so `(^a)?b` is looked for at the
  start of the string only (`RegexSearch.SkippableAnchorMissesMatch`).
- Ranges in classes are compared unsigned by the parser and signed by the compiler (`CharClass.RangeMeaning`).
- A pattern that ends in a backslash with nothing to escape makes the parser step past its terminator, exactly if what
  stands before it is in order (`RegexOverrun.OverrunExactly`, `RegexOverrun.Overruns`); the model stops there, with an
  outcome of its own.
- The two uneven patterns of the fifth flash type make the scan report good blocks as corrupt when a request compares a
  block at another position of the buffer, modulo 3, than it was written from, as it comes after requests that were cut
  short. A device that keeps everything but reads single blocks only shows it (`BadBlockScan.HonestDeviceMisjudged`);
  with all other patterns no device that keeps what it accepts is reported corrupt (`BadBlockScan.BadBlocks`).
- The blocks of a short read are not compared at all (`BadBlockLog.Corrupt`). A fake device which returns one block fewer
  than asked for is therefore found out only if it has at least 64 cells fewer than blocks (`BadBlockScan.BadBlocks`,
  `BadBlockRecovery.OneShortFinds`), and passes for a good one if it has up to 63 fewer
  (`BadBlockScan.FakeDeviceUnnoticed`).
- When the block just before the one where full requests were to be tried again fails on its own, the phase goes on block
  by block to its end; if that block is transferred, full requests resume there (`BadBlockRecovery.FullSizeResumes`).
  `BadBlockScan.NeverFullAgain` is a run of this kind, over blocks that would have been returned by requests of any size.
- An iterator over the bad blocks that has come to its end repeats its last block if a smaller one is added
  (`BadBlockList.AfterTheEnd`, `BadBlockList.EndedIteratorRepeats`). Rufus itself never gets there: its `bb_iter`
  (line 240 of `src/badblocks.c`) is NULL and never assigned, so the list code has this only as a library would.
- A sector that is completed by a small write and written only in part can pass for success
  (`SectorWriter.PartialSectorGoesUnnoticed`).
- Clusters above 1 MB can make the partition after the EFI system partition begin before its end, which an assertion
  guards (`PartitionLayout.LargeClustersOverlap`, `PartitionLayout.NextFits`).
- The regions of a PE image are not checked against the length of the file; a section that begins at its end makes the
  code hash bytes beyond it (`PeRegions.SectionBeyondImage`). No region goes beyond the image exactly if the headers and
  the sections that are not refused end in it (`PeRegions.ListWithin`), and where the sections neither overlap nor reach
  into the headers, exactly if headers and sections do (`PeRegions.InImageExactly`).
- Regions of a PE image that overlap others are left out of the hash without an error (`PeRegions.InsertSorts`), as the
  results of the insertions are not looked at (`PeRegions.OverlapLeftOut`).

## Model

| member | source | states |
|---|---|---|
| RegexEngine.Search | src/cregex_vm.c:205-211 | Parsing, compiling and running a pattern reports a match exactly when the parsed pattern denotes one where the engine looks for it; slots 0 and 1 then delimit text the pattern really matches, and without a match every slot is NULL |
| RegexEngine.EngineTheorem | src/cregex_parse.c:261-269 | Every pattern that parses compiles to a runnable program whose run hits if and only if the tree denotes a match |
| RegexEngine.PrintedSearch | src/cregex_parse.c:130-248 | Every tree that some pattern parses to is searched for by its printed form, and this finds what the tree denotes |
| RegexSearch.SearchTheorem | src/cregex_vm.c:122-203 | For every well-formed tree and every NUL-free string the machine hits if and only if the denotation relates some start that is tried to some end |
| RegexSearch.SpanTheorem | src/cregex_vm.c:146-151 | Slots 0 and 1 of a hit are the ends of a span in the denotation of the pattern |
| RegexSearch.AnchoredSearchTheorem | src/cregex_compile.c:263-277 | If no quantifier that may be skipped stands around an anchor that counts (FirmlyAnchored), or the pattern does not count as anchored, the engine finds a match exactly when there is one anywhere in the string |
| RegexSearch.QuantifierConfined | src/cregex_compile.c:72-74 | For a quantified node whose matches all begin at 0, the matches of the quantifier all begin at 0 if and only if it demands at least one repetition |
| RegexSearch.SkippableAnchorMissesMatch | src/cregex_compile.c:72-74 | Counting a skippable quantifier as anchored is wrong in general: (^a)?b matches inside "cb", and the engine does not find it |
| RegexRun.SoundNode | src/cregex_compile.c:129-245 | Whatever the code of a node can do from its first instruction to the end of the program passes through its end with the text in between matched by the node, and leaves the slots of earlier captures alone |
| RegexRun.CompleteNode | src/cregex_compile.c:129-245 | Every match of a node can be followed by its code up to its end |
| RegexVm.VmAccepts | src/cregex_vm.c:122-203 | Lock-step execution with deduplication and cut-off of lower-priority threads hits exactly when some run of the program reaches MATCH |
| RegexVm.VmSlots | src/cregex_vm.c:146-151 | The slots of a hit are delivered by an actual run of the program |
| RegexVm.SlotsIrrelevant | src/cregex_vm.c:58-63 | Whether there is a hit does not depend on how many slots are recorded |
| RegexVm.CoverAccepts | src/cregex_vm.c:45-47 | An instruction that was visited, but not entered again, loses nothing: what it could reach is reached from a listed thread |
| RegexLevels.LevelExact | src/cregex_vm.c:140-200 | Until the first match, the list at a position holds exactly the character and MATCH instructions reachable from instruction 0 by consuming the prefix, each once |
| RegexLevels.LevelReachable | src/cregex_vm.c:37-97 | Only instructions reachable by consuming the prefix are ever visited, match or not |
| RegexLevels.RunFollowsLevels | src/cregex_vm.c:191-199 | The run goes through these lists one by one until it stops |
| RegexLevels.ListFits | src/cregex_vm.c:99-103 | A list of distinct instructions holds no more threads than there are instructions to add, so that ninstructions entries are enough |
| RegexPriority.VmIsBacktracking | src/cregex_vm.c:140-202 | Result and all slots are those of a backtracking search that tries first before second and never enters an instruction twice at a position |
| RegexPriority.RunIsTryList | src/cregex_vm.c:141-200 | From any position on, the lock-step run of a list of threads equals trying the threads one after the other in order of priority |
| RegexMachine.RunProgram | src/cregex_vm.c:122-203 | The two thread lists, swapped and updated in place, compute the specified run; without a match all slots are NULL, and slots from 64 on are never written |
| RegexMachine.RunThreads | src/cregex_vm.c:140-200 | The loop over positions computes the rest of the run from any state of the lists |
| RegexMachine.StepAll | src/cregex_vm.c:141-189 | The loop over the threads of a list computes one position, with the priority cut at MATCH |
| RegexMachine.ThreadList.AddThread | src/cregex_vm.c:37-97 | Adds in place exactly the threads the specification adds, marks what it visits, terminates on empty loops, and restores every slot it overwrote |
| RegexMachine.ThreadList.AddSaved | src/cregex_vm.c:86-95 | SAVE overwrites a slot for the threads below it and restores it afterwards |
| RegexCompile.CompileNode | src/cregex_compile.c:254-323 | The emitting compiler fills a buffer of exactly the estimated size with the specified program |
| RegexCompile.CompileContext.Compile | src/cregex_compile.c:129-245 | Emits exactly the code of a node at the current position, in a buffer that is large enough, and leaves all earlier instructions alone |
| RegexCompile.CompileContext.CompileQuantifier | src/cregex_compile.c:179-219 | The copies, the optional copies with their patched and possibly swapped branches, and the loop, are the code of the quantifier |
| RegexCompile.SizeIsCount | src/cregex_compile.c:11-51 | The length of the code of a node is what count_instructions counts |
| RegexCompile.CompiledSize | src/cregex_compile.c:298-306 | The whole program is exactly as long as estimated |
| RegexCompile.CodeClosed | src/cregex_compile.c:168-219 | Every branch and jump target lies in the fragment it belongs to, or at its end |
| RegexCompile.CompiledRunnable | src/cregex_compile.c:254-292 | Control never leaves a compiled program, and MATCH is its last instruction and no other |
| RegexParse.BuildTree | src/cregex_parse.c:250-269 | The two-ended buffer of 2n + 1 nodes always suffices, and the acyclic tree left in it, root first, is the tree of a recursive-descent parser |
| RegexParse.ParseContext.Parse | src/cregex_parse.c:130-248 | Each call leaves exactly one node above the stack it found, agreeing with the recursive-descent parser on result and position, with stack and output never crossing |
| RegexParse.ParseContext.Concatenate | src/cregex_parse.c:35-51 | The items above the bottom are folded into one concatenation node, or an epsilon node if there are none |
| RegexParse.ParseContext.Consume | src/cregex_parse.c:29-33 | The top tree of the stack is found again in the output, and nothing else of stack and output changes |
| RegexParse.ParseContext.ParseCharClass | src/cregex_parse.c:53-89 | Accepts exactly the class texts the specification scans and records their extent |
| RegexParse.ParseContext.ParseInterval | src/cregex_parse.c:91-128 | Reads an interval with its bounds, or leaves the position and the tree as they were |
| RegexParse.ParsedWf | src/cregex_parse.c:130-248 | Every tree the parser builds is well-formed: interval bounds in order and class texts the compiler can scan again |
| RegexOverrun.OverrunExactly | src/cregex_parse.c:138-139 | The parser steps past the terminator if and only if the pattern ends in an odd number of backslashes and would parse if the last one had a letter to escape and all open groups were closed, which takes no more parentheses than the pattern has characters |
| RegexOverrun.Overruns | src/cregex_parse.c:138-139 | It does so for a lone backslash, not for two, and not for one in a class that is not closed |
| RegexPrint.RoundTrip | src/cregex_parse.c:130-248 | Parsing the printed form of a tree the parser can build gives the tree back |
| RegexPrint.PatternsAreParsed | src/cregex_parse.c:130-248 | These trees (IsPattern) are exactly the ones that some pattern parses to |
| CharClass.AddContains | src/cregex.h:77-92 | After a byte has been added, the class contains it and what it contained before, and nothing else |
| CharClass.RescanText | src/cregex_parse.c:53-89 | A class text the parser accepted is scanned by the compiler to the same end and with the same items |
| CharClass.CompileCharClass | src/cregex_compile.c:99-127 | The compiler's scan of a class text produces the specified set of bytes |
| CharClass.ClassBitsMeaning | src/cregex_compile.c:117-123 | A byte is in the compiled class if and only if it lies, as a signed character, in one of the ranges of the text |
| CharClass.RangeMeaning | src/cregex_parse.c:80-84 | A range the parser accepts by unsigned comparison is compiled to the same interval of bytes if and only if it does not run from below 0x80 to 0x80 or above |
| HashThreads.StepKeepsInv | src/hash.c:1966-2106 | The invariant of buffers, sizes, events and threads is kept by every step of the reader, the device and any thread |
| HashThreads.NoReadIntoHashedBuffer | src/hash.c:2074-2091 | In every reachable state of every interleaving, no buffer that a thread is hashing is the target of an outstanding read |
| HashThreads.PublishOnlyWhenIdle | src/hash.c:2080-2091 | proc_bufnum changes only while every thread waits for data |
| HashThreads.ConsumesPrefix | src/hash.c:1982-1985 | At any time each thread has passed to its hash exactly a prefix of the file, in order |
| HashThreads.FinishedThreadsHashedFile | src/hash.c:2102-2106 | A thread that finalizes has hashed exactly the file, and when the reader has finished every thread has |
| HashThreads.NoDeadlock | src/hash.c:2061-2106 | In every reachable state some step other than the arrival of bytes of an outstanding read is possible, until the reader has finished |
| HashTermination.StepDecreases | src/hash.c:2061-2106 | Every such step makes a well-founded rank smaller: rounds left, way of the reader through its loop, work of threads and device |
| HashTermination.EverySchedulerFinishes | src/hash.c:1966-2106 | Whatever step is picked in each state, the protocol runs to the end from every state it can be in |
| HashTermination.FinitelyManySteps | src/hash.c:1966-2106 | No run of n threads over a file has more than a fixed number of steps besides arrivals of bytes, whatever the interleaving, the history its choices depend on and the arrivals in between |
| HashTermination.RunIsShort | src/hash.c:1966-2106 | From any state, each such step of a run takes at least one away from a number that arrivals leave alone and that never falls below zero |
| HashStream.HashPieces | src/hash.c:1143-1443 | However a message is split into writes, init, the writes and final give the hash of the message |
| HashStream.HashContext.Write | src/hash.c:1143-1279 | After a write the state is the fold over the complete blocks of everything written and the buffer holds the rest |
| HashStream.HashContext.Final | src/hash.c:1317-1443 | Pads by marker, zeros and length, transforms, and leaves the digest of the message at the start of the buffer |
| HashStream.HashContext.PadZeros | src/hash.c:1325-1331 | The padding loop terminates with the buffer full up to the length field, having added the least number of zeros that fits |
| HashStream.PaddedWhole | src/hash.c:1325-1331 | With this number of zero bytes the padded message is a whole number of blocks, and with no smaller number it is |
| HashStream.FoldAppend | src/hash.c:1143-1279 | Folding over a concatenation whose first part is whole blocks is folding over the parts in turn |
| HashStream.BigEndianHighLow | src/hash.c:1421-1442 | A long big-endian field is its high part followed by its low part |
| ShaDigest.Sha256Pieces | src/hash.c:264-275 | The streaming code with the SHA-256 transform gives SHA-256 of FIPS 180-4, however the message is split |
| ShaDigest.Sha1Pieces | src/hash.c:254-262 | The streaming code with the SHA-1 transform gives SHA-1 of FIPS 180-4, however the message is split |
| ShaDigest.Hash256 | src/hash.c:1360-1403 | The fold of the code's transform over the 64-bit words, cut to 32 bits at the end, is the hash computation of the standard |
| ShaDigest.Hash1 | src/hash.c:1317-1357 | The same for SHA-1, with three state words left unused |
| Sha256.TransformCompresses | src/hash.c:652-723 | On the low 32 bits of the state words the transform is the compression of section 6.2.2 of FIPS 180-4, whatever the high halves hold |
| Sha256.TransformCc | src/hash.c:652-723 | The transform with its 16-word schedule and renamed registers leaves the specified 64-bit state |
| Sha256.Rx8 | src/hash.c:675-684 | Eight rounds with rotating register names are eight rounds of the standard |
| Sha256.R | src/hash.c:671-674 | One macro round updates two registers so that, with the names moved on by one, they are the working variables of the next round |
| Sha256.Blk | src/hash.c:669-670 | The in-place update yields the next word of the message schedule and keeps the last 16 words at their index modulo 16 |
| Sha256.CodeRotations | src/hash.c:664-668 | The nested shift-and-or rotations compute the four sigma functions of section 4.1.2 |
| ShaWords.CodeSelections | src/hash.c:324-326 | The rewritten selections compute Ch and Maj |
| ShaWords.LoadBlock | src/hash.c:689-697 | The loop over groups of four loads the sixteen big-endian words of a block |
| ShaWords.LowWordsOfSums | src/hash.c:715-722 | Adding 32-bit values to 64-bit state words adds them modulo 2^32 to the low halves |
| Sha1.TransformCompresses | src/hash.c:291-422 | On the low 32 bits the transform is the hash computation of section 6.1.2 of FIPS 180-4, and it leaves the last three state words alone |
| Sha1.TransformCc | src/hash.c:291-422 | The 80 steps with the schedule kept in 16 words leave the specified state |
| Sha1.FiveSteps | src/hash.c:334-338 | Five steps with rotating register names are five rounds of the standard |
| Sha1.NextWord | src/hash.c:329-329 | The macro M yields the next word of the schedule of section 6.1.2 in place |
| Sha1.CodeRotations | src/hash.c:331-332 | The shift-and-or rotations of a step rotate by 5 and by 30 |
| PeRegions.Pe256 | src/hash.c:1835-1861 | The digest is SHA-256 of the regions of the list one after the other, also where they go beyond the image; of the selected bytes in file order if they lie in it; and for an image whose aligned sections tile the file after the headers, in any order, of the image without CheckSum, the directory entry of the certificates and the certificates |
| PeRegions.Parse | src/hash.c:1686-1825 | The list built from headers and sections, in order of virtual address, is the specified one, and its capacity is never exceeded |
| PeRegions.ImageRegions.Add | src/hash.c:1605-1647 | Inserts a region at its place by shifting, keeps the list sorted and disjoint and within capacity, and changes nothing when it refuses |
| PeRegions.InsertSorts | src/hash.c:1616-1641 | An insertion keeps the list sorted, and is refused exactly when the region is reversed or overlaps another |
| PeRegions.PiecesSelect | src/hash.c:1850-1853 | Hashing the regions of a sorted list one after the other hashes the bytes at their positions, each once, in file order |
| PeRegions.FilledList | src/hash.c:1775-1817 | In an image whose sections tile the file the list covers exactly the bytes to be hashed |
| PeRegions.FilledBytes | src/hash.c:1719-1817 | These bytes are the image minus the three excluded parts |
| PeRegions.TotalFills | src/hash.c:1792-1808 | The sizes of tiling sections add up to where they end, so that the extra data begins right after them |
| PeRegions.TilingIsTile | src/hash.c:1785-1790 | Whether sections tile does not depend on their order in the table |
| PeRegions.ListWithin | src/hash.c:1719-1817 | For every image all regions lie in it if and only if those of the headers and every section that is not refused when its turn comes do |
| PeRegions.InImageExactly | src/hash.c:1719-1817 | When the headers are in order and the sections neither overlap nor reach into them, all regions lie in the image if and only if checksum, headers, directory entry and every section that is not empty do |
| PeRegions.InsideMatters | src/hash.c:1850-1853 | What is hashed is independent of the memory behind the image if and only if every region that is not empty ends in the image |
| PeRegions.OverlapLeftOut | src/hash.c:1797-1798 | A section of 5000 bytes over the headers of an image of 2048 is left out, so that the list is what it is without it and lies in the image |
| PeRegions.SectionBeyondImage | src/hash.c:1792-1808 | A section beginning at the end of the file passes all checks and makes a region beyond the file |
| BadBlockScan.BadBlocks | src/badblocks.c:569-606 | On any device the report is the sum of its counters and at most 319; a device with fewer cells than blocks is found out; one that works is not suspected; one that may fail but keeps what it accepts is reported no corruption unless the two uneven patterns are used; with them, and on two blocks or more, one that keeps everything and reads single blocks only is reported, so that the condition is exact; with detection of fake drives a device that returns one block fewer than asked for is reported if and only if it has at least 64 cells fewer than blocks; a disk above 1 PB is refused |
| BadBlockScan.Scan.TestRw | src/badblocks.c:407-567 | The same for any block range and number of blocks at once, with the check of the arguments; the list grows by blocks of the range only |
| BadBlockScan.Scan.Pass | src/badblocks.c:449-563 | On a device that stores block b in cell b modulo m, the first pass reports exactly the blocks b with b + m below the end, in ascending order, as far as it gets before the threshold |
| BadBlockScan.Scan.WritePhase | src/badblocks.c:457-504 | Terminates on any device; each block is settled exactly once as transferred or failed, and those that failed are on the list |
| BadBlockScan.Scan.ReadPhase | src/badblocks.c:506-560 | On any device, below the overflow check at 1 PB, the list grows by exactly the blocks that failed on their own and the blocks of complete requests that are not what the buffer has for them; those of short reads are not compared; at most one request beyond the threshold is reported |
| BadBlockScan.Scan.Settle | src/badblocks.c:491-503 | Each turn advances, or reduces a request of several blocks to one; only a block that failed on its own is reported |
| BadBlockScan.Scan.Compare | src/badblocks.c:548-557 | Exactly the blocks of a complete request that differ from the buffer are put on the list |
| BadBlockScan.HonestDeviceMisjudged | src/badblocks.c:548-557 | On every disk of two blocks or more there is a device that keeps everything and on which the third or fourth pass of the fifth flash type reports corruption and no other error |
| BadBlockScan.FakeDeviceUnnoticed | src/badblocks.c:542-547 | For every number of cells up to 63 below the number of blocks there is a device which the scan with detection of fake drives reports to be good, in any number of passes with even patterns |
| BadBlockScan.Misjudged | src/badblocks.c:548-557 | With the two uneven patterns the content of a block at two positions of the buffer is the same if and only if these agree modulo 3 |
| BadBlockLog.HonestFinds | src/badblocks.c:548-557 | On a device that keeps what it transfers, with even patterns, only blocks already known to be bad differ |
| BadBlockLog.AliasingFinds | src/badblocks.c:548-557 | On a device that stores block b in cell b modulo m and never fails, exactly the blocks whose cell is written again differ |
| BadBlockLog.BalkyFinds | src/badblocks.c:548-557 | On a device that keeps everything but reads single blocks only, exactly the blocks differ whose content at the position they were written from is not that of the first position |
| BadBlockRecovery.OneShortFinds | src/badblocks.c:514-560 | On a device that returns one block fewer than asked for, exactly the last blocks of full requests differ whose cell is written again, as requests for 64 blocks and for one take turns |
| BadBlockRecovery.UnstampedFinds | src/badblocks.c:548-557 | Without the stamps, blocks of even patterns read back alike from whatever cell, so that nothing is found on such a device |
| BadBlockRecovery.FullSizeResumes | src/badblocks.c:535-547 | When the scan goes block by block and is to recover at x, every request up to there is for a single block, the last of them for x - 1; if that one is transferred the next request, at x, is of full size, and if not no request of the phase asks for more than one block again |
| BadBlockRecovery.CutShort | src/badblocks.c:494-499 | A request for several blocks that is cut short makes the scan go block by block and sets the point of recovery to where a full request would have ended, unless there is one |
| BadBlockRecovery.SinglesAfter | src/badblocks.c:494-503 | From a state in which the point of recovery has been passed, every later request of the phase is for a single block |
| BadBlockScan.NeverFullAgain | src/badblocks.c:506-560 | A pass in which block 63 alone fails and every request after the first, to the end of a disk of any size, is for a single block, although the device would have met requests of any size from block 64 on |
| BadBlockDevice.Stored | src/badblocks.c:479-487 | What a write of a run leaves in the cell of a block is the last block of the run with that cell, or what was there |
| BadBlockDevice.CellDiffers | src/badblocks.c:548-557 | What cells return for a block equals the buffer if and only if no later block took its cell and its content is the same at both positions |
| BadBlockDevice.StoringIsHonest | src/badblocks.c:457-487 | A device with a cell for every block keeps and returns everything it transfers |
| BadBlockLog.ChainedEachOnce | src/badblocks.c:491-505 | Requests that each begin where the one before left off settle every block exactly once, as transferred or failed |
| BadBlockLog.GoesOn | src/badblocks.c:491-505 | Each turn of the loop asks for what the history of cuts and the point of recovery say, in range and right behind the request before; as long as none is cut short all requests are aligned and of full size |
| BadBlockPattern.PatternFill | src/badblocks.c:342-359 | The buffer holds the bytes of the pattern, highest first, over and over, or for 0xffffffff a random byte at each place |
| BadBlockPattern.SlicesAlike | src/badblocks.c:342-359 | Blocks at all positions of the buffer are alike when the period of the pattern divides the block size |
| BadBlockPattern.UnevenPatterns | src/rufus.h:106-111 | Exactly the last two patterns of the fifth flash type do not fill a block evenly |
| BadBlockPattern.UnevenSlices | src/rufus.h:110-111 | With those two, blocks at two positions are alike if and only if the positions agree modulo 3 |
| BadBlockPattern.StampsDiffer | src/badblocks.c:479-486 | Blocks stamped with different numbers differ |
| BadBlockList.BlockList.Add | src/badblocks.c:95-139 | Adding is insertion into the set, with the array kept strictly ascending and grown by 100 when full |
| BadBlockList.BlockList.Find | src/badblocks.c:150-179 | The bisection returns -1 if and only if the block is not a member, and otherwise its position |
| BadBlockList.Reports.Output | src/badblocks.c:254-287 | A block is counted and listed unless it is listed already; an iterator in use keeps the last block it handed out, and exactly the larger blocks remain |
| BadBlockList.BlockIterate.Iterate | src/badblocks.c:198-216 | Hands out the blocks in order, and 0 at the end |
| BadBlockList.AscendingUnique | src/badblocks.c:95-139 | A strictly ascending list is determined by its set of members |
| BadBlockList.Above | src/badblocks.c:198-216 | What follows a member of the list are exactly the larger members |
| BadBlockList.AfterTheEnd | src/badblocks.c:272-277 | An iterator that has come to the end repeats its last block if and only if the block then added is below that, and otherwise hands out the new one |
| BadBlockList.EndedIteratorRepeats | src/badblocks.c:272-277 | A run in which the only block of a list is handed out twice |
| PartitionLayout.CreatePartition | src/drive.c:2311-2426 | When it succeeds the requested partitions are there in order, none empty, none overlapping, within the disk and clear of the last 33 sectors on GPT; those behind the main one are in whole tracks, the main one is in whole clusters (or tracks), and no space is lost but by rounding |
| PartitionLayout.PlaceFromBack | src/drive.c:2399-2407 | The backward loop places partitions on tracks, in order, as near the end as that allows |
| PartitionLayout.PlaceBefore | src/drive.c:2333-2365 | Partitions before the main one do not overlap, and the main one begins on a cluster |
| PartitionLayout.NextFits | src/drive.c:2342-2347 | The assertion between them holds if and only if the next cluster boundary comes no later than the next track boundary, or clusters are not whole sectors |
| PartitionLayout.LargeClustersOverlap | src/drive.c:2342-2347 | It fails for clusters of 2 MB and tracks of 63 sectors |
| PartitionLayout.SizeMain | src/drive.c:2409-2422 | The main partition takes what is left, cut to whole tracks and then clusters |
| Rounding.FloorIs | src/missing.h:35-35 | FLOOR_ALIGN is the greatest multiple not above its argument |
| Rounding.CeilingIs | src/missing.h:36-36 | CEILING_ALIGN is a multiple, less than one step above its argument |
| Rounding.Least | src/missing.h:36-36 | No multiple from the argument on is below CEILING_ALIGN |
| Fat32.Size | src/format_fat32.c:241-401 | For 65536 to 2^32 - 2 sectors the last check never fires, no 32-bit expression wraps, the data area begins on a megabyte, 32 to 31 + AlignSectors sectors are reserved, and the FAT has room for every cluster and the two reserved entries |
| Fat32.FatHasRoom | src/format_fat32.c:134-146 | The FAT sized with no reserved sectors has entries for all clusters of what remains, and two more |
| Fat32.FatIsSmall | src/format_fat32.c:134-146 | The FAT takes less than about one sector in 128, so that nothing wraps |
| Fat32.DefaultIsSound | src/format_fat32.c:261-280 | A default cluster is never smaller than a sector nor larger than 128 |
| Fat32.ZeroSystemArea | src/format_fat32.c:417-434 | The zeroing loop covers the system area and goes less than two bursts beyond it |
| Fat32.WriteVolume | src/format_fat32.c:417-449 | All sectors up to the end of the root cluster hold boot sector, FSInfo and their backups, the heads of both FATs, or zeros; nothing is written outside the volume |
| SectorWriter.SectorBuffer.Write | src/format.c:1092-1148 | Only whole sectors are requested, fewer bytes than a sector wait, and as long as requests are met the device followed by the buffer is everything passed in; when the count comes back although a request was cut short, the completed sector was written in part |
| SectorWriter.SectorBuffer.WriteRest | src/format.c:1126-1147 | Full sectors are written and the rest is kept |
| SectorWriter.WriteImage | src/format.c:1298-1310 | Over any sequence of pieces a reliable device ends up with the image, in whole sectors and less than a sector longer |
| SectorWriter.PartialSectorGoesUnnoticed | src/format.c:1120-1123 | A completed sector of which the device takes as many bytes as the count passes for success, and bytes are lost |
| ZeroDrive.Zero | src/format.c:1188-1279 | A completed run leaves all bytes zero, or in the fast mode every chunk all zero or all ones; the writes that succeeded are of whole chunks in the order of the drive, each chunk once, and leave out none but the empty ones of the fast mode |
| ZeroDrive.ClearChunk | src/format.c:1215-1278 | One turn clears the chunk at the pointer, leaves the pointer behind it, and skips only chunks that are already empty |
| ZeroDrive.WriteChunk | src/format.c:1254-1278 | Up to four attempts, rewinding after each that failed; success means exactly this chunk was written |
| ZeroDrive.IsEmpty | src/format.c:1231-1241 | The comparison of words says exactly whether all bits of the chunk are equal |

## Left out

- RegexSearch.AnchoredSearchTheorem: the condition is sufficient only; whether leaving out the prefix loses a match of a pattern with a skippable anchor is a question of inclusion between two languages, not of the shape of the pattern, as `(^a)?` loses nothing and `(^a)?b` does. What is exact is the step at a quantifier, `RegexSearch.QuantifierConfined`.
- PeRegions.Pe256: the header fields are given, not decoded from bytes; memory behind the image can always be read; `qsort` is any ordering by virtual address.
- PeRegions.Parse: a negative `e_lfanew`, which passes the signed comparison of the code and places the headers before the image, is not modelled.
- PeRegions.ImageRegions.Add: the unsorted mode (`nocheck`), which nothing uses, is not modelled.
- ZeroDrive.Zero: starts at position 0, since the code only warns when the initial rewind fails; sectors are a multiple of four bytes.
- BadBlockScan.Scan.TestRw: the buffer is a sequence of blocks rather than of bytes; random fill patterns, which no table uses, are in `BadBlockPattern.PatternFill` only; the report file is not modelled.
- BadBlockScan.BadBlocks: what it says of fake and of working devices is for disks below 1 PB, as on a disk of exactly 1 PB the overflow assertion of the comparison can stop the scan.
- RegexParse.BuildTree: numbers in intervals are unbounded; the code overflows an `int`.
- RegexEngine.Search: compiles the tree of the specified parser, which `RegexParse.BuildTree` shows to be the one in the node buffer.
- The SHA-512 and MD5 transforms and the variants with processor instructions. `md5_write` has a copy of another length in it and is not covered by the streaming theorem.
- Failed allocations, event timeouts and failing system calls, except where a fault is part of the model.
- All calls into Windows, dialogs, progress and log messages, locale, device enumeration, image scanning, file extraction and download.
- Writing of images that are not compressed, and the FAT32 boot sector's other fields.
