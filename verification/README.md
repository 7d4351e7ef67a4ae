# Proofs about the core of eLua

A model in Dafny of the parts of eLua that have the most state and the most branches, with proofs of what
they promise. `dafny verify dfyconfig.toml` checks all of it.

- **Lua code generator** (`Lua*.dfy`, `lua/lcode.c`): the one-pass compiler for boolean expressions. `LuaExpr` has
  expressions, their meaning, and the meaning one-pass compilation gives them; `LuaMachine` the instructions; `LuaExact`
  which expressions compile to their value; `LuaGen` the generator with jump lists as sets; `LuaCode` the generator on the
  code array, with the lists threaded through the offsets of the jumps. The array generator refines the one on sets, and `LuaTheorem` says what a run of
  the instructions does, `LuaSize` how many there are.
- **FatFs** (`Fat*.dfy`, `fatfs/ff.c`): packed table entries behind a write-back window, cluster chains, and files with
  a sector buffer and direct transfers. `FatRun` refines every run on an open file to a byte string with a cursor,
  `FatPlace` says where on the disk its bytes are.
- **dlmalloc** (`Malloc*.dfy`, `dlmalloc.c`): boundary tags, small bins, bitwise tries, designated victim, top and
  segments, on 32-bit sizes. Heaps are values with one invariant (`MallocHeap.Sound`); the classes `TreeBins`,
  `SmallBins` and `State` change fields in place and are proved against functions on those values.
- **Simple allocator** (`Salloc*.dfy`, `salloc.c`): packed header words in memory, best fit, splitting and merging.
- **XMODEM receiver** (`Xmodem*.dfy`, `xmodem.c`): the CRC and the receive loop. `XmodemLine` says what a transfer comes
  to as a function of the line, `XmodemTheorem` puts senders at the other end.
- **Ring buffer** (`Ring*.dfy`, `buf.c`): an interrupt handler writes while the main loop reads or flushes.
- **ROM file system** (`Rom*.dfy`, `mkfs.py`, `romfs.c`): the image as it is written and as it is read.

`Words.dfy` has powers of two and bit masks as numbers. Each class has one predicate for its invariant and, where proofs
are long, one ghost function that gives its whole state as a value; its methods are specified by functions on such values.

## Findings

Where the code does not do what one would expect, the model keeps the code as it is, with an input and the exact
condition.

- `return (('hi' or true) and true) or true` returns 'hi' (`LuaTheorem.ReturnsWrongValue`, `LuaMeaning.WrongValue`,
  lcode.c:547-550 and 575-578 with 59-66): the unconditional jump of a literal takes along jumps that wait for the next
  instruction and carry a value. Without comparisons `ReturnsValueAlways` has the exact condition on the text; with them
  `ReturnsValueExactly` has it for one evaluation, where no operand of a comparison is spoiled, and `Clean` is a simpler
  condition on the text that is enough, not necessary. Control flow is never wrong: `ConditionsBranchOnTruth` needs no such condition.
- memalign with an alignment above 2^31 never ends (`MallocAlign.NeverRounded`, dlmalloc.c:2674-2678); up to 2^31 the
  least power of two is found (`RoundUpLeast`).
- sys_alloc computes with sizes that wrap around. A request of MAX_REQUEST bytes or more becomes 2^32 - 1, asks for 256
  bytes, and takes them for enough; that damages the heap if and only if they come before another segment
  (`MallocSystem.TooBigTaken`, `TooBigOffered`, dlmalloc.c:2291-2308). For the largest requests below that the rounded
  size is 0, and a new heap, or one with hardly any top, takes nothing for a segment (`RoundedAway`, `RoundedAwayAgain`,
  2227-2269). With a top of 2 GB the rest of a request is too large to be asked for, and a part of it before another
  segment is taken for all (`PartTaken`, 2239-2269). The second answer on the contiguous way is taken to follow the first
  one without a look (`GapTaken`, 2254-2258). `SuppliedExactly` has the exact condition for all of these together.
- realloc that moves a block always copies the whole old payload: the size asked for, the other bound in the call of
  memcpy, is never the smaller one (`Malloc.State.InternalRealloc`, dlmalloc.c:2655-2658).
- A record that was stored but whose ACK got lost is answered by NAK when it is sent again: only the number expected
  next is accepted (`Xmodem.Receiver.GetRecord`, xmodem.c:92-96). It is not stored twice (`XmodemLine.NotTwice`), but a
  sender that goes on repeating it loses the transfer (`XmodemTheorem.ResentGivenUp`, `AckLost`).
- salloc's rounded size wraps around for the sizes from 2^32 - 15 on (`SallocZones.NeedEnough`, `SallocWrap.WrapsTo`,
  salloc.c:28-34). For eight of them smalloc never returns where the smallest free block has 16 bytes (`NeverReturns`), for the
  other seven it gives away a block of less than 32 bytes (`TinyGiven`).
- 32768 elements of 4 bytes, which the constants of the ring buffer allow, do not fit 16-bit pointers
  (`RingModel.WideExactly`, buf.c:40-43). buf_flush and the copy in buf_read run with interrupts on: a write between the
  stores of buf_flush can leave the pointers out of step (`FlushedExactly`), and one during a copy can tear an element
  (`Torn`, `ReadsFaithfully`).
- A file of more than 65535 bytes gets a wrong size in the ROM image (`RomImage.SizeExactly`, mkfs.py:113-116), and a name
  that is longer than 30 characters finds a file whose 30 characters it begins with (`RomFs.SameExactly`, romfs.c:68).

## Model

| member | source | states |
|---|---|---|
| `LuaTheorem.ReturnsAsCompiled` | elua_src_base/src/lua/lcode.c:343-789 | from any state of the generator, with jumps waiting or not, a run of the code of `return x` stops at its RETURN with the value one-pass compilation gives x (`Leave`) in the first free register, and no register below that one has changed |
| `LuaTheorem.ReturnsValue` | elua_src_base/src/lua/lcode.c:390-475 | when the expression is `Clean`, a condition on its text alone, that value is the expression's own |
| `LuaTheorem.ReturnsValueAlways` | elua_src_base/src/lua/lcode.c:539-591 | for expressions without comparisons, the exact condition on the text: the code returns the value of the expression for all values of the variables if and only if no truths of the variables lead control out through a jump that carries a value and was merged into the list of a literal's unconditional jump (`NeverSpoils`) |
| `LuaTheorem.ReturnsValueExactly` | elua_src_base/src/lua/lcode.c:539-591 | with comparisons too, evaluation by evaluation, where no operand of a comparison is spoiled: the value is right if and only if control does not leave through such a jump |
| `LuaTheorem.ReturnsWrongValue` | elua_src_base/src/lua/lcode.c:547-550 | the failing input: generated from nothing, `return (('hi' or true) and true) or true` leaves 'hi' in register 0, where the expression is true |
| `LuaMeaning.WrongValue` | elua_src_base/src/lua/lcode.c:575-578 | the same input in terms of the compiled meaning |
| `LuaExact.ValueExactly` | elua_src_base/src/lua/lcode.c:539-591 | the same condition for the compiled meaning: right for all values if and only if never spoiled |
| `LuaExact.LeaveFor` | elua_src_base/src/lua/lcode.c:539-591 | the text of an expression without comparisons and the truths of the variables say where control goes and whose value it carries |
| `LuaMeaning.CompiledExactly` | elua_src_base/src/lua/lcode.c:539-591 | in one evaluation in which comparisons have unspoiled operands, an expression compiles to its own value if and only if `Leave` is not spoiled |
| `LuaMeaning.CleanCompiles` | elua_src_base/src/lua/lcode.c:539-591 | no clean expression is ever spoiled, whatever the registers hold |
| `LuaTheorem.BranchesOnTruth` | elua_src_base/src/lua/lcode.c:539-591 | after luaK_goiftrue control goes on if and only if the expression is true, and otherwise stands at a jump of the list that leaves; luaK_goiffalse is the dual |
| `LuaTheorem.ConditionsBranchOnTruth` | elua_src_base/src/lua/lcode.c:745-760 | the same for every condition, literals included, whose comparisons have atoms as operands, with no other condition |
| `LuaTheorem.AllJumpsResolved` | elua_src_base/src/lua/lcode.c:59-66 | every jump made for x has its target in the code of `return x`; only jumps that were pending before and belong to others are left |
| `LuaSize.ReturnSize` | elua_src_base/src/lua/lcode.c:390-591 | a bound on the instructions of `return x` from its text alone (`Size`, `Loading`): nothing for constants and variables that can be operands, no test for a literal, nothing for a `not` that is tested, truth values made only for jumps that carry none |
| `LuaTheorem.DecodedRun` | elua_src_base/src/lua/lcode.c:80-87 | the packed instructions run as the abstract ones they stand for, as long as no unresolved jump is met |
| `LuaFlowProof.CompileFlow` | elua_src_base/src/lua/lcode.c:718-789 | wherever a run arrives at the code of an expression, it leaves it where `Leave` says, with the value carried that `Leave` says |
| `LuaFlowProof.CompileAway` | elua_src_base/src/lua/lcode.c:718-789 | a run that does not arrive there is not changed by the code |
| `LuaCompileProof.CompileKeeps` | elua_src_base/src/lua/lcode.c:718-789 | compiling keeps the generator well formed, touches no jump it does not own, and leaves its own jumps pending |
| `LuaOperandProof.CloseHolds` | elua_src_base/src/lua/lcode.c:390-411 | closing the lists of an expression puts its value into the register, whether control falls through, jumps with a value or without one |
| `LuaNotProof.CodeNotFlow` | elua_src_base/src/lua/lcode.c:594-626 | codenot: the lists change places, and the value is the negation |
| `LuaListProof.OneList` | elua_src_base/src/lua/lcode.c:185-196 | after compiling, every unresolved jump that is not somebody else's is in exactly one live list |
| `LuaListProof.CompileNoLoss` | elua_src_base/src/lua/lcode.c:185-196 | no unresolved jump is ever lost from the live lists |
| `LuaThreads.ThreadsDistinct` | elua_src_base/src/lua/lcode.c:100-106 | a list threaded through the offsets of the code visits no position twice, although links run both ways |
| `LuaThreads.ThreadsUnique` | elua_src_base/src/lua/lcode.c:100-106 | a list is determined by its head |
| `LuaCode.FuncState.Concat` | elua_src_base/src/lua/lcode.c:185-196 | luaK_concat is list append |
| `LuaCode.FuncState.NeedsValue` | elua_src_base/src/lua/lcode.c:122-128 | need_value says whether some jump of the list has no TESTSET before it |
| `LuaCode.FuncState.PatchListAux` | elua_src_base/src/lua/lcode.c:150-160 | every jump of the list is patched once, those that produce a value to vtarget, the others to dtarget; no other jump changes |
| `LuaCode.FuncState.RemoveValues` | elua_src_base/src/lua/lcode.c:144-147 | exactly the TESTSETs of the list become TESTs |
| `LuaCode.FuncState.LoadNils` | elua_src_base/src/lua/lcode.c:35-56 | nothing is added if and only if no jump leads here and a function begins with its registers nil or the load of nils before reaches the register; that load is extended |
| `LuaCode.FuncState.AddK` | elua_src_base/src/lua/lcode.c:229-247 | a constant is stored once |
| `LuaCode.FuncState.ExpToRegister` | elua_src_base/src/lua/lcode.c:390-411 | exp2reg on the array does what the generator on sets does |
| `LuaCode.FuncState.ExpToRK` | elua_src_base/src/lua/lcode.c:444-469 | luaK_exp2RK likewise: the operand is the index of a constant that fits its field or a register that holds the value; a constant goes to a register if and only if the table has no room below index 256 |
| `LuaCode.FuncState.JumpOnCond` | elua_src_base/src/lua/lcode.c:524-536 | jumponcond likewise; a NOT before it is taken back |
| `LuaCode.FuncState.GoIfTrue` | elua_src_base/src/lua/lcode.c:539-564 | luaK_goiftrue likewise |
| `LuaCode.FuncState.GoIfFalse` | elua_src_base/src/lua/lcode.c:567-591 | luaK_goiffalse likewise |
| `LuaCode.FuncState.CodeNot` | elua_src_base/src/lua/lcode.c:594-626 | codenot likewise |
| `LuaCode.FuncState.CodeComp` | elua_src_base/src/lua/lcode.c:681-694 | codecomp likewise: `a > b` is `b < a` |
| `LuaCode.FuncState.Posfix` | elua_src_base/src/lua/lcode.c:745-789 | luaK_posfix likewise, for and, or and the comparisons |
| `LuaCode.FuncState.CompileReturn` | elua_src_base/src/lua/lcode.c:414-419 | the whole array generator refines the one on sets, for the same text with the room the constant table had, so all results about runs hold of the array; with room for 256 constants every constant operand stays one |
| `LuaExpr.TextEval` | elua_src_base/src/lua/lcode.c:451-458 | whether there was room for a constant does not change what an expression means |
| `FatTable.PutGet` | elua_src_base/src/fatfs/ff.c:351-402 | what put_fat packs, get_fat unpacks, up to the bits an entry has |
| `FatTable.PutOther` | elua_src_base/src/fatfs/ff.c:351-402 | no other entry changes, although neighbouring 12-bit entries share a byte |
| `FatTable.EntryBits` | elua_src_base/src/fatfs/ff.c:351-402 | entry c is made of the 12, 16 or 28 bits of the table from bit 12c, 16c or 32c on, the low bits of each byte first |
| `FatFs.FATFS.MoveWindow` | elua_src_base/src/fatfs/ff.c:229-261 | the view of every sector stays, and the copies of the table stay equal |
| `FatFs.FATFS.CopiesEqual` | elua_src_base/src/fatfs/ff.c:239-247 | whenever the window is clean, every copy of the table on the disk equals the table as it is seen |
| `FatFs.FATFS.GetFat` | elua_src_base/src/fatfs/ff.c:309-341 | the entry, through the window and over a sector boundary for 12 bits; 1 for a number out of range |
| `FatFs.FATFS.PutFat` | elua_src_base/src/fatfs/ff.c:351-402 | exactly that entry changes in the view |
| `FatFs.FATFS.CreateChain` | elua_src_base/src/fatfs/ff.c:454-502 | the loop ends; a free cluster is linked in or 0 is returned, a known number of free clusters stays known and right and is marked to be written; the cluster taken is the next free one behind the chain or behind the one taken last, going round at the end of the volume |
| `FatFs.FATFS.RemoveChain` | elua_src_base/src/fatfs/ff.c:413-443 | the loop ends on every table; a known number of free clusters stays known and right, and is marked to be written whenever the table changes |
| `FatFs.FATFS.ClustToSect` | elua_src_base/src/fatfs/ff.c:510-521 | clust2sect: cluster c begins at database + (c - 2) * csize, 0 for a number that no cluster has, although it is computed on words without a sign |
| `FatFs.CreatedChains` | elua_src_base/src/fatfs/ff.c:454-502 | on a table of disjoint chains one chain gets longer by one free cluster; 0 means that none is free |
| `FatFs.FreedChains` | elua_src_base/src/fatfs/ff.c:413-443 | from the head of a chain exactly that chain is freed, and the others stay disjoint chains |
| `FatChain.ExtendChain` | elua_src_base/src/fatfs/ff.c:488-494 | a free cluster linked behind the end of a chain keeps the table a set of disjoint acyclic chains |
| `FatChain.FreeChain` | elua_src_base/src/fatfs/ff.c:425-440 | walking and freeing from the head visits the chain and nothing else |
| `FatImage.SectorsDistinct` | elua_src_base/src/fatfs/ff.c:513-522 | no sector belongs to a chain twice |
| `FatImage.SectorPlace` | elua_src_base/src/fatfs/ff.c:513-522 | sector q of a chain is database + (its cluster q / csize - 2) * csize + q % csize |
| `FatPlace.SectorOfByte` | elua_src_base/src/fatfs/ff.c:513-522 | byte p of a file is in that sector of the cluster that p / 512 / csize links of the table lead to from the first cluster |
| `FatPlace.SectorsInside` | elua_src_base/src/fatfs/ff.c:513-522 | every sector of a file is from database on and below database + (max_clust - 2) * csize |
| `FatImage.GrownPartition` | elua_src_base/src/fatfs/ff.c:454-502 | after any number of requests on one file the chains of all other files are what they were, disjoint from its own |
| `FatFile.FIL.Read` | elua_src_base/src/fatfs/ff.c:1749-1834 | f_read delivers the bytes from the cursor on, across the buffer, direct transfers and the end of clusters, each from the sector its place in the file leads to by the links alone (`Lies`) |
| `FatFile.FIL.Write` | elua_src_base/src/fatfs/ff.c:1844-1950 | f_write puts the data over the bytes from the cursor on, each into the sector its place leads to (`Lies`); it stops short only at the end of the last cluster when no cluster is left, and writes nothing when the file could reach 4 GB |
| `FatFile.FIL.Seek` | elua_src_base/src/fatfs/ff.c:2088-2177 | f_lseek gets to the place, or to the end of the file when it is read only, or, when no cluster is left, to the end of the last one; what the file held it still holds |
| `FatFile.FIL.Flush` | elua_src_base/src/fatfs/ff.c:1807-1812 | writing the buffer back changes nothing that is seen |
| `FatCursor.MaskRounds` | elua_src_base/src/fatfs/ff.c:2110-2113 | the mask ~(bcs - 1) rounds down to a cluster because the cluster size is a power of two |
| `FatRun.Run` | elua_src_base/src/fatfs/ff.c:1749-2177 | every run of reads, writes and seeks on an open file refines a byte string with a cursor (`Serves`), and nothing outside the file's own chain and the table changes |
| `FatRun.WriteBytes` | elua_src_base/src/fatfs/ff.c:1844-1950 | what a write makes of the bytes of the file: those from the cursor on are the data, all others are what they were, and it is no longer than it must be |
| `FatRun.ReadsBack` | elua_src_base/src/fatfs/ff.c:1844-1950 | what has been written and is read from there is what comes back |
| `MallocRuns.RunSound` | elua_src_base/src/dlmalloc.c:1617-1643 | every run of malloc, free, cutting and growing keeps the invariant of the whole heap (`Sound`): chunks tile their segments, pinuse bits equal the cinuse bit before them, free sizes are repeated behind the chunk; blocks in use never overlap |
| `MallocRuns.ReachesSound` | elua_src_base/src/dlmalloc.c:1617-1643 | the same for whatever a call of realloc or memalign goes through |
| `MallocHeap.FreeNeighbours` | elua_src_base/src/dlmalloc.c:1427-1447 | no two free chunks are adjacent |
| `MallocHeap.FreedSound` | elua_src_base/src/dlmalloc.c:3019-3117 | freeing with merging on both sides keeps the invariant and removes exactly that block |
| `MallocHeap.FreedVictim` | elua_src_base/src/dlmalloc.c:3065-3096 | dv stays the designated victim, larger by a block freed beside it; only into top it goes with the block |
| `MallocHeap.SplitSound` | elua_src_base/src/dlmalloc.c:2535-2547 | splitting a free chunk keeps it and adds exactly one block |
| `MallocChoice.GivenSound` | elua_src_base/src/dlmalloc.c:2903-2985 | whatever chunk the strategy chooses, giving it away adds exactly one block that is large enough |
| `MallocChoice.RoomFound` | elua_src_base/src/dlmalloc.c:2903-2985 | 0 is chosen if and only if no free chunk fits |
| `MallocChoice.StrategyExactly` | elua_src_base/src/dlmalloc.c:2903-2985 | which chunk: for at least 256 bytes the smallest that fits, dv when it is no larger; for fewer, one in a small bin that leaves no remainder, then dv, then the smallest that fits; top comes last |
| `MallocChoice.RestKept` | elua_src_base/src/dlmalloc.c:2918-2985 | what is left over, if it makes a chunk, is the new dv for fewer than 256 bytes and when dv was split, else it goes to a bin |
| `MallocChoice.AnsweredSound` | elua_src_base/src/dlmalloc.c:2887-3003 | a whole malloc: the invariant is kept, all blocks stay, and a result other than 0 is a new block of at least the size asked for, 8-aligned, apart from all others |
| `MallocGrow.GrowSound` | elua_src_base/src/dlmalloc.c:2627-2637 | realloc into top keeps the invariant |
| `MallocGrow.CutSound` | elua_src_base/src/dlmalloc.c:2616-2625 | cutting a chunk in use in two keeps it |
| `MallocGrow.AppendSound` | elua_src_base/src/dlmalloc.c:2330-2340 | memory behind the top segment makes top larger |
| `MallocGrow.PrependSound` | elua_src_base/src/dlmalloc.c:2342-2354 | memory before a segment makes it longer at its front |
| `MallocSegment.AddedSound` | elua_src_base/src/dlmalloc.c:2132-2182 | memory elsewhere: the old top becomes a free chunk, a segment record with fences, and nobody else notices |
| `MallocTreeBins.TreeBins.Insert` | elua_src_base/src/dlmalloc.c:1801-1850 | insert_large_chunk adds exactly one chunk; the tries stay ordered by the bits of the sizes, one tree node for a size, rings intact, the bin map exact |
| `MallocTreeBins.TreeBins.Unlink` | elua_src_base/src/dlmalloc.c:1869-1938 | unlink_large_chunk takes out exactly one chunk, from a ring, with a leaf as its replacement, or alone |
| `MallocTreeBins.TreeBins.Find` | elua_src_base/src/dlmalloc.c:1550-1583 | bin_find finds a chunk if and only if it is there, and ends within the bits of the size |
| `MallocTreeBins.TreeBins.BestFit` | elua_src_base/src/dlmalloc.c:2485-2533 | the one or two ways down that tmalloc_large looks at lead to the smallest chunk that fits among all tree bins, and to none only if there is none, with the difference of sizes taken modulo 2^32 |
| `MallocTreeBins.TreeBins.SmallestFit` | elua_src_base/src/dlmalloc.c:2555-2572 | tmalloc_small finds the smallest tree chunk of all |
| `MallocSizes.TreeIndexRange` | elua_src_base/src/dlmalloc.c:1066-1111 | compute_tree_index gives every large size the bin whose range it is in |
| `MallocSizes.BinsOrdered` | elua_src_base/src/dlmalloc.c:1109-1111 | a higher bin holds larger sizes |
| `MallocBits.FirstMarked` | elua_src_base/src/dlmalloc.c:1140-1158 | the least bit of a map is the first marked bin |
| `MallocBits.LeftMarked` | elua_src_base/src/dlmalloc.c:1161 | left_bits are the bins behind one |
| `MallocBits.MarkOne` | elua_src_base/src/dlmalloc.c:1117-1126 | marking or clearing a bin changes that one only |
| `MallocSmall.SmallBins.Insert` | elua_src_base/src/dlmalloc.c:1730-1746 | insert_small_chunk adds exactly one chunk, at the front of the list of its size; the lists stay rings through their headers |
| `MallocSmall.SmallBins.Unlink` | elua_src_base/src/dlmalloc.c:1749-1766 | unlink_small_chunk takes out exactly one, the others staying in order, and clears the mark with the last one |
| `MallocSmall.SmallBins.UnlinkFirst` | elua_src_base/src/dlmalloc.c:1769-1783 | unlink_first_small_chunk takes out the first one of the list |
| `Malloc.State.Free` | elua_src_base/src/dlmalloc.c:3019-3117 | dlfree: the heap that results, bins filed exactly, one block fewer |
| `Malloc.State.TmallocLarge` | elua_src_base/src/dlmalloc.c:2485-2552 | the best fit is given away if it fits strictly better than dv, and 0 is returned only if none does |
| `Malloc.State.TmallocSmall` | elua_src_base/src/dlmalloc.c:2555-2595 | the smallest chunk is given away, the rest becomes dv |
| `Malloc.State.Malloc` | elua_src_base/src/dlmalloc.c:2887-3003 | dlmalloc keeps `Good` (the heap sound and every free chunk but dv and top in exactly the bin of its size) and answers as the strategy says; on sizes that do not wrap around it returns 0 if and only if no free chunk fits and neither way gives memory, and all of the memory that is given belongs to the heap then (`Supplies`) |
| `Malloc.State.SysAlloc` | elua_src_base/src/dlmalloc.c:2187-2373 | sys_alloc: the memory acquired and where it goes; on sizes that do not wrap around, with a top below 2 GB, it fails if and only if the system gives nothing on either way (`Supplies`), and the contiguous way is given up if and only if it gave nothing (`FirstGives`) |
| `MallocSystem.AcquiredExactly` | elua_src_base/src/dlmalloc.c:2218-2308 | what is taken, in the sizes themselves: from the first answer on as much as was asked for in whole pages, with the rest where that was asked for; only if that gives nothing all up to the new break on the other way; nothing only if neither gives any |
| `Malloc.State.Acquire` | elua_src_base/src/dlmalloc.c:2218-2308 | the calls of sbrk on the contiguous and on the other way, sizes on 32-bit words |
| `Malloc.State.PrependAlloc` | elua_src_base/src/dlmalloc.c:2089-2127 | prepend_alloc: a block at the front, the rest merged with what follows |
| `Malloc.State.AddSegment` | elua_src_base/src/dlmalloc.c:2132-2182 | add_segment with its record and fences |
| `Malloc.State.Realloc` | elua_src_base/src/dlmalloc.c:3134-3155 | dlrealloc comes to one thing (`Outcome`): 0 for a request that is too big, the same place cut or grown into top where there is room, otherwise a place from malloc and the old one freed, 0 exactly when malloc finds none; the size that results is the padded request, or the old size when less than a chunk is left over, at any rate less than a minimal chunk more (`Fitted`); the other blocks stay, and it goes through steps that keep the heap sound |
| `Malloc.State.Memalign` | elua_src_base/src/dlmalloc.c:2669-2752 | internal_memalign: 0 exactly when the request is too big with its alignment or malloc finds no room for both; otherwise an aligned block that is large enough, leader and trailer given back, everything else as before |
| `MallocAlign.AlignedSound` | elua_src_base/src/dlmalloc.c:2700-2745 | leader, block and trailer tile the chunk; only the block stays |
| `MallocAlign.LeadFits` | elua_src_base/src/dlmalloc.c:2706-2722 | the leader makes a chunk of its own |
| `MallocAlign.RoundUpLeast` | elua_src_base/src/dlmalloc.c:2674-2678 | the alignment used is the least power of two that is large enough, up to 2^31 |
| `Malloc.AlignRequestSmall` | elua_src_base/src/dlmalloc.c:2680-2692 | the malloc under memalign asks for less than the alignment and 32 bytes more than what is wanted |
| `MallocAlign.NeverRounded` | elua_src_base/src/dlmalloc.c:2674-2678 | the failing input: above 2^31 the rounding loop never gets there, the word wraps to 0 first |
| `MallocSystem.SuppliedExactly` | elua_src_base/src/dlmalloc.c:2218-2308 | the whole condition: from an honest system sys_alloc takes memory that serves the request, and takes only what it was given, if and only if `Supplied` |
| `MallocSystem.OfferedExactly` | elua_src_base/src/dlmalloc.c:2218-2308 | for requests that are not too big: what is taken serves the request if and only if the contiguous way has not misjudged it, a condition on the request, the size of top and the break (`Misjudged`) |
| `MallocSystem.BackedExactly` | elua_src_base/src/dlmalloc.c:2250-2269 | all that is taken has been given if and only if the second answer begins where the first one ends |
| `MallocSystem.OrdinaryEnough` | elua_src_base/src/dlmalloc.c:2218-2274 | requests 297 bytes below 2^32 and a top below 2 GB are never misjudged |
| `MallocSystem.TooBigOffered` | elua_src_base/src/dlmalloc.c:2291-2308 | for a request that is too big, what is acquired keeps the heap intact if and only if it does not come before another segment |
| `MallocSystem.TooBigTaken` | elua_src_base/src/dlmalloc.c:2299-2308 | the failing input: nb + TOP_FOOT_SIZE wraps around, 256 bytes before a segment are taken for enough |
| `MallocSystem.RoundedAway` | elua_src_base/src/dlmalloc.c:2227-2236 | the failing input: the rounding wraps to 0 for the largest requests that are not too big, and a new heap takes nothing for a segment |
| `MallocSystem.RoundedAwayAgain` | elua_src_base/src/dlmalloc.c:2239-2269 | the failing input for a heap that is not new: hardly any top and a break that is not at its end |
| `MallocSystem.PartTaken` | elua_src_base/src/dlmalloc.c:2239-2269 | the failing input for a top of 2 GB: the rest is too large to be asked for, and 256 bytes before another segment are taken for enough |
| `MallocSystem.GapTaken` | elua_src_base/src/dlmalloc.c:2254-2258 | the failing input: the second answer is not looked at, and the segment holds an address nobody has given |
| `MallocRequest.AskedEnough` | elua_src_base/src/dlmalloc.c:2241 | what is asked for is enough if and only if the sum does not wrap around |
| `MallocRequest.TooBigAsks` | elua_src_base/src/dlmalloc.c:2967-2968 | MAX_SIZE_T as a request asks the system for 256 bytes |
| `MallocRequest.RequestFits` | elua_src_base/src/dlmalloc.c:505-510 | a padded request holds the bytes behind the head and wastes less than a minimal chunk |
| `SallocBlocks.Packed` | elua_src_base/src/salloc.c:36-93 | a packed word gives back its address and its flag, and setting one leaves the other |
| `SallocBlocks.MergedLive` | elua_src_base/src/salloc.c:99-117 | only the freed block goes |
| `SallocZones.NeedEnough` | elua_src_base/src/salloc.c:28-34 | the size computed is large enough if and only if size + 8 rounded up does not wrap around |
| `SallocZones.BestFitIs` | elua_src_base/src/salloc.c:130-142 | the block chosen: no free block that is large enough is smaller, and none of its size comes before it |
| `SallocWrap.WrapsTo` | elua_src_base/src/salloc.c:28-34 | the sizes from 2^32 - 15 on become 0 or 8, and no others |
| `SallocWrap.AllFit` | elua_src_base/src/salloc.c:130-142 | for the sizes that become 0 every free block is large enough |
| `SallocWrap.NeverReturns` | elua_src_base/src/salloc.c:99-157 | the failing input: for a size that becomes 0 the block taken is made its own neighbour and marked free, and the loop of s_compact_free never leaves it |
| `SallocWrap.TinyGiven` | elua_src_base/src/salloc.c:120-157 | the failing input: for the seven sizes behind those a block of less than 32 bytes is given away |
| `SallocZones.AllRestored` | elua_src_base/src/salloc.c:190-211 | a zone with nothing in use has the list of blocks s_init made of it |
| `SallocZones.InitialRoom` | elua_src_base/src/salloc.c:190-211 | a zone with nothing in use serves a request if and only if it is at least 24 bytes larger |
| `SallocLive.ApartIn` | elua_src_base/src/salloc.c:99-173 | blocks in use are 8-aligned, have room behind their header, and never overlap, over all zones |
| `SallocLive.GrantedMore` | elua_src_base/src/salloc.c:120-157 | smalloc adds exactly one block, and wastes little |
| `SallocLive.FreedLess` | elua_src_base/src/salloc.c:228-232 | sfree takes away exactly one |
| `Salloc.Allocator.CompactFree` | elua_src_base/src/salloc.c:99-117 | s_compact_free word by word: links stay inverse, no two free blocks adjacent, payloads of others kept |
| `Salloc.Allocator.GetFreeBlock` | elua_src_base/src/salloc.c:120-157 | the first of the smallest free blocks of the zone that fit |
| `Salloc.Allocator.Smalloc` | elua_src_base/src/salloc.c:215-225 | the first zone that has a block; 0 if and only if none has |
| `Salloc.Allocator.Sfree` | elua_src_base/src/salloc.c:228-232 | the block merged with its free neighbours; all other contents stay |
| `Salloc.Allocator.ShrinkBlock` | elua_src_base/src/salloc.c:173-187 | the block keeps what fits, the rest is freed when it makes a block |
| `Salloc.Allocator.Srealloc` | elua_src_base/src/salloc.c:246-279 | the block stays where it has room for the size; otherwise 0 is returned if and only if no zone has a block that is large enough, and nothing changes then; the block is never 16 bytes or more larger than it must be; the contents both blocks have room for are kept, all other blocks and their contents stay |
| `XmodemCrc.Check` | elua_src_base/src/xmodem.c:97-113 | the loop over the 32-bit word leaves the 16-bit CRC in its low half |
| `XmodemCrc.CrcDivides` | elua_src_base/src/xmodem.c:97-113 | the CRC is the remainder of the message times x^16 by x^16 + x^12 + x^5 + 1 |
| `XmodemCrc.CrcXor` | elua_src_base/src/xmodem.c:97-113 | the CRC is linear over exclusive or |
| `XmodemCrc.BurstDetected` | elua_src_base/src/xmodem.c:97-113 | payloads of one length that differ only within 16 bits in a row never have the same CRC |
| `XmodemLine.BurstRefused` | elua_src_base/src/xmodem.c:79-119 | a good record of which up to 16 bits in a row come wrong, in number, payload or CRC, is refused |
| `XmodemLine.ValidExactly` | elua_src_base/src/xmodem.c:90-115 | a record is good if and only if it is 132 characters, the number, 255 minus it, and at the end the CRC of the payload, its high byte first |
| `Xmodem.Receiver.GetRecord` | elua_src_base/src/xmodem.c:79-119 | a record is taken if and only if all of it comes in time and number, complement and CRC are right; else one NAK is sent; what is read ends behind the record or behind the silence in it |
| `Xmodem.Receiver.Receive` | elua_src_base/src/xmodem.c:124-182 | what is returned, read from the line, answered and stored is what `Transfer` says of the line |
| `XmodemLine.TransferSound` | elua_src_base/src/xmodem.c:124-182 | on every line: each end has exactly one reason (EOT, CAN or a good record without room where an attempt began, or 20 attempts in a row that failed), and what is stored came behind an SOH each, valid and numbered, in order |
| `XmodemLine.FailuresSkipped` | elua_src_base/src/xmodem.c:132-156 | failed attempts fewer than are left change nothing but the answers, which are exactly a 'C' for each attempt up to the first that brings an SOH, with it, and a NAK for each bad record |
| `XmodemLine.SilenceCalled` | elua_src_base/src/xmodem.c:132-136 | k silent attempts from the start are answered by exactly k times 'C' |
| `XmodemLine.FullExactly` | elua_src_base/src/xmodem.c:159-171 | the buffer cannot take another record if and only if it holds 8 or more, a multiple of 4, and 512 more bytes are not to be had |
| `XmodemTheorem.SentReceived` | elua_src_base/src/xmodem.c:124-182 | round trip: payloads sent as records, each getting through before its twentieth attempt fails, whatever noise, damaged and cut off records come before and whatever else comes before the line is silent, arrive complete and in order; the answers are exactly a 'C' for each attempt up to the first record, a NAK for each bad one, an ACK for each good one and one for the end; the line is read up to the silence behind it |
| `XmodemTheorem.SentCancelled` | elua_src_base/src/xmodem.c:146-152 | the same sender cancels: -1, what it got through is stored, the same answers |
| `XmodemTheorem.SentGivenUp` | elua_src_base/src/xmodem.c:132-182 | twenty attempts in a row come to nothing: -3, what got through is stored, the same answers and three CANs |
| `XmodemTheorem.SentNoRoom` | elua_src_base/src/xmodem.c:159-171 | a good record for which the buffer cannot be made large enough: -4, what was stored is kept, three CANs |
| `XmodemTheorem.ResentGivenUp` | elua_src_base/src/xmodem.c:92-96 | the failing input: a sender that missed the ACK of the last record and repeats it is refused by twenty NAKs until the transfer is given up |
| `XmodemTheorem.AckLost` | elua_src_base/src/xmodem.c:92-96 | such a transfer from its start: the file's record is stored, the result is that the retries are exceeded, with every answer given |
| `XmodemLine.NotTwice` | elua_src_base/src/xmodem.c:79-119 | a record sent again is never stored twice in succession |
| `XmodemLine.NumIs` | elua_src_base/src/xmodem.c:153-154 | record j has number j modulo 256 |
| `XmodemLine.PayloadsLength` | elua_src_base/src/xmodem.c:172-175 | the size is 128 times the number of records |
| `RingBuffer.Buffer.Write` | elua_src_base/src/buf.c:90-106 | buf_write: the element is in its place, the pointers stay in step, and a full ring loses its oldest element |
| `RingBuffer.Buffer.Read` | elua_src_base/src/buf.c:141-159 | buf_read with writes arriving at every point: underflow if and only if nothing is there, and otherwise exactly which bytes come out and which element is gone; the ring stays in order |
| `RingBuffer.Buffer.Flush` | elua_src_base/src/buf.c:77-82 | buf_flush with writes between its three stores: the ring that results, and that elements written after wptr was cleared are all there |
| `RingBuffer.QuietRead` | elua_src_base/src/buf.c:141-159 | without interrupts the ring is a queue: a read takes its first element |
| `RingBuffer.WriteQueued` | elua_src_base/src/buf.c:90-106 | a write is an element at the end of the queue, a full queue losing its first one |
| `RingBuffer.ReadsOldest` | elua_src_base/src/buf.c:141-159 | as long as writes during a read do not run over the ring, it delivers the oldest element and takes just that one out |
| `RingBuffer.ReadsFaithfully` | elua_src_base/src/buf.c:141-159 | every byte delivered is of the element taken out if and only if nothing was dropped since the read began, or only whole rounds before its first byte was copied |
| `RingModel.PutHolds` | elua_src_base/src/buf.c:90-106 | after every history of writes the last elements are in their places |
| `RingModel.HoldsLinked` | elua_src_base/src/buf.c:98-103 | wptr = rptr + count times the element size, modulo the size of the ring, in every state |
| `RingModel.WideExactly` | elua_src_base/src/buf.c:40-43 | for the sizes the constants allow, this holds over every run if and only if the ring has at most 2^16 bytes: 32768 elements of 4 bytes fail |
| `RingModel.FlushedExactly` | elua_src_base/src/buf.c:77-82 | buf_flush leaves the pointers in step if and only if nothing was written before wptr was cleared, or the ring was filled from its start |
| `RingModel.Torn` | elua_src_base/src/buf.c:151 | the failing input: one write in the middle of a copy, and half of the oldest and half of the newest element is delivered |
| `RomImage.Writer.Mkfs` | elua_src_base/mkfs.py:35-129 | the image is the encoding of the files that are there and whose names are not too long, in order; it fails if and only if one of them cannot be read |
| `RomImage.SizeExactly` | elua_src_base/mkfs.py:113-116 | two bytes hold the size if and only if there are at most 65535 bytes |
| `RomImage.EntryAt` | elua_src_base/mkfs.py:109-119 | entry k is where the sizes before it lead |
| `RomImage.EntryBytes` | elua_src_base/mkfs.py:109-119 | its bytes: the name, 0, the low and the high byte of the size, the contents |
| `RomImage.KeptOK` | elua_src_base/mkfs.py:55-104 | with usable names and sizes the image is one the readers understand |
| `RomImage.KeptExactly` | elua_src_base/mkfs.py:55-104 | the image holds every file of the list that is there with a name of at most 30 characters, and no other, in the order of the list |
| `RomFs.RomDevice.OpenFile` | elua_src_base/src/romfs.c:42-81 | the first entry with the name, names of exactly 30 characters included; not found if and only if there is none, so every spelling of a name in capitals and small letters finds a file; no byte behind the terminator is read |
| `RomFs.SameExactly` | elua_src_base/src/romfs.c:68 | which names count as the same: those that differ at most in letters being capital (65 to 90) or small (32 more), and a longer name also finds a name of 30 characters it begins with |
| `RomFs.RomDevice.OpenR` | elua_src_base/src/romfs.c:83-102 | the first free descriptor, at the start of that file, or the reason why there is none |
| `RomFs.RomDevice.CloseR` | elua_src_base/src/romfs.c:104-109 | the descriptor is free again, the others stay |
| `RomFs.RomDevice.ReadR` | elua_src_base/src/romfs.c:117-125 | the bytes of the file from the offset on, len of them or as many as there are; the offset moves by their number |
| `RomFs.RomDevice.ContentsAre` | elua_src_base/src/romfs.c:117-125 | those bytes are the ones mkfs was given |
| `RomFs.ChunksJoin` | elua_src_base/src/romfs.c:117-125 | reading in chunks of any sizes gives the same bytes as reading at once |
| `RomFs.RomDevice.Seek` | elua_src_base/src/romfs.c:128-161 | a seek succeeds if and only if the place, counted from the start, the offset or the end, is in the file or at its end, and then the offset is that place, although it is computed on words without a sign |
| `RomFs.RomDevice.GetDirEntry` | elua_src_base/src/romfs.c:181-194 | the entry at an offset and the offset of the next one, 0 behind the last |
| `RomFs.RomDevice.List` | elua_src_base/src/shell.c:191-197 | following the offsets lists every file once, in order |

## Left out

- Lua: arithmetic, concatenation, calls, indexing, globals, upvalues, constant folding and line information; the parser, whose calls are driven by an expression tree; comparison metamethods, the order of values being a parameter.
- Lua: expression descriptors are values that the methods return; luaK_exp2anyreg for a temporary that has jumps; luaK_nil for more than one register.
- Lua: registers stay below the limit of the machine and the constant table below 2^18 - 1 entries (`Compilable`), as the errors of luaK_checkstack and addk would have it; fixjump's range check never fires.
- LuaCode.FuncState.LoadNils: luaK_nil for one register.
- LuaCode.FuncState.Posfix: and, or and the comparisons; arithmetic and concatenation are not part of the model.
- LuaTheorem.ReturnsValueExactly: for evaluations whose comparisons have unspoiled operands.
- LuaMeaning.CompiledExactly: likewise.
- FatFs: disk errors and the branches for them, the error flag and validate, mounting, directories, f_sync, f_truncate and mkfs; the sectors of the table lie apart from the clusters, and the window does not hold a sector of the open file.
- FatFs: bytes between an old end of file and a place sought behind it may have any value; the top four bits of a FAT32 entry are written as the code writes them.
- dlmalloc: memory mapping, mspaces, locks, footers, trimming, statistics, calloc, pvalloc and the actions on errors of the caller; the head word is a size with two bits as a record.
- dlmalloc: sbrk is an oracle (`MallocSystem.Answers`) that gives memory nobody has, of the size asked for, 8-aligned, where it likes (`Honest`); the alignment of unaligned bases is not part of the model.
- Malloc.State.Malloc: assumes `Served`: when there is no room, so that the system is asked, `Supplied`, which is an honest system and exactly what the code needs beyond that (`MallocSystem.SuppliedExactly`); what happens otherwise is under Findings.
- Malloc.State.Realloc: assumes `Served` where malloc is called; it says how many bytes are copied and that they fit, payload bytes are not part of the model.
- Malloc.State.Memalign: assumes `Served` where malloc is called and an alignment of at most 2^31, because the rounding loop does not end otherwise.
- salloc: memory is a map of 32-bit words; memset and memcpy are by words; zones are 8-aligned and apart, as platform_get_first_free_ram and platform_get_last_free_ram make them; scalloc.
- Salloc.Allocator.Smalloc: sizes for which size + 8 rounded up does not wrap around; the others are under Findings.
- Salloc.Allocator.Srealloc: likewise.
- XMODEM: what the line delivers is a finite sequence of characters followed by silence; realloc fails above a limit on the size; sizes stay below 2^32.
- Ring buffer: buf_set, the table of descriptors and of devices, and interrupts between the loads and stores of buf_write, which runs in the interrupt.
- RingBuffer.Buffer.Read: rings of at most 2^16 bytes; for larger ones see `RingModel.WideExactly`.
- ROM image: compiling or compressing files before they are put in, the text format of the header file, and images of 2^32 bytes or more.
- RomImage.Writer.Mkfs: reading back is proved for names of 1 to 30 characters without 0 and sizes up to 65535.
