# MR-ISS: a verified model of the simulator's core

MR-ISS simulates a PowerPC 604-class system. This project models the parts of it in which a fast form has to agree with
a slow one, and the protocols between its threads and devices, and proves that they do.

* **Address translation** (`MmuTypes`, `PageWalk`, `WalkSpec`, `DirectTlb`, `Mmu`, `AssocTlb`). The walk over BATs, segments
  and the hashed page table, with its updates of the R and C bits, is the meaning of an access. The four direct-mapped
  uTLBs of the default build, with their partial flushes and the re-walk for clean pages, are proved invisible over every
  run; so is the associative variant, whose re-walk loop gets an exact bound. The class `PpcMmu` is the MMU updated in place.
  `Translation` says what all that comes to in the bits of BATs, SDR1, segment registers and PTEs.
* **Data path** (`Bus`, `DataPath`). Loads and stores through a cached host pointer against walk, bus and device.
* **The interpreter** (`CpuTypes`, `Alu`, `Interp`, `CpuState`, `Interpreter`). `Interp` is the machine as a function: fetch,
  execute, exception entry, ticks and delivery, with every memory access walked from scratch. `Interpreter` is the
  simulator's own form, objects updated in place over the MMU with its uTLBs, proved to take exactly those steps.
  `CpuRuns`, `Multiples`, `Atomics`, `Branches`, `CarryChain`, `Rotates` and `MulDiv` prove what instruction sequences do;
  `AluResults`, `DataAccess`, `SystemRegs` and `Exceptions` what each instruction and exception leaves for the guest to see, in
  the numbers of the architecture.
* **The JIT** (`CodeFetch`, `BlockStore`, `JitBlock`, `ClockFree`, `JitRuns`, `TimeBase`, `RunLoop`). The code arena, the chained block table
  and the generator, fetching its words through the MMU; what a generated block means in interpreter steps; and the main
  loop, which finds or makes a block, runs it from the arena, ticks and delivers. Every block that runs is proved to be the one
  that the words in memory made up when it was made, under the key of the PC; and as long as the guest leaves those words alone,
  the loop to be a run of the interpreter that looks at the clock between blocks only.
* **Devices** (`Uart`, `SdReply`, `SdCard`, `SdHost`). The PTY listener thread against the UART in every interleaving, and the SD host's
  request/acknowledge handshake driving the SD card.

`Words` holds 32-bit words as numbers and C's bit operators on them. `dafny verify dfyconfig.toml` checks everything.

Where a property that one would expect does not hold of the code, the code is kept, the exact condition is proved, and a lemma
or method gives an input at which it fails:

* A store to ROM through a translated host pointer writes it, although the bus ignores such a write: the two agree exactly
  outside ROM, or when the bytes are there already (`DataPath.StoreIsBusWriteIff`, `DataPath.RomStoreWrites`).
* A device whose range ends at or past 4 GiB is not selected inside it, because the end is computed in 32 bits
  (`BusMap.DecodesItsRangeIff`, `BusMap.TopDeviceIsDeaf`).
* Generated blocks never set the interpreter's instruction field, so after an alignment fault inside a block DSISR comes from
  a stale word. Block and interpreter agree exactly when there is no such fault, or the stale word and the word of the
  instruction that faulted give the same DSISR (`JitBlock.SameMachineIff`, `JitBlock.MisalignedLoadDiffers`).
* The MMU's modes agree with MSR in every state after a start at which they do; but main gives the CPU its configured PC and MSR
  without telling the MMU, so at the start they agree exactly when that MSR asks for no translation
  (`CpuRuns.StartConsistentIff`, `CpuRuns.MappedStartDisagrees`). For the JIT only instruction translation matters; a start MSR
  that asks for it leads to a state that the one-entry shortcut cannot tell from the first one, although the first PC is fetched
  there and faults here (`RunLoop.MappedStartMisleads`).
* TB plus DEC is conserved by single ticks, but a tick by a whole block's count decrements DEC at most once
  (`CpuRuns.ConservedIff`, `CpuRuns.TickOfEightDrifts`).
* SD block numbers count modulo 2^23, because byte offsets have 32 bits: a block that is written reads back at its own number
  exactly when it lies below block 2^23, or the block that the number wraps round to holds the same; and another block is left
  alone exactly when it is none of those written modulo 2^23 (`SdCard.BlocksReadBack`, `SdCard.LeftAloneIff`,
  `SdCard.HighBlockHitsLow`).
* The size in a CSD response is right exactly for an image of at least 1024 blocks; a smaller one is announced as the largest that
  there can be (`SdReply.CsdSays`).
* RXNE need not mean that a byte is waiting. It does in every interleaving in which the CPU never takes the last byte between the
  listener's return from poll and its callback, and each such take can be completed to a state in which it does not, by the two
  threads alone if a callback is registered
  (`Uart.RxneHonest`, `Uart.LateTakeMisleads`, `Uart.RxneWithoutByte`).

## Model

| member | source | states |
|---|---|---|
| `BusMap.Bus.GetDev` | Bus.h:55-81 | whatever the one-entry memo holds, the device found is the first that decodes the address |
| `BusMap.OnlyDecoder` | Bus.h:55-67 | with disjoint devices the search finds the one device that decodes the address |
| `BusMap.HostPages` | PPCMMU_utlb_dm.h:109-131 | the host address of an address is that of its page plus the offset, whether direct or I/O-tagged |
| `BusMap.HostPlace` | PPCMMU_utlb_dm.h:109-131 | what RAM decodes is at its offset from where the RAM begins in host memory, and anything else keeps its address with the top bit of 64 set |
| `BusMap.DirectIffRam` | PPCMMU_utlb_dm.h:109-131 | a translated address lacks the I/O bit exactly when RAM decodes the physical address |
| `BusMap.DecodesItsRangeIff` | Bus.h:55-58 | a device answers all of its range if and only if the range ends below 4 GiB |
| `BusMap.TopDeviceIsDeaf` | Bus.h:55-58 | a device in the last 64 KiB decodes no address at all, and so is not found |
| `DataPath.LoadIsBusRead` | PPCMMU.cc:76-162 | loading through the translated host address is reading the physical address over the bus |
| `DataPath.StoreIsBusWriteIff` | PPCMMU.cc:164-249 | storing through the translated host address is the bus write outside ROM; in ROM the two leave the same bytes exactly when the value is in place already |
| `DataPath.RomStoreWrites` | PPCMMU.cc:164-249 | a byte stored to ROM through the host pointer is written, over the bus it is not |
| `DataPath.FetchAfterPut` | DevRAM.h:49-105 | what is stored big-endian in n bytes is what n bytes load back |
| `DataPath.FetchBytes` | DevRAM.h:49-105 | what is loaded is the bytes in ascending order, most significant first |
| `DataPath.PutByte` | DevRAM.h:49-105 | what is stored is in the bytes in the same order |
| `DataPath.AlignedStaysInPage` | PPCMMU.cc:93-105 | an access that passes the 8-byte boundary test stays inside its page |
| `WalkSpec.GroupsInTable` | PPCMMU.cc:530-534 | for an aligned SDR1 both PTE groups lie in the table, at offsets that add up to that of its last group |
| `WalkSpec.BatTakesPrecedence` | PPCMMU.cc:474-498 | when a BAT matches, the result does not depend on the page table, which is left alone |
| `WalkSpec.BatMapsBlock` | PPCMMU.cc:635-667 | an aligned BAT maps its block onto the physical block, offset by offset |
| `WalkSpec.LastSetOfOnes` | PPCMMU.cc:265-282 | a block length field of k ones gives a shift of k |
| `PageWalk.FirstBat` | PPCMMU.cc:635-667 | the BAT found matches, and no earlier one does |
| `WalkSpec.PicksFirstCandidate` | PPCMMU.cc:530-621 | the search fails exactly when none of the sixteen candidates matches, and otherwise returns the first match, primary group first |
| `WalkSpec.PageUniform` | PPCMMU.cc:463-621 | all addresses of a 4 KiB page translate to the same frame at their own offset, with the same faults and R/C updates |
| `WalkSpec.TouchPerms` | PPCMMU.cc:553-610 | the permissions and the C state a walk reports, and exactly when it leaves the PTE as it is |
| `WalkSpec.WalkGrowsRC` | PPCMMU.cc:553-610 | a walk changes the page table only by turning R and C bits on |
| `WalkSpec.WalkSettles` | PPCMMU.cc:553-610 | once a walk hits, later read walks of the page give the same frame and write nothing, whatever R and C bits other walks have set since |
| `WalkSpec.WriteWalkCleans` | PPCMMU.cc:553-610 | a walk for a store leaves no writable page clean, so one walk is enough |
| `WalkSpec.AllowedMeansMarked` | PPCMMU.h:265-284 | an access that is let through to a hashed page finds R set, and C too if it is a store |
| `Translation.RealMode` | PPCMMU.cc:474-498 | with translation off every access goes to its own address, and writes nothing |
| `Translation.CandidatePlaces` | PPCMMU.cc:530-534 | the sixteen places of the PTE of an address, from the values in SDR1 and the segment register and from its hash, which is given bit by bit |
| `Translation.PteGives` | PPCMMU.cc:553-610 | address, permissions and R/C update of every walk that reaches a PTE, from Ks when privileged and Kp when not, PP, RPN, R and C |
| `Translation.PageAccess` | PPCMMU.cc:517-610 | an access that no BAT maps goes by the first of those places whose word is valid, of its VSID, of its hash function and of its page: where it goes, when it faults and with which fault, and what is written |
| `Translation.NoPageAccess` | PPCMMU.cc:517-621 | and if there is none, it is a page fault, or the no-execute fault of a fetch |
| `Translation.BatAccess` | PPCMMU.cc:265-320 | an access to a BAT whose two registers have just been written: mapped exactly if its block number agrees and Vs or Vp is set, onto the block of the lower register, if PP permits; otherwise as if that BAT were off |
| `Translation.ProgrammedBy` | PPCMMU.cc:253-263 | writing SDR1 and a segment register puts their fields where those results take them from |
| `DirectTlb.HitIsFresh` | PPCMMU_utlb_dm.h:85-107 | an entry that hits, and is not a clean one met by a store, answers as a walk from scratch would |
| `DirectTlb.TranslateSimulates` | PPCMMU.h:73-140 | one access through the uTLB gives the result, the fault and the page table of a walk from scratch, and one walk suffices |
| `DirectTlb.StepSimulates` | PPCMMU.cc:253-403 | every register write, invalidation, mode change and access keeps the uTLBs coherent and has the architectural effect |
| `DirectTlb.RunSimulates` | PPCMMU.cc:253-403 | over every run of accesses, IR/DR changes, BAT, segment and SDR1 writes, tlbie, tlbia and PTE edits, the cached MMU equals the walk |
| `DirectTlb.ResetCoherent` | PPCMMU_utlb_dm.h:53-63 | empty uTLBs are coherent with any page table |
| `DirectTlb.RunGrowsRC` | PPCMMU.cc:553-610 | between software PTE edits only R and C bits change, and only from 0 to 1 |
| `DirectTlb.AccessMeansMarked` | PPCMMU.h:265-284 | no access passes through a hashed page with R=0, nor a store through one with C=0, however stale or aliased the uTLB entry |
| `Mmu.PpcMmu.constructor` | PPCMMU.cc:37-53 | the MMU starts coherent, with translation off, every BAT disabled and generation count zero |
| `Mmu.PpcMmu.IutlbInv` | PPCMMU_utlb_dm.h:53-57 | empties the two instruction uTLBs and nothing else |
| `Mmu.PpcMmu.DutlbInv` | PPCMMU_utlb_dm.h:59-63 | empties the two data uTLBs and nothing else |
| `Mmu.PpcMmu.UtlbLookup` | PPCMMU_utlb_dm.h:85-107 | hits exactly when the indexed entry has the page and the current mode, and yields its address and permissions |
| `Mmu.PpcMmu.UtlbInsert` | PPCMMU_utlb_dm.h:109-131 | replaces one entry of one uTLB by the page's new one |
| `Mmu.PpcMmu.MatchBat` | PPCMMU.cc:635-667 | yields the translation of the first matching BAT |
| `Mmu.PpcMmu.SearchHtab` | PPCMMU.cc:517-621 | the double loop over groups and PTEs finds the first match of the two probes |
| `Mmu.PpcMmu.HitPte` | PPCMMU.cc:553-610 | address, permissions and R/C update of a matching PTE |
| `Mmu.PpcMmu.TranslateEA` | PPCMMU.cc:463-621 | BATs before segments before the page table; on a hit the uTLB gets the page |
| `Mmu.PpcMmu.TranslateAddr` | PPCMMU.h:73-140 | equals a walk from scratch in result, fault and page table, with at most one walk; the fatal exit cannot be reached |
| `Mmu.PpcMmu.SetIrDr` | PPCMMU.cc:623-633 | changes the modes, flushes nothing, and stays coherent |
| `Mmu.PpcMmu.SetIbatUpper` | PPCMMU.cc:270-282 | the architectural write, with the instruction side flushed |
| `Mmu.PpcMmu.SetIbatLower` | PPCMMU.cc:284-294 | the architectural write, with the instruction side flushed |
| `Mmu.PpcMmu.SetDbatUpper` | PPCMMU.cc:296-308 | the architectural write, with the data side flushed |
| `Mmu.PpcMmu.SetDbatLower` | PPCMMU.cc:310-320 | the architectural write, with the data side flushed |
| `Mmu.PpcMmu.SetSegmentReg` | PPCMMU.cc:354-370 | the architectural write, with everything flushed |
| `Mmu.PpcMmu.SetSdr1` | PPCMMU.cc:253-263 | the architectural write, with everything flushed |
| `Mmu.PpcMmu.Tlbie` | PPCMMU.cc:396-403 | flushes everything, whatever the address |
| `Mmu.PpcMmu.Tlbia` | PPCMMU.cc:387-394 | flushes everything |
| `Mmu.PpcMmu.Load` | PPCMMU.cc:76-162 | value and fault are those of a walk from scratch, a bus read and the alignment test |
| `Mmu.PpcMmu.LoadInst32` | PPCMMU.cc:55-74 | the same for an instruction fetch, which has no alignment test |
| `Mmu.PpcMmu.Store` | PPCMMU.cc:164-249 | a translation fault leaves data alone, a misaligned store is done and then reported, and outside ROM the store is the bus write |
| `AssocTlb.ScratchRepeats` | PPCMMU.h:100-135 | doing an access again gives the same answer and changes nothing more |
| `AssocTlb.AssocMmu.constructor` | PPCMMU.cc:37-53 | this variant starts coherent, with empty sides and the rotating index at slot 0 |
| `AssocTlb.AssocMmu.UtlbLookup` | PPCMMU_utlb_assoc.h:78-99 | the lowest slot that has the page and the mode |
| `AssocTlb.AssocMmu.TranslateEA` | PPCMMU_utlb_assoc.h:101-121 | the walk, with the new entry in the slot of the rotating index |
| `AssocTlb.AssocMmu.Flush` | PPCMMU_utlb_assoc.h:46-56 | empties the sides it is told to, and stays coherent |
| `AssocTlb.AssocMmu.Configure` | PPCMMU.cc:253-403 | a configuration write with its flushes has the architectural effect and stays coherent |
| `AssocTlb.AssocMmu.WalkThenLookup` | PPCMMU_utlb_assoc.h:78-121 | after a walk the lookup finds the new entry unless a stale duplicate sits in a lower slot |
| `AssocTlb.AssocMmu.TranslateAddr` | PPCMMU.h:100-135 | equals a walk from scratch, and so the direct-mapped variant, after an exactly stated number of walks that is never more than eight |
| `CodeFetch.FetchSettles` | PPCMMU.h:73-140 | once a fetch has been translated, fetching there again gives the same place and writes nothing |
| `CodeFetch.FetchesInPage` | PPCMMU.h:73-140 | all of a page is fetched from the same frame, also after R and C bits have been set and data translation switched |
| `BlockStore.Length` | blockgen.cc:74-277 | no emission is as long as the grace area |
| `BlockStore.MappedWhileGenStands` | PPCMMU.cc:253-403 | the generation count stands still over a run exactly when the run only accesses memory and switches modes, and then every block still translates to the address it was made for |
| `BlockStore.Store.constructor` | blockstore.cc:183-201 | initBlockStore leaves an arena and a table of the right sizes, without blocks, and a dummy block with all ones for PC and MSR |
| `BlockStore.Store.Reset` | blockstore.cc:119-143 | no blocks, empty buckets, and the pointer back at the start |
| `BlockStore.Store.AllocBlock` | blockstore.cc:145-172 | the block goes to the allocation pointer, after a reset if little space is left, and heads its bucket's chain |
| `BlockStore.Store.Plant` | blockgen.cc:38-50 | bytes written before the space check always land inside the arena and past every block, and count only if they fit |
| `BlockStore.Store.Finish` | blockgen.cc:396-422 | an epilogue that did not fit is in place all the same, and the next allocation is bound to reset before touching it |
| `BlockStore.Store.StartBlock` | blockgen.cc:396-422 | a new block has its header and prologue in place, behind the blocks there were or in a reset arena |
| `BlockStore.Store.NextWord` | blockgen.cc:483-499 | fetching the next word of the page through the MMU never faults and leaves the page table alone |
| `BlockStore.Store.PlantCalls` | blockgen.cc:466-499 | the generation loop, fetching word after word through the MMU, plants exactly the calls of the specification, and at the start of the arena never runs out of space |
| `BlockStore.Store.TryBlock` | blockgen.cc:424-535 | one attempt: the whole block, or a reset arena; from an empty arena always the whole block |
| `BlockStore.Store.CreateBlock` | blockgen.cc:424-535 | the block holds prologue, the calls of the words in memory and epilogue, other blocks are intact or the arena was reset, there is at most one retry, no block exactly when the PC cannot be fetched, and every block stays mapped where it was made for |
| `BlockStore.Store.Lookup` | blockstore.cc:66-86 | finds the block with the key if there is one, and nothing only if there is none |
| `BlockStore.Store.Shortcut` | blockstore.h:61-72 | the dummy block never matches the PC of an instruction, and a block that the one-entry shortcut takes is the one for the address that the PC is fetched from now |
| `BlockStore.Store.FindBlockSlow` | blockstore.cc:88-117 | translates the PC as a walk from scratch would, and finds the block for that address and MSR if there is one |
| `BlockStore.Store.FindBlock` | blockstore.h:61-72 | whichever way is taken, the answer and the page table are those of translating the PC and looking up; and blocks stay mapped |
| `BlockStore.KeysAreUnique` | blockstore.cc:145-172 | a (physical address, MSR) pair names at most one block |
| `BlockStore.ChainLink` | blockstore.cc:56-86 | every link of a chain is the header of a block of that bucket inside the arena and leads strictly back, so chains end |
| `BlockStore.ChainEnds` | blockstore.cc:66-86 | where a chain ends, no earlier block is of its bucket |
| `BlockStore.ExtendLast` | blockgen.cc:44-50 | writing the next emission at the end of the last block leaves every block as it was and adds to the last |
| `Alu.AluKeeps` | tools/PPC.csv:3-11 | an integer instruction changes GPRs, XER and CR only, moves the PC on by one word, and never clears SO |
| `AluResults.WritesOne` | inst_utility.h:31-35 | one register is written, and a record form compares it with zero into CR0, with SO as the instruction leaves it |
| `AluResults.Compares` | tools/PPC.csv:46-49 | cmp and cmpl write one CR field, by the signed and by the unsigned order |
| `AluResults.Adds` | inst_utility.h:37-105 | every addition: the sum, CA, OV and SO, whatever is added to RA or its complement |
| `AluResults.SubtractsFrom` | tools/PPC.csv:181-187 | every subtraction: the difference, CA as no borrow, OV |
| `AluResults.AddsImmediate` | tools/PPC.csv:6 | addi, with zero for register 0 |
| `AluResults.Multiplies` | tools/PPC.csv:144 | mullw: the low word, and OV exactly if the product does not fit |
| `AluResults.Divides` | PPCInterpreter_Arithmetic.cc:28-62 | divw: the truncated quotient, or the result and OV of the divisions that have none |
| `AluResults.RotatesAndMasks` | PPCInterpreter_Logical.cc:58-78 | rlwinm, bit by bit |
| `AluResults.RotatesAndInserts` | PPCInterpreter_Logical.cc:80-100 | rlwimi, bit by bit |
| `AluResults.Shifts` | PPCInterpreter_Logical.cc:126-179 | sraw and srawi divide by a power of two and round down; CA exactly if the number was negative and there was a remainder |
| `CarryChain.AddChain` | inst_utility.h:88-105 | addc and then adde over n words give the n-word sum, with the carry in CA |
| `CarryChain.SubChain` | tools/PPC.csv:181-183 | subfc and then subfe give the n-word difference, with CA set exactly when there is no borrow |
| `CarryChain.ChainOverflow` | inst_utility.h:37-99 | OV of the last instruction is signed overflow of the n-word result, and sets SO |
| `Rotates.MaskIsRun` | PPCInterpreter_Logical.cc:51-56 | mkmask sets exactly the bits of the run MB to ME, which may wrap |
| `Rotates.RotLBit` | inst_utility.h:140 | a left rotate moves every bit, by any amount from 0 to 31 |
| `Rotates.RlwimiThenRlwinm` | PPCInterpreter_Logical.cc:58-100 | the inverse rlwinm returns the field that rlwimi inserted, and the other bits are untouched |
| `Rotates.SrawThenAddze` | PPCInterpreter_Logical.cc:126-155 | sraw then addze divides by a power of two and truncates toward zero, for every amount from 0 to 63 |
| `Rotates.SrawiThenAddze` | PPCInterpreter_Logical.cc:157-179 | the same for srawi |
| `Rotates.QuotientIsUnique` | PPCInterpreter_Arithmetic.cc:40-48 | truncated quotients are unique, so this is the division of C |
| `MulDiv.OverflowIffTooWide` | tools/PPC.csv:144 | the OV formula of mullw holds exactly when the signed product does not fit 32 bits |
| `MulDiv.Halves` | tools/PPC.csv:141-144 | mulhw and mullw are the halves of the signed product, mulhwu and mullw those of the unsigned one |
| `MulDiv.DivisionTruncates` | PPCInterpreter_Arithmetic.cc:40-48 | the quotient of divw truncates toward zero |
| `MulDiv.Remainder` | PPCInterpreter_Arithmetic.cc:28-62 | divw, mullw and subf give the truncated remainder whenever divw does not flag overflow |
| `Interp.TakeException` | PPCCPUState.cc:124-144 | SRR0 is the aligned PC, SRR1 as given, the PC the vector with the prefix that MSR.IP selects, MSR only IP, translation off; nothing else changes |
| `SystemRegs.SprsAre` | PPCInterpreter_Special.cc:233-531 | mtspr writes the registers that branches, rfi, the clock and exceptions use |
| `SystemRegs.SprMoves` | PPCInterpreter_Special.cc:57-531 | mfspr after mtspr: the value for that register, the old one for every other |
| `SystemRegs.MsrRead` | tools/PPC.csv:93 | mfmsr; barriers and TLB invalidations change nothing but the PC |
| `SystemRegs.MmuMoves` | PPCInterpreter_Special.cc:264-430 | writing both registers of a BAT from general registers programs that BAT |
| `SystemRegs.TableMoves` | PPCInterpreter_Special.cc:472-627 | the same for SDR1 and a segment register |
| `CpuRuns.RunsOn` | tools/PPC.csv:17-44 | an instruction that need not end a block moves the PC on by one word and keeps MSR and modes, or raises an exception |
| `CpuRuns.EndersAre` | tools/PPC.csv:17-211 | which instructions must end a block, and that traps, loads, stores and special register moves need not |
| `CpuRuns.ExecKeeps` | PPCInterpreter_Branch.cc:30-186 | every instruction keeps the PC aligned, and each of the MMU's enables equal to its bit of MSR |
| `CpuRuns.DeliverKeeps` | main.cc:134-139 | an interrupt or decrementer exception is taken exactly when pending, which needs EE, and clears EE |
| `CpuRuns.PlayKeeps` | main.cc:129-152 | alignment and the mode agreement hold over every run of turns and interrupt-line changes; the agreement for instructions does so even where that for data does not |
| `CpuRuns.RfiAfterDeliver` | PPCInterpreter_Special.cc:533-551 | rfi restores the PC, MSR and modes that an asynchronous exception interrupted |
| `CpuRuns.RfiAfterSc` | PPCInterpreter_Trap.cc:29-44 | rfi after sc returns to the next instruction with the old MSR and modes |
| `CpuRuns.ConservedIff` | PPCCPUState.h:127-133 | exactly when a tick of t instructions conserves TB plus DEC modulo 2^32 |
| `CpuRuns.TickOfEightDrifts` | PPCCPUState.h:127-133 | from TB zero, a tick by eight adds one to the sum |
| `CpuRuns.SingleTicksConserve` | PPCCPUState.h:127-133 | single ticks always do |
| `Exceptions.TurnDelivers` | main.cc:134-139 | after its instruction a turn of the main loop counts TB, and DEC at every fourth, and then takes an interrupt, or else a negative decrementer, if EE is set: vector 0x500 or 0x900, SRR0, SRR1 and MSR in numbers |
| `Exceptions.TicksCount` | PPCCPUState.h:127-133 | n single ticks add n to TB and take from DEC one for every multiple of four that TB reaches |
| `Exceptions.DataFaultReports` | PPCCPUState.cc:146-229 | a load, store, lwarx or stwcx. that faults: which fault, vector 0x300 or 0x600, DAR, DSISR by cause and direction or from the fields of the instruction, SRR0, SRR1, MSR, and nothing else |
| `Exceptions.MultipleFaultReports` | PPCCPUState.cc:146-229 | the same for lmw and stmw, at one of their words |
| `Exceptions.FetchFaultReports` | PPCCPUState.cc:146-207 | a fetch that faults: vector 0x400, SRR1 by cause, DAR and DSISR left alone, and the first instruction of the handler |
| `Exceptions.FaultKinds` | PPCMMU.cc:463-621 | data accesses fault for want of a page or of permission only, fetches also by no-execute |
| `Exceptions.SystemCallReports` | PPCInterpreter_Trap.cc:29-44 | sc: vector 0xc00, and SRR0 is the next instruction |
| `Exceptions.TrapReports` | PPCInterpreter_Trap.cc:46-76 | which comparisons tw traps on, signed and unsigned, and the program exception that it raises |
| `Exceptions.IllegalReports` | PPCCPUState.cc:250-256 | an undecoded instruction, or a bcctr that would count, is a program exception |
| `Exceptions.ReturnRestores` | PPCInterpreter_Special.cc:533-551 | rfi: PC, the whole MSR, and the two modes from its bits |
| `Exceptions.MsrWritten` | tools/PPC.csv:119 | mtmsr: MSR and the two modes from its bits |
| `Exceptions.PrivilegeOf` | PPCCPUState.h:123 | accesses are privileged exactly when bit 0x4000 of MSR is clear |
| `CpuRuns.ResetConsistent` | PPCCPUState.cc:30-51 | the state after construction has an aligned PC and agreeing modes |
| `CpuRuns.StartConsistentIff` | main.cc:50-53 | at the configured PC and MSR the invariant holds exactly when the PC is aligned and MSR asks for no translation, and its part about instructions exactly when MSR asks for no instruction translation |
| `CpuRuns.MappedStartDisagrees` | main.cc:50-53 | a start MSR of 0x30 asks for translation that the MMU does not have on |
| `Branches.CallThenReturn` | PPCInterpreter_Branch.cc:30-148 | bl and the blr that ends the callee come back to the instruction after the call |
| `Branches.BdnzStep` | PPCInterpreter_Branch.cc:58-107 | bdnz decrements CTR on 32 bits and branches unless it reaches zero |
| `Branches.LoopRounds` | PPCInterpreter_Branch.cc:58-107 | in any run of instructions of which one bdnz alone writes CTR, that bdnz branches back until it has been reached as often as CTR said, 2^32 times for zero, and then falls through |
| `Branches.CtrKept` | PPCInterpreter_Branch.cc:30-186 | only bc and bclr that count, and mtctr, write CTR, exceptions included |
| `Branches.CompareThenBranch` | inst_utility.h:113-131 | cmp and then bc branches exactly when the signed comparison comes out as asked, for every CR field |
| `Branches.BranchDoes` | PPCInterpreter_Branch.cc:30-186 | b, bc, bclr and bcctr in full, for every BO, BI, displacement, AA and LK: PC, LR, CTR and the break |
| `Multiples.LmwRestarts` | PPCInterpreter_Memory.cc:30-48 | an lmw that faulted and is executed again with the registers the fault left, on any memory map and with any special registers, ends as one with the registers from before the fault, when its base register was not overwritten |
| `Multiples.LmwResumes` | PPCInterpreter_Memory.cc:30-48 | fault, any handler that keeps SRR0, SRR1 and the general registers, rfi, and the lmw again: back in the interrupted context, with the outcome of an lmw that never faulted |
| `Multiples.BaseIsKept` | PPCInterpreter_Memory.cc:30-48 | it was not, when RA is 0 or below RT |
| `Multiples.StmwRestarts` | PPCInterpreter_Memory.cc:74-91 | an stmw that faulted and is executed again leaves what one that never faulted would, when its first stores went to memory and translate as they did |
| `Multiples.StmwResumes` | PPCInterpreter_Memory.cc:74-91 | the same through fault, handler and rfi |
| `Multiples.ReturnsToFault` | PPCInterpreter_Special.cc:533-551 | rfi after such a fault restores PC, MSR and modes, and takes over the handler's registers, map and data |
| `Multiples.StmwThenLmw` | PPCInterpreter_Memory.cc:30-91 | stmw then lmw at the same base restores the registers on a non-aliasing map, address wrap-around included |
| `Multiples.ReadAfterWrite` | PPCMMU.h:265-284 | once a store to an address is translated, a load from it is translated to the same place |
| `Multiples.StoreThenLoad` | PPCMMU.cc:76-249 | a load after a store of the same size at the same address yields the stored part of the register |
| `DataAccess.LoadDoes` | tools/PPC.csv:86-89 | a load completes exactly if RA or zero plus D or RB, on 32 bits, translates and the bytes stay in eight; it leaves the bytes at that place in the register, zero-extended, and the address in RA for an update form |
| `DataAccess.StoreDoes` | tools/PPC.csv:175-180 | a store leaves the low bytes of the register there, and every other byte alone |
| `DataAccess.LmwDoes` | PPCInterpreter_Memory.cc:30-48 | word k of an lmw that completes is from base plus D plus 4k |
| `DataAccess.StmwDoes` | PPCInterpreter_Memory.cc:74-91 | word k of an stmw that completes is at base plus D plus 4k, when those are different places in memory |
| `Atomics.ReservationStep` | PPCInterpreter_Memory.cc:50-138 | only lwarx makes a reservation; rfi and completed stwcx. move the generation on, exceptions do not |
| `Atomics.LwarxReserves` | PPCInterpreter_Memory.cc:50-72 | lwarx reserves RA or zero plus RB, and loads from there |
| `Atomics.StwcxAnswers` | PPCInterpreter_Memory.cc:93-138 | a stwcx. that completes sets EQ exactly if its address is that of the reservation and the generation is still its own, which is exactly if it stores; LT and GT are clear and SO is copied |
| `Atomics.Atomic` | PPCInterpreter_Memory.cc:93-138 | since the lwarx of a successful stwcx. there has been no exception, rfi, other lwarx or completed stwcx. |
| `Atomics.NoLostUpdate` | PPCInterpreter_Memory.cc:93-138 | a word updated only by lwarx/stwcx. loops is the update applied as often as a stwcx. stored it |
| `Atomics.IncrementCodeComputes` | PPCInterpreter_Memory.cc:50-138 | code in which lwarx, addi of 1 and stwcx. follow on one another stores the successor of what its lwarx found, fetches and ticks in between notwithstanding |
| `Atomics.CounterCounts` | PPCInterpreter_Memory.cc:50-138 | a shared counter updated by such code ends at its start plus the number of successful stwcx. |
| `Atomics.ReportedIsStores` | PPCInterpreter_Memory.cc:93-138 | as many stwcx. have stored at a place as have told the guest so in EQ |
| `Atomics.CounterReported` | PPCInterpreter_Memory.cc:93-138 | a shared counter ends at its start plus the number of times that a guest saw EQ set |
| `Atomics.TurnIsRun` | main.cc:129-139 | a turn of the main loop is a run of this kind: a fetch, after a trap if it faulted, the instruction fetched, a tick, and a trap exactly if something is delivered |
| `Atomics.PlayIsRun` | main.cc:129-139 | so is every sequence of turns and interrupt-line changes, with the events of its turns in order |
| `Atomics.CounterInPlay` | PPCInterpreter_Memory.cc:50-138 | that for every sequence of turns and interrupt-line changes, from any machine whose reservation is not from the future |
| `JitBlock.FetchesNext` | blockgen.cc:483-497 | the next word of a page is fetched from the next word of its frame, also after other accesses have set R and C bits |
| `JitBlock.NonEndingGrows` | PPCMMU.cc:553-610 | an instruction that does not end a block changes the page table in R and C bits only |
| `JitBlock.FieldOnlyInDsisr` | PPCCPUState.cc:208-222 | execution depends on the instruction field in nothing but the DSISR of an alignment fault |
| `JitBlock.BlockIsSteps` | runloop.cc:78-92 | running a block is as many interpreter steps as calls are made; after an alignment fault the two DSISRs are those of the stale word and of the word of the faulting instruction |
| `JitBlock.GeneratedCalls` | blockgen.cc:327-338 | a generated block holds the calls of the instructions in memory, inside one page, with block enders only at its end, and stops only at an ender, the page end or the limit |
| `JitBlock.BlockIsUnique` | blockgen.cc:466-499 | that determines the block: from one state and address there is only one |
| `JitBlock.UntouchedStands` | blockgen.cc:466-499 | if the words of a block, as they are reached, are what they were when it was made, what the generator decoded then is what the interpreter decodes now |
| `JitBlock.GeneratedBlockRuns` | blockgen.cc:424-535 | a generated block is the block of the words in memory; run at any address that maps to the same place while those words are what they were, it does what the interpreter does, up to the first exception |
| `JitBlock.SameMachineIff` | PPCInterpreter.h:37-44 | a block leaves exactly the interpreter's machine if and only if no alignment fault ends it or those two words give the same DSISR |
| `JitBlock.MisalignedLoadDiffers` | PPCInterpreter.h:37-44 | a word load across an 8-byte boundary in real mode, met with a zero instruction field, is a block that differs |
| `ClockFree.ClockIgnored` | PPCCPUState.h:127-133 | every instruction but a read of DEC does the same whatever TB and DEC are |
| `JitRuns.ExecGrows` | PPCMMU.cc:253-403 | only writes to MMU registers change the configuration, and no instruction changes the page table but for R and C bits |
| `JitRuns.StepAfterFetch` | PPCInterpreter.h:54-67 | an interpreter step from a faulting fetch is the step from the entry of the exception it raises |
| `JitRuns.RoundIsSteps` | runloop.cc:56-105 | a round of the JIT's loop whose block was made from memory and left alone since is an exception entry, or as many interpreter steps as calls were made, then a tick by their number and a delivery unless an exception jumped out |
| `JitRuns.RunIsSteps` | runloop.cc:56-105 | so is any number of rounds, one after the other |
| `JitRuns.RunUpToClock` | runloop.cc:56-105 | with nothing asynchronous delivered, no read of DEC, and alignment faults that leave the same DSISR, the JIT's machine after any number of rounds is the interpreter's after as many steps as calls, but for TB and DEC |
| `TimeBase.TbKept` | PPCCPUState.h:127-133 | no instruction changes TB |
| `TimeBase.TurnsCount` | main.cc:126-139 | the interpreter's TB counts its turns |
| `TimeBase.RoundsCount` | runloop.cc:78-92 | the JIT's TB counts the instructions of the blocks that finish, and none of those of a block that an exception leaves |
| `RunLoop.EmissionAt` | blockgen.cc:44-50 | every emission of a block begins where the one before it ends |
| `RunLoop.NewBlockGood` | blockgen.cc:424-535 | a new block is calls between prologue and epilogue, and they are those of the block that the words in memory make up in the state it is made in, whose key it has |
| `RunLoop.PpcJit.CallBlock` | runloop.cc:78-86 | running a block's code from the arena makes its calls in order until one raises, and otherwise returns their number; the generation count tells whether the memory map changed |
| `RunLoop.PpcJit.MakeBlock` | runloop.cc:64-76 | for a PC that has been translated, createBlock always makes the block, from the words in memory at that moment, and every other block still comes from where it came from |
| `RunLoop.PpcJit.FindOrMake` | runloop.cc:63-77 | a block that is the one memory held where it was made, that has the key of the PC and fits it, or the fault of its fetch, with the page table as the interpreter's fetch leaves it; a new block is made from memory as it is now |
| `RunLoop.PpcJit.AfterBlock` | runloop.cc:85-98 | tick, interrupt before decrementer, and the instruction limit, which a delivered exception jumps over |
| `RunLoop.PpcJit.OneRound` | runloop.cc:56-105 | from every sound state, a round keeps the whole state sound and is a round in the sense above, of a block that was made from memory under the key of the PC |
| `RunLoop.PpcJit.Loop` | runloop.cc:39-106 | from every sound state, every block that runs is the one that memory held at the PC of the round that made it, and has the key of the PC; after any number of rounds the machine is what they are in interpreter steps, as long as the guest left the words of each block alone since; the loop stops only at a break, which is the guest's or the limit's |
| `RunLoop.Boot` | main.cc:99-155 | the same from the start, MMU, CPU, interpreter and block store as they are constructed, at the configured PC and MSR: every block that runs was made in this run, in the same round or an earlier one |
| `RunLoop.MappedStartMisleads` | main.cc:50-53 | a start MSR that asks for instruction translation, over an empty page table: rfi leads back to the same PC and MSR with the generation count unmoved, where the first fetch went through and this one faults |
| `CpuState.PpcCpuState.CpuTick` | PPCCPUState.h:127-133 | the time base counts instructions, and landing on a multiple of four decrements DEC |
| `CpuState.PpcCpuState.constructor` | PPCCPUState.cc:30-51 | the registers start at zero, DEC at all ones, and no interrupt is pending |
| `CpuState.PpcCpuState.TakeException` | PPCCPUState.cc:124-144 | exception entry on registers and MMU modes, with the uTLBs still coherent |
| `CpuState.PpcCpuState.RaiseMemException` | PPCCPUState.cc:146-229 | vector, SRR1, DAR and DSISR by kind of fault |
| `CpuState.PpcCpuState.RaiseProgException` | PPCCPUState.cc:250-256 | a program exception with its reason in SRR1 |
| `Interpreter.PpcInterpreter.LoadMem` | PPCInterpreter.h:137-162 | a load through the uTLBs is the load that walks from scratch |
| `Interpreter.PpcInterpreter.StoreMem` | PPCInterpreter.h:164-186 | a store through the uTLBs is the store that walks from scratch |
| `Interpreter.PpcInterpreter.OpLoad` | tools/PPC.csv:86-89 | the target register is written only if there is no fault, and the updated base last |
| `Interpreter.PpcInterpreter.OpStore` | tools/PPC.csv:175-180 | the base register is updated only if there is no fault |
| `Interpreter.PpcInterpreter.OpLmw` | PPCInterpreter_Memory.cc:30-48 | the loop over registers does what the specified lmw does, faults included |
| `Interpreter.PpcInterpreter.OpStmw` | PPCInterpreter_Memory.cc:74-91 | the same for stmw |
| `Interpreter.PpcInterpreter.OpLwarx` | PPCInterpreter_Memory.cc:50-72 | the reservation is taken even when the load faults |
| `Interpreter.PpcInterpreter.OpStwcx` | PPCInterpreter_Memory.cc:93-138 | stores only under a live reservation to the same address, and blows it unless the store faults |
| `Interpreter.PpcInterpreter.OpB` | PPCInterpreter_Branch.cc:30-56 | an unconditional branch, its link, and the break asked for by a branch to itself |
| `Interpreter.PpcInterpreter.OpBc` | PPCInterpreter_Branch.cc:58-107 | CTR, LR and PC after a conditional branch, LR written even when it is not taken |
| `Interpreter.PpcInterpreter.OpBclr` | PPCInterpreter_Branch.cc:109-148 | the same for a branch to LR, which is read before it is written |
| `Interpreter.PpcInterpreter.OpBcctr` | PPCInterpreter_Branch.cc:150-186 | a branch to CTR; the form that would decrement CTR is a program exception |
| `Interpreter.PpcInterpreter.OpTrap` | PPCInterpreter_Trap.cc:29-76 | sc returns past itself, a trap taken returns to itself |
| `Interpreter.PpcInterpreter.WriteMsr` | PPCInterpreter.cc:39-43 | the MMU's modes follow MSR |
| `Interpreter.PpcInterpreter.OpRfi` | PPCInterpreter_Special.cc:533-551 | PC and MSR come from SRR0 and SRR1, the MMU follows, and the reservation is blown |
| `Interpreter.PpcInterpreter.OpMtMmu` | PPCInterpreter_Special.cc:233-531 | writes of BATs, segment registers and SDR1 reach the MMU and flush what they must |
| `Interpreter.PpcInterpreter.Dispatch` | PPCInterpreter.h:54-67 | every instruction function does what the machine that walks from scratch does, and says whether it raised |
| `Interpreter.PpcInterpreter.FetchOnce` | PPCMMU.cc:55-74 | an instruction fetch through the uTLBs is the fetch that walks from scratch |
| `Interpreter.PpcInterpreter.Execute` | PPCInterpreter.h:54-67 | one call is one step of that machine, with at most two fetches |
| `Interpreter.PpcInterpreter.DeliverPending` | main.cc:134-139 | a pending interrupt is delivered before a pending decrementer |
| `Interpreter.PpcInterpreter.MainLoop` | main.cc:126-152 | turns of that machine up to the first that asks for a break or takes the instruction count past the limit, zero being no limit, and no more; then the break is set |
| `Uart.NoLostNotification` | SerialPTY.cc:93-165 | in every interleaving, when reportRX is false and no callback is on its way, RXNE is set; from when the callback has set it, the RX bit of the interrupt status is set until the mutex is released, and the line is then active if RX is enabled; nothing is announced before a callback is registered; bytes are taken in order |
| `Uart.InputIsAnnounced` | SerialPTY.cc:93-127 | with input waiting, RXNE clear and the CPU outside the UART, the listener alone sets RXNE within six steps, and within eight has set the interrupt status and, if RX is enabled, raised the interrupt unless it was active |
| `Uart.OncePerByte` | DevSimpleUart.cc:69-77 | in every interleaving the callback is made once at first, and then not again until another byte has been taken |
| `Uart.AccessDoes` | DevSimpleUart.cc:121-191 | what each access that is not disturbed does to queue, RXNE, interrupt status bit by bit, enables and the interrupt line |
| `Uart.RxneHonest` | SerialPTY.cc:108-165 | in every interleaving in which the last byte is never taken between poll and callback, RXNE means that a byte is waiting |
| `Uart.LateTakeMisleads` | SerialPTY.cc:108-165 | every such take, from any state of the invariant, can be completed to RXNE with nothing waiting, a callback being registered first if there is none |
| `Uart.RxneWithoutByte` | SerialPTY.cc:108-122 | a schedule in which RXNE is set and no byte is waiting |
| `Uart.PlayKeeps` | DevSimpleUart.cc:69-150 | mutual exclusion, the notification and status invariants and the interrupt line, kept by every step of both threads |
| `SdCard.DevSdCard.Command` | DevSDCard.cc:237-424 | the card's state after every command, whether it is answered, and the words of the answer |
| `SdCard.CommandTable` | DevSDCard.cc:237-380 | which commands are answered, outside APP_CMD mode and in it, and the state, offset, width and block count after each |
| `SdCard.Identification` | DevSDCard.cc:237-424 | CMD0, CMD8, ACMD41, CMD2, CMD3, CMD7 take a card from any state to ready for transfers, with the answers that a driver wants |
| `SdCard.RegistersRead` | DevSDCard.cc:426-480 | what is read after ACMD51, ACMD13 and CMD6 |
| `SdReply.ShortDecodes` | DevSDCard.cc:207-218 | a 48-bit response can be taken apart as a command is, into index and payload, and its last byte is the CRC7 of the others, divided bit by bit, with the end bit |
| `SdReply.TableIsSerial` | DevSDCard.cc:46-100 | the CRC by table, byte by byte, is the remainder by x^7 + x^3 + 1 that a shift register computes bit by bit |
| `SdReply.LongDecodes` | DevSDCard.cc:147-204 | a 136-bit response is its register, and at the end the CRC over all of it |
| `SdReply.CidSays` | DevSDCard.cc:147-175 | name and number in the CID |
| `SdReply.CsdSays` | DevSDCard.cc:177-204 | the size field of a CSD response is the number of 512 KiB units less one, modulo 2^24, which is right exactly if there is such a unit |
| `SdCard.StatusTells` | DevSDCard.cc:132-145 | a status response names its command and tells the state and APP_CMD bit that the command left |
| `SdCard.DevSdCard.Read` | DevSDCard.cc:483-574 | what a transfer out yields in each state, and when it fails |
| `SdCard.DevSdCard.Write` | DevSDCard.cc:579-643 | what a transfer in does to the image, in part if the file takes only part, and when it fails |
| `SdCard.PartialWrite` | DevSDCard.cc:579-643 | a write that the file takes only part of is an error, and leaves exactly that part written |
| `SdCard.CommandArms` | DevSDCard.cc:255-380 | only data commands make the card ready for a transfer |
| `SdCard.TransferDisarms` | DevSDCard.cc:483-643 | a transfer happens exactly when the card is ready, and makes it unready |
| `SdCard.SameOffsetIff` | DevSDCard.cc:305-335 | two block numbers name the same bytes exactly when they differ by a multiple of 2^23 |
| `SdCard.BlockAfterWrite` | DevSDCard.cc:528-612 | what CMD17 yields at any block number after a write of any number of blocks at any other |
| `SdCard.LeftAloneIff` | DevSDCard.cc:528-612 | a block is left alone exactly when it is none of those written modulo 2^23, or is written with what it held |
| `SdCard.BlocksReadBack` | DevSDCard.cc:528-612 | written blocks always come back by CMD18; one by one by CMD17 exactly those below block 2^23, or whose wrapped block holds the same |
| `SdCard.AllReadBack` | DevSDCard.cc:528-612 | so all of them come back one by one as long as the write stays below block 2^23 |
| `SdCard.HighBlockHitsLow` | DevSDCard.cc:305-335 | CMD24 at block 2^23 replaces what CMD17 reads at block 0 |
| `SdHost.DevSd.CheckForWork` | DevSD.cc:261-334 | serves a pending command and its read, then a pending write, then the interrupt, and says whether that was raised |
| `SdHost.DevSd.CardWork` | DevSD.cc:263-281 | the command in the registers runs once, its answer goes to the response registers, and it is acknowledged |
| `SdHost.DevSd.CommandWork` | DevSD.cc:263-306 | a pending command runs, and then a pending read is tried |
| `SdHost.DevSd.ReceiveWork` | DevSD.cc:286-305 | a read that the card does not expect stays pending |
| `SdHost.DevSd.WriteWork` | DevSD.cc:308-321 | a pending write is tried once and acknowledged either way |
| `SdHost.DevSd.Write32` | DevSD.cc:179-209 | a register write followed by the work it makes pending, and whether the interrupt was raised |
| `SdHost.InterruptsCount` | DevSD.cc:323-331 | a register write raises the interrupt exactly if a completed transfer's is enabled by then |
| `SdHost.InterruptRegister` | DevSD.cc:191-199 | the enables and write-one-to-clear bits of the interrupt register |
| `SdHost.OneWrite` | DevSD.cc:102-115 | after every register write both acknowledgements match; a toggle of CMDREQ runs one command, of TXREQ one write attempt |
| `SdHost.IssueCommand` | DevSD.cc:263-281 | turning the command request over runs the command in the registers: the card, the response registers, and command status 0 exactly if it was answered |
| `SdHost.IssueWrite` | DevSD.cc:308-321 | turning the transmit request over writes the buffer to the card: transmit status 0 exactly if that succeeded, and completion |
| `SdHost.IssueRead` | DevSD.cc:283-306 | turning over the command and receive requests runs the command and receives its data: receive status and completion, or the read stays pending if the card has nothing to send |
| `SdHost.OnePerToggle` | DevSD.cc:179-321 | over any sequence of register writes, as many commands and write attempts as toggles |
| `SdHost.TransfersCovered` | DevSD.cc:261-321 | over any sequence of register writes, each data command permits at most one transfer |
| `SdHost.BlockRoundTrip` | DevSD.cc:261-321 | a block sent with CMD24 through the registers and DMA comes back with CMD17 |
| `SdHost.BlocksThroughRegisters` | DevSD.cc:261-321 | any number of blocks written with CMD25 and read with CMD18, with every register value given in numbers: the read buffer ends up as the write buffer was |
| `SdHost.StatusRead` | DevSD.cc:263-281 | after a command, the response registers read as a command do and tell the state the card is in |

## Left out

- Words are natural numbers below 2^32, and C's `&`, `|`, `^` are recursive functions on them, rather than bit-vectors.
- The page table is a memory of words separate from data memory: a guest edit of a PTE is one operation, edit then tlbie, and ordinary stores do not reach PTEs. An edit without tlbie is not covered.
- `Mmu.PpcMmu.constructor`: fields that the source leaves uninitialised (SDR1, segments, parts of BATs) start as zero.
- A uTLB entry keeps its frame and its permissions side by side; the source packs them into one word.
- `Mmu.PpcMmu.UtlbInsert`: a physical address that no device claims gets the I/O tag; the simulator exits there at once.
- Generation counters and the count of instructions are unbounded, and an instruction-side access is always a read, as at every call site.
- BATs 4 to 7, little-endian mode, `FLAT_MEM`, and the build without R/C updates.
- Device reads answer from the device writes so far; a read has no side effect on a device.
- `Interp`: icbi and tlbsync, which also end blocks, have no constructor of their own; string loads and stores, floating point, CR logic, plain logical instructions, cache instructions, mcrxr, mftb, the SPRG and HID registers, the hosted syscall build and privilege checks are not modelled, and decoding is any function from words to the modelled instructions. CR is kept as its eight fields and XER without its string count.
- `CpuState.PpcCpuState.RaiseMemException`: the two fault kinds the source treats as fatal (no segment, no-execute on data) are given a vector; the walk never produces them.
- `Interpreter.PpcInterpreter.MainLoop`: the loop need not end, so the number of turns is bounded by a parameter; state dumps and device polling between turns are not modelled.
- `Interpreter.PpcInterpreter.Execute`: the CPU's registers are one record field rather than one field each.
- `Atomics.Atomic`: the reservation fields that the source leaves uninitialised start as zero; and a reservation is on the effective address, as in the code.
- `Multiples.StmwRestarts`: words that had been stored before the fault must have gone to memory, not devices, and still translate as they did; another write to a device would be seen.
- `JitBlock.GeneratedBlockRuns`: assumes that the words of the block are what they were when they are reached, and that the block does not write MMU registers before its end; icbi does not invalidate blocks in the source, so code that modifies itself is run as it was. Asynchronous exceptions, TB and DEC are outside the comparison.
- Emissions are an operation, its arguments and a length; x86 encodings are not modelled. Block keys are (32-bit address, MSR), so the host addresses of code that runs must not collide modulo 2^32 (`JitRuns.LeftAlone`).
- `BlockStore.Store.FindBlock`: the PC is word aligned, as it is in every reachable state (`CpuRuns.PlayKeeps`); the shortcut is taken only while the MMU configuration has never changed, as in the code, which never updates its saved count.
- `BlockStore.Store.CreateBlock`: the PC is word aligned, for the same reason.
- `RunLoop.PpcJit.CallBlock`: that calling what is planted for an instruction runs the instruction is a property of two function parameters, as encodings are not modelled; longjmp is a return from the block.
- `RunLoop.Boot`: the configured MSR does not ask for instruction translation, where the block found need not be the one for the PC (`RunLoop.MappedStartMisleads`).
- `RunLoop.PpcJit.Loop`: the number of rounds is bounded by a parameter, since the loop need not end; state dumps are left out.
- `Uart.NoLostNotification`: POLLERR and POLLHUP rounds change nothing and are not steps. The UART is a step machine rather than a class, because the interleaving of steps is the point.
- `SdReply.CsdSays`: the CRC table is modelled as the polynomial division that it tabulates.
- `SdCard.DevSdCard.Write`: how much of a write the image file takes is a parameter, a function of offset and size; the file grows when written past its end.
- `SdHost.DevSd.CheckForWork`: DMA goes through a total direct map; the simulator exits for addresses without one.
- SDL display, management socket, TCP serial, GPIO, SPI, LCD controller, the 16550 UART, interrupt controller, tracing, statistics, configuration and state saving.
