# A verified model of the compiler's allocators, peephole tool, indexes and codecs

The project models the parts of the SCRIP compiler and its tools whose correctness rests on an invariant rather
than on a single body, and proves those invariants over every input, every run or every interleaving. It is
written in Dafny 4.11; `dafny verify dfyconfig.toml` checks all of it.

| files | what they model |
|---|---|
| `Peep*.dfy`, `Stutter.dfy` | the assembly peephole tool: its rules as functions of a line table, a small-step machine for line programs, simulation up to stuttering, the tool's own loops over arrays (`PeepPass`) |
| `Arena*.dfy`, `CtArena.dfy` | the segregated-fit arena: the arena as a value, runs with marks and releases, the linked headers in memory, the allocator itself |
| `Pool*.dfy`, `BbPool.dfy` | the pool of emitted code with its sorted hole table |
| `ProfileTable.dfy`, `ProfileLoss.dfy` | the lock-free counter table of the profiler, as interleaved atomic steps, and when it loses calls |
| `C3Model.dfy`, `C3Merge.dfy` | C3 class linearization, and the merge compacting its lists in place |
| `Fh*.dfy` | file handles: transcoding both ways, positions counted fast and cached |
| `Emit*.dfy` | the order boxes are emitted in and the line numbers made from it |
| `Sha*.dfy` | streaming SHA-256 padding and HMAC over parts |
| `Json*.dfy` | the string writer and reader of the kernel's messages |
| `Probing.dfy`, `TypeIndex.dfy`, `NodeIds.dfy`, `NodeIndex.dfy`, `ProcIndex.dfy`, `FirstPlaces.dfy` | linear probing, and the four indexes built on it; `FirstPlaces` is what two of them share |
| `Arith.dfy`, `Common.dfy` | powers of two, division and pages; options, bytes and what else several models share |

Where the source changes state in place, the model has a class or a method over arrays whose contract ties the new
state to a specification function; the properties are then lemmas about that function and about runs of it.

## Assumptions

- Peephole: registers are full width; no instruction that `writes_reg` reports not to write a register takes a value
  out of it that the program loads there from the global offset table (`Honest`; see the second finding); the global
  offset table is constant and its slots are loaded into registers only (`Encodable`); no label is defined twice
  (`LabelsOnce`); control comes back only behind calls; an indirect transfer reaches only labels whose address is
  held, and such a label is named on some line that is more than a lone jump (`Exposed`). Flags, stack and outside
  world are one abstract component of the state. The operand `Mem` stands only for operands whose text begins with
  `[`, as line 78 asks; a `mov` with a memory operand written otherwise is outside the model.
- Arena and pool: memory the system maps is apart from all that is mapped; callers pass payloads the arena handed
  out, and marks and reclaimed ranges that are page-aligned and live. The payload bytes and the headers are kept in
  separate maps; the layout invariant says why they never meet.
- Profiler table: each load, swap and add is one atomic step of one interleaving. The source asks for relaxed
  ordering; per slot that is the same, since every step touches a single location and slots are set once.
- File handles: words are naturals, a shift is a power of two, a mask a remainder, and the bitwise or is written out
  (`FhCodec.Or`), so that adding disjoint fields is proved and not assumed. A 64-bit word is its eight bytes.
- Hashing: the compression of one block is a parameter, as are the hash functions of the indexes. A table size is
  a number; the source's power-of-two mask is a remainder.

## Findings

- Chained splices lose code. When a block that is moved ends in a jump that was itself replaced earlier, line 145
  of `tools/scrip_peep.c` copies the blanked raw line and not the splice. `PeepWitness.ChainMisbehaves` gives an
  eight-line program that the default rules change. Besides the chain there are two more ways to lose text: a
  deleted line in the block that still carries a label (126 skips it before 127 looks), and a label on the jump's own
  line, which is replaced together with the line (150-151, 157). And a block can be moved away from below a
  label-only line, which 118 skips, so that the label leads elsewhere; `PeepWitness.AboveMisbehaves` is a seven-line
  program. `PeepTool.StepConservesExactly` says exactly when a step loses no text, `PeepLeads.StepLeadsExactly`
  exactly when labels lead where they led, and `PeepTool.StepKeepsExactly` puts the two together. The comments of
  the tool mention none of the four ways. A jump that closes the very block it names is replaced by nothing: block and
  jump go, which no execution notices (`PeepInline.DropLoop`), but the text before the jump is lost; the exact
  conditions count that too (`PeepTool.LoopIdle`).
- `writes_reg` (line 43) can report that an instruction leaves a register alone when it does not: `cqo` is reported to
  write nothing, a two-operand instruction only its first operand (`xchg`), and a one-operand instruction nothing when
  its comment has a comma, since the comment is not stripped there (`PeepReports.WrongReports`). got-cse then deletes a
  load that is needed. For every instruction between two loads of one register from one slot,
  `PeepReports.GotCseExact` says exactly when the deletion is harmless.
- Of two jumps over nothing in a row only the second is deleted, although the dead-jmp rule is run last so that jumps
  exposed by a deletion are caught (95): it does not see what it deletes itself (`PeepRules.FirstJumpStays`).
- A C3 merge that gets stuck returns what it emitted so far, without an error: two parents that order A and B
  oppositely give an order with neither (`C3Model.OpposedParentsStick`); `C3Model.MergeCompletes` says exactly when
  that happens, and `C3Model.EmitsExactly` exactly which names are emitted all the same. Two classes that name each
  other as parents give an order with a repeated name (`C3Model.CycleRepeats`); `C3Model.MroExtendsParents` says
  exactly when a name is repeated, whether the merge gets stuck or not.
- Whatever its hash, the profiler is sure to drop no call exactly when at most half as many functions occur as there
  are slots (`ProfileLoss.DropExact`). With one function more, all sharing a home slot, two threads can make it drop a
  call while slots are free, in every table of two slots or more (`ProfileLoss.DropWithRoom`): each race that a call
  loses costs it two of its turns and only one slot. Every hash has such functions (`ProfileLoss.RivalsExist`); for
  the 2^17 slots of the source the first 2^33 + 1 addresses hold them.
- Reading UTF-16, a high surrogate uses up the next unit even when that is no low surrogate, and the unit is lost
  (`FhUnits.PairRead`, for every pair of units).
- Latin-1 output keeps a text exactly when it has no character past 255 (`FhRoundTrip.RoundTripExact`).
- `fh_pos_scan` does not move the column for tab, backspace and carriage return as `fh_pos_fold` does: an input for
  each is in `FhPosition.MovesDiffer`, and `FhPosition.ColumnsAgreeExactly` says exactly when the two agree.
- Every line number is some box's exactly when no box is listed twice (`EmitOrder.BoxLinesExact`).
- A high surrogate escape takes the next escape along without checking that it is a low surrogate; for every pair,
  `JsonString.PairExact` says what is read and that it is the right character exactly when the second is one.
- After `nidx_reset`, a null array of length 0 is taken for the indexed one and answered from the old table
  (`NodeIndex.StaleFound`): wrongly exactly when the array indexed before holds the node (`NodeIndex.StaleExact`).
  Before any array is indexed the same call reads through a null table.
- `bb_proc_find` may give a later entry than the plain scan when an earlier one got the same name after the index
  was built (`ProcIndex.LateNameMissed`); `ProcIndex.AnswerExact` says exactly when.

## Model

| member | source | states |
|---|---|---|
| PeepTool.ToolPreservesMeaning | tools/scrip_peep.c:69-163 | for every program and choice of rules, if each moved block is clean, every execution entered at a held label shows the same states before and after, up to stuttering, in both directions |
| PeepDeletion.DeletionsPreserveMeaning | tools/scrip_peep.c:69-102 | self-mov, store-reload, got-cse and dead-jmp together preserve every execution, with no condition beyond well-formedness, and keep every label |
| PeepDeletion.MarksExplained | tools/scrip_peep.c:69-102 | every line the rules delete repeats or undoes an earlier `mov` that still holds when control gets there, or is a jump to the next surviving label |
| PeepDeletion.GotScanExplained | tools/scrip_peep.c:84-92 | the forward scan keeps the invariant that no dead line ahead of it carries a label, so it never deletes across an entry point |
| PeepRules.DeletedExactly | tools/scrip_peep.c:69-102 | a line is marked if and only if a rule that is on says so, in terms of the lines and of which are marked: an unfused `mov` of an operand to itself; the load back right behind a store that stays; a load from the offset table repeated in its block with no write to the register reported between; a jump to the label of the next line that is neither blank nor a deleted `mov` |
| PeepRules.FirstJumpStays | tools/scrip_peep.c:95-102 | of two jumps over nothing in a row only the second is marked |
| PeepErase.LabelSurvives | tools/scrip_peep.c:158-160 | a label on a deleted line is defined once in the output, where its line stood |
| PeepErase.EraseSimulates | tools/scrip_peep.c:156-161 | the written program follows the original step by step, skipping only deleted instructions |
| PeepMoves.TargetExactly | tools/scrip_peep.c:106-141 | a block goes to a jump if and only if the jump stands alone and is direct, its label is first defined on another line and named once in the text that stands, nothing runs into that line, and it heads a block of at most twelve plain lines and a closing jump |
| PeepMoves.TriedInTurn | tools/scrip_peep.c:106-152 | every line has its turn, and gets a block if and only if one is movable to it then |
| PeepInline.InlineStepImproves | tools/scrip_peep.c:106-152 | one clean inlining step preserves every execution |
| PeepInline.StepKeepsWorkOk | tools/scrip_peep.c:143-151 | a clean step leaves the working arrays as the next step expects them |
| PeepInline.PassPreservesMeaning | tools/scrip_peep.c:106-152 | the whole inlining pass preserves every execution when each of its steps is clean |
| PeepTool.StepConservesExactly | tools/scrip_peep.c:126-151 | a step loses no instruction and no label but the block's own if and only if the jump's line has no label, nothing in the block was spliced into or survives as a bare label, and, if the jump closes its own block, nothing there runs before it |
| PeepLeads.StepLeadsExactly | tools/scrip_peep.c:115-151 | a clean-text step keeps the line that every label but the block's own leads to, the jump's line standing for the first line of its copy, if and only if no bare label hangs above the block or the block moves down over lines that hold nothing |
| PeepTool.StepKeepsExactly | tools/scrip_peep.c:115-151 | a step keeps text and leads if and only if it is clean in the sense of `ToolPreservesMeaning` and, if the jump closes its own block, nothing there runs before it |
| PeepInline.MoveOver | tools/scrip_peep.c:118 | a block moved down over blank lines keeps every execution, whatever labels stand above it |
| PeepReports.GotCseExact | tools/scrip_peep.c:42-92 | between two loads of a register from one slot the tool passes over any instruction reported not to write it; the output behaves as the input if and only if the instruction leaves that value in the register |
| PeepReports.WrongReports | tools/scrip_peep.c:43 | with `cqo`, with `xchg`, or with a one-operand instruction and a comma in its comment between the two loads, the output behaves differently from the input |
| PeepWitness.AboveMisbehaves | tools/scrip_peep.c:118 | a well-formed program with a label above the block, all of whose lines but the jump are written, and whose behaviour the default rules change |
| PeepWitness.ChainMisbehaves | tools/scrip_peep.c:145 | a well-formed program whose behaviour the default rules change |
| PeepWitness.ChainWritten | tools/scrip_peep.c:144-161 | what the tool writes for that program |
| PeepPass.Peephole | tools/scrip_peep.c:69-161 | the loops over the tool's arrays compute the rules' specification |
| PeepPass.Pass.LocalRules | tools/scrip_peep.c:69-94 | the marks after the first loop |
| PeepPass.Pass.ScanForLoad | tools/scrip_peep.c:84-92 | the marks after one forward scan |
| PeepPass.Pass.DeadJumps | tools/scrip_peep.c:96-102 | the marks after the dead-jump loop |
| PeepPass.Pass.InlineSingleUse | tools/scrip_peep.c:106-152 | marks, splices and blanked lines after the inlining loop |
| PeepPass.Pass.Write | tools/scrip_peep.c:156-161 | the text written from the arrays |
| ArenaRuns.RunKeeps | src/ir/ct_arena.c:40-144 | in every run of allocations, grows, drops and releases live blocks are apart and inside mapped memory, each free block is once in the bin of its class, the journal lists exactly the live blocks, and the bytes taken are the sum of live sizes |
| ArenaProofs.AllocKeeps | src/ir/ct_arena.c:40-80 | an allocation keeps the invariant and serves a block of at least the size asked for that was not live, or changes nothing when there is no memory |
| ArenaProofs.DropKeeps | src/ir/ct_arena.c:110-130 | a drop keeps the invariant, takes exactly that block off the journal and its size off the account, and changes no other block |
| ArenaProofs.GrowKeeps | src/ir/ct_arena.c:88-108 | a grow keeps the invariant; the old block stays live, in place or beside the new one |
| ArenaProofs.LivePayloadsApart | src/ir/ct_arena.c:40-108 | two live payloads never overlap and lie inside mapped memory |
| ArenaExact.AllocSmall | src/ir/ct_arena.c:53-79 | a free block of the least fitting class is used first, then what is left of the chunk; only when neither serves is memory mapped, a chunk of the usual size or as many pages as the request needs |
| ArenaExact.AllocLarge | src/ir/ct_arena.c:45-52 | a request past every class gets the least number of pages that holds it and its header |
| ArenaExact.DropExact | src/ir/ct_arena.c:110-130 | dropping unmaps a block with pages of its own and leaves any other free where it is; the account goes down by its size |
| ArenaExact.ReuseLast | src/ir/ct_arena.c:53-60 | the block of a class dropped last is the first to be used again |
| ArenaExact.GrowExact | src/ir/ct_arena.c:88-108 | a block that holds the bytes already stays, the last of the chunk grows where it stands if its new class fits there, any other request is an allocation |
| ArenaModel.ClassIsLeast | src/ir/ct_arena.c:26-28 | the class is the smallest that fits and a block's own size leads back to its class |
| ArenaRuns.ReleaseExact | src/ir/ct_arena.c:134-144 | releasing a live mark frees exactly the blocks journaled after it and the mark; any other address changes nothing |
| ArenaRuns.MarkRollsBack | src/ir/ct_arena.c:132-144 | after a mark and any run that does not free it, releasing the mark leaves exactly what was live before and not freed since, in order, so nested marks unwind like a stack |
| ArenaRuns.StepJournal | src/ir/ct_arena.c:30-144 | each call only removes blocks from the journal or adds one at its end |
| ArenaLinks.LinksInverse | src/ir/ct_arena.c:30-38 | in memory `older` and `next` of the journal are mutually inverse and the newest block is the head |
| ArenaLinks.UnlinkLinks | src/ir/ct_arena.c:32-38 | unlinking an entry leaves the rest doubly linked in order |
| ArenaLinks.PushLinks | src/ir/ct_arena.c:30 | linking a block makes it the newest and disturbs no other link |
| CtArena.Allocator.FindClass | src/ir/ct_arena.c:26 | the doubling loop finds the class |
| CtArena.Allocator.AllocIn | src/ir/ct_arena.c:40-80 | headers, bins, chunk and account change as the specification says, and no live payload byte changes |
| CtArena.Allocator.GrowBlock | src/ir/ct_arena.c:88-108 | the block grows as specified, its old contents are in front of the new payload, no other live payload byte changes, and a dead block is refused |
| CtArena.Allocator.DropBlock | src/ir/ct_arena.c:110-130 | unlink, then bin or unmap, as specified; a dead block is ignored |
| CtArena.Allocator.MarkNow | src/ir/ct_arena.c:132 | a mark is a live block of its own |
| CtArena.Allocator.ReleaseMark | src/ir/ct_arena.c:134-144 | the walk and the drop loop end and compute the specified release |
| PoolRuns.RunKeeps | src/ir/bb_pool.c:28-162 | no legal run aborts, and outstanding regions and holes always partition `[0, top)` with holes non-empty, sorted, never adjacent and page-aligned |
| PoolRuns.OrderDoesNotMatter | src/ir/bb_pool.c:113-132 | reclaiming the same bytes in any order and any pieces ends in the same pool, whatever holes there were |
| PoolProofs.ReclaimExact | src/ir/bb_pool.c:113-132 | reclaiming a live range adds exactly that range to the unused bytes and lowers the top as far as the free tail goes |
| PoolProofs.SameBytesSameHoles | src/ir/bb_pool.c:79-132 | canonical hole lists are determined by their bytes |
| PoolProofs.InHoleExact | src/ir/bb_pool.c:164-171 | the binary search answers membership in the holes for every byte |
| PoolProofs.OverlapsExact | src/ir/bb_pool.c:123-127 | looking at two neighbours decides overlap with any hole |
| PoolProofs.TruncateExact | src/ir/bb_pool.c:91-95 | truncation keeps exactly the hole bytes below the mark |
| PoolExact.AllocExact | src/ir/bb_pool.c:28-40 | a new region starts at the top and takes the least pages that hold it, or nothing changes because they pass the limit |
| PoolExact.TrimExact | src/ir/bb_pool.c:49-57 | a region that ends at the top gives back every byte from the first page boundary behind what it uses, and the next one starts there; any other stays as it is |
| PoolExact.FreeExact | src/ir/bb_pool.c:59-66 | a free takes the top down to the region's start and takes back exactly its bytes, and aborts exactly when the region is not the last |
| PoolExact.FreeUndoesAlloc | src/ir/bb_pool.c:28-66 | freeing what was just allocated restores the pool |
| PoolExact.ReleaseExact | src/ir/bb_pool.c:97-111 | a mark below the top becomes the top and drops what is owned or a hole above it; one above changes nothing |
| PoolExact.HoleReturnExact | src/ir/bb_pool.c:148-155 | exactly the bytes from the first page boundary behind what is kept to the end of the hole come back |
| PoolRuns.AllocKeeps | src/ir/bb_pool.c:28-40 | a new region is page-aligned, inside the pool and nobody's before |
| PoolRuns.TrimKeeps | src/ir/bb_pool.c:49-57 | trimming keeps every byte in use |
| PoolRuns.FreeKeeps | src/ir/bb_pool.c:59-66 | a free aborts exactly when it is out of order |
| PoolRuns.ReleaseKeeps | src/ir/bb_pool.c:97-111 | a release keeps the invariant and everything below the mark |
| PoolRuns.AllocHoleKeeps | src/ir/bb_pool.c:134-146 | the hole handed out is the lowest large enough and was nobody's |
| PoolRuns.HoleReturnKeeps | src/ir/bb_pool.c:148-155 | returning the end of a hole never aborts and keeps its front |
| BbPool.CodePool.FindHole | src/ir/bb_pool.c:79 | the binary search counts the holes below an address |
| BbPool.CodePool.Alloc | src/ir/bb_pool.c:28-40 | the new state is the specified one |
| BbPool.CodePool.TrimLast | src/ir/bb_pool.c:49-57 | the specified pool, for the last region and for any other |
| BbPool.CodePool.Free | src/ir/bb_pool.c:59-66 | the specified pool, or an abort exactly when the region is not the last |
| BbPool.CodePool.Reclaim | src/ir/bb_pool.c:113-132 | merging left and right in place gives the specified pool; it aborts exactly on overlap |
| BbPool.CodePool.AllocHole | src/ir/bb_pool.c:134-146 | first fit in place |
| BbPool.CodePool.HoleReturn | src/ir/bb_pool.c:148-155 | the specified pool |
| BbPool.CodePool.HoleAbort | src/ir/bb_pool.c:157-162 | the whole hole goes back |
| BbPool.CodePool.Release | src/ir/bb_pool.c:97-111 | the specified pool |
| BbPool.CodePool.IsInHole | src/ir/bb_pool.c:164-171 | exactly membership |
| ProfileTable.EveryCallCounted | tools/rtx_icn_profile.c:57-78 | once all threads have left the hook, each called function is counted exactly, in one slot, if at most half as many functions occur as there are slots |
| ProfileTable.NoDrop | tools/rtx_icn_profile.c:57-78 | under that bound no interleaving drops a call |
| ProfileTable.SlotsUnique | tools/rtx_icn_profile.c:57-78 | under every interleaving a function has at most one slot |
| ProfileTable.RunKeeps | tools/rtx_icn_profile.c:57-78 | slots never change once set; calls are counted, dropped or in flight; each counter is its function's count modulo 2^64 |
| ProfileTable.WaitFree | tools/rtx_icn_profile.c:61-77 | every step of a thread brings it nearer to leaving and no other thread sets it back |
| ProfileLoss.DropExact | tools/rtx_icn_profile.c:42-78 | for every table size and every hash, no number of threads and no interleaving with at most D functions drops a call if and only if 2 D is at most the size |
| ProfileLoss.RivalsExist | tools/rtx_icn_profile.c:49-54 | every hash sends k of any size * (k - 1) + 1 first functions to one slot |
| ProfileLoss.DropWithRoom | tools/rtx_icn_profile.c:61-74 | whatever the hash and the size, once half the size plus one functions share a home slot, two threads can end at rest with one call dropped, and with a slot still free when there are two slots or more |
| C3Model.MergeEmits | src/driver/driver_data.c:176-194 | no name is emitted twice, the output fits, and every name of the lists is emitted or left over, never both |
| C3Model.MergeKeepsOrder | src/driver/driver_data.c:176-194 | a name that precedes an emitted one in some list is emitted before it |
| C3Model.MergeStops | src/driver/driver_data.c:178-193 | at the end every remaining head stands in some tail |
| C3Model.MergePick | src/driver/driver_data.c:180-191 | next comes the head of the first list whose head stands in no tail, and it goes from all lists |
| C3Model.MergeCompletes | src/driver/driver_data.c:176-194 | all lists are consumed if and only if some linear order has them all in order |
| C3Model.EmitsExactly | src/driver/driver_data.c:176-194 | completed or stuck, the merge emits exactly the names of the lists for which some set of names, closed under what stands before in any list, can be put in one order agreeing with all lists |
| C3Model.MroExtendsParents | src/driver/driver_data.c:196-218 | the order starts with the class; it repeats a name if and only if the class stands in the lists and can be put in such an order there; when all lists agree it contains each parent's order and the parent list as subsequences, and standing in the lists is enough for a repetition |
| C3Model.CycleRepeats | src/driver/driver_data.c:214-217 | two classes naming each other give an order with a repeated name |
| C3Model.OpposedParentsStick | src/driver/driver_data.c:191-217 | parents ordered [X, A, B] and [Y, B, A] leave the merge stuck after X and Y |
| C3Merge.Merge | src/driver/driver_data.c:176-194 | compacting the lists in place emits what the specification emits and leaves what it leaves |
| C3Merge.Compact | src/driver/driver_data.c:188 | closing the gaps of one list touches no other |
| C3Merge.Rejects | src/driver/driver_data.c:185 | the scan of the tails decides rejection |
| FhRoundTrip.RoundTripExact | src/driver/driver_globals.c:357-424 | every text of Unicode scalar values comes back byte for byte through kinds 1 to 4, and through kind 5 if and only if it has no character past 255 |
| FhUnits.PutMeans | src/driver/driver_globals.c:390-402 | read as numbers in the kind's byte order, what is written is the character, or the surrogate pair that stands for it; Latin-1 writes a question mark for what it lacks |
| FhUnits.PairRead | src/driver/driver_globals.c:365-384 | two units read as numbers: a high surrogate makes a character with a low one and loses any other unit |
| FhUnits.LastRead | src/driver/driver_globals.c:365-384 | the last unit stands for itself, a broken one for nothing |
| FhUnits.StrayByte | src/driver/driver_globals.c:408-421 | a byte that starts no character is written as a character of its own |
| FhRoundTrip.AnyChunks | src/driver/driver_globals.c:404-424 | cutting the text anywhere, even inside a character, gives the same file |
| FhRoundTrip.WriteText | src/driver/driver_globals.c:404-424 | writing a text puts each of its characters in the file and leaves nothing gathered |
| FhRoundTrip.Utf8Yields | src/driver/driver_globals.c:408-421 | a character's bytes come together as its code whatever the gatherer held before |
| FhRoundTrip.GetPut | src/driver/driver_globals.c:365-402 | a character written in any of kinds 1 to 4, surrogate pairs included, is the next one read |
| FhRoundTrip.UnpackPack | src/driver/driver_globals.c:357-363 | the packed bytes drained one by one are the UTF-8 form |
| FhTranscode.WriteThenRead | src/driver/driver_globals.c:375-424 | a text written in any chunks and read back into buffers of any sizes comes back in order as far as they hold, all of it unchanged if and only if the kind has bytes for its characters |
| FhTranscode.Handle.WriteText | src/driver/driver_globals.c:404-424 | the byte loop computes the specified file and state |
| FhTranscode.Handle.ReadText | src/driver/driver_globals.c:375-388 | any buffer gets the next piece of one stream, short only at its end |
| FhTranscode.Handle.NextUnit | src/driver/driver_globals.c:365-373 | one unit, byte order undone; a broken one is used up |
| FhTranscode.Handle.NextCode | src/driver/driver_globals.c:383-384 | one character, with its surrogate pair |
| FhPosition.FoldText | src/driver/driver_globals.c:107-129 | jumping between newlines and testing high bits by words gives both positions that counting byte by byte gives |
| FhPosition.AnyHighByte | src/driver/driver_globals.c:115-118 | or-ing words of 32, 8 and 1 bytes finds whether any byte is past ASCII |
| FhColumns.ScreenColumns | src/driver/driver_globals.c:119-128 | on a screen an ordinary character takes a column, a backspace gives it back and stays at column 0, a tab leads to the least multiple of 8 above, a byte inside a character changes nothing |
| FhColumns.StartsAnew | src/driver/driver_globals.c:84-128 | behind a newline, and on a screen behind a return, the column is that of what follows, counted from 0 |
| FhColumns.CountsExact | src/driver/driver_globals.c:84-129 | lines are the newlines, characters the bytes that start one, or all bytes when counted plainly |
| FhColumns.LineColumns | src/driver/driver_globals.c:84-129 | off a screen the column is the number of bytes, or of characters, since the newline |
| FhPosition.FoldComposes | src/driver/driver_globals.c:107-129 | counting in pieces is counting the whole |
| FhPosition.FileCursor.ScanTo | src/driver/driver_globals.c:76-88 | after any history of offsets and short reads the cache is a recount from byte 0, and the answer is yes if and only if the reads lead to the goal, none of them empty |
| FhPosition.ArrivesExactly | src/driver/driver_globals.c:76-88 | reads that each bring something lead to every place in the file and to none past it |
| FhPosition.SinkCursor.Position | src/driver/driver_globals.c:509-524 | whatever was counted before, the answer is that of counting the whole sink |
| FhPosition.FileAgreesWithScreen | src/driver/driver_globals.c:84-126 | the two ways of counting agree on characters and lines, and on the column where no byte moves the cursor |
| FhPosition.ColumnsAgreeExactly | src/driver/driver_globals.c:84-126 | from any common start the two agree after every prefix of a text if and only if the only bytes in it that move the cursor are tabs in the last column before a stop |
| FhPosition.MovesDiffer | src/driver/driver_globals.c:84-126 | a tab, a backspace and a carriage return, each giving two columns |
| EmitOrder.OrderExact | src/ir/scrip_ir.c:149-163 | on every graph the traversal ends and lists exactly the places reachable from the entry, each once, the entry's first |
| EmitPreorder.OrderInTurn | src/ir/scrip_ir.c:155-162 | behind each box come, for each of its edges γ, ω and the operands in order, the places that edge leads to and that are not yet listed; a new place γ leads to is the very next |
| EmitPreorder.OrderUnique | src/ir/scrip_ir.c:149-163 | no other listing of the reachable places, the entry first, follows the edges in turn |
| EmitOrder.LinesExact | src/ir/scrip_ir.c:357-360 | numbering is one to one from the listed non-null places onto an initial segment: the reached places in emit order, then the others in table order |
| EmitOrder.BoxLinesExact | src/ir/scrip_ir.c:147-360 | every line is some box's if and only if no box is listed twice |
| EmitOrder.Emitter.VisitBox | src/ir/scrip_ir.c:149-163 | the recursion over marks and the order array computes the specified order |
| EmitOrder.Emitter.Number | src/ir/scrip_ir.c:351-360 | the map filled by the three loops is the specified numbering |
| Sha.Hasher.Update | src/driver/kernel.c:63-67 | only the concatenation of the pieces counts; the fill is always the length modulo 64 |
| Sha.Hasher.Final | src/driver/kernel.c:69-82 | the zero-fill loop ends and the digest is the standard's hash of everything seen |
| ShaBytes.DigestBytes | src/driver/kernel.c:76-81 | word i of the state is at bytes 4 i to 4 i + 3 of the digest, highest byte first |
| ShaBytes.PaddedBytes | src/driver/kernel.c:69-75 | padding is the byte 0x80, fewer than 64 zeros to a whole block, and the length in bits in eight bytes, highest first |
| ShaBytes.XorAt | src/driver/kernel.c:90 | a bit of the exclusive or is set if and only if it is set in one of the two |
| ShaBytes.HmacBlocks | src/driver/kernel.c:84-98 | the two hashed blocks give the key, or its hash, back when 0x36 and 0x5c are taken off |
| Sha.PaddedWhole | src/driver/kernel.c:70-75 | padding brings every message to whole blocks |
| Sha.PaddedInjective | src/driver/kernel.c:70-75 | messages short enough for the length field have the same padding only if they are the same |
| Sha.KeyedHash | src/driver/kernel.c:84-98 | the keyed hash over parts is RFC 2104's over their concatenation, for every key length |
| JsonString.ReadWriteExact | src/driver/kernel.c:149-298 | reading what was written takes exactly the written text and gives the string with each structurally bad byte replaced by U+FFFD, the string itself if and only if it is well formed |
| JsonEscapes.ShortRead | src/driver/kernel.c:152-168 | every two-character escape of RFC 8259, section 7, reads as its byte, any other character behind a backslash as itself |
| JsonEscapes.ShortWritten | src/driver/kernel.c:272-284 | the bytes with an escape of their own are written with it |
| JsonEscapes.ControlWritten | src/driver/kernel.c:285-290 | any other control character is written with its two hex digits |
| JsonEscapes.HexDigits | src/driver/kernel.c:140-147 | hex digits are written in lower case and read in either |
| JsonEscapes.TextKept | src/driver/kernel.c:259-297 | every text of characters is well formed, so it is written as it is |
| JsonString.EscapeReads | src/driver/kernel.c:163-168 | every character's escape, pairs included, reads as its UTF-8 form |
| JsonString.PairExact | src/driver/kernel.c:167 | a high surrogate and any escape after it are read as one character and both used up; it is the one UTF-16 assigns to the pair if and only if the second is a low surrogate |
| JsonText.PutString | src/driver/kernel.c:268-298 | the writer's loop appends the specified text |
| JsonText.MeasureChar | src/driver/kernel.c:259-264 | the length of the character, or 0 when it is cut short or broken |
| JsonText.ParseString | src/driver/kernel.c:149-175 | the reader's loop gives the specified string and end, or fails as specified |
| JsonText.ParseHex4 | src/driver/kernel.c:142-147 | the value of four hex digits |
| Probing.Probe | src/driver/driver_data.c:49-50 | the probe loop ends, because a slot is empty, and stops at the key or where it belongs |
| Probing.StopTells | src/driver/driver_data.c:49-51 | where a probe stops decides whether the key is there and what it maps to |
| Probing.PutKeeps | src/driver/driver_data.c:28-30 | writing there adds the key or replaces its value, and every other probe still succeeds |
| Probing.EmptySlot | src/driver/driver_data.c:33 | fewer keys than slots leave a slot empty |
| Probing.Rehash | src/driver/driver_data.c:34-40 | moving to a larger table keeps what is held |
| TypeIndex.Index.Register | src/driver/driver_data.c:23-43 | after any registrations and doublings at least half the slots are empty and each name leads to its last type |
| TypeIndex.Index.Get | src/driver/driver_data.c:44-52 | the last type registered with exactly that name, or none exactly when there is none |
| NodeIds.Numbering.NodeId | src/ir/ir_node_index.c:12-35 | a node keeps its number through every growth; a new one gets the next |
| NodeIds.IdsBijective | src/ir/ir_node_index.c:31-34 | numbers are one to one between the nodes seen, in first-seen order, and 1 to their count |
| NodeIndex.Index.Build | src/ir/ir_node_index.c:37-57 | the index holds the first place of each node |
| NodeIndex.Index.Find | src/ir/ir_node_index.c:58-64 | the index says what the plain scan says, for every array unchanged since it was indexed; for a null array after a reset, what the scan of the array indexed before says |
| NodeIndex.Index.Open | src/ir/ir_node_index.c:65-77 | another array is indexed in tables of its own, the one it is taken for in the same; a null array is taken for the indexed one after a reset |
| NodeIndex.Index.Close | src/ir/ir_node_index.c:79-88 | the index set aside is back |
| NodeIndex.Index.Reset | src/ir/ir_node_index.c:90 | no array is indexed, but the table stays |
| NodeIndex.StaleExact | src/ir/ir_node_index.c:58-64 | for a null array the stale answer is right if and only if the array indexed before does not hold the node |
| NodeIndex.StaleFound | src/ir/ir_node_index.c:58-90 | an array indexed, a reset, and a null array in which its node is found |
| NodeIndex.Nest | src/ir/ir_node_index.c:65-89 | scopes nested to any depth, null arrays among them unless a reset left a filled table, each scan their own array and restore the outer index exactly, table contents and all |
| ProcIndex.Procs.Find | src/ir/sm_prog.c:29-42 | the two passes and the scan give the answer of the index first used, be it old or fresh |
| ProcIndex.AnswerExact | src/ir/sm_prog.c:29-42 | however old the index, the answer bears the name and exists exactly when some entry does; it is the plain scan's if and only if no entry named since stands before it with that name |
| ProcIndex.UniqueNames | src/ir/sm_prog.c:29-42 | with unique names it is always the plain scan's |
| ProcIndex.LateNameMissed | src/ir/sm_prog.c:36-38 | an entry named late is missed |
| ProcIndex.Procs.BuildIndex | src/ir/sm_prog.c:10-28 | the index holds the first entry of each name and the number of nameless ones |

## Left out

- PeepTool.ToolPreservesMeaning: the condition on each step is exact for what is written and where labels lead (`StepKeepsExactly`), not for behaviour: what an unclean step loses may be code that no execution reaches.
- PeepPass.Peephole: cutting lines into label, mnemonic and operands, the opt-in diag-stamp rule, the statistics and the limits on line count and line length; a splice cannot overflow its buffer, since a block has at most thirteen lines of less than 1024 bytes.
- ArenaRuns.RunKeeps: pointer overflow, the heuristic scan of chunks, and the poison and no-recycle modes.
- CtArena.Allocator.AllocIn: one null result stands both for the soft caller's null and for the exit of the other callers.
- PoolRuns.RunKeeps: protection and advice calls, the drop hooks for frame maps and statement numbers, and overflow of sizes.
- ProfileTable.EveryCallCounted: the printing of the table at exit.
- C3Model.MroExtendsParents: merging of fields and the build hooks; one computation is modelled, given the parents' orders.
- FhTranscode.Handle.ReadText: the stdio buffering around the handle and errors of the underlying file.
- FhPosition.FileCursor.ScanTo: files whose content changes between calls, and errors of the system other than short reads.
- FhPosition.FileAgreesWithScreen: one way for the column at the end of a text, where a newline makes both zero again; all along a text `ColumnsAgreeExactly` is exact.
- FhPosition.SinkCursor.Position: the last character kept beside the counts; sinks rewritten in place at the same or a greater length.
- EmitOrder.OrderExact: the printing of each line, and the node kinds.
- Sha.KeyedHash: the round constants and the compression of a block, which are a parameter.
- JsonString.ReadWriteExact: objects, arrays, numbers and literals of messages; a string is a byte sequence with its length, its terminating zero is not modelled.
- TypeIndex.Index.Get: the fallback for names of 63 characters.
- NodeIds.Numbering.NodeId: outside dense mode the number is the address modulo 100000, which is not one to one.
- NodeIndex.Index.Find: a null array before any array was indexed, when the source reads through a null table.
- ProcIndex.Procs.Find: tables whose names are changed or removed while an index is cached.
- The variable-slot and local-name indexes of `src/ir/scrip_ir.c` probe as the four modelled here do and would add nothing new.
- ZeroMQ sockets, processes, UUIDs, message dispatch, option parsing, assembly emission and the enum tables.
