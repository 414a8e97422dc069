# Verified model of an RV64 emulator

A Dafny 4.11 model of the parts of the emulator that keep state over long runs: address translation
with its TLB, the virtio block device, the PLIC, trap entry and return, the two paths into DRAM, and
the two implementations (compressed and base) of the integer instructions. `dafny verify
dfyconfig.toml` checks everything.

Each part comes in two layers. Functions on values say what an operation does, and lemmas about them
say what runs keep. A class holds the fields the source updates and has one method per source
function, with the source's loops and branches; its contracts tie the new state to the functions.

| files | part | sources |
|---|---|---|
| `Division`, `Bytes`, `Bits`, `Bitmaps`, `Options` | quotients, little-endian bytes, shifts and masks, bitmaps | |
| `Memory`, `Words` | bus and helper paths into DRAM | `src/memory.c`, `src/bus.c` |
| `Sv39`, `Sv39Standard`, `TlbModel`, `TlbSlots`, `MmuRuns`, `PageCross`, `WalkWords`, `PageWords`, `Mmu` | page-table walk, the standard's walk, TLB, translation, runs, accesses across a page, translation on memory words | `src/mmu.c` |
| `DiskModel`, `VirtioModel`, `VirtioChain`, `VirtioRings`, `VirtioRuns`, `VirtioUsed`, `VirtioLatency`, `VirtioData`, `VirtioDisk`, `VirtioBytes`, `Virtio` | split queue, descriptor translation, completion list, latency, block cache, disk contents, requests on bytes | `src/virtio_blk.c` |
| `PlicModel`, `PlicRuns`, `PlicLaws`, `Plic` | claim and completion, MEIP, registers | `src/plic.c` |
| `TrapModel`, `TrapWords`, `Trap` | traps, returns, interrupt dispatch | `src/trap.c`, `src/instructions.c` |
| `Isa`, `InstrModel`, `InstrExpand`, `InstrSteps`, `InstrExact`, `InstrBits`, `InstrWords`, `InstrFields`, `InstrMap`, `Instr` | standard decoding and expansion; the handlers; results, fields and opcodes bit by bit | `src/instructions.c`, `src/decode.c` |

How to read the model:

- `MmuUnit.Mmu`, `VirtioUnit.BlockDevice`, `PlicUnit.PlicDevice`, `TrapUnit.TrapHart`, `Memory.Ram`
  and `InstrUnit.Hart` are the classes. `State()` is the value a class stands for. `order` in `Mmu`
  and `consumed`/`completed` in `BlockDevice` are histories the source does not keep.
- The TLB size, the queue size and the memory size are parameters. The TLB is specified by a recency
  list, newest line first; the timestamps live only in `TlbSlots` and `Mmu`.
- Machine words are unbounded naturals where only fields of them matter, and bit vectors in the
  instruction part, where wrap-around and sign extension matter. The 16-bit ring indices wrap.
- What an operation does is also said in plain terms, apart from the functions that define it: in
  quotients and remainders of memory words (`Words`, `WalkWords`, `PageWords`), in the bytes of memory
  and of the disk image (`VirtioBytes`), in source numbers and register offsets (`PlicLaws`), in CSR
  numbers and bit positions (`TrapWords`), and in register bits, machine arithmetic, field positions
  and opcodes (`InstrBits`, `InstrWords`, `InstrFields`, `InstrMap`).
- Where the code departs from the standard, the code is modelled and a lemma says exactly when the
  two meet. Found that way:
  - A hit departs from the walk for a supervisor fetch from a user page under SUM, and for a
    superpage, whose address the walk leaves 0 (`MmuRuns.AgreesIff`).
  - The walk itself takes privilege 3, non-canonical addresses, superpages, reserved PTE bits and
    clear A and D bits otherwise than section 4.3.2 of the RISC-V Privileged Architecture v1.12
    (`Sv39Standard.WalkMeetsStandard`, `Sv39Standard.OrdinaryPages`, `Sv39Standard.MachineMode`).
  - The TLB tag drops bit 38 of the address: a page is answered from the PTE of its neighbour across
    that bit (`MmuRuns.CrossHitGoesWrong`, and `MmuRuns.CrossRun` for a run), which is right exactly when the two PTEs lead to the same
    answer (`MmuRuns.TagDropsBit38`).
  - An access is translated by its first byte. A doubleword across a page goes where the walk puts its
    bytes exactly when the next page maps to the next frame (`PageCross.StoreCrossingIff`).
  - The block device passes descriptor addresses through the hart's translation, under whatever satp,
    mode and TLB are current when the operation falls due. The completion works on the buffers the
    descriptors name exactly when their addresses translate to themselves
    (`VirtioChain.IdentityIff`, `VirtioChain.IdentityIffMapped`); when they fault, the first byte of
    DRAM is cleared, no block moves and the request still counts as done
    (`VirtioChain.FaultedCompletion`).
  - The device writes 16 of the 32 bits of an id in the used ring, so a driver reads the head exactly
    when the other half was zero at set-up (`VirtioUsed.UsedIdExact`).
  - M-mode trap entry and return and the acknowledgement of a software interrupt use 32-bit masks on
    64-bit registers and clear bits 32 to 63 of mstatus and mip. That does no harm exactly when those
    bits were clear (`TrapModel.EnterMExact`, `TrapModel.LeaveMExact`, `TrapModel.AckSoftExact`).
  - A priority write does not re-evaluate MEIP (`PlicRuns.PriorityWriteExact`).
  - The two M-mode return routines differ on the reserved previous privilege 2
    (`TrapModel.MretsAgree`); an S-mode return to an odd pc does nothing (`TrapModel.TrapReturns`).
  - The read and write helpers of DRAM rebase addresses below the virtio window differently
    (`Memory.OffsetsAgree`).
  - `jal` loses bit 20 and `blt` bit 12 of its offset (`InstrModel.JumpRoundTrip`,
    `InstrModel.BranchRoundTrip`), `bge` compares unsigned (`InstrExact.BgeExact`), `lw` does not
    extend the sign (`InstrSteps.LwExact`, `InstrExact.WordLoadsAgree`), `c.addiw`, `c.subw` and
    `c.xor` run as `c.addi`, `c.sub` and `c.addw` (`InstrSteps.MergedDiffers`, and
    `InstrExact.MergedExact` for the states on which that is right all the same), `c.jr` keeps bit 0 of its target and `c.jalr` overwrites ra before reading it
    (`InstrSteps.CompressedCommutes`).

## Model

| member | source | states |
|---|---|---|
| Memory.Ram.RamRead | src/memory.c:122-143 | returns the little-endian value of the bytes at the offset, 0 out of range |
| Memory.Ram.RamWrite | src/memory.c:145-159 | stores the low bytes of the value and no other byte; out of range nothing changes |
| Memory.Ram.MemoryRead | src/memory.c:32-64 | the same through the helper's own rebasing; halts exactly when out of range |
| Memory.Ram.MemoryWrite | src/memory.c:66-89 | the whole new DRAM after a helper write, for each of its rebasing branches |
| Memory.Ram.BusRead | src/bus.c:20-42 | a bus read of DRAM; addresses outside it do not reach DRAM |
| Memory.Ram.BusWrite | src/bus.c:44-71 | a bus write of DRAM |
| Memory.OffsetsAgree | src/memory.c:38-47 | the read and the write helper use the same offset for an address if and only if it is at most the CLINT base or at least the virtio base |
| Memory.ApplyAllIsFlat | src/memory.c:66-159 | after any mix of writes of any width through both paths, every byte is the one the latest covering write gave it |
| Memory.PathsAgree | src/memory.c:32-159 | after any such mix a read through either path returns the little-endian value of that flat byte map, partly overlapping widths included |
| Words.ReadsSpelledOut | src/memory.c:32-143 | a read of 1, 2, 4 or 8 bytes of DRAM through either path is the sum of those bytes times the powers of 256, lowest first, DRAM starting at 0x80000000 |
| Words.WritesSpelledOut | src/memory.c:66-159 | a write through either path puts byte i of the value at the i-th address and changes no other byte |
| Words.OutsideDram | src/memory.c:32-89 | below DRAM the bus reaches nothing, the read helper takes addresses from 0x2000000 and 0x10001000 on as offsets, the write helper those from 0x10001000 on, and both take lower ones as 0; what is out of range reads as 0 and writes nothing |
| Sv39.PermissionsAgree | src/mmu.c:156-175 | the walk's permission check and the TLB's separately written one agree if and only if the access is not a supervisor fetch from an executable user page under SUM |
| Sv39.LeafIsSound | src/mmu.c:134-154 | every leaf the walk accepts is valid and never writable without being readable |
| Sv39.WalkDependsOnPath | src/mmu.c:117-259 | the walk reads at most three PTEs: memories that agree on those give the same leaf through the same PTEs |
| Sv39.MissedPtesStay | src/mmu.c:117-155 | a write that misses the PTEs of a path leaves all of them as they were |
| Sv39.IndexOfVa | src/mmu.c:119-131 | the index the loop shifts out of the address is the one its page number determines, at every level |
| Sv39Standard.LeafMeetsStandard | src/mmu.c:117-155 | the leaf the walk finds is the one of the standard's steps 2 to 4, unless a reserved bit is set on the path, where the standard finds none |
| Sv39Standard.AllowsMeetsStandard | src/mmu.c:156-175 | in U and S mode the walk's permission check is the standard's step 5 |
| Sv39Standard.WalkMeetsStandard | src/mmu.c:84-261 | in U and S mode the walk gives the standard's answer iff it finds no leaf that it permits, or the address is canonical, no reserved bit is set, A is set, D for a store, and the leaf is a 4 KiB page in memory or a superpage that maps the access to address 0, or one of these fails and the leaf is a 4 KiB page outside memory |
| Sv39Standard.OrdinaryPages | src/mmu.c:84-261 | for a canonical address on a 4 KiB page over clear PTEs that is: A set, and D for a store, unless the access is refused anyway |
| Sv39Standard.MachineMode | src/mmu.c:84-108 | in M mode, which the code translates too, the two meet iff a usable and permitted leaf maps the address to itself |
| TlbSlots.FullIffAllValid | src/mmu.c:361-373 | the recency list is full exactly when every slot is valid |
| TlbSlots.OldestIsLast | src/mmu.c:361-373 | with no free slot, a slot with the smallest timestamp is the last of the recency list |
| TlbSlots.FreeIsVictim | src/mmu.c:361-373 | any free slot is an admissible victim |
| TlbSlots.MatchPosition | src/mmu.c:328-343 | the slot that matches a page is the one place of that page in the recency list |
| TlbSlots.HitPromotes | src/mmu.c:344-350 | a new timestamp and marked flags in the matched slot move its line to the front of the list and change no other line |
| TlbSlots.InsertSlot | src/mmu.c:374-399 | an entry written into the victim's slot with a new timestamp adds its line at the front and drops the oldest exactly if the TLB was full |
| TlbSlots.NewEntryOk | src/mmu.c:381-398 | the tag, page number and flags written for a PTE list as the line of that PTE |
| MmuUnit.Mmu.constructor | src/cpu.h:36-53 | a zeroed TLB is empty and valid |
| MmuUnit.Mmu.ReachesRuns | src/mmu.c:355-399 | every reachable class state is a well-formed state of the run results: at most capacity lines, one per page, none writable without being readable |
| MmuUnit.Mmu.TlbCheck | src/mmu.c:265-319 | answers as the TLB permission check and sets A, and D for a store, in the checked slot only, only on success; the flags it leaves are spelled out |
| MmuUnit.Mmu.TlbLookup | src/mmu.c:321-353 | hit, fault or miss, and the new recency list |
| MmuUnit.Mmu.ChooseVictim | src/mmu.c:360-373 | the scan that never tests slot 0 for being free still picks a free slot whenever there is one, and the oldest otherwise |
| MmuUnit.Mmu.TlbInsert | src/mmu.c:355-399 | the new list starts with the PTE's line and keeps the rest in order up to the capacity |
| MmuUnit.Mmu.TlbFlush | src/mmu.c:402-409 | afterwards no page is cached |
| MmuUnit.Mmu.WalkLoop | src/mmu.c:117-155 | the loop ends and finds the leaf of the recursive three-level definition |
| MmuUnit.Mmu.TakeLeaf | src/mmu.c:156-259 | success exactly under the walk's permissions and alignment, the address, and a TLB fill exactly on success |
| MmuUnit.Mmu.Sv39Translate | src/mmu.c:84-261 | answer and TLB of a whole walk |
| MmuUnit.Mmu.GetPa | src/mmu.c:530-565 | the whole new state and the answer are those of hit, else walk and fill; from an empty TLB the answer is that of the walk on words; a fault is recorded, its cause and address spelled out, and answered with 0 |
| MmuUnit.Mmu.Sd | src/instructions.c:1025-1100 | SD: translation, then the eight bytes at the translated address |
| MmuUnit.Mmu.Ld | src/instructions.c:1266-1318 | LD: translation, then the eight bytes read |
| WalkWords.WalkOnWords | src/mmu.c:84-261 | for every memory, satp, mode, address and access the walk is a second one, defined in quotients and remainders of the words of memory and sharing no definition with it: V, R, W, X, U at bits 0 to 4, the page number at bits 10 to 53, the index at bits 12, 21 and 30 of the address |
| PageWords.PageWalk | src/mmu.c:84-261 | where three table words lead to the PTE w, the walk gives its page number times 4096 plus the offset iff w lets the access through by its bits 0 to 4, MXR and SUM, and else faults |
| PageWords.PageAccess | src/mmu.c:530-565 | from an empty TLB an access has that answer, and the same access after it has it again, from the TLB |
| PageWords.HitOnWords | src/mmu.c:265-319 | a hit on the line of any PTE w, in the bits of w: the same rule, but that it lets a supervisor fetch from a user page through under SUM and does not look at R for a store |
| PageWords.MarksOnWords | src/mmu.c:311-316 | the flags of the line after the check: A set by any permitted access, D by a permitted store, the others those of w |
| PageWords.TagOnWords | src/mmu.c:322 | lines are found by bits 12 to 37 of the address |
| PageWords.StoreOnBytes | src/instructions.c:1025-1100 | SD translates for a store and puts the eight bytes of the value, lowest first, at the translated address; on a fault memory stays |
| PageWords.LoadOnBytes | src/instructions.c:1266-1318 | LD translates for a load and returns the eight bytes there, lowest first |
| MmuRuns.AgreesIff | src/mmu.c:321-353 | on a coherent TLB, whose lines may come from either half of the address space, `get_pa` gives the address or fault of the pure walk of current memory if and only if the access is no deviating hit: SUM fetch, superpage, or a line filled across bit 38 whose PTE leads elsewhere |
| MmuRuns.TranslateKeeps | src/mmu.c:530-565 | a translation keeps every cached line coherent with the page tables |
| MmuRuns.HarmlessKeeps | src/instructions.c:1184-1214 | so does every step that leaves alone the PTEs of the cached pages, every privilege change and every flush |
| MmuRuns.DisjointWriteIsHarmless | src/mmu.c:117-259 | a write disjoint from the PTEs on the paths of all cached pages needs no sfence |
| MmuRuns.RunIsCoherent | src/mmu.c:321-399 | from an empty TLB, any sequence of translations at any addresses, privilege changes, writes, satp writes and flushes in which nothing went stale since the last flush leaves the TLB coherent |
| MmuRuns.RunAgreesWithWalk | src/mmu.c:530-565 | after any such sequence the next access, of any type and at any address, agrees with the walk if and only if it is no deviating hit |
| MmuRuns.RunAgreesOnPages | src/mmu.c:530-565 | with SUM clear and a 4 KiB leaf, every access that hits no line filled across bit 38 agrees |
| MmuRuns.SatpWriteNeedsFlush | src/instructions.c:1540-1556 | without a flush after a satp write a hit survives although the new tables fault |
| MmuRuns.TagDropsBit38 | src/mmu.c:322 | an access whose tag is cached for the page across bit 38 agrees with the walk if and only if the PTE of that page and the PTE of its own, if any, lead to the same answer |
| MmuRuns.CrossHitGoesWrong | src/mmu.c:322 | when its own page is unmapped and the cached line permits the access, the walk faults and yet the access gets its neighbour's physical address |
| MmuRuns.CrossRun | src/mmu.c:321-399 | a run that gets there: from an empty TLB one granted access, then the same kind of access to the unmapped page across bit 38; nothing went stale, and yet it is granted |
| MmuRuns.OneHalfNeverCrosses | src/mmu.c:322 | in a run whose accesses all lie in one half of the address space no access of that half hits a line filled from the other |
| MmuRuns.RunWellFormed | src/mmu.c:321-409 | over runs, at most capacity lines and one per page |
| MmuRuns.WorkingSet | src/mmu.c:344-380 | a page touched successfully is still a hit after any run without a flush in which fewer distinct other pages than the TLB has slots were touched |
| MmuRuns.EvictionIsForced | src/mmu.c:361-373 | an access makes a page leave the TLB only if all slots were in use, and then it was the least recent page |
| MmuRuns.StoreThenTranslate | src/mmu.c:141-143 | a page that took a store translates for a load to the same address, whatever the store wrote |
| MmuRuns.StoreThenLoad | src/instructions.c:1025-1100 | after a successful SD, an LD at the same address does not fault and returns the stored 64 bits, even if the store hit the page's own PTE |
| MmuRuns.StoreIsTwoSteps | src/instructions.c:1083-1096 | an SD is one access and one write of a run |
| PageCross.OnePieceIff | src/mmu.c:530-565 | the walk puts the bytes of an access on a 4 KiB page at consecutive addresses if and only if the access stays in its page or the next page maps to the next frame |
| PageCross.StoreCrossingIff | src/instructions.c:1041-1093 | where SD translates as the walk does, to DRAM, it stores every doubleword as its bytes would be stored one by one if and only if the same holds |
| PageCross.LoadAgrees | src/instructions.c:1278-1305 | under the same condition LD returns the value of the bytes that would be loaded one by one |
| DiskModel.ReadIsPlain | src/virtio_blk.c:49-61 | a block read through the cache returns the block of the plain array and keeps the cache equal to its block |
| DiskModel.WriteIsPlain | src/virtio_blk.c:213-230 | a block write changes the plain array in that block only and keeps the cache equal to its block |
| DiskModel.CacheRefinesPlain | src/virtio_blk.c:185-230 | over any sequence of even-sector requests the cached disk gives the answers and the contents of a plain array of 1024-byte blocks |
| VirtioRuns.WrapNeedsDivisor | src/virtio_blk.c:311-330 | ring slots follow positions across the wrap of the 16-bit index if and only if the queue size divides 65536 |
| VirtioRuns.PostKeeps | src/virtio_blk.c:123-128 | a post within the queue size keeps the invariant: published slots are not overwritten before they are taken |
| VirtioRuns.NotifyTakesAll | src/virtio_blk.c:311-330 | a notification takes exactly what the driver posted, in order |
| VirtioRings.PublishSlot | src/virtio_blk.c:123-128 | publishing a head changes one available slot and the index, no other slot |
| VirtioRings.PushUsedSlot | src/virtio_blk.c:239-249 | returning a head changes one used slot and the index, no other slot |
| VirtioRuns.CompleteKeepsRings | src/virtio_blk.c:149-257 | a completion appends its head to the used ring and leaves the available ring alone, whatever it transfers and wherever its addresses translate to |
| VirtioRuns.CompleteKeepsAccounts | src/virtio_blk.c:149-257 | taken heads stay the completed ones plus those in flight, as multisets |
| VirtioRuns.DueIsSuffix | src/virtio_blk.c:259-275 | in a list sorted newest first the due operations are a suffix |
| VirtioRuns.TickIsExact | src/virtio_blk.c:259-275 | one cycle and its update complete and remove exactly that suffix, and each of its operations started exactly 1000 cycles ago |
| VirtioRuns.CompletesOnTime | src/virtio_blk.c:297-304 | in every run, the operations a cycle completes are exactly those in flight that started 1000 cycles before |
| VirtioRuns.StepKeeps | src/virtio_blk.c:149-330 | every step of driver, guest, hart, device and clock keeps the invariant |
| VirtioRuns.ExactlyOnce | src/virtio_blk.c:149-330 | in every reachable state, across index wraps and under any changes of the hart's translation: used index plus operations in flight is the consumed index modulo 65536, what was taken is a prefix of what was posted, and it equals the returned heads plus those in flight as multisets |
| VirtioRuns.UsedRingIsHistory | src/virtio_blk.c:239-249 | the two bytes of an id that the device writes hold, for each of the last completed heads, that head in its slot |
| VirtioUsed.HighsAlongRuns | src/virtio_blk.c:239-249 | along every run the other two bytes of every id stay as they were at set-up |
| VirtioUsed.UsedIdExact | src/virtio_blk.c:239-249 | the 32-bit id a driver reads for a completed request is its head if and only if the upper half of that slot was zero at set-up |
| VirtioLatency.CompletesAfterLatency | src/virtio_blk.c:278-304 | the k-th request of a run counts as completed exactly from the 1000th cycle after the step that took it; until then it is in flight at its place in the list, with its head and its start |
| VirtioLatency.LandsInTime | src/virtio_blk.c:259-275 | the 1000th cycle itself puts its head among the completed ones |
| VirtioLatency.CompletedAreFirst | src/virtio_blk.c:149-304 | in every reachable state the heads returned are, as a multiset, exactly the first ones taken |
| VirtioChain.IdentityIff | src/virtio_blk.c:152-184 | a completion works on the buffers its descriptors name if and only if the request, data and status addresses translate to themselves |
| VirtioChain.IdentityIffMapped | src/virtio_blk.c:152-184 | with a TLB that agrees with the page tables and the descriptors on 4 KiB pages: if and only if the page tables map those addresses to themselves |
| VirtioChain.AnswersByTables | src/virtio_blk.c:152-184 | such a TLB answers the addresses of a whole chain as the page tables do, also while the walk fills it |
| VirtioChain.OffIsIdentity | src/virtio_blk.c:160 | with translation off the addresses are taken as they are and the TLB is left alone |
| VirtioChain.FaultedCompletion | src/virtio_blk.c:149-257 | when every address of the chain faults in turn, a completion clears the first byte of DRAM, moves no block, and still returns its head |
| VirtioChain.UnmappedAllFault | src/virtio_blk.c:160 | they all do when a TLB that agrees with the page tables runs under tables that map none of them |
| VirtioModel.FollowIsOutcome | src/virtio_blk.c:152-184 | the loop over a chain picks its buffers from the answers to its addresses in order: the head's for the request, the last one for the status, the last in between for the data |
| VirtioData.ReadDelivers | src/virtio_blk.c:185-212 | a completed read puts the plain array's block into the buffer its data address translated to and leaves the disk alone |
| VirtioData.WriteStores | src/virtio_blk.c:213-230 | a completed write stores the buffer its data address translated to into its block and changes no other |
| VirtioData.CacheAlongRuns | src/virtio_blk.c:49-61 | the valid cache equals its disk block in every state of a run |
| VirtioDisk.CompleteServes | src/virtio_blk.c:185-230 | a completion changes the disk and delivers a block as the plain array serving its request does |
| VirtioDisk.UpdateServes | src/virtio_blk.c:259-275 | so does an update, for the requests of the operations it completes, in their order |
| VirtioDisk.DiskAlongRuns | src/virtio_blk.c:149-330 | at every point of every run the disk image is the initial one after the requests completed so far, and the blocks delivered to the guest are the answers of the plain array to them |
| VirtioBytes.DescIs | src/virtio_blk.c:157-164 | a descriptor in bytes: the address in 0 to 7, the NEXT flag in bit 0 of byte 12, the next number in 14 and 15, sixteen bytes each |
| VirtioBytes.ChainNames | src/virtio_blk.c:152-182 | with translation off, for a chain of any length, the request buffer is that of the head, the status that of the last descriptor, and the data that of the last one before it, if it is not the head |
| VirtioBytes.CompletionIs | src/virtio_blk.c:149-257 | a completion on bytes, whatever its buffers: the status byte is cleared, then a request of bytes 0,0,0,0 or 1,0,0,0 moves 1024 bytes between the buffer and the image at 512 times the sector in request bytes 8 to 15, any other request or a missing buffer moves nothing, then the head is returned |
| VirtioBytes.ReadOnBytes | src/virtio_blk.c:185-212 | a guest read built of three descriptors leaves the image alone and fills the buffer from it; status 0, used element and index, interrupt |
| VirtioBytes.WriteOnBytes | src/virtio_blk.c:213-230 | a guest write stores the buffer in the image and leaves the rest of the image and the buffer alone; the same for status and used ring |
| VirtioBytes.ReturnIs | src/virtio_blk.c:239-249 | the used ring in bytes: index in 2 and 3, then elements of eight, the head in the first two, 512 in the last four |
| VirtioBytes.StartIs | src/virtio_blk.c:278-328 | one entry: the head in the two bytes of its slot from byte 4 of the available ring on, due 1000 cycles later, the index one further modulo 65536 |
| VirtioBytes.NotifyOnBytes | src/virtio_blk.c:311-330 | a notification takes the entries up to the index in bytes 2 and 3 of the available ring, in order and newest first in the list, and none when the queue is not ready |
| VirtioUnit.BlockDevice.LoadCache | src/virtio_blk.c:49-61 | the cache holds the block; a cached block is not copied again |
| VirtioUnit.BlockDevice.ConsumeUntil | src/virtio_blk.c:316-329 | the 16-bit loop ends and takes every entry up to the index |
| VirtioUnit.BlockDevice.ProcessQueue | src/virtio_blk.c:311-330 | the whole new device state |
| VirtioUnit.BlockDevice.FollowChain | src/virtio_blk.c:152-184 | request, data and status buffers of an ending chain, each address through `get_pa`, and the TLB that leaves |
| VirtioUnit.BlockDevice.Transfer | src/virtio_blk.c:185-232 | guest memory, disk and cache after the byte loops of a request |
| VirtioUnit.BlockDevice.ReturnHead | src/virtio_blk.c:239-249 | the used ring after one more element |
| VirtioUnit.BlockDevice.CompleteDiskOperation | src/virtio_blk.c:149-257 | the whole new device state after a completion, translation and TLB included |
| VirtioUnit.BlockDevice.VirtioDiskUpdate | src/virtio_blk.c:259-275 | removal while iterating completes every due operation of the list and no other |
| PlicModel.WinnerIsUnique | src/plic.c:103-123 | at most one source is eligible and precedes all others by priority, then number |
| PlicModel.UpdateRestoresLine | src/plic.c:159-200 | after an update MEIP is set iff some source is eligible and `current_irq` is what a claim returns |
| PlicModel.LineIsKept | src/plic.c:78-201 | every operation but a priority write keeps that |
| PlicRuns.LineAlongRuns | src/plic.c:18-201 | so does every sequence of operations with priorities fixed |
| PlicRuns.PriorityWriteExact | src/plic.c:260-266 | a priority write keeps it if and only if it concerns no candidate source or leaves the winner the winner |
| PlicRuns.ClaimTakesWinner | src/plic.c:113-134 | a claim removes the winner from the eligible sources and nothing else |
| PlicRuns.DrainOrder | src/plic.c:100-134 | repeated claims return exactly the eligible sources, each once, by falling priority and rising number, then 0 forever |
| PlicRuns.BetweenClaims | src/plic.c:78-156 | between two claims of a source there is a completion of it and, after the last one, a raise of it |
| PlicRuns.ClaimsWithinRaises | src/plic.c:78-134 | over any run the claims of a source never outnumber its raises |
| PlicLaws.WinnerIsFirst | src/plic.c:103-123 | the source a claim returns is the one of 1 to 1022 that is pending, not claimed, enabled and above the threshold, of the highest priority and the lowest number among equals, and 0 iff there is none |
| PlicLaws.LineIsFirst | src/plic.c:187-196 | the line is right iff `current_irq` is that source and MEIP is up exactly when it is not 0 |
| PlicLaws.SetIrqIs | src/plic.c:78-97 | raising or lowering changes the pending bit of its source and no other, and re-evaluates the line iff the source is enabled |
| PlicLaws.ClaimIs | src/plic.c:125-133 | a claim moves that source from pending to claimed and changes nothing else, or nothing at all |
| PlicLaws.CompleteIs | src/plic.c:139-156 | after a completion its source is neither claimed nor pending and every other source is as it was |
| PlicLaws.EnableIs | src/plic.c:18-32 | one enable bit |
| PlicLaws.EnableWordIs | src/plic.c:50-58 | the 32 enable bits of a word are the binary digits of the value; word 31 cannot be written |
| PlicLaws.ThresholdIs | src/plic.c:290-294 | the threshold is the value modulo 8, and the line is re-evaluated |
| PlicLaws.PriorityIs | src/plic.c:260-266 | one priority is the value modulo 8, and nothing else changes, the line included |
| PlicLaws.BitmapIs | src/plic.c:63-75 | source i is bit i modulo 32 of word i / 32 |
| PlicLaws.WritesGoTo | src/plic.c:257-304 | the register map: priorities at 4 i, enable words at 0x2000 + 4 i, threshold at 0x200000, completion at 0x200004 |
| PlicLaws.WritesRead | src/plic.c:257-304 | a register holds what was written, cut to its width, and the other priorities and enable bits are kept |
| PlicLaws.CompletionWritten | src/plic.c:295 | a completion through its register |
| PlicLaws.ReadyIsServed | src/plic.c:100-134 | a source that asks for service is among the answers of 1022 claims in a row |
| PlicLaws.ServedAgain | src/plic.c:78-156 | along every run a source that was completed and later raised, and not claimed, completed or lowered since, asks for service once enabled and above the threshold, and is served |
| PlicUnit.PlicDevice.PlicIsEnabled | src/plic.c:63-75 | the bit of the bitmap as membership, false for invalid sources |
| PlicUnit.PlicDevice.ScanForWinner | src/plic.c:103-123 | the arg-max loop over the bitmaps finds the winner |
| PlicUnit.PlicDevice.PlicUpdate | src/plic.c:159-200 | line, `current_irq` and wake-up follow the winner |
| PlicUnit.PlicDevice.PlicSetIrq | src/plic.c:78-97 | raising or lowering a line, on the bitmaps |
| PlicUnit.PlicDevice.PlicClaim | src/plic.c:100-134 | returns the winner; the new state is that of a claim |
| PlicUnit.PlicDevice.PlicComplete | src/plic.c:139-156 | drops claimed and pending of the source, which is then in neither, and re-evaluates |
| PlicUnit.PlicDevice.PlicSetEnable | src/plic.c:18-32 | changes one enable bit and re-evaluates |
| PlicUnit.PlicDevice.PlicSetEnableWord | src/plic.c:50-60 | replaces exactly 32 enable bits and re-evaluates |
| PlicUnit.PlicDevice.PlicWrite | src/plic.c:257-304 | every MMIO write performs the operation its offset decodes to, or none |
| PlicUnit.PlicDevice.PlicRead | src/plic.c:203-254 | claim reads claim; every other read leaves the state alone; priority, threshold, pending and CPU 0's enable words read back |
| TrapModel.EnterSBits | src/trap.c:43-58 | every bit of sstatus after an S-mode trap entry |
| TrapModel.LeaveSBits | src/instructions.c:2038-2054 | every bit of sstatus after sret |
| TrapModel.EnterMBits | src/trap.c:96-101 | every bit of mstatus after an M-mode trap entry; bits 32 to 63 are cleared |
| TrapModel.LeaveMBits | src/instructions.c:1147-1178 | every bit of mstatus after mret; bits 32 to 63 are cleared |
| TrapModel.EnterMExact | src/trap.c:96-101 | the entry does to mstatus what masks of its own width would do if and only if bits 32 to 63 are clear before |
| TrapModel.LeaveMExact | src/trap.c:123-131 | so does the return |
| TrapModel.AckSoftExact | src/trap.c:228-230 | and the acknowledgement of a software interrupt, for mip |
| TrapModel.DispatchSettles | src/trap.c:137-258 | after a dispatch no interrupt is takeable, for M and S targets |
| TrapModel.DispatchIsIdempotent | src/trap.c:137-258 | running the dispatch twice in a row equals running it once, from every state |
| TrapModel.MretsAgree | src/trap.c:123-135 | `do_mret` and `exec_mret` agree if and only if MPP is not 2 or the hart is already at 2 |
| TrapModel.HandlerStaysInS | src/trap.c:31-112 | S-mode handlers stay in S mode, nested traps into either mode included |
| TrapModel.TrapReturns | src/instructions.c:2016-2054 | for any nesting depth, handlers that write back sepc and sstatus restore an even pc, every sstatus bit but SPP and SPIE, and the privilege iff it was U or S; with an odd pc sret does nothing |
| TrapModel.MretUndoesTrapM | src/instructions.c:1128-1181 | mret undoes an M-mode trap entry: pc, privilege, and every mstatus bit below 32 but MPP and MPIE |
| TrapModel.HandlerKeepsPrivilege | src/trap.c:85-112 | handlers that nest only M-mode traps keep the privilege they run at, at any depth |
| TrapModel.MTrapReturns | src/instructions.c:1128-1181 | for any nesting depth and whatever traps their handlers take, M-mode handlers that write back mepc and mstatus restore the pc, every mstatus bit below 32 but MPP and MPIE, and the privilege, the reserved 2 if only M-mode traps are nested |
| TrapWords.CauseIsWanted | src/trap.c:137-222 | the interrupt chosen, in CSR numbers and bits, for every mode: which of 9, 5 and 1, or 11, 7 and 3, comes first, what delegation and masks it needs, and in M mode that a pending but masked source hides the lower ones |
| TrapWords.TakenIffWanted | src/trap.c:137-258 | the dispatch changes the hart iff an interrupt is so chosen |
| TrapWords.TakenInS | src/trap.c:207-225 | in U mode, and in S mode with SIE: iff (mip 11, mideleg 9, sie 9), (mip 5, sie 5) or (mip 3, mideleg 1, sie 1) are all set |
| TrapWords.TrapSInWords | src/trap.c:31-83 | an S-mode entry: sepc, scause with its top bit, stval, every bit of sstatus, privilege, pc from stvec; no other CSR |
| TrapWords.TrapMInWords | src/trap.c:85-112 | an M-mode entry in the same terms; the privilege stays |
| TrapWords.TrapGoesTo | src/trap.c:115-121 | traps outside of interrupts go to S from U and S, and else to M |
| TrapWords.DispatchInWords | src/trap.c:137-258 | a dispatch acknowledges and enters the chosen interrupt, or leaves the hart as it is |
| TrapWords.HandlerSees | src/trap.c:31-83 | after a dispatch into S scause is 2^63 plus the cause, sepc the old pc, stval 0, the pc that of stvec, with four bytes per cause when vectored |
| TrapWords.DispatchSeen | src/trap.c:137-258 | in short for both targets: cause, interrupted pc and privilege |
| TrapWords.SretInWords | src/instructions.c:2016-2054 | sret in CSR numbers and bits, refusals included |
| TrapWords.MretInWords | src/instructions.c:1128-1181 | mret and `do_mret` in the same terms |
| TrapUnit.TrapHart.TakeSmodeTrap | src/trap.c:31-83 | the whole new hart state |
| TrapUnit.TrapHart.TakeMmodeTrap | src/trap.c:85-112 | the whole new hart state |
| TrapUnit.TrapHart.TakeTrap | src/trap.c:115-121 | the target mode by privilege |
| TrapUnit.TrapHart.ExecSret | src/instructions.c:2016-2054 | the whole new hart state, refusals included |
| TrapUnit.TrapHart.ExecMret | src/instructions.c:1128-1181 | the whole new hart state |
| TrapUnit.TrapHart.DoMretRoutine | src/trap.c:123-135 | the whole new hart state |
| TrapUnit.TrapHart.CheckAndHandleInterrupts | src/trap.c:137-258 | the whole new hart state; takes at most the one interrupt that the CSR bits choose, with its cause, interrupted pc and privilege spelled out, after which none is takeable |
| InstrModel.ImmediatesAgree | src/instructions.c:611-620 | the shift-built immediates of the I and S forms and of beq, bne, bge, bltu and bgeu are the standard's |
| InstrModel.LostBits | src/instructions.c:868-872 | the blt offset is the standard's iff its bits 12 and 11 agree, the jal offset iff bits 20 and 19 agree |
| InstrModel.BranchRoundTrip | src/instructions.c:812-898 | encoding then decoding recovers exactly the even offsets in [-4096, 4094] for beq, bne, bge, bltu and bgeu, and in [-2048, 2046] for blt |
| InstrModel.JumpRoundTrip | src/instructions.c:682-687 | for jal exactly the even offsets in [-2^19, 2^19 - 2] |
| InstrExpand.C0Agrees | src/instructions.c:29-141 | the quadrant 0 handlers read the fields and immediates of the standard's expansion |
| InstrExpand.AluAgrees | src/instructions.c:265-347 | the arithmetic forms do so iff bit 12 is as for c.sub, c.addw, c.or or c.and |
| InstrExpand.C1Agrees | src/instructions.c:148-411 | the quadrant 1 handlers do so iff the encoding is not merged with another |
| InstrExpand.C2Agrees | src/instructions.c:414-587 | the quadrant 2 handlers do so |
| InstrExpand.HandledIsExpansion | src/instructions.c:29-587 | for every 16-bit encoding in scope, what the handler decodes is what the standard's expansion decodes to, iff it is not c.addiw, c.subw or c.xor |
| InstrSteps.CompressedCommutes | src/instructions.c:499-551 | running a compressed instruction equals running its expansion iff a c.jr target is even and a c.jalr does not go through ra (or ra holds the link already) |
| InstrSteps.ImplementationsCommute | src/instructions.c:29-587 | the compressed handler and the base handler of the expansion have the same registers, memory access and pc, apart from the length 2 or 4 in fall-through pc and link |
| InstrSteps.MergedDiffers | src/instructions.c:177-194 | each merged encoding gives a wrong result on some state, unless it is c.subw of a register with itself |
| InstrSteps.SubwOfItselfAgrees | src/instructions.c:325-331 | which gives the right result on every state |
| InstrSteps.PerformedIsDecoded | src/instructions.c:611-960 | a base handler performs the decoded instruction iff it is neither lw nor bge and a jal or blt offset fits |
| InstrSteps.LwExact | src/instructions.c:1245-1258 | lw gives the standard's result iff bit 31 of the word is clear |
| InstrExact.MergedExact | src/instructions.c:177-347 | on a given state c.addiw is right iff the 64-bit sum is the sign extension of its low word, c.subw iff the 64-bit difference is, and c.xor iff the exclusive or is and the low words share no bit below bit 31 |
| InstrExact.WordLoadsAgree | src/instructions.c:59-79 | c.lw and the base handler of its expansion agree iff bit 31 of the word is clear |
| InstrExact.BgeExact | src/instructions.c:812-829 | bge goes where the standard says iff the sign bits of its operands agree, or the target is the next instruction |
| InstrBits.UpBits | src/instructions.c:1352-1369 | bit k of a left shift by n is bit k - n, 0 below n, for all n below 64 |
| InstrBits.DownBits | src/instructions.c:1417-1424 | bit k of a right shift is bit k + n, 0 above |
| InstrBits.SignedBits | src/instructions.c:1425-1429 | bit k of an arithmetic right shift is bit k + n, or bit 63 |
| InstrBits.LogicBits | src/instructions.c:748-760 | bit k of and, or and exclusive or is that connective of the two bits |
| InstrWords.NumberIs | src/instructions.c:1357-1358 | a register field's low five bits as a number, value by value |
| InstrWords.ComputesInto | src/instructions.c:611-627 | an instruction that computes a register writes that register, unless it is 0, adds the length to the pc and changes nothing else |
| InstrWords.SumsComputed | src/instructions.c:611-746 | addi and add are 64-bit sums, lui is its immediate |
| InstrWords.DifferenceComputed | src/instructions.c:777-792 | sub is the 64-bit difference |
| InstrWords.WordsComputed | src/instructions.c:1617-1945 | addiw, addw and subw keep the low word of the sum or difference and fill the upper one with its bit 31 |
| InstrWords.LogicComputed | src/instructions.c:1437-1524 | andi, and, or and xor bit by bit |
| InstrWords.SlliComputed | src/instructions.c:1352-1369 | slli bit by bit |
| InstrWords.SrliComputed | src/instructions.c:1417-1424 | srli bit by bit |
| InstrWords.SraiComputed | src/instructions.c:1425-1429 | srai bit by bit |
| InstrWords.JalJumps | src/instructions.c:674-698 | jal: pc plus the offset, link pc plus the length |
| InstrWords.JalrJumps | src/instructions.c:700-728 | jalr: register plus immediate with bit 0 cleared, and the link |
| InstrWords.BranchesGo | src/instructions.c:812-961 | a branch moves the pc by its offset or by its length and changes nothing else |
| InstrWords.EqualTaken | src/instructions.c:908-961 | beq and bne compare for equality |
| InstrWords.UnsignedTaken | src/instructions.c:831-906 | bltu and bgeu compare unsigned |
| InstrWords.SignedTaken | src/instructions.c:864-880 | blt, and bge as the standard has it, compare by the sign bits first |
| InstrWords.LwFetches | src/instructions.c:59-79 | a word load: four bytes at register plus offset, sign-extended |
| InstrWords.LwuFetches | src/instructions.c:1266-1350 | lwu: zero-extended |
| InstrWords.LdFetches | src/instructions.c:1266-1318 | ld: eight bytes |
| InstrWords.SwDeposits | src/instructions.c:1025-1100 | sw: the low word, four bytes at register plus offset |
| InstrWords.SdDeposits | src/instructions.c:1025-1100 | sd: the register, eight bytes |
| InstrFields.BaseImmediates | src/instructions.c:611-960 | for each bit of the I, S, B and J immediates the bit of the word it is |
| InstrFields.ShortOffsets | src/instructions.c:682-872 | the same for the offsets jal and blt compute, whose sign is bit 19 and bit 7 of the word |
| InstrFields.CompressedSigned | src/instructions.c:148-411 | the same for the signed immediates of the compressed forms |
| InstrFields.CompressedUnsigned | src/instructions.c:29-587 | the same for the unsigned ones |
| InstrMap.ImmediateForms | src/decode.c:20-98 | opcode 0x13: addi, andi, slli, srli, srai by funct3 and top bits, with their register fields |
| InstrMap.RegisterForms | src/decode.c:33-46 | opcode 0x33: add, sub, xor, or, and |
| InstrMap.WordForms | src/instructions.c:1617-1945 | opcodes 0x1B and 0x3B: addiw, addw, subw |
| InstrMap.UpperAndJumpForms | src/decode.c:86-98 | opcodes 0x37, 0x6F and 0x67: lui, jal, jalr |
| InstrMap.BranchForms | src/decode.c:78-98 | opcode 0x63: the six branches |
| InstrMap.MemoryForms | src/instructions.c:1025-1350 | opcodes 0x03 and 0x23: lw, ld, lwu, sw, sd |
| InstrMap.JalPerformed | src/instructions.c:674-698 | what runs for jal: the shortened offset |
| InstrMap.BranchesPerformed | src/instructions.c:812-880 | what runs for the branches: the shortened offset for blt, bgeu for bge |
| InstrMap.LwPerformed | src/instructions.c:1245-1258 | what runs for lw: lwu |
| InstrMap.Quadrant0 | src/instructions.c:29-141 | quadrant 0 by funct3, registers 8 to 15 from three-bit fields |
| InstrMap.Quadrant1 | src/instructions.c:148-411 | quadrant 1 by funct3, c.addiw as an addi |
| InstrMap.ArithmeticForms | src/instructions.c:265-347 | its arithmetic forms by bits 10, 11, 5 and 6 |
| InstrMap.Quadrant2 | src/instructions.c:414-587 | quadrant 2 by funct3 and bit 12 |
| InstrMap.RegisterJumps | src/instructions.c:499-528 | c.jr takes its target as it is; c.jalr first writes pc + 2 into ra, then reads its register and clears bit 0 |
| InstrUnit.Hart.CAddi4spn | src/instructions.c:40-58 | the expansion's effect; with immediate 0 only the pc moves |
| InstrUnit.Hart.CLoad | src/instructions.c:59-79 | c.lw and c.ld: address asked for, register, pc |
| InstrUnit.Hart.CStore | src/instructions.c:80-115 | c.sw and c.sd: address and value asked for, pc |
| InstrUnit.Hart.CImmediate | src/instructions.c:158-176 | c.addi and c.li |
| InstrUnit.Hart.CAddiw | src/instructions.c:177-209 | c.addiw without truncation; for rd = 0 the RV32 c.jal |
| InstrUnit.Hart.CUpper | src/instructions.c:227-264 | c.lui and c.addi16sp |
| InstrUnit.Hart.CShift | src/instructions.c:265-308 | c.srli, c.srai and c.andi, the result bit by bit |
| InstrUnit.Hart.CLogic | src/instructions.c:309-324 | c.and and c.or, the result bit by bit |
| InstrUnit.Hart.CArith | src/instructions.c:325-347 | c.sub and c.addw |
| InstrUnit.Hart.CJumpAhead | src/instructions.c:349-365 | c.j |
| InstrUnit.Hart.CBeqz | src/instructions.c:388-406 | c.beqz |
| InstrUnit.Hart.CBnez | src/instructions.c:366-387 | c.bnez |
| InstrUnit.Hart.CSlli | src/instructions.c:423-439 | c.slli, the result bit by bit |
| InstrUnit.Hart.CLdspInto | src/instructions.c:457-480 | c.ldsp with rd != 0 |
| InstrUnit.Hart.CStoreSp | src/instructions.c:554-583 | c.swsp and c.sdsp |
| InstrUnit.Hart.CMove | src/instructions.c:529-550 | c.mv and c.add; with rs1 = 0 nothing changes, the pc included |
| InstrUnit.Hart.CRegisterJump | src/instructions.c:499-528 | c.jr and c.jalr as the code has them; with rs1 = 0 the first does nothing and the second writes the link and stays |
| InstrUnit.Hart.ExecC0 | src/instructions.c:29-141 | the whole effect on pc, registers and memory request, register 0 kept 0; where there is no expansion, that of a zero immediate or none |
| InstrUnit.Hart.ExecC1 | src/instructions.c:148-411 | the same for every encoding of quadrant 1, the RV32 c.jal included |
| InstrUnit.Hart.ExecC2 | src/instructions.c:414-587 | the same for quadrant 2, when the encoding has an expansion |
| InstrUnit.Hart.ExecAddi | src/instructions.c:611-627 | addi as the standard executes it, a 64-bit sum |
| InstrUnit.Hart.ExecAndi | src/instructions.c:1503-1524 | andi, the result bit by bit |
| InstrUnit.Hart.ExecAddiw | src/instructions.c:1617-1636 | addiw |
| InstrUnit.Hart.ExecSlli | src/instructions.c:1352-1369 | slli, the result bit by bit for all 64 amounts |
| InstrUnit.Hart.ExecSi | src/instructions.c:1408-1435 | srli and srai, the results bit by bit; other encodings only move the pc |
| InstrUnit.Hart.ExecLui | src/instructions.c:630-648 | lui |
| InstrUnit.Hart.ExecAdd | src/instructions.c:731-746 | add, a 64-bit sum |
| InstrUnit.Hart.ExecSub | src/instructions.c:777-792 | sub, a 64-bit difference |
| InstrUnit.Hart.ExecXor | src/instructions.c:748-760 | xor, the result bit by bit |
| InstrUnit.Hart.ExecAnd | src/instructions.c:1437-1453 | and, the result bit by bit; register 0 is cleared again |
| InstrUnit.Hart.ExecOr | src/instructions.c:1455-1475 | or, the result bit by bit; register 0 is cleared again |
| InstrUnit.Hart.ExecAddw | src/instructions.c:1927-1936 | addw |
| InstrUnit.Hart.ExecSubw | src/instructions.c:1937-1945 | subw |
| InstrUnit.Hart.ExecJal | src/instructions.c:674-698 | jal, with the shortened offset |
| InstrUnit.Hart.ExecJalr | src/instructions.c:700-728 | jalr; the target is read before the link is written |
| InstrUnit.Hart.ExecBeq | src/instructions.c:935-961 | beq |
| InstrUnit.Hart.ExecBne | src/instructions.c:908-933 | bne |
| InstrUnit.Hart.ExecBltu | src/instructions.c:882-906 | bltu |
| InstrUnit.Hart.ExecBgeu | src/instructions.c:831-862 | bgeu |
| InstrUnit.Hart.ExecBge | src/instructions.c:812-829 | bge, which compares as bgeu does |
| InstrUnit.Hart.ExecBlt | src/instructions.c:864-880 | blt, with the shortened offset |
| InstrUnit.Hart.ExecLoad | src/instructions.c:1266-1350 | ld, lwu, and lw as the code has it |
| InstrUnit.Hart.ExecStore | src/instructions.c:1025-1100 | sd and sw |
| InstrUnit.Hart.HandleOpcode | src/decode.c:107-123 | dispatch: a base word does what `Performed` says, a compressed one what `Compressed` says |

## Left out

- UART, ELF loading, device tree, disk image files, CLINT, logging and the main loop: input and output only.
- AMO, CSR, multiply and divide, floating-point moves, fence, wfi, auipc, slt forms, ori, xori, byte and halfword accesses, sraiw and its kin: they would add members of kinds already here or are known to depart from the standard.
- c.lwsp, c.ebreak and the floating-point compressed forms, and rd = 0 of c.ldsp, c.mv and c.add: InstrUnit.Hart.ExecC2 promises nothing for them.
- InstrUnit.Hart.ExecLoad: only the widths of lw, lwu and ld; what the bus answers is a parameter, and a page fault in the same instruction is modelled in `MmuUnit.Mmu.Ld` instead.
- InstrUnit.Hart.ExecStore: only the widths of sw and sd; a store is recorded as a request, its translation and bytes are those of `MmuUnit.Mmu.Sd`.
- InstrUnit.Hart.HandleOpcode: base words outside the modelled instructions are not accepted, and the check for the all-zero word is not part of it.
- Timestamps, cycle counts and addresses are unbounded: their wrap at 64 bits is not modelled.
- Memory.Ram.BusRead: device regions and addresses that no region answers read as 0; the code's answer to the latter is undefined.
- Memory.Ram.BusWrite: writes to devices are not part of it, nor is the halt of hart 0 on an address that no region answers (src/bus.c:70).
- MmuUnit.Mmu.Sd: the halt that follows a fault or an unmapped address through the bus, and the pc, are left out.
- MmuUnit.Mmu.Ld: device reads give 0; the register write and the pc are those of `InstrUnit.Hart.ExecLoad`.
- The two PPN masks of the walk are read as 44 bits; page tables and rings are read as DRAM, so reads of other regions give 0 and have no side effect.
- MmuUnit.Mmu.GetPa: the privilege-dependent trap that follows a recorded fault is not taken here; the ASID, MXR and SUM are fixed for a TLB, as nothing in the code changes them.
- The instruction and data TLBs that sfence.vma also empties are unused by translation and not part of this model; `map_vaddr_to_paddr`, `init_page_table` and the 32-bit helpers are Sv32 leftovers.
- VirtioUnit.BlockDevice.FollowChain: only chains that end; the code does not return from a cyclic one.
- VirtioUnit.BlockDevice.CompleteDiskOperation: a transfer must name an even sector with its block inside the image, as the code otherwise runs past the cache block or the image.
- VirtioUnit.BlockDevice.Transfer: for the same sectors only.
- VirtioUnit.BlockDevice.VirtioDiskUpdate: for lists whose due operations are all of that kind.
- VirtioUnit.BlockDevice.ConsumeUntil: the request header is read when an operation starts, but what it says is never used and not kept; that such a read can halt the hart is in the methods' frames and not in their contracts, here and in VirtioUnit.BlockDevice.ProcessQueue.
- VirtioRuns.ExactlyOnce: the driver keeps at most queueNum requests outstanding; what completes is serviceable and writes off the rings, through whatever translation, and so do other guest writes.
- The block device's MMIO registers and its interrupt line towards the PLIC, except for the flag it raises.
- PlicUnit.PlicDevice.PlicRead: only CPU 0's side; enable words of other CPUs read as 0. The affinity set-up is not part of this model.
- PlicUnit.PlicDevice.PlicUpdate: of mip only MEIP is part of the state; that clearing it also clears bits 32 to 63 is not, here and in PlicUnit.PlicDevice.PlicComplete.
- PlicUnit.PlicDevice.PlicWrite: writes to the enable words of other CPUs are ignored.
- TrapUnit.TrapHart.TakeMmodeTrap: the top bit of mcause comes from an out-of-range shift, so its value is a parameter.
- TrapModel.TrapReturns: delegated interrupts taken from M mode return to U or S, which the lemma states as the privilege not being restored.
