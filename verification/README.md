# A verified model of the Mugo microkernel

Mugo is a small i686 microkernel. This project models its stateful core in Dafny and proves what
that core keeps over every call and every run:

- **Paging** (`Paging`, `Mmap`, `AddressSpace`, `MmapRuns`, `Accounting`): two-level page tables, the
  bootstrap frame allocator and `bootstrap_mmap`. Physical memory is a sequence of frames, each a
  table of 1024 entries or 4096 bytes of data; translation is the page walk of 32-bit paging (Intel
  SDM volume 3A, sections 4.3 and 4.6). The class `Mmap.Machine` holds the two loops of the source, in
  two builds: with DEBUG the assertions stop the kernel, without it they are gone and the region's
  64-bit numbers wrap around. In either build a call completes with frames of the region exactly when
  it is `Admissible` and is then one update of a flat map from virtual page to (frame, rights); it
  runs out of frames exactly when it is `Strapped`, and else it stops at the assertion on its size or
  faults. A `Purse` (region length, directory slots with a table, and the build) is all that whole
  sequences of calls depend on, so that their outcomes are computed beforehand.
- **Its callers** (`Window`, `KernelMap`, `InitMap`, `UserMemory`, `ElfLoad`, `ElfFormat`,
  `BootModules`): the kernel address space built by `kmem_map_kernel_memory`, the template directory
  of `bootstrap_identity_map_init_mem`, the ELF loader with its byte copy through the page tables,
  and the loop over all boot modules with address-space isolation.
- **Early boot** (`Packing`, `EarlyBoot`, `BootMemory`): the walk over the Multiboot2 tags (section
  3.6 of the Multiboot2 Specification), the overlapping forward copies that pack the modules, and the
  conservation of physical memory.
- **The whole boot** (`Boot`, `Bootstrap`, `Multitasking`): the phases composed over one memory, in
  either build. `Bootstrap.Run` goes from the tags to processes. `Boot.ProgramsLoaded` follows every
  byte of every segment from where the boot loader had put it to the program's address space, and
  says what the processor sees there, in the fields of the program headers; all other pages are as in
  the template, which `Boot.TemplateIsSeen` gives page by page. `Boot.EveryFrameOnce` says that no
  frame is used twice, those of the kernel's image and of the packed modules included, and
  `Boot.EveryFrameClear` that frames taken from the region lie clear of the kernel and the modules.
  `Multitasking.RunningProgram` adds the scheduler: after any number of ticks the program whose turn
  it is sees its own file. `BootExample` is one concrete boot, of a program with code and data, that
  meets all their demands.
- **The slab allocator** (`SlabModel`, `SlabAddress`, `Kmalloc`, `SlabStores`): `Kmalloc.Allocator`
  works on page headers and index chains as the source does and refines the sequences of `SlabModel`;
  `SlabStores` adds the stores of clients, by address.
- **The scheduler** (`Ring`, `Scheduler`, `SchedModel`, `SchedRuns`, `SchedClosedForm`, `Threads`):
  `Ring` is the pointer surgery of `kern/list.h` on heap objects, `Scheduler.RoundRobin` the code on
  sixteen such rings, `SchedModel` the state machine it refines, and the other modules prove
  properties of whole runs of ticks.
- **Number formatting** (`Format`): `itoa`, `xtoa` and the width parse of `vsprintf_s`.

`Arith` and `Seqs` hold what several modules share. `dafny verify dfyconfig.toml` checks the whole
project.

What the code does where it does not do what it seems meant to do is stated as it is, each time with
the exact condition:

- The preallocation of `bootstrap_mmap` covers the slots of a range if and only if `Paging.Fits`
  holds of its arguments; otherwise it misses exactly the last slot (`PreallocationExact`). A call
  whose missed slot has no table either runs out of frames before it gets there (`Strapped`) or faults
  (`MmapCorrect`); `MissFaults` gives a small machine on which it faults.
- Without DEBUG nothing stops `bootstrap_fetch_page`. A mapping call then hands out a frame from behind
  the region if and only if it is `Strapped` (`MmapCorrect`), and memory is conserved if and only if
  the region holds all the frames that the call needs (`ConservedExactly`, `PaysConserves`).
  `DirectoryGivenAway` is a small machine on which a program gets its own page directory, writable.
  With DEBUG a mapping of a partial page stops the kernel, so that an ELF segment whose memory size is
  no whole number of pages does not load (`Accounting.Enough`).
- `fetch_object` prepares a page that it does not store in the bag. `FetchOutcome` says exactly when
  a page is lost and exactly when the next allocation dereferences a null page; `DrainFaults` shows
  the run that gets there for every class that `kmalloc` can select.
- `init_page` makes one slot too many unless the size divides 4088 (`AllInsideIff`). Live objects
  still share no byte (`LiveDisjoint`), but a client's store through the last one destroys the next
  page's header: stores are harmless if and only if the object ends inside its page or the next page
  is not the allocator's (`StoresHarmlessIff`).
- `kmalloc` computes an index behind its array of bags for every size from 4 to 512 that is not a
  power of two up to 256 (`ClassIndexServes`).
- The window of `bootstrap_map_boot_modules` reaches every module if and only if all modules end
  within the first four megabytes (`WindowReachesIff`, `HighModuleWraps`).
- A forward copy delivers its block if and only if it goes down or the block is periodic at the
  distance of the move, as a block that does not overlap is (`ArrivesIff`). `WalkLoses` is a module
  tag whose module is lost.
- The region adjustment of `early_main` keeps the upper end of the first region if and only if the
  region starts at or below the kernel end and reaches the end of the packed modules (`Spans`), or
  starts so near the top of the 64-bit space that two wrap-arounds cancel (`WrapsBack`):
  `UpperEndKept`. `UpperEndLost` starts above the kernel; in `ShortRegionWraps` memory ends before the
  modules do, and nearly the whole 64-bit space counts as free afterwards.
- The template sets nine pages and the module's size aside for each module. Frames that the module
  loop takes behind that are not reached at their own addresses: `FramesReached` says exactly when
  all are.
- `rr_move_to_ready` does not recharge the quantum, which gives `ClosedForm` its two phases.
- The guard page is mapped with physical address 0, which is PAGE_ALLOCATE, so it consumes a frame.

## Model

| member | source | states |
|---|---|---|
| `Paging.EntryRoundTrip` | arch/i686/include/arch_paging.h:10-23 | an entry is its 32-bit word: the frame from bit 12 on, bit 0 present, bit 1 writable, bit 2 user; decoding undoes encoding, and only the empty entry is the zero word that the code tests for |
| `Paging.SetEntryFlat` | arch/i686/paging_utils.c:187-199 | writing one table entry changes exactly one page of the flat view, because no two slots share a table |
| `Paging.NewTableFlat` | arch/i686/paging_utils.c:175-185 | hanging a zeroed table under an empty slot keeps the directory well formed and leaves the flat view of every page as it was |
| `Paging.PreallocationExact` | arch/i686/paging_utils.c:169-173 | the slots counted cover the range if and only if `Fits`; otherwise only the last one is missed; at most two too many are counted |
| `Paging.PreallocationMiss` | arch/i686/paging_utils.c:171-172 | two pages across a table boundary whose first table exists: one slot counted, two needed |
| `Mmap.Rights` | arch/i686/paging_utils.c:152-164 | a page is present exactly if read or write is asked for, writable exactly if write is, open to the user exactly if it is present and the user bit is asked for |
| `Mmap.PreallocCorrect` | arch/i686/paging_utils.c:175-185 | in either build the first loop completes with frames of the region exactly if the slots exist and frames last, takes one frame an absent slot and changes no page of the flat view |
| `Mmap.MapFlat` | arch/i686/paging_utils.c:187-199 | after k pages the first k entries have their old frame, the linear frame or a frame of their own, with the computed rights, and no other page has changed |
| `Mmap.MapOutcome` | arch/i686/paging_utils.c:187-199 | the second loop completes with frames of the region exactly if every page has its table and the frames last |
| `Mmap.PreallocOutcome` | arch/i686/paging_utils.c:169-185 | how the first loop ends: out of frames, past the directory if the frames last that far, or done |
| `Mmap.MmapCorrect` | arch/i686/paging_utils.c:145-205 | for both builds: the call completes with frames of the region exactly on the `Admissible` requests, and is then one flat update that keeps the directory well formed; exactly on the `Strapped` ones the assertion stops it or, without the assertion, a frame from behind the region is handed out; the assertion on the size stops exactly partial pages in a DEBUG build; all others fault |
| `Mmap.ConservedExactly` | arch/i686/paging_utils.c:38-46 | in either build a call completes and the region keeps its upper end, in 64-bit arithmetic, if and only if it is admissible |
| `Mmap.BuildsAgree` | kern/assert.h:6-29 | a call that completes with assertions has the same effect without them |
| `Mmap.DirectoryGivenAway` | arch/i686/paging_utils.c:38-46 | without the assertion a program that maps two pages when one frame is left gets its own directory as the second, writable in user mode |
| `Mmap.MissFaults` | arch/i686/paging_utils.c:171-199 | in either build: a ready machine, not short of frames, and a request of two pages whose second page is written through a table that was never made |
| `Mmap.Machine.FetchPage` | arch/i686/paging_utils.c:38-46 | hands out the address of the region cut to 32 bits, and moves the region up by 4096 bytes in 64-bit arithmetic; stops exactly in a DEBUG build with at most 4096 bytes left |
| `Mmap.Machine.Preallocate` | arch/i686/paging_utils.c:175-185 | the loop as written computes `PreallocSlots` |
| `Mmap.Machine.MapRange` | arch/i686/paging_utils.c:187-199 | the loop as written, with its cached table, computes `MapPages` |
| `Mmap.Machine.Mmap` | arch/i686/paging_utils.c:145-205 | computes `MmapResult`: ends as just told, in either build; when done, every page of the range has its old, linear or fresh frame with exactly the rights asked for, every other page translates as before, only tables are written, and the region keeps its end |
| `AddressSpace.WalkAfter` | arch/i686/paging_utils.c:187-205 | what the processor sees after a call, inside and outside the range |
| `AddressSpace.FreshFramesDistinct` | arch/i686/paging_utils.c:197-199 | pages that one call allocates get pairwise different frames |
| `AddressSpace.DataKept` | arch/i686/paging_utils.c:175-199 | a call changes no data frame outside the new tables |
| `AddressSpace.MmapGrows` | arch/i686/paging_utils.c:145-222 | sequences of user mappings only grow an address space: old pages keep frames, new pages get private ones, nothing else in memory moves |
| `AddressSpace.RemapAdmissible` | lib/libelf/elf.c:114-118 | mapping a range a second time always completes |
| `MmapRuns.LastCallDecides` | arch/i686/paging_utils.c:145-236 | over every run of calls the rights of a page are those of the last call that covered it |
| `MmapRuns.MakerDecides` | arch/i686/paging_utils.c:175-185 | the rights of a slot are for ever those given by the one call that made its table |
| `MmapRuns.UserBitOverRuns` | arch/i686/paging_utils.c:152-222 | over every mixed run of kernel and user calls from tables without a user bit, a page is open to user mode if and only if a non-kernel call made its table and the last call over it asked for the user bit |
| `MmapRuns.UserPagesAreUserMapped` | arch/i686/paging_utils.c:207-236 | if only user loaders ask for the user bit, every page open to user mode was mapped with it through a non-kernel exec_info |
| `MmapRuns.OwnCallDecides` | arch/i686/paging_utils.c:233-236 | in a run of disjoint calls each page ends with what its own call gave it |
| `MmapRuns.RunWrites` | arch/i686/paging_utils.c:145-205 | a run of calls from some slot on writes the directory, the tables it found from that slot on, and frames it took, and nothing else |
| `Accounting.PaysExactly` | arch/i686/paging_utils.c:169-199 | whether a call completes depends only on the length of the region, the slots that have a table and the number of pages without a frame |
| `Accounting.PaysConserves` | arch/i686/paging_utils.c:38-46 | in either build a call completes with memory conserved if and only if the purse can pay for it |
| `Accounting.PaysFor` | arch/i686/paging_utils.c:169-199 | and what is left afterwards is what the purse has left |
| `Accounting.OneTablePays` | arch/i686/paging_utils.c:169-199 | a range inside one table, in whole pages if that is asserted, costs its pages and at most one table, and only frames can run out |
| `BootMemory.HandoverRegion` | arch/i686/early.c:266-270 | every frame of the region left by the boot code lies behind the kernel and all modules and inside the usable region |
| `BootMemory.MemoryConserved` | arch/i686/paging_utils.c:38-51 | over every sequence of operations that only advance the region (fetches, mappings on any directory, directory creations, kernel mapping, module loads) it keeps its upper end, and each frame taken is taken once and lies in neither the kernel nor a module |
| `Window.BuildWindow` | arch/i686/paging_utils.c:121-141 | for modules anywhere: a fault exactly if one runs past the table, and else each entry is that of the last module over it, or of the first megabyte |
| `Window.WindowReachesIff` | arch/i686/paging_utils.c:134-141 | every page of every module is reached at its own address if and only if all modules end within the first four megabytes |
| `Window.HighModuleWraps` | arch/i686/paging_utils.c:134-141 | a module at four megabytes is mapped over address zero |
| `KernelMap.MapBootModules` | arch/i686/paging_utils.c:116-143 | installs the window and the kernel table, and writes two frames only |
| `KernelMap.KernelSpaceHolds` | kern/kmem.c:87-143 | composing the nine calls gives every page its linear or allocated frame, frames of the guard page and the heap all different and taken on the way, leaves the window alone, makes tables that are closed to user mode and writes nothing but the directory, the kernel's table and frames taken |
| `KernelMap.SectionsLinear` | kern/kmem.c:87-133 | every page of a kernel section translates to its address minus K_HIGH_VMA, never for user mode |
| `KernelMap.KernelIsSeen` | kern/kmem.c:99-143 | what the processor sees of the finished kernel, page by page: text and read-only data cannot be written, tables, data, bss and stack can, the guard page is not present, the page behind the stack is the console at 0xB8000, and 4096 heap pages are writable with pairwise different frames taken on the way; nothing of it is open to user mode |
| `KernelMap.ImageFrame` | kern/kmem.c:87-136 | every page of the image, the stack and the console is mapped to its own frame |
| `KernelMap.GuardAbsent` | kern/kmem.c:122-126 | the page below the stack is not present |
| `KernelMap.SnugKernel` | kern/kmem.c:87-143 | for an image that ends inside the kernel's table the nine calls complete if and only if the region holds 4101 frames, with a byte to spare in a DEBUG build, and take exactly 4101 |
| `KernelMap.MapKernelMemory` | kern/kmem.c:75-144 | completes if and only if the window holds all modules and the purse pays for the nine calls; then the processor sees the kernel as just told, the region has only lost frames at its start, and the purse says how many |
| `InitMap.IdentityMapInit` | arch/i686/paging_utils.c:72-114 | the template is a copy of the kernel's directory with one more slot, in which exactly the pages from the start of the region on, nine for each module and its whole pages, are mapped to themselves, writable and closed to user mode; a fault exactly if the table is too short for them |
| `InitMap.SharesArePages` | arch/i686/paging_utils.c:78-89 | what the loop over the modules adds up is nine pages for each and its whole pages |
| `InitMap.TemplateReady` | arch/i686/paging_utils.c:72-114 | where its slot was free the template is well formed and maps the pages of all other slots as the kernel does |
| `UserMemory.StoreKeepsPages` | lib/stdlib/stdlib.c:204-218 | a byte store through the page tables changes that byte and no translation |
| `UserMemory.CopyStep` | lib/stdlib/stdlib.c:204-218 | one more byte copied leaves the bytes copied before and the source as they were |
| `UserMemory.CopyDelivers` | lib/stdlib/stdlib.c:204-218 | where source and target frames are apart every byte arrives and nothing else changes |
| `UserMemory.Memcpy` | lib/stdlib/stdlib.c:204-218 | for any mapped ranges, overlapping or not: the forward byte copy, each store to a page writable at that moment, no translation changed |
| `ElfFormat.ElfCtxCreate` | lib/libelf/elf.c:19-82 | a context is created exactly for 32-bit little-endian i386 images of version 1 and type 1 or 2, byte by byte, with the entry point and the program headers of the file; any other image gets the error of the first check it fails |
| `ElfFormat.CreateFromPrefix` | lib/libelf/elf.c:55-82 | bytes behind the headers do not matter, as in the rest of a packed module's last page |
| `ElfFormat.ReadsBack` | lib/libelf/elf.c:19-82 | round trip: for any entry point and any program headers, written word by word behind a gap of any length and with anything behind them, the context read has that entry point and those headers |
| `ElfLoad.SecondMapping` | lib/libelf/elf.c:114-119 | the second mapping of a segment takes no frame, changes no frame and sets the rights of the header |
| `ElfLoad.SegmentStepHolds` | lib/libelf/elf.c:113-119 | mapping, copying and mapping again puts the segment in place and keeps every other page and its bytes |
| `ElfLoad.ProgressStep` | lib/libelf/elf.c:95-120 | loading one segment keeps the segments loaded before, the file and the room for the ones to come |
| `ElfLoad.LoadSegment` | lib/libelf/elf.c:113-119 | completes if and only if its first mapping is admissible, and costs exactly what that costs |
| `ElfLoad.LoadHeader` | lib/libelf/elf.c:95-120 | one turn of the loop: rejects exactly the headers of type 1 whose file size exceeds their memory size, skips those without contents, loads the others |
| `ElfLoad.MapStack` | lib/libelf/elf.c:122-129 | the stack is mapped for user reads and writes and every segment stays loaded |
| `ElfLoad.ElfCtxLoad` | lib/libelf/elf.c:84-130 | in either build: how a load ends is computed beforehand by `Forecast`, in the order of the headers: loaded, bad size (only if some header of type 1 has a file size above its memory size), or short of tables, frames or whole pages; after a load every byte of every segment reads its file byte, with the rights of its header, and no page outside the segments and the stack has changed |
| `ElfLoad.BudgetSuffices` | lib/libelf/elf.c:84-130 | an image whose headers of type 1 have a file size up to their memory size and whose segments stay inside single tables (and, in a DEBUG build, are whole pages) loads whenever the region holds its pages, a table each and seven frames for the stack |
| `BootModules.CreateDirectory` | kern/main.c:54-68 | a directory of its own that translates every page as the template does; fails exactly when the region does not hold one more frame, with a byte to spare in a DEBUG build |
| `BootModules.LoadModule` | kern/main.c:46-95 | a fresh directory copied from the template, the image in it, and a thread at the entry point with zero registers; nothing outside the frames taken changes; succeeds if and only if `ModuleForecast` says so |
| `BootModules.LoadBootModules` | kern/main.c:31-97 | returns the states around the loads and a process a module; boots with frames of the region alone if and only if `BootForecast` of the template's purse and the files says so, with what is left |
| `BootModules.BootBudgetSuffices` | kern/main.c:31-97 | supported compact images with no file size above the memory size, and in a DEBUG build of whole pages, boot whenever the region holds their budgets |
| `BootModules.ModuleKept` | kern/main.c:46-96 | loading a later module changes neither the translations nor the bytes of an earlier one |
| `BootModules.Isolation` | kern/main.c:46-96 | two modules own no directory, private table or page frame in common |
| `BootModules.ModuleStays` | kern/main.c:46-96 | after any number of later loads a module is as it was right after its own |
| `BootModules.TranslationsKept` | kern/main.c:46-96 | for all i < j: every page of module i is translated after load j as it was right after load i |
| `BootModules.PrivateBytesKept` | kern/main.c:46-96 | and every byte of its own pages, code, data and stack, is the same |
| `BootModules.SegmentTranslated` | lib/libelf/elf.c:113-119 | the processor sees a segment with exactly the rights of its header, in user mode |
| `SlabModel.FetchOutcome` | kern/kmalloc.c:107-140 | exactly when an allocation dereferences a null page, exactly when it panics, and exactly when it loses a page |
| `SlabModel.FetchKeeps` | kern/kmalloc.c:107-140 | the slot handed out was not live, is in range and of the class; every linked page is on exactly one list, on the full one exactly if it has no free slot |
| `SlabModel.FreeKeeps` | kern/kmalloc.c:180-212 | freeing a live object makes exactly its slot free and keeps the invariant |
| `SlabModel.RunKeeps` | kern/kmalloc.c:62-212 | over every run of allocations and valid releases the slots of each page split exactly into its freelist and its live objects, no pool page is lost or gained, and no live slot is handed out again |
| `SlabModel.PoolShrinks` | kern/kmalloc.c:49-60 | over every run the pool of a later state is a suffix of the earlier one |
| `SlabModel.FetchedOnce` | kern/kmalloc.c:49-60 | a page once taken from the pool is never in it again |
| `SlabModel.DrainFaults` | kern/kmalloc.c:117-140 | from a fresh class that `kmalloc` can select, as many allocations as a page has slots succeed and the next one faults although the pool had pages |
| `SlabModel.DrainOrder` | kern/kmalloc.c:62-140 | before that the slots of the first page of the pool are handed out in order |
| `SlabModel.ReleasedComesNext` | kern/kmalloc.c:107-212 | the object released last is handed out next, if its page heads the free pages of its class or was full, and the allocation undoes the release unless the page was full; exactly a full page that was the last with the pool empty ends in the panic instead |
| `SlabAddress.AddressRoundTrip` | kern/kmalloc.c:73-88 | masking the address of a slot gives its header and the division its number |
| `SlabAddress.InsideIff` | kern/kmalloc.c:31-31 | an object stays inside its page exactly if its number is below OBJS_PER_PAGE |
| `SlabAddress.AllInsideIff` | kern/kmalloc.c:62-71 | all slots made stay inside the page if and only if the size divides 4088 |
| `SlabAddress.EndsAtHeader` | kern/kmalloc.c:62-79 | an object ends at most at the end of the next page's header, and reaches into it exactly if it is the spilled last one |
| `SlabAddress.DisjointBytes` | kern/kmalloc.c:73-79 | different objects of any sizes from four on share no byte, the spilled last one of a page included |
| `SlabAddress.LiveDisjoint` | kern/kmalloc.c:62-88 | all live objects have disjoint bytes |
| `SlabAddress.LastSlotSpills` | kern/kmalloc.c:62-71 | the last 16-byte slot reaches into the header of the next page |
| `Kmalloc.Allocator.constructor` | kern/kmalloc.c:142-157 | the page list visits every page of the pool exactly once, in order |
| `Kmalloc.InitPage` | kern/kmalloc.c:62-71 | for sizes from four on, where the stores are apart, the links visit every slot that starts inside the page and end in the sentinel |
| `Kmalloc.Allocator.FetchPage` | kern/kmalloc.c:49-60 | takes the first page of the pool list, if there is one, and the rest of the list stays linked |
| `Kmalloc.Allocator.DequeueFrom` | kern/kmalloc.c:73-79 | pops the head of the chain stored in the slots and returns its address |
| `Kmalloc.Allocator.EnqueueTo` | kern/kmalloc.c:81-88 | pushes the slot onto the chain |
| `Kmalloc.Allocator.InitializeBag` | kern/kmalloc.c:90-105 | an empty class gets one fresh page, all of it free |
| `Kmalloc.Allocator.Fetch` | kern/kmalloc.c:107-140 | refines `FetchObject` on the linked headers: result, address, new state and both failures |
| `Kmalloc.ClassIndexServes` | kern/kmalloc.c:165-171 | the class computed for a size is one of the nine exactly for the powers of two from 4 to 256, and then the right one |
| `Kmalloc.Allocator.Kmalloc` | kern/kmalloc.c:159-176 | for every size: null outside 4 to 512, the object of its class for the powers of two served, and an index behind the bags for all others |
| `Kmalloc.Allocator.FindBefore` | kern/kmalloc.c:190-196 | the search along the full list ends, at the page before the one looked for |
| `Kmalloc.Allocator.Kfree` | kern/kmalloc.c:180-212 | for a live object, refines `Free` and makes exactly that object dead |
| `SlabStores.InsideStore` | kern/kmalloc.c:73-88 | a store at any word of a live object inside its page leaves all headers and chains as they are |
| `SlabStores.SpillDestroys` | kern/kmalloc.c:62-71 | through a spilled object some store destroys the next page's size or its link in the pool |
| `SlabStores.StoresHarmlessIff` | kern/kmalloc.c:62-88 | all stores through a live object leave the allocator as it was if and only if the object ends inside its page or the next page is not the allocator's |
| `SlabStores.ClientStore` | kern/kmalloc.c:73-88 | a client's store into an object with a number below OBJS_PER_PAGE keeps the allocator valid and its state unchanged |
| `Ring.ListAdd` | kern/list.h:20-28 | insertion behind any node of a ring: next and prev stay inverse, and only the three nodes concerned are written |
| `Ring.ListRemove` | kern/list.h:30-34 | removal of any element, and no effect on an empty ring |
| `Ring.ListIsEmpty` | kern/list.h:36-39 | emptiness of the sequence |
| `Ring.ListNext` | kern/list.h:41-48 | pops the first element |
| `Scheduler.RoundRobin.MoveToReady` | kern/sched_rr.c:36-40 | appends to the queue of the thread's priority, leaves the other fifteen rings alone and does not recharge the quantum |
| `Scheduler.RoundRobin.GetNextReady` | kern/sched_rr.c:48-60 | pops the head of the first queue that is not empty, or returns null |
| `Scheduler.RoundRobin.EnqueueThread` | kern/sched_rr.c:62-68 | one more thread gets its full quantum and joins its queue |
| `Scheduler.RoundRobin.RrInit` | kern/sched_rr.c:84-98 | all threads end in the queues in order, and the first of the best class is selected with its directory loaded |
| `Scheduler.RoundRobin.RrSchedule` | kern/sched_rr.c:100-120 | refines `Schedule`; the choice is never empty |
| `Scheduler.RoundRobin.ChargeCurrent` | kern/time.h:9-12 | saturating countdown of the current quantum; each interrupted register is saved in its own field of the context, and all other fields stay |
| `Scheduler.RoundRobin.SelectThread` | arch/i686/thread.c:36-49 | loads a directory only when the process changes, and still the loaded directory is always that of the current process |
| `Scheduler.RoundRobin.RrTick` | kern/sched_rr.c:70-82 | refines one `Tick` of the state machine and keeps its invariant; the interrupted thread has each register of the interrupt frame in its own field |
| `SchedModel.Rotate` | kern/sched_rr.c:100-120 | an expired thread goes behind its peers and the first of the same class runs next |
| `SchedModel.TickInv` | kern/sched_rr.c:70-120 | a tick keeps: each thread current or queued exactly once by priority, nothing better waiting, the right directory loaded |
| `SchedRuns.Reachable` | kern/sched_rr.c:36-120 | that invariant in every reachable state |
| `SchedRuns.SavedContexts` | arch/i686/thread.c:51-63 | over every run a thread's saved context has, field by field, the registers of the last tick that found it current; `ebp`, the segments and the error code are those of its first context |
| `SchedRuns.SwitchedOut` | kern/sched_rr.c:70-120 | for a thread no longer current that tick is the one that switched it out |
| `SchedRuns.AllReady` | kern/sched_rr.c:36-120 | over every run from the start each thread is ready and keeps its priority and its process |
| `SchedClosedForm.BestMeaning` | kern/sched_rr.c:48-60 | the best class of the closed form is the threads, in ascending order, that no thread precedes in priority |
| `SchedClosedForm.ClosedForm` | kern/sched_rr.c:70-120 | with q the number of ticks that reach ten seconds, the current thread after t ticks is number t / q modulo m of the best class while full quanta last, and number t - m q modulo m afterwards |
| `SchedClosedForm.BoundedWait` | kern/sched_rr.c:70-120 | in the closed form every number comes up again within m q ticks |
| `SchedClosedForm.WaitOverRuns` | kern/sched_rr.c:70-120 | in every run, from any tick on, each thread of the best class is current within m q ticks |
| `EarlyBoot.SaveEntries` | arch/i686/early.c:174-200 | the regions saved are entries of kind 1 from one megabyte on, in order, and every such entry is saved unless nineteen are |
| `Packing.CopyForward` | arch/i686/early.c:220-226 | the forward byte copy between any two places, in closed form: going up it repeats the bytes between source and destination |
| `Packing.ArrivesIff` | arch/i686/early.c:220-226 | the block arrives if and only if it goes down or is periodic at the distance of the move, byte by byte of the source; a block that does not overlap always is |
| `Packing.UpwardLoses` | arch/i686/early.c:220-226 | a block of two different bytes moved up by one is lost |
| `Packing.CopyName` | arch/i686/early.c:230-236 | the name is the command line up to its end, cut to 31 characters |
| `Packing.PackStep` | arch/i686/early.c:205-228 | packing one more module damages neither a packed module nor one still to come |
| `Packing.PackingHolds` | arch/i686/early.c:205-228 | where no module moves up, every packed module holds its original bytes and all memory outside is untouched |
| `Packing.AlignedMovesDown` | arch/i686/early.c:205-228 | page-aligned, ascending, disjoint sources behind the kernel never move up |
| `EarlyBoot.WalkTags` | arch/i686/early.c:165-245 | for modules anywhere in memory: the first five are packed back to back in whole pages from the kernel end, memory is that after their copies in order, and the map and the upper memory are recorded |
| `EarlyBoot.TagsPacked` | arch/i686/early.c:205-228 | for page-aligned, ascending, disjoint sources behind the kernel every packed module holds its original bytes |
| `EarlyBoot.WalkLoses` | arch/i686/early.c:205-228 | for every memory with two different bytes around the kernel end, a module that starts one byte below it is not intact after the tag loop |
| `EarlyBoot.UpperEndKept` | arch/i686/early.c:262-270 | for every 64-bit region: it keeps its upper end if and only if it starts at or below the kernel end and reaches the end of the modules, or wraps back at the top of the 64-bit space |
| `EarlyBoot.UpperEndLost` | arch/i686/early.c:266-270 | a region from 4 MiB on, with the kernel ending at 2 MiB, loses its upper end |
| `EarlyBoot.ShortRegionWraps` | arch/i686/early.c:262-270 | memory from 1 MiB to 3 MiB with modules up to 4 MiB: the length left is 2^64 minus 1 MiB |
| `Packing.ModuleRanges` | arch/i686/early.c:205-228 | packed modules are page-aligned, disjoint and between the kernel end and the last end |
| `EarlyBoot.RegionConserved` | arch/i686/early.c:266-270 | the region left over starts behind the kernel and every module, and ends where the first one ended exactly under the condition just told |
| `EarlyBoot.EarlyMain` | arch/i686/early.c:134-273 | panics exactly without an entry of kind 1 from one megabyte on, an upper-memory size or a module tag; otherwise the regions saved are, in the order of the tags, the first nineteen entries of that kind, the upper memory is the last one told, the modules are those of the first five module tags, and the region left over ends where the first one ended exactly under the condition just told |
| `EarlyBoot.MapSaved` | arch/i686/early.c:174-200 | the regions saved stand in the tags in this order, each of kind 1 and from one megabyte on, and every entry of that kind is saved unless nineteen before it are |
| `EarlyBoot.FirstUsable` | arch/i686/early.c:174-200 | region 0 is the first entry of the tags that has kind 1 and lies from one megabyte on |
| `EarlyBoot.ModulesTaken` | arch/i686/early.c:205-240 | the modules are those of the first five module tags, in order, each with its source, its size and its name |
| `EarlyBoot.CompleteIff` | arch/i686/early.c:248-260 | the two ways to say that the tags suffice, by places in the tags and by what the loop collects, agree |
| `Boot.TemplateHolds` | arch/i686/paging_utils.c:72-114 | after the kernel is mapped and the template made, the window and all packed files are still in place |
| `Boot.TemplateIsSeen` | arch/i686/paging_utils.c:72-141 | what the processor sees through the template, for every page below the kernel: the first megabyte and the packed modules at their own addresses, the region set aside at its own, all closed to user mode, and nothing else; above, the kernel |
| `Boot.FramesReached` | kern/main.c:54-68 | the template reaches all frames that the module loop takes at their own addresses if and only if the boot ends with the region inside what was set aside |
| `Boot.UserModuleOk` | kern/main.c:46-84 | a packed user program meets all the demands of the module loader |
| `Boot.ProgramsLoaded` | kern/main.c:31-113 | after the boot each header of type 1 with contents, as it stands in the file where the boot loader had put it, has its bytes of the file at its addresses, and each address up to its memory size is open to user mode, writable exactly if bit 1 of its flags is set, if bit 1 or 2 is; five stack pages are writable in user mode; all other pages are translated as by the template |
| `Boot.NothingElseInUserMode` | kern/main.c:31-113 | no page is open to the user mode of a program but those of its file's segments and its stack |
| `Boot.EveryFrameOnce` | arch/i686/paging_utils.c:38-51 | over the whole boot the kernel's image, stack and console, the packed modules, the guard page, the heap, the kernel's tables, and the directories, tables and pages of all modules have pairwise different frames |
| `Boot.EveryFrameClear` | arch/i686/paging_utils.c:38-51 | and none of those taken from the region lies in the kernel or a packed module, or outside the usable region |
| `Bootstrap.MapKernel` | kern/kmem.c:54-66 | the kernel's phase completes if and only if the region behind the modules holds 4101 frames (0x1005000 bytes), with a byte to spare in a DEBUG build |
| `Bootstrap.Run` | kern/main.c:99-113 | in either build the boot from tags to processes ends with frames of the region left over alone, which keeps the upper end of the first region of kind 1 from one megabyte on, if and only if the tags are complete, the region spans kernel and modules and `ComesUp` holds of the packed modules and the length left; then all the results on the whole boot apply |
| `BootExample.TheBootComesUp` | kern/main.c:99-113 | in either build a machine of 48 MiB with one program of two segments, one of which fills its memory from the file, meets every demand of `Run` and comes up, so the results on finished boots speak of something |
| `BootExample.TheProgramSeesItself` | kern/main.c:31-113 | after that boot the program reads its own two bytes of code, which it can run but not change, and the first and last byte of its data, which it can change; behind its data and behind its file in the window nothing is mapped |
| `Multitasking.RunningProgram` | kern/main.c:113-128 | after the boot and any number of ticks the current program is number t / q modulo m, then t - m q modulo m, of the m modules, its own directory is loaded, and through it the processor sees the file that the boot loader had handed over, with its bytes and rights |
| `Format.StoreDigits` | lib/stdlib/stdlib.c:11-16 | the first loop stores the digits that fit, least significant first, and the terminator |
| `Format.ReversePrefix` | lib/stdlib/stdlib.c:18-28 | the two-pointer loop reverses the prefix in place and nothing else |
| `Format.NumeralIsShortest` | lib/stdlib/stdlib.c:6-59 | the digits have the value of the number, no numeral of that value is shorter, and none has a leading zero |
| `Format.StoredConverts` | lib/stdlib/stdlib.c:11-15 | with room for k digits the text is the number modulo base^k, and the shortest numeral of the number if and only if it is below base^k |
| `Format.WordsConvertWhole` | lib/stdlib/stdlib.c:6-59 | ten digits hold every 32-bit number |
| `Format.DigitRoundTrip` | lib/stdlib/stdlib.c:31-59 | digits are 0 to 9 and then small letters, and a digit has the value it stands for |
| `Format.TwoNumerals` | lib/stdlib/stdlib.c:6-59 | most significant digit first: 0xBE0 becomes be0, 205 becomes 205, and 05 with room for two digits |
| `Format.Itoa` | lib/stdlib/stdlib.c:6-29 | decimal conversion, for every number and size |
| `Format.Xtoa` | lib/stdlib/stdlib.c:33-59 | hexadecimal conversion with the digit count |
| `Format.ParseWidth` | lib/stdlib/stdlib.c:81-98 | the backward weighted sum, with 32-bit wrap-around of weight and sum, is the left-to-right decimal value modulo 2^32 |

## Left out

- Machine words in tables: an entry keeps its frame and its present, writable and user bits; the other flag bits and the accessed and dirty bits are not modelled. A frame is either a table or data, so code that reads a table as bytes has no counterpart, and physical access through the identity windows is taken for granted (`Boot.FramesReached` says when the template maps all the frames of the module loop to themselves).
- Assertions: a failed assertion or a panic is the outcome `OutOfFrames`, `Unaligned`, `Panic` or `Panicked`, and nothing is said of the state after it; an access through a missing table or past a table is `Fault` or a failed result. A call that goes on with frames from behind the region, in a build without assertions, is told as `Overdrawn` (or a failed result), which the source does not notice: what its callers do from there on is not modelled. The alignment that the source asserts of the addresses of a mapping is a demand in both builds.
- TLB: translation is a fresh page walk; the flush in `bootstrap_mmap` is commented out in the source.
- Mmap.Machine.Mmap: requires page-aligned addresses, as the source asserts, and ranges that do not wrap around the address space, which the source leaves to its callers; physical memory is at most four gigabytes.
- KernelMap.MapKernelMemory: linker symbols are aligned, ordered page numbers, the image is linked above its load address of one megabyte, and the static tables start empty.
- ElfLoad.ElfCtxLoad: what a load means is stated for images with page-aligned and page-disjoint segments over pages not mapped yet, clear of the stack and of the mapped file. The zero fill up to p_memsz is missing in the source and in the model, p_align must be at least 1 because the source divides by it, and the headers are read once, as values, while the source reads them in place.
- ElfFormat.ElfCtxCreate: the scan for the symbol table is not modelled; bytes behind the end of the image read as zero.
- BootModules.LoadBootModules: the kernel stack of the thread is not modelled; the private slots of a module are required to be empty in the template directory.
- Bootstrap.Run: demands user programs between the window and the kernel, modules that end below four megabytes (`Window.WindowReachesIff`: a module above is not reached at its own address) and a first usable region inside memory; a boot whose region does not span kernel and modules counts as not up, although the source goes on with frames outside the region; the kernel heap's own use of its frames, the page mappings of `early_page_map`, interrupts and the console lie between the phases and are left out. What programs store in their pages once they run is not modelled, so that `Multitasking.RunningProgram` speaks of memory as the boot left it.
- Kmalloc.Allocator.Fetch: the two classes below four bytes, which `kmalloc` never selects, are left out, because `init_page` would store overlapping words there. In a page only the header fields and the first word of each slot are memory in the model. Header fields are unbounded integers, except that a client's store cuts them to 16 bits.
- Kmalloc.Allocator.Kfree: demands a live object, as the allocator does without being able to check it; the pool bounds assertion follows from that.
- SlabStores.ClientStore: stores are whole aligned words into objects of the classes that `kmalloc` serves.
- Scheduler.RoundRobin.RrInit: the ring heads are initialised by the constructor; thread blocks are distinct and their processes have directories. No process is current before, so the first selection always loads a directory.
- Scheduler.RoundRobin.RrTick: the length of a tick is a constant parameter because `nsec_to_next_tick` is never set; a null current thread cannot occur after `rr_init`. The kernel stack pointer and segment bases of a selection are not modelled.
- SchedRuns.SavedContexts: `ebp` and the segment registers are not saved by the source, so they keep their first value.
- EarlyBoot.EarlyMain: tags are values, so the terminator written into the command line and a module copied over the tag area have no counterpart; the boot magic test and the first adjustment of the region, which the saved map overwrites, are left out. Module ranges lie in memory and there is room to pack the first five of them.
- Format.ParseWidth: the 50-byte digit buffer is not modelled; longer widths overflow it in the source.
- Format.Itoa: the buffer must hold the digits stored and the terminator, as in the source.
- vsprintf_s: length accounting, padding and the other conversions, since the counter omits digits and padding.
- early_page_map: straight-line table filling that would add little to the mapping theorems.
- Assembly stubs, GDT and IDT, console, logging, PIC, PIT, kcall dispatch, kern/mem, and the amd64 and riscv trees: hardware access, user interface or code outside the build.
