# A verified model of the kernel

This project models the three stateful subsystems of a small 32-bit x86 kernel, and the
utilities beneath them, and proves what they keep over whole runs.  A system call and a
timer tick are atomic steps, as the kernel brackets them with cli and sti.

**File system** (`Fs*.dfy`, `FileSystem.dfy`, `Transfer.dfy`).  A disk of 65536 blocks of 8 KiB,
a bitmap, an inode table, an interned name table, a directory tree, a table of open files and a
write-through cache for each.  `FsState` says what every call does, step by step as written;
`FsInvariant` what all of them keep; the class `FileSystem` runs them in place on arrays.

**Memory** (`MemoryMap`, `MapFreeing`, `MapExamples`, `PageTables`, `PageInvariant`, `PageRuns`,
`MemoryRuns`, `FlatTables`, `SharedPage`, `VirtualWrite`, `ProcessImage`, `ProcessRuns`, `Memory`,
`ProcessCreation`).  A sorted map of physical intervals
carved page by page and merged when a table is freed, two-level page tables as a refinement of one
flat map, and the memory image a new process starts with.  The class `Memory` runs the nested countdown loops, and `ProcessCreation` the calls
that make a process's image.

**Processes** (`Scheduler`, `SchedulerRuns`, `ContextSwitch`, `StackLayout`, `StackOverrun`, `Kernel`;
`Descriptors`, `DescriptorRuns`, `DescriptorCalls`, `FileTable`).  The round-robin scheduler, the life cycle of processes that wait
for children, the interrupt stub over registers and stack words, the stretches the kernel stacks
lie in, and the descriptors that processes share.  The class `Kernel` runs the handler and the stub, `FileTable` the descriptor
calls.

**Utilities** (`Tokens`, `Names`, `Bitmap`, `Blocks`, `Heap`, `KernelHeap`, `Sort`, `LinkedList`).

In each part a function says what an operation does to a state, lemmas prove properties of it,
and a method of a class, with the loops of the program, is proved to do exactly that.

## Where the code departs from its evident intent

The model follows the code.  Where one call fails a property, the exact condition under which it
keeps it is proved as an equivalence; what depends on a whole run gets a bound and a run just
beyond it.  The less obvious failures are shown by inputs, reached from boot or a new file system.

- read and write start over at block 0 and take the remainder chunk first
  (kernel/filesystem.c:402, 432, 466, 493): `Transfer.WriteExact`, `Transfer.ReadExact`.
- Creating below an existing file writes directory entries into that file's address block
  (kernel/filesystem.c:169-209): `FsRuns.OpenSoundExactly`, `FsExample.CreatingBehindAFileBreaks`.
- open looks at the inode, and may store its kind, before it tests for a negative index
  (kernel/filesystem.c:250-254): `FsRuns.RefusedOpenExactly`.
- Freeing a page table takes "page table of the kernel" for "free" (kernel/memory.c:386, 392), which
  reserved memory carries too, and after a merge upwards remembers the wrong predecessor
  (kernel/memory.c:397): `MapFreeing.FreeExactly` for losing no memory, `MapFreeing.FreeSoundly` for keeping the map sound,
  and `SharedPage.TwoTablesShareAPage` for what becomes of it.
- Identity mapping moves to the next frame only at unmapped entries (kernel/memory.c:353):
  `PageRuns.IdentityExactly`.
- Writing through page tables uses the offset of the first page for the later pages of the same
  directory entry and copies whole pages from there (kernel/memory.c:291):
  `VirtualWrite.WriteExactly`.
- malloc assigns where it means to compare (utils/heap.c:25): the recorded size of a reused block
  shrinks; safety holds all the same (`Heap.RunKeeps`).
- fclose looks for other users only in other processes (kernel/process.c:421):
  `DescriptorRuns.FcloseExactly`; loading a program closes its slot without looking
  (kernel/filesystem.c:541): `DescriptorRuns.LoadExactly`; fopen lists the cell twice
  (kernel/process.c:308), a harmless alias, modelled as such.
- A preemption in the kernel lowers the process's kernel stack for good (kernel/process.c:254, 224-226):
  `StackLayout.KernelStackSinks`, with the bound `StackLayout.LayoutLasts` and the run
  `StackOverrun.OneTooMany`.
- The image builder's search for a run of free blocks does not report that there is none
  (add_file.c:44-60): `Bitmap.FindFreeBlocks`, `Bitmap.GivenOutTwice`.
- The block for the kernel's own memory is made but never added to the map (kernel/memory.c:86-91);
  the map simply starts above it, one byte short (kernel/memory.c:96).

## Model

| member | source | states |
|---|---|---|
| Tokens.DrainJoin | utils/string.c:48-69 | draining strtok over non-empty, separator-free components joined by single separators yields exactly those components in order |
| Tokens.DrainSeparates | utils/string.c:48-69 | every token is free of separators exactly when the string has no empty component: the first character of a token is never inspected |
| Tokens.Tokenizer.Next | utils/string.c:48-69 | the loop over the buffer with its static cursor: the token it cuts off, the terminator it writes, what is left, and the null result at the end for ever after |
| Tokens.IsOneOf | utils/string.c:57-62 | the backwards search of the separators decides membership |
| Tokens.PathRoundTrip | kernel/filesystem.c:91-107 | an absolute, a relative and a slash-terminated path all give the intended components; the root has none |
| Names.Intern | kernel/filesystem.c:180-189 | the scan for a name's place finds the first offset where the string already stands or two zero bytes follow, and copies the name there |
| Names.InternKeepsNames | kernel/filesystem.c:180-191 | the new name reads back at its offset, no name readable before changes, and the table stays well formed |
| Names.SameString | utils/string.c:16-23 | strcmp is zero exactly for equal strings |
| Names.CopyString | utils/string.c:25-28 | strcpy changes exactly the name and its terminator |
| Blocks.WordsRoundTrip | kernel/filesystem.c:203-209 | an index block written as 2048 little-endian words reads back as the same words |
| Bitmap.GetFreeBlock | kernel/filesystem.c:356-374 | the first clear bit, and only it, is set and its sector address returned; -1 and no change when none is clear |
| Bitmap.FindFreeBlocks | add_file.c:44-60 | the image builder sets exactly the first run of clear bits of the length needed and returns its byte offset; without such a run it sets bits from the start of the last clear stretch on and says nothing |
| Bitmap.GivenOutTwice | add_file.c:44-60 | it gives out a block in use exactly when there is no run of the length needed |
| Bitmap.OneBlockRun | add_file.c:44-60 | for one block the image builder and the kernel pick the same block |
| FsTree.ScanFinds | kernel/filesystem.c:108-122 | scanning a directory's words finds an inode exactly when it is the child of that name |
| FsTree.WalkStays | kernel/filesystem.c:106-138 | a path that resolves still resolves to the same inode when the tree only grows |
| FsTree.CreateMakesPath | kernel/filesystem.c:169-225 | creating the missing components of a path keeps the invariant, adds to the tree only, and makes the path resolve to the returned inode |
| FsLookup.NeverFull | kernel/filesystem.c:108-122 | a directory always has a free slot: there are far fewer inodes than slots, and each is entered once |
| FsLookup.LookupExactly | kernel/filesystem.c:89-156 | the four outcomes of a lookup, each as an equivalence: an inode exactly when the components lead to it along directory entries, each but the last with permission to enter, -1 exactly when one is missing, -2 exactly when one may not be entered, an access outside the tables exactly when one is looked for in a file with data |
| FsLookup.FoundEitherWay | kernel/filesystem.c:140-145 | a path that is there is found, and nothing changed, whether or not the lookup may create |
| FsLookup.RefusedExactly | kernel/filesystem.c:124-167 | a lookup that may create is refused exactly when a component may not be entered, or one is missing in something the user may not write to |
| FsLookup.CreateExactly | kernel/filesystem.c:169-225 | creating the missing components goes through exactly when there are inodes, blocks and places for the names for all of them |
| FsLookup.CreateAdds | kernel/filesystem.c:191-200 | what is created: one inode and one block a component, each inode owned by its creator with rights 0700, the last a new file, the others directories; every inode there was stays as it is |
| FsLookup.CreatesExactly | kernel/filesystem.c:147-225 | so for a path with a component missing: refused, created or no room, each under its exact condition |
| FsLookup.FoundAgain | kernel/filesystem.c:89-225 | what a creating lookup has returned, every later lookup of the path returns, and the path leads to it |
| FsInvariant.CreateOneKeepsInv | kernel/filesystem.c:171-210 | creating one component keeps ownership of blocks, zeroed free blocks, tree shape, distinct siblings and cache coherence |
| FsInvariant.AttachKeepsInv | kernel/filesystem.c:259-302 | opening keeps at most one used descriptor for each inode, with a cached address block equal to the disk's |
| FsOpen.OpenReaches | kernel/filesystem.c:244-303 | opening a path whose existing part consists of directories keeps the invariant, and whatever descriptor it gives is on the inode the path then resolves to |
| FsOpenExactly.PermissionBits | kernel/filesystem.c:66-87 | the access word as octal digits: the owner's, one nothing reads, and everybody else's, with 4 to read, 2 to write, 1 to enter; root may do everything |
| FsOpenExactly.OnlyTheCreator | kernel/filesystem.c:66-87 | a file as it is created may be opened in any mode by its creator and root and in none by anybody else |
| FsOpenExactly.OpensExactly | kernel/filesystem.c:250-303 | opening what a path leads to: a descriptor exactly when it is no directory and the mode is permitted, the one already on it or the first unused one, at offset 0 and with nothing cached, every other as it was; -1 otherwise; and nothing else changes but the mark of a new file |
| FsOpenExactly.OpensNewExactly | kernel/filesystem.c:244-303 | opening what is missing: goes through exactly when the user may write to what lacks it and there is room, and the file made is open at its start |
| FsOpenExactly.StoppedNotOpened | kernel/filesystem.c:250-254 | a component that may not be entered, or is looked for in data, leaves open outside the tables |
| FsOpen.OpenKeepsContent | kernel/filesystem.c:244-303 | opening, with or without creating, changes no byte of an existing file |
| FsRuns.OpenSoundExactly | kernel/filesystem.c:89-225 | open keeps the file system sound exactly when the existing part of the path does not end in something that is no directory: the create loop does not check |
| FsExample.CreatingBehindAFileBreaks | kernel/filesystem.c:89-225 | the run on a new file system that shows it: open a, then open a/b, both go through, and the invariant is broken |
| FsRuns.RefusedOpenExactly | kernel/filesystem.c:250-252 | with the inode table directly behind the bitmap on the heap, an open whose lookup is refused keeps the invariant and the disk in step exactly when one of 32 blocks near the end is allocated already; otherwise it marks one in memory |
| FsPaths.EveryInodeReachable | kernel/filesystem.c:106-138 | every bound inode is reached from the root by some path |
| FsPaths.OnePath | kernel/filesystem.c:106-138 | and by one path only: the directories form a tree |
| FsPaths.FormattedIsSound | kernel/filesystem.c:28-44 | a freshly formatted image satisfies the invariant, so that it holds over every run from there |
| FsData.EnsureBlockKeepsInv | kernel/filesystem.c:403-430 | getting a data block, cached, read or newly allocated, keeps ownership and coherence |
| FsData.AssignKeepsInv | kernel/filesystem.c:420-425 | a block newly given to a file has no other owner, and the address block on disk follows the cached one |
| FsData.StoreKeepsInv | kernel/filesystem.c:433-439 | writing a cached block through keeps every cached block of every descriptor equal to the disk |
| FsContent.WriteRoundsFlat | kernel/filesystem.c:402-440 | on the file itself the rounds over blocks act as a transfer into one flat sequence of bytes, as written: from block 0, remainder chunk first |
| FsContent.WriteRoundsElsewhere | kernel/filesystem.c:402-440 | the rounds change no directory entry and no byte of any other file |
| Transfer.WriteExact | kernel/filesystem.c:390-440 | a write puts the buffer at the offset, for every file and every buffer, exactly when it fits in the first block, or starts at 0 and fills whole blocks, or is empty |
| Transfer.FittingWrite | kernel/filesystem.c:390-440 | when it fits, the whole call is one splice of the buffer and the end marker at the offset |
| Transfer.MisplacedWrite | kernel/filesystem.c:390-440 | for every offset and count that does not fit, a buffer that ends up elsewhere |
| Transfer.ReadExact | kernel/filesystem.c:460-498 | a read returns the requested slice, for every file, exactly when it fits in the same sense |
| Transfer.FittingRead | kernel/filesystem.c:460-498 | when it fits, the buffer receives exactly the slice |
| Transfer.MisplacedRead | kernel/filesystem.c:460-498 | for every offset and count that does not fit, a file of which another slice is returned |
| FsReadWrite.WriteFlatly | kernel/filesystem.c:376-444 | on the real structures a write is the flat transfer, moves the offset, and makes the size follow the end marker |
| FsReadWrite.WriteOverwrites | kernel/filesystem.c:376-444 | a write that fits overwrites and extends the content at the descriptor's offset and leaves the end marker behind it |
| FsReadWrite.WriteKeepsInv | kernel/filesystem.c:376-444 | every write, fitting or not, keeps the invariant; on a number that is no descriptor it does nothing and returns 0 |
| FsReadWrite.WriteKeepsOthers | kernel/filesystem.c:376-444 | a write changes no other file and no other inode |
| FsReadWrite.WriteKeepsEntries | kernel/filesystem.c:376-444 | a write changes no directory entry |
| FsReadWrite.ReadFlatly | kernel/filesystem.c:446-502 | a read changes nothing but its descriptor and returns the flat transfer of at most the content |
| FsReadWrite.ReadReturnsSlice | kernel/filesystem.c:446-502 | a read that fits returns the requested slice of the content cut off at its end |
| FsReadWrite.WriteSeekRead | kernel/filesystem.c:512-522 | what was written is read back after seeking to where it was put |
| FsSuccess.WriteGoesThrough | kernel/filesystem.c:376-444 | a write goes through exactly when its flat transfer does and there are as many free blocks as it has to add to the file |
| FsSuccess.FittingWriteSucceeds | kernel/filesystem.c:376-444 | so one that fits goes through exactly when there are free blocks enough, and then the content is the old one overwritten |
| FsSuccess.ReadGoesThrough | kernel/filesystem.c:446-502 | a read goes through exactly when the offset is within the content, its flat transfer goes through, and every block it visits has been written |
| FsReadWrite.SeekKeepsInv | kernel/filesystem.c:512-522 | seeking sets the offset of the descriptor and changes nothing else |
| FsReadWrite.CloseKeepsInv | kernel/filesystem.c:547-573 | closing frees the descriptor and changes no other, nor anything else |
| FsRuns.CallKeeps | kernel/filesystem.c:244-573 | every call keeps the invariant, keeps the metadata on disk and keeps all names and inodes there were |
| FsRuns.RunKeeps | kernel/filesystem.c:244-573 | so does every run: single owners, zeroed free blocks, a tree, coherent caches, one descriptor for each inode |
| FsRuns.RunKeepsPaths | kernel/filesystem.c:89-225 | every path that resolved before a run resolves to the same inode after it, and after a reboot |
| FsRuns.RunKeepsContent | kernel/filesystem.c:376-444 | a file keeps its contents over a run unless some call writes to that very file |
| FsRuns.RebootKeeps | kernel/filesystem.c:28-44 | switching off between calls loses no path and no byte: every structure is written through; nothing is open afterwards |
| FileSystem.FileSystem.ScanDirectory | kernel/filesystem.c:108-122 | the loop finds what the scan of the specification finds |
| FileSystem.FileSystem.FirstUnboundInode | kernel/filesystem.c:172-179 | the loop finds the first unbound inode |
| FileSystem.FileSystem.TakeBlock | kernel/filesystem.c:356-374 | allocating a block updates the bitmap in memory and on disk |
| FileSystem.FileSystem.CreateOneComponent | kernel/filesystem.c:171-210 | the in-place creation of one component makes exactly the specified state |
| FileSystem.FileSystem.GetInodeIndexOf | kernel/filesystem.c:89-225 | path lookup and creation over the tokenizer and the arrays: result and whole new state |
| FileSystem.FileSystem.OpenFile | kernel/filesystem.c:244-303 | open: result and whole new state |
| FileSystem.FileSystem.AttachDescriptor | kernel/filesystem.c:259-302 | the two searches of the open-file table and the new descriptor |
| FileSystem.FileSystem.CloseFile | kernel/filesystem.c:547-573 | close: whole new state |
| FileSystem.FileSystem.SeekFile | kernel/filesystem.c:512-522 | seek: whole new state |
| FileSystem.FileSystem.EnsureDataBlock | kernel/filesystem.c:403-430 | the search of the block cache and what happens on a miss |
| FileSystem.FileSystem.WriteRoundsLoop | kernel/filesystem.c:402-440 | the loop over blocks does the specified rounds |
| FileSystem.FileSystem.WriteFile | kernel/filesystem.c:376-444 | write: result and whole new state |
| FileSystem.FileSystem.ReadRoundsLoop | kernel/filesystem.c:466-498 | the loop over blocks does the specified rounds |
| FileSystem.FileSystem.ReadFile | kernel/filesystem.c:446-502 | read: result, buffer and whole new state |
| MemoryMap.CarveTakes | kernel/memory.c:209-251 | whichever way a page is carved, it was free and is now exactly that table's, nothing else changes hands, and the map stays sorted and touching |
| MemoryMap.CarveSucceeds | kernel/memory.c:209-220 | a page is carved exactly when some memory is free |
| MemoryMap.CarveWhere | kernel/memory.c:209-251 | which page is carved: the lowest free one, unless its block is followed by a block of the same table; then the one next below that block |
| MemoryMap.OwnersApart | kernel/memory.c:205-266 | no address is free and owned, or owned by two tables |
| MapFreeing.FreeExactly | kernel/memory.c:380-414 | freeing returns precisely the table's memory to the free memory exactly when no merge goes into a pinned block and after every merge upwards the pass has a right predecessor to go on with |
| MapFreeing.FreeSoundly | kernel/memory.c:380-414 | freeing leaves a sound map in which the table owns nothing and nobody else gains or loses exactly when, after every merge upwards, there is a block to go on with and, if that is the table's too, a block after it that is not tagged as the kernel's or is a pinned one with room to grow |
| MapFreeing.PassIsSound | kernel/memory.c:382-414 | what the pass has done from any block on, with the predecessor it remembers, right or one merge ahead |
| MapFreeing.UnsoundPass | kernel/memory.c:392-398 | wherever that condition is broken ahead of the pass, it runs into a null node, leaves overlapping blocks, or frees memory that was nobody's |
| MapExamples.FirstTableLosesItsPage | kernel/memory.c:386-389 | a concrete map, reached by carving, where freeing adds the table's page to reserved memory |
| MapExamples.FragmentedIsReached | kernel/memory.c:205-251 | carving for tables 2, 1, 3 and 1 and freeing table 3 leads to the map of the next row |
| MapExamples.FreeReachesIntoReservedMemory | kernel/memory.c:392-397 | a concrete map where freeing makes a free block reach into reserved memory |
| MapExamples.HoleIsHandedOut | kernel/memory.c:222-227 | free stretches have to touch: with an unreported hole between two of them, a run of carving and a sound free hands out a page of the hole |
| PageInvariant.TakingKeepsInv | kernel/memory.c:253-263 | mapping a carved page keeps every user entry backed by memory of its table, distinct, and all memory reached |
| PageInvariant.AllocatePagesGrows | kernel/memory.c:170-272 | allocating a range keeps the invariant, moves memory only from free to the table, changes no existing entry, and maps every page of the range unless no memory is left |
| PageRuns.IdentityExactly | kernel/memory.c:302-361 | a range is mapped to itself exactly when what was mapped in it was mapped to itself and nothing unmapped came after it |
| PageRuns.IdentityGrows | kernel/memory.c:302-361 | identity mapping keeps the invariant, takes no memory and changes no existing entry |
| PageRuns.CreateKeepsInv | kernel/memory.c:126-161 | a created table, recycled or, exactly when all are bound, new, maps nothing, owns nothing, was bound to nobody and is not the kernel's |
| PageTables.RangePages | kernel/memory.c:172-175 | the pages a range covers are just those that one of its bytes lies on, an empty range covering the page it starts on |
| PageRuns.FreeKeepsInv | kernel/memory.c:363-418 | freeing a table whose merges are sound empties and unbinds it, and changes nobody else's entries or memory |
| PageRuns.FreeKeepsExactly | kernel/memory.c:363-418 | freeing goes through, keeps the invariant of all tables and gives back nothing but the table's memory exactly when its merges are sound |
| PageRuns.FreeReturnsExactly | kernel/memory.c:363-418 | and returns precisely its pages exactly when its merges are clean |
| MemoryRuns.RunKeeps | kernel/memory.c:126-418 | every permitted run goes through, keeps the invariant and makes no usable memory; with clean frees it loses none |
| MemoryRuns.IsolatedAlways | kernel/memory.c:205-266 | after any permitted run no two user entries of any tables translate to the same page |
| MemoryRuns.NeverOwnedTwice | kernel/memory.c:205-266 | and each such page lies in memory bound to exactly the entry's table |
| MemoryRuns.InitialMapIsSound | kernel/memory.c:81-115 | on a usual machine the initial map is sorted, touching and owned by nobody |
| MemoryRuns.FreeAtFirst | kernel/memory.c:81-114 | in the initial map exactly the memory reported usable above the kernel is free, and exactly what is not usable, or below the first megabyte, is pinned |
| MemoryRuns.SortedRegionsInOrder | kernel/memory.c:70-80 | sorting stretches that do not overlap puts each before the start of the next |
| MemoryRuns.BootIsSound | kernel/memory.c:77-124 | after boot the invariant holds, the map is the initial one, and the kernel sees the first 32 MB at their own addresses |
| MemoryRuns.SortedIsUsual | kernel/memory.c:70-80 | the firmware's list, in whatever order it comes, is sorted into one the initial map is sound for |
| MemoryRuns.FromBootOn | kernel/memory.c:77-418 | so from an unsorted firmware list on, whatever tables are created, given memory and freed soundly, no page is owned twice and no memory becomes usable that was not |
| FlatTables.RunRefines | kernel/memory.c:126-418 | on every run, sound or not, the two-level tables, recycled and shared out as they are, go through the calls exactly when one finite map from table and page to entry does, and then translate as it says |
| FlatTables.PermittedRefines | kernel/memory.c:126-418 | and a run is permitted on the one exactly when it is on the other |
| SharedPage.TwoTablesShareAPage | kernel/memory.c:392-397 | a run from boot on a machine with 7 MB, permitted but for one free, after which two tables translate to the same page |
| Memory.InitMemory | kernel/memory.c:77-124 | boot in place: the list is sorted, the map built, the kernel's table created and 32 MB mapped |
| Memory.CountsAreRight | kernel/memory.c:172-177 | the counts the page loops start from are exactly the pages and directory entries of the range, for a limit of 0 as for 1 |
| Memory.NextDirectory | kernel/memory.c:205-269 | after each directory entry either the range is done or its next page starts the next entry |
| Memory.Memory.constructor | kernel/memory.c:77-115 | the loop over the firmware's list builds the initial map |
| Memory.Memory.CreatePageTable | kernel/memory.c:126-161 | the search for an unbound table, or a new empty one |
| Memory.Memory.TakePage | kernel/memory.c:209-251 | the three ways of carving, in place |
| Memory.Memory.FillEntries | kernel/memory.c:205-266 | the loop over the entries of one second-level table fills exactly the pages of the range in it, in order, and the countdown goes negative only when the range ends there |
| Memory.Memory.AllocateMemory | kernel/memory.c:170-272 | the nested countdown loops allocate exactly the pages of the range, once each and in order |
| Memory.Memory.MapEntries | kernel/memory.c:339-355 | the same loop for identity mapping, with the frame it has reached |
| Memory.Memory.IdentityMap | kernel/memory.c:302-361 | the nested countdown loops map exactly the pages of the range |
| Memory.Memory.FreeMapBlocks | kernel/memory.c:380-414 | the pass over the map, stopping where it would look through a null node |
| Memory.Memory.FreePageTable | kernel/memory.c:363-418 | freeing a table: whole new state |
| Memory.Memory.WriteVirtualMemory | kernel/memory.c:274-300 | the nested loops copy to each page what the specification copies |
| VirtualWrite.WriteExactly | kernel/memory.c:274-300 | writing through page tables is right, for all tables and contents, exactly for ranges that start a page or stay within one |
| VirtualWrite.WriteIsRight | kernel/memory.c:274-300 | for those every byte lands where its address translates to and no other byte of memory changes |
| VirtualWrite.SecondPageMissed | kernel/memory.c:285-294 | for the others a buffer whose byte for the start of the second page is not written there |
| ProcessImage.BlockReadsBack | kernel/process.c:617-638 | the argument block decodes to exactly the arguments: count, address list, strings |
| ProcessImage.BlockWritten | kernel/process.c:624-638 | the five writes, in the kernel's order, leave the block in one piece, packed up to 0x9fffff |
| ProcessImage.KernelMappedRight | kernel/process.c:612-613 | a new table maps the lower 6 MB to themselves and nothing above |
| ProcessImage.ImageStateRight | kernel/process.c:612-624 | the program's pages and the stack page are the new process's own |
| ProcessImage.NewProcessSees | kernel/process.c:574-640 | a new process, given memory enough that the kernel reaches, reads its program at 0x600000, the kernel below, and at its stack pointer its arguments |
| ProcessImage.NewProcessFits | kernel/process.c:612-638 | its image is made exactly when all memory it is given lies where the kernel reaches |
| ProcessRuns.RunKernel | kernel/memory.c:302-361 | what the kernel's own table maps stays mapped over every permitted run |
| ProcessRuns.ProcessFromBootOn | kernel/memory.c:120 | so on a machine with at most 32 MB, after any permitted run from boot on, the kernel sees all of it and a process created while memory is left sees its program and its arguments |
| ProcessCreation.SizeOfArgs | kernel/process.c:617-621 | the loop over the arguments gives the size of their block |
| ProcessCreation.WriteArguments | kernel/process.c:629-635 | the loop over the arguments writes each and collects their addresses |
| ProcessCreation.CreateProcess | kernel/process.c:574-640 | the calls in the kernel's order make exactly that image: tables, memory words, stack pointer |
| Scheduler.RemarkingKeepsChoice | kernel/process.c:251-259 | marking the outgoing process as waiting, or replacing it by anything, never changes the scheduler's choice |
| Scheduler.NearestIsChosen | kernel/process.c:169-198 | the choice is the nearest ready process going round the list |
| SchedulerRuns.TickApproaches | kernel/process.c:232-267 | each tick makes a ready process current or brings its turn closer, by distance and remaining quantum |
| SchedulerRuns.BoundedWaiting | kernel/process.c:232-267 | a ready process at distance d round the list, from the current process or from the start without one, is current within 5 * d ticks, whatever the interrupted frames are |
| SchedulerRuns.TurnBegins | kernel/process.c:200-263 | a tick that turns to another process turns to the scheduler's choice, with a full quantum, running, and with its own registers if it is new; the process before it has none left and waits if it was running; the others stay as they are |
| SchedulerRuns.TickInTurn | kernel/process.c:251-267 | a tick in the midst of a turn: it takes one from the quantum if anybody waits, and hands over exactly when that was the last one |
| SchedulerRuns.TurnLasts | kernel/process.c:251-267 | whatever is ready or is started meanwhile, a running process stays through as many ticks as it has quantum left, less one |
| SchedulerRuns.WholeTurn | kernel/process.c:200-267 | over the life cycle: from the tick that begins its turn a process stays for four ticks more, and with something waiting the fifth hands over to the scheduler's choice |
| SchedulerRuns.TickKeepsLife | kernel/process.c:200-267 | a tick keeps the life-cycle invariant |
| SchedulerRuns.ExecKeepsLife | kernel/process.c:686-741 | starting a child keeps it: the child is last in the list, ready and as it was made, the parent blocked, earlier, and waiting for that child alone, the others unchanged |
| SchedulerRuns.StartKeepsLife | kernel/process.c:574-640 | so does a program the kernel starts: last in the list, without a parent, everybody else unchanged |
| SchedulerRuns.ExitKeepsLife | kernel/process.c:642-680 | an exit keeps it: the exited process is gone, the others keep their order, exactly its parent is woken, and there is no current process |
| SchedulerRuns.ExitWakesParent | kernel/process.c:668-671 | the parent is ready after the exit and otherwise unchanged |
| SchedulerRuns.ParentWaits | kernel/process.c:721-725 | a live child's parent is live, blocked, earlier in the list, and has no other live child |
| SchedulerRuns.RunKeepsLife | kernel/process.c:200-741 | over every run of ticks, starts, executes and exits at most one process runs and it is the current one, and a process is blocked exactly while it has a live child |
| SchedulerRuns.TickRunsSomeone | kernel/process.c:232-267 | after a tick, with any process in the list, one is running with the page table and kernel stack that are its own |
| SchedulerRuns.NeverIdle | kernel/process.c:200-741 | from the empty list on, the next tick always finds a process to run while there is one |
| ContextSwitch.TickWithoutSwitch | kernel/pit_entry.asm:7-72 | a tick that does not switch is the identity on the registers, the stack pointer, the return frame and the stack above it |
| ContextSwitch.PreemptionKeeps | kernel/process.c:252-261 | a preempted process's record keeps its whole context |
| ContextSwitch.TickKeepsOrReturns | kernel/process.c:205-229 | a tick leaves a kept context kept, or returns to exactly it |
| StackLayout.CreatedStarts | kernel/process.c:205-216 | a program executed or started, whatever happens before its turn, begins in exactly the context it was created with, at the top of its own stretch and on its own page table |
| StackLayout.ScratchElsewhere | kernel/pit_entry.asm:8-61 | an interrupt, whoever it interrupts and whoever it turns to, writes nothing of a listed process's kernel stack |
| StackLayout.RunKeepsLayout | kernel/process.c:589-593 | over every run of interrupts, programs executed, started and exiting, every kernel stack lies in its own stretch with room for an interrupt, as long as kernel code keeps to the stretch of its process |
| StackLayout.PreemptedComesBack | kernel/pit_entry.asm:7-72 | a process preempted in any ring comes back with the same registers, stack pointer, frame and page table, and its stack above the frame untouched, whatever is switched, started and exits in between |
| StackLayout.KernelStackSinks | kernel/process.c:254 | but a process preempted in the kernel d words down its stack starts the frame of its next interrupt from user code d words lower |
| StackLayout.LayoutLasts | kernel/process.c:589-593 | so the layout lasts while each process is preempted in the kernel at most n times, d words down at most, and n * d + d + 15 words fit into a stretch |
| StackOverrun.OneTooMany | kernel/process.c:252-261 | a run in which the words come to 15 too many and a sleeping process has its kernel stack written over |
| Kernel.Kernel.FindProcessToRun | kernel/process.c:169-198 | the two loops over the list |
| Kernel.Kernel.SwitchProcess | kernel/process.c:200-230 | switching: list, current process, stack, page table and the frame in memory |
| Kernel.Kernel.PitInterruptHandler | kernel/process.c:232-267 | the handler: whole new state, and no word outside the frame |
| Kernel.Kernel.ExitProcess | kernel/process.c:668-676 | exit: whole new state |
| Kernel.Kernel.ExecuteFromProcess | kernel/process.c:721-725 | execute: whole new state |
| Kernel.Kernel.PadFrame | kernel/pit_entry.asm:8-23 | a frame taken in the kernel is padded to the shape of one taken in a user program, keeping EAX |
| Kernel.Kernel.CleanFrame | kernel/pit_entry.asm:41-72 | on the way back the padding goes, or the three words move to the stack they belong to if it is clear of where they are, keeping EAX and EBX |
| Kernel.Kernel.PitInterruptEntry | kernel/pit_entry.asm:7-72 | the stub, instruction by instruction, writes only below the frames, and returns to the context the handler chose if the stack of that one is clear of the frame |
| Kernel.Kernel.TimerInterrupt | kernel/pit_entry.asm:7-72 | with the processor's own pushes before it, and the stacks laid out, it is the interrupt the theorems speak of, and leaves them laid out |
| Descriptors.SlotsAreTheTable | kernel/filesystem.c:259-302 | the slots are the file system's own table of open files |
| DescriptorCalls.FopenGives | kernel/process.c:269-310 | fopen gives the first position not in use, with a descriptor at the start of the file, with the rights of the mode, on a slot open on that very file; the process's descriptors in use and all used slots stay, and with live descriptors before it has live ones after |
| Descriptors.FopenIsolated | kernel/process.c:269-310 | fopen touches no other process's descriptors nor any slot one holds |
| Descriptors.FcloseIsolated | kernel/process.c:407-439 | fclose closes a slot only if no other process has a used descriptor on it |
| Descriptors.DupIsolated | kernel/process.c:475-507 | dup likewise |
| DescriptorCalls.DupGives | kernel/process.c:475-507 | dup gives the first position not in use, with a copy of the descriptor; -1 for a position there is not; no descriptor in use changes |
| Descriptors.Dup2Isolated | kernel/process.c:509-525 | dup2 likewise |
| DescriptorCalls.Dup2Gives | kernel/process.c:509-535 | dup2 gives the position asked for exactly when both are there, with a copy in it exactly if they are different cells; descriptors in other cells stay |
| Descriptors.ExitIsolated | kernel/process.c:657-667 | closing everything at exit likewise |
| DescriptorRuns.FcloseExactly | kernel/process.c:418-438 | closing leaves the process's own other descriptors on used slots exactly when it has no other on that slot or another process has one: the search skips the process itself |
| DescriptorRuns.FcloseSlots | kernel/process.c:407-435 | which slot a close of a used descriptor frees: its own, exactly when no other process has a used descriptor on it |
| DescriptorRuns.DuplicateDangles | kernel/process.c:407-507 | the run fopen, dup, fclose that leaves a descriptor on a closed slot |
| DescriptorRuns.Dup2Exactly | kernel/process.c:509-525 | when dup2 copies the descriptor and leaves all others good |
| DescriptorRuns.ExitReleasesExactly | kernel/process.c:657-667 | an exit closes exactly the slots the process held and no other process holds |
| DescriptorCalls.ExitLeavesNone | kernel/process.c:657-667 | and leaves the process without descriptors |
| DescriptorRuns.LoadExactly | kernel/filesystem.c:529-541 | loading a program leaves every used slot used exactly when its file was not open |
| DescriptorCalls.LoadClosesFile | kernel/filesystem.c:529-541 | and a loaded program's file is never left open |
| DescriptorRuns.NewProcessShares | kernel/process.c:596-610 | a new process holds exactly its parent's input and output slots |
| DescriptorRuns.ExecuteLeaves | kernel/process.c:686-741 | executing a program touches no other process's descriptors, and no slot if its file is not open |
| DescriptorCalls.ExecuteShares | kernel/process.c:686-741 | and hands on its first two, in this order, one to read from and one to write to, both at the offset they have got to; without a file, or without the two, nothing happens |
| DescriptorRuns.ExecuteOpenFile | kernel/filesystem.c:529-541 | but if a bystander has the file open, its slot is closed |
| DescriptorRuns.BystanderKeepsFiles | kernel/process.c:269-525 | whatever calls other processes make, executing and starting programs included, a process that makes none keeps its descriptors, all on used slots of the same inodes, as long as no program is executed while its file is open |
| FileTable.FileTable.Open | kernel/filesystem.c:259-302 | the two searches of the kernel's table |
| FileTable.FileTable.Fopen | kernel/process.c:269-310 | fopen, with the cell listed once too often: whole new state |
| FileTable.FileTable.UsedElsewhere | kernel/process.c:418-435 | the nested search finds another process's used descriptor exactly when there is one |
| FileTable.FileTable.Fclose | kernel/process.c:407-439 | fclose: whole new state |
| FileTable.FileTable.Dup | kernel/process.c:475-507 | dup: whole new state |
| FileTable.FileTable.Dup2 | kernel/process.c:509-525 | dup2: whole new state |
| FileTable.FileTable.ExitFiles | kernel/process.c:657-667 | closing at exit: whole new state |
| FileTable.FileTable.Execute | kernel/process.c:706-737 | execute: the program's file opened and closed, and the new process's two descriptors: whole new state |
| Heap.MallocSucceeds | utils/heap.c:20-36 | there is always a block, the first that fits, and it gets the size asked for |
| Heap.MallocExactly | utils/heap.c:20-36 | the chain stays sound exactly when the block, if it is the last one, ends below 4 GB |
| Heap.PayloadsApart | utils/heap.c:20-36 | payloads never overlap |
| Heap.RunKeeps | utils/heap.c:12-42 | over every run below 4 GB the chain stays sound, recorded sizes only shrink, and a block never freed keeps its place and size |
| Heap.PointerLives | utils/heap.c:12-42 | from the new heap on, a pointer malloc returned is the payload of a block in use with the size asked for until it is freed, while all requests together stay below 4 GB |
| Heap.FreeExactly | utils/heap.c:38-42 | freeing the payload of a block makes that block free and nothing else |
| Heap.FreedIsReused | utils/heap.c:20-42 | what was freed is given out again: a request no larger gets a payload at or before it, and that very one exactly when no block before it is free and large enough |
| Heap.TablesApart | kernel/memory.c:145-149 | page directories and second-level tables rounded up inside different 8 KiB payloads have no byte in common |
| KernelHeap.KernelHeap.Search | utils/heap.c:21-23 | walking the next pointers finds the first block that fits |
| KernelHeap.KernelHeap.Allocate | utils/heap.c:20-36 | malloc on the headers in memory |
| KernelHeap.KernelHeap.Release | utils/heap.c:38-42 | free on the headers in memory |
| Sort.SwapRemovesOne | utils/stdlib.c:21-26 | swapping neighbours out of order removes exactly one inversion |
| Sort.PassDecreases | utils/stdlib.c:15-28 | a pass that swaps anything lessens the inversions, so sorting ends |
| Sort.BubbleSorts | utils/stdlib.c:12-29 | the result is sorted, for every comparator that is a strict weak order |
| Sort.BubblePermutes | utils/stdlib.c:12-29 | it has the same elements |
| Sort.BubbleIsStable | utils/stdlib.c:12-29 | elements that tie keep their order |
| Sort.BubbleSort | utils/stdlib.c:12-29 | the sort on an array, in place, with the sorted flag |
| LinkedList.List.Add | utils/list.c:13-27 | appends the value |
| LinkedList.List.AddAt | utils/list.c:29-49 | inserts the value before the position, or appends it |
| LinkedList.List.Remove | utils/list.c:51-73 | removes the first occurrence of the value, if any |
| LinkedList.List.Get | utils/list.c:75-80 | the element at the position, or none |

## Left out

- Devices: ATA, PIC, PIT, VGA and keyboard ports, descriptor tables, control registers; the disk is a sequence of blocks, CR3 the index of the page table in use.
- kernel/sd.c, kernel/tty.c, drivers/: raw disk access, terminals and user interface; special files and their methods.
- opendir, readdir and closedir: a snapshot of a directory taken when it is opened; fread and fwrite: a seek to the descriptor's own offset followed by read or write; stat and get_file_size.
- seteuid and the source of the effective user: the user is a parameter of every file call; permission bits are tested as written.
- An open whose lookup is refused reads the inode table at a negative index and may store there before it returns -1 (kernel/filesystem.c:250-254): the result is None, as for every access outside the modelled memory; what happens with the two tables side by side is stated apart.
- File offsets and sizes are unbounded integers; 32-bit overflow of an offset is not modelled, nor a negative count.
- A bitmap byte is a sequence of eight flags, a disk block a sequence of bytes; the disk never fails.
- File calls that would leave the modelled memory (a full disk, a full table, a copy past a block or a buffer, a descriptor that is not open) are the result None, and nothing is claimed of what follows.
- Addresses given to allocation, identity mapping and virtual writes lie below 2 GB: above, the signed shift of the code indexes the directory with a negative number.
- MemoryRuns.InitialMapIsSound: for sorted stretches of which the usable ones above 1 MB are whole pages, end above the kernel and below 2 GB and touch when neighbours; what carving does across a hole is shown by an example, a stretch that is not whole pages is handed out up to the next page boundary.
- MemoryRuns.BootIsSound: for the same machines.
- MemoryRuns.FromBootOn: for the same machines, their list in any order.
- MemoryRuns.RunKeeps: for runs whose frees are sound, the exact condition on each single free; runs with another free may share pages between tables.
- MemoryRuns.IsolatedAlways: for the same runs.
- Memory.Memory.WriteVirtualMemory: for ranges whose pages are mapped; through an unmapped entry the code writes to whatever frame stands in it.
- ProcessImage.NewProcessSees: for argument blocks of at most 0xFFF bytes and programs below the stack page, and while memory is left; larger argument blocks cross pages and run into VirtualWrite.WriteExactly. A store above the memory the kernel reaches is the result None: the page fault it raises is not modelled.
- ProcessCreation.CreateProcess: for the same programs, arguments and memory.
- Page faults: one allocate_memory call or one exit, not modelled as events of their own.
- StackLayout.PreemptedComesBack: what the kernel code of a process does between interrupts is not modelled; it is taken to stay on the stretch of its process with 15 words to spare, and at most 47 processes are ever created, as many as there are stretches above the start of the heap, into which the heap does not grow.
- StackLayout.LayoutLasts: how deep kernel code goes is a parameter.
- The handler's own use of the stack below the frame, the segment registers other than SS, and interrupt flags.
- SchedulerRuns.BoundedWaiting: for runs of ticks on one list; starting and exiting processes changes the distances.
- The cells of descriptors are indices into a table instead of heap objects; two positions of a list that share a cell have the same index.
- KernelHeap.KernelHeap.Release: for addresses of payloads; on any other the code marks whatever word stands 12 bytes before it.
- A second close of the same slot, which reads freed cache blocks: the slot is simply marked unused.
- itoa, memset, the debug output, the bootloader, the user programs and their C library, and main in add_file.c and add_directory.c.
