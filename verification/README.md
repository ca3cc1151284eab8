# GeckoOS: verified models of the kernel's data structures

Dafny models of the parts of GeckoOS whose correctness can be stated without hardware, with proofs of what they
promise. `dafny verify dfyconfig.toml` checks everything. Nothing here executes the kernel.

**FAT32 driver** (`Fat*.dfy`, `Bytes.dfy`). A volume is a table of entries (28-bit link, reserved nibble) and an array
of 512-byte data sectors. On it the driver's operations are functions; `FatDriver.Driver` is the driver over a raw array
of sectors with both table copies, and each method is proved to do what the function says. The invariant `Sound` says
that the chains of the root directory and of all live entries are acyclic, end in an end mark, are pairwise disjoint and
hold no free cluster. The main result is `FatRuns.RunsRefine`: every run of create, write, append, delete and mkdir,
failed calls included, refines a map from raw names to attributes and bytes. A failing overwrite is part of it: it keeps
the invariant and every other file, and only the contents of the named file are lost. `FatCells.AnyRunsRefine` drops all
conditions on names: over any run of any calls the chains stay sound, and the run refines the row of directory cells,
each call choosing its cell by the rules of the directory scan. In-place writes and reads have laws of their own
(`FatPatch`, `FatBigRead`), and `FatDriver.Driver.PerformAll` and `PerformAny` state the two refinements on the raw disk.

**Page tables over the frame bitmap** (`PhysicalMemory.dfy`, `PageTables.dfy`, `Paging.dfy`). The 4-level tables are a
radix tree of distinct frames in a memory of frames; the model proves that they behave as a flat map from page numbers
to entries, that tables come from blocks that were free, and that the device windows never overlap. `Paging.Vmm.BringUp`
puts start-up and any list of device requests together, `Paging.Vmm.MapThenUnmap` any list of requests and an unmap.

**The GK language** (`Gk*.dfy`). Lexer, parser and interpreter, each as an object that is proved against a function:
the tokens when none is dropped; the grammar as functions on tokens; the evaluator with its flags. On the functions:
printing an expression with as few parentheses as possible and parsing it gives it back; the node pool after a parse is
a finite tree without sharing; the flag-driven evaluator agrees with a big-step semantics that has explicit outcomes; a
call restores the variable table. `GkReprint.SourceRoundTrip` takes whole programs to indented source text and back, and
`GkReprint.Reprint` says that every accepted source, printed again within the token limit, keeps its tree. `GkRun.Run`
puts the three together.

What shared definitions mean is stated apart from them: `FatFormat` gives the bytes on the disk as another implementation
reads them, `GkPrecedence` the guide's table of operators, `GkLaws` the laws of arithmetic, logic, loops and calls, and
`GkComments` that comments do not matter.

**Kernel heap** (`Kmalloc.dfy`): headers in memory, a free list that may become cyclic, the tiling of the window.
**Internet checksum** (`Checksum.dfy`) and the **editor** (`Editor.dfy`): offsets, lines and columns, edits as a zipper.

## What the proofs brought to light

The model follows the code. Where the code does not do what its name, a comment or the guide suggests, the exact
condition is proved, and an input is given on which it fails:

- `fat32_create_file` never looks for the name it creates: names stay unique if and only if it was absent
  (`FatRuns.CreateDuplicates`, `FatExamples.CreatedTwice`).
- A failed append has already deleted the file (`FatRuns.AppendEffect`, `FatExamples.AppendLosesFile`); data beyond 4000
  old or 4095 total bytes is cut (`FatRuns.AppendWhole`, `FatExamples.AppendCuts`).
- A file whose name starts with the byte 0xE5 is created in a slot that stays free: it is found under its name if and only
  if the raw name does not start with that byte (`FatCells.CreatedFound`), and its clusters are lost
  (`FatCells.HiddenLoses`, `FatExamples.HiddenFileLost`).
- An empty file created on a full volume succeeds with no cluster (`FatRuns.CreateTakes`, `FatExamples.EmptyOnFull`).
- `fat32_file_read` compares the bytes left as `int32_t`: from 2^31 bytes on it copies consecutive sectors past the end
  of the cluster, which is right if and only if the clusters lie one after the other (`FatBigRead.BigReadIff`,
  `FatBigRead.GapShows`, `FatExamples.LargeReadWrong`).
- Where delete's raw lookup finds a file, append's text lookup finds it if and only if the name is well formed
  (`FatRuns.TextLookupIff`); otherwise the append is a create and adds a second entry (`FatRuns.AppendMisses`,
  `FatExamples.AppendAddsSecond`). The slots on which the two comparisons agree are `FatNames.AgreeingSlots`.
- A kfree of a block that is still on the free list makes the list cyclic, for good, and nothing else does
  (`Kmalloc.RunAcyclic`); a search then never ends if and only if no block on it suits (`Kmalloc.EndlessIff`,
  `Kmalloc.CyclicList`). A request is met if and only if no 64-bit sum wraps (`Kmalloc.MallocMeets`,
  `Kmalloc.WrappedRequest`).
- GK: a body without `return` yields the value of its last statement, where the guide says None (`GkGuide.EndOfBody`);
  None for bodies that end in a definition or a print, never None for those that end in a literal, an operator or an
  assignment of one (`GkGuide.EndKind`, `GkGuide.BodyYieldsLastValue`); variable lookup sees the variables of all callers
  (`GkGuide.OuterRead`, `GkGuide.CallerSeen`); a second definition of a function has no effect
  (`GkGuide.SecondDefinition`, `GkGuide.SecondDefinitionIgnored`); None is not equal to itself
  (`GkGuide.EqualToItself`, `GkGuide.NoneDiffersFromItself`).
- A region is reserved or freed block by block as if it began at a block: its end is missed if and only if what lies
  before it in its first block no longer fits (`PhysicalMemory.RegionCovered`, `PhysicalMemory.RegionCut`). The last free
  blocks are never handed out (`PhysicalMemory.LastRefused`, `PhysicalMemory.LastBlockRefused`).
- Reserving block 0 counts it twice if it was already reserved (`PhysicalMemory.FirstCounted`,
  `PhysicalMemory.FirstCountedTwice`).

## Model

| member | source | states |
|---|---|---|
| `FatTable.WalkMeetsReachable` | kernel/fs/fat32.c:391-399 | the clusters a chain walk meets are exactly those reachable from its start, on cyclic tables too |
| `FatTable.ChainHoldsNoFree` | kernel/fs/fat32.c:105-117 | no cluster of a chain is free |
| `FatTable.NonzeroDrops` | kernel/fs/fat32.c:391-399 | clearing a used cluster lowers the number of nonzero entries by one: the measure of the free loop |
| `FatTable.FreeFrom` | kernel/fs/fat32.c:144-171 | the ascending list of exactly the free clusters |
| `FatTable.FreeListAfterTake` | kernel/fs/fat32.c:144-171 | taking the first free cluster leaves the rest of the free list |
| `FatTable.LinkFromAt` | kernel/fs/fat32.c:352-389 | what every cluster of a new chain points to, and that nothing else of the table changes |
| `FatTable.ClearUndoesLink` | kernel/fs/fat32.c:119-142 | linking free clusters and clearing them restores every word, reserved nibbles included |
| `FatTable.FreeAfterLink` | kernel/fs/fat32.c:352-389 | linking the n lowest free clusters leaves exactly the others free |
| `FatTable.FreeCountCleared` | kernel/fs/fat32.c:391-399 | freeing a chain adds its length to the number of free clusters |
| `FatArea.SecsHome` | kernel/fs/fat32.c:101-103 | the sectors of a list of clusters are exactly those whose cluster is in the list |
| `FatArea.ContentsUpdate` | kernel/fs/fat32.c:302-350 | writing one sector of a chain replaces exactly its 512 bytes of the contents |
| `FatArea.StoreReadsBack` | kernel/fs/fat32.c:352-389 | content of any length stored over enough sectors reads back |
| `FatDirectory.EntryRoundTrip` | kernel/fs/fat32.c:48-62 | a directory record is decoded as it was encoded |
| `FatDirectory.FirstFree` | kernel/fs/fat32.c:415-453 | the first END or deleted slot, and that none comes before it |
| `FatDirectory.FirstMatch` | kernel/fs/fat32.c:415-453 | the first visible slot with a raw name before any END slot |
| `FatDirectory.NoMatch` | kernel/fs/fat32.c:415-453 | the search fails only if no slot matches |
| `FatDirectory.ScanFree` | kernel/fs/fat32.c:225-244 | the callback scan finds the slot the specification names |
| `FatNames.EncodeName` | kernel/fs/fat32.c:195-220 | the encoding loops compute the raw name that `EncodeAt` and `SameRaw` describe |
| `FatNames.EncodeAt` | kernel/fs/fat32.c:195-220 | every byte of a raw name: the base cut to 8 and the extension to 3 characters, in capitals, the rest spaces |
| `FatNames.NameParts` | kernel/fs/fat32.c:201-204 | the last dot parts base and extension; a name without one is all base |
| `FatNames.SameRaw` | kernel/fs/fat32.c:195-220 | two well-formed names have the same raw name if and only if they are equal up to case |
| `FatNames.FormatName` | kernel/fs/fat32.c:173-193 | the formatting loops compute the text form |
| `FatNames.TextMatch` | kernel/fs/fat32.c:567-609 | the append comparison accepts exactly texts of equal length whose characters are equal or the two cases of one letter |
| `FatNames.TextRoundTrip` | kernel/fs/fat32.c:173-220 | formatting an encoded name gives it back up to case if and only if it is well formed |
| `FatNames.LookupsAgree` | kernel/fs/fat32.c:173-220 | on a slot that holds the form of a well-formed text, the text comparison says what the raw comparison says for well-formed texts and fails for all others |
| `FatNames.AgreeingSlots` | kernel/fs/fat32.c:173-220 | the slots on which the two comparisons agree for all well-formed texts: those that hold the form of one, and those whose own text form is not well formed |
| `FatVolume.MapChanged` | kernel/fs/fat32.c:456-466 | changing one slot changes the name map in that name only |
| `FatVolume.FilesChanged` | kernel/fs/fat32.c:456-466 | the same for the files of a volume |
| `FatSteps.NeededIsCeiling` | kernel/fs/fat32.c:352-389 | the number of clusters is the rounded-up quotient, at least one |
| `FatSteps.NeededFits` | kernel/fs/fat32.c:352-389 | that many clusters hold the content and one fewer would not |
| `FatSteps.Taken` | kernel/fs/fat32.c:352-389 | the clusters a store takes are distinct, in range and were free |
| `FatSteps.StoredChain` | kernel/fs/fat32.c:352-389 | a successful store leaves a chain of exactly the taken clusters holding the content |
| `FatSteps.StoredEntry` | kernel/fs/fat32.c:468-501 | an entry for stored content has that chain and reads back as that content |
| `FatSteps.StoreKeepsKept` | kernel/fs/fat32.c:352-389 | every other chain is disjoint from the taken clusters and unchanged |
| `FatOps.CreateEffect` | kernel/fs/fat32.c:468-501 | create of an absent name succeeds if and only if a slot and the clusters are there, adds exactly that file (none if the raw name starts with the mark of a deleted slot), and changes no file when it fails |
| `FatOps.DeleteEffect` | kernel/fs/fat32.c:540-564 | delete succeeds if and only if the name exists, and removes exactly that file |
| `FatOps.MkdirEffect` | kernel/fs/fat32.c:612-636 | mkdir succeeds if and only if a slot is free, and adds exactly that directory (none if the raw name starts with the mark of a deleted slot) |
| `FatOps.DanglingEntry` | kernel/fs/fat32.c:503-538 | the entry left by an overwrite that ran out of space still has a chain of its own |
| `FatOps.RoomAfterFree` | kernel/fs/fat32.c:503-538 | an overwrite can use the free clusters and those of the old chain |
| `FatOps.WriteEffect` | kernel/fs/fat32.c:503-538 | an overwrite succeeds if and only if the content fits; failing, it keeps the invariant and every other file |
| `FatRuns.CreateTakes` | kernel/fs/fat32.c:468-501 | create takes exactly the lowest free clusters it needs; an empty file on a full volume takes none |
| `FatRuns.FreeUndoesStore` | kernel/fs/fat32.c:391-399 | freeing from the returned cluster restores the table |
| `FatRuns.DeleteUndoesCreate` | kernel/fs/fat32.c:540-564 | deleting a file just created restores every table word, reserved bits included |
| `FatRuns.CreateDuplicates` | kernel/fs/fat32.c:468-501 | names stay unique if and only if the created name was absent |
| `FatRuns.DeleteKeepsSound` | kernel/fs/fat32.c:540-564 | delete keeps the chains sound even with duplicate names |
| `FatRuns.TextLookup` | kernel/fs/fat32.c:567-609 | the append lookup finds the entry that the raw lookup finds if the name is well formed and it is a file, and else nothing |
| `FatRuns.TextLookupIff` | kernel/fs/fat32.c:567-609 | where the raw lookup finds a file, the text lookup finds the same if and only if the name is well formed |
| `FatRuns.AppendMisses` | kernel/fs/fat32.c:567-609 | an append under a name that is not well formed or is a directory's is a create of the same name |
| `FatRuns.AppendEffect` | kernel/fs/fat32.c:567-609 | append leaves the first 4000 old bytes and the new ones, cut at 4095; it succeeds exactly when that fits, counting the slot and clusters the old file gives back, and else the file is gone |
| `FatRuns.AppendWhole` | kernel/fs/fat32.c:591-606 | a successful append leaves the old data followed by the new if and only if the old data has at most 4000 bytes and all of it at most 4095 |
| `FatRuns.OverwriteEffect` | kernel/fs/fat32.c:302-350 | a write through the handle of a file lays the bytes in reach over its data, returns their number, and changes no other file |
| `FatRuns.StepHolds` | kernel/fs/fat32.c:468-636 | every allowed call keeps the invariant and takes one step of the abstract map |
| `FatRuns.RunsRefine` | kernel/fs/fat32.c:468-636 | every run keeps the invariant and refines the abstract map |
| `FatAnyRuns.CreateOne` | kernel/fs/fat32.c:468-501 | create, under any name, succeeds if and only if a slot and the clusters are there, and changes at most the first free slot to that file; every other entry keeps its contents |
| `FatAnyRuns.WriteOne` | kernel/fs/fat32.c:503-538 | the same of an overwrite, successful or not |
| `FatAnyRuns.DeleteOne` | kernel/fs/fat32.c:540-564 | delete frees the first slot of the name, if there is one; every other entry keeps its contents |
| `FatAnyRuns.MkdirOne` | kernel/fs/fat32.c:612-636 | the same of mkdir, which needs no cluster |
| `FatAnyRuns.OverwriteOne` | kernel/fs/fat32.c:302-350 | a write through the handle of the listed file lays the bytes in reach over its data; every other entry keeps its contents |
| `FatCells.SearchesAgree` | kernel/fs/fat32.c:415-453 | the searches on cells find what the directory scans find |
| `FatCells.DoSound` | kernel/fs/fat32.c:302-636 | every call, whatever its name, keeps the chains sound and makes one step on the row of cells |
| `FatCells.AppendCells` | kernel/fs/fat32.c:567-609 | append adds a file to the first free cell, after freeing the first cell of the raw name if the text lookup found a file |
| `FatCells.FilesOfCells` | kernel/fs/fat32.c:415-453 | the map of names is read off the cells: each name has the node of its first cell |
| `FatCells.CreatedFound` | kernel/fs/fat32.c:468-501 | a file just created is found if and only if its raw name does not start with the mark of a deleted slot |
| `FatCells.HiddenLoses` | kernel/fs/fat32.c:468-501 | otherwise its slot is still the first free one and its clusters are neither free nor in any chain |
| `FatCells.AnyRunsRefine` | kernel/fs/fat32.c:302-636 | in every state of every run of any calls the chains are acyclic, end in an end mark, are disjoint and hold no free cluster, and every call makes one step on the row of cells |
| `FatExamples.FormattedNamed` | kernel/fs/fat32.c:415-453 | a root directory of END slots only satisfies the invariant of all runs and holds no file |
| `FatExamples.CreatedTwice` | kernel/fs/fat32.c:468-501 | a volume on which two creates of one name both succeed |
| `FatExamples.EmptyOnFull` | kernel/fs/fat32.c:484-500 | a full volume on which creating an empty file succeeds without a cluster |
| `FatExamples.AppendLosesFile` | kernel/fs/fat32.c:567-609 | a volume on which an append fails and the file is gone |
| `FatExamples.AppendCuts` | kernel/fs/fat32.c:591-606 | a file of 4001 bytes that loses its last byte in an append |
| `FatExamples.AppendAddsSecond` | kernel/fs/fat32.c:567-609 | a name of nine characters: a create and an append leave two entries of one raw name |
| `FatExamples.HiddenFileLost` | kernel/fs/fat32.c:468-501 | a file named with the byte 0xE5: created, not found, its cluster lost |
| `FatExamples.LargeReadWrong` | kernel/fs/fat32.c:272-291 | a volume and a file of 2^31 bytes whose read returns something else |
| `FatPatch.WrittenIs` | kernel/fs/fat32.c:302-350 | the loop of an in-place write leaves one volume only: the old one with the bytes laid over the chain |
| `FatPatch.FileWriteEffect` | kernel/fs/fat32.c:302-350 | an in-place write keeps the invariant, the directory and every other file, and changes its file as laid over |
| `FatPatch.WrittenData` | kernel/fs/fat32.c:302-350 | after it the file's data is the old data with the clipped range replaced |
| `FatPatch.ReadOverWrite` | kernel/fs/fat32.c:246-350 | what a read at any offset and count through the same handle is to return after a write |
| `FatBigRead.RawInCluster` | kernel/fs/fat32.c:277-291 | inside a cluster the sectors copied are the chain's |
| `FatBigRead.ContiguousRight` | kernel/fs/fat32.c:272-291 | a read of 2^31 bytes or more is right when the clusters it covers lie one after the other |
| `FatBigRead.GapShows` | kernel/fs/fat32.c:272-291 | for any gap among them a data area on which the read returns a wrong byte or too few |
| `FatBigRead.BigReadIff` | kernel/fs/fat32.c:272-291 | such a read is right whatever the disk holds if and only if those clusters lie one after the other |
| `FatLayout.WordWritten` | kernel/fs/fat32.c:119-142 | writing one word of a table sector to every copy changes that entry and nothing else |
| `FatLayout.LinkWritten` | kernel/fs/fat32.c:119-142 | the masked update sets the 28-bit link and keeps the reserved nibble, in every copy |
| `FatLayout.DataWritten` | kernel/fs/fat32.c:101-103 | a data sector write changes no table word and no other data sector |
| `FatLayout.TableDeterminesBytes` | kernel/fs/fat32.c:119-142 | equal tables mean equal bytes in all copies |
| `FatFormat.LittleEndian` | kernel/fs/fat32.c:105-142 | words are read and written least byte first |
| `FatFormat.RecordFields` | kernel/fs/fat32.c:48-62 | the byte offsets of the fields of a directory record |
| `FatFormat.FileRecord` | kernel/fs/fat32.c:483-500 | the 32 bytes of the record of a new file |
| `FatFormat.FolderRecord` | kernel/fs/fat32.c:625-635 | the bytes of the record of a new directory |
| `FatFormat.UpdatedRecord` | kernel/fs/fat32.c:529-537 | what an overwrite changes in a record |
| `FatFormat.DeletedRecord` | kernel/fs/fat32.c:560-563 | a deleted record differs in its first byte, 0xE5 |
| `FatFormat.RecordKinds` | kernel/fs/fat32.c:415-453 | end, free, hidden and directory records by their bytes |
| `FatFormat.TableBytes` | kernel/fs/fat32.c:105-142 | entry c of the table is the word at byte 4c of every copy, link and reserved bits |
| `FatFormat.ChainWords` | kernel/fs/fat32.c:352-389 | a new chain links its clusters and ends in 0x0FFFFFF8; free clusters have link 0 |
| `FatFormat.ChainEnds` | kernel/fs/fat32.c:105-117 | a chain may end in any link from 0x0FFFFFF8 on, and every walk stops at a link from 0x0FFFFFF7 on |
| `FatFormat.DataSector` | kernel/fs/fat32.c:101-103 | the disk address of a sector of a cluster |
| `FatLoops.FreeingStep` | kernel/fs/fat32.c:391-399 | one round of the free loop clears a cluster not met before; one met before ends the walk |
| `FatDriver.Driver.NextCluster` | kernel/fs/fat32.c:105-117 | reads the 28-bit link of the table |
| `FatDriver.Driver.WriteFat` | kernel/fs/fat32.c:119-142 | changes that link, in every copy, and nothing else of the volume |
| `FatDriver.Driver.AllocCluster` | kernel/fs/fat32.c:144-171 | returns the lowest free cluster and marks it as an end, or 0 and no change |
| `FatDriver.Driver.FreeClusterChain` | kernel/fs/fat32.c:391-399 | terminates on every table with links in range and clears exactly the reachable clusters |
| `FatDriver.Driver.WriteClusterChain` | kernel/fs/fat32.c:352-389 | stores the content over the lowest free clusters, or takes all and returns 0 |
| `FatDriver.Driver.FileRead` | kernel/fs/fat32.c:246-300 | below 2^31 clipped bytes exactly the slice of the file's data; from there on the consecutive sectors from its first byte on, as far as the disk goes |
| `FatDriver.Driver.FileWrite` | kernel/fs/fat32.c:302-350 | overlays the data on the contents over the clipped range and changes nothing else |
| `FatDriver.Driver.WriteThenRead` | kernel/fs/fat32.c:246-350 | a write and then a read through the same handle: below 2^31 clipped bytes the old data overlaid with the written bytes, from there on the consecutive sectors |
| `FatDriver.Driver.OverwriteFile` | kernel/fs/fat32.c:302-350 | the count and the volume are those of the in-place write |
| `FatDriver.Driver.DirIterate` | kernel/fs/fat32.c:225-244 | applies the callback to the root slots in order until it stops |
| `FatDriver.Driver.WriteDirEntry` | kernel/fs/fat32.c:456-466 | replaces one 32-byte record |
| `FatDriver.Driver.SearchFree` | kernel/fs/fat32.c:415-453 | finds the first free slot if and only if there is one |
| `FatDriver.Driver.SearchMatch` | kernel/fs/fat32.c:415-453 | finds the first slot with the name if and only if there is one |
| `FatDriver.Driver.FindText` | kernel/fs/fat32.c:677-709 | finds the first listed file whose text matches |
| `FatDriver.Driver.CreateFile` | kernel/fs/fat32.c:468-501 | the result code and the volume are those of create |
| `FatDriver.Driver.WriteFile` | kernel/fs/fat32.c:503-538 | the result code and the volume are those of write |
| `FatDriver.Driver.DeleteFile` | kernel/fs/fat32.c:540-564 | the result code and the volume are those of delete |
| `FatDriver.Driver.AppendFile` | kernel/fs/fat32.c:567-609 | the result code and the volume are those of append |
| `FatDriver.Driver.MakeDirectory` | kernel/fs/fat32.c:612-636 | the result code and the volume are those of mkdir |
| `FatDriver.Driver.PerformAll` | kernel/fs/fat32.c:302-636 | any run of allowed calls on the raw disk is a run of the abstract file system, with the codes returned |
| `FatDriver.Driver.PerformAny` | kernel/fs/fat32.c:302-636 | any run of any calls on the raw disk keeps the chains sound and is a run of the row of cells, with the codes returned |
| `FatDriver.Driver.CreateThenDelete` | kernel/fs/fat32.c:468-564 | after creating an absent file the delete finds it unless its name hides it, and then leaves every byte of both tables as it was |
| `PhysicalMemory.AllocateKeeps` | kernel/mem/physical_mem/physical_mem.c:162-176 | an allocation overlaps no outstanding run and never returns block 0 |
| `PhysicalMemory.FreeKeeps` | kernel/mem/physical_mem/physical_mem.c:178-189 | giving back an outstanding run leaves all others outstanding |
| `PhysicalMemory.ReserveKeeps` | kernel/mem/physical_mem/physical_mem.c:65-78 | a reservation keeps every outstanding run and the counter's relation to the bits |
| `PhysicalMemory.FirstCounted` | kernel/mem/physical_mem/physical_mem.c:149-151 | the counter is right after the reservation of block 0 if and only if the block was free |
| `PhysicalMemory.FirstCountedTwice` | kernel/mem/physical_mem/physical_mem.c:149-151 | a bitmap on which block 0 is counted twice |
| `PhysicalMemory.RunStaysConsistent` | kernel/mem/physical_mem/physical_mem.c:159-189 | in every run of allocations, frees and reservations outstanding runs are disjoint and the counter equals the number of set bits plus a constant 0 or 1 |
| `PhysicalMemory.FreeUndoesAllocate` | kernel/mem/physical_mem/physical_mem.c:162-189 | freeing an allocation restores every bit and the counter |
| `PhysicalMemory.CountMarked` | kernel/mem/physical_mem/physical_mem.c:162-189 | marking a uniform run changes the number of set bits by its length |
| `PhysicalMemory.Bitmap.SetBlock` | kernel/mem/physical_mem/physical_mem.c:24-28 | sets one bit, out-of-range ones ignored |
| `PhysicalMemory.Bitmap.UnsetBlock` | kernel/mem/physical_mem/physical_mem.c:30-34 | clears one bit |
| `PhysicalMemory.Bitmap.FindFirstFree` | kernel/mem/physical_mem/physical_mem.c:36-62 | the lowest start of a fitting free run below 32*floor(max/32), or -1 if there is none |
| `PhysicalMemory.Bitmap.ReserveRegion` | kernel/mem/physical_mem/physical_mem.c:65-78 | sets exactly the blocks of the region and counts those that were free, at start-up and later |
| `PhysicalMemory.Bitmap.FreeRegion` | kernel/mem/physical_mem/physical_mem.c:81-92 | clears exactly the blocks of the region |
| `PhysicalMemory.Bitmap.ReserveFirst` | kernel/mem/physical_mem/physical_mem.c:149-151 | establishes the invariant, the counter one too high exactly if block 0 was set |
| `PhysicalMemory.Bitmap.StartUp` | kernel/mem/physical_mem/physical_mem.c:96-157 | after start-up over any memory map a block is free if and only if it is in an available region and in none of the kernel's, the boot information's, the bitmap's, block 0 and block 8; and the state is consistent |
| `PhysicalMemory.RegionCovered` | kernel/mem/physical_mem/physical_mem.c:65-92 | the blocks taken for a region hold all of it if and only if what lies before it in its first block fits in too |
| `PhysicalMemory.RegionCut` | kernel/mem/physical_mem/physical_mem.c:65-92 | a region whose second half is in no block taken for it |
| `PhysicalMemory.LastRefused` | kernel/mem/physical_mem/physical_mem.c:162-176 | a request that a run of free blocks would meet is refused if and only if it asks for all free blocks |
| `PhysicalMemory.LastBlockRefused` | kernel/mem/physical_mem/physical_mem.c:162-176 | a bitmap with one free block that is never handed out |
| `PhysicalMemory.Bitmap.AllocateBlocks` | kernel/mem/physical_mem/physical_mem.c:162-176 | is an allocation step of the state machine |
| `PhysicalMemory.Bitmap.FreeBlocks` | kernel/mem/physical_mem/physical_mem.c:178-189 | is a free step of the state machine |
| `PageTables.MakePteIs` | kernel/mem/virtual_mem/paging.c:74-81 | the entry is present, holds the frame, and has the other flag bits of the argument |
| `PageTables.SamePath` | include/mem/paging.h:10-13 | two addresses have the same four indices if and only if they lie in the same page (bits 12 to 47) |
| `PageTables.PathValue` | include/mem/paging.h:10-13 | the four indices and the offset make up the 48 bits of the address |
| `PageTables.WriteLast` | kernel/mem/virtual_mem/paging.c:74-89 | a last-level write changes one page of the flat map and keeps the tree |
| `PageTables.HangPaths` | kernel/mem/virtual_mem/paging.c:24-54 | where every path leads after a fresh table is hung in |
| `PageTables.HangKeeps` | kernel/mem/virtual_mem/paging.c:24-54 | hanging in a fresh zeroed table keeps the tree and every lookup |
| `PageTables.HangKeepsLinks` | kernel/mem/virtual_mem/paging.c:24-54 | every entry that leads to a table allows writing, after a table is hung in |
| `PageTables.WriteKeepsLinks` | kernel/mem/virtual_mem/paging.c:74-89 | and after a last-level write |
| `PageTables.GrantsIff` | kernel/mem/virtual_mem/paging.c:24-54 | so all four entries of a walk let the processor write if and only if the last one does |
| `Paging.FreeIsFresh` | kernel/mem/virtual_mem/paging.c:17-22 | a block the allocator had free is no table of the tree |
| `Paging.MmioTranslates` | kernel/mem/virtual_mem/paging.c:134-155 | each byte of a mapped device range translates to its device address |
| `Paging.PagesHold` | kernel/mem/virtual_mem/paging.c:134-155 | a window has exactly as many pages as the device needs |
| `Paging.UnmapRestores` | kernel/mem/virtual_mem/paging.c:157-171 | unmapping the window of any call, after all later ones, puts back its pages and leaves every other lookup alone |
| `Paging.UnmapOne` | kernel/mem/virtual_mem/paging.c:134-171 | after it every other device of the run is still reached |
| `Paging.RunTranslates` | kernel/mem/virtual_mem/paging.c:134-155 | at the end of a run every byte of every mapped device translates to its device address |
| `Paging.WindowsApart` | kernel/mem/virtual_mem/paging.c:134-155 | the windows of any two calls of a run are disjoint |
| `Paging.EarlierWindowsKept` | kernel/mem/virtual_mem/paging.c:134-155 | later calls, failed ones included, change nothing below their windows |
| `Paging.InitialIs` | kernel/mem/virtual_mem/paging.c:98-132 | the flat map after start-up, page by page |
| `Paging.FramebufferCovered` | kernel/mem/virtual_mem/paging.c:108-120 | the pages mapped for the framebuffer hold all of it |
| `Paging.InitialTranslates` | kernel/mem/virtual_mem/paging.c:98-132 | where start-up lets every address lead: kernel, framebuffer, the first 16 MB, and nothing else |
| `Paging.InitialWindowClear` | kernel/mem/virtual_mem/paging.c:98-132 | start-up maps nothing in the device window if the framebuffer lies below it |
| `Paging.EmptyTree` | kernel/mem/virtual_mem/paging.c:17-22 | a zeroed frame is a tree that maps nothing |
| `Paging.Vmm.GetPte` | kernel/mem/virtual_mem/paging.c:24-54 | finds or builds the last-level table of an address, its links present and writable; every lookup stays, also when it fails |
| `Paging.Vmm.Map` | kernel/mem/virtual_mem/paging.c:74-81 | changes the flat map at one page to the new entry, or at none on failure |
| `Paging.Vmm.Unmap` | kernel/mem/virtual_mem/paging.c:83-89 | clears one page of the flat map and no other |
| `Paging.Vmm.GetPhys` | kernel/mem/virtual_mem/paging.c:91-96 | the frame of a present entry, else 0 |
| `Paging.Vmm.NewRoot` | kernel/mem/virtual_mem/paging.c:17-22 | a new top-level table that maps nothing |
| `Paging.Vmm.MapRange` | kernel/mem/virtual_mem/paging.c:103-129 | maps a range of pages, or a prefix of it on failure |
| `Paging.Vmm.Init` | kernel/mem/virtual_mem/paging.c:98-132 | on success the flat map is exactly the identity, framebuffer and kernel mappings, and everything mapped can be written |
| `Paging.Vmm.MmioMap` | kernel/mem/virtual_mem/paging.c:134-155 | maps the pages into the next window and moves the window, also on failure; every byte of a mapped device is reached, uncached, and can be written |
| `Paging.Vmm.MapDevices` | kernel/mem/virtual_mem/paging.c:134-155 | calls one after the other form such a run, each window starting where the last one ended |
| `Paging.Vmm.BringUp` | kernel/mem/virtual_mem/paging.c:98-155 | after start-up and any list of device requests every mapped device is reached at the address its driver got, uncached, and can be written, and the start-up mappings are as they were |
| `Paging.Vmm.MmioUnmap` | kernel/mem/virtual_mem/paging.c:157-171 | clears exactly the pages of the range |
| `Paging.Vmm.MapThenUnmap` | kernel/mem/virtual_mem/paging.c:134-171 | after any list of requests and an unmap of one, its pages read as before its call and every other device is still reached |
| `GkSyntax.Parse` | kernel/gk/gk_parser.c:144-273 | a parsed expression takes at least one token, never passes EOF, and takes exactly its number of pool nodes |
| `GkSyntax.Primary` | kernel/gk/gk_parser.c:55-142 | the same of primary expressions |
| `GkSyntax.Args` | kernel/gk/gk_parser.c:114-123 | the same of the argument loop |
| `GkRoundTrip.RoundTrip` | kernel/gk/gk_parser.c:55-273 | parsing the minimally parenthesised form of any expression tree gives the tree and stops right after it |
| `GkRoundTrip.ParsePrint` | custom_language/syntax_guide.md:200-207 | the same at each of the precedence levels, before any token that ends the level, for tokens as the lexer emits them |
| `GkRoundTrip.ParseOperators` | kernel/gk/gk_parser.c:171-269 | an operator chain associates to the left |
| `GkRoundTrip.ParsedIsExpr` | kernel/gk/gk_parser.c:55-273 | every accepted expression is one of those trees |
| `GkPrecedence.GroupIsLevel` | custom_language/syntax_guide.md:200-207 | the levels of the parser are the groups of the guide's table |
| `GkPrecedence.GuideOrder` | custom_language/syntax_guide.md:200-207 | any two operators between any three operands are read as the table says: the tighter first, from the left within a group |
| `GkPrecedence.UnaryOrder` | kernel/gk/gk_parser.c:144-169 | a unary operator takes its operand before any binary one |
| `GkPrecedence.CallsByName` | kernel/gk/gk_parser.c:80-126 | calls of print, range, input and int have nodes of their own, all others are calls by name |
| `GkText.TokenReads` | kernel/gk/gk_lexer.c:104-196 | the lexer reads back every number, string, name, keyword and operator from its spelling |
| `GkText.WordCharacters` | kernel/gk/gk_lexer.c:104-196 | which characters start words and numbers |
| `GkText.LineReads` | kernel/gk/gk_lexer.c:104-196 | and any row of them, a space after each |
| `GkStatements.StmtRead` | kernel/gk/gk_parser.c:297-467 | parsing the printed form of any statement tree gives the tree and stops right after it, before anything that cannot belong to it |
| `GkStatements.StmtsRead` | kernel/gk/gk_parser.c:282-292 | the same for the statement loop of a block and of the program |
| `GkStatements.ProgramRead` | kernel/gk/gk_parser.c:469-488 | the same for programs |
| `GkSource.RowsRead` | kernel/gk/gk_lexer.c:72-209 | the lexer reads indented lines: INDENT and DEDENT where the depth changes, the tokens and a newline |
| `GkSource.StmtLayout` | kernel/gk/gk_lexer.c:94-102 | the indented lines of a statement have exactly the layout tokens that its blocks print |
| `GkReprint.SourceRoundTrip` | kernel/gk/gk_interp.c:436-457 | the indented text of a program, lexed and parsed, is that program, and refused if it has too many tokens |
| `GkReprint.AcceptedIsPrintable` | kernel/gk/gk_interp.c:436-457 | the tree of every accepted source is one of those programs |
| `GkReprint.Reprint` | kernel/gk/gk_interp.c:436-457 | every accepted source printed again stands for the same tree if and only if the printed tokens keep within the limit |
| `GkPool.LayoutRepresents` | kernel/gk/gk_parser.c:9-23 | following the indices of a laid-out tree unfolds to that tree |
| `GkPool.RepresentsOne` | kernel/gk/gk_parser.c:9-23 | an index stands for one tree at most |
| `GkPool.EachIndexOnce` | kernel/gk/gk_parser.c:9-23 | every index of the stretch is the root or the child of one node once: no sharing, none out of range |
| `GkPool.LayoutBinop` | kernel/gk/gk_parser.c:171-189 | operator nodes come after both operands |
| `GkPool.AddChild` | kernel/gk/gk_parser.c:114-123 | appending a child index keeps a layout |
| `GkGrammar.Stmt` | kernel/gk/gk_parser.c:297-467 | a parsed statement takes tokens and exactly its number of nodes |
| `GkGrammar.Stmts` | kernel/gk/gk_parser.c:282-292 | the statement loop ends, at top level only at EOF |
| `GkGrammar.Program` | kernel/gk/gk_parser.c:469-488 | a parsed program ends at EOF and fits the pool |
| `GkParser.Parser.NewNode` | kernel/gk/gk_parser.c:9-23 | appends an empty node, or fails when the pool is full |
| `GkParser.Parser.ParseBinary` | kernel/gk/gk_parser.c:171-273 | agrees with the grammar and appends exactly the layout of the tree, at each of the five binary levels |
| `GkParser.Parser.ParseUnary` | kernel/gk/gk_parser.c:144-169 | the same for unary operators |
| `GkParser.Parser.ParsePrimary` | kernel/gk/gk_parser.c:55-142 | the same for primary expressions |
| `GkParser.Parser.ParseCall` | kernel/gk/gk_parser.c:80-126 | the same for calls and built-ins |
| `GkParser.Parser.ParseBlock` | kernel/gk/gk_parser.c:275-295 | the same for blocks |
| `GkParser.Parser.ParseStmt` | kernel/gk/gk_parser.c:297-467 | the same for statements |
| `GkParser.Parser.ParseDef` | kernel/gk/gk_parser.c:327-362 | the same for definitions; no child is stored past the 64th place |
| `GkParser.Parser.ParseIf` | kernel/gk/gk_parser.c:364-397 | the same for if, elif and else |
| `GkParser.Parser.ParseProgram` | kernel/gk/gk_parser.c:469-488 | terminates on every token stream that ends in EOF; on success the pool is exactly one finite tree with root 0, else the error is set |
| `GkShapes.ProgramShaped` | kernel/gk/gk_parser.c:297-488 | every accepted program is a block of well-formed statements |
| `GkShapes.ProgramParsed` | kernel/gk/gk_parser.c:297-488 | and one of the trees that can be printed |
| `GkValues.ReadUndoesShow` | kernel/gk/gk_interp.c:29-38 | int() reads back every integer as it is printed |
| `GkLaws.SumLaws` | kernel/gk/gk_interp.c:193-196 | addition and subtraction: unit, order of operands, grouping, one undoes the other; unary minus is 0 minus |
| `GkLaws.ProductLaws` | kernel/gk/gk_interp.c:193-196 | the ring laws of multiplication |
| `GkLaws.DivisionLaws` | kernel/gk/gk_interp.c:197-202 | quotient and remainder give the number back, the remainder is smaller than the divisor and has the number's sign; by 0 they are errors |
| `GkLaws.OrderLaws` | kernel/gk/gk_interp.c:175-206 | exactly one of less, equal and greater holds, the other comparisons are their unions, and order goes with addition |
| `GkLaws.TypeLaws` | kernel/gk/gk_interp.c:166-192 | equality of values of any type, and the operators that ask for integers |
| `GkLaws.JoinLaws` | kernel/gk/gk_interp.c:166-173 | joining puts the printed form behind the text, cut at 255 characters |
| `GkLaws.TextOfNumber` | kernel/gk/gk_interp.c:166-173 | a number joined to an empty text and read by int() is that number |
| `GkLaws.NumeralIs` | kernel/gk/gk_interp.c:28-38 | numbers are printed in digits, a minus sign before the negative ones, no leading zeros |
| `GkLaws.PrintedWords` | kernel/gk/gk_interp.c:57-62 | the words that truth values and None are printed as |
| `GkLaws.TruthLaws` | kernel/gk/gk_interp.c:150-159 | which values are false, and that not turns truth around |
| `GkLaws.LogicLaws` | kernel/gk/gk_interp.c:150-159 | the truth tables of and and or, the right side not run when the left decides |
| `GkLaws.Difference` | kernel/gk/gk_interp.c:161-196 | the program a - b gives the number that added to b is a |
| `GkLaws.LinesInOrder` | kernel/gk/gk_interp.c:161-173 | operands are evaluated from the left: input() + input() joins the first line and the second |
| `GkLaws.PrintShows` | kernel/gk/gk_interp.c:213-224 | print shows any numbers in order, a space between two and a newline at the end |
| `GkLaws.BranchLaws` | kernel/gk/gk_interp.c:289-298 | which part of an if is run |
| `GkLaws.LoopLaws` | kernel/gk/gk_interp.c:300-311 | how a while loop goes on, and how it ends |
| `GkLaws.CountsUp` | kernel/gk/gk_interp.c:313-338 | a for loop over range(n) takes its variable through 0 to n - 1, in order |
| `GkLaws.TurnLaws` | kernel/gk/gk_interp.c:329-338 | how a for loop goes on, and how it ends |
| `GkLaws.PromptLaw` | kernel/gk/gk_interp.c:226-248 | input(p) shows the prompt and gives the next line |
| `GkLaws.CallPasses` | kernel/gk/gk_interp.c:356-395 | a call hands its arguments to the parameters in their order |
| `GkLaws.VariableLimit` | include/gk/gk.h:45-45 | a variable is refused if and only if it is new and 128 are there |
| `GkLaws.DefinitionLimit` | include/gk/gk.h:46-47 | a definition is refused if and only if 64 are there; the first eight parameters are kept, in order |
| `GkLaws.DepthLimit` | include/gk/gk.h:48-48 | a call at depth 32 is an error |
| `GkValues.FindVar` | kernel/gk/gk_interp.c:63-68 | the last variable of that name |
| `GkValues.FindVarInnermost` | kernel/gk/gk_interp.c:63-68 | it is the only one in the innermost scope that has the name |
| `GkValues.FindLocalComplete` | kernel/gk/gk_interp.c:70-77 | the search that stops at an outer scope misses no variable of the current one |
| `GkValues.SetVarLayered` | kernel/gk/gk_interp.c:70-88 | an assignment keeps scopes nondecreasing and names unique within a scope |
| `GkValues.SetVarReads` | kernel/gk/gk_interp.c:63-88 | after an assignment the name reads as the new value and every other name as before |
| `GkValues.PopScopeIs` | kernel/gk/gk_interp.c:90-95 | popping removes exactly the variables of the scope and above |
| `GkValues.SetVarKeepsOuter` | kernel/gk/gk_interp.c:70-95 | an assignment leaves all outer scopes alone |
| `GkAgreement.Agree` | kernel/gk/gk_interp.c:107-415 | at every fuel the flags, error and value stand for the outcome of the big-step semantics |
| `GkAgreement.AgreeWhile` | kernel/gk/gk_interp.c:300-311 | the same for while loops: break and continue are absorbed |
| `GkAgreement.AgreeTurns` | kernel/gk/gk_interp.c:329-338 | the same for the turns of a for loop |
| `GkAgreement.AgreeLogic` | kernel/gk/gk_interp.c:150-159 | the same for and/or, although no error is looked at between the operands |
| `GkAgreement.AgreeBody` | kernel/gk/gk_interp.c:378-395 | the same for the body of a call |
| `GkAgreement.ProgramsAgree` | kernel/gk/gk_interp.c:417-469 | the same for whole programs from a fresh state; a break or continue never escapes |
| `GkScopes.Keep` | kernel/gk/gk_interp.c:107-415 | evaluation keeps the depth and the form of the table, on errors too; without one, outer scopes, and in expressions the whole table |
| `GkScopes.CallRestores` | kernel/gk/gk_interp.c:356-395 | an error-free call leaves the depth and the variable table exactly as before |
| `GkScopes.RunKeepsLayers` | kernel/gk/gk_interp.c:417-469 | every run ends at depth 0 with a layered table |
| `GkScopes.KeepSteady` | kernel/gk/gk_interp.c:107-415 | the state invariant (layers, depth at most 32) holds after every evaluation |
| `GkFuel.MoreFuel` | kernel/gk/gk_interp.c:107-415 | an evaluation that finishes has the same result with any more fuel |
| `GkGuide.SecondDefinition` | kernel/gk/gk_interp.c:98-103 | calls reach a new definition if and only if the name was undefined or defined the same way |
| `GkGuide.SecondDefinitionIgnored` | kernel/gk/gk_interp.c:340-354 | a program whose second definition has no effect |
| `GkGuide.EqualToItself` | kernel/gk/gk_interp.c:175-186 | a value equals itself if and only if it is not None |
| `GkGuide.NoneDiffersFromItself` | kernel/gk/gk_interp.c:175-186 | a program that compares None with None and gets False |
| `GkGuide.BlockLast` | kernel/gk/gk_interp.c:279-287 | a block ends as its last statement does when the others end normally |
| `GkGuide.EndOfBody` | kernel/gk/gk_interp.c:386-395 | a call that reaches the end of its body yields the value of the last statement |
| `GkGuide.ValueKind` | kernel/gk/gk_interp.c:107-415 | definitions, prints and what ends in one yield None; literals, operators, inputs and what ends in one never do |
| `GkGuide.EndKind` | kernel/gk/gk_interp.c:386-395 | so a call that reaches the end of its body yields None after the first and not after the second |
| `GkGuide.BodyYieldsLastValue` | kernel/gk/gk_interp.c:386-395 | a program whose function has no return and yields 7 |
| `GkGuide.OuterRead` | kernel/gk/gk_interp.c:63-68 | a name is read from an outer scope if and only if the current one has no variable of that name |
| `GkGuide.CallerSeen` | kernel/gk/gk_interp.c:63-68 | a program in which a function reads its caller's variable |
| `GkMachine.Machine.FindVariable` | kernel/gk/gk_interp.c:63-68 | the search loop finds the last variable of the name |
| `GkMachine.Machine.SetVariable` | kernel/gk/gk_interp.c:70-88 | updates or appends as specified, or reports a full table |
| `GkMachine.Machine.PopVariables` | kernel/gk/gk_interp.c:90-95 | pops the current scope |
| `GkMachine.Machine.FindFunction` | kernel/gk/gk_interp.c:98-103 | the first function of the name |
| `GkMachine.Machine.Eval` | kernel/gk/gk_interp.c:107-415 | the object's new state and value are those of the evaluator function, and the state invariant holds at every entry |
| `GkMachine.Machine.EvalBlock` | kernel/gk/gk_interp.c:279-287 | the block loop, stopped by a flag or an error |
| `GkMachine.Machine.EvalWhile` | kernel/gk/gk_interp.c:300-311 | the while loop |
| `GkMachine.Machine.EvalTurns` | kernel/gk/gk_interp.c:329-338 | the for loop |
| `GkMachine.Machine.EvalBody` | kernel/gk/gk_interp.c:378-395 | binding parameters, running the body, popping the scope |
| `GkLexer.PieceAt` | kernel/gk/gk_lexer.c:104-196 | at most one token, never a layout token, and progress |
| `GkLexer.ProgramWellFormed` | kernel/gk/gk_lexer.c:72-209 | INDENT and DEDENT balance and EOF is once and last |
| `GkLexer.BalanceCounts` | kernel/gk/gk_lexer.c:94-102 | every prefix has at least as many INDENT as DEDENT and the totals are equal |
| `GkLexer.LexedIs` | kernel/gk/gk_lexer.c:72-209 | both, of every accepted source; the tokens are what the parser asks for |
| `GkComments.CommentAfter` | kernel/gk/gk_lexer.c:104-112 | a line followed by a comment has the tokens of the line |
| `GkComments.LineByLine` | kernel/gk/gk_lexer.c:72-209 | the lexer works line by line, on the code of the lines alone |
| `GkComments.CommentsIgnored` | kernel/gk/gk_lexer.c:72-112 | a program and the program without its comments have the same tokens |
| `GkSource.TabsCount` | kernel/gk/gk_lexer.c:78-92 | the depth of a line is the number of its leading spaces and four for each tab after them |
| `GkLexer.Pop` | kernel/gk/gk_lexer.c:98-101 | the indentation stack stays strictly increasing |
| `GkLexer.Lexer.Emit` | kernel/gk/gk_lexer.c:47-58 | keeps the token if there is room, and says so |
| `GkLexer.Lexer.LexPiece` | kernel/gk/gk_lexer.c:104-196 | one token of a line, operators emitted without a check |
| `GkLexer.Lexer.Lex` | kernel/gk/gk_lexer.c:72-209 | returns true if and only if the source is accepted and all its tokens fit, and then none is missing |
| `GkRun.Run` | kernel/gk/gk_interp.c:436-469 | refuses exactly the sources without a tree; otherwise reports what the flags say, which is the outcome of the big-step semantics when breaks and continues lie in loops |
| `Kmalloc.SearchDecided` | kernel/mem.c:74-83 | following one link per block decides the list search: if it has not ended then, it never ends |
| `Kmalloc.EndlessIff` | kernel/mem.c:74-83 | kmalloc never returns if and only if all that the list leads to are blocks, none of them free and large enough |
| `Kmalloc.AcyclicEnds` | kernel/mem.c:74-83 | on a list that ends every search ends |
| `Kmalloc.FreeAcyclic` | kernel/mem.c:137-149 | kfree leaves a list that ends if and only if it ended and the block was not already on it |
| `Kmalloc.MallocAcyclic` | kernel/mem.c:114-135 | kmalloc neither closes nor opens a cycle |
| `Kmalloc.RunAcyclic` | kernel/mem.c:63-149 | over every run the list ends if and only if no kfree was of a block still linked |
| `Kmalloc.TilesOnce` | kernel/mem.c:86-111 | every address of the used window lies in exactly one block |
| `Kmalloc.LivePayloads` | kernel/mem.c:114-149 | live payloads are disjoint, 8-aligned, in the window and as large as requested |
| `Kmalloc.FreeKeeps` | kernel/mem.c:137-149 | kfree of a live pointer keeps the invariant |
| `Kmalloc.SplitKeeps` | kernel/mem.c:98-111 | splitting a block keeps the tiling |
| `Kmalloc.CreateKeeps` | kernel/mem.c:86-96 | a new block at the end keeps the tiling |
| `Kmalloc.MallocKeeps` | kernel/mem.c:114-135 | kmalloc returns a pointer that is not live, large enough and aligned, and keeps the invariant |
| `Kmalloc.RunSound` | kernel/mem.c:63-149 | the invariant holds in every state of every run, cyclic lists included |
| `Kmalloc.CyclicList` | kernel/mem.c:114-149 | a run of four calls after which a fifth never returns |
| `Kmalloc.WrappedRequest` | kernel/mem.c:86-96 | a request of 2^64 - 1 bytes that yields a pointer with no byte behind it |
| `Kmalloc.MallocMeets` | kernel/mem.c:86-96 | a request is met if and only if no 64-bit sum wraps |
| `Kmalloc.FreedIsReused` | kernel/mem.c:114-149 | what is freed last is taken first: a request that fits gets the same pointer back |
| `Kmalloc.FirstPointer` | kernel/mem.c:63-67 | the first pointer of a fresh heap is 0x200010 |
| `Kmalloc.SplitShares` | kernel/mem.c:98-111 | when a block is split, what the two parts are, and that nothing else changes |
| `Kmalloc.CreateFits` | kernel/mem.c:86-96 | a new block is made if and only if it ends at 0x500000 or before |
| `Kmalloc.Allocator.FindFree` | kernel/mem.c:74-83 | the first suitable block of the list, null, or that the walk never ends |
| `Kmalloc.Allocator.CreateBlock` | kernel/mem.c:86-96 | a new block as specified |
| `Kmalloc.Allocator.SplitBlock` | kernel/mem.c:98-111 | a split as specified |
| `Kmalloc.Allocator.Allocate` | kernel/mem.c:114-135 | kmalloc as specified |
| `Kmalloc.Allocator.Release` | kernel/mem.c:137-149 | kfree as specified |
| `Checksum.FoldIs` | kernel/net/ip.c:19-20 | folding is reduction modulo 0xFFFF with 0xFFFF for nonzero multiples |
| `Checksum.ChecksIff` | kernel/net/ip.c:8-23 | a message has checksum 0 if and only if its sum is a positive multiple of 0xFFFF |
| `Checksum.FillChecks` | kernel/net/ip.c:37-44 | filling a zeroed aligned field with the computed checksum makes the message check, for every length |
| `Checksum.OneWordDetected` | kernel/net/ip.c:8-23 | exactly which changes of one word go unnoticed |
| `Checksum.SumFits` | kernel/net/ip.c:12-17 | no partial sum of 65535 bytes overflows 32 bits |
| `Checksum.Compute` | kernel/net/ip.c:8-23 | the accumulator and folding loops compute the checksum and terminate |
| `Checksum.Seal` | kernel/net/ip.c:43-44 | filling the field in place makes the message check and changes nothing else |
| `Checksum.HeaderFields` | kernel/net/ip.c:29-41 | what a receiver reads at every offset of section 3.1 of RFC 791 |
| `Checksum.MessageFields` | kernel/net/icmp.c:41-46 | type, code, identifier, sequence number and payload of an echo message at their offsets |
| `Checksum.IpSend` | kernel/net/ip.c:25-44 | the header built in place checks, a receiver reads the given addresses, protocol and length from it, and the payload follows |
| `Checksum.IcmpReply` | kernel/net/icmp.c:34-49 | the reply built in the buffer checks and a receiver reads the given id, sequence number and payload from it |
| `Editor.OffsetRoundTrip` | kernel/editor/editor.c:30-57 | line start of the line of an offset plus its column is the offset |
| `Editor.PlaceRoundTrip` | kernel/editor/editor.c:30-63 | line and column of line start plus column are the given ones |
| `Editor.ColFits` | kernel/editor/editor.c:53-63 | a column never exceeds the length of its line |
| `Editor.VerticalMoves` | kernel/editor/editor.c:141-158 | up and down land on the adjacent line at the smaller of column and line length |
| `Editor.DownUndoesUp` | kernel/editor/editor.c:141-158 | down undoes up if and only if the line above is long enough |
| `Editor.WithinCapacity` | kernel/editor/editor.c:117-126 | no run of keys grows the text past the capacity |
| `Editor.PressInverses` | kernel/editor/editor.c:117-139 | backspace undoes typing, left and right undo each other |
| `Editor.TypedAt` | kernel/editor/editor.c:117-126 | a typed character comes to stand left of the cursor, between what was before and after it; a full buffer stays as it is |
| `Editor.MovedAt` | kernel/editor/editor.c:128-139 | what backspace, left and right do to text and cursor |
| `Editor.Buffer.FindLineStart` | kernel/editor/editor.c:30-37 | the loop finds the start of the line |
| `Editor.Buffer.CountLines` | kernel/editor/editor.c:39-44 | the loop counts the lines |
| `Editor.Buffer.OffsetToLine` | kernel/editor/editor.c:46-51 | the loop finds the line |
| `Editor.Buffer.OffsetToCol` | kernel/editor/editor.c:53-57 | the loop finds the column |
| `Editor.Buffer.FindLineLen` | kernel/editor/editor.c:59-63 | the loop finds the length of a line |
| `Editor.Buffer.Insert` | kernel/editor/editor.c:117-126 | the shift loop inserts left of the cursor, unless the buffer is full |
| `Editor.Buffer.DeleteBack` | kernel/editor/editor.c:128-136 | the shift loop removes the character left of the cursor |
| `Editor.Buffer.MoveUp` | kernel/editor/editor.c:141-148 | the zipper's move up |
| `Editor.Buffer.MoveDown` | kernel/editor/editor.c:150-158 | the zipper's move down |
| `Editor.Buffer.Run` | kernel/editor/editor.c:231-275 | every run of editing keys refines the zipper |

## Left out

- FatRuns.RunsRefine: the runs are of calls with well-formed 8.3 names, create and mkdir of absent names, and append to files, because otherwise the map of names is not a map; `FatCells.AnyRunsRefine` is about any calls.
- FatRuns.StepHolds: the same conditions on a single call; `FatCells.DoSound` is without them.
- FatDriver.Driver.PerformAll: the same conditions; `FatDriver.Driver.PerformAny` is without them.
- FatRuns.AppendEffect: the name is well formed and not a directory's; `FatRuns.AppendMisses` and `FatCells.AppendCells` cover the rest.
- FatRuns.OverwriteEffect: the name is well formed; `FatAnyRuns.OverwriteOne` is about any.
- FatRuns.TextLookup: the live names are forms of well-formed texts; `FatCells.SearchesAgree` is about any.
- FatNames.LookupsAgree: the slot holds the form of a well-formed text; `FatNames.AgreeingSlots` says which slots agree.
- FatOps.CreateEffect: the name is absent; `FatAnyRuns.CreateOne` is about present ones too.
- FatOps.MkdirEffect: the name is absent; `FatAnyRuns.MkdirOne` is about present ones too.
- FatDriver.Driver.CreateThenDelete: the name is absent, because the delete would take the earlier entry.
- FatDriver.Driver.FileRead: a read past the end of the disk is an error of the drive, and the disk has fewer than 2^32 sectors.
- FatDriver.Driver.DirIterate: the callback is told the sector counted from the first data sector instead of its disk address.
- FatDriver.Driver.FindText: the two-pass enumeration with its heap-allocated list is one scan over the same slots.
- Disk read and write errors: the sector store is reliable. The static sector buffers are locals.
- The size of the disk: as in the driver, allocation does not consult `total_sectors`; the model asks that every table entry has its data cluster.
- Mounting a volume and parsing its boot sector; subdirectories below the root, which the driver does not descend into.
- Bitmap words: 32 flags per word instead of bit operations on integers; fewer than 2^31 blocks, as the signed result of the search needs.
- Parsing the memory map at start-up: its available regions are a list.
- TLB flushes, CR3 loads, the page-fault handler, and stores made through mapped pages.
- Paging.Vmm.MmioMap: requires that the window does not run past the top of the address space.
- Paging.Vmm.Init: requires that the framebuffer does not reach past bit 47, where page numbers would wrap.
- Paging.InitialTranslates: the framebuffer lies in the lower half of the address space.
- GkComments.CommentsIgnored: the strings of the code are closed on their line; an open one would take in the comment.
- GkParser.Parser.ParseBinary: the five functions from `parse_or` to `parse_mul` are one method with a level, since they differ in the operators only.
- GkParser.Parser.ParseDef: requires at most 63 parameters per definition, because the source stores them without a check; the texts of the messages are an enumeration; line numbers are dropped.
- GkLexer.Lexer.Lex: requires at most 63 open blocks, because the stack of 64 is pushed without a check; integer literals do not wrap; line numbers are dropped.
- GkMachine.Machine.Eval: takes the tree that the node pool represents instead of an index, and a fuel; running out of fuel is an outcome of its own, and the agreement with the semantics holds at every fuel. Integers are unbounded, and names are not cut at 64 characters. Input lines are a parameter.
- GkAgreement.Agree: breaks and continues lie in loops of the same body, because a stray one sets a flag that a later loop of the caller takes; `GkRun.Run` reports the flags for every program.
- GkAgreement.ProgramsAgree: the same condition.
- GkReprint.SourceRoundTrip: one layout of the text, four spaces per block and a space after each token; a block without statements is a line of white space.
- The state that a second `gk_run` on the same interpreter finds: functions kept from an earlier program refer to a pool that has been rebuilt.
- Kmalloc.Allocator.FindFree: counts its steps to report a walk that would never end; the source has no such count. Block sizes are not cut to 32 bits, which no request without a wrapped sum reaches.
- Kmalloc.MallocKeeps: no 64-bit sum wraps, because a wrapped request is not met (`Kmalloc.MallocMeets`).
- Kmalloc.CreateKeeps: the same condition.
- Kmalloc.RunSound: the same condition on every request of the run.
- Free blocks that a cyclic list has lost are still tiled but may never be found again; nothing is claimed about reuse. `combine_blocks` is never called.
- Disjointness of the heap window from frames of the frame allocator.
- Checksum.IpSend: address resolution and the frame itself; the payload has to fit the buffer of 1514 bytes, which the source does not check.
- Checksum.IcmpReply: the message has to fit the buffer of 1024 bytes, which the source does not check.
- Editor.Buffer.OffsetToCol: offsets within the text, the only ones it is asked for.
- Editor: drawing, scrolling, loading and saving; `memcpy`, `memmove` and string helpers.
- ATA, PCI, APIC, ACPI, keyboard, interrupts, framebuffer, serial port, network card, ARP cache, process queue, ELF loading, shell and printf: hardware, user interface or routine.
