# egos-2000 in Dafny

A model of the parts of egos-2000 that carry state or arithmetic, with proofs of what they
are for. `dafny verify dfyconfig.toml` checks all of it.

**The treedisk file system** (`Tree*.dfy`). Many files share one array of blocks. A file is
a tree of 128-way blocks whose depth follows from its size, and 0 stands for a hole. The
free blocks form a list of reference blocks that hand themselves out last. `TreeLayout` gives
the meaning of a disk: `Files`, a sequence of blocks per inode. `TreeOwnership` gives the
invariant `Valid`, by a ghost map that says what each block is used for. `TreeWrite` has the
lemmas for each change a write makes. `TreeDisk.Store` is the code, with in-place snapshot
and buffers. A write is proved to refine the update of one sequence, to cost an exact number
of blocks, to halt exactly when fewer are free, and to keep every other inode intact after
each single block it writes below.

**The kernel** (`KernelModel`, `KernelSweep`, `KernelRuns`, `KernelHistory`, `KernelHalts`,
`Kernel`). The process table, round-robin scheduling and synchronous send and receive.
`KernelModel` is the state machine, `Kernel.Machine` the code on the process array that
refines it. A send latches its message into a waiting receiver, and the receive completes
when the sweep comes to the receiver. The invariant that makes this work is an order: seen
from the process that runs now, a sender that can still latch is always met before its
receiver. From it follow that the kernel stops with "no process to run" only when there is
none, that otherwise the first process in order that can go on is the one to run, that
waiting is bounded, and that each message is delivered exactly once, word for word from the
sender's private argument page to the receiver's.

**Memory** (`SoftTlb`, `IdentityMap`, `ElfLoader`). The software TLB copies the pages of one
process at a time into a shared region. `Abs` reads the private memory of each process off
the shared RAM, and every step and every run is proved to be the same step or run on private
memories. `IdentityMap` builds two-level page tables in the memory they map, and the walk of
the hardware (section 4.3.2 of the RISC-V privileged specification v1.10) is proved to map
RAM and the device addresses to themselves and no other address at all. `ElfLoader` loads
segments, arguments and stack for a process that is not running.

**Arithmetic and text.** `Crc32` proves the shift register equal to polynomial long division by
the generator of IEEE 802.3 section 3.2.9, and `CrcWords` proves the loops on machine words
equal to that register. `Checksum` proves the loops equal to ones'
complement addition (section 1 of RFC 1071). `Directory` reads back what the image tool
prints. `Tokenizer` splits a command line. `Handshake` is the shell and the process server,
with applications that come and go.

Words are unbounded integers below 2^32, with wrap-around written out where it matters,
32 bits in `Crc32`, and machine words in `CrcWords`. Characters are unsigned, as they are on
RISC-V. A halt of the source (`panic`, `FATAL`) is an outcome. The disk below the tree layer is
an array of blocks that does not fail. Directory names, programs, replies of other servers,
the contents of the file being loaded and the platform are parameters.

Where the code does less than it is meant to, the model follows the code. A segment is to have
its memory size (chapter 5 of the System V ABI), but the loader maps pages only up to
floor((address + memory size) / 4096). `ElfLoader.MemoryMapped` says exactly when that covers
the segment, and `ElfLoader.MemoryMissing` is a segment that gets no page at all.

## Model

| member | source | states |
|---|---|---|
| TreeLayout.LogShiftIsPrefix | library/file/file1.c:73-78 | the bounded shift by a multiple of the index width divides by that power of 128, for every multiple, past the word width too |
| TreeLayout.PrefixSplit | library/file/file1.c:226-227 | the index of a node at one level is 128 times the index of its parent plus its slot, and slots are below 128 |
| TreeLayout.LevelsForLeast | library/file/file1.c:195-202 | the number of levels counted is the least one whose tree holds the offset |
| TreeOwnership.HeadMeansFree | library/file/file1.c:118-119 | the head of the free list is 0 exactly when no block is free |
| TreeOwnership.TakeSpare | library/file/file1.c:146-153 | taking a reference out of the first list block leaves a well-formed free list without that block |
| TreeOwnership.TakeHead | library/file/file1.c:138-145 | a list block without references can be taken itself, and the list behind it is well-formed |
| TreeOwnership.LookupVia | library/file/file1.c:204-228 | a walk from the root passes through every node on the path of the offset |
| TreeOwnership.LookupHit | library/file/file1.c:204-228 | the walk to the index of a data block ends at that block |
| TreeOwnership.LookupHole | library/file/file1.c:208-213 | if no data block has the offset as index, the walk gives zeros |
| TreeOwnership.GrowRoot | library/file/file1.c:269-291 | a new root over the old one makes every tree one level deeper without changing the index of a block |
| TreeOwnership.LinkRoot | library/file/file1.c:313-319 | a first root in an inode keeps all trees well-formed |
| TreeOwnership.LinkChild | library/file/file1.c:313-319 | a new block in an empty slot keeps all trees well-formed |
| TreeOwnership.SameLookup | library/file/file1.c:269-337 | while one inode is changed, walks in all other trees give the same blocks |
| TreeOwnership.ApartIsolated | library/file/file1.c:269-337 | if the nodes, roots and sizes of the others are untouched, the others have the same contents and the free list shares no block with them |
| TreeOwnership.FileRoles | library/file/file1.h:15-26 | the blocks reachable from an inode on disk are exactly those the invariant gives to it |
| TreeOwnership.FreeRoles | library/file/file1.h:28-31 | the blocks reachable through the free list are exactly the free ones |
| TreeOwnership.ListFinite | library/file/file1.h:28-31 | the free list ends, so it has no cycle |
| TreeOwnership.ValidPartition | library/file/file1.h:6-31 | read off the disk alone: superblock, inode blocks, trees and free list are disjoint and cover every block, no leak and no sharing |
| TreeOwnership.NoSharing | library/file/file1.h:6-31 | no block is referenced from two places |
| TreeWrite.SpareAllocated | library/file/file1.c:146-153 | allocation from a list block changes nothing but the free list and yields a block nobody uses |
| TreeWrite.HeadAllocated | library/file/file1.c:138-145 | allocation of the list block itself changes nothing but the superblock and yields a block nobody uses |
| TreeWrite.AllocatedCount | library/file/file1.c:114-156 | an allocation takes exactly one block |
| TreeWrite.BlockByRole | library/file/file1.c:178-230 | what is read at an offset is the data block with that index, or zeros if there is none |
| TreeWrite.OtherBlock | library/file/file1.c:234-339 | every block but the one written reads as before, and as zeros where the file grew |
| TreeWrite.WriteRefines | library/file/file1.c:234-339 | the files after a write are the files before with one sequence updated at one place and padded with zeros |
| TreeWrite.SizeFits | library/file/file1.c:258-260 | the size word is right for every offset but 2^32 - 1, and there it says the file is empty |
| TreeWrite.LastOffset | library/file/file1.c:258-260 | no disk whatever could hold the file a write at 2^32 - 1 is to leave, so the write meets its meaning for all other offsets and for none there |
| TreeWrite.LastWalk | library/file/file1.c:262-334 | at 2^32 - 1 the walk has five levels over a tree that was not grown: after as many steps as the tree has levels, fewer than five exactly up to 2^28 blocks, it stands at the data block whose number is the leading digits of the offset, or at a hole exactly if the file has no such block |
| TreeWrite.Begin | library/file/file1.c:234-267 | putting the new size into the inode buffer starts a write in good order |
| TreeWrite.AllocStep | library/file/file1.c:275-275 | an allocation in the middle of a write keeps what the write has set up, on disk and in the buffer |
| TreeWrite.GrowStep | library/file/file1.c:275-289 | one turn of the growth loop keeps data, isolation and the free list, with the inode still only in the buffer |
| TreeWrite.RootStep | library/file/file1.c:313-319 | filling an empty root keeps them |
| TreeWrite.ChildStep | library/file/file1.c:313-333 | filling a hole under a node keeps them |
| TreeWrite.FlushStep | library/file/file1.c:295-300 | writing the buffer back keeps them |
| TreeWrite.MoveStep | library/file/file1.c:321-333 | reading an existing block of the file into the buffer keeps them |
| TreeWrite.DataStep | library/file/file1.c:336-337 | the data block may be overwritten with anything |
| TreeWrite.Finish | library/file/file1.c:336-338 | when the data is in place, the disk is valid and means the updated file |
| TreeWrite.PathDown | library/file/file1.c:329-333 | a step down stays on the path of the offset |
| TreeWrite.FillStep | library/file/file1.c:313-319 | a hole on the path, in the inode or in a node, is filled by a block with the right level and index |
| TreeWrite.TopSlot | library/file/file1.c:262-264 | the top index of an offset that needs all its levels is not 0 |
| TreeWrite.GrownHoles | library/file/file1.c:269-334 | after growth the whole path below the new root is holes |
| TreeWrite.CostSplit | library/file/file1.c:245-334 | the cost of a write is the levels added plus the holes found on the path afterwards |
| TreeWrite.LevelsGrow | library/file/file1.c:245-267 | a write never lowers the number of levels, and it is that of the new size |
| TreeDisk.LogRefsPerBlock | library/file/file1.c:347-351 | the loop finds 7 |
| TreeDisk.CountLevels | library/file/file1.c:249-252 | the loop counts the least number of levels |
| TreeDisk.Store.Put | library/file/file1.c:284-287 | a block written below extends the trace by the disk as it then is, one block away from the disk before, with the other inodes intact |
| TreeDisk.ChainNext | library/file/file1.c:269-337 | a trace that leads to the disk one block at a time, with the other inodes intact at every entry, is extended by one more such write |
| TreeDisk.Store.GetSnapshot | library/file/file1.c:83-110 | succeeds exactly for existing inodes and reads the superblock and the block of the inode |
| TreeDisk.Store.GetSize | library/file/file1.c:161-167 | the length of the file below 2^31 blocks, 2^32 less from there on as the signed integer it is, and -1 for an inode that does not exist |
| TreeDisk.Store.Read | library/file/file1.c:178-230 | the block of the file, or an error for a bad inode or past the end |
| TreeDisk.Store.AllocBlock | library/file/file1.c:114-156 | fails exactly when no block is free; otherwise it is the last block named in the first list block, or that block itself if it names none, the list is well-formed, and others are intact after the one write below |
| TreeDisk.Store.GrowOne | library/file/file1.c:275-289 | adds one level at the cost of one block, or halts with none free |
| TreeDisk.Store.Grow | library/file/file1.c:273-291 | reaches the wanted levels at the cost of their number, exactly when that many are free |
| TreeDisk.Store.Fill | library/file/file1.c:313-319 | fills the hole at the current place, at the cost of one block |
| TreeDisk.Store.Descend | library/file/file1.c:302-334 | reaches the data block at the cost of the holes on the path, exactly when that many are free |
| TreeDisk.Store.Resize | library/file/file1.c:245-267 | levels before and after, and the new size in the inode buffer |
| TreeDisk.Store.Prepare | library/file/file1.c:245-300 | size, growth and the write of the inode block, with what is left of the cost |
| TreeDisk.Store.PutData | library/file/file1.c:336-338 | the last write below makes the disk valid again, with the file updated, and is one more entry of the trace |
| TreeDisk.Store.Write | library/file/file1.c:234-339 | error exactly for a bad inode, halt exactly when fewer blocks are free than the cost; otherwise the file is updated, the others unchanged, the disk valid and the exact cost taken; in every case the trace leads from the old disk to the new one changing one block at a time, and at each of its entries every other inode has its size and contents and shares no block with the free list |
| TreeCreate.FillList | library/file/file1.c:387-392 | one list block: the link, then the next free blocks, then zeros |
| TreeCreate.SetupFreelist | library/file/file1.c:380-399 | the list covers all blocks from the first free one on, 128 to a list block |
| TreeCreate.FreshValid | library/file/file1.c:426-442 | a fresh disk is valid, all files are empty and all blocks behind the inode blocks are free |
| TreeCreate.Create | library/file/file1.c:403-451 | succeeds exactly on a disk large enough; makes a valid empty file system if there is none, and touches nothing if there is one |
| TreeRuns.LastWriteWins | library/file/file1.c:178-339 | after any run of writes a file ends one past the highest block written, and each block is what was last written there, or zeros |
| TreeRuns.OnDisk | library/file/file1.h:6-31 | the words of a valid disk: the first of the superblock counts the inode blocks and the second is 0 exactly if no block is free; of the pair of words of an inode the second is the length of its file and the first 0 exactly for an empty one; the block numbers of a file are in its root in order, up to 128 blocks, and one level down up to 16384 |
| TreeRuns.CostCases | library/file/file1.c:245-334 | growth from L to M levels costs 2M - L blocks, a first block costs 1, any other write at most the number of levels |
| TreeRuns.CostBound | library/file/file1.c:245-334 | no write costs more than ten blocks |
| TreeRuns.LoadImage | tools/mkfs.c:116-119 | the file is the image and no other file changes; a halt comes only at a block that needs more than is free |
| TreeRuns.WriteAll | library/file/file1.c:234-339 | after any run of writes the files are those of the abstract run; a halt comes only at a write that needs more than is free, and never with ten free blocks for each write |
| TreeRuns.CreateWriteRead | library/file/file1.c:161-451 | after creation and any run of writes, the size is that of the extent as a signed integer, and a read gives the last write, zeros in holes and an error past the end; with ten blocks for each write the run is not cut short |
| KernelModel.SetStatus | grass/process.c:15-18 | every slot with the pid gets the status, freed slots too, and no other slot changes |
| KernelModel.TrySend | grass/kernel.c:138-160 | halts exactly if no slot in use has the receiver's pid; otherwise the first such slot takes pid and words of the sender if it is in a receive without a message yet, from anyone or from this sender, and in every other case nothing changes |
| KernelModel.WriteCall | grass/kernel.c:167-167 | kind, sender, receiver, content and status of the record land at the start of the page and the rest of the page stays |
| KernelModel.KilledProcs | grass/process.c:50-56 | every slot with a pid from 5 on is unused and every other slot as it was |
| KernelSweep.Between | grass/kernel.c:97-98 | the order of the sweep in terms of cyclic distance |
| KernelSweep.SendStep | grass/kernel.c:138-160 | a send latches into the one receiver that waits for it, from anyone or from this sender, changes nobody else, and leaves no match of its own behind |
| KernelSweep.RecvStep | grass/kernel.c:162-172 | a latched receive has exactly its sender blocked on it, and frees both and nobody else |
| KernelSweep.VisitStep | grass/kernel.c:97-99 | what a visit of the sweep does to the table, and that it keeps the invariant of the table |
| KernelSweep.SweepOn | grass/kernel.c:97-105 | after a visit that found nothing to run, the order still holds for the rest of the sweep |
| KernelSweep.DispatchStep | grass/kernel.c:125-134 | the chosen process runs, exactly one does, the order holds from its position, and no private memory changes |
| KernelSweep.SweepInv | grass/kernel.c:85-136 | a sweep that finds a process ends in the invariant |
| KernelSweep.SweepFinds | grass/kernel.c:85-136 | a process that can run or be released is found, or one before it is and it stays so |
| KernelSweep.SweepNothing | grass/kernel.c:85-121 | if no process can run or be released the sweep stops the machine |
| KernelSweep.SweepWants | grass/kernel.c:85-121 | nobody is dispatched who was not ready, latched or matched when the sweep began |
| KernelSweep.DeadlockExact | grass/kernel.c:85-121 | a sweep ends in "no process to run" only if none can run; otherwise it dispatches exactly the first slot in its order that is ready, latched or matched by a send |
| KernelRuns.TrapIsSweep | grass/kernel.c:53-83 | both traps come to one sweep from a state in good order |
| KernelRuns.SpawnInv | grass/process.c:25-40 | a new process with a fresh pid keeps the invariant |
| KernelRuns.IdleInv | grass/process.c:15-59 | making a loaded process ready, or freeing one that is not in a call, keeps the invariant |
| KernelRuns.FreeExact | grass/process.c:42-59 | freeing a process keeps the invariant if and only if it is not waiting in a receive and no latched receive has it as sender |
| KernelRuns.KillAllExact | grass/process.c:50-56 | freeing all user processes keeps the invariant if and only if a server is running, no user process waits in a receive, and no message latched into a server comes from a user process |
| KernelRuns.KillAllBreaks | grass/process.c:50-56 | a state in the invariant, with a message from a user process latched into a server, that freeing all user processes takes out of it |
| KernelRuns.KilledMemory | grass/process.c:50-56 | the memory of the processes from pid 5 on is gone and all other memory kept |
| KernelRuns.FreedSenderRevived | grass/kernel.c:169-171 | if the sender of a latched message is freed, the receive makes the freed slot runnable again |
| KernelRuns.NextInv | grass/kernel.c:53-185 | every step of the system keeps the invariant |
| KernelRuns.NoFalseDeadlock | grass/kernel.c:53-185 | a trap stops with "no process to run" only if nothing is ready, nothing latched and no send matches a receive; otherwise the first slot in cyclic order for which one of these holds runs; a timer trap never stops |
| KernelRuns.ContextKept | grass/kernel.c:30-45 | the registers and program counter a process resumes with are those it trapped with, past the call instruction, or the entry point for a new process |
| KernelRuns.TrapProgress | grass/kernel.c:85-136 | each trap brings a process that can run strictly closer in cyclic distance, or runs it |
| KernelRuns.RunInv | grass/kernel.c:53-185 | the invariant, with exactly one running process, holds in every state of every run |
| KernelRuns.BoundedWaiting | grass/kernel.c:85-136 | a process that can run or be released runs within as many traps as its cyclic distance, at most 16 |
| KernelHistory.DeliverMeaning | grass/kernel.c:165-167 | the copy of the record, with the address space switch inside, changes the receiver's argument page and nothing else in any private memory |
| KernelHistory.TrapMemory | grass/kernel.c:53-172 | a trap changes no private memory but the argument page of the receiver it releases, and there the words of the record |
| KernelHistory.TrapGood | grass/kernel.c:53-185 | a trap keeps the record of calls and deliveries sound |
| KernelHistory.NextGood | grass/kernel.c:53-185 | so does every step |
| KernelHistory.BootGood | grass/init.c:31-35 | the kernel starts in the invariant |
| KernelHistory.ExactlyOnce | grass/kernel.c:53-185 | in every run each call is open or settled once; each delivery pairs one send with one receive that accepts it, by the words on their private argument pages when they trapped, and on the page the receiver resumes with are the sender's pid, word for word the message from the sender's page, and the status of a completed call |
| KernelHistory.SentFromOwnPage | grass/kernel.c:55-59 | type, sender, receiver and message of a call are words 0, 1, 2 and 3 to 258 of the caller's private argument page |
| KernelHalts.RetryExact | grass/kernel.c:97-99 | a visit of the sweep stops the machine exactly at a blocked sender whose receiver is not there |
| KernelHalts.SweepKnown | grass/kernel.c:85-136 | if all blocked senders have their receivers, a sweep stops for neither an unknown receiver nor an unknown call, and they have them afterwards |
| KernelHalts.TrapHalts | grass/kernel.c:53-185 | then a trap stops on an unknown receiver exactly if the running process names one, and on an unknown call exactly if it makes one |
| KernelHalts.QuietHalts | grass/process.c:15-59 | between traps all blocked senders keep their receivers if and only if no process exits that somebody is blocked sending to |
| KernelHalts.RunKnown | grass/kernel.c:53-185 | in every run without such an exit all blocked senders have their receivers in every state |
| Kernel.Machine.constructor | grass/init.c:31-35 | the process table at the start |
| Kernel.Machine.SetStatus | grass/process.c:15-18 | the loop does what the specification says |
| Kernel.Machine.TrySend | grass/kernel.c:138-160 | the scan of the table halts or latches as the function above says |
| Kernel.Machine.TryRecv | grass/kernel.c:162-172 | the receive completes or stays as specified |
| Kernel.Machine.TrySyscall | grass/kernel.c:174-185 | the dispatch on the kind of call, with the halt on an unknown one |
| Kernel.Machine.Dispatch | grass/kernel.c:125-134 | the switch to the chosen process |
| Kernel.Machine.RunSweep | grass/kernel.c:96-134 | the loop finds and runs the process the specification names, or halts |
| Kernel.Machine.Yield | grass/kernel.c:85-136 | the running process goes back to the queue, then the sweep |
| Kernel.Machine.Tick | grass/kernel.c:75-83 | a timer trap is the step of the state machine |
| Kernel.Machine.Enter | grass/kernel.c:55-62 | the words of the caller's private argument page are copied in and the caller is blocked |
| Kernel.Machine.Ecall | grass/kernel.c:53-66 | a system call is the step of the state machine |
| Kernel.Machine.Alloc | grass/process.c:25-40 | the first unused slot gets the next pid and is loading; the machine halts exactly if no slot is unused |
| Kernel.Machine.MakeReady | grass/process.c:20-20 | every slot with the pid becomes ready; for a loaded process this is the step of the state machine |
| Kernel.Machine.Free | grass/process.c:46-48 | the slots and the frames of the pid are given back and no other; for a process outside a call this is the step of the state machine |
| Kernel.Machine.FreeAll | grass/process.c:50-56 | every slot with a pid from 5 on becomes unused and its frames free, every other slot stays |
| SoftTlb.CopyOut | earth/cpu_mmu.c:44-61 | the pages of the leaving process are saved in its frames and no other frame changes |
| SoftTlb.CopyIn | earth/cpu_mmu.c:44-61 | the frames of the entering process are in the shared region, and neither a frame nor any page it has no frame for changes |
| SoftTlb.SwitchInvisible | earth/cpu_mmu.c:44-61 | a switch changes nobody's private memory |
| SoftTlb.SwitchPages | earth/cpu_mmu.c:44-61 | page by page: frames of the leaving process get its pages, pages of the entering one come from its frames, and all other RAM stays, below the user region too |
| SoftTlb.StoreStep | earth/cpu_mmu.c:44-66 | a store by the current process changes that page of its memory alone |
| SoftTlb.FillStep | library/elf/elf.c:39-44 | a write to a frame of another process changes that page of its memory alone |
| SoftTlb.MapStep | earth/cpu_mmu.c:39-42 | a mapping, for the current process too, adds the page it shows to the memory of the process and changes no other |
| SoftTlb.MapShows | earth/cpu_mmu.c:39-42 | a newly mapped page shows its frame if and only if the process is not the current one or the shared region holds the same |
| SoftTlb.FreeStep | earth/cpu_mmu.c:33-37 | a free removes the memory of that process and no other |
| SoftTlb.StepRefines | earth/cpu_mmu.c:24-66 | every step on the shared memory is the same step on private memories |
| SoftTlb.RunRefines | earth/cpu_mmu.c:24-66 | so is every run, and at its end the current process reads its own pages |
| SoftTlb.AllocFrame | earth/cpu_mmu.c:24-31 | takes the first unused frame out of the free ones, or halts exactly when all are used |
| SoftTlb.Mmu.Alloc | earth/cpu_mmu.c:24-31 | an allocation changes nobody's private memory |
| SoftTlb.Mmu.Free | earth/cpu_mmu.c:33-37 | frees exactly the frames of the process |
| SoftTlb.Mmu.Map | earth/cpu_mmu.c:39-42 | the page is added to the private memory of its process, with the contents of the frame, or of the shared region for the current process |
| SoftTlb.Mmu.Switch | earth/cpu_mmu.c:44-61 | both copying loops, with private memories unchanged |
| IdentityMap.OrHigh | earth/cpu_mmu.c:94-94 | or-ing in flags below 2^k leaves the page number alone |
| IdentityMap.OrBit | earth/cpu_mmu.c:94-94 | every flag bit is set in the entry |
| IdentityMap.PointerFacts | earth/cpu_mmu.c:79-89 | a root entry is valid, is no leaf, and leads back to the frame it was made from |
| IdentityMap.EntryMapsItself | earth/cpu_mmu.c:94-94 | the entry written for an address has the page number of that address and is a readable leaf |
| IdentityMap.WalkIsIdentity | earth/cpu_mmu.c:76-118 | under the invariant of the tables the hardware walk maps every address with an entry to itself, by that entry, and every other address nowhere |
| IdentityMap.Builder.Leaf | earth/cpu_mmu.c:77-89 | the leaf table of a slot, found or made in a frame of its own that then belongs to the process, with all entries as before |
| IdentityMap.Builder.Setup | earth/cpu_mmu.c:76-95 | afterwards the region walks to itself, with the address and the flags in its entries, and every other address as before; it needs a frame exactly if the slot had no table; no frame but the tables is touched |
| IdentityMap.Builder.Start | earth/cpu_mmu.c:98-103 | an empty root table in a frame of its own |
| IdentityMap.Builder.MapRam | earth/cpu_mmu.c:106-107 | all of RAM has open entries, exactly if there is a frame per slot |
| IdentityMap.Builder.MapDevices | earth/cpu_mmu.c:108-117 | so have the devices, exactly if there are frames for the slots RAM does not share |
| IdentityMap.Builder.Build | earth/cpu_mmu.c:97-118 | the hardware walk maps RAM and the device addresses of the platform to themselves and nothing else, open to user code for reading, writing and executing; it works exactly if there are eight free frames on the Arty board and seven on QEMU; it takes free frames, which then belong to the process, and changes no other frame |
| IdentityMap.DevicesFit | library/egos.h:57-66 | every device region stays in one 4 MB slot |
| IdentityMap.DevicesAre | library/egos.h:57-66 | the regions mapped are the address ranges of the devices of each platform |
| ElfLoader.OverlayStep | library/elf/elf.c:37-44 | copying one block into a page extends the file part of the page by that block |
| ElfLoader.ReadBlock | library/elf/elf.c:37-44 | one turn of the block loop |
| ElfLoader.BlockStep | library/elf/elf.c:34-45 | a new page is taken exactly at every eighth block |
| ElfLoader.ReadFile | library/elf/elf.c:34-45 | the file part is in fresh pages, zeros behind it, exactly if there are frames |
| ElfLoader.ZeroRest | library/elf/elf.c:47-51 | zeroed pages up to the last whole page of the segment |
| ElfLoader.LoadSegment | library/elf/elf.c:25-55 | the pages of a segment and no other page of any process |
| ElfLoader.LoadSegments | library/elf/elf.c:22-55 | all segments from RAM_START on, exactly if there are frames, and none of those below |
| ElfLoader.CoversCount | library/elf/elf.c:25-51 | the pages of a segment: from its first page on those its file part reaches into and those before the page of its end; none for a segment below RAM_START |
| ElfLoader.TotalIsPages | library/elf/elf.c:22-55 | the frames a load needs are as many as the pages of its segments |
| ElfLoader.LoadedKeys | library/elf/elf.c:22-55 | exactly the pages of the segments are added, and none for a segment below RAM_START |
| ElfLoader.SegmentBytes | library/elf/elf.c:25-55 | for every segment, aligned or not: the byte x bytes from the start of its first page is the byte x bytes from the start of its first block in the file, and zero from the file size on |
| ElfLoader.AlignedByte | library/elf/elf.c:31-45 | for a segment aligned to pages and blocks that is the byte at the same distance from its start |
| ElfLoader.ProcessBytes | library/elf/elf.c:17-81 | the memory the whole load leaves: pages at the segments, at 0x80600000, 0x80601000 and the two below 0x80800000, no others, with the bytes of the segments |
| ElfLoader.ProcessArgs | library/elf/elf.c:56-70 | what main() finds: argc at 0x80600000 and behind it pointers that lead to the characters of the arguments |
| ElfLoader.MemoryMapped | library/elf/elf.c:47-51 | every address of the memory size is in a page of the segment if and only if there is none, or the segment is not below RAM_START and its memory size is whole pages or the file part reaches as far |
| ElfLoader.MemoryMissing | library/elf/elf.c:47-51 | a segment of one byte without file part gets no page |
| ElfLoader.PutArgs | library/elf/elf.c:60-70 | argc, the arguments and their addresses in the page: each address leads to its argument |
| ElfLoader.LoadArgs | library/elf/elf.c:56-70 | the argument page is mapped and filled |
| ElfLoader.AddStack | library/elf/elf.c:76-80 | the two pages below the stack top are mapped and nothing else changes |
| ElfLoader.LoadStack | library/elf/elf.c:72-80 | the system call page and the stack |
| ElfLoader.Load | library/elf/elf.c:17-81 | segments, arguments, system call page and stack, exactly if there are frames for all |
| ElfLoader.OthersKept | library/elf/elf.c:17-81 | no other process's memory changes |
| CrcWords.RegisterBits | apps/user/udp_demo.c:168-171 | mask, shift and exclusive or on machine words are one step of the bits |
| CrcWords.TakeByte | apps/user/udp_demo.c:166-172 | the inner loop takes in one byte |
| CrcWords.Compute | apps/user/udp_demo.c:163-174 | the nested loops on machine words compute the CRC of the bits of the bytes |
| CrcWords.Message | apps/user/udp_demo.c:166-167 | the bits taken in are those of each byte, in order |
| CrcWords.MessageBits | apps/user/udp_demo.c:163-174 | bit 8i + j of the dividend is bit j of byte i |
| CrcWords.ComputeDivides | apps/user/udp_demo.c:163-174 | the word returned is the complemented remainder of those bits, for the bits told byte by byte |
| Crc32.CrcLinear | apps/user/udp_demo.c:163-174 | for one length, the CRC of an exclusive or is the exclusive or of the CRCs and that of zeros |
| Crc32.FoldIsBits | apps/user/udp_demo.c:165-172 | taking in bytes is taking in their bits, lowest first, one by one |
| Crc32.PolyIsGenerator | apps/user/udp_demo.c:170-170 | the constant holds the coefficients of the IEEE 802.3 generator |
| Crc32.RegisterDivides | apps/user/udp_demo.c:163-174 | the register is the remainder of long division of the bits taken in |
| Crc32.CrcIsRemainder | apps/user/udp_demo.c:163-174 | the CRC is the complemented remainder of the message with its first 32 bits complemented |
| Crc32.DivisionLaw | apps/user/udp_demo.c:163-174 | dividend = quotient times generator plus remainder |
| Crc32.RemainderUnique | apps/user/udp_demo.c:163-174 | and no other remainder is possible |
| Crc32.ResidueExact | apps/user/udp_demo.c:137-143 | a message and four bytes check to the one constant if and only if the bytes are its CRC, lowest first |
| CrcWords.ResidueValue | apps/user/udp_demo.c:163-174 | the constant is 0x2144DF1C |
| CrcWords.TrailerBytes | apps/user/udp_demo.c:140-143 | the four masked and shifted bytes are the bytes of the word, lowest first |
| CrcWords.FrameChecks | apps/user/udp_demo.c:137-143 | a frame and a trailer of those four bytes check to 0x2144DF1C if and only if the word is the CRC of the frame |
| Crc32.BurstDetected | apps/user/udp_demo.c:163-174 | messages of one length that differ only inside 32 consecutive bits have different CRCs |
| Checksum.Compute | apps/user/udp_demo.c:176-190 | both loops, with wrap-around, compute the specified value for all inputs |
| Checksum.WordAt | apps/user/udp_demo.c:179-180 | word k of the data is 256 times byte 2k plus byte 2k + 1 |
| Checksum.FoldIsOnesSum | apps/user/udp_demo.c:182-183 | the folded sum is the sum with end-around carry |
| Checksum.OverflowExact | apps/user/udp_demo.c:179-180 | the 32-bit sum of n words cannot overflow, whatever 16-bit value it starts from, if and only if n is at most 65536 |
| Checksum.ValueIsOnesSum | apps/user/udp_demo.c:176-190 | the result is the ones' complement sum, or its complement with all ones in place of zero |
| Checksum.Chaining | apps/user/udp_demo.c:107-116 | going on from the sum of a first part is summing the whole |
| Checksum.FieldExact | apps/user/udp_demo.c:103-116 | data with h in its zeroed field sums to all ones if and only if h is the completed checksum or the other form of zero |
| Checksum.DatagramVerifies | apps/user/udp_demo.c:107-116 | the chained checksum makes pseudo-header and datagram sum to all ones, and is never sent as zero |
| Directory.Compare | library/syscall/servers.c:40-40 | whether the name stands at a position, and whether telling takes a byte behind the block |
| Directory.Lookup | library/syscall/servers.c:34-45 | the number behind the first match in the text, or -1; for a name longer than the text the bound wraps, and it is the number behind the first match in the whole block, or an overrun exactly if there is none or its number reaches the end of the block |
| Directory.PaddedOverrun | library/syscall/servers.c:39-42 | with only zeros behind the text a longer name always overruns |
| Directory.BehindText | library/syscall/servers.c:39-42 | otherwise a longer name can be found behind the text |
| Directory.AtoiColumn | tools/mkfs.c:123-123 | the number read back from a printed column is the number |
| Directory.AtoiMeans | library/syscall/servers.c:42-42 | atoi skips blanks, takes one sign and the digits behind it, gives 0 without digits, and leaves the rest unread |
| Directory.SearchMeans | library/syscall/servers.c:39-44 | the scan gives what atoi reads behind the first match, and -1 if there is none |
| Directory.LineMatches | library/syscall/servers.c:40-41 | in a printed line only the name and the number can match |
| Directory.SearchPrinted | library/syscall/servers.c:34-45 | what a lookup in a printed directory comes to, for every name without spaces |
| Directory.RoundTrip | library/syscall/servers.c:34-45 | for a name that is not all digits, it is the number of the entry of that name, or -1 |
| Directory.BlockRoundTrip | library/syscall/servers.c:34-45 | the same in a block that holds the printed text ended by a zero |
| Directory.LookupPrinted | library/syscall/servers.c:34-45 | a lookup in a printed and padded block returns the number of the entry, -1 for an absent name, and overruns exactly for a name longer than the text |
| Directory.FindEntry | tools/mkfs.c:36-48 | with distinct names every entry is found under its name |
| Directory.FindNone | library/syscall/servers.c:44-44 | -1 means no entry has the name, and the other way round |
| Directory.DigitName | library/syscall/servers.c:39-42 | a name of digits is taken for the number of an earlier entry |
| Directory.LookupExact | library/syscall/servers.c:34-45 | for every name a lookup is right if and only if no number before the entry looks like the name, or the number heard in the entry behind that one happens to be the right one; in the other cases it gives that number |
| Directory.OrdinaryExact | library/syscall/servers.c:34-45 | in a directory whose names start with no digit, sign or blank it is right if and only if no number before the entry looks like the name, and otherwise gives 0 for an absent name |
| Tokenizer.Put | apps/system/sys_shell.c:16-18 | a character is added to the word being read and to nothing else |
| Tokenizer.End | apps/system/sys_shell.c:19-21 | the word is ended by a zero |
| Tokenizer.ParseRequest | apps/system/sys_shell.c:11-25 | succeeds exactly if every run of other characters than space has at most 31 of them and there are at most 15 runs, or 16 and no space at the end; argc and argv are then the runs in order, ended by zeros |
| Tokenizer.SplitJoin | apps/system/sys_shell.c:15-22 | splitting words joined by spaces gives the words |
| Tokenizer.SplitAtSpace | apps/system/sys_shell.c:15-22 | at any space of a line its words are those before and those after, and a line without spaces is one word or none |
| Tokenizer.NothingLost | apps/system/sys_shell.c:15-22 | the runs together are the line without its spaces |
| Handshake.Server.Turn | apps/system/sys_proc.c:45-94 | one turn of the loop on the shared buffer. A spawn is answered with CMD_OK exactly if the program was found, in the background too; the shell is waiting exactly if it was found and the last argument does not start with an ampersand, which is not counted as an argument. An exit frees the sender and is answered exactly if the shell is waiting for it, a killall frees all and is not answered, and an unknown type halts. The reply is written over the request before the arguments are read |
| Handshake.WorkInv | apps/system/sys_proc.c:50-70 | handling a request keeps the invariant of shell, server and applications |
| Handshake.DeliverInv | apps/system/sys_shell.c:54-63 | so does the receive of a reply |
| Handshake.NextInv | apps/system/sys_proc.c:45-79 | and every other step |
| Handshake.NoneOutstanding | apps/system/sys_shell.c:50-69 | at every prompt of every run no reply is under way, all replies sent were taken, each command had exactly the replies it is due, and its result says whether the server found its program |
| Handshake.RequestsMatch | apps/system/sys_shell.c:43-57 | at all times the server has handled what the user entered, each once and in order, with at most two requests still due, and the applications there are those it started and has neither freed nor killed since |
| Handshake.RepliesMatch | apps/system/sys_shell.c:54-63 | at all times replies are taken in the order sent, each once, by the receive of the command it answers |
| Handshake.ForegroundDone | apps/system/sys_shell.c:60-63 | at a prompt only background applications are left, whatever exits happened in between |
| Handshake.NeverStuck | apps/system/sys_proc.c:50-66 | while the shell waits, what it waits for can still come |

## Left out

- TreeDisk.Store.Write: requires an offset below 2^32 - 1; TreeWrite.LastOffset and TreeWrite.LastWalk say why nothing better holds there, and what the walk then writes to is not modelled.
- TreeRuns.LoadImage: requires an empty inode, as the image tool has.
- KernelRuns.NextInv: only loaded processes with an argument page are made ready, only processes outside a call are freed, and process numbers do not wrap; KernelRuns.FreeExact and KernelRuns.KillAllExact say exactly when other frees are harmless.
- SoftTlb.MapStep: requires a frame and a page not mapped before.
- SoftTlb.Mmu.Map: requires the same.
- ElfLoader.LoadSegments: requires page-disjoint segments in the user region, and a process that is new and not current.
- ElfLoader.Load: requires the same.
- IdentityMap.Builder.Setup: requires a region inside one 4 MB slot, as all calls have.
- Directory.Lookup: requires a zero byte in the block, and a name that fits the address space beside the block; numbers beyond the range of int are read as unbounded, and what an overrun reads is not modelled.
- Directory.RoundTrip: numbers up to 999, which leave a space before the printed number.
- Handshake.NextInv: commands have at least one argument, a new process always finds a slot, applications send nothing but their exit, and a freed sender is not revived, which KernelRuns.KillAllExact says when to expect.
- Reading the ELF header and program headers from bytes; segments are given as records.
- The checks of permission bits in the page table walk, supervisor and user mode; the bits are in the entries, and IdentityMap.Builder.Build says which.
- More than one core, the kernel lock, and preemption inside the process server's calls into the kernel.
- Failure of the disk below the tree layer, and the device drivers of disk, terminal, timer and Ethernet.
- The direct file system without trees, treedisk_setsize, freeing and syncing inodes: they do nothing or stop.
- Exercises left open in the source: multilevel scheduling, sleep, core information, page-table switching, file writes by request.
- Printing, the memory allocator of the C library, the terminal server, the other applications and the rest of the image tool.
- Assembly: saving registers is one value per process and a trap is one step.
