# Models of the CS111 operating-system labs

Dafny models of the programs of the course's labs, with proofs of what they are for. `dafny verify
dfyconfig.toml` checks everything. Each part stands for one program and follows its branches,
constants and edge cases; code that changes state in place is a class or method with that state, and
is proved against functions about which the main results are then proved.

- **Time-travel shell** (`ShellCommand`, `DependencyGraph`, `PlanSafety`, `TimeTravel`,
  `Footprint`, `Races`, `PlainShell`):
  the shell records which files each command reads and writes, links every command to the earlier
  ones it conflicts with, and forks commands as soon as those have finished. Commands are processes
  whose file accesses interleave freely. Main results: every parallel run is equivalent to running the
  same processes in order if and only if the shell waits for each earlier command that a later one
  clashes with; and it is what the shell without -t does exactly as far as no process is gone early.
- **OSPFS** (`Ospfs*`, `BlockCache`): the formatter, which writes a three-level block tree through a
  write-back cache of 16 slots, and the kernel module, which reads it back with code of its own and
  grows files with a bitmap allocator. Main results: what is formatted is read back exactly, from
  every path, for every file; the formatter succeeds whenever the files fit; each block has one owner;
  link counts are exact; reads, writes and growth refine a sequence of bytes per file.
- **Command parser** (`CommandStack`, `CommandGrammar`, `CommandParser`): the two-stack
  operator-precedence parser returns the one tree that the grammar gives to the tokens.
- **MD5** (`Md5Spec`, `Md5Context`, `Md5Stream`, `Md5Agreement`, `Md5Example`): two streaming
  implementations, both equal to RFC 1321 for every way of cutting the message, and so to each other;
  the digest that the standard lists for abc is computed step by step from the definitions.
- **OSP2P messages** (`MessageFormat`, `MessageScan`): the printer and the scanner undo each other.
- **Task buffer** (`TaskBuffer`): a ring buffer is first in, first out under partial reads and writes,
  and the transfer loops deliver everything.
- **Ticket reader/writer lock** (`TicketLock`, `OsprdDriver`): the protocol as atomic steps between
  two points where a process may sleep, and the driver's code, which performs exactly these steps.
- **SchedOS** (`PrintLock`, `Scheduler`): the locked print loop under preemption at every instruction,
  and the three scheduling algorithms.

Where the code does not do what it is meant to do, the model follows the code, a lemma gives an input
that shows it, and another the exact condition:

- files touched without being recorded, in subshells or by programs that write their arguments:
  `Footprint.SubshellEscapes`, `Races.CopyEscapes`; exact in `Footprint.FootprintExact` and
  `Races.RaceExact`;
- redirections that fail and exec, which end the shell without -t only: `PlainShell.MissingStops`; exact
  in `PlainShell.PlainExact` and `PlainShell.StayingExact`;
- files that grow past block 266 + 256 k in the kernel module: `OspfsLost.BigRun`; exact in
  `OspfsKernel.Kernel.AddBlock` and `OspfsKernel.Kernel.AddDeep`;
- the length words of the first MD5: `Md5Context.CountWrong`; exact in `Md5Context.CountExact`;
- integers near the top of their range in messages: `MessageFormat.NumExact`;
- uploads of 2^32 bytes and more: `TaskBuffer.SentTooMuch`; exact in `TaskBuffer.UploadExact`;
- repeated read locks: `TicketLock.ReaderLeftBehind`; exact in `TicketLock.ReadersExact`;
- tickets that nobody holds: `TicketLock.LateRefusalStrands`, `TicketLock.FormerReaderStrands`,
  `TicketLock.ShortPassStrands`; exact in `TicketLock.StrandedExact` and `TicketLock.StrandsExact`; what
  follows from them and only from them in `TicketLock.StrandedForever` and `TicketLock.WaiterServed`;
- priorities when the current process cannot run: `Scheduler.NeighbourTaken`; exact in
  `Scheduler.MinimumTaken`.

## Model

| member | source | states |
|---|---|---|
| TimeTravel.SameAsSequential | project1/main.c:170-257 | Every complete run of the forked commands, their file accesses interleaved in any way, ends with the same files as some run of the same processes one after the other, in script order, and every command makes the same accesses and sees the same in both, provided each keeps to its recorded files; nondeterministic commands included |
| TimeTravel.Serializable | project1/main.c:170-257 | At every moment of every run, complete or not, the accesses so far can be regrouped command by command in script order: the regrouped trace executes, every read returns what it returned, and the store is the same |
| TimeTravel.RunningAlone | project1/main.c:221-257 | A command never runs, in any state of any run, before every earlier command that conflicts with it has finished |
| TimeTravel.ParentProgress | project1/main.c:191-257 | The shell itself never gets stuck: its next step is possible, or it waits for a command that has been forked and not finished |
| TimeTravel.StoreExact | project1/main.c:170-257 | In an execution a file holds in the end what was written to it last, or what it held before |
| TimeTravel.SeenExact | project1/main.c:170-257 | Each open and read sees the file as the accesses before it have left it |
| PlanSafety.PlanIsSafe | project1/main.c:191-257 | For every script, each command is forked once, each wait is for a command that has a pid by then, and each fork comes after waits for all its earlier conflicting commands |
| PlanSafety.ForkedExactlyOnce | project1/main.c:201-257 | The sequence of forks of a whole run is a permutation of the commands |
| PlanSafety.BeforeMembers | project1/main.c:162-168 | A command waits for exactly the earlier commands it depends on, never for a later one or itself |
| PlanSafety.BeforeExact | project1/main.c:134-168 | A command waits for an earlier one exactly if one of the two is recorded to write a file that the other is recorded to read or write |
| PlanSafety.WaitsNeeded | project1/main.c:221-257 | No command is waited for without need: each wait is for a command that conflicts with the next one forked |
| PlanSafety.FreeFirst | project1/main.c:191-219 | A command without an earlier conflicting one is forked before anything is waited for |
| DependencyGraph.TimeTravel | project1/main.c:170-257 | Building and executing the graph does the system calls of the plan of the script, in that order and no others |
| DependencyGraph.ExecuteGraph | project1/main.c:191-199 | First all commands without dependencies, then the others; afterwards every node carries the pid of a process that was forked for it |
| DependencyGraph.ExecuteNoDependencies | project1/main.c:201-219 | The independent commands are forked in order, with no waiting, and each node learns its pid |
| DependencyGraph.ExecuteDependencies | project1/main.c:221-257 | Each dependent command is forked right after the waits for its own list; every node of that list has a pid when it is reached, so that the test for -1 never fires |
| DependencyGraph.WaitForBefore | project1/main.c:239-245 | One wait for every node of the list, in order, each for the process of the right command |
| DependencyGraph.CreateGraph | project1/main.c:170-189 | One new node per command, with its file lists and its list of earlier conflicting nodes, each node in exactly one of the two queues, in order |
| DependencyGraph.AddNode | project1/main.c:177-187 | A new node keeps the lists and links of all earlier nodes intact, and goes to the dependent queue exactly if its list is not empty |
| DependencyGraph.CheckDependency | project1/main.c:162-168 | The list of the newest node becomes the earlier conflicting nodes in order, and these nodes do not change |
| DependencyGraph.IsDependent | project1/main.c:134-160 | True exactly if a file one of the two writes is read or written by the other |
| DependencyGraph.ProcessCommand | project1/main.c:83-132 | Exactly these files join the lists of the node: for every part of the tree outside subshells its input, its output, and of a simple command each word after the first that is empty or does not begin with a dash, the part a subshell for its redirections alone |
| DependencyGraph.RecordRedirections | project1/main.c:85-98 | An input redirection goes to the read list, an output redirection to the write list, and nothing else changes |
| DependencyGraph.RecordArguments | project1/main.c:99-108 | A file joins the read list exactly if it is some words[i], i >= 1, that is empty or whose first character is no dash; nothing else changes |
| ShellCommand.ReadsExact | project1/main.c:83-132 | A file is in the read list of a tree exactly if it is the input of a part outside subshells or of a subshell there, or a word after the first of such a simple command that is empty or does not begin with a dash, in terms of positions in the tree |
| ShellCommand.WritesExact | project1/main.c:83-132 | A file is in the write list exactly if it is the output of such a part |
| Footprint.FootprintExact | project1/main.c:83-132 | A command tree touches only recorded files, under every pipe interleaving, all exit statuses and failures of redirections, if and only if every file named in a reachable part of it has been recorded |
| Footprint.SubshellFreeIsCovered | project1/main.c:83-132 | Without subshells that condition holds whenever every program keeps to files that the graph records for its words, reading those it lists as read and writing those it lists as written |
| Footprint.SimpleIsCovered | project1/main.c:83-108 | For a simple command the condition is exactly that |
| Footprint.OnlyReadsRecorded | project1/main.c:99-108 | Programs that write no file and read none but the words after the first that are empty or do not begin with a dash keep to recorded files |
| Footprint.RedirectionsFirst | project1/execute-command.c:73-127 | A command or subshell with redirections opens its input, which has to be there, then truncates its output, and goes on with these files; its process is gone with status 1 if it does not get so far |
| Footprint.PlainSimple | project1/execute-command.c:101-127 | Without redirections a program accesses its own files and what it has as standard input and output, and only exec takes the process with it |
| Footprint.AcrossPipe | project1/execute-command.c:166-207 | The sides of a pipe run at the same time, the files of the whole on its outer ends only |
| Footprint.ShuffledExact | project1/execute-command.c:166-207 | Accesses of two sides are a shuffle exactly if each of them can be given to a side so that either side has its own in order |
| Footprint.AfterAnd | project1/execute-command.c:129-140 | The right side of && runs exactly if the left one returns with status 0 |
| Footprint.AfterOr | project1/execute-command.c:142-154 | The right side of || runs exactly if the left one returns with another status |
| Footprint.AfterSequence | project1/execute-command.c:156-164 | The right side of ; runs exactly if the left one returns |
| Footprint.ScriptsAreSerializable | project1/execute-command.c:42-236 | For scripts that meet the condition, run by the real evaluator, every parallel run is equivalent to running the same processes one after the other, whatever files the programs read and write for their words |
| Footprint.SubshellEscapes | project1/main.c:111-126 | Two subshells, each of which copies one file to the other; both files are there. A complete parallel run of the shell empties both, which neither order of the two commands explains |
| Races.RaceExact | project1/main.c:134-257 | Every run of a script, at every moment and from every store, has the effect and the observations of the script order if and only if the shell waits, before it forks a command, for each earlier one of the two of which can harm the other: by contents that the other reads or rewrites, by truncating what it reads without having truncated it, or by creating what it opens |
| Races.UnguardedRaces | project1/main.c:134-257 | For every script without those waits a run whose accesses do not have the effect of the script order; it starts with all files there that the script can touch, but for one at most |
| Races.GuardedScripts | project1/main.c:170-257 | The complete runs of a script with those waits end with the files and histories of running its commands one after the other |
| Races.CoveredIsGuarded | project1/main.c:83-168 | Scripts whose recorded lists cover what the commands touch have those waits |
| Races.CopyEscapes | project1/main.c:99-108 | The script cp a b, cat < b, for a cp that writes b: both are forked at once and some run is not that of the script order |
| Races.WaitsBelow | project1/main.c:221-257 | Before a command is forked the shell waits for earlier commands only |
| TimeTravel.OrderedRuns | project1/main.c:170-257 | Regrouping into script order needs no more than this: of any two commands that can disturb each other over a file, the earlier one is waited for before the later one is forked |
| TimeTravel.OrderedScript | project1/main.c:170-257 | The complete runs under that condition end with the files and histories of running the commands one after the other |
| PlainShell.PlainExact | project1/main.c:316-332 | The shell without -t executes the commands in its own process. A complete time-travel run of a script with those waits has one of its outcomes, with the same files, accesses and exits, if and only if no command behind one whose process is gone has done anything |
| PlainShell.StayingExact | project1/main.c:316-332 | All complete runs of such a script have outcomes of the shell without -t if and only if a command in which a redirection or an exec can end the process is followed only by commands that touch no file |
| PlainShell.VanishExact | project1/execute-command.c:73-100 | The text of a command allows its process to be gone exactly if some execution ends so |
| PlainShell.MissingStops | project1/execute-command.c:73-79 | The script cat < missing, echo hi > g, with no file there: time travel writes g, the shell without -t never does |
| OspfsRoundTrip.FormatMountRead | lab3/ospfsformat.c:740-825 | Whole round trip: if the files fit, the formatter succeeds; a regular file or directory at a path without the names ., .., CVS, .svn and .git is found on the mounted image, a path is found exactly if it leads to a regular file, a link of up to 51 bytes or a directory of another name, and ospfs_read returns exactly the bytes the host file has at that position, for every size up to the largest the disk holds |
| OspfsRoundTrip.PathMirrors | lab3/ospfsformat.c:602-676 | A path leads somewhere in the image exactly if it does on the host, over regular files, links of up to 51 bytes and directories other than ., .., CVS, .svn and .git, and then to a copy of the same file, link or directory |
| OspfsRoundTrip.NothingElseSkipped | lab3/ospfsformat.c:654-669 | A path that avoids those five names leads over the copied items to whatever file or directory the host has there |
| OspfsWrite.EntersExact | lab3/ospfsformat.c:658-663 | The byte tests of writedirectory refuse exactly the names ., .., CVS, .svn and .git |
| OspfsTree.RunShares | lab3/ospfsformat.c:71-81 | Of all names in the image two lead to the same inode exactly if the host gives them the same inode number and more than one name |
| OspfsDisk.DiskExact | lab3/ospfs.h:59-194 | The formatted disk read byte by byte: the superblock, a bit of block 2 for each free block, each inode with its size, kind, link count and pointers at their offsets, each byte of a file behind ten direct, 256 indirect and 65536 doubly indirect pointers, entries of 128 bytes with number and name, and targets of links in the inode |
| OspfsRoundTrip.Resolve | lab3/ospfsmod.c:1152-1166 | Following a path with find_direntry finds exactly the inode that the directory entries of the image give, or that there is none |
| OspfsImage.Format | lab3/ospfsformat.c:740-825 | The program succeeds whenever names, inodes, blocks and cache slots suffice, takes no more blocks than foreseen, and leaves on the disk, after the last flush, exactly the files, links, directories and entries wanted |
| OspfsImage.ShallowFits | lab3/ospfsformat.c:207-263 | Sixteen cache slots are enough for five levels of directories below the root |
| OspfsImage.RunDemandNext | lab3/ospfsformat.c:363-373 | The inodes demanded of the disk are exactly those the run gives out |
| OspfsCosts.BlocksExact | lab3/ospfsformat.c:319-360 | Adding the pointer blocks that storeblk makes step by step gives one indirect block past 10 data blocks, one doubly indirect block past 266, and one indirect block for every 256 data blocks under it |
| OspfsCosts.EntryCostsExact | lab3/ospfsformat.c:375-426 | The blocks that allocdirentry takes one by one for n entries are those of a file of n / 8 blocks, rounded up |
| OspfsHost.DepthSlots | lab3/ospfsformat.c:602-676 | Copying a tree never takes more than five slots and two for every level of directories |
| OspfsImage.EachBlockOwnedOnce | lab3/ospfsformat.c:319-426 | After a run a data block is referenced exactly if it has been handed out, and never by two pointers |
| OspfsLayout.RefExact | lab3/ospfs.h:113-130 | A pointer is zero or leads to the one block with that place in the tree |
| OspfsLayout.SlotsDiffer | lab3/ospfs.h:113-130 | Different places in the block trees of all inodes are different words of the disk |
| OspfsLayout.HookKeepsOwned | lab3/ospfsformat.c:319-360 | Storing a pointer to a free block in an empty place keeps the ownership of all other blocks |
| OspfsTree.RunMirrors | lab3/ospfsformat.c:602-676 | What a run builds has, directory by directory, the names of the host in order with the same contents behind them, hard links included |
| OspfsTree.ItemsAdded | lab3/ospfsformat.c:602-676 | Copying a host directory appends to the image directory a mirror of it and changes the entries of no older directory |
| BlockCache.Cache.GetBlk | lab3/ospfsformat.c:207-263 | Transparent: the slot shows what the block contains, no other block seems to change, pinned slots stay, a block in the cache is found again, the slot becomes the most recently used one, and it fails only past the end of the disk or when all slots are pinned and none has the block |
| BlockCache.Cache.FindSlot | lab3/ospfsformat.c:219-228 | The slot with the block if there is one, else the least recently used slot that is not pinned, else none |
| BlockCache.Cache.Load | lab3/ospfsformat.c:235-255 | Evicting one block for another changes the contents of no block |
| BlockCache.Cache.FlushB | lab3/ospfsformat.c:194-205 | Writing a slot back changes its block on the disk and nothing a program can see |
| BlockCache.Cache.PutBlk | lab3/ospfsformat.c:265-269 | Takes back one pin and changes no contents |
| BlockCache.Cache.Store | lab3/ospfsformat.c:207-263 | Writing through a pinned slot changes the contents of its block and of no other |
| BlockCache.Cache.FlushDisk | lab3/ospfsformat.c:713-721 | Afterwards the disk is what the cache showed |
| OspfsFormat.Formatter.Fresh | lab3/ospfsformat.c:319-360 | getblk with the next block number and clr: a pinned block of zeros that nobody owns |
| OspfsFormat.Formatter.GetPointerBlock | lab3/ospfsformat.c:323-352 | The existing pointer block, or a new empty one that now belongs to its place; one block is taken only if there was none |
| OspfsFormat.Formatter.StoreIndirect | lab3/ospfsformat.c:323-333 | A data block is added under the indirect block, no other file changes, and as many blocks are taken as the position requires |
| OspfsFormat.Formatter.StoreIndirect2 | lab3/ospfsformat.c:334-355 | The same under the doubly indirect block |
| OspfsFormat.Formatter.StoreBlk | lab3/ospfsformat.c:318-360 | The block becomes exactly the given block of the file on all three levels; all other data blocks of all files stay; it fails only for want of blocks or cache slots or past the last block |
| OspfsFormat.Formatter.GetDirBlock | lab3/ospfsformat.c:386-398 | The walk of allocdirentry ends at the block the tree gives for that position, with only that block pinned on return |
| OspfsEntry.FindEmpty | lab3/ospfsformat.c:402-406 | The first entry of a block without an inode number, if any |
| OspfsEntry.FindRoom | lab3/ospfsformat.c:386-421 | The walk finds room for one more entry in the last block, or the last block is full |
| OspfsEntry.AllocDirEntry | lab3/ospfsformat.c:375-426 | An entry right after the last used one, with the name in it and no inode yet; a new block exactly when the last one is full |
| OspfsEntry.NewDirBlock | lab3/ospfsformat.c:410-421 | A directory gains one empty block and no entry, and its size grows by a block |
| OspfsEntry.AllocInode | lab3/ospfsformat.c:362-373 | The next inode, empty and without blocks, stored in the entry that was made ready; it fails for want of inodes exactly when all have been given out |
| OspfsHost.LookupOk | lab3/ospfsformat.c:68-81 | A host inode is found in the table exactly if it has been recorded, and then stands for a file or link of the image |
| OspfsHost.DemandNext | lab3/ospfsformat.c:362-373 | What is demanded for a list of files is the inode number the run has reached after them |
| OspfsHost.DirsGrow | lab3/ospfsformat.c:602-676 | No directory of the image is lost and inode numbers only grow |
| OspfsWrite.GetHardlink | lab3/ospfsformat.c:71-81 | The loop over the list of copied files gives the newest entry for the host inode |
| OspfsWrite.WriteBlock | lab3/ospfsformat.c:504-523 | One round of the loop puts the next bytes of the host file, padded with zeros, behind those written before; at the end of the file the block it looked at is not taken |
| OspfsWrite.WriteData | lab3/ospfsformat.c:503-525 | The file in the image has exactly the bytes of the host file, and so many blocks have been taken at most |
| OspfsWrite.PlaceName | lab3/ospfsformat.c:451-495 | A name for a new inode or, if the host inode is known, for the inode made for it, whose link count becomes right |
| OspfsWrite.WriteFile | lab3/ospfsformat.c:428-530 | Exactly one entry is added and, for a host inode not seen before, one file with these bytes; link counts stay exact; it fails only for one of the stated reasons |
| OspfsWrite.MakeLink | lab3/ospfsformat.c:569-576 | A fresh inode becomes a link with this target |
| OspfsWrite.AddSymlink | lab3/ospfsformat.c:532-580 | The same for links |
| OspfsWrite.MakeDirectory | lab3/ospfsformat.c:627-632 | An empty directory with one entry for it; the link count of the parent grows by one |
| OspfsWrite.WriteDirectory | lab3/ospfsformat.c:601-676 | A directory and all that is below it, recursively, with exact link counts, and only the pins it had before |
| OspfsWrite.WriteItems | lab3/ospfsformat.c:647-669 | The loop over a host directory, with the tests of the source, adds what its files add one after the other |
| OspfsSteps.NlinksNamed | lab3/ospfsformat.c:482-491 | One more name and a link count one higher keep the link counts of all files and links equal to the number of their entries |
| OspfsSteps.NlinksNewDir | lab3/ospfsformat.c:627-632 | A new directory keeps every directory at one plus the number of its subdirectories |
| OspfsSteps.LastBlock | lab3/ospfsformat.c:402-406 | In the last block of a directory an entry is in use exactly if it comes before the end of the list of entries |
| OspfsBits.ClearExact | lab3/ospfsmod.c:109-114 | Clearing a bit of a word changes that bit alone |
| OspfsBits.SetExact | lab3/ospfsmod.c:102-107 | Setting a bit of a word changes that bit alone |
| OspfsBits.ClearThenSet | lab3/ospfsmod.c:102-114 | Setting a bit that was set undoes clearing it |
| OspfsBits.ClearedExact | lab3/ospfsmod.c:109-121 | After bitvector_clear exactly that block is no longer free |
| OspfsBits.MarkedExact | lab3/ospfsmod.c:102-121 | After bitvector_set exactly that block is free besides those that were |
| OspfsImage.OpenDisk | lab3/ospfsformat.c:271-316 | An empty file system: nothing in use, all bits set, block and inode counters at their starts |
| OspfsImage.MakeRoot | lab3/ospfsformat.c:795-803 | Inode 0 is taken, inode 1 is an empty root directory; there is always a cache slot for this |
| OspfsImage.ClearUsed | lab3/ospfsformat.c:684-689 | The bits of exactly the blocks handed out are cleared |
| OspfsImage.ClearEnd | lab3/ospfsformat.c:690-695 | So are those past the end of the disk |
| OspfsImage.FinishFs | lab3/ospfsformat.c:678-711 | The bitmap marks exactly the blocks not handed out, the superblock describes the disk, and all files are as before |
| OspfsGrow.FormattedMounts | lab3/ospfsmod.c:291-309 | A formatted image satisfies all that the kernel module relies on |
| OspfsGrow.Written | lab3/ospfsmod.c:1062-1078 | The meaning of a write: its range replaced, zeros in a gap, all else kept |
| OspfsGrow.DataOverwritten | lab3/ospfsmod.c:1104-1130 | Storing bytes in one block changes exactly that range of one file and no other file, directory or link |
| OspfsGrow.AllocateFree | lab3/ospfsmod.c:573-612 | Freeing a block just allocated restores the bitmap |
| OspfsGrow.TakenAndGivenBack | lab3/ospfsmod.c:748-770 | A failed add_block leaves every block in use, the bitmap among them, as it was |
| OspfsKernel.IndexesExact | lab3/ospfsmod.c:644-703 | The three index functions agree with the block tree for every block number |
| OspfsKernel.Kernel.constructor | lab3/ospfsmod.c:291-309 | Mounting a sound image |
| OspfsKernel.Kernel.InodeBlockno | lab3/ospfsmod.c:180-217 | The block the tree gives for an offset, on all three levels; zero past the end and for links |
| OspfsKernel.Kernel.BitClear | lab3/ospfsmod.c:109-114 | On the byte array of the disk: exactly one bit |
| OspfsKernel.Kernel.BitSet | lab3/ospfsmod.c:102-107 | The same for setting |
| OspfsKernel.Kernel.AllocateBlock | lab3/ospfsmod.c:573-589 | The lowest free block, now taken, or zero exactly if none is free; no file changes |
| OspfsKernel.Kernel.FreeBlock | lab3/ospfsmod.c:603-612 | A block nobody owns becomes free again; no file changes |
| OspfsKernel.Kernel.AddBlock | lab3/ospfsmod.c:737-816 | One block of zeros at the end of the file, or -ENOSPC exactly if fewer blocks are free than are needed, with inode, bitmap and all blocks in use unchanged. If the pointer to the block belongs into a block under the doubly indirect one that is not there yet, the call never does this: two blocks are lost exactly if enough are free |
| OspfsKernel.Kernel.AddDeep | lab3/ospfsmod.c:777-809 | Under the doubly indirect block the new block finds its place exactly if the indirect block for it is there; else both are lost exactly if one can be had, and if not, nothing has changed or the inode keeps a pointer to a block that is free again |
| OspfsKernel.Kernel.LostPointer | lab3/ospfsmod.c:793-809 | After a loss the pointer is still zero, and both blocks are in use with no place in any block tree |
| OspfsKernel.Kernel.ChangeSize | lab3/ospfsmod.c:922-955 | Growing a file appends zeros and changes no other file; it fails at the first block exactly if that block cannot be had, and later only if the next one cannot; a block is lost only at a block number 266 + 256 k whose indirect block is not there |
| OspfsKernel.Kernel.Read | lab3/ospfsmod.c:1010-1060 | The requested slice of the file; from past the end -EIO |
| OspfsKernel.Kernel.WriteLoop | lab3/ospfsmod.c:1104-1134 | All bytes are stored at their positions and the loop never meets a missing block |
| OspfsKernel.Kernel.Write | lab3/ospfsmod.c:1080-1138 | The bytes replace exactly their range, or are appended, gaps read as zero, and every other file, link and directory is unchanged; -ENOSPC without any change exactly if the first new block cannot be had; the growth may lose a block as change_size does |
| OspfsLost.BigRun | lab3/ospfsmod.c:777-809 | A disk formatted with one file of 266 blocks, which takes 272 blocks in all, and any bytes appended to the file: on every disk of 275 blocks and more two blocks are lost, on one of 274 the inode is left with a pointer to a free block, on one of 273 there is no space |
| OspfsKernel.Kernel.FindDirentry | lab3/ospfsmod.c:1152-1166 | The first entry with the name, found exactly if there is one |
| OspfsKernel.Kernel.FindFreeInode | lab3/ospfsmod.c:1303-1312 | The lowest inode from 2 on with link count zero, or zero if there is none |
| OspfsInUse.FreeInodeExact | lab3/ospfsmod.c:1303-1312 | On a formatted disk a link count is zero exactly if nothing uses the inode |
| OspfsInUse.FewEntries | lab3/ospfs.h:184-196 | No disk has more than 65536 directory entries, so that link counts cannot wrap around |
| OspfsInUse.FormatMountFree | lab3/ospfsmod.c:1303-1312 | After formatting and mounting, find_free_inode returns the first inode the run has not given out, zero exactly if there is none |
| CommandParser.MakeCommand | project1/read-command.c:845-967 | For every well-formed token list, subshells nested to any depth, the parser returns the tree that the grammar gives it, in which no side of a pipe is a list and its right side no pipe, no side of && or || is a sequence and its right side neither of the two, and no right side of ; is a sequence; no pop meets an empty stack |
| CommandGrammar.Unambiguous | project1/read-command.c:778-804 | The grammar gives a token list at most one tree |
| CommandGrammar.RootExact | project1/read-command.c:778-804 | The root of the tree is the last ; outside subshells, else the last && or ||, else the last |, with the trees of the tokens on either side below it |
| CommandGrammar.CanonicalExact | project1/read-command.c:778-804 | Trees with operators in the right order of strength are those in which no operator stands where it may not, operator by operator |
| CommandGrammar.RedirectionsExact | project1/read-command.c:864-881 | The input of a command is the word behind its last <, the output that behind its last > |
| CommandParser.GrammarIsCovered | project1/read-command.c:845-967 | Every token list that has a tree is accepted by the parser, and the tree is the only one |
| CommandGrammar.DerivedIsAccepted | project1/read-command.c:845-967 | The tokens that a tree yields are well-formed wherever a command may stand |
| CommandParser.OperCmpExact | project1/read-command.c:778-804 | The sign that the parser looks at is the order ; below && and || below the pipe, written out for all pairs of operators, doubled negation included |
| CommandParser.Reduce | project1/read-command.c:903-909 | Joining the two topmost commands keeps the tokens the stacks stand for |
| CommandParser.ReduceStronger | project1/read-command.c:900-912 | What is joined before an operator is pushed binds at least as strongly; what stays on the stack is weaker |
| CommandParser.PushOperator | project1/read-command.c:896-916 | The operator is behind all tokens read so far and the stacks stay parses of them |
| CommandParser.Redirect | project1/read-command.c:864-881 | A redirection goes to the nearest command and is the last token read |
| CommandParser.CloseSubshell | project1/read-command.c:883-895 | The tokens between the parentheses become one subshell command |
| CommandParser.Finish | project1/read-command.c:944-961 | Both stacks drain into one tree of all the tokens |
| CommandParser.MakeSimpleCommand | project1/read-command.c:806-842 | A simple command of exactly the words of the token |
| CommandParser.WordsOfJoined | project1/read-command.c:806-842 | Splitting words that were joined by blanks gives the words back |
| CommandParser.WordsApart | project1/read-command.c:806-842 | A blank or tab separates the words of a text |
| CommandParser.WordAlone | project1/read-command.c:806-842 | Text without blanks and tabs is one word |
| CommandStack.Stack.Push | project1/stack.c:39-48 | On the linked list: one element more on top, all below unchanged |
| CommandStack.Stack.Pop | project1/stack.c:50-68 | Returns the top and leaves exactly what was below |
| CommandStack.Stack.Peer | project1/stack.c:70-77 | The top element |
| CommandStack.Stack.IsEmpty | project1/stack.c:23-27 | True exactly if nothing is on the stack |
| CommandStack.Stack.SetTop | project1/read-command.c:867-877 | Changing the command on top in place changes nothing below it |
| CommandStack.Stack.constructor | project1/stack.c:7-21 | An empty stack |
| Md5Agreement.SameDigest | lab4/md5.c:327-386 | Both implementations give the same digest for the same message, however it is cut into chunks on either side |
| Md5Agreement.SameChainingValue | lab4/md5.c:136-315 | Both block functions take every state and block to the same state |
| Md5Context.DigestOf | lab3/md5.c:224-330 | For every message whose length the counters hold, cut into any chunks, the digest is that of sections 3.1 to 3.5 of RFC 1321 |
| Md5Context.CountExact | lab3/md5.c:262-281 | The two length words are the length in bits if and only if the message is as short as stated (CountFits) |
| Md5Context.CountWrong | lab3/md5.c:270-281 | For 2^29 bytes the two words come out as 2 and 0 where the length in bits is 1 and 0 |
| Md5Context.Transform | lab3/md5.c:90-216 | The 64 written-out steps are those of section 3.4 of RFC 1321 |
| Md5Context.Round1 | lab3/md5.c:118-147 | Steps 1 to 16 |
| Md5Context.Round2 | lab3/md5.c:150-173 | Steps 17 to 32 |
| Md5Context.Round3 | lab3/md5.c:175-191 | Steps 33 to 48 |
| Md5Context.Round4 | lab3/md5.c:193-209 | Steps 49 to 64 |
| Md5Context.SameF | lab3/md5.c:80-81 | The form d ^ (b & (c ^ d)) is the function F of RFC 1321 |
| Md5Context.SameG | lab3/md5.c:80-82 | The form FF (d, b, c) is the function G of RFC 1321 |
| Md5Spec.RotatedExact | lab4/md5.c:202 | The rotation brings bit i of a word to bit i + s modulo 32, for every word and both programs |
| Md5Spec.PaddedExact | lab4/md5.c:365-386 | The padding is the octet 128, zeros to the next length that is 56 modulo 64, and the number of bits modulo 2^64 with its low-order octet first |
| Md5Example.DigestOfAbc | lab4/md5.c:365-386 | The digest of abc is the one that section A.5 of RFC 1321 lists |
| Md5Context.RolRotates | lab3/md5.c:60 | The two shifts of rol are that rotation |
| Md5Stream.RotateLeftRotates | lab4/md5.c:202 | So are those of ROTATE_LEFT |
| Md5Context.SameLine | lab3/md5.c:118-129 | One OP with rol is one line of section 3.4 of RFC 1321 |
| Md5Context.Context.Update | lab3/md5.c:224-252 | The buffer, block count and chaining value stand for the message so far and the new bytes, whatever the chunks |
| Md5Context.Context.DoFinal | lab3/md5.c:262-322 | Both padding branches absorb the message with its padding and length field, and write the state out |
| Md5Context.Context.Final | lab3/md5.c:324-330 | The digest of the whole message; calling it again gives it again |
| Md5Stream.DigestOf | lab4/md5.c:327-386 | The same for the other implementation, for every message in chunks of fewer than 2^31 bytes |
| Md5Stream.Process | lab4/md5.c:136-315 | Its 64 steps are those of section 3.4 of RFC 1321 |
| Md5Stream.Round1 | lab4/md5.c:204-228 | Steps 1 to 16 |
| Md5Stream.Round2 | lab4/md5.c:230-254 | Steps 17 to 32 |
| Md5Stream.Round3 | lab4/md5.c:256-280 | Steps 33 to 48 |
| Md5Stream.Round4 | lab4/md5.c:282-306 | Steps 49 to 64 |
| Md5Stream.SetIsLine | lab4/md5.c:202-211 | One SET with ROTATE_LEFT is one line of section 3.4 of RFC 1321 |
| Md5Stream.CountedExact | lab4/md5.c:338-342 | The two count words with their carry are the length in bits modulo 2^64 |
| Md5Stream.OffsetExact | lab4/md5.c:332 | The buffer offset taken from them is the length modulo 64 |
| Md5Stream.CountOctetsExact | lab4/md5.c:377-379 | Their eight octets are the length field of section 3.2 of RFC 1321 |
| Md5Stream.Stream.Append | lab4/md5.c:327-363 | Buffer and state stand for the message so far and the new bytes |
| Md5Stream.Stream.Finish | lab4/md5.c:365-386 | The digest of the whole message |
| MessageScan.WriteThenScan | lab4/writescan.c:80-237 | Scanning what was printed with the same format returns the arguments, for every format in which %s is followed by white space or the end and %d and %I by no digit, and all non-empty strings, addresses and integers up to 2147483637 |
| MessageFormat.MessageRoundTrip | lab4/writescan.c:158-237 | The same for the printed text as a sequence, from any argument position; a %n at the end yields the number of characters |
| MessageFormat.NumExact | lab4/writescan.c:198-210 | An integer is read back exactly if it is between 0 and 2147483637; all others are refused |
| MessageFormat.NumLoopExact | lab4/writescan.c:203-207 | For all digits, leading zeros or not, the guard against overflow stops the loop exactly if they stand for more than 2147483637 |
| MessageFormat.DigitsExact | lab4/writescan.c:198-210 | %d reads any digits as the number they stand for, up to 2147483637, and refuses others |
| MessageFormat.ByteExact | lab4/writescan.c:183-194 | Each number of %I is read from any digits as what they stand for, up to 255 and before a dot unless it is the last, and refused otherwise |
| MessageFormat.PrintedExact | lab4/writescan.c:106-119 | What is printed for integers and addresses: decimal digits without leading zeros, a minus sign, dots |
| MessageFormat.PartsExact | lab4/writescan.c:93-127 | %s, %d, %I, %n and %% are the conversions, and every other character stands for itself |
| MessageFormat.HexValueExact | lab4/writescan.c:57-62 | Digit v of 0123456789abcdef and that of 0123456789ABCDEF have the value v, and no other characters are hexadecimal digits |
| MessageFormat.SpelledIsTaken | lab4/writescan.c:166-178 | %s reads back every string in which each byte is written as it is, if it is no percent sign or white space, or as an escape with either case of either digit |
| MessageFormat.QuotedExact | lab4/writescan.c:35-48 | http_quote leaves letters, digits and eleven signs alone and writes % and two upper-case hexadecimal digits for all other bytes |
| MessageFormat.BlankCase | lab4/writescan.c:220-226 | White space in the format asks for white space in the text and skips all there is on both sides |
| MessageFormat.AnyWhite | lab4/writescan.c:223-224 | Any run of space, tab, line feed, vertical tab, form feed and carriage return is skipped |
| MessageFormat.MismatchFails | lab4/writescan.c:215-231 | The scan fails at the first character that is not what the format asks for |
| MessageFormat.StrRoundTrip | lab4/writescan.c:23-62 | Reading undoes quoting for every string, and stops at white space or the end |
| MessageFormat.ByteRoundTrip | lab4/writescan.c:183-194 | Every byte of an address is read back, with its dot |
| MessageFormat.AddrRoundTrip | lab4/writescan.c:179-197 | Every IPv4 address is read back |
| MessageScan.HttpQuote | lab4/writescan.c:23-54 | The loop over the string produces its quotation |
| MessageScan.Writef | lab4/writescan.c:91-131 | The loop over the format produces the printed message |
| MessageScan.ReadStr | lab4/writescan.c:166-178 | The in-place loop returns the unquoted string and where it stopped, which SpelledIsTaken describes in characters |
| MessageScan.ReadNum | lab4/writescan.c:198-210 | The same for integers, with the failures |
| MessageScan.ReadByte | lab4/writescan.c:183-194 | The same for one byte of an address |
| MessageScan.ReadAddr | lab4/writescan.c:179-197 | The same for an address |
| MessageScan.Vsnscanf | lab4/writescan.c:158-237 | For every text and format the result and the stored arguments are those of the parser |
| TaskBuffer.Task.Fifo | lab4/osppeer.c:155-214 | Until 2^32 bytes have come in, what has gone out, followed by what is buffered, is what has come in |
| TaskBuffer.Task.constructor | lab4/osppeer.c:82-100 | An empty buffer |
| TaskBuffer.Task.Clear | lab4/osppeer.c:106-127 | The buffer is empty again, whatever it held |
| TaskBuffer.Task.ReadToTaskbuf | lab4/osppeer.c:161-183 | Bytes move from the source to the end of the buffer in order, across the wrap of the ring; until the counters wrap around, the end is reported exactly at the end of the source or with a full buffer |
| TaskBuffer.StretchesExact | lab4/osppeer.c:161-211 | One read may fill what is free, one write may take what is buffered, both up to the end of the 100000 bytes |
| TaskBuffer.Task.WriteFromTaskbuf | lab4/osppeer.c:189-214 | As many bytes leave as the counters and the call allow, until the counters wrap around the oldest ones in order; nothing leaves exactly when the buffer is empty or the call does not succeed |
| TaskBuffer.DownloadLoop | lab4/osppeer.c:573-593 | A normal end means that all the peer sent is on the disk; a steady peer within the limit always comes to that end; errors mean failed calls; the limit keeps all counters from wrapping |
| TaskBuffer.UploadLoop | lab4/osppeer.c:727-741 | For files shorter than 2^32 bytes: what is sent is a part of the file from its beginning, at a normal end all of it, and without failing calls that end always comes; for all files: how many bytes have gone in and out, with the wrap-around of the counters |
| TaskBuffer.UploadExact | lab4/osppeer.c:189-214 | No run sends more than it has read if and only if the file is shorter than 2^32 bytes |
| TaskBuffer.SentTooMuch | lab4/osppeer.c:189-214 | For every longer file a run that sends bytes it has not read, as 100000 does not divide 2^32 |
| TaskBuffer.UploadedFits | lab4/osppeer.c:727-741 | For shorter files the buffer never overflows, each round without failing calls gets on, and the loop ends only when everything has been sent |
| TaskBuffer.TaskDownload | lab4/osppeer.c:509-617 | The saved file is all that one peer sent, no peer that would serve the file is passed over, and giving up means there is none |
| TicketLock.Exclusion | lab2/osprd.c:191-457 | In every run the writers are at most one and exactly the files marked as writing, no counter is negative, with a writer there are no readers, and while a file writes no other holds the lock |
| TicketLock.TicketOrder | lab2/osprd.c:301-399 | Tickets are served in strictly increasing order, the tickets passed over are exactly those whose owners gave up, and no waiting ticket is ever passed over |
| TicketLock.TryAcquireIsPolite | lab2/osprd.c:400-435 | In every run TRYACQUIRE gets the lock exactly if no writer holds it, nor a reader where it is for writing, and no ticket is out; then nobody waits and only this file becomes locked |
| TicketLock.ReadersExact | lab2/osprd.c:301-399 | The reader count is the number of reading files plus the number of times a file that already read has acquired again |
| TicketLock.ReaderLeftBehind | lab2/osprd.c:301-399 | A run of four steps in which a repeated read lock leaves the count at one with no file locked |
| TicketLock.StrandedForever | lab2/osprd.c:301-457 | Once the ticket to be served is held by nobody, it stays so in every further step and nobody ever gets the lock through a ticket again |
| TicketLock.WaiterServed | lab2/osprd.c:328-399 | As long as the lock is free, tickets are out and the ticket to be served is not such a one, there is a sleeping process that can wake up and gets the lock |
| TicketLock.LateRefusalStrands | lab2/osprd.c:301-323 | A run of four calls to such a state: a process that reads asks for the lock through a file open for writing, and is refused with a ticket taken |
| TicketLock.FormerReaderStrands | lab2/osprd.c:197-226 | A run of five calls to such a state in which no lock is held and nobody waits: the first entry of the list of readers is never taken out, so that its process is refused later |
| TicketLock.ShortPassStrands | lab2/osprd.c:393-397 | A run of nine steps to such a state without any -EDEADLK, if waiting processes can be interrupted: tickets given up in descending order, so that the single pass stops at one of them |
| TicketLock.StrandedExact | lab2/osprd.c:301-399 | In every run the ticket to be served is held by nobody if and only if it has been given up or refused |
| TicketLock.StrandsExact | lab2/osprd.c:301-457 | Exactly these calls lead to such a state: to be refused with the next ticket, and to be served or to give up when a ticket given up or refused comes next |
| TicketLock.Uninterrupted | lab2/osprd.c:330-340 | Without interruptions no ticket is given up, and only refused tickets are stranded |
| TicketLock.StepKeepsInv | lab2/osprd.c:301-457 | Every atomic step of every process keeps the invariant of the protocol |
| TicketLock.SkippedExact | lab2/osprd.c:393-397 | The single pass over the list of given-up tickets passes over such tickets only |
| OsprdDriver.Osprd.AcquireStart | lab2/osprd.c:301-369 | The first part of ACQUIRE, up to granting or sleeping, is the step of the protocol; -EDEADLK is returned exactly to the last writer by ACQUIRE, until a file locked for writing is closed, and for writing also to the processes in the list of readers |
| OsprdDriver.Osprd.AcquireResume | lab2/osprd.c:328-399 | So is what happens on waking up |
| OsprdDriver.Osprd.TryToEnter | lab2/osprd.c:328-369 | The lock is granted exactly when the ticket is up, no writer holds it, and for writing no reader does; the counters, the file and the lists for the deadlock checks change as stated, and otherwise nothing but an interruption changes anything, with result -512 |
| OsprdDriver.Osprd.NextTicket | lab2/osprd.c:392-398 | The loop over the given-up tickets makes one pass from left to right, in which each entry that is then the ticket to be served moves it on by one |
| OsprdDriver.Osprd.TryAcquireLock | lab2/osprd.c:400-435 | TRYACQUIRE is its step: it returns 0 exactly if no writer holds the lock, nor a reader where the file is for writing, and no ticket is out, and then counts and marks the file; else it returns -16 and changes nothing |
| OsprdDriver.Osprd.ReleaseLock | lab2/osprd.c:436-457 | RELEASE is its step, with -22 exactly if the file holds no lock |
| OsprdDriver.Osprd.CloseLast | lab2/osprd.c:178-236 | Closing a file releases its lock and changes what the deadlock checks look at, as its step says |
| OsprdDriver.Osprd.Reads | lab2/osprd.c:316-326 | The search finds a process exactly if it is in the list of readers |
| OsprdDriver.Osprd.Unlist | lab2/osprd.c:197-222 | The loop takes out the first entry of the process behind the front of the list, and nothing if the front is one |
| OsprdDriver.Osprd.constructor | lab2/osprd.c:466-477 | A new device is in the start state of the protocol |
| PrintLock.NoLostPrints | weensyos2/schedos-1.c:21-34 | In every run, preempted at any instruction, at most one process is between the swaps, every cell up to the cursor was written by exactly one iteration with its own character, and none is lost |
| PrintLock.WithinScreen | weensyos2/schedos-app.h:14 | Four processes never write past 4 * 320 cells, which is within the screen |
| PrintLock.FinalCursor | weensyos2/schedos-1.c:21-38 | When all have exited the cursor is behind 320 characters of each process |
| PrintLock.EachPrinted | weensyos2/schedos-1.c:13-38 | When the four applications have exited, each of their four coloured characters stands on the screen 320 times, without a gap, whatever the interleaving |
| PrintLock.NeverStuck | weensyos2/schedos-1.c:21-38 | From every state of every run all processes can still come to their end |
| PrintLock.StepInv | weensyos2/x86sync.h:28-35 | Every single instruction of any process keeps the invariant, with atomic_swap as one step |
| Scheduler.Kernel.constructor | weensyos2/schedos-kern.c:61-117 | The table of processes with slot 0 empty, the four priorities, and process 1 running |
| Scheduler.Kernel.Schedule | weensyos2/schedos-kern.c:197-256 | Whenever a process can run, each algorithm ends with one that can: the next one around, the lowest, or for algorithm 2 the one that the first slot that decides leads to |
| Scheduler.Kernel.Search | weensyos2/schedos-kern.c:203-211 | The search goes around the table once and stops at the first that can run |
| Scheduler.Kernel.RoundRobin | weensyos2/schedos-kern.c:201-211 | Algorithm 0 takes the next runnable process after the current one |
| Scheduler.Kernel.LowestFirst | weensyos2/schedos-kern.c:212-221 | Algorithm 1 takes the lowest runnable pid |
| Scheduler.Kernel.FindBetter | weensyos2/schedos-kern.c:225-235 | The first runnable process with the least priority value below that of the candidate, or none |
| Scheduler.Kernel.FindEqual | weensyos2/schedos-kern.c:236-241 | The next runnable process with the same priority value after the candidate |
| Scheduler.Kernel.Priorities | weensyos2/schedos-kern.c:222-250 | Of the slots from the current one up to the next runnable process, the first whose value is not below that of some runnable process decides: the least value is taken, if it is that of the slot the next process that has it; if no slot decides, the next runnable process itself is taken |
| Scheduler.MinimumTaken | weensyos2/schedos-kern.c:222-250 | Algorithm 2 takes a least value if and only if some slot, from the current one up to before the next runnable process, has a value not below that of some runnable process, or the next runnable process is itself least |
| Scheduler.EndsUnique | weensyos2/schedos-kern.c:222-250 | What algorithm 2 ends with is determined by the table and the current process |
| Scheduler.RunningDecides | weensyos2/schedos-kern.c:222-250 | If the current process is runnable the least value is taken, and equals take turns |
| Scheduler.NeighbourTaken | weensyos2/schedos-kern.c:222-250 | In the table of the start, when process 3 is the first to exit, algorithm 2 has one outcome only, process 4, though process 2 has a lower value |
| Scheduler.Fair | weensyos2/schedos-kern.c:201-211 | Under algorithm 0 a process that stays runnable runs within NPROCS - 1 calls, whatever the others do |
| Scheduler.Closer | weensyos2/schedos-kern.c:201-211 | Each call that takes another process brings the turn closer |
| Scheduler.Kernel.Exit | weensyos2/schedos-kern.c:146-156 | sys_exit makes the process a zombie with its status and dispatches another |
| Scheduler.Kernel.User1 | weensyos2/schedos-kern.c:158-163 | Setting the priority changes that of the current process alone, which goes on |

## Left out

Time-travel shell and parser

- The exit status of a pipe is that of whichever side ends last, so it is left open.
- What a program reads and writes is a parameter: two sets of files for each list of words (`Footprint.World`). It may access them in any order, any number of times and with any contents; files outside the system of names (pipes, sockets, links to the same file) are not modelled.
- Opening a file for input shows whether it is there. Any call of redirect can also fail for a reason that does not lie in the files (permissions, descriptors, dup2), and then ends the process as in the source; the runs of `Races.UnguardedRaces` use this only for commands that have been waited for. A write replaces the contents of a file, and files are not removed.
- The fixed arrays for nodes and files (1024 entries) and memory allocation.
- Command trees are values: sharing of command nodes, line numbers and the printed form are not captured.
- CommandStack.Stack.SetTop: relinks a new node, where the source writes through the pointer that peer returns.
- Tokenising and validation of script text (makeSeparation, tokenize, validate), with their buffers of fixed size: the parser starts from tokens, with a subshell as nested tokens.
- CommandParser.MakeCommand: token lists that are not well-formed, which the source filters out before.

OSPFS

- A little-endian host is assumed, on which swizzle changes nothing, and requested block numbers are at least 1, as empty cache slots carry number 0.
- File modes, the option that links files of equal content by MD5, host read errors and path lengths. Names given with the link option are taken to have targets of at most 51 characters, since the source does not check them.
- The cache clock and host inode numbers do not overflow.
- Zeroing fields of blocks that getblk has just cleared, and of inodes that are zero already, is not repeated.
- OspfsImage.Format: a run may also succeed with fewer blocks, slots or directory levels than `Fits` asks for, as several inodes share a block and a slot; only names and inodes are shown to be necessary.
- OspfsKernel.Kernel.ChangeSize: the model stops following the source after `Lost`, `Dangling` or `Wrapped`, and after `PartlyGrown`, at which the source begins to remove blocks again. The first state in which this happens is described; remove_block is not modelled.
- OspfsKernel.Kernel.Write: the same.
- Shrinking, unlink, create and links in the kernel module, readdir, faults of user-space copies, positions past 2^32, and the VFS around it, for which `OspfsRoundTrip.Resolve` stands.
- OspfsInUse.FreeInodeExact: for disks as the formatter leaves them.

MD5

- Md5Context.DigestOf: messages for which `CountFits` holds, all those below 2^29 bytes among them; for the others the source counts the overflow of the length twice.
- Md5Stream.DigestOf: chunks of fewer than 2^31 bytes, as the source takes their length in an int; shifts are taken to wrap.
- The constants are taken from RFC 1321 as a table; the sine is not computed. Text digests are left out.

OSP2P

- %n in a printed format, scanning past a % at the end of a format, the growth of the output buffer and writing it to a socket. Variable arguments are a list that matches the format.
- Requests, the tracker, sockets, checks of paths and the modes that misbehave on purpose. The operating system's answers to read and write are a list of outcomes.
- TaskBuffer.UploadLoop: which bytes are sent once the counters have wrapped around; their number is modelled. total_written does not overflow.
- TaskBuffer.TaskDownload: the exit after 50 local files of the same name.
- MessageScan.Vsnscanf: the scanner looks at two characters after a % without regard to the end of the text, where the model has a guard.

Ticket lock

- The list of readers is a sequence, not a linked list.
- A sleeping process may be interrupted in the model. The source waits on a constant condition, with which wait_event_interruptible of the kernel returns at once, so that it polls instead; `TicketLock.Uninterrupted` covers the runs without interruptions.
- Wrap-around of tickets, the fixed list of given-up tickets, block requests.
- Fair scheduling of the waiting processes: `TicketLock.WaiterServed` says that a step is possible, not that it is taken.

SchedOS

- Registers, hardware, loading of programs, console code. The lock is zero at the start; the line of the kernel that sets it is never reached.
- Scheduler.Kernel.Schedule: with no runnable process the source loops for ever; an unknown algorithm number only prints an error. The second user call changes nothing.

Other parts of the repository: weensyos1, boot loaders, mkbootdisk, fsimgtoc, osprdaccess.
