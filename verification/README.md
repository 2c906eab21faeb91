# Kernel model: file system, processes and frames

This project models three stateful parts of a small x86 teaching kernel and proves properties of whole runs.

- **The RAM-disk file system** (`FileSystems.dfy`): bitmaps packed into bytes, 64 inodes of 8 direct block numbers, a flat
  128-entry directory, 32 descriptors, and 256 blocks of 4096 bytes in one flat byte array. Its methods are proved against a
  specification (`FsSpec.dfy`) in which a file is a name and a byte sequence and a descriptor is a name and an offset.
  `FsState.dfy` holds the invariant that ties the two, `FsSteps.dfy` the steps that keep it, `FsRuns.dfy` the refinement
  over runs, `FsFacts.dfy` and `FsChunking.dfy` its consequences, `FsResults.dfy` what each call answers. `Shells.dfy`, `ShellSpec.dfy`,
  `ShellLaws.dfy` and `ShellResults.dfy` are the shell's `touch`, `cat`, `write` and `rm` on top of it.
- **Processes** (`SchedSpec.dfy`, `SchedLaws.dfy`, `ContextSpec.dfy`, `ContextLaws.dfy`, `Kernels.dfy`): the process table, the round-robin
  scheduler and `context_switch` over word-addressed memory and registers. `MutexSpec.dfy` and `MutexLaws.dfy` take two
  threads through `mutex_lock`, the increment and `mutex_unlock` one instruction at a time, with a timer tick between any two
  while interrupts are on, and with other processes acting in between. `LostWakeups.dfy` shows what the mutex does not give
  and `Completions.dfy` that the two threads can finish, `Mutexes.dfy` is the mutex as code, `Races.dfy` the same counter without it.
- **The physical frame allocator** (`FrameAllocators.dfy`, `FrameSpec.dfy`, `FrameLaws.dfy`): a bitmap packed into 32-bit
  words with a separate counter, initialised from an INT 15h, E820h memory map (section 15.1 of the ACPI Specification) with
  32-bit arithmetic.

State the kernel changes in place is a class with arrays and fields; what a call means is a function on values, and the
class's methods are proved to do what the functions say. Loop bodies of the longest C functions are methods of their own.

Four statements that the source's comments make or suggest are false of the code. For each but the last the
model has an input that shows it and a theorem that says exactly when it holds; the last never holds.

- `kernel/pmm.c:44-45` says the first 1 MiB and the kernel image are skipped. Neither is: only the clipped start is compared
  with the kernel's end, `a / FRAME_SIZE` rounds down, and bases and ends are cut to 32 bits. `FrameLaws.KernelTailFreed` and
  `FrameLaws.HighEntryFreed` are the inputs. `FrameLaws.LowMemoryFreed` says when a frame of the first 1 MiB is freed,
  `FrameLaws.KernelFreed` when one of the kernel's is, and `FrameLaws.UnalignedEntry` which entries give only frames of their own.
- `kernel/mutex.c:34-36` takes it that a BLOCKED thread is woken. A tick between the failed exchange and the listing can lose the
  wake-up (`LostWakeups.LostWakeup`). `LostWakeups.SleepsThroughIff` draws the line: while the other worker has iterations left,
  every run that gives it 13 more instructions wakes the sleeper; once it has none left, no run does.
- `kernel/mutex.h:10` calls the waiters a FIFO queue; `kernel/mutex.c:47` takes the last one. `Mutexes.NotFifo` is the input, and
  `Mutexes.FirstWokenFirst` says the first to come is woken exactly when it waits alone.
- `kernel/process.c:104` speaks of a terminated process's slot being reused. No call sets a slot back to FREE:
  `SchedSpec.SlotSpent` has it that a slot once in use is never created into again, in any run.

Conventions: characters and bytes are `bv8`; 32-bit wrap-around is written out where it can happen (`Add32`, the tick counter);
addresses in the process model count words. Offsets, sizes and block numbers of the file system stay below 2^20 by the
invariant, so they are plain naturals. A disk record never straddles a block: 64 inodes of 64 bytes fill block 3 and 128 entries of 32
bytes fill block 4.

## Model

| member | source | states |
|---|---|---|
| `FsRuns.Replay` | kernel/fs.c:388-1101 | From `fs_init` on arbitrary memory, tables and descriptors included, every sequence of create, open, read, write, close, unlink and size calls returns what the map-of-byte-strings specification returns, delivers the same bytes, and ends in a state that represents the specification's |
| `FsRuns.Perform` | kernel/fs.c:524-1101 | One call in any reachable state is one step of the specification: same result, same bytes, represented state |
| `FsRuns.RunWF` | kernel/fs.c:388-1101 | Every reachable specification state has valid names, distinct inode numbers 1..63, files of at most 32768 bytes, at most 251 blocks in use, and every descriptor on an existing file at an offset within it |
| `FsRuns.StepWF` | kernel/fs.c:524-1101 | Each call keeps that |
| `FileSystems.FileSystem.constructor` | kernel/fs.c:388-516 | Whatever `fs_init` finds in the disk, the bitmaps, the tables and the descriptors, the state after it represents the empty file system |
| `FileSystems.FileSystem.Init` | kernel/fs.c:388-516 | The same, from any earlier state |
| `FileSystems.FileSystem.Create` | kernel/fs.c:524-575 | −1 for a NULL, empty or too long name, −2 for an existing one, −3 exactly when 63 files exist, never −4; otherwise the lowest unused inode number and an empty file; the global invariant is kept |
| `FileSystems.FileSystem.CreateNew` | kernel/fs.c:543-574 | The inode, the directory entry and both bitmaps move together to the state of the specification; the full-directory exit is dead |
| `FileSystems.FileSystem.Open` | kernel/fs.c:583-632 | −1 for an unknown name, −2 when all 32 descriptors are used, otherwise the lowest free descriptor, at offset 0 |
| `FileSystems.FileSystem.Read` | kernel/fs.c:640-744 | Exactly min(count, size − offset) bytes, those of the file at the offset; −1 for a bad descriptor or a NULL buffer; the rest of the buffer and of the file system is untouched |
| `FileSystems.FileSystem.ReadLoop` | kernel/fs.c:691-740 | The block loop delivers all it is asked for: its early break is dead because files have no holes |
| `FileSystems.FileSystem.Write` | kernel/fs.c:752-896 | Splices exactly the first min(count, room) bytes at the offset; of the concrete state only this inode's size and block slots, this descriptor's offset, newly set bits and data blocks change |
| `FileSystems.FileSystem.WriteLoop` | kernel/fs.c:811-880 | The loop stops when all bytes are written or when the room is used up, never otherwise, and each state in between represents the bytes written so far |
| `FileSystems.FileSystem.WriteRound` | kernel/fs.c:814-880 | One round is a splice of one chunk, or nothing when no block is free |
| `FileSystems.FileSystem.GetBlock` | kernel/fs.c:838-851 | A slot's block is the one it has, or a free block that is marked, zeroed and recorded; with no free block nothing changes |
| `FileSystems.FileSystem.Close` | kernel/fs.c:904-922 | Frees an open descriptor; −1 and no change for any other number |
| `FileSystems.FileSystem.Unlink` | kernel/fs.c:930-1014 | −1 for an unknown name, −2 while any descriptor is on it, otherwise the file is gone and its inode, entry and all its blocks are free again |
| `FileSystems.FileSystem.FreeBlocks` | kernel/fs.c:982-992 | Exactly the blocks the inode points to become free |
| `FileSystems.FileSystem.InUse` | kernel/fs.c:965-975 | Finds a descriptor on the inode exactly when there is one |
| `FileSystems.FileSystem.Size` | kernel/fs.c:1088-1101 | The length of the open file's data, 0 for a bad descriptor |
| `FileSystems.FileSystem.AllocInode` | kernel/fs.c:209-236 | The lowest inode 1..63 whose bit is clear, zeroed and marked in bitmap and table; −1 and no change when all are taken |
| `FileSystems.FileSystem.FreeInode` | kernel/fs.c:239-257 | Clears the bit and the record of an inode 1..63; inode 0 and numbers past the table change nothing |
| `FileSystems.FileSystem.AllocBlock` | kernel/fs.c:265-294 | The lowest block 5..255 whose bit is clear, marked and zeroed, every other byte kept; −1 and no change when none is free |
| `FileSystems.FileSystem.FreeBlock` | kernel/fs.c:297-306 | Clears the bit of a data block and no other; metadata and out-of-range numbers change nothing |
| `FileSystems.FileSystem.FindDirent` | kernel/fs.c:314-331 | The first used entry with that C string as its name, −1 exactly when there is none |
| `FileSystems.FileSystem.AddDirent` | kernel/fs.c:334-364 | Fills the first unused entry with the name and inode; −1 and no change when all 128 are used |
| `FileSystems.FileSystem.RemoveDirent` | kernel/fs.c:367-380 | Zeroes that entry and no other |
| `ByteBitmaps.BitTest` | kernel/fs.c:175-181 | Bit n of the packed bytes |
| `ByteBitmaps.BitSet` | kernel/fs.c:184-191 | Sets bit n and leaves every other bit of the array as it was |
| `ByteBitmaps.BitClear` | kernel/fs.c:194-201 | Clears bit n and leaves every other bit of the array as it was |
| `CStrings.StrLen` | kernel/fs.c:123-132 | The length of a buffer's C string |
| `CStrings.StrCmp` | kernel/fs.c:135-146 | Zero exactly when the two buffers hold the same C string |
| `CStrings.StrNCpy` | kernel/fs.c:149-167 | The destination holds the source's string cut at n − 1, NUL-terminated, the rest of the destination kept |
| `FsResults.CreateResult` | kernel/fs.c:524-575 | Which refusal each input gets: −1 exactly for no name, an empty one or one of 24 bytes and more, −2 exactly for a good name that exists, −3 exactly for a good new name when 63 files exist, and then no change; otherwise the lowest free inode number, an empty file, and every other file and descriptor kept |
| `FsResults.OpenResult` | kernel/fs.c:583-632 | −1 exactly for an unknown name, −2 exactly for a known one with all 32 descriptors used, and then no change; otherwise the lowest free descriptor at offset 0, all others and all files kept |
| `FsResults.ReadResult` | kernel/fs.c:640-744 | −1 exactly for a NULL buffer or a closed descriptor; otherwise the bytes from the offset on, as many as asked for and there are, with only the offset moved |
| `FsResults.WriteResult` | kernel/fs.c:752-896 | −1 exactly for a NULL buffer or a closed descriptor, and then no change; otherwise the length is all that is given, or ends at 32768 bytes, or at the end of the file's own and the free blocks |
| `FsResults.CloseResult` | kernel/fs.c:904-922 | 0 exactly for an open descriptor, which is then free; otherwise −1 and no change; every other descriptor and file kept |
| `FsResults.UnlinkResult` | kernel/fs.c:930-1014 | −1 exactly for an unknown name, −2 exactly for a file with a descriptor on it, and then no change; otherwise the file is gone, its blocks are free, all else is kept |
| `FsResults.SizeResult` | kernel/fs.c:1088-1101 | 0 for a closed descriptor, otherwise the offset plus what reading all the rest delivers |
| `FsResults.InitResult` | kernel/fs.c:388-516 | No file, 32 free descriptors, 251 free blocks |
| `FsSteps.AddFileInv` | kernel/fs.c:543-574 | Adding an inode and its entry keeps the invariant that ties bitmaps, inode table, directory, descriptors and block contents to the specification |
| `FsSteps.RemoveFileInv` | kernel/fs.c:982-1010 | Freeing a file's blocks, inode and entry keeps it |
| `FsSteps.ChunkInv` | kernel/fs.c:816-879 | Writing one chunk, into an owned block or a newly taken zeroed one, keeps it |
| `FsSteps.RoundInv` | kernel/fs.c:814-896 | So does one round of the write loop, with the size raised only after the loop |
| `FsSteps.FormattedInv` | kernel/fs.c:388-516 | The formatted disk satisfies it |
| `FsSteps.OpenInv` | kernel/fs.c:604-631 | Taking a descriptor keeps it |
| `FsSteps.CloseInv` | kernel/fs.c:904-922 | Clearing a descriptor keeps it |
| `FsSteps.SeekInv` | kernel/fs.c:737 | Moving an offset within its file keeps it |
| `FsSteps.DirNeverFull` | kernel/fs.c:551-564 | By counting, at most 63 of the 128 entries are used, so `fs_create` never returns −4 |
| `FsLaws.InosFull` | kernel/fs.c:543-549 | 63 files exist exactly when every inode number 1..63 is taken |
| `FsLaws.CreateWF` | kernel/fs.c:524-575 | Creation keeps names, inode numbers and space accounting, and takes no block |
| `FsLaws.UnlinkWF` | kernel/fs.c:930-1014 | Removal gives back exactly the file's blocks |
| `FsLaws.WriteWF` | kernel/fs.c:752-896 | A write never uses more blocks than there are |
| `FsFacts.OneOwner` | kernel/fs.c:265-306 | In every reachable state a data block's bit is set if and only if some (inode, slot) pair points to it, and then exactly one does: no block is shared or leaked |
| `FsFacts.BlocksConserved` | kernel/fs.c:838-1010 | Free blocks plus owned blocks is always 251, and owned blocks are those the files' sizes need |
| `FsFacts.DirectoryBijection` | kernel/fs.c:314-380 | Used entries and used inodes 1..63 correspond one to one and agree on the name; inode bits equal the `used` fields |
| `FsFacts.DirectoryNames` | kernel/fs.c:524-575 | Names in the directory are non-empty, shorter than 24, distinct, and exactly those of the files |
| `FsFacts.NoHoles` | kernel/fs.c:640-896 | An open descriptor is on a file, at an offset at most its size; that file has no holes |
| `FsFacts.FileShape` | kernel/fs.c:838-891 | Of every file, open or not: slot k is non-zero if and only if 4096k is below the size, and bytes of its blocks past the end of file are zero |
| `FsChunking.WriteEffect` | kernel/fs.c:752-896 | Byte by byte: the first `ret` bytes of the buffer at the offset, everything else of this file, every other file and every other descriptor unchanged |
| `FsChunking.WriteIs` | kernel/fs.c:797-804 | What is written is min(count, 32768 − offset, own and free blocks × 4096 − offset) bytes |
| `FsChunking.WriteShort` | kernel/fs.c:828-846 | A write is short only at the 32768-byte limit, or with no free block and the offset at the end of the last owned one |
| `FsChunking.WriteTakes` | kernel/fs.c:838-851 | The blocks a write takes are those by which its file grows |
| `FsChunking.WriteTwice` | kernel/fs.c:814-880 | Two writes are one write of the concatenation, even when the disk fills up in between |
| `FsChunking.WriteAllIsOneWrite` | kernel/fs.c:814-880 | Any list of writes on a descriptor leaves the state, and the sum of results, of one write of their concatenation |
| `FsChunking.ReadAllIsOneRead` | kernel/fs.c:694-740 | Any list of read sizes delivers what one read of their sum delivers |
| `FsChunking.ReadProgress` | kernel/kernel.c:478-489 | A read of a positive size returns 0 exactly at the end of file, and otherwise strictly lowers size − offset |
| `FsChunking.WriteThenReadBack` | kernel/fs.c:640-896 | What was written whole through one descriptor is what a fresh one reads back |
| `Shells.Shell.Touch` | kernel/kernel.c:394-434 | Creates the file or leaves the files as they are, with one of four messages, for NULL, empty and any other names |
| `Shells.Shell.Rm` | kernel/kernel.c:669-701 | Removes the file and says so, or leaves the files as they are and prints the refusal, for every argument |
| `Shells.Shell.Cat` | kernel/kernel.c:441-496 | Prints the usage, the refusal, or the file after an indent and before a line end; the loop ends, and the files and descriptors afterwards are those before |
| `Shells.Shell.CatLoop` | kernel/kernel.c:478-489 | Prints the file 255 bytes at a time, each chunk up to its first NUL |
| `Shells.Shell.WriteFile` | kernel/kernel.c:509-662 | Parsing, removing the old file, creating, opening, writing and closing together do what the specification says, on every exit |
| `Shells.Shell.ParseArgs` | kernel/kernel.c:530-582 | The word loops find the name, cut at 23 bytes, and the text after the blanks |
| `Shells.Shell.StoreText` | kernel/kernel.c:584-661 | The file calls of the command |
| `ShellLaws.ParseLine` | kernel/kernel.c:530-582 | `name text` parses to that name and that text |
| `ShellLaws.StoreExact` | kernel/kernel.c:584-661 | For every name, text and state between commands: either the name is new and 63 files exist, or the file ends up with the first min(length, available) bytes |
| `ShellLaws.ReplaceStoresAll` | kernel/kernel.c:584-661 | Over an existing non-empty file a text of at most 255 bytes is stored whole, however full the disk, the inode table and the directory are |
| `ShellLaws.WriteThenCat` | kernel/kernel.c:441-662 | `write` over a non-empty file, then `cat`, prints exactly the text |
| `ShellLaws.CatPrints` | kernel/kernel.c:478-489 | `cat` prints a file in full if and only if the file holds no NUL |
| `ShellLaws.CatShows` | kernel/kernel.c:441-496 | `cat` finds a descriptor, prints the file and leaves the state as it was |
| `ShellLaws.NoneLeftOpen` | kernel/kernel.c:394-701 | No command leaves a descriptor open |
| `ShellLaws.SessionsClose` | kernel/kernel.c:394-701 | Nor does any sequence of commands |
| `ShellResults.TouchResult` | kernel/kernel.c:394-434 | Usage, existing name, other refusal and success told apart exactly; success adds one empty file and keeps the rest |
| `ShellResults.RmResult` | kernel/kernel.c:669-701 | Between commands: an existing file is gone, its blocks are free, the others are kept and it says removed; any other name changes nothing and gets the refusal |
| `ShellResults.RmHeld` | kernel/kernel.c:681-699 | A file with a descriptor on it stays, and gets the refusal |
| `ShellResults.RmThenCat` | kernel/kernel.c:441-701 | After `rm`, and any commands that neither touch nor write the name, `cat` says the file is not found |
| `ShellResults.GoneForSession` | kernel/kernel.c:394-701 | A missing file stays missing over any such session |
| `ShellResults.CatPieces` | kernel/kernel.c:478-489 | One text per 255 bytes begun, each up to the first NUL of its bytes |
| `ShellResults.CatResult` | kernel/kernel.c:441-496 | Usage, refusal, or an indent, the pieces and a line end; nothing changes |
| `ShellResults.ParseLineAny` | kernel/kernel.c:530-582 | Blanks, a name of at most 23 bytes, blanks and a text that starts with none parse to that name and text; a longer word is cut at 23 bytes |
| `ShellResults.EveryLine` | kernel/kernel.c:530-582 | Every command line is of that form |
| `ShellResults.WriteCommand` | kernel/kernel.c:509-662 | Usage without a name or a text, refusal for want of an inode, otherwise the file holds what fits, the rest is kept and the count is shown |
| `FrameAllocators.FrameAllocator.Init` | kernel/pmm.c:27-71 | On any map the packed bitmap and the counter become those of the set of frames the specification frees; every walk ends despite 32-bit wrap-around |
| `FrameAllocators.FrameAllocator.Walk` | kernel/pmm.c:46-56 | One entry's walk frees exactly the frames its addresses fall in, off the disk, each counted once |
| `FrameAllocators.FrameAllocator.AllocFrame` | kernel/pmm.c:73-83 | The lowest clear bit, set, and its address; 0 when there is none |
| `FrameAllocators.FrameAllocator.FreeFrame` | kernel/pmm.c:85-93 | Clears a set bit in range and counts it; double and out-of-range frees change nothing |
| `FrameAllocators.FrameAllocator.FreeCount` | kernel/pmm.c:95 | The counter is the number of clear bits |
| `FrameAllocators.Serve` | kernel/pmm.c:27-93 | From arbitrary memory and any map, every sequence of calls keeps the allocator in the specification's state |
| `WordBitmaps.BitSet` | kernel/pmm.c:16 | Sets bit f of the packed words and no other |
| `WordBitmaps.BitClear` | kernel/pmm.c:17 | Clears bit f and no other |
| `WordBitmaps.BitTest` | kernel/pmm.c:18 | Bit f of the packed words |
| `FrameLaws.BootFreesProper` | kernel/pmm.c:37-57 | For 1 to 64 entries with page-aligned clipped starts that do not wrap, a frame is free if and only if it is below 8192, off the disk, wholly inside a usable entry and past the kernel, whatever entries overlap |
| `FrameLaws.OffersSteps` | kernel/pmm.c:37-56 | For every entry and kernel end, aligned or not: the frames it gives are those some step of its walk falls in with a whole page before the end and off the disk |
| `FrameLaws.WalkBounds` | kernel/pmm.c:40-46 | The walk starts at the low 32 bits of the base, not below the kernel's end, and ends at the low 32 bits of the sum |
| `FrameLaws.BootSteps` | kernel/pmm.c:27-68 | On every map, a frame of memory is free after boot if and only if such a step of some usable entry gives it, or there are no or more than 64 entries and it is past 1 MiB and off the disk |
| `FrameLaws.UnalignedWalk` | kernel/pmm.c:46-56 | With a kernel end of 0x21800 and one usable entry of 0x9FC00 bytes at 0, exactly frames 0x21 to 0x9E are free |
| `FrameLaws.AlignedEntry` | kernel/pmm.c:40-56 | The same for one entry, both directions |
| `FrameLaws.UnalignedEntry` | kernel/pmm.c:40-56 | For every usable entry, also one whose 64-bit base or end is cut to 32 bits: all frames it gives are wholly inside it and past the kernel if and only if it gives none, or its base is below 4 GiB and the clipped start is page-aligned or on the disk, or its base is higher, the cut start is on the disk and the walk ends before the frame after the disk |
| `FrameLaws.SoundBoot` | kernel/pmm.c:37-57 | On a map of 1 to 64 such entries every frame boot frees is wholly inside a usable entry and past the kernel |
| `FrameLaws.KernelTailFreed` | kernel/pmm.c:44-53 | A kernel that ends inside a page below 1 MiB: the frame holding its tail is freed |
| `FrameLaws.HighEntryFreed` | kernel/pmm.c:40-53 | An aligned entry at 4 GiB: a frame just past the kernel, nowhere near the entry, is freed |
| `FrameLaws.LowFrames` | kernel/pmm.c:44-56 | An entry gives a frame of the first 1 MiB if and only if it is usable and its clipped start lies there with a page before its end |
| `FrameLaws.LowMemoryFreed` | kernel/pmm.c:37-68 | Boot frees a frame of the first 1 MiB if and only if some entry gives one; the walk without a map never does |
| `FrameLaws.KernelFrames` | kernel/pmm.c:44-56 | An entry gives a frame that begins before the kernel ends if and only if the page of its clipped start does and is walked |
| `FrameLaws.KernelFreed` | kernel/pmm.c:37-68 | Boot frees such a frame if and only if an entry gives one, or there is no believable map and the kernel ends past 1 MiB |
| `FrameLaws.BootReserves` | kernel/pmm.c:46-67 | On any map no frame of the disk is freed, nor frame 0 once the kernel ends past the first page |
| `FrameLaws.NoMapCount` | kernel/pmm.c:59-68 | With no entries exactly 7680 frames are free |
| `FrameLaws.AllocationIs` | kernel/pmm.c:73-83 | The lowest free aligned frame, never one held, never one on the disk; 0 if and only if none is free |
| `FrameLaws.AllocIs` | kernel/pmm.c:73-83 | In any state: the lowest free frame is taken and counted off and no other changes; 0 and no change when none is free |
| `FrameLaws.FreeIs` | kernel/pmm.c:85-93 | In any state: a taken frame in range becomes free and is counted; no other frame changes |
| `FrameLaws.AllocatorSafety` | kernel/pmm.c:27-93 | After boot on any map and any calls that free only held frames: the next allocation is the lowest free aligned frame, not held and not on the disk, or 0 if and only if the counter is 0 |
| `FrameLaws.SafeStep` | kernel/pmm.c:73-93 | Each allowed call keeps: reserved frames taken, held addresses distinct taken frames |
| `FrameLaws.CounterConserved` | kernel/pmm.c:48-93 | After any calls at all, double and stray frees included, the counter is the number of clear bits and is never negative |
| `FrameLaws.FrameZeroAmbiguous` | kernel/pmm.c:73-83 | A returned 0 means failure or frame 0, the latter exactly when frame 0 is free |
| `SchedLaws.BootResult` | kernel/process.c:30-40 | PID 0 RUNNING and current, slots 1 to 15 free |
| `SchedLaws.FirstCreations` | kernel/process.c:55-100 | From boot creation number k gets process k for k up to 15, and the sixteenth finds no slot |
| `SchedLaws.CreateResult` | kernel/process.c:55-100 | The lowest free slot from 1 on becomes READY and nothing else changes; with none free, nothing at all |
| `SchedLaws.TerminateResult` | kernel/process.c:106-110 | Any of slots 1 to 15, current or not, becomes TERMINATED and nothing else changes; PID 0 and numbers past the table change nothing |
| `SchedLaws.KilledNeverRuns` | kernel/process.c:106-110 | A process killed while not current is not chosen in any continuation |
| `SchedLaws.SwitchResult` | kernel/scheduler.c:29-52 | The READY process fewest places round becomes RUNNING and current, the one left becomes READY only if it was RUNNING, all others are kept; with no other READY process nothing changes |
| `SchedLaws.UnblockResult` | kernel/scheduler.c:91-96 | A BLOCKED process becomes READY; no other state changes |
| `SchedLaws.BlockResult` | kernel/mutex.c:31 | The current process becomes BLOCKED; no other state changes |
| `SchedSpec.StepInv` | kernel/scheduler.c:29-96 | Every operation keeps: only the current process is RUNNING, PID 0 is RUNNING when current and READY otherwise |
| `SchedSpec.FromBoot` | kernel/process.c:30-40 | From boot, in every reachable state: no other process is RUNNING, PID 0 is READY or RUNNING, and a switch away from another process succeeds |
| `SchedSpec.SwitchSucceeds` | kernel/scheduler.c:29-52 | With a current process other than PID 0 there is always one to switch to |
| `SchedSpec.NextReady` | kernel/scheduler.c:34-42 | The scan returns a READY process, or the current one exactly when none of the 15 others is READY |
| `SchedSpec.TerminatedForever` | kernel/process.c:106-110 | A TERMINATED process that is not current never changes state or runs again |
| `SchedSpec.SlotSpent` | kernel/process.c:57-65 | A slot once in use is never FREE again and never created into, terminated or not |
| `SchedSpec.BlockedStays` | kernel/scheduler.c:44-50 | A BLOCKED process stays so until unblocked or terminated, and is not current from the first switch on |
| `SchedSpec.SwitchNearer` | kernel/scheduler.c:29-52 | While p is READY every switch does switch, and brings p's turn strictly nearer in cyclic distance |
| `SchedSpec.NextWithin` | kernel/scheduler.c:34-40 | The chosen process is no further round than any READY one |
| `SchedSpec.BoundedWaiting` | kernel/scheduler.c:29-52 | A READY process that nobody terminates is chosen within as many switches as its cyclic distance |
| `SchedSpec.FifteenSwitches` | kernel/scheduler.c:29-52 | So 15 switches always suffice |
| `ContextLaws.RoundTrip` | kernel/switch.asm:19-27 | For any run between the switch away from p and the next switch to p, p finds its registers, stack pointer and return address, with interrupts on |
| `ContextLaws.FreshStart` | kernel/process.c:67-96 | A created process first runs at its entry, with zero registers and an empty stack, whatever happened in between |
| `ContextLaws.StepInv` | kernel/scheduler.c:44-50 | Every operation keeps: each READY or BLOCKED process that is not current has a saved stack pointer to a nine-word frame inside its own stack |
| `ContextLaws.SwitchOut` | kernel/switch.asm:20-22 | The frame left on the outgoing stack holds exactly what the process must get back |
| `ContextLaws.SwitchIn` | kernel/switch.asm:23-27 | The CPU becomes exactly what the incoming process saved |
| `ContextLaws.Fresh` | kernel/process.c:67-96 | The hand-made frame of `process_create` is one `context_switch` starts at the entry |
| `ContextLaws.SwitchStores` | kernel/scheduler.c:44-50 | Word by word what a switch leaves on the old stack: both arguments, the return address, the registers in the order of pushad, and the stack pointer in the table; nothing else changes |
| `ContextLaws.EntryWords` | kernel/process.c:92-97 | Which words of an entry hold the pid, the stack and the name, and that no other word changes |
| `ContextLaws.CreatedMemory` | kernel/process.c:67-97 | Word by word what a creation stores: the entry's fields and the frame at the top of the stack, nothing else |
| `ContextLaws.Pushed` | kernel/switch.asm:20-27 | popad and ret undo pushad and the call |
| `ContextSpec.StepApart` | kernel/switch.asm:19-27 | No operation touches the stack or saved stack pointer of another process in use |
| `Kernels.Kernel.ProcessInit` | kernel/process.c:30-40 | A zeroed table but for PID 0's stack and name, PID 0 RUNNING and current, all other memory kept, and the kernel's invariant |
| `Kernels.Kernel.ProcessCreate` | kernel/process.c:55-100 | The lowest free slot from 1 on, with its frame built word by word and its pid, stack pointer, stack and name stored, all other memory kept; or −1 and no change; the invariant is kept |
| `Kernels.StartTasks` | kernel/kernel.c:807-812 | From any memory, start-up makes the two demo tasks processes 1 and 2, READY, with PID 0 RUNNING and the other slots free |
| `Kernels.Kernel.BuildFrame` | kernel/process.c:69-90 | The stores through the moving stack top leave the entry on top of eight zero words and nothing else changed |
| `Kernels.Kernel.ProcessTerminate` | kernel/process.c:106-110 | Marks a slot other than PID 0; out-of-range numbers and 0 change nothing |
| `Kernels.Kernel.ContextSwitch` | kernel/switch.asm:19-27 | Memory gains the outgoing frame and stack pointer and nothing else; the CPU is what the new stack says |
| `Kernels.Kernel.PickAndSwitch` | kernel/scheduler.c:29-52 | One step of the context model, invariant kept; the result says whether it switched |
| `Kernels.Kernel.SchedulerTick` | kernel/scheduler.c:55-67 | The same, and the 32-bit tick counter advances |
| `Kernels.Kernel.SchedulerYield` | kernel/scheduler.c:77-86 | The same, with interrupts on afterwards whether or not it switched |
| `Kernels.Kernel.SchedulerUnblock` | kernel/scheduler.c:91-96 | Wakes a BLOCKED process and changes nothing otherwise; the invariant is kept |
| `MutexLaws.MutualExclusion` | kernel/mutex.c:23-50 | Two workers, any interleaving of ticks and other processes: at most one is between a successful exchange and `locked = 0`, `locked` says whether one is, and `owner` is −1 or that one |
| `MutexLaws.ExactCount` | kernel/kernel.c:757-781 | Whenever both workers have done their n iterations the counter is exactly 2n |
| `MutexLaws.BlockingDiscipline` | kernel/mutex.c:23-50 | `nwaiters` is 0 or 1, the listed worker is BLOCKED or about to be, a BLOCKED worker is listed or being woken, and the two are never both BLOCKED |
| `MutexLaws.StepInv` | kernel/mutex.c:23-50 | The invariant behind these is kept by each instruction, tick and step of another process |
| `MutexLaws.ReachInv` | kernel/mutex.c:23-50 | And so holds after every run |
| `LostWakeups.LostWakeup` | kernel/mutex.c:25-32 | A concrete run from `mutex_init`: a tick between the failed exchange and the listing leaves a worker BLOCKED when the other has finished |
| `LostWakeups.SleepsForever` | kernel/mutex.c:25-48 | From there it stays BLOCKED, and the counter short, in every continuation |
| `LostWakeups.WakesIff` | kernel/mutex.c:23-50 | In every state of the invariant a sleeping worker can wake, in some continuation, if and only if the other one still has iterations to do |
| `LostWakeups.FirstWakesIff` | kernel/mutex.c:23-50 | The same with the workers exchanged |
| `LostWakeups.SleepsThroughIff` | kernel/mutex.c:23-50 | The boundary over every run: a sleeping worker sleeps through a run that gives the other one as many instructions as it has to go, at most 13, if and only if the other one has done its iterations |
| `LostWakeups.FirstSleepsThroughIff` | kernel/mutex.c:23-50 | The same with the workers exchanged |
| `Completions.BothDone` | kernel/kernel.c:757-781 | For every n some run takes both workers to their end, with the counter at 2n |
| `Mutexes.Mutex.constructor` | kernel/mutex.c:16-21 | The state `mutex_init` leaves |
| `Mutexes.Mutex.LockAttempt` | kernel/mutex.c:25-38 | One turn of the loop, uninterrupted, is two instructions of the model and the mutex, or seven and a sleeping caller |
| `Mutexes.Mutex.Unlock` | kernel/mutex.c:41-50 | `mutex_unlock`, uninterrupted, is the model's instructions from clearing the owner to waking the last waiter |
| `Mutexes.Sleeps` | kernel/mutex.c:25-34 | The seven instructions of a failed attempt: listed, BLOCKED, switched away, interrupts on |
| `Mutexes.UnlockResult` | kernel/mutex.c:41-50 | In any state: the mutex is free, the last waiter if any is off the list, and only it changes, to READY if it was BLOCKED |
| `Mutexes.EnlistResult` | kernel/mutex.c:30 | The process goes after those listed; the rest of the mutex is kept |
| `Mutexes.WakesLast` | kernel/mutex.c:46-49 | Of any number of different BLOCKED waiters `mutex_unlock` wakes the last to come and nobody else, and keeps the others listed in order |
| `Mutexes.FirstWokenFirst` | kernel/mutex.c:46-49 | The first to come is woken if and only if nobody else waits |
| `Mutexes.NotFifo` | kernel/mutex.c:46-49 | Process 1 came before process 2, and process 2 is woken |
| `Races.Outcomes` | kernel/kernel.c:737-753 | Without the mutex the results the demo can end with are exactly the values from 2 (n when n < 2) to 2n |
| `Races.RunInv` | kernel/kernel.c:737-753 | The bounds hold along every interleaving |
| `Races.AloneA` | kernel/kernel.c:737-744 | A thread left alone for m iterations adds m |
| `Races.Demo.RaceThread` | kernel/kernel.c:737-744 | The thread's loop as code is the run in which only it moves |

## Left out

- The byte overlay of blocks 1 to 4: the bitmaps, the inode table and the directory are arrays of their own beside the flat byte array, so `inodes` and `ramdisk` do not alias; writes are proved to stay in blocks 5 to 255.
- The superblock: `fs_init` fills it and nothing reads it.
- `fs_list` and `ps`: they only print, and `vga_printf` does not handle their `%-24s`.
- Ports, interrupt controller, timer set-up, keyboard, screen memory and boot code: hardware; `vga_puts` in the shell commands appends to a list of printed events, without colours.
- `mem` buffers of C callers: a read buffer is an array apart from the file system's own, a write buffer a byte sequence; overlapping buffers are not modelled.
- Return values of 2^31 and more: a read or write of one call is at most 32768 bytes, so none occurs.
- `race_done`: stored for display only.
- The copy of a process name: the eight words it leaves in the entry are a parameter.
- The state word of a process-table entry: states are an array of their own, and the word's place in memory is not used.
- MutexSpec.Execute: three or more contenders are not modelled instruction by instruction, because the pop in `mutex_unlock` runs with interrupts on and two of them could interleave.
- Kills of workers, and mutex use by PID 0: excluded by the steps other processes may take in `MutexSpec.Enabled`; the shell never locks.
- `process_create` is one step: the state is set READY one store before the saved stack pointer, and a tick between the two is not modelled.
- Threads that write outside their own stack, nested interrupts, EFLAGS other than the interrupt flag, and compiler reordering: an `Exec` step of the context model changes no other process's stack or saved stack pointer.
- The interrupt frame that the timer stub pushes and pops around `scheduler_tick` (`kernel/isr_stub.asm:39-53`): part of the interrupted thread's own stack use.
- Races.Execute: 32-bit overflow of the counter is not modelled; 2 × 100000 is far below it.
- Races.Outcomes: any interleaving of instructions counts as a run, so it speaks of the two threads alone and not of the scheduler's order.
