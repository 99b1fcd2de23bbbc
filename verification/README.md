# Verification of MazeOS

MazeOS is a small x86 kernel: three terminals with a stack of processes each, a round-robin scheduler, two-level paging, a
read-only block file system, a keyboard line discipline. This project models these parts in Dafny and proves properties of
them. `dafny verify dfyconfig.toml` checks everything.

## How it is built

Every component has a specification on values, theorems about that specification, and code in place proved to compute it.

| component | specification and theorems | code in place |
|---|---|---|
| memory map, page tables | `Layout`, `Paging` | `PageTables` |
| processes, scheduler, terminals' stacks | `Pids`, `Processes`, `Invariant`, `Steps`, `Conservation`, `WellNested`, `Scheduling`, `Fairness`, `VideoPages`, `Boot` | `Pids`, `KernelMemory` |
| screens and virtual terminals | `Screens`, `Transcripts`, `Terminals`, `TerminalRuns` | `ScreenMemory`, `KernelMemory` |
| files and programs | `Filesystem`, `Files`, `OpenFiles`, `FileSessions`, `Programs`, `ImageWriter`, `Volumes` | the methods and classes there |
| keyboard | `Keyboard`, `Typing` | `KeyboardDriver` |
| keyboard, screens and processes together | `Echo` | |
| number printing, command lines | `Printing`, `Command` | the methods and classes there |

**Processes, scheduler, paging.** `Processes.Kernel` is the state the C code shares between `execute`, `halt`, the exception
handlers, the timer, the Alt-Fn keys and `vidmap`: PID table, per-terminal process stacks, PCBs, the TSS stack pointer, the page
directory and its tables. The six kinds of events are functions on it. `Invariant.Inv` says that the running process is
the newest of the executing terminal, that its `esp0` is in the TSS and its frame in the 128 MB window, that every parent is the
stack entry just below, that PIDs, PCB addresses and stacks agree, that each suspended process was suspended on its own stack
at the right place, and that the tables map exactly what they should. `Steps.Run` keeps it over every run; the
theorems on nesting, fairness, conservation and isolation are about such runs. The numbers of PIDs and terminals are
parameters (up to 14 PIDs, where user frames would meet the backup pages, and up to one page table of terminals).

A saved `k_esp`/`k_ebp` pair is a `Context`: the stack pointer and the place in the kernel code where it was saved. `serial`
numbers processes in the order of their creation so that a theorem can name "the `execute` that created this child".

**Virtual terminals.** A terminal's screen is the page its backup address translates to. The copies of a switch are done
under the page tables in force at that moment. A write of several bytes is a run of `WriteByte` events, and the message an
exception handler prints first is a run of `EchoByte` events, since it goes straight to the video page.

**Files.** An image is a byte string; `File.Contents` is the flat file its block numbers describe. `ImageWriter` lays a directory
and files out as an image, in any placement of their blocks, and `Volumes` follows them to what `open`, `read` and `execute` find.

**Keyboard.** One interrupt is one step; the line a reader gets is a fold of keys. `Typing` says what these
keys are from the caps of the keyboard and the scan codes so far. `Echo.System` puts the keyboard and the
machine together: what an interrupt echoes goes to the screen on display, its Alt-Fn keys are switches, and a refused switch
acknowledges the line.

**Code in place.** `KernelMemory.KernelData` holds the kernel's arrays, page tables, screen memory and terminals, and picks
the terminal it prints on by `terminals[exec]` or `terminals[curr]` as the code does. Each call is one step of
`TerminalRuns.MachineStep`, from every reachable state.

## What the code relies on

These are preconditions of the theorems, because the code does not check them.

- A stack pointer in kernel code lies in the 8 KB block the TSS points into (the processor switches to it on entry).
- "shell" is in the file system and executable; runs start when the first shell is launched.
- A file has at most 63 blocks, counting `length / 4096 + 1` (include/filesystem.h:10, src/filesystem.c:356). Directory and
  inode blocks lie in the image, and the image ends below 4 GB. Data blocks that start behind
  the image are refused by the driver; the others may lie in the image or in memory around it, which is constant during a read
  (`Image.outside`). So the buffer read into is not part of the image, a block that overlaps it is read as it was before the
  call, and every block read is on a mapped page, since an unmapped one would fault in the kernel.
- Fewer than 128 argument bytes are kept, since `args[args_length]` is written (src/syscalls/syscalls.c:167);
  `Command.ArgumentsFit` says which lines these are. The command string ends within reach of the 16-bit index.
- A pressed key's scan code is below 93 (src/drivers/keyboard.c:484). No further key arrives for a terminal between the
  acknowledgement and the end of its read (src/drivers/keyboard.c:177-203).
- The page that `getargs` copies to has room for the arguments behind the address it checks.

## Where code and documentation differ

The model follows the code.

- When the first process of a terminal exits, `halt` clears the screen on display, which is that terminal's own only if it is
  displayed: `TerminalRuns.RestartedTerminalIsClear` has the exact condition and `Boot.BackgroundExitClearsForeground` a run.
- `getargs` is documented to fail when the arguments do not fit, but it compares sizes as unsigned words and accepts every
  negative one: `Command.AcceptedSizes`, `Command.NegativeSizeAccepted`.
- A block number is refused only when its block starts behind the image, so that just behind the last data block is accepted:
  `Filesystem.AcceptedNumbers`.
- There is one page at 132 MB for all processes. The exit of one that called `vidmap` takes it from a parent that called it too,
  and after a switch it leads to the displayed screen if the process there has it, whoever else draws on it:
  `VideoPages.StepOnPage`.
- The branches for the right Ctrl and Alt keys come after the plain ones with the same first byte and are never reached:
  `Keyboard.RightFlagsNeverChange`.
- An inode number survives the trip through the pointer in a file descriptor only within 2 GB of the image:
  `Filesystem.InodePtrRoundTrip`. `open` does not compare it with the inode count: an entry with inode number 0x100000, which
  no image has, opens the file of inode 0 (`FileSessions.ForeignInodeOpensFirstFile`, and an image in
  `FileSessions.ForeignInodeImage`).
- `execute` returns 0, not an error, exactly when there is a program but no PID left: `Steps.ExecuteKeepsInv`. Its caller cannot
  tell this from a program that ran and exited with 0: `Boot.ZeroMeansTwoThings`.
- The loader of `execute` adds a failed read's -1 to its position. It ends exactly on programs without a missing block, and
  otherwise runs for ever before the first hole: `Programs.LoaderStopsIffComplete`, and an image with such a program in
  `Programs.SomeProgramNeverLoads`.
- Ctrl-A, Ctrl-C and Ctrl-L replace the whole line and are not echoed, so what the reader gets is then not what the screen
  shows: `Echo.ControlIsNotEchoed`.

## Model

| member | source | states |
|---|---|---|
| `Layout.MaskIsBitwiseAnd` | src/process.c:23-29 | Subtracting the remainder modulo 8 KB, the form used in the address proofs, is the bitwise and of the code with 0xFFFFE000, on every 32-bit word. |
| `Layout.MaskedStackPointer` | src/process.c:23-29 | The bitwise mask gives a process's PCB address if and only if the word lies in that process's 8 KB kernel stack block. |
| `Layout.StackPointerFindsPcb` | src/syscalls/syscalls.c:222-223 | The same for the arithmetic form; the initial stack pointer is in its block, and no PCB address is NULL. |
| `Layout.RegionsAreDisjoint` | src/syscalls/syscalls.c:217-223 | Kernel stacks lie in the kernel page and do not overlap; user frames do not overlap each other, the low 4 MB, the kernel page or any terminal's backup page. |
| `Paging.PdeRoundTrip` | include/paging.h:26-54 | The processor reads back from a packed directory word exactly the fields the kernel put in, for 4 MB and 4 KB entries. |
| `Paging.PteRoundTrip` | include/paging.h:56-68 | The same for page table words. |
| `Paging.MappedWords` | src/syscalls/syscalls.c:203-217 | The directory and table words the kernel stores, as numbers: frame address, present, writable, user and large bits. |
| `Paging.UserReach` | src/paging.c:29-116 | By the two-level page walk, user mode reaches its own frame through the 128 MB window and otherwise at most the one page at 132 MB, onto a screen frame. |
| `Paging.ReachIsWritable` | src/paging.c:29-116 | Every address that user mode or the kernel can translate is mapped writable at both levels. |
| `Paging.KernelReach` | src/paging.c:228-250 | The kernel page and the video page are identity mapped and closed to user mode; a terminal's backup address leads to the video page exactly for the terminal on display, else to its own frame. |
| `Paging.ScreenFramesDistinct` | src/drivers/terminal.c:53-59 | No two terminals share a screen frame, and only the displayed one has the video page. |
| `Paging.MapProcessKeeps` | src/paging.c:130-136 | Mapping a process keeps all four tables consistent, with that process in the 128 MB window. |
| `Paging.MapUserVideoKeeps` | src/paging.c:175-190 | Mapping a user screen page onto a screen frame keeps the tables consistent. |
| `Paging.FreeUserVideoKeeps` | src/paging.c:202-215 | Unmapping it keeps the tables consistent. |
| `Paging.HideKeeps` | src/drivers/terminal.c:187-191 | Mapping the displayed terminal's backup page back to its own frame leaves no terminal on the video page and all else as it was. |
| `Paging.ShowKeeps` | src/drivers/terminal.c:221-225 | Mapping a terminal's backup page onto the video page puts exactly that terminal on display. |
| `PageTables.BootTablesMapped` | src/drivers/terminal.c:32-70 | What `init_paging` and `terminal_init` build is consistent, for any number of terminals, with terminal 0 on display. |
| `PageTables.FillTable` | src/paging.c:47-78 | The initialising loops leave exactly the intended entry at every index. |
| `PageTables.PageMaps.constructor` | src/paging.c:29-111 | `init_paging` in place: the words it leaves decode to the initial tables. |
| `PageTables.PageMaps.Translate` | src/paging.c:29-116 | A walk over the words in memory is the walk over the decoded tables. |
| `PageTables.PageMaps.MapPage4MB` | src/paging.c:130-136 | Writing the directory word changes the decoded tables in exactly that one entry. |
| `PageTables.PageMaps.MapUserVideoMem` | src/paging.c:175-190 | The two words written are one page table entry and the directory entry that leads to it. |
| `PageTables.PageMaps.FreeUserVideoMem` | src/paging.c:202-215 | Exactly one page table entry becomes absent. |
| `PageTables.PageMaps.MapBackupVidmem` | src/paging.c:228-250 | Exactly the backup entry and its directory entry change. |
| `PageTables.PageMaps.InitTerminals` | src/drivers/terminal.c:53-69 | The mapping loop and the final remapping give the boot tables. |
| `Pids.AllocationTakesLeastFree` | src/process.c:42-55 | Allocation fails exactly when every PID is used and otherwise takes the least free one and nothing else. |
| `Pids.PeekLeavesTable` | src/drivers/terminal.c:171-183 | Taking a PID and giving it back, as a terminal switch does, leaves the table as it was, also when it was full and the -1 is given back; giving it back twice fails. |
| `Pids.PidTable.GetAvailablePid` | src/process.c:42-55 | The scan in place finds and marks the least free PID. |
| `Pids.PidTable.Free` | src/process.c:67-78 | Freeing in place, with both error returns. |
| `Invariant.RunningIsTop` | src/process.c:23-29 | In every reachable state the PCB found below the stack pointer is the newest process of the executing terminal. |
| `Invariant.SpawnKeepsInv` | src/syscalls/syscalls.c:199-280 | Pushing a process with a free PID from any state between steps re-establishes the whole invariant, with the new process running. |
| `Invariant.PopSlots` | src/syscalls/syscalls.c:54-64 | `halt` up to its fork removes exactly the newest slot of the executing terminal, frees exactly its PID, and leaves the page tables consistent. |
| `Invariant.PatchKeeps` | src/process.c:200-205 | Saving a context, marking a video mapping or an exception in the running PCB keeps the stack invariant. |
| `Steps.ExecuteKeepsInv` | src/syscalls/syscalls.c:114-280 | `execute` keeps the kernel invariant; it returns -1 exactly when there is no program, 0 exactly when there is one and every PID is used, both without any change, and enters a new process otherwise. |
| `Steps.HaltKeepsInv` | src/syscalls/syscalls.c:31-101 | `halt` keeps it; a child resumes the parent's saved context behind the `execute` that created exactly this child, with its status, on the parent's stack; the first process of a terminal always gets its new shell. |
| `Steps.FaultKeepsInv` | src/x86/idt.c:26-31 | An exception does the same with 256 as the value. |
| `Steps.TickKeepsInv` | src/process.c:113-137 | A tick keeps the invariant and resumes the newest process of the next non-empty terminal at its saved context, on its own stack, or changes nothing when there is none. |
| `Steps.VidmapKeepsInv` | src/syscalls/syscalls.c:513-544 | `vidmap` keeps the invariant for every pointer argument; its result is in `VideoPages.VidmapMaps`. |
| `Steps.SwitchKeepsInv` | src/drivers/terminal.c:151-263 | A terminal switch keeps it in all its cases: same terminal; refused, exactly when the terminal has no process and every PID is used; existing processes; new shell, which it then always gets. |
| `Steps.SwitchDecides` | src/drivers/terminal.c:163-183 | A key for a terminal brings it on display exactly when it is there already, has a process, or a PID is left; otherwise the kernel does not change. |
| `Steps.Run` | src/syscalls/syscalls.c:31-313 | The invariant holds after every run of executes, halts, exceptions, ticks, switches and vidmaps. |
| `Conservation.PidsConserved` | src/process.c:42-78 | In every reachable state a PID is marked used exactly when its PCB is on some terminal's stack, and the processes on all stacks are as many as the used PIDs, at most the table size. |
| `Conservation.HaltFreesItsPid` | src/syscalls/syscalls.c:54-56 | In every reachable state `free_pid` succeeds for the running process, so `halt` never prints its complaint. |
| `Conservation.PushInBounds` | src/syscalls/syscalls.c:273-275 | Whenever a PID can be allocated, `child_procs[num_procs]` is inside its array, on every terminal. |
| `WellNested.RunEvolves` | src/process.c:199-205 | Over any run, a process that is still alive sits where it sat, over the same parent with the same saved context, and keeps its claim to the page at 132 MB. |
| `WellNested.RunUnmarked` | src/syscalls/syscalls.c:42-45 | Over any run, no process carries an exception mark between steps: the mark goes with the process it was set on. |
| `WellNested.ChildResumesItsExecute` | src/syscalls/syscalls.c:74-97 | Whatever run lies between, a child's `halt` continues behind the very `execute` call that created it, at its stack pointer, with the child's status. |
| `WellNested.FaultResumesItsExecute` | src/syscalls/syscalls.c:42-45 | And with 256 after an exception. |
| `VideoPages.VidmapMaps` | src/syscalls/syscalls.c:513-544 | For a pointer outside the 128 MB window `vidmap` returns -1 and changes nothing; for one inside it returns 0, and user code translates every address of the page at 132 MB to the video page. |
| `VideoPages.StepOnPage` | src/drivers/terminal.c:185-255 | What user code finds at 132 MB after every event: `vidmap` shows the video page, the end of a process that has the page takes it away, a switch leads it to the screen of the terminal shown if its newest process has the page, else to the hidden screen if that one's has, and nothing else touches it. |
| `VideoPages.EndTakesPageAway` | src/syscalls/syscalls.c:54-61 | When a process that called `vidmap` halts or faults, after any run, the page at 132 MB is gone. |
| `VideoPages.NewProcessHasNoPage` | src/syscalls/syscalls.c:181-183 | A new process has no claim to the page, and starting it does not touch the page. |
| `Boot.CommandReturnsItsStatus` | src/syscalls/syscalls.c:74-97 | In every run from boot, with any run in between, a child's `halt` returns to the `execute` call that created it with the status it was called with. |
| `Scheduling.StepSchedules` | src/process.c:180-205 | A step that launches nothing leaves every terminal that is not executing frozen: its stack and all its PCBs. |
| `Scheduling.LaunchSchedules` | src/drivers/terminal.c:229-243 | A launch fills exactly one empty terminal, which then executes, and saves the context of the process that was running. |
| `Fairness.StartedStaysStarted` | src/syscalls/syscalls.c:66-73 | A terminal that has a process never becomes empty again, over any run. |
| `Fairness.WaitingIsFrozen` | src/process.c:180-205 | While a terminal waits, nothing of it changes, over any run. |
| `Fairness.WaitEndsWhereItBegan` | src/process.c:186-213 | The tick that ends a wait resumes the terminal's newest process at the context it had when the wait began. |
| `Fairness.TickSuspends` | src/process.c:199-205 | A tick to another terminal saves the running process's stack pointer. |
| `Fairness.LaunchSuspends` | src/drivers/terminal.c:231-240 | So does a launch on another terminal. |
| `Fairness.SuspendedContinues` | src/process.c:199-213 | Preemption is transparent: a process suspended at a stack pointer continues exactly there, whatever run comes between. |
| `Fairness.NearestIsNext` | src/process.c:119-134 | The scan finds a non-empty terminal that is no farther away in cyclic order than any other. |
| `Fairness.TickApproaches` | src/process.c:119-134 | Every tick brings a waiting terminal strictly nearer or runs it. |
| `Fairness.WaitIsPaidFor` | src/process.c:113-137 | Over any run, the ticks a waiting terminal sees are at most the distance it has come nearer plus N - 2 for every launch. |
| `Fairness.WaitIsBounded` | src/process.c:113-137 | Of N terminals, one still waiting has seen at most N - 2 ticks without launches, so it runs by tick N - 1; at most (N - 2) * (1 + empty terminals) in any run; and never more than (N - 2) * (N - 1). |
| `Screens.BackspaceUndoesPutc` | src/lib.c:357-378 | Rubbing out a character just echoed blanks its cell, puts the cursor on it, and changes nothing else but a one-row scroll when it filled the last cell. |
| `Transcripts.PutcShows` | src/lib.c:212-240 | One byte keeps the screen the window on the last 25 rows of an unbounded transcript. |
| `Transcripts.PrintingRefinesTranscript` | src/lib.c:295-320 | So does any text; the cursor is the transcript position less the rows scrolled away. |
| `Transcripts.PrintingKeepsSpareBytes` | src/lib.c:295-320 | Printing never touches the bytes of the page behind the 25 rows. |
| `Transcripts.TranscriptIsWrappedText` | src/lib.c:212-240 | The transcript of a text is its greedy wrapping at 80 columns with CR and LF as line ends. |
| `Transcripts.PrintedTextOnScreen` | src/lib.c:47-53 | After a clear, row y of the screen is row y of the last 25 rows of the wrapped text, blank below its end. |
| `Terminals.ScreenFrames` | src/drivers/terminal.c:53-69 | The addresses the printing code uses always translate to the frame of the right terminal's screen. |
| `Terminals.SwitchPagesMove` | src/drivers/terminal.c:187-225 | Under the page tables in force at each copy, a switch moves the video page to the hidden terminal's own frame and the new terminal's frame to the video page. |
| `TerminalRuns.OutputReaches` | src/lib.c:211-280 | Every output, through the backup address or straight to the video page, reaches the frame that holds the screen of the terminal it is for. |
| `TerminalRuns.SwitchMovesPages` | src/drivers/terminal.c:187-225 | After a switch every terminal finds its old screen in its new frame. |
| `Terminals.KernelAfter` | src/drivers/terminal.c:211-213 | The displayed terminal changes exactly by switches that are not refused. |
| `TerminalRuns.OutputStays` | src/lib.c:250-280 | Output changes the screen of the terminal it is for and no other, in the foreground and in the background alike. |
| `TerminalRuns.StepRefinesScreen` | src/drivers/terminal.c:151-263 | Every event changes a terminal's screen exactly by the event's output for it. |
| `TerminalRuns.StepOnScreen` | src/drivers/terminal.c:334-352 | Every event on every screen: a written byte is printed on the executing terminal, an echoed one on the displayed, an `execute` without a PID left and a refused switch print exactly their messages, the end of a root process clears the displayed screen, and every other screen stays as it is. |
| `TerminalRuns.ScreensAreIndependent` | src/drivers/terminal.c:151-263 | After any interleaving of output, echo, switches, launches and halts, each screen is the old one with its own outputs replayed. |
| `TerminalRuns.TerminalShowsItsTranscript` | src/drivers/terminal.c:334-352 | As long as a terminal is only written to, its screen shows the last 25 rows of its own transcript, continued by exactly the bytes its processes write while it executes, the echo while it is on display, and the two messages, whichever terminal is displayed meanwhile. |
| `Boot.BootEstablishesInv` | src/kernel.c:177-200 | Booting and launching the first shell establishes the invariant, for any table sizes the memory map has room for. |
| `Boot.AddressSpacesAreIsolated` | src/syscalls/syscalls.c:199-238 | In every reachable state no user address leads to the kernel page or to another process's frame. |
| `TerminalRuns.RestartClearsDisplayedScreen` | src/syscalls/syscalls.c:66-72 | When the first process of a terminal halts or faults, the displayed screen is cleared and every other stays as it is. |
| `TerminalRuns.RestartedTerminalIsClear` | src/syscalls/syscalls.c:66-72 | So the new shell starts on a clear screen if and only if its terminal is on display, or the screen was clear already. |
| `Boot.BackgroundExitClearsForeground` | src/syscalls/syscalls.c:66-72 | A concrete run from boot (Alt-F2, one tick, exit of the first shell) that clears another terminal's screen, whatever is on it, and not the halting one's. |
| `Boot.FirstCommandReturns` | src/kernel.c:199-200 | With the kernel's own table sizes, the first command of the first shell starts, and its exit makes the shell's `execute` return its status. |
| `Boot.TableFills` | src/process.c:42-55 | From every reachable state a run of `execute` calls, as many as there are free PIDs, fills the PID table. |
| `Boot.ZeroMeansTwoThings` | src/syscalls/syscalls.c:185-191 | The shell gets 0 from `execute` both with a full table, in a run from boot, and from a program that exits with 0. |
| `Filesystem.InodePtrRoundTrip` | src/filesystem.c:66-85 | The pointer kept in a descriptor leads back to the inode if and only if its block is within 2 GB of the image start. |
| `Filesystem.AcceptedNumbers` | src/filesystem.c:374-443 | A block number is accepted exactly when it is at most the number of data blocks in the image, so one too many is. |
| `Filesystem.ReadData` | src/filesystem.c:330-443 | The result is min(length, file length - offset), or 0 at or past the end, and the buffer then holds exactly that slice of the flat file; every block number used was loaded; a missing block gives -1 after a correct prefix. Blocks may lie in the image or in constant memory around it. |
| `ImageWriter.ImageRoundTrip` | src/filesystem.c:236-443 | For any directory and any files, with any placement of their blocks, the image they are laid out in parses to exactly that directory and, for every inode, exactly that file. |
| `ImageWriter.ReadsDeliverWritten` | src/filesystem.c:330-443 | `read_data` on such an image delivers, at any offset and for any size, exactly the slice of the file that was laid out. |
| `ImageWriter.AnyFilesCanBeWritten` | include/filesystem.h:28-43 | Every set of files of at most 63 blocks that fits into memory has such an image. |
| `Volumes.WrittenFileIsReadBack` | src/syscalls/syscalls.c:386-440 | Opened by name, a file that was laid out is delivered byte for byte by reads of any sizes, whatever else the session does. |
| `Volumes.CommandFindsWrittenProgram` | src/syscalls/syscalls.c:138-177 | The program a command line starts is that of the first entry named by its first word, exactly when the pointer is in one of the two windows and the file laid out starts with the magic number. |
| `Volumes.NoEntryNoProgram` | src/syscalls/syscalls.c:170-173 | Without an entry named by the first word there is no program. |
| `Files.Strncmp` | src/lib.c:665-683 | Zero exactly for equal C strings within the bound; otherwise the difference of the first differing bytes, read as signed. |
| `Files.ReadDentryByName` | src/filesystem.c:236-275 | Returns the first entry with the name, or none exactly when there is none. |
| `Files.ReadDentryByIndex` | src/filesystem.c:289-313 | Returns the entry exactly for valid indices. |
| `Files.LookupFindsEntry` | src/filesystem.c:236-275 | Looking up the name of entry i finds entry i if and only if no earlier entry has that name. |
| `OpenFiles.FdTable.constructor` | src/syscalls/syscalls.c:251-268 | A new process has exactly stdin and stdout open. |
| `OpenFiles.FdTable.Open` | src/syscalls/syscalls.c:386-440 | Takes the first free descriptor for a file, directory or clock entry, and fails without change otherwise. |
| `OpenFiles.FdTable.Close` | src/syscalls/syscalls.c:452-472 | Closes exactly an open descriptor from 2 on; every open descriptor has operations to call. |
| `OpenFiles.FdTable.FsRead` | src/filesystem.c:168-208 | Delivers the next bytes, all the rest for a negative size, or the next directory name, and moves that descriptor alone by exactly what was delivered. |
| `FileSessions.DescriptorsAreIndependent` | src/filesystem.c:195-205 | What is opened, closed or read through other descriptors does not show in what a descriptor delivers. |
| `FileSessions.ChunkedReadsRebuildFile` | src/filesystem.c:195-205 | Whatever the chunk sizes and the rest of the session, reads through a descriptor concatenate to the bytes it moves over; without missing blocks these are the next bytes asked for, up to the end. |
| `FileSessions.DirectoryReadsListEntries` | src/filesystem.c:173-194 | Successive directory reads list every entry once, in order, then nothing for ever. |
| `FileSessions.ListedNameIsPrefix` | src/filesystem.c:173-194 | A directory read of up to 32 bytes delivers exactly that many bytes of the name, padding included; a larger one the name without its padding. |
| `FileSessions.ListedNameOpens` | src/filesystem.c:173-194 | A name as a directory read of 32 bytes or more delivers it opens that entry, or an earlier one of the same name. |
| `FileSessions.OpenByType` | src/syscalls/syscalls.c:386-440 | `open` fails exactly when there is no entry, its type is unknown or no descriptor is free; otherwise the first free descriptor gets the entry's type and operations. |
| `FileSessions.CloseUndoesOpen` | src/syscalls/syscalls.c:452-472 | Closing what was opened frees exactly that descriptor, opening again gives it back, and closing twice fails. |
| `FileSessions.OpenedDescriptorFindsFile` | src/syscalls/syscalls.c:386-440 | A fresh descriptor was free, stands at the start of the file looked up, and nothing else changed; failure means no free descriptor. |
| `FileSessions.DiskPointersLeadBack` | src/filesystem.c:66-85 | In an image the pointer condition is exactly the 2 GB bound. |
| `FileSessions.ForeignInodeOpensFirstFile` | src/syscalls/syscalls.c:428-434 | A directory entry with inode number 0x100000, which no image has, opens the file of inode 0. |
| `FileSessions.ForeignInodeImage` | src/syscalls/syscalls.c:428-434 | A concrete image, with the single entry "a", on which that happens, on descriptor 2. |
| `Programs.LoadProgram` | src/syscalls/syscalls.c:240-249 | The 1 KB loader loop ends with the whole file at 128 MB + 0x48000, inside the process page, and nothing else written. |
| `Programs.ReadsAreLoaderReads` | src/syscalls/syscalls.c:245 | What `read_data` returns to the loader is the loader model's read. |
| `Programs.LoaderStopsIffComplete` | src/syscalls/syscalls.c:240-249 | For every executable file, the loader loop ends if and only if no block of the file is missing. |
| `Programs.SomeProgramNeverLoads` | src/syscalls/syscalls.c:240-249 | There is an image with an executable file on which the loop does not end. |
| `Programs.NamedByWord` | src/syscalls/syscalls.c:146-149 | The entry a command names is one whose C string name is exactly the first word of the line, cut to 32 bytes. |
| `Programs.GetElfHeader` | src/filesystem.c:96-103 | The first word of the file, or -1 when it is shorter, unreadable or does not exist. |
| `Programs.HasElfHeader` | src/syscalls/syscalls.c:175-177 | True exactly for readable files that start with 7F 'E' 'L' 'F'. |
| `Programs.FindProgram` | src/syscalls/syscalls.c:138-177 | Parsing, lookup and header check together find the first entry named by the first word, exactly when the pointer is in a window and the file is an executable. |
| `Printing.DigitsRoundTrip` | src/lib.c:389-422 | Parsing the digits of any number in any radix from 2 to 36 gives it back; no leading zero. |
| `Printing.LowFirstReversed` | src/lib.c:405-421 | The digits found lowest first, reversed, are the digits. |
| `Printing.Strlen` | src/lib.c:456-464 | The length of a C string. |
| `Printing.Strrev` | src/lib.c:431-447 | Reverses a string in place and touches nothing else. |
| `Printing.Itoa` | src/lib.c:389-422 | Writes exactly the digits and a terminator. |
| `Printing.Puts` | src/lib.c:192-202 | Prints the string up to its terminator. |
| `Printing.PrintHex8` | src/lib.c:116-125 | `%#x` prints exactly eight hexadecimal digits of the same value. |
| `Printing.PrintSigned` | src/lib.c:141-153 | `%d` is right for every signed word, the lowest included. |
| `Printing.SignedRoundTrip` | src/lib.c:141-153 | Parsing the signed text gives the value back. |
| `Command.ArgumentsAreTrimmedTail` | src/syscalls/syscalls.c:146-168 | The line is name, spaces, arguments, spaces, and the arguments neither start nor end in a space; beyond 128 bytes the tail is cut. |
| `Command.ArgumentsFit` | src/syscalls/syscalls.c:155-168 | Fewer than 128 argument bytes are kept unless the tail has 128 bytes or more and its 128th is not a space. |
| `Command.ParseCommand` | src/syscalls/syscalls.c:131-168 | The parsing loops, with the walk back over the command string, store exactly the name and the arguments. |
| `Command.StripSpaces` | src/syscalls/syscalls.c:162-168 | The backward loop ends inside the arguments. |
| `Command.AcceptedSizes` | src/syscalls/syscalls.c:494-496 | `getargs` accepts a size if and only if it is large enough or negative. |
| `Command.NegativeSizeAccepted` | src/syscalls/syscalls.c:494-496 | A concrete size of -1 that is accepted although nothing fits. |
| `Command.PcbArgs.constructor` | src/syscalls/syscalls.c:193-197 | A new PCB keeps exactly the parsed arguments. |
| `Command.PcbArgs.GetArgs` | src/syscalls/syscalls.c:485-500 | Returns exactly the kept arguments and their terminator, in place and nothing else, or fails without change. |
| `Keyboard.RightFlagsNeverChange` | src/drivers/keyboard.c:328-359 | The extended Ctrl and Alt codes are swallowed by the plain ones, so the right-hand flags never change. |
| `Keyboard.LineFits` | src/drivers/keyboard.c:194-204 | A line never exceeds 127 bytes. |
| `Keyboard.OtherLinesUntouched` | src/drivers/keyboard.c:119-210 | A key changes no line but that of the displayed terminal. |
| `Keyboard.EventEdits` | src/drivers/keyboard.c:119-210 | One interrupt acts on a waiting line as one key of the line editor. |
| `Keyboard.LineRefinesEditor` | src/drivers/keyboard.c:119-210 | Whatever is typed on whichever terminals, a waiting line is the fold of its own keys up to the acknowledgement; which keys these are is in `Typing.KeyIsPressed`. |
| `Keyboard.IdleLinesStayEmpty` | src/drivers/keyboard.c:119-210 | What is typed while nobody reads is not stored. |
| `Keyboard.ReadReturnsEditedLine` | src/drivers/keyboard.c:226-252 | A whole read returns the edited line cut to the size asked for, all of it for a negative size, and leaves the line idle. |
| `Typing.TableHasCaps` | src/drivers/keyboard.c:480-526 | A letter key gives its capital exactly when one of Caps Lock and Shift holds and not both; any other key its upper symbol exactly with Shift; keys without a cap give nothing. |
| `Typing.FlagsAreHistory` | src/drivers/keyboard.c:314-391 | After any run of scan codes each flag tells whether its key was pressed and not released since, and Caps Lock the parity of its presses. |
| `Typing.KeyIsPressed` | src/drivers/keyboard.c:119-210 | What a scan code is to the line editor follows from the scan codes before it and the caps alone. |
| `Typing.ReadReturnsWhatIsTyped` | src/drivers/keyboard.c:226-252 | A whole read returns the text of the keys pressed on its terminal, as their caps and the keys held say, edited and cut to the size. |
| `Typing.LineTyped` | src/drivers/keyboard.c:178-187 | Characters typed and ended with Enter are the line, with its new line. |
| `Typing.BackspaceCancels` | src/drivers/keyboard.c:155-175 | A character and a backspace cancel. |
| `Typing.TabIsFourSpaces` | src/drivers/keyboard.c:499-513 | A tab is four typed spaces where they fit, and nothing otherwise. |
| `Typing.FullLineCloses` | src/drivers/keyboard.c:194-204 | The 126th byte closes the line with a new line. |
| `Typing.ControlReplaces` | src/drivers/keyboard.c:433-468 | A control code is the whole line, whatever was typed before. |
| `Typing.FunctionKeysSwitch` | src/drivers/keyboard.c:405-425 | A key asks for terminal n exactly when Alt is held and it is function key n + 1, of three. |
| `Typing.IdleKeysAreShown` | src/drivers/keyboard.c:480-526 | A character key pressed while nobody reads is shown and not stored. |
| `KeyboardDriver.Driver.CheckModifiers` | src/drivers/keyboard.c:314-391 | Updates the flags in place as specified, without the branches that are never reached. |
| `KeyboardDriver.Driver.CheckControl` | src/drivers/keyboard.c:433-468 | Takes every key while Ctrl is held; three of them replace the line. |
| `KeyboardDriver.Driver.Print` | src/drivers/keyboard.c:480-526 | Stores and echoes the character, tab or nothing. |
| `KeyboardDriver.Driver.Interrupt` | src/drivers/keyboard.c:118-210 | The handler in place is the step of the line model, echo included. |
| `KeyboardDriver.Driver.StartReading` | src/drivers/keyboard.c:229-232 | Opens the line of the executing terminal and withdraws its acknowledgement. |
| `KeyboardDriver.Driver.FinishReading` | src/drivers/keyboard.c:236-251 | Copies out the line cut to the size and clears it. |
| `Echo.PressShows` | src/drivers/keyboard.c:153-204 | What a key echoes leaves the edited line in the cells from its start, with the cursor behind it: characters, tabs, rub-outs over row ends, Enter, and the closing of a full line; scrolling moves it up by whole rows. |
| `Echo.EchoesShow` | src/lib.c:211-280 | The effects of an interrupt, run as machine events, change the displayed screen as the effects say, and no other. |
| `Echo.StepShows` | src/drivers/keyboard.c:119-210 | One event, a key on whichever terminal is on display or a step of a process: the screen of a reading terminal goes on showing its line, and the line is edited by its own key. |
| `Echo.ScreenShowsLine` | src/drivers/keyboard.c:119-210 | Over any run, with switches between terminals, launches and output on other screens, the screen of a reading terminal shows the fold of its keys. |
| `Echo.ReaderGetsWhatScreenShows` | src/drivers/keyboard.c:226-252 | A whole read delivers, cut to its size, the very text its screen shows from where the cursor stood when it began. |
| `Echo.ControlIsNotEchoed` | src/drivers/keyboard.c:433-468 | A control code becomes the whole line and leaves the screen as it was. |
| `ScreenMemory.ScrollPage` | src/lib.c:294-320 | The in-place row moves and the blanking loop are one scroll of the page and touch nothing outside it. |
| `ScreenMemory.CopyFrame` | src/drivers/terminal.c:193-194 | Copying one screen page to another leaves all other pages alone. |
| `ScreenMemory.Terminal.Put` | src/lib.c:249-280 | Printing a byte in place changes only the page and the cursor, as on the model screen. |
| `ScreenMemory.Terminal.Write` | src/drivers/terminal.c:336-350 | The writing loop prints the whole text. |
| `ScreenMemory.Terminal.Backspace` | src/lib.c:356-378 | Backspace in place. |
| `ScreenMemory.Terminal.ClearScreen` | src/lib.c:28-53 | Clear and cursor reset in place. |
| `KernelMemory.KernelData.constructor` | src/kernel.c:177-185 | Page tables, stacks and PID table in place start in the boot state, for any number of terminals. |
| `KernelMemory.Start` | src/kernel.c:177-200 | Booting in place and launching the first shell gives the booted state of the model, with every terminal's cursor at the top left and its own colour. |
| `KernelMemory.StartedInv` | src/kernel.c:177-200 | That state satisfies the invariant. |
| `KernelMemory.KernelData.Push` | src/syscalls/syscalls.c:273-275 | Storing into `child_procs` appends to that terminal's stack and leaves the others. |
| `KernelMemory.KernelData.ExecuteOrReport` | src/syscalls/syscalls.c:185-280 | `execute` in place is the step of the model, and prints its message with the executing terminal's cursor on its screen exactly when it returns 0, and nothing else. |
| `KernelMemory.KernelData.Halt` | src/syscalls/syscalls.c:40-97 | `halt` in place: the step of the model, and the screens change by the clear of the displayed terminal exactly when the process has no parent; its `execute` of the shell always enters the new process. |
| `KernelMemory.KernelData.ContextSwitch` | src/process.c:180-214 | `context_switch` in place. |
| `KernelMemory.KernelData.Tick` | src/process.c:113-137 | The wrapping scan loop ends and finds the terminal the specification names. |
| `KernelMemory.KernelData.Vidmap` | src/syscalls/syscalls.c:513-544 | `vidmap` in place is the step of the model, whose result and page are in `VideoPages.VidmapMaps`. |
| `KernelMemory.KernelData.CopyScreen` | src/drivers/terminal.c:193-194 | A page copied through the page tables arrives in the frame its address translates to. |
| `KernelMemory.KernelData.Switch` | src/drivers/terminal.c:151-263 | The switch in place, with PID check, refusal message on the displayed terminal, remappings, copies and launch in the order of the code, gives the kernel state and the screens of the model. |
| `KernelMemory.KernelData.WriteByte` | src/drivers/terminal.c:336-350 | From every reachable state a byte a process writes is the machine's step, which by `TerminalRuns.StepOnScreen` prints that byte on the executing terminal and nothing else. |
| `KernelMemory.KernelData.EchoByte` | src/lib.c:211-280 | The same for a byte the keyboard echoes, on the displayed terminal. |
| `KernelMemory.KernelData.RubOut` | src/lib.c:357-378 | The same for a backspace. |
| `KernelMemory.KernelData.ExecuteCall` | src/syscalls/syscalls.c:114-280 | From every reachable state the in-place `execute` meets its own requirements and takes the machine's step: kernel state, page tables, all screens, cursors, and where the processor goes on. |
| `KernelMemory.KernelData.HaltCall` | src/syscalls/syscalls.c:31-101 | The same for `halt`. |
| `KernelMemory.KernelData.Exception` | src/x86/idt.c:26-31 | The same for an exception. |
| `KernelMemory.KernelData.Timer` | src/process.c:113-137 | The same for a tick. |
| `KernelMemory.KernelData.SwitchKey` | src/drivers/terminal.c:151-263 | The same for a switch, with its copies and its message. |
| `KernelMemory.KernelData.VidmapCall` | src/syscalls/syscalls.c:513-544 | The same for `vidmap`. |
| `KernelMemory.SwitchReady` | src/drivers/terminal.c:185-225 | In every reachable state the addresses a switch copies between are mapped to the intended frames, byte by byte, when it copies. |
| `KernelMemory.KernelData.Emit` | src/lib.c:211-280 | Output in place, through an address translated by the page tables, changes exactly the page of that frame and the cursor of the terminal it is for, as on the model screen. |
| `KernelMemory.SwitchedDisplay` | src/drivers/terminal.c:151-263 | The screens the in-place switch leaves are those of the machine's step: its message when refused, else its page moves. |

## Left out

- Port I/O, interrupt controller, timer and clock programming, cursor registers, IDT, GDT and TSS set-up, and `map_actual_vidmem`, which nothing calls.
- Inline assembly: `iret`, the stack switch and the TLB flush are the outcome of a step, an assignment to contexts, and nothing. The separate `k_ebp` is part of the context.
- Interleavings finer than one interrupt handler or one printed byte, and the depth of the C stack.
- What a process draws on a page mapped by `vidmap`.
- The screen clear of `terminal_read` on Ctrl-L, which acts on the displayed terminal.
- The colour bytes `terminal_init` writes to the backup pages, and the boot messages.
- Dispatch of `read` and `write` to the terminal and the clock, and the stubs `set_handler`, `sigreturn`, `fs_write`, `keyboard_write`, `terminal_open`, `terminal_close`.
- The entry point `execute` reads from the program file. The checks on its command are one flag of the kernel event, `found`, which stands for `Programs.Program`.
- Closing the remaining descriptors in `halt`: the PCB is not used again.
- OpenFiles.FdTable.FsRead: not for directory reads with a negative size, which would copy some 4 GB.
- Command.ParseCommand: not for lines that keep 128 argument bytes, where the code writes past its array.
- Command.PcbArgs.constructor: the same.
- Programs.FindProgram: the same.
- Command.PcbArgs.GetArgs: not for a buffer so near the end of the window that the copy leaves it.
- Programs.LoadProgram: for programs without a missing block, the ones on which the loop ends (`Programs.LoaderStopsIffComplete`).
- KernelMemory.KernelData.ExecuteOrReport: the loading of the program is a separate operation here (`Programs.LoadProgram`), not part of this method.
- KernelMemory.KernelData.Switch: the acknowledgement that goes with a refusal is in the keyboard model (`Keyboard.LineRefinesEditor`, `Echo.SystemStep`).
- Echo.ScreenShowsLine: while nothing but the keyboard prints on the reader's screen, up to a control code or a refused switch, which end the line without being part of what the screen shows.
- Keyboard: the order of echo and storing inside one interrupt; the in-place driver returns its echo instead of calling `putc`.
