# A verified model of a three-terminal teaching kernel

The repository is a small x86 kernel with three virtual terminals, six processes, a read-only file
system and a handful of user programs. This project models its hardest parts in Dafny and proves
what they are for. `dafny verify dfyconfig.toml` checks the whole project.

| file | what it models |
|---|---|
| `Bytes.dfy` | bytes and NUL-terminated strings |
| `TextScreen.dfy` | the 80x25 text window that scrolls in place, against an unbounded document |
| `Paging.dfy` | per-process page directories and tables, and the 32-bit page walk (section 4.3 of volume 3A of the Intel 64 and IA-32 manual) |
| `FileSystem.dfy` | block walk of `read_data` against a flat file, and file names |
| `Loader.dfy` | the checks and the program load of `execute` |
| `Kernel.dfy` | the step system: pids, PCBs, terminals, esp0, cr3, page tables, video pages, cursors |
| `Chains.dfy` | one stack of processes per launched terminal, kept by every step |
| `Refinement.dfy` | the step system refines three independent terminals |
| `Runs.dfy` | boot, whole runs, and exactly when the foreground guard is needed |
| `RootException.dfy` | an exception of a terminal's first shell |
| `Refusal.dfy` | where the message of a refused launch goes, and when that is right |
| `Isolation.dfy` | address spaces over whole runs, and what user code can share |
| `ProcessMemory.dfy` | physical memory over whole runs of kernel steps, user stores and copies, and what a started process reads |
| `Lifo.dfy` | execute and halt match last-in first-out across any interleaving |
| `Scheduling.dfy` | fairness of the round robin |
| `Machine.dfy` | the kernel's in-place code, each method proved to take the model's step |
| `Keyboard.dfy` | modifier keys and the 128-byte line buffer |
| `KeyboardLayout.dfy` | the scancode tables, and that they have what the driver relies on |
| `EchoedLine.dfy` | the echo of the keys shows the edited line |
| `Handler.dfy` | the whole keyboard handler, on line, screen and page directory at once |
| `Descriptors.dfy` | the eight file descriptors, inode pointers, sequences of open, read and close |
| `Itoa.dfy` | number formatting |
| `Grep.dfy` | the chunked line search of the grep program |
| `Blink.dfy` | the fish program's linked list over a static pool |

Where the source changes things in place the model does too: `TextScreen.Display`,
`Machine.Globals`, `Keyboard.Terminal`, `Keyboard.Driver`, `Descriptors.Process` and
`Blink.BlinkList` are classes, buffers and tables are arrays, and each method is tied to a function
on values, about which the theorems are proved.

## How the kernel model is set up

A `Kernel.State` holds the process side (used pids, PCBs, `terminals[t].pid`, launched set, visible
and serviced terminal, esp0, cr3), the video side (six page directories and base tables, the video
page and its three backing pages, stored cursors) and the file system image. An `Event` is a system
call or exception of the running process, a store of it into a VIDEO page it mapped, a timer
interrupt, the end of a keyboard interrupt that launched a terminal, or a key. Steps under `cli` are atomic. A saved stack is an opaque frame that
says which code saved it. A PCB carries the stack of flag words that its keyboard handler activations
saved. A step is defined when it follows no wild pointer, resumes no label with another code's frame,
and faults on no video access.

The three terminals that the kernel refines (`Refinement.Abstract`) have, each, a process stack, a count of
the keyboard handlers on the kernel stack of its top process, and a screen with its cursor. A timer
interrupt moves on to the next launched terminal exactly when that count is zero for the serviced one.
User stores need the user and the write bit at every level of the page walk; copies that system calls make
run in kernel mode with write protection off (student-distrib/paging_asm.S:42), so the write bit does not
bind them, and `ProcessMemory.CopyWhereStores` shows that they go where the process may store anyway.

`Refinement.Guard` says when an event may happen: system calls and exceptions come from user code,
exceptions are those of non-root processes (`halt_excep` has no restart of a root shell), and a
process is started or a root shell restarted only while the serviced terminal is the visible one. The
last condition is the foreground guard. The video map and the isolation theorems do without any
guard. Restarts and launches start a shell without asking whether the image has one; the image of every
machine that boots does. `Runs.FreshExists` gives a machine to boot, so runs exist, and `Runs.GuardNeeded` is one.

## What the code turned out to do

- `internal_execute` gives the child to the visible terminal. Chains of processes survive an execute
  or a root shell restart exactly when the serviced terminal is visible (`Runs.ExecuteGuardExact`,
  `Runs.RestartGuardExact`), and three events after boot lead to a state where they do not
  (`Runs.GuardNeeded`).
- The message of a refused launch goes to the visible page, from the serviced terminal's cursor
  (`Refusal.RefusalEffect`). It is where it belongs exactly when the serviced terminal is visible
  (`Refusal.RefusalGuardExact`), and a run from boot misplaces it (`Refusal.RefusalMisplacedFromBoot`).
- `halt_excep` of a root shell returns to an execute that already returned. Chains survive exactly when
  the shell's saved stack is its own and the child of the execute frame it last saved is gone
  (`RootException.RootExceptionExact`), and a run from boot leaves none (`RootException.RootExceptionBreaks`).
- A directory read measures the name in the user's buffer. It delivers the name whatever that held
  exactly when it asks for 32 bytes or more (`Descriptors.WholeNamesExact`, `Descriptors.DeliversNameExact`).
- Inode pointers are scaled twice by 4096. The round trip holds exactly below index 128; from there
  on a descriptor reads another file or fails (`Descriptors.PointerRoundTrip`, `Descriptors.OtherFile`).
- Grep prints exactly the matching lines if and only if every matching line has at most 1024 bytes
  (`Grep.GrepExact`), and finds nothing for a pattern whose first byte is 128 or more, since it compares
  a signed with an unsigned byte (`Grep.DoOneFile`).
- The blink list accepts location 0, which marks a free slot. The list stays intact exactly when an
  accepted location is not 0 (`Blink.PushListed`), and after two such adds no walk ends
  (`Blink.ZeroLocationLoops`).
- Execute checks the magic number in the first block only and ignores the result of the load. The child
  reads its whole file, whatever memory held, exactly when the file is empty or every block of the load is
  in range (`Loader.WholeFileExact`); otherwise it starts with the part before the first bad block, and old
  memory behind it (`Loader.PartialShell`).
- With Backspace held, another key first erases and then types (`Keyboard.KeyWhileBackspaceHeld`).
- `ISOLATE_BTM_12BITS` is 0x3FF: remapping keeps ten bits of an entry, which include all that are used.
- `read_data` checks the first block even of an empty file, and steps to a block only when it needs
  a byte of it (`FileSystem.ReadOk`).
- The comment on `read_terminal` promises to stop at `nbytes`; the code does not look at it. What a read
  returns fits, whatever was typed, exactly when the size is 127 or more (`Keyboard.ReadSizeExact`).

## Model

| member | source | states |
|---|---|---|
| TextScreen.PutCharShows | student-distrib/lib.c:155-199 | one character keeps the page equal to the last 25 rows of the document and changes no row that has scrolled off |
| TextScreen.StreamShowsDocument | student-distrib/lib.c:131-254 | every character stream keeps the cursor inside 80x25 and the page equal to the last 25 rows of the unbounded document |
| TextScreen.BackspaceUndoesCharacter | student-distrib/lib.c:155-199 | a printable character and a backspace return to the same document position and leave it blank |
| TextScreen.LinesFillRows | student-distrib/lib.c:155-199 | printable lines of less than 80 characters, each ended by a newline, stand in the document as rows one below the other, and nothing above them changes |
| TextScreen.Display.ShiftScreenUp | student-distrib/lib.c:131-146 | the in-place copy yields the page moved up one row with a blank last row |
| TextScreen.Display.PutC | student-distrib/lib.c:210-254 | the in-place update is the character step on page and cursor |
| TextScreen.Display.PutText | student-distrib/lib.c:263-272 | prints the text up to its first NUL and returns how many characters that is |
| Paging.BitForms | student-distrib/paging.c:193-205 | the two and-masks on 32-bit words are the arithmetic of the model |
| Paging.GrantBits | student-distrib/paging.c:216-235 | or-ing the user-access bits into an entry keeps its low bit and everything above bit 2 |
| Paging.OrAdds | student-distrib/paging.c:120-182 | or-ing flags below bit 10 into an aligned address adds them |
| Paging.SetupBaseTable | student-distrib/paging.c:165-182 | the loop fills the base table: video pages present and identity mapped, all else absent |
| Paging.SetupTaskPaging | student-distrib/paging.c:120-154 | the loops fill directory and base table for a program block, whatever they held before; of the directory, exactly entries 0 to 7 and 32 are present, all of these may be written, and only entry 32 is for user code |
| Paging.ChangeTableMapping | student-distrib/paging.c:193-205 | only the addressed entry changes, for any address; its page is the target's and its low ten bits are kept |
| Paging.SlotHistory | student-distrib/paging.c:120-235 | after any sequence of set-up, vidmap and remapping, pid reuse included, a slot's two structures are exactly those of the calls since the last set-up |
| Paging.UserAccessExact | student-distrib/syscalls.c:524-547 | user code reaches exactly its program page, and the VIDEO page if and only if vidmap was called since set-up; and it may store exactly where it may read |
| Paging.TranslationExact | student-distrib/paging.c:120-235 | where program page, VIDEO page, backing pages and kernel addresses go after any history, and that every other address faults |
| Paging.ProgramPagesDisjoint | student-distrib/scheduling.c:133-141 | program addresses of different pids never reach the same physical byte |
| Paging.RemapVideo | student-distrib/paging.c:193-205 | remapping sends VIDEO to its target and leaves the backing pages identity mapped |
| FileSystem.Seek | student-distrib/filesystem.c:86-101 | the first loop stands at the offset with every block up to there in range, or stops at a block out of range |
| FileSystem.Copy | student-distrib/filesystem.c:112-132 | the second loop copies a piece of the flat file: all that is available, or up to exactly the first block out of range |
| FileSystem.ReadData | student-distrib/filesystem.c:65-133 | fails exactly when the inode or a walked block is out of range; returns what is available; and, failing or not, has written exactly the available bytes before the first bad block and nothing else |
| FileSystem.OkCopiesAll | student-distrib/filesystem.c:112-132 | a read that succeeds copies all that is available |
| FileSystem.FailureStopsEarly | student-distrib/filesystem.c:112-132 | a read with bytes available that fails copies fewer |
| FileSystem.FlatIsJoined | student-distrib/filesystem.c:65-133 | the flat file is the file's data blocks one behind the other, cut to its length |
| FileSystem.ReadOkExact | student-distrib/filesystem.c:65-133 | a read succeeds if and only if the inode and the first block are in range, and with them, if it starts inside the file, the block of every byte before its end |
| FileSystem.SameNameExact | student-distrib/lib.c:900-918 | names count as equal if and only if the strings agree byte by byte to a common end or to the 32nd byte |
| FileSystem.CompareName | student-distrib/lib.c:900-918 | the 32-byte comparison holds exactly of equal names, the given one cut to 32 bytes |
| FileSystem.ReadDentryByName | student-distrib/filesystem.c:20-34 | finds the first entry of that name, or none |
| Loader.CheckCommand | student-distrib/syscalls.c:98-133 | succeeds exactly for the first word of the command naming a regular file with the four magic bytes, and yields that file |
| Loader.ReadHeader | student-distrib/syscalls.c:135-137 | the entry point is the file's bytes 24 to 27, and whatever the stack held where the file has none |
| Loader.LoadProgram | student-distrib/syscalls.c:139-152 | for every file: memory changes exactly by the file's bytes before its first bad block, at 0x48000 into the pid's block; and through the new directory user code reads, at every byte of its program page, the file where it was loaded and what the block held elsewhere |
| Loader.LoadStaysInBlock | student-distrib/scheduling.c:133-141 | loading changes no byte outside the pid's 4MB block |
| Loader.WholeFileExact | student-distrib/syscalls.c:147-149 | the child reads its whole file, whatever memory held, if and only if the file is empty or every block of the load is in range |
| Loader.PartialShell | student-distrib/syscalls.c:128-149 | an image whose shell always starts and of whose 8192 bytes only 4096 are loaded |
| Loader.TaskMapsBlocks | student-distrib/paging.c:120-154 | every task directory maps the six process blocks to themselves, whatever happened to it since it was set up |
| Loader.BlocksReached | student-distrib/syscalls.c:147-149 | through such a directory the kernel reaches every byte of every process block at its own address |
| Loader.CommandReadyExact | student-distrib/syscalls.c:98-133 | a command can be run whatever the stack holds if and only if it has less than 128 bytes and its first word names, first, a regular file whose first four bytes are 0x7f and ELF, in a block in range |
| Loader.ShellReadyExact | student-distrib/syscalls.c:117-133 | the shell can be started whatever the stack holds if and only if the first entry named shell is a regular file whose first four bytes are the magic number, in a block in range |
| Kernel.MaskFindsPcb | student-distrib/syscalls.c:238-239 | masking esp0 - 1 to 8KB recovers the PCB of the process whose stack top it is |
| Kernel.LeastFree | student-distrib/scheduling.c:57-72 | the least free pid, or failure exactly when all six are used |
| Kernel.PrintIsTwoPokes | student-distrib/lib.c:155-199 | printing a character stores it and the attribute in the two bytes of its cell |
| Chains.ExecutePushes | student-distrib/syscalls.c:152-184 | an execute in the foreground pushes the least free pid on the serviced terminal's chain and keeps all chains |
| Chains.ReturnPops | student-distrib/syscalls.c:201-271 | halting a non-root process pops its chain and makes the parent the running process |
| Chains.RestartReplaces | student-distrib/syscalls.c:241-251 | halting a root shell in the foreground replaces it by a new root shell |
| Chains.TickKeepsStacks | student-distrib/scheduling.c:262-280 | a timer tick keeps every chain, and the registers designate the new serviced terminal's top |
| Chains.TickExact | student-distrib/scheduling.c:262-280 | exactly what a tick does: with no keyboard handler on the running process's stack and another terminal launched, the next launched terminal is served, its top process resumed where it left and the interrupted one saved; otherwise nothing changes |
| Chains.LaunchAddsStack | student-distrib/devices/keyboard.c:349-365 | launching a terminal adds a chain of one root shell and parks the interrupted process |
| Chains.SwitchKeepsStacks | student-distrib/devices/keyboard.c:343-348 | switching to a launched terminal keeps every chain and restores cr3 |
| Chains.FinishIrqKeepsStacks | student-distrib/interrupt_handler.c:309-325 | the rest of an interrupted keyboard handler restores the flags and keeps every chain |
| Refinement.VideoMapKept | student-distrib/devices/keyboard.c:246-265 | every defined step, foreground or not, keeps each used pid's VIDEO mapped to its owner's page and the backing pages identity mapped |
| Refinement.SwitchKeepsScreens | student-distrib/devices/keyboard.c:231-266 | switching terminals, through the active tables, changes no terminal's screen and no cursor |
| Refinement.WriteChangesOwnScreen | student-distrib/devices/keyboard.c:194-222 | terminal output changes the serviced terminal's screen and cursor as put_t does, and no other, visible or not |
| Refinement.PokeChangesOwnScreen | student-distrib/syscalls.c:524-547 | what user code stores in VIDEO changes the page of its own terminal's screen and nothing else, visible or not |
| Refinement.TypeChangesVisible | student-distrib/devices/keyboard.c:420-495 | the echo of a key changes the visible terminal's screen and no other |
| Refinement.ClearBlanks | student-distrib/lib.c:52-60 | clearing leaves 2000 blanks on the page the active directory leads to, what is behind the screen and every other page as before, and both cursors at the corner |
| Refinement.HandlerPrints | student-distrib/devices/keyboard.c:361-364 | text printed from the keyboard handler for the serviced terminal lands on the visible page and moves the serviced cursor |
| Refinement.ExecuteRefines | student-distrib/syscalls.c:77-184 | execute pushes the free pid on the stack of the terminal that asked, or changes nothing |
| Refinement.LaunchRefines | student-distrib/devices/keyboard.c:349-365 | launching a terminal adds a one-process stack and changes no screen |
| Refinement.StepRefines | student-distrib/syscalls.c:63-319 | every guarded step is defined and is a step of three terminals, each with its own process stack, keyboard handlers, screen and cursor; a tick moves to the next terminal exactly when the running process has no handler on its stack; a refused launch is the one event whose output crosses terminals, and its effect is stated |
| Runs.BootRelated | student-distrib/syscalls.c:85-91 | starting the first shell establishes the invariant, although its PCB is the boot PCB's slot |
| Runs.RunRefines | student-distrib/syscalls.c:63-319 | every guarded run is a run of three terminals, each with its own process stack, screen and cursor; only the message of a refused launch crosses terminals |
| Runs.ReachableStatesAreChained | student-distrib/scheduling.c:175-219 | after boot and any guarded run the used pids are one parent chain per launched terminal, and esp0 and cr3 designate terminals[serviced].pid |
| Runs.ExecuteGuardExact | student-distrib/syscalls.c:156-164 | starting a process keeps chains if and only if the serviced terminal is the visible one |
| Runs.RestartGuardExact | student-distrib/syscalls.c:247-251 | restarting a root shell keeps chains if and only if the serviced terminal is the visible one |
| Runs.GuardNeeded | student-distrib/syscalls.c:162-164 | a run of three events from boot after which an execute leaves no chains |
| RootException.RootExceptionExact | student-distrib/syscalls.c:286-319 | an exception of a root shell follows no wild pointer and keeps chains if and only if the shell's saved stack is its own and it last saved an execute frame whose child is not in use |
| RootException.RootExceptionBreaks | student-distrib/syscalls.c:286-319 | a run from boot after which an exception of a root shell is defined and leaves no chains |
| Refusal.RefusalEffect | student-distrib/devices/keyboard.c:361-364 | the exact effect of a refused launch on all three screens and cursors |
| Refusal.RefusalGuardExact | student-distrib/devices/keyboard.c:361-364 | the handled key leaves the message on the serviced terminal's screen and nothing else, whatever the screens hold, if and only if that terminal is the visible one |
| Refusal.RefusalMisplacedFromBoot | student-distrib/devices/keyboard.c:361-364 | from every boot with video memory as the kernel clears it, a run after which the message shows on the visible terminal's page and the serviced terminal's page is unchanged |
| Refusal.MisplacedRunExists | student-distrib/lib.c:69-76 | there is such a boot: the first 8000 cells of video memory blank, the rest as it was |
| Runs.VideoMapFromBoot | student-distrib/paging.c:165-205 | after boot and any defined run, guarded or not, the video map holds for every used pid |
| Isolation.StepApplies | student-distrib/paging.c:120-235 | every defined step applies exactly its own set-ups, vidmaps and remappings to every pid's directory and table |
| Isolation.SpacesAreHistories | student-distrib/paging.c:120-235 | after boot and any defined run each pid's space is the boot space with the run's own operations applied; a used pid's was set up and its VIDEO leads to its owner's page |
| Isolation.WalkIsPageIndex | student-distrib/devices/keyboard.c:236-238 | walking any video address through a used pid's directory reaches the same place in the page the step system names |
| Isolation.PokeIsAccess | student-distrib/syscalls.c:524-547 | in every reachable state the step system lets user code store in VIDEO if and only if the page walk does, by user and write bits at every level |
| Isolation.UsedWritable | student-distrib/paging.c:120-235 | in every state reachable from boot user code of a used pid may store at an address if and only if it is in its program page, or in the VIDEO page and vidmap was called since the pid was set up |
| Isolation.VidmapGrants | student-distrib/syscalls.c:524-547 | after vidmap the running process may store in its program page, in all of the VIDEO page, and nowhere else |
| Isolation.UsedOwnPage | student-distrib/paging.c:120-154 | through a used pid's directory the program page is the pid's own block, which its user code may store to, and the address behind it faults |
| Isolation.UsedReachesBlocks | student-distrib/syscalls.c:147-149 | through any used pid's directory the kernel reaches every process block at its own address |
| Isolation.UserCodeIsolated | student-distrib/syscalls.c:524-547 | in every state reachable from boot, user code of two used pids shares no physical byte but of the VIDEO page of a terminal that owns both |
| ProcessMemory.OnlyOwnActs | student-distrib/syscalls.c:139-152 | in every run of kernel steps, user stores and copies into user buffers from boot, a pid's block changes only by a store of code under its own directory, by a copy of its own system call, or by its own start |
| ProcessMemory.BlockIsPrivate | student-distrib/scheduling.c:133-141 | between two of a pid's own acts its 4MB block does not change, whatever the others store, read, execute, halt, switch or launch |
| ProcessMemory.CopyExact | student-distrib/syscalls.c:335-355 | a copy to a buffer that starts in the program page puts exactly its bytes in the caller's own block, up to the end of the page, where it faults |
| ProcessMemory.CopyWhereStores | student-distrib/paging_asm.S:38-43 | each byte of such a copy goes where the process itself may store |
| ProcessMemory.StoreExact | student-distrib/paging.c:145-149 | a store of user code in its program page changes that byte of its own block and no other, and reads back |
| ProcessMemory.EveryStartLoads | student-distrib/syscalls.c:139-184 | in every state reachable from boot, whatever execute, root shell restart or launch starts a process: it is entered under its own directory and stack, reads from 0x08048000 on the file its command names, or the shell, as far as it was loaded, elsewhere in its program page what the block held, and may store in its program page alone |
| ProcessMemory.BootLoads | student-distrib/syscalls.c:139-184 | the same of the first shell at boot |
| Lifo.OnlyRunningTouched | student-distrib/syscalls.c:63-319 | no guarded step changes the PCB of a used process that is not running |
| Lifo.FrozenWhileNotRunning | student-distrib/scheduling.c:196-219 | over any run during which a process does not run its PCB does not change |
| Lifo.ResumedAsSaved | student-distrib/scheduling.c:196-219 | a process scheduled again resumes with exactly the instruction pointer and frame it had when it last lost the processor |
| Lifo.ResumedWhereItLeft | student-distrib/scheduling.c:175-219 | a process that loses the processor to a tick or a launch and is scheduled again any number of steps later resumes at the label and in the frame of exactly that tick or launch |
| Lifo.ParentWaits | student-distrib/syscalls.c:201-216 | until a child halts its parent stays below it with the same PCB |
| Lifo.ExecuteHaltMatch | student-distrib/syscalls.c:201-319 | halting a child any number of interleaved steps later restores esp0, cr3, terminal pid and frame of the execute that created it, frees only its pid, and makes that execute return the status, or 256 after an exception |
| Lifo.ExceptionTold | student-distrib/syscalls.c:201-319 | an execute returns 256 if and only if its child took an exception, and otherwise the byte the child passed to halt |
| Scheduling.TicksRotate | student-distrib/scheduling.c:262-280 | the launched set never shrinks, and while it stays the same scheduling ticks follow the cyclic order |
| Scheduling.RoundRobinFair | student-distrib/interrupt_handler.c:291-299 | with n at least 2 launched terminals and no launch, any n ticks that come while the running process has no keyboard handler on its stack serve each terminal exactly once |
| Machine.Globals.GetAvailablePid | student-distrib/scheduling.c:57-72 | the loop finds the least free pid |
| Machine.Globals.MarkPidUsed | student-distrib/scheduling.c:82-89 | adds a pid in range to the used set and changes nothing else; refuses any other |
| Machine.Globals.MarkPidFree | student-distrib/scheduling.c:99-106 | removes a pid in range from the used set and changes nothing else; refuses any other |
| Machine.Globals.ExecuteCommand | student-distrib/syscalls.c:63-184 | from the command string to the started child: takes the model's execute step; fails exactly without a free pid or a loadable file, and then, while some process exists, changes no pid, PCB, terminal, page table or byte of memory; on success memory is that of the load, bad blocks included, and the child's view of its whole program page and its entry point follow |
| Machine.Globals.ChooseChild | student-distrib/syscalls.c:93-133 | the checks change nothing and yield the least free pid and the named file, or failure |
| Machine.Globals.StartShell | student-distrib/syscalls.c:63-184 | the same step for the shell that a restart or a launch starts, its file loaded into the new pid's block |
| Machine.Globals.Halt | student-distrib/syscalls.c:230-271 | the in-place code takes the model's halt step, and a restarted shell is loaded |
| Machine.Globals.ReturnToParent | student-distrib/syscalls.c:286-319 | the in-place tail of both halts, and of the execute they return to, takes the model's step |
| Machine.Globals.SaveAndSwitch | student-distrib/scheduling.c:196-219 | saves the current context and takes over the next process's |
| Machine.Globals.TimerInterrupt | student-distrib/scheduling.c:262-280 | the gate and the search loop take the model's tick step, which Chains.TickExact describes |
| Machine.Globals.ChangeTerminalState | student-distrib/devices/keyboard.c:231-266 | the copies, the cursor exchange and the remap loop take the model's switch step |
| Machine.Globals.RemapTables | student-distrib/devices/keyboard.c:246-265 | the loop remaps exactly the used pids' tables, by owner |
| Machine.Globals.WriteCall | student-distrib/devices/keyboard.c:194-222 | fails exactly for another descriptor or a negative size, and otherwise takes the model's write step and returns the size |
| Machine.Globals.WriteTerminal | student-distrib/devices/keyboard.c:204-218 | the in-place output takes the model's write step |
| Machine.Globals.PrintText | student-distrib/lib.c:450-562 | one write per character, as printf_t does, is the write of the whole text |
| Machine.WritesCompose | student-distrib/devices/keyboard.c:194-222 | two writes are one write of both texts |
| Machine.Globals.VidmapCall | student-distrib/syscalls.c:524-547 | grants user access to VIDEO in the running process's directory and table, and nothing else |
| Machine.Globals.PutcKbd | student-distrib/lib.c:155-199 | the in-place echo takes the model's step on the page the active directory leads to |
| Machine.Globals.ClearScreen | student-distrib/lib.c:52-60 | takes the model's clear step, which Refinement.ClearBlanks describes: 2000 blanks on that page and both cursors at the corner |
| Machine.Globals.AltKeyPressed | student-distrib/devices/keyboard.c:337-387 | the whole Alt-Fn branch takes the model's step, its cr3 change undone; a launch loads the shell |
| Machine.Globals.Launch | student-distrib/devices/keyboard.c:349-365 | the launch takes the model's step and loads the shell into the new pid's block |
| Keyboard.ModifiersFollowKeys | student-distrib/devices/keyboard.c:290-327 | after any history, caps lock is the parity of its presses and every other modifier is on exactly while its key is held |
| Keyboard.LetterCase | student-distrib/devices/keyboard.c:455-495 | the branches store a letter in upper case exactly when caps lock and shift differ |
| Keyboard.IndexStaysInBuffer | student-distrib/devices/keyboard.c:420-452 | after any history the index is at most 127 and a read copies at most 127 bytes |
| Keyboard.BufferIsEditedLine | student-distrib/devices/keyboard.c:420-495 | from a flush on, the buffer is the line a user edits, capped at 126 characters |
| Keyboard.ReadReturnsEditedLine | student-distrib/devices/keyboard.c:134-180 | with no key between an awaited Enter and the read, the read completes and returns the edited line and a newline |
| Keyboard.TakeFlushes | student-distrib/devices/keyboard.c:160-179 | a read that completes leaves an empty line that no read awaits |
| Keyboard.UnawaitedEnterFlushes | student-distrib/devices/keyboard.c:426-447 | after any history, an Enter that no read awaits drops the line |
| Keyboard.EmptyLineEntered | student-distrib/devices/keyboard.c:426-447 | Enter on an empty line, or again before the read, makes the read return the newline alone |
| Keyboard.ReadSizeExact | student-distrib/devices/keyboard.c:134-180 | what a read returns is at most the size asked for, whatever was typed, if and only if that size is 127 or more |
| KeyboardLayout.LayoutOk | student-distrib/devices/scancodes.c:15-577 | the tables with every printable key have what the driver relies on, although the release of Tab is marked printable |
| KeyboardLayout.ReadSizeOnLayout | student-distrib/devices/keyboard.c:160-179 | on these tables the size condition is exact |
| Keyboard.KeyWhileBackspaceHeld | student-distrib/devices/keyboard.c:420-453 | a character key with Backspace held gives the line the user meant exactly when there was nothing to erase or the full line already ended in that character |
| Keyboard.Terminal.Enter | student-distrib/devices/keyboard.c:426-447 | hands the line and a newline to a waiting read, or flushes it |
| Keyboard.KeyChar | student-distrib/devices/keyboard.c:455-495 | the branches on caps lock and shift yield the key's character: a letter in upper case exactly when caps lock and shift differ, another printable key shifted where the table has an entry, and nothing for other keys |
| Keyboard.Terminal.Read | student-distrib/devices/keyboard.c:160-179 | copies the buffer up to its first NUL, which lies inside it, and flushes |
| Keyboard.UpdateState | student-distrib/devices/keyboard.c:290-327 | the bit operations on keyboard_state change one modifier as pressed or released |
| Keyboard.Driver.BeginRead | student-distrib/devices/keyboard.c:134-157 | fails exactly for another descriptor or a negative size, and otherwise marks the read waiting |
| Keyboard.Driver.FinishRead | student-distrib/devices/keyboard.c:157-179 | returns that terminal's line and flushes it alone |
| EchoedLine.EchoShowsLine | student-distrib/devices/keyboard.c:420-495 | from a flush on, what the keys echoed leaves exactly the edited line in the document, nothing before it changed |
| Handler.EchoOnScreen | student-distrib/devices/keyboard.c:420-495 | in every state with chains, those keys leave the edited line on the visible terminal's screen: its window shows a document in which the line stands where the cursor was |
| Handler.TypedLineOnScreen | student-distrib/devices/keyboard.c:278-499 | over whole runs of the handler: from a flush on, with no shortcut, no Enter and no other key while Backspace is held, the visible screen shows exactly the line the user edited where the cursor was, and no process or register has changed |
| Handler.EnterOnScreen | student-distrib/devices/keyboard.c:426-447 | Enter with room in the buffer starts a new row on the visible screen and changes nothing else |
| Handler.FunctionKeyShows | student-distrib/devices/keyboard.c:340-387 | Alt with the k-th function key brings terminal k to the front, launched and serviced if it was not launched, unless that needs a pid and none is free |
| Handler.ControlLShows | student-distrib/devices/keyboard.c:392-404 | Ctrl-L leaves the prompt and the line at the start of the visible screen, blanks elsewhere, and the cursor behind the line |
| Handler.ClearShowsEdited | student-distrib/devices/keyboard.c:392-404 | after any keys since a flush, with no other key while Backspace is held, that is the prompt and the line the user edited |
| Handler.HandledIsRun | student-distrib/devices/keyboard.c:278-499 | in every state with chains, what the handler does is a guarded run of the kernel's key events, and chains and screens hold after it |
| Handler.AltBranch | student-distrib/devices/keyboard.c:340-387 | the Alt branch takes the model's step for each function key, with the load of a launched shell, and for other keys only changes and restores the directory |
| Handler.ClearBranch | student-distrib/devices/keyboard.c:392-404 | Ctrl-L clears the visible screen and prints the prompt and the line so far, and the serviced terminal is put back |
| Handler.TypeBranch | student-distrib/devices/keyboard.c:420-499 | Backspace, Enter, a full buffer and ordinary keys change the line and echo as the model says, and each way out restores the serviced process's directory |
| Handler.ProcessSentScancode | student-distrib/devices/keyboard.c:278-499 | one scancode changes modifiers and visible line as the line discipline says, screens, processes and directory as the kernel's events say, and memory by the load of a shell it launches; a key release changes no directory |
| Descriptors.StoredNumber | student-distrib/filesystem.c:143-163 | the inode number that comes back from a stored pointer, for every index |
| Descriptors.PointerRoundTrip | student-distrib/filesystem.c:143-163 | the inode pointer round trip holds if and only if the index is below 128 |
| Descriptors.OwnFile | student-distrib/syscalls.c:425-431 | an opened regular entry reads its own file if and only if its inode index is below 128 |
| Descriptors.OtherFile | student-distrib/filesystem.c:240-264 | from index 128 on it reads the file of the index modulo 256, or every read fails |
| Descriptors.EveryDescriptorConsistent | student-distrib/syscalls.c:395-480 | after any calls, of any sizes, descriptors 0 and 1 are the terminal, every other open one has its entry's type, and what it delivered since open is the file's prefix up to its position, or the directory's first names if every read of it asked for 32 bytes or more |
| Descriptors.OpenExact | student-distrib/syscalls.c:395-480 | after any calls, a descriptor from 2 on is open if and only if an open returned it and no later close of it answered 0 |
| Descriptors.CloseExact | student-distrib/syscalls.c:461-480 | a close answers 0 exactly for such a descriptor, and otherwise fails |
| Descriptors.OpenAnswers | student-distrib/syscalls.c:395-451 | an open returns the least descriptor from 2 on that is not open, and fails if and only if the name is unknown or 2 to 7 are all open |
| Descriptors.ClosedIsFree | student-distrib/syscalls.c:461-480 | after a close that answered 0, reading or closing the descriptor fails, and the next open of a known name returns at most that descriptor |
| Descriptors.ReadAnswers | student-distrib/syscalls.c:335-355 | a read of a descriptor that is not open fails, and a read of a regular file fails exactly when a block on the way is out of range and otherwise delivers the next bytes of the file, as many as were asked for and are left |
| Descriptors.ReadToTheEnd | student-distrib/filesystem.c:240-264 | when a read of a regular file returns 0 the pieces delivered make up the whole file |
| Descriptors.ListToTheEnd | student-distrib/filesystem.c:321-351 | with reads of 32 bytes or more, when a directory read returns 0 every name was delivered once in order, and later reads of any size return 0 and change nothing |
| Descriptors.DeliversNameExact | student-distrib/filesystem.c:342-350 | a directory read delivers its entry's name if and only if it asks for 32 bytes or more or what the buffer held completes what was copied |
| Descriptors.WholeNamesExact | student-distrib/filesystem.c:342-350 | a read size delivers the name whatever the buffer held if and only if it is 32 or more |
| Descriptors.StrNCpy | student-distrib/lib.c:951-965 | for any count the two loops store the string's first bytes padded with NULs, and nothing else changes |
| Descriptors.MeasureWindow | student-distrib/filesystem.c:348-350 | reports 32 if the last byte of the window is not NUL, and otherwise its string length |
| Descriptors.Process.Reset | student-distrib/syscalls.c:169-182 | a started process has the two standard streams and nothing else open, whatever the array held |
| Descriptors.Process.OpenFile | student-distrib/syscalls.c:395-451 | takes the least free descriptor from 2 to 7, and fails exactly for an unknown name or a full table |
| Descriptors.Process.CloseFile | student-distrib/syscalls.c:461-480 | frees an open descriptor from 2 to 7 and answers 0, and refuses any other and changes nothing |
| Descriptors.Process.ReadFile | student-distrib/filesystem.c:240-264 | delivers the next piece of the file and moves the position by its length; a failure moves nothing |
| Descriptors.Process.ReadDirectory | student-distrib/filesystem.c:321-351 | for any size copies the next name and reports what the buffer then holds, or 0 at the end; the position moves by one |
| Descriptors.Process.ReadCall | student-distrib/syscalls.c:335-355 | refuses a descriptor that is out of range or not open, and otherwise dispatches by its table; a device's own read decides its result |
| Itoa.WrittenDecodes | student-distrib/lib.c:624-656 | for every 32-bit value and radix 2 to 36 the output is a numeral without leading zero, decodes to the value and has at most 32 digits |
| Itoa.NumeralsUnique | student-distrib/lib.c:624-656 | no other digit string without leading zero decodes to the same value |
| Itoa.StrRev | student-distrib/lib.c:666-681 | the swaps reverse the string in place and touch no other byte |
| Itoa.WriteDigits | student-distrib/lib.c:644-652 | the division loop stores the digits, lowest first, and a NUL |
| Itoa.WriteNumber | student-distrib/lib.c:624-656 | memory changes exactly by the numeral and its NUL, at most 33 bytes |
| Itoa.PaddedHex | student-distrib/lib.c:356-375 | the string printed has exactly eight hexadecimal digits and decodes to the value |
| Grep.FittingLines | syscalls/ece391grep.c:9-66 | if every matching line fits the buffer, the matching pieces are the matching lines, in order |
| Grep.LinesJoin | syscalls/ece391grep.c:30-32 | the lines hold no newline and, joined by newlines, are the file |
| Grep.GrepExact | syscalls/ece391grep.c:9-66 | what is printed is exactly the matching lines if and only if each of those has at most 1024 bytes |
| Grep.FindLineEnd | syscalls/ece391grep.c:30-32 | the scan stops at the first newline or at the end of the filled part |
| Grep.SameAt | syscalls/ece391support.c:35-46 | the comparison holds exactly when the pattern stands there before the NUL |
| Grep.SearchLine | syscalls/ece391grep.c:41-51 | found if and only if the line contains the pattern and the pattern's first byte is below 128 |
| Grep.CarryOver | syscalls/ece391support.c:14-17 | the overlapping copy moves the unfinished line to the front intact |
| Grep.SearchBuffer | syscalls/ece391grep.c:28-57 | after the inner loop, what is printed and what the carried part and the unread file will print make up the same total |
| Grep.DoOneFile | syscalls/ece391grep.c:9-66 | the loop ends and prints the matching pieces of the file once each in order, or nothing for an empty pattern or a first byte of 128 or more; so it prints the matching lines if and only if the pattern is findable and they fit, or there are none |
| Blink.RemoveUndoesAdd | fish/blink.S:187-237 | remove, at the location in its low word, takes away the newest entry there and leaves all others in order |
| Blink.RemoveCounts | fish/blink.S:187-237 | remove lowers the number of entries at its location by one if there is one, and no other |
| Blink.SyncBlinksInStep | fish/blink.S:240-300 | sync gives the timing of the newest entry at the high word's location to the newest one at the low word's; from then on they blink in step for any number of ticks, and nothing else changes |
| Blink.BlinksForever | fish/blink.S:49-99 | a started entry is on for its on phase, off for its off phase, and then as at the start, for any number of rounds |
| Blink.PhaseLasts | fish/blink.S:62-91 | how long a countdown lasts under a 16-bit decrement and a signed test |
| Blink.PushListed | fish/blink.S:156-162 | pushing a free slot keeps the list intact if and only if the location is not 0 |
| Blink.UnlinkListed | fish/blink.S:214-222 | bypassing and zeroing one node keeps the list intact and its other entries in order |
| Blink.WalkVisitsNodes | fish/blink.S:351-379 | a walk of an intact list meets its nodes in order and ends |
| Blink.ZeroLocationLoops | fish/blink.S:131-162 | the allocation after an add at location 0 returns the same slot again, and after the second add no walk from it ends |
| Blink.SameNodes | fish/blink.S:351-379 | pool and head determine the list |
| Blink.FreeSlotExists | fish/fish.c:161-171 | a free slot exists if and only if the list is shorter than the pool |
| Blink.BlinkList.Malloc | fish/fish.c:161-171 | the first free slot, or none exactly when every slot is in use |
| Blink.BlinkList.IoctlAdd | fish/blink.S:105-184 | refuses exactly a location of 2000 or more or a full pool; otherwise pushes a slot that was not listed; intact if and only if the location is not 0 |
| Blink.BlinkList.FindHelper | fish/blink.S:351-379 | the newest node at the location |
| Blink.BlinkList.FindPrevious | fish/blink.S:206-212 | the pointer walk ends at the link that points at the node |
| Blink.BlinkList.IoctlRemove | fish/blink.S:187-237 | unlinks and frees only the newest node at the location, and fails exactly when there is none |
| Blink.BlinkList.IoctlFind | fish/blink.S:302-349 | copies the newest entry at the location, and fails exactly when there is none |
| Blink.BlinkList.IoctlSync | fish/blink.S:240-300 | copies the four timing fields between the newest entries at two locations, and fails exactly when one is missing |
| Blink.BlinkList.Tasklet | fish/blink.S:49-99 | every entry takes one tick, and the list keeps its shape |
| Blink.BlinkList.Serve | fish/blink.S:101-103 | any sequence of commands whose adds avoid location 0 keeps the list intact and does what the simple list of entries does |

## Left out

- Port I/O and device setup, the cursor hardware, `init_idt` and multiboot parsing.
- The assembly of `memcpy`, `memset`, `memmove`, `iret` and stack switching: copies, fills and opaque saved frames instead.
- The range checks of user pointers at the start of the system calls, except as `ProcessMemory.Acts` has them for copies.
- EFLAGS: failed executes return without restoring the interrupt flag, and nothing is said about it.
- Busy waits: a read that is not allowed yet is an event that changes nothing.
- The results of keys that print nothing: the scancode tables are a parameter, with the facts the driver relies on (`Keyboard.TablesOk`), and `KeyboardLayout.Layout` has every printable key.
- Colour keys, the RTC driver, `getargs`, argument passing, signals, exception messages and unused interrupt handlers.
- `putc`, which does not keep the cursor on screen, and the clearing of the backing pages at boot, which does not cover all of them.
- The remaining user programs, which are input and output plumbing.
- Ill-formed images: at most 63 entries of types 0 to 2 with 32-byte names, files of at most 1023 blocks, a shell that can be started (`Loader.ShellReady`).
- Partly written video pages: page copies move whole cells of character and attribute.
- Machine.Globals.GetAvailablePid: the pid bitmap is a sequence of six bits, not a 32-bit mask.
- Machine.Globals.TimerInterrupt: the mask of launched terminals is a set.
- Machine.Globals.PrintText: a format with a percent sign is not covered; the refusal and the prompt have none.
- Machine.Globals.Halt: takes it as given that the active directory maps the process blocks, which `Isolation.UsedReachesBlocks` shows of every used pid; likewise `Machine.Globals.AltKeyPressed` and `Handler.ProcessSentScancode`.
- Machine.Globals.ExecuteCommand: the argument string is not stored, the child's descriptors are those of `Descriptors.Process.Reset`, and the jump to the entry point is not followed.
- Handler.EchoOnScreen: nothing else is printed on the terminal between the keys.
- ProcessMemory.OnlyOwnActs: what a system call copies is any sequence of bytes; the calls' own contracts say which.
- Handler.ProcessSentScancode: for Ctrl-6 and Ctrl-7 it says nothing about the screen, since colours are not modelled.
- Descriptors.Process.ReadDirectory: the user's buffer has room for the bytes asked for and for the 32 that are measured; without it the code writes and measures other memory.
- Descriptors.Process.ReadCall: the reads of the terminal and the clock are represented by what their drivers return.
- Grep.DoOneFile: a NUL byte in the file cuts lines short, and a spare buffer byte that starts as newline is taken for one; these inputs are excluded.
- Blink.BlinkList.IoctlSync: the character that sync displays is not modelled, nor are the other writes to video memory.
