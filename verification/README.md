# clOS kernel model

clOS is a small multi-terminal x86 kernel. This project models the parts of it that keep state or
transform data, and proves what they keep over whole runs.

| file | models |
|---|---|
| `Processes.dfy`, `ProcessRuns.dfy` | process table, scheduler, descriptors and address spaces as steps on values; invariants of every run; bounded waiting |
| `Effects.dfy` | what each call, key and tick changes in a reachable state, and that it changes nothing else |
| `Histories.dfy` | what one process keeps while the others run: its arguments, its place in its files and directories |
| `Machine.dfy`, `KernelLoop.dfy` | the same in place: bitmap, process blocks, search loops; from boot through any sequence of events |
| `Paging.dfy` | page directories and tables, and what user mode can reach through them |
| `Screen.dfy`, `Display.dfy` | one terminal and its paper; three terminals behind one video buffer, in memory |
| `SystemRuns.dfy` | processes and screens together |
| `LineEditor.dfy` | line buffers, keys and their echo |
| `FileSystem.dfy`, `Commands.dfy`, `Strings.dfy` | read-only file system, command lines and arguments, string routines |
| `Typing.dfy` | keys on the display: line buffer and screen together |
| `Grep.dfy`, `GrepOnFiles.dfy`, `GrepProgram.dfy` | the sliding buffer of `grep`: when its answer is right, on which files and reads, and its loops in place |
| `Numbers.dfy`, `BlockCopy.dfy`, `Rtc.dfy` | number printing, memcpy and memmove, clock rates |

How the model reads the source:

- A system call, a key or a timer tick is one atomic step. Stack switching is abstracted to which process
  is current. A launch or a started program ends the step there, since control does not come back.
- The state after the first shell has started is the initial one. Process blocks start out zero, and the
  image holds a valid `shell`.
- Uninitialised memory is a parameter: the header buffer of `checkExe`, the last byte of the command
  buffer, the data buffer of `grep`, the bytes a user buffer held. So is what stands behind the name of a
  directory entry, which a longer request reads.
- What devices return is a parameter too: terminal and clock reads, and how many bytes a read gives `grep`.
- An inode is a whole disk block of 1023 slots, as the address arithmetic steps, followed by one more
  word, because the read loop may look one slot past the last used one.
- The three line buffers are one stretch of memory behind the byte that precedes them, because
  `backspacebuf` writes at index -1 on an empty line.
- A plain `char` is signed, as the makefiles leave it.
- Attribute bytes are not kept: every write stores the same constant.
- A descriptor's operations table and flags are one kind, since they are always assigned together.

Where the code does not do what it is for, the code is kept, the exact condition is proved, and a lemma
exhibits an input that fails:

| exact condition | failing input |
|---|---|
| `Display.EchoFaithfulExactly` | `SystemRuns.EnterGoesAstray` |
| `Typing.TypeKeepsStepExactly` | `SystemRuns.KeyGoesAstray`, `LineEditor.FullLineOutOfStep` |
| `LineEditor.DropLastDrops` | `LineEditor.BackspaceReachesNeighbour` |
| `LineEditor.ClearKeyExactly` | `LineEditor.ClearKeyLeavesLine` |
| `Grep.RightExactlyWhenUncut` | `GrepOnFiles.BlockBoundaryHidesMatch`, `GrepOnFiles.NulCutsLine`, `GrepOnFiles.StaleBytesShow`, `Grep.HighByteExample` |
| `Commands.TerminatedExactly` | `Commands.ArgumentRunsOn` |
| `FileSystem.Cat` | `FileSystem.CatStopsShort` |
| `Screen.ScreenRestoredExactly` | `Screen.LastCellNotRestored` |

## Model

| member | source | states |
|---|---|---|
| `ProcessRuns.Safety` | filesIWorkedOn/syscalls.c:91-302 | In every state reachable from boot, over any sequence of execute, halt, tick, terminal switch, open, close, read and vidmap: the active pids are the disjoint union of one duplicate-free parent/child chain per launched terminal, links agree both ways, the current process is an active leaf, and CR3 and `tss.esp0` are its own |
| `ProcessRuns.StepKeeps` | filesIWorkedOn/syscalls.c:74-302 | One event keeps chains, descriptors, paging and the current-leaf property; it is the induction step of every theorem about runs |
| `ProcessRuns.UpdateChain` | filesIWorkedOn/syscalls.c:118-158 | Replacing one terminal's chain leaves every other chain, and the partition of the active pids, intact |
| `ProcessRuns.ChildChained` | filesIWorkedOn/syscalls.c:142-158 | A child started by the current process extends that terminal's chain at its end |
| `ProcessRuns.LaunchChained` | filesIWorkedOn/lib.c:226-238 | First showing a terminal adds a new one-element chain for it |
| `ProcessRuns.RespawnChained` | filesIWorkedOn/syscalls.c:149-153 | A root shell that halts leaves a one-element chain on the same terminal, even if the pid changes |
| `ProcessRuns.ResumeChained` | filesIWorkedOn/syscalls.c:274-289 | After a child has halted the active processes still form one chain per terminal, and the current one has no child; which chain gets shorter, and by what, is `Effects.HaltChildEffect` |
| `ProcessRuns.RootRespawns` | filesIWorkedOn/syscalls.c:266-272 | Halting a root shell always finds a free pid and leaves a root leaf on the same terminal; no other active process block changes |
| `ProcessRuns.HaltOutcome` | filesIWorkedOn/syscalls.c:232-302 | The respawn inside a halt cannot fail: the number just freed is available at worst |
| `ProcessRuns.SwitchOutcome` | filesIWorkedOn/lib.c:216-238 | A first launch that finds a free pid always starts the shell |
| `ProcessRuns.BoundedWaiting` | filesIWorkedOn/schedule.c:20-35 | Over any run, a process that stays an active leaf is selected once there are more than (pid - cursor) mod 6 ticks, so within six |
| `ProcessRuns.CursorNeverPasses` | filesIWorkedOn/schedule.c:26-35 | A tick that selects another process moves the cursor strictly closer to every waiting leaf |
| `ProcessRuns.FreshDescriptors` | filesIWorkedOn/syscalls.c:160-166 | Although sys_execute clears none of descriptors 2 to 7, a started program has exactly 0 and 1 open, in any reachable state |
| `ProcessRuns.OpenReadsSucceed` | filesTeamWorkedOn/fs.c:168-185 | In any reachable state a read of an open regular file never returns -1 |
| `ProcessRuns.OpenedAtStart` | filesIWorkedOn/syscalls.c:311-369 | sys_open uses a descriptor that was closed, positions a regular file at its start, and changes no other descriptor |
| `ProcessRuns.Isolation` | filesIWorkedOn/kernel.c:526-609 | In any reachable state, no user-mode access of an active process reaches the kernel page or another process's frame, and its program area is its own 4 MB frame |
| `ProcessRuns.VidmapShowsVideo` | filesIWorkedOn/kernel.c:601-609 | After vidmap the page behind the program area is video memory, in the loaded directory |
| `ProcessRuns.RunKeeps` | filesIWorkedOn/syscalls.c:74-302 | The invariant over a run, by induction on its events |
| `ProcessRuns.AlwaysReady` | filesIWorkedOn/syscalls.c:74-302 | Every event is possible in every reachable state, and leads to a reachable one |
| `Processes.ExecuteOutcome` | filesIWorkedOn/syscalls.c:74-116 | A program starts exactly when it passes checkExe and a pid is free; a failing call changes nothing, not even the loaded directory, although paging is switched before the second lookup |
| `Processes.FreeFrom` | filesIWorkedOn/syscalls.c:91-101 | The search returns the lowest free pid, or none exactly when all six are used |
| `Processes.SearchFrom` | filesIWorkedOn/schedule.c:26-33 | The cyclic search ends at the first active leaf from the cursor |
| `Processes.FreeFd` | filesIWorkedOn/syscalls.c:314-320 | The lowest closed descriptor from 2 on, or none exactly when all are open |
| `Processes.CurrentIsLast` | filesIWorkedOn/syscalls.c:118-158 | An active leaf that is current stands at the end of its terminal's chain |
| `Effects.ExecuteEffect` | filesIWorkedOn/syscalls.c:74-180 | In any reachable state: if the header is recognised and a number is free, the lowest one becomes a child of the current process on its terminal, with its arguments, and no other process changes; otherwise nothing changes at all |
| `Effects.HaltChildEffect` | filesIWorkedOn/syscalls.c:257-289 | In any reachable state, halting a child makes the process that started it current, frees exactly the child's number, takes exactly the last element off its terminal's chain, and changes no other process |
| `Effects.HaltRootEffect` | filesIWorkedOn/syscalls.c:266-272 | In any reachable state, halting a root shell starts a shell without arguments on the same terminal, with the lowest number free by then, and changes no other process |
| `Effects.SwitchEffect` | filesIWorkedOn/lib.c:139-375 | In any reachable state: a launched terminal is only shown; another gets a root shell with the lowest free number, every other process unchanged; without a free number nothing happens |
| `Effects.TickEffect` | filesIWorkedOn/schedule.c:17-62 | In any reachable state a tick selects the first active process without a child, counting from the cursor around the six numbers, and puts the cursor behind it; CR3 and stack are its own, and nothing else changes |
| `Effects.OpenEffect` | filesIWorkedOn/syscalls.c:311-369 | In any reachable state: fails exactly when no descriptor from 2 to 7 is closed or the name is not found; otherwise the lowest closed one becomes a clock for type 0, a directory for 1, a regular file at its start for 2, a terminal for 4 or a name that starts with "terminal", stays as it is for another type, and no other changes |
| `Effects.CloseEffect` | filesIWorkedOn/syscalls.c:423-434 | In any reachable state: 0 exactly on an open descriptor from 2 to 7, which is closed and free again while no other changes |
| `Effects.ReadFileEffect` | filesTeamWorkedOn/fs.c:168-185 | In any reachable state, on an open regular file, the position moves by what is returned; without missing blocks that is min(n, (n/4096+1)*4096 - position%4096) with n = min(request, rest), so 0 exactly at the end or for an empty request |
| `Effects.ReadDirectoryEffect` | filesTeamWorkedOn/fs.c:230-247 | In any reachable state, on an open directory: returns the request and moves on by one entry; 0 without a change for an empty request, at an entry with an empty name and behind the last entry |
| `Effects.ReadOtherEffect` | filesIWorkedOn/syscalls.c:381-391 | Any other read changes no state: -1 for a descriptor that is not open, for 1 and out of range, and else what the device returns |
| `Effects.VidmapEffect` | filesIWorkedOn/syscalls.c:473-489 | In any reachable state: 0 exactly for a pointer into the program area, when entry 33 of the current directory and nothing else changes; else -1 and no change |
| `Effects.BootState` | filesIWorkedOn/kernel.c:511-514 | Process 0 alone, a root shell without arguments on terminal 1, displayed |
| `Effects.ReachableTranslation` | filesIWorkedOn/kernel.c:526-609 | In any reachable state, for every address: an active process reaches the video page, its program area in its own frame, the video page again behind it when entry 33 of its directory is set, the three backing pages, and nothing else, byte for byte |
| `KernelLoop.Serve` | filesIWorkedOn/syscalls.c:74-302 | The in-place kernel, from boot through any sequence of events, is always in the state the model's run reaches; every method's precondition holds whenever it is called |
| `KernelLoop.Handle` | filesIWorkedOn/syscalls.c:74-302 | One event handled in place is one step of the model and ends in a reachable state with no launch pending |
| `KernelLoop.HandleGetArgs` | filesIWorkedOn/syscalls.c:443-465 | In every live state the stored arguments are a string, so sys_getargs can be served; it changes no state |
| `Histories.ArgumentsRoundTrip` | filesIWorkedOn/syscalls.c:180-180 | sys_execute of "token args" in any reachable state, then any run in which the new process does not halt: its sys_getargs returns 0 with the first min(length of args,31) bytes exactly when that count is between 1 and the request, and -1 otherwise |
| `Histories.ArgumentsKept` | filesIWorkedOn/syscalls.c:74-302 | Whatever other processes do, a process keeps the arguments it was started with until it halts |
| `Histories.ReachableArguments` | filesIWorkedOn/syscalls.c:77-87 | In every reachable state each stored argument string is NUL-free and at most 31 bytes long |
| `Histories.ReadsInOrder` | filesTeamWorkedOn/fs.c:168-185 | Over any run in which a process neither halts nor closes the descriptor, interleaved with anything the others do, the bytes it gets there are the file from the first position to the last, without gap or overlap |
| `Histories.ReadsFromOpen` | filesIWorkedOn/syscalls.c:340-347 | From sys_open of a regular file on, what the process has read is the file up to its position |
| `Histories.ReadsReachEnd` | filesTeamWorkedOn/fs.c:168-185 | On a file without missing blocks, over any run in which the process neither halts nor closes the descriptor, every read of at least one byte gets on, so the end is reached within as many reads as bytes are left |
| `Histories.ListedInOrder` | filesTeamWorkedOn/fs.c:230-247 | Over any run in which the process neither halts nor closes the directory and asks for 32 bytes each time, each read gives the next entry's name, in order, until an empty one, and the position counts them exactly |
| `Histories.ListedFromOpen` | filesIWorkedOn/syscalls.c:333-339 | From sys_open of an entry of type 1 on, whose name does not start with "terminal", n such reads give the first n names of the directory, or all of them |
| `Histories.StepSame` | filesIWorkedOn/syscalls.c:74-302 | No event but a process's own file call or halt changes its arguments or descriptors |
| `Machine.BitCleared` | filesIWorkedOn/syscalls.c:266-267 | Subtracting an active pid's bit clears that bit only: `pid_bitmap -=` never borrows |
| `Machine.FullBitmap` | filesIWorkedOn/lib.c:219-221 | `getBitMap() == 0x3F` is exactly "no free pid" |
| `Machine.Machine.constructor` | filesIWorkedOn/kernel.c:511-514 | Boot leaves the first shell on terminal 1, with the invariant's starting state |
| `Machine.Machine.FindFree` | filesIWorkedOn/syscalls.c:91-101 | The bitmap loop finds the lowest free pid of the set the bitmap denotes |
| `Machine.Machine.LinkPcbs` | filesIWorkedOn/syscalls.c:118-164 | The assignments to new block and parent, in order and with the aliasing of a respawn, give the linked table of the model |
| `Machine.Machine.SysExecute` | filesIWorkedOn/syscalls.c:74-222 | New state and result equal the model's, for a child, a first launch and a respawn |
| `Machine.Machine.SysHalt` | filesIWorkedOn/syscalls.c:232-302 | New state equals the model's; the freed bit was set |
| `Machine.Machine.Schedule` | filesIWorkedOn/schedule.c:17-62 | The loop terminates and selects the first active leaf in cyclic order; cursor, CR3 and stack follow |
| `Machine.Machine.ScreenChange` | filesIWorkedOn/lib.c:139-375 | Process side of switching: refused, shown, or launched exactly as the model says |
| `Machine.Machine.SysOpen` | filesIWorkedOn/syscalls.c:311-369 | New table and descriptor equal the model's, for all four file types and the error cases |
| `Machine.Machine.SysRead` | filesIWorkedOn/syscalls.c:381-391 | Dispatch on the descriptor's kind; position and result equal the model's, and a file or directory read leaves exactly its bytes in the buffer |
| `Machine.Machine.ReadDirectory` | filesTeamWorkedOn/fs.c:230-247 | The name of the entry at the position, cut or padded to the request, and one entry further; 0 and nothing written at the end |
| `Machine.Machine.SysGetArgs` | filesIWorkedOn/syscalls.c:443-465 | Buffer and result are what the current process's stored arguments give |
| `Machine.Machine.ReadRegular` | filesTeamWorkedOn/fs.c:168-185 | The bytes delivered are the file's from the old position on; the rest of the buffer is untouched |
| `Machine.Machine.SysClose` | filesIWorkedOn/syscalls.c:423-434 | Closes exactly an open descriptor from 2 to 7 |
| `Machine.Machine.SysVidmap` | filesIWorkedOn/syscalls.c:473-489 | Refused outside the program area, else 132 MB is stored through the pointer and the vidmap entry of the current directory is set and loaded |
| `Paging.InitializeTables` | filesIWorkedOn/kernel.c:540-576 | The three shared page tables hold exactly the entries the design gives: one video page, three terminal pages, the rest not present |
| `Paging.InitializeDirectories` | filesIWorkedOn/kernel.c:534-559 | All six directories start equal: low table, kernel page, terminal table, nothing else present |
| `Paging.UserReach` | filesIWorkedOn/kernel.c:526-609 | Through any directory the kernel leaves, user mode reaches the own frame, the video page and the backing pages only |
| `Paging.AllowedApart` | filesIWorkedOn/kernel.c:582-591 | What one process may touch lies outside the kernel page and every other frame |
| `Paging.ProgramArea` | filesIWorkedOn/kernel.c:582-591 | 128 MB to 132 MB maps to 8 MB + pid * 4 MB, byte for byte |
| `Paging.Translation` | filesIWorkedOn/kernel.c:526-609 | Exactly what every address reaches through any directory the kernel leaves |
| `Paging.TerminalPage` | filesIWorkedOn/kernel.c:574-576 | The page at 0x8800000 + t*4096 is the page at 0x2400000 + t*4096, for each of the three terminals |
| `Display.ThreeTerminals` | filesIWorkedOn/lib.c:60-375 | Over any interleaving of output, echo, backspace, clear and switching in which no echo scrolls while another terminal's process runs, each terminal (video memory or backing page, and cursor) equals a standalone terminal fed only its own events |
| `Display.LaunchedIsPaper` | filesIWorkedOn/lib.c:139-375 | From its first launch on, a terminal is a 25-row window on its own unbounded paper, whatever the others do |
| `Display.StepIsShared` | filesIWorkedOn/lib.c:532-573 | One event changes each terminal exactly as its share of the event would |
| `Display.WhereEventsGo` | filesIWorkedOn/lib.c:532-573 | Output changes the terminal of the running process, an echo, backspace or clear the displayed one, a first launch the new one, each as on a terminal alone, and no event another; an echo that scrolls is left to `Display.EchoFaithfulExactly` |
| `Display.WhereScreensLie` | filesIWorkedOn/lib.c:165-375 | The displayed terminal lies in video memory and the others in their pages; a switch saves the screen and brings the other one in, blank when new, and a refused one keeps the display |
| `Display.EchoFaithfulExactly` | filesIWorkedOn/lib.c:112-136 | Echoing a key while another terminal's process runs is right if and only if it does not scroll, or both the other terminal and the screen are blank: tScroll looks at the running process, putc at the displayed terminal |
| `Display.EchoGoesAstray` | filesIWorkedOn/lib.c:112-136 | Whatever memory held: after a first visit to terminal 2, a letter from its process, a clear and 24 line breaks on terminal 1, all of them faithful, the next Enter scrolls the wrong screen |
| `Display.ScrollFixesBlank` | filesIWorkedOn/lib.c:127-134 | A scroll leaves a screen alone exactly when it is blank |
| `Display.ScrollInPlace` | filesIWorkedOn/lib.c:127-134 | The two in-place loops are a one-row shift with a blank last row |
| `Display.VideoMemory.TScroll` | filesIWorkedOn/lib.c:112-136 | Scrolls the buffer of the running process's terminal, whichever it is |
| `Display.VideoMemory.PutC` | filesIWorkedOn/lib.c:532-573 | New memory and cursors equal the model's putc |
| `Display.VideoMemory.EraseLast` | filesIWorkedOn/lib.c:72-90 | New memory and cursor equal the model's backspace on the displayed terminal |
| `Display.VideoMemory.Clear` | filesIWorkedOn/lib.c:60-70 | Blank screen and home cursor for the displayed terminal |
| `Display.VideoMemory.ScreenChange` | filesIWorkedOn/lib.c:165-375 | Save, then refuse, restore or clear: new memory equals the model's |
| `SystemRuns.TerminalsAreSeparate` | filesIWorkedOn/lib.c:139-573 | Processes and screens together, over any run of system calls, ticks and keys in which no echo scrolls while another terminal's process runs: each terminal shows what was printed while its own processes ran and what was typed or cleared while it was displayed |
| `SystemRuns.AlreadyThereReaches` | filesIWorkedOn/lib.c:142-157 | The text "Already in terminal N" goes to the terminal whose process runs, so it reaches the displayed one if and only if that is the same |
| `SystemRuns.ShownNext` | filesIWorkedOn/lib.c:139-375 | Only switching changes the displayed terminal, and both parts of the model agree on it |
| `SystemRuns.WhereItShows` | filesIWorkedOn/lib.c:532-573 | In any reachable state, what a process prints appears on its own terminal and what is typed on the displayed one, and nowhere else, as long as no echo scrolls while another terminal's process runs |
| `SystemRuns.WhereSwitchShows` | filesIWorkedOn/lib.c:139-375 | A launched terminal is shown as it was, a new one cleared if a number is free, and otherwise the display stays; no other terminal changes |
| `SystemRuns.EnterGoesAstray` | filesIWorkedOn/lib.c:112-136 | The same from boot: Alt-F2, Alt-F1, output of the new shell, Ctrl-L and 24 times Enter reach a state whose next Enter on terminal 1 scrolls terminal 2 |
| `SystemRuns.KeyGoesAstray` | filesIWorkedOn/lib.c:112-136 | From boot, whatever memory held: Ctrl-L, 1999 characters of output, Alt-F2 and Alt-F1 reach a state in step whose first typed character is not: no paper with that line is behind the screen |
| `Typing.TypeKeepsStepExactly` | filesIWorkedOn/keyboard.c:133-218 | One key on the display, whichever terminal's process runs: screen and line stay in step if and only if the key does not fill the buffer and its echo does not scroll under a foreign process a screen that is not blank |
| `Typing.LineOnDisplay` | filesIWorkedOn/keyboard.c:133-218 | Over any run of the display in which no echo scrolls astray and of which a terminal gets just the echo of the keys typed, its screen shows the prompt and exactly what was typed, and its buffer holds it |
| `Typing.KeyGoesAstray` | filesIWorkedOn/lib.c:112-136 | Whatever memory held: with all cells but the last written and a process of terminal 2 running, the first typed character puts screen and line out of step |
| `Screen.ScreenIsWindow` | filesIWorkedOn/lib.c:532-573 | Any history of characters, breaks, backspaces and clears keeps the screen a window on the paper |
| `Screen.CursorIsLast` | filesIWorkedOn/lib.c:532-573 | Over any history of a once cleared terminal every cell at or after the cursor is blank |
| `Screen.PutOnPaper` | filesIWorkedOn/lib.c:532-553 | putc, with wrap and scroll, is appending to the paper |
| `Screen.BackspaceOnPaper` | filesIWorkedOn/lib.c:72-90 | backspace, with its row wrap, is removing the last cell of the paper, except at the top left corner |
| `Screen.ScrollShiftsWindow` | filesIWorkedOn/lib.c:127-134 | Every scroll is a one-row shift of the window |
| `Screen.OutputShowsLastRows` | filesIWorkedOn/lib.c:532-553 | Output from a cleared screen always shows the last 25 rows |
| `Screen.BackspaceUndoesPut` | filesIWorkedOn/lib.c:72-90 | putc of a character and then backspace give the window on the same paper, one row lower if the character scrolled, across every wrap |
| `Screen.ScreenRestoredExactly` | filesIWorkedOn/lib.c:72-90 | The screen is what it was if and only if the cursor was not in the last cell |
| `Screen.LastCellNotRestored` | filesIWorkedOn/lib.c:72-90 | A full screen but for the last cell: a character and a backspace lose the first row |
| `LineEditor.TypedLineIsEchoed` | filesIWorkedOn/keyboard.c:133-218 | On a terminal that echoes by itself, for any in-line keys that keep the line under 128 characters: the buffer holds what was typed with zeros behind it, and the screen shows the prompt followed by exactly that |
| `LineEditor.PressKeepsLockstep` | filesIWorkedOn/keyboard.c:133-218 | On a terminal that echoes by itself, from a state in step, one key stays in step if and only if it is not the character that fills the buffer, which is stored but not shown |
| `LineEditor.InsertAppends` | filesIWorkedOn/terminal.c:89-96 | Appends to the displayed line unless it is full; other lines and all zero tails stay |
| `LineEditor.DropLastDrops` | filesIWorkedOn/terminal.c:120-127 | Drops the last character, or reports -1; it damages another terminal's line if and only if the line is empty and the terminal before has a full one whose last byte is not already NUL |
| `LineEditor.ClearKeyExactly` | filesIWorkedOn/keyboard.c:100-114 | Ctrl-L clears the displayed screen but the running terminal's line: they agree afterwards if and only if these are the same terminal or the line was empty |
| `LineEditor.LineBuffers.InsertKey` | filesIWorkedOn/terminal.c:89-96 | In-place insert equals the model's |
| `LineEditor.LineBuffers.BackspaceBuf` | filesIWorkedOn/terminal.c:120-127 | In-place backspace, with the write before the test, equals the model's |
| `LineEditor.LineBuffers.ClearBuf` | filesIWorkedOn/terminal.c:104-112 | The zeroing loop clears one buffer and nothing else |
| `LineEditor.LineBuffers.CopyOut` | filesIWorkedOn/terminal.c:181-190 | A terminal read copies the line, as a string, cut to the request: the line itself when it holds no NUL; nothing behind it is touched |
| `LineEditor.FullLineOutOfStep` | filesIWorkedOn/keyboard.c:211-217 | From boot, 128 typed characters: the last one is in the buffer but not on the screen |
| `LineEditor.BackspaceReachesNeighbour` | filesIWorkedOn/terminal.c:120-127 | Then Backspace on the empty line of terminal 2 changes terminal 1's line |
| `LineEditor.ClearKeyLeavesLine` | filesIWorkedOn/keyboard.c:105-114 | Ctrl-L on terminal 1 while a process of terminal 2 runs leaves the typed line in the buffer of a cleared screen |
| `FileSystem.ReadData` | filesTeamWorkedOn/fs.c:63-147 | Returns exactly the specified count, writes exactly that slice of the flat file, and nothing behind it; -1 and 0 cases included |
| `FileSystem.DenseReadResult` | filesTeamWorkedOn/fs.c:104-145 | On a file without missing blocks the count is min(n, (n/4096+1)*4096 - offset%4096) with n = min(request, rest), and at least 1 |
| `FileSystem.ReadFromStartIsFull` | filesIWorkedOn/syscalls.c:112-116 | At offset 0 nothing is cut short, so program loading is complete |
| `FileSystem.ReadResult` | filesTeamWorkedOn/fs.c:79-102 | -1 exactly for a bad inode number or an offset past the end; otherwise within request and file |
| `FileSystem.FileIsItsBlocks` | filesTeamWorkedOn/fs.c:108-123 | The file is its blocks in the order of the inode, one after the other, cut to its length |
| `FileSystem.ReadsTileTheFile` | filesTeamWorkedOn/fs.c:168-185 | Reads of any positive sizes deliver the file in order, without gap or overlap, and reach its end within as many reads as bytes are left |
| `FileSystem.ZeroOnlyAtEnd` | filesTeamWorkedOn/fs.c:93-95 | A positive read returns 0 at the end of the file and nowhere else |
| `FileSystem.ReadStopsAtHole` | filesTeamWorkedOn/fs.c:122-129 | No read crosses a missing block |
| `FileSystem.Cat` | syscalls/ece391cat.c:21-28 | The loop copies the file exactly up to its first missing block, so the whole file if and only if no block is missing |
| `FileSystem.CatStopsShort` | filesTeamWorkedOn/fs.c:122-129 | On a valid image whose file has a zero second block number, cat copies half the file |
| `FileSystem.ReadableExactly` | filesTeamWorkedOn/fs.c:122-129 | The readable part is the whole file if and only if no block is missing |
| `FileSystem.ReadDentryByName` | filesTeamWorkedOn/fs.c:15-30 | The loop over the directory equals the lookup, for absent and empty names too |
| `FileSystem.SameNameIs` | filesTeamWorkedOn/fs.c:20-20 | An entry's name matches exactly when it is the string asked for, cut to 32 bytes |
| `FileSystem.LookupFindsFirst` | filesTeamWorkedOn/fs.c:17-25 | The lookup returns an entry exactly when one before the end marker carries the 32-byte name, and the first such |
| `Commands.CommandRoundTrip` | filesIWorkedOn/syscalls.c:443-465 | The buffer that parsing "token args" fills, given to the code of sys_getargs: 0 with the first min(length of args,31) bytes exactly when that count is between 1 and the request |
| `Commands.SplitRoundTrip` | filesIWorkedOn/executehelper.c:22-40 | Token and arguments of "token args" are the parts it was built from |
| `Commands.SplitBare` | filesIWorkedOn/executehelper.c:22-40 | A command without arguments is its token alone |
| `Commands.Parse` | filesIWorkedOn/executehelper.c:22-40 | Writes exactly token and arguments; the terminator only when the arguments fill the buffer |
| `Commands.SplitCommand` | filesIWorkedOn/syscalls.c:77-87 | Both strings are terminated because the buffers are zeroed first |
| `Commands.GetArgs` | filesIWorkedOn/syscalls.c:443-465 | Result and whole buffer, for a null buffer, too short a request and no arguments too |
| `Commands.GotArgsBytes` | filesIWorkedOn/syscalls.c:443-465 | Every byte of the buffer afterwards: the arguments, NULs over the rest of the old string, the old bytes behind |
| `Commands.NegativeRequest` | filesIWorkedOn/syscalls.c:455-457 | A negative request is never too small for arguments that are there |
| `Commands.TerminatedExactly` | filesIWorkedOn/syscalls.c:443-465 | The copied arguments have no terminator of their own: they are terminated if and only if the old contents were longer or had a NUL right behind them |
| `Commands.ArgumentRunsOn` | filesIWorkedOn/syscalls.c:446-462 | "a" into a buffer that held a NUL and two letters: 0 is returned and no NUL is left |
| `Commands.CheckExe` | filesIWorkedOn/executehelper.c:48-70 | The ELF test on what the header buffer holds, uninitialised bytes included |
| `Commands.RecognisedExactly` | filesIWorkedOn/executehelper.c:48-70 | A name passes exactly when it is found, its inode exists, and 0x7F, "ELF" stand in the header buffer: the file's readable bytes, and behind them what was there |
| `Commands.HeaderDecides` | filesIWorkedOn/executehelper.c:61-64 | On a file of at least four bytes without missing blocks, exactly when its first four bytes are 0x7F, "ELF" |
| `Commands.ExecutableLoads` | filesIWorkedOn/syscalls.c:110-115 | Once checkExe has passed, the repeated lookups cannot fail |
| `Commands.InstalledIsExecutable` | filesIWorkedOn/executehelper.c:48-70 | A program with its header in the file is recognised whatever the stack held |
| `Strings.StrNCmp` | filesIWorkedOn/lib.c:860-878 | Zero exactly when the bounded strings agree, else the signed difference at the first mismatch |
| `Strings.StrNCpy` | filesIWorkedOn/lib.c:910-925 | Exactly n bytes: the bounded string padded with NULs |
| `Strings.StrLen` | filesIWorkedOn/lib.c:651-659 | The distance to the first NUL |
| `GrepProgram.DoOneFile` | syscalls/ece391grep.c:9-66 | For every file, NUL bytes included, and every way reads may split it: what is printed is, in order, the string at the start of each searched line that is hit; no NUL is printed, and no newline is left in the buffer |
| `Grep.RightExactlyWhenUncut` | syscalls/ece391grep.c:9-66 | For every file and every way of reading it, grep is right for every pattern if and only if no byte is 128 or more, no line mixes NULs with other bytes, and no pass does harm: it cuts no line except one of NULs, and what it keeps is the unfinished line |
| `Grep.RightForPattern` | syscalls/ece391grep.c:42-51 | When no pass does harm, one pattern is answered rightly if and only if it does not occur, or it starts below 128 and occurs only in lines without NULs |
| `Grep.HighBytesAreMissed` | syscalls/ece391grep.c:43-44 | A pattern that starts with 128 or more prints nothing, because a signed char is compared with an unsigned byte; so every file with such a byte is answered wrongly |
| `Grep.HighByteExample` | syscalls/ece391grep.c:43-44 | File and pattern are the byte 0xE9: nothing is printed |
| `Grep.NulLineIsCut` | syscalls/ece391grep.c:45-48 | A line that holds a NUL and another byte is never printed whole, so the pattern of that byte is answered wrongly however the file is read |
| `Grep.SearchedAreTheLines` | syscalls/ece391grep.c:21-60 | When no pass does harm, each matching line is searched once, in order |
| `Grep.CutShows` | syscalls/ece391grep.c:33-57 | When some pass does harm among lines that do not mix NULs with other bytes, some one-byte pattern is answered wrongly: a cut line by its first piece, a line spoiled by stale bytes by an empty line |
| `Grep.MovedByte` | syscalls/ece391grep.c:33-39 | What the string copy of the unfinished line leaves: its bytes up to the first NUL, and behind that the old bytes of the buffer with newlines turned to NULs |
| `GrepOnFiles.CutsExactlyLongLines` | syscalls/ece391grep.c:22-39 | Without NULs, when short reads stop at the end of the file or next to a newline, no pass does harm if and only if no line is longer than 1024 bytes |
| `GrepOnFiles.RightOnGoodStops` | syscalls/ece391grep.c:9-66 | With such reads: on files without NULs, right for every pattern if and only if all bytes are below 128 and no line is longer than 1024 bytes; on files with a line that mixes NULs and other bytes, never |
| `GrepOnFiles.RightOnFullReads` | syscalls/ece391grep.c:9-66 | In particular when reads fill the request |
| `GrepOnFiles.KernelReadsFillExactly` | filesTeamWorkedOn/fs.c:108-145 | This kernel's reads fill the request if and only if the file is at most one block long |
| `GrepOnFiles.GrepOnKernel` | syscalls/ece391grep.c:9-66 | The same on this kernel, for every file of any size without missing blocks whose block boundaries are next to a newline |
| `GrepOnFiles.BlockBoundaryHidesMatch` | syscalls/ece391grep.c:33-39 | On a valid image, with this kernel's read counts: the last line is "ab", cut by the block boundary, and grep prints nothing for it |
| `GrepOnFiles.NulCutsLine` | syscalls/ece391grep.c:45-48 | On a valid image, with this kernel's read counts: the only line is "a", a NUL and "b", and for "b" grep prints "a" |
| `GrepOnFiles.StaleBytesShow` | syscalls/ece391grep.c:33-39 | "xb", a newline and 1021 NULs: for "b" an empty line is printed behind "xb", because the line of NULs is not moved |
| `GrepProgram.ScanBuffer` | syscalls/ece391grep.c:28-57 | One pass prints from the terminated lines, keeps what the string copy leaves of the unfinished one, and leaves no newline anywhere in the buffer |
| `GrepProgram.MoveDown` | syscalls/ece391support.c:14-17 | The overlapping strcpy moves a string to the front intact and touches nothing behind its terminator |
| `GrepProgram.SearchLine` | syscalls/ece391grep.c:42-51 | Hits exactly when the pattern starts below 128 and occurs in the line; the empty one exactly at a NUL |
| `GrepProgram.ComparesEqual` | syscalls/ece391support.c:35-46 | The bounded comparison is an occurrence at that place |
| `Numbers.NumeralRoundTrip` | filesIWorkedOn/lib.c:605-610 | Decoding the numeral gives the value back, for radix 2 to 36 |
| `Numbers.NoLeadingZero` | filesIWorkedOn/lib.c:593-610 | The first digit is 0 only for zero |
| `Numbers.DigitsAre` | filesIWorkedOn/lib.c:584-610 | Digit d is the d-th character of 0-9A-Z |
| `Numbers.NumeralFits` | filesIWorkedOn/lib.c:584-617 | A 32-bit value has at most 32 digits, 10 in decimal, 8 in hexadecimal |
| `Numbers.Itoa` | filesIWorkedOn/lib.c:584-617 | Writes the numeral and its terminator and nothing else |
| `Numbers.StrRev` | filesIWorkedOn/lib.c:626-642 | Reverses the string in place and touches nothing around it |
| `Numbers.PrintAlternateHex` | filesIWorkedOn/lib.c:436-446 | %#x prints exactly eight digits that decode to the value |
| `Numbers.PrintUnsigned` | filesIWorkedOn/lib.c:430-459 | %x and %u print the numeral |
| `Numbers.PrintSigned` | filesIWorkedOn/lib.c:462-475 | %d prints sign and numeral for every 32-bit value, the smallest included |
| `BlockCopy.Memory.MemCpy` | filesIWorkedOn/lib.c:771-811 | Head, dword and tail phases copy the block exactly for every alignment and length, for separate blocks and for a lower destination, and write nothing else |
| `BlockCopy.Memory.MemMove` | filesIWorkedOn/lib.c:823-844 | The destination gets the source's old contents for every overlap; the direction flag stays set exactly after a downward move |
| `Rtc.Clock.Write` | filesIWorkedOn/rtc.c:99-169 | Accepts exactly 2^k with 1 <= k <= 10; keeps register A's high half and puts 16 - k in the low half; a refusal changes nothing |
| `Rtc.PowerOfTwoTest` | filesIWorkedOn/rtc.c:108-117 | The halving loop decides whether the frequency is a power of two |
| `Rtc.FindRate` | filesIWorkedOn/rtc.c:127-130 | The search ends at 16 - k, where the shifted base frequency equals the request |

## Left out

- Interleaving of ticks inside a system call: steps are atomic, although the trap gate leaves interrupts on.
- Stack and ring switching, saved stack pointers, boot code, descriptor tables and interrupt controllers: hardware configuration without abstract state.
- Port polling, scancode tables, shift and caps handling, and the busy-wait of terminal reads: device timing, replaced by abstract keys.
- Enter inside the echo theorem: a line break ends the line, so the keys considered stay on it.
- Boot-time output before the first shell, when no terminal is current.
- printf's format parsing and its string and character cases, memset: only easy members.
- The text of error messages that sys_execute prints: any output of the running process is covered as such.
- Commands.SplitCommand: requires a first token under 1024 bytes, because a longer one overruns the source's buffer; runs of the whole kernel exclude it too.
- GrepProgram.DoOneFile: requires a buffer without newlines at the start, because the source reads the uninitialised byte behind the data; every call leaves it so for the next one.
- What counts as right for the empty pattern: grep's main program exits when there are no arguments. The search itself is modelled for it too.
- Histories.ArgumentsKept: `pcb->arguments` points into the stack frame of the sys_execute that started the process; the model keeps the string. A child's starter is suspended in that frame; what becomes of the frame behind a launched or respawned root shell, whose arguments are empty, is not modelled.
- FileSystem.ReadDentryByName: a directory without an empty entry ends after its last entry, where the source would run on.
- BlockCopy.Memory.MemCpy: says nothing about overlapping blocks with a higher destination, which the C standard leaves undefined.
- Signals, vidmap of foreign buffers, the other user programs and the commented-out clock virtualisation: stubs or dead code.
