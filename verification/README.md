# A verified model of a small kernel

This project models the stateful parts of a small teaching operating system for the
x86 and proves properties of the model with Dafny. The system shows three virtual
terminals on one text screen, runs up to six processes under a round-robin timer,
reads files from an in-memory image, plays sound from a double buffer, and comes
with user programs of which the text search (`grep`) and the blinking characters
(`fish`) are covered here.

`dafny verify dfyconfig.toml` checks everything. Each file is one component:

- `Display.dfy` - one 24 x 80 text screen; its reference is an endless tape of rows
  of which the screen is a window.
- `LineEditor.dfy` - a terminal: screen, backspace column, key buffer and its
  overflow counter; what is on the screen against what is in the buffer.
- `Desks.dfy` - three terminals of which one is on display; switching, background
  output, whole runs.
- `Console.dfy` - the kernel's own console state (video page, saved pages, records,
  key arrays, globals), updated in place and proved against the desk. The class
  keeps a ghost log of its operations, so its invariant speaks of every history.
- `Keyboard.dfy` - the scan code handler on top of the machine.
- `Processes.dfy` - process stacks, parent links, saved contexts and the scheduler
  as values; what every step keeps. `Kernel.dfy` - the same with the kernel's
  redundant arrays, registers and page tables, updated in place. `Machine.dfy` - console
  and kernel together: what every call, tick, switch and key keeps.
- `Paging.dfy` - the page tables, the mapping calls and the processor's page walk
  (Intel SDM volume 3A, section 4.3).
- `FileSystem.dfy`, `Descriptors.dfy` - block gathering, names, descriptor tables.
- `Grep.dfy`, `Audio.dfy` - the two buffered consumers of files.
- `Blink.dfy` - the linked list in a fixed pool and its tick loop.
- `Numbers.dfy` - number formatting. `Common.dfy` - what the components share.

Interrupts are off inside the handlers, so each handler is one step. A saved stack
position is a token that records the process id, its life (how often that id has
been started) and the moment it was saved.

## What turned out not to hold

Several promises hold only under a condition. The model keeps the code as it is and
states the exact condition:

- The overflow counter has eight bits; screen and buffer agree up to 382 pending
  characters and part at the 383rd (`LineEditor.CountsAgreeIffLineFits`).
- Backspace at the start of a line that still has a prompt column - right after Enter,
  or after a print that ends in a newline, such as the line that every terminal read
  prints - sends the cursor to column -1 (`LineEditor.BackspaceStaysOnScreenIff`) and
  blanks the last cell of the row above; from the top row it writes in front of the
  video page (`LineEditor.BackspaceWritesOnPageIff`). A prompt that wrapped can be
  erased (`LineEditor.PromptIsSafeIff`).
- A pending line that holds a NUL is cut by a terminal switch, because keys are
  copied as strings (`Desks.SwitchIsInvisibleIff`, `Desks.NulCutsTheLine`). An empty write moves the
  backspace column in the background only (`Desks.BackgroundWriteCommutesIff`).
- `execute`, and `halt` of a terminal's root process, put the new process on the
  terminal on display, not on the running one, and so break the process state when
  the two differ (`Processes.ExecuteKeepsSaneIff`, `Processes.HaltKeepsSaneIff`; a run
  that gets there is in `Processes.ShowAndReturnBreaks`).
- `open` of an entry of unknown type fails but keeps the slot
  (`Descriptors.FailedOpenIsHarmlessIff`).
- The text search finds what a search of the whole lines finds under exactly one
  condition (`Grep.BufferedSearchIsExactIff`), which three things can break: it cuts
  lines into pieces of 1024 bytes; its pattern is a signed `char`, so that a pattern
  that begins with a byte above 127 finds nothing (`Grep.HighBytesAreMissed`); and if
  the byte behind its uninitialised buffer happens to be a newline, the first full
  buffer that does not end at a newline is cut there as well
  (`Grep.StaleNewlineLosesALine`).
- The last block of a piece of music of at least 64 KB is read but never heard
  (`Audio.WholeFileButLastBlockIsHeard`).
- Each start of a playback opens a descriptor in the calling process, which the driver
  never closes (`Audio.Sb16.PlayMusic`).
- A character at location 0 of the screen leaves its slot looking free
  (`Blink.AddKeepsPoolIff`). Removing a blinking character does not redraw one below
  it: the screen goes on showing the removed one, which is right exactly if both stand
  at the same character (`Blink.RemovedNodeStaysShownIff`), until the other's next
  toggle (`Blink.LonerIsShownInTime`).

Where comments and code disagree the model follows the code: saving a screen copies
24 rows although its comment says 25 (student-distrib/lib.c:867-881), reading the
last inode of an image is an error (student-distrib/filesystem.c:158), and
`switch_to_terminal` also returns -1 when no process is free
(student-distrib/terminal.c:182-184).

## Model

| member | source | states |
|---|---|---|
| `Display.ScrollUp` | student-distrib/lib.c:312-329 | a scroll is exactly the rows moved up by one and a blank last row |
| `Display.WindowOfPutChar` | student-distrib/lib.c:204-233 | on an endless tape of rows that is never scrolled, a character is a write at one place; wrapping and scrolling of the screen only move the 24-row window over that tape |
| `Display.WindowOfNewLine` | student-distrib/lib.c:288-329 | a newline, with its correction right after a wrap, is a move to the next row start on the tape, again seen through the window |
| `Display.LineEndMovesOn` | student-distrib/lib.c:288-329 | a newline or carriage return changes no cell of the tape, goes to the first row start behind the cursor or stays on a row just wrapped to, and feeds one blank row exactly when the cursor was on the last row |
| `Display.ScreenIsWindowOfTape` | student-distrib/lib.c:185-235 | for every text on every safe screen the result is the last 24 rows of the tape, and what was printed before is never altered on it |
| `Display.PrintedTextIsOnTheTape` | student-distrib/lib.c:198-235 | a text without newlines stands byte for byte behind the old cursor, whatever wraps and scrolls it caused |
| `LineEditor.BackspaceStaysOnScreenIff` | student-distrib/lib.c:380-398 | on every terminal, backspace keeps the cursor on the screen if and only if the cursor is not at the start of a first row that has a prompt column; there it goes to column -1 |
| `LineEditor.EraseMoves` | student-distrib/lib.c:380-398 | as long as it stays on the screen, backspace moves the cursor to that column, blanks exactly the cell in front of the cursor - be it on the row above - and takes one character off the counts, or does nothing at the prompt |
| `LineEditor.BackspaceWritesOnPageIff` | student-distrib/lib.c:388-396 | the cell it blanks lies on the page if and only if the cursor is not left of its prompt on the top row |
| `LineEditor.NewlineReachesBeforePrompt` | student-distrib/lib.c:288-303 | Enter, and any print that ends in a newline, leads there exactly when a prompt column is set |
| `LineEditor.EnterOnTape` | student-distrib/keyboard.c:137-142 | on every terminal Enter leaves the text as it is; the cursor goes to the start of the next row, or of the row just wrapped to, the screen moves up by at most one row, the prompt column stays |
| `LineEditor.TypingStaysOnScreen` | student-distrib/keyboard.c:137-165 | no run of character keys and backspaces, however long, leads there from a cursor that is not left of its prompt |
| `LineEditor.BackspaceAtPrompt` | student-distrib/lib.c:380-383 | with nothing pending, backspace leaves the prompt alone if and only if the prompt did not wrap |
| `LineEditor.PromptIsSafeIff` | student-distrib/lib.c:198-235 | a prompt printed by a write cannot be erased if and only if no wrap was counted before and it fits its row |
| `LineEditor.CharKeepsEditing` | student-distrib/keyboard.c:233-252 | typing a character keeps screen, wrap counter, key buffer and overflow counter in agreement about one pending line |
| `LineEditor.EraseKeepsEditing` | student-distrib/lib.c:380-398 | backspace takes the last character off that line, across row boundaries too, and nothing else |
| `LineEditor.RunKeepsEditing` | student-distrib/keyboard.c:137-165 | any run of character keys and backspaces from a fresh prompt with at most 382 characters pending keeps that agreement |
| `LineEditor.WhatYouSeeIsTheLine` | student-distrib/lib.c:198-235 | after such a run the counts agree (80*row_stack + x - column_stack = pending = stored + overflow), the screen shows exactly the pending line from its start to the cursor, everything above is what it was, and the buffer holds the first 127 characters |
| `LineEditor.WhatYouSeeIsWhatYouSubmit` | student-distrib/keyboard.c:137-142 | Enter submits the line on the screen and a newline, cut to 127 characters |
| `LineEditor.EnterLeavesTheLine` | student-distrib/keyboard.c:137-142 | Enter after any such run leaves the typed line where it is, with the cursor at the first row start behind it |
| `LineEditor.CountsAgreeIffLineFits` | student-distrib/lib.c:801-829 | screen count and buffer count agree at every moment of a run if and only if the run never has more than 382 characters pending |
| `LineEditor.CounterWraps` | student-distrib/lib.c:801-808 | the 383rd character wraps the 8-bit overflow counter and the counts part by 256 |
| `Desks.UpToNulAt` | student-distrib/lib.c:724-735 | which byte `strncpy` puts where: the source byte up to the first NUL, zero from there on |
| `Desks.ParkingKeepsKeysIff` | student-distrib/terminal.c:232-277 | saving and restoring the key buffer keeps it if and only if no character follows a NUL in it; a second round trip changes nothing more |
| `Desks.SwitchIsInvisibleIff` | student-distrib/terminal.c:213-277 | a switch changes nothing but which terminal is on display if and only if both pending lines survive the string copies |
| `Desks.NulCutsTheLine` | student-distrib/terminal.c:232-277 | a run that gets there: F1 and `a` typed on an empty line, away and back, leave two NULs |
| `Desks.BackgroundWriteCommutesIff` | student-distrib/terminal.c:64-91 | background write then switch equals switch then foreground write - rows, attributes, cursor, both stacks - for every text but the empty one, and for that exactly when the backspace column is at the cursor |
| `Desks.TerminalsAreIsolated` | student-distrib/terminal.c:213-277 | for every run that stays on the screen, of writes, kernel prints, any keys, reads and switches, each terminal ends as if it had been alone with its own operations and a string copy of its keys each time it is shown or put aside |
| `Desks.SwitchesGoUnnoticed` | student-distrib/terminal.c:213-277 | and as if it had never been switched away from, as long as no key types a NUL |
| `Desks.OutputKeepsPendingLines` | student-distrib/terminal.c:64-91 | over every run of program output, kernel prints and switches no pending line and no overflow count changes, if no character follows a NUL |
| `Desks.ColumnStays` | student-distrib/lib.c:855-857 | over every run without a terminal's own output and without Ctrl-L its backspace column stays |
| `Desks.WriteMovesColumn` | student-distrib/terminal.c:64-91 | a program's output puts that column at the cursor |
| `Desks.TakeOnlyEmptiesTheLine` | student-distrib/terminal.c:45-55 | a read empties the line of the terminal on display and changes nothing else, on no terminal |
| `Desks.RepromptedScreen` | student-distrib/keyboard.c:185-193 | after Ctrl-L every cell is blank but for the prompt in the first row, cursor and backspace column are behind it, and what was typed is still pending |
| `Desks.PromptIsSpelled` | student-distrib/keyboard.c:190-190 | the prompt |
| `Desks.BootedTerminal` | student-distrib/terminal.c:106-146 | after boot every terminal is blank in its own colours, with nothing typed |
| `Desks.Colours` | student-distrib/lib.c:9-22 | background and foreground of the three terminals |
| `Desks.AwayAndBackIff` | student-distrib/terminal.c:213-277 | switching away, doing anything there and switching back restores the whole terminal if and only if no character follows a NUL in its pending line |
| `Consoles.Console.Putc` | student-distrib/lib.c:198-235 | the code on video memory computes the byte-level screen function and writes nothing below the 24 rows, so never the status bar |
| `Consoles.Console.PutcTerminal` | student-distrib/lib.c:243-281 | the duplicated background code computes the same screen function on the saved page and record, and touches no other terminal |
| `Consoles.Console.EnterHandler` | student-distrib/lib.c:288-329 | newline in place, both the scrolling and the moving branch |
| `Consoles.Console.EnterHandlerTerminal` | student-distrib/lib.c:331-371 | the background copy of it |
| `Consoles.Console.ScrollPage` | student-distrib/lib.c:221-228 | both copy lengths, 23 rows and 24 rows, give the same scroll; in the second the status bar row is copied in and blanked at once |
| `Consoles.Console.BackspaceHandler` | student-distrib/lib.c:380-398 | all three branches in place: the column is always the stated one; in line, screen and key buffer are those of the value model; left of the prompt below the top row, the cursor is at column -1, exactly the last cell of the row above is blank and the buffer has lost a character |
| `Consoles.Console.KeyBackspace` | student-distrib/keyboard.c:145-147 | the console stays one that its history explains if and only if the cursor was not left of its prompt |
| `Consoles.Console.KeyArrPush` | student-distrib/lib.c:801-808 | store below 127 characters, else count, modulo 256 |
| `Consoles.Console.KeyArrPop` | student-distrib/lib.c:818-829 | take back the overflow first, then the stored characters, never below empty |
| `Consoles.Console.CopyCells` | student-distrib/lib.c:868-881 | a front-to-back copy within the video and saved pages moves exactly the named cells |
| `Consoles.Console.Strncpy` | student-distrib/lib.c:724-735 | the destination holds the source up to its first NUL and zeros behind; nothing else changes |
| `Consoles.Console.SaveTerminalInfo` | student-distrib/terminal.c:232-250 | the terminal on display is stored in record, key array and page; the other two stored terminals stay |
| `Consoles.Console.RestoreTerminalInfo` | student-distrib/terminal.c:260-277 | the stored terminal is on display, its keys through the string copy; status bar and saved pages untouched |
| `Consoles.Console.SwitchToTerminal` | student-distrib/terminal.c:165-221 | return code, refusal text and the new state of all three terminals, for every terminal id |
| `Consoles.SwitchOpShows` | student-distrib/terminal.c:165-221 | what that switch does to the terminals: a terminal that can be shown is, for another one only the refusal is printed, on the terminal on display |
| `Consoles.Console.TerminalWrite` | student-distrib/terminal.c:64-91 | foreground and background write as one operation on the desk, and the error for a foreign id |
| `Consoles.Console.TerminalRead` | student-distrib/terminal.c:29-56 | the number of the terminal is printed on it, the reader gets the buffer up to `nbytes` and a NUL, and the buffer is empty |
| `Consoles.Console.Clear` | student-distrib/lib.c:38-53 | 24 blank rows in the terminal's colour and the bar with this terminal highlighted |
| `Consoles.BarNamesTerminals` | student-distrib/lib.c:23-26 | the bar spells `TERMINAL 1` to `TERMINAL 3` at the three highlight positions, from left to right, and is blank elsewhere |
| `Consoles.HighlightNamesTerminal` | student-distrib/lib.c:36-52 | exactly the cells that name the terminal on display are highlighted |
| `Consoles.TidLineIsSpelled` | student-distrib/terminal.c:40-40 | the line a read prints |
| `Consoles.Console.InitTerminals` | student-distrib/terminal.c:106-145 | three blank terminals, the first on display |
| `Consoles.Console.EveryTerminalIsIsolated` | student-distrib/terminal.c:213-277 | in every state the in-place code can reach, each terminal is as if it had been alone |
| `Keyboards.CaseOfKeys` | student-distrib/keyboard.c:233-248 | letters are capitals exactly when one of shift and caps lock is on; all other keys depend on shift alone |
| `Keyboards.RowsAreSpelled` | student-distrib/keyboard.c:14-41 | the four rows of character keys, without and with shift |
| `Keyboards.OtherKeys` | student-distrib/keyboard.c:14-41 | tab, Enter, backslash and space are the only other codes with a character |
| `Keyboards.ModifiersAreHeld` | student-distrib/keyboard.c:109-155 | over every run of scan codes: shift, Ctrl and Alt are held if and only if the last of their codes was a press, both shift keys counting as one, and caps lock is toggled by each press |
| `Keyboards.ActionsOfCodes` | student-distrib/keyboard.c:91-252 | which code, with which modifiers, causes each action, in both directions; release codes do nothing |
| `Keyboards.NulIsTypedOnlyByF1` | student-distrib/keyboard.c:208-248 | a NUL is pushed only by F1 without Alt |
| `Keyboards.Keyboard.KeyboardHandler` | student-distrib/keyboard.c:91-172 | for every scan code: the modifier flags, `enter_state`, the one operation of the terminals that follows, the switch of display and processes for Alt-F1 to F3, and that console and kernel stay in order, but for backspace left of the prompt |
| `Keyboards.Keyboard.InputHandler` | student-distrib/keyboard.c:182-252 | Ctrl-L, Ctrl-C, Alt-F1 to F3, ignored keys and characters act on console and processes as the action of their scan code says |
| `Keyboards.OneOperationEach` | student-distrib/keyboard.c:91-252 | each action is at most one operation of the terminals, and which |
| `Keyboards.ActedAddsOps` | student-distrib/keyboard.c:91-252 | that action adds at most one operation to the history of the terminals, and touches the processes only by showing a terminal, which it can exactly if one runs there or a process is free |
| `Keyboards.ScanCodesPressKeys` | student-distrib/keyboard.c:91-172 | a run of editing scan codes does to the terminal on display what the keys it spells do, and never leaves the screen |
| `Keyboards.TypedLineIsDelivered` | student-distrib/terminal.c:45-55 | from scan codes to the bytes a read of any size returns: what the keys spell, newline included, cut to 127 characters and to the size asked for |
| `Processes.ExecuteKeepsSaneIff` | student-distrib/syscall.c:191-236 | `execute` keeps all copies of the process state in agreement if and only if it changes nothing or the running terminal is on display |
| `Processes.FailedExecuteIsHarmless` | student-distrib/syscall.c:191-200 | a call for no executable, or with all ids on the stacks, changes nothing, in every state |
| `Processes.ExecuteStarts` | student-distrib/syscall.c:191-277 | one that succeeds puts the lowest free id on top of the terminal on display, with a PCB that names the process below; other stacks, PCBs and terminals stay |
| `Processes.HaltKeepsSaneIff` | student-distrib/syscall.c:32-89 | `halt` does so if and only if the process is no terminal's root or its terminal is on display (the new shell goes to the terminal on display) |
| `Processes.HaltReturnsBelow` | student-distrib/syscall.c:44-48 | above a root, `halt` returns to the process just below, in its present life, to where it executed the one that halts |
| `Processes.HaltPopsOnlyTheTop` | student-distrib/syscall.c:44-66 | and apart from page and TSS, which go to that process, only its own stack changes |
| `Processes.HaltReplacesRoot` | student-distrib/syscall.c:68-72 | the root of the terminal on display is replaced by a shell with the lowest id then free; nothing else changes |
| `Processes.ShowAndReturnBreaks` | student-distrib/syscall.c:70-72 | the other half is reached: after boot, showing terminal 1 and terminal 0 again, the next `execute` and the next `halt` both break the agreement |
| `Processes.SwitchKeepsSane` | student-distrib/terminal.c:165-221 | every terminal switch, also one that starts a shell, keeps the agreement |
| `Processes.RefusedSwitchIsHarmless` | student-distrib/terminal.c:165-185 | a switch that is refused, or to the terminal on display, changes nothing |
| `Processes.ShowOnlyShows` | student-distrib/terminal.c:213-220 | showing a terminal that runs changes only what is on display |
| `Processes.OpenStartsShell` | student-distrib/terminal.c:181-209 | showing another one starts one shell there, which runs, and saves the context of the process that had the processor; nothing else changes |
| `Processes.TickKeepsSane` | student-distrib/scheduling.c:45-91 | every timer tick does, and the next process always has a context to load |
| `Processes.BootIsSane` | student-distrib/terminal.c:114-148 | the first shell on empty stacks is such a state |
| `Processes.RunsStaySaneIff` | student-distrib/syscall.c:32-89 | over whole runs: agreement holds in every state along a run if and only if each call was made under its guard |
| `Processes.CountsAddUp` | student-distrib/syscall.c:54-56 | the three counts add up to the number of process ids in use, which is at most 6, and below 6 while one is free |
| `Processes.RoomOnEveryStack` | student-distrib/syscall.c:226-231 | while a process id is free no terminal row is full |
| `Processes.TickResumes` | student-distrib/scheduling.c:45-91 | a tick resumes the next started terminal's top process in its present life, at the point where it lost the processor, with its page and kernel stack, on the real screen exactly if its terminal is on display |
| `Processes.TickGoesToFirst` | student-distrib/scheduling.c:48-55 | in every sane state with a second terminal started, the terminal that runs after a tick is the first started one going up from the one that ran, and round |
| `Processes.TickOnlyTurns` | student-distrib/scheduling.c:45-91 | a tick changes no stack, no parent and nothing on display, and of the PCBs only the saved context of the process that had the processor |
| `Processes.TickOfOneTerminal` | student-distrib/scheduling.c:45-47 | with one terminal started it changes nothing |
| `Processes.LandingsRotate` | student-distrib/scheduling.c:48-55 | while no terminal starts, the terminals that get the processor are the started ones in cyclic order, whatever else happens in between |
| `Processes.LandingsGoRound` | student-distrib/scheduling.c:48-55 | every landing of such a run is the first started terminal going up, and round, from the landing before |
| `Processes.LandingsCountUp` | student-distrib/scheduling.c:48-55 | with all three started the i-th landing is terminal (r + 1 + i) mod 3 |
| `Processes.EveryTerminalGetsItsTurn` | student-distrib/scheduling.c:48-55 | each started terminal runs within as many ticks as there are started terminals |
| `Processes.TurnsRepeat` | student-distrib/scheduling.c:48-55 | and the order of turns repeats with that period |
| `Processes.PcbBaseIsAddress` | student-distrib/lib.c:944-964 | the six PCBs are at the addresses of the formula, and `esp0` lies in the same 8 KB |
| `Processes.StackTopIsLastWord` | student-distrib/syscall.c:277-277 | it is the last word of the process's own 8 KB, at whose other end is its PCB |
| `Processes.SaneEsp0` | student-distrib/syscall.c:48-56 | in every sane state `esp0` is that word for the process on top of the running terminal |
| `Processes.MaskFindsPcb` | student-distrib/lib.c:944-960 | a stack pointer masked with `PCB_MASK` is the address of the PCB at the bottom of the 8 KB stack it lies in, and no other |
| `Kernels.Kernel.GetPid` | student-distrib/syscall.c:587-595 | the lowest free process id, or -1 |
| `Kernels.Kernel.GetTerminalId` | student-distrib/syscall.c:604-615 | although it scans all 18 cells, the terminal that holds a live process id, and 0x3F for any id not in use |
| `Kernels.Kernel.PushPid` | student-distrib/syscall.c:226-231 | one row grows by the id, the cells above every count stay 0 |
| `Kernels.Kernel.PopPid` | student-distrib/syscall.c:55-56 | one row shrinks, the freed cell is 0 again |
| `Kernels.Kernel.Execute` | student-distrib/syscall.c:191-277 | table, rows, counts, PCB, page tables, `esp0` and return code after success; a call that returns -1 leaves every array and register as it was |
| `Kernels.Kernel.Halt` | student-distrib/syscall.c:32-89 | the same for `halt`, with the respawn or the return to the parent's saved stack position |
| `Kernels.Kernel.SwitchToTerminal` | student-distrib/terminal.c:165-221 | the same for a switch, which saves the outgoing context before it starts a shell |
| `Kernels.Kernel.NextTerminal` | student-distrib/scheduling.c:48-55 | the loop finds the first started terminal going up from the running one, and round |
| `Kernels.Kernel.PitHandler` | student-distrib/scheduling.c:45-91 | the whole state after a tick, page tables included; the bail-out for ids above 5 is never taken |
| `Kernels.Kernel.constructor` | student-distrib/terminal.c:106-148 | the page tables are set up and the state after boot is sane, with process 0 alone on terminal 0 |
| `Kernels.Kernel.ProgramWindow` | student-distrib/syscall.c:202-202 | in every sane state, read by the page walk, the program window is the frame of the process on top of the running terminal's stack |
| `Kernels.Kernel.VideoWindow` | student-distrib/scheduling.c:76-76 | in the state a tick leaves, the user's video page is the real screen if and only if the running terminal is on display, else that terminal's buffer |
| `Kernels.Kernel.InterruptStack` | student-distrib/syscall.c:277-277 | in every sane state the `esp0` in place is the last word of the running process's kernel stack, its PCB at the other end |
| `Machines.Machine.SwitchToTerminal` | student-distrib/terminal.c:165-221 | display and processes switch together, or neither does, the refusal is printed and -1 returned: exactly when the terminal does not run and no process is free, or there is no such terminal; both keep the same number of the terminal on display |
| `Machines.Machine.TerminalWrite` | student-distrib/terminal.c:64-91 | the process that has the processor always finds its own terminal and writes there |
| `Machines.UserVideoIsSavedPage` | student-distrib/paging.c:253-283 | the page mapped for a background terminal's user is the one on which the console draws for it; the pages do not overlap |
| `Machines.Machine.Execute` | student-distrib/syscall.c:191-277 | console and kernel stay in order if and only if the call changes nothing or the running terminal is on display; the terminals are untouched |
| `Machines.Machine.Halt` | student-distrib/syscall.c:32-89 | always possible; in order if and only if a process remains on the terminal or it is on display |
| `Machines.Machine.PitHandler` | student-distrib/scheduling.c:45-91 | always has a context to load and always keeps both in order |
| `Machines.Machine.KeyBackspace` | student-distrib/keyboard.c:145-147 | in order if and only if the cursor was not left of its prompt; the processes are untouched either way |
| `Paging.WalkIsTranslation` | student-distrib/paging.c:14-59 | read by the processor's page walk, the tables translate every one of the 2^32 addresses exactly as the intended address space says, faults included |
| `Paging.AddressSpacesAreIsolated` | student-distrib/paging.c:69-283 | after any run of mapping calls user code reaches its own frame at 128 MB and one page at 208 MB and nothing else, never the kernel; kernel and video pages keep their addresses |
| `Paging.PageTables.UserReach` | student-distrib/paging.c:132-283 | the same for the arrays in place, in every state the mapping calls can reach |
| `Paging.ProgramsAreApart` | student-distrib/paging.c:214-231 | under the mappings of two processes no address leads to the same memory |
| `Paging.RunningProgramIsMapped` | student-distrib/syscall.c:202-202 | where the entries are those of a sane process state, the program window is the running process's own frame |
| `Paging.TickMapsTheTerminal` | student-distrib/scheduling.c:76-76 | where they are those of a state right after a tick, the user's video page is the running terminal's, real or saved |
| `Paging.PageTables.InitPage` | student-distrib/paging.c:14-37 | the two loops and three calls leave tables that hold the boot layout |
| `Paging.PageTables.MapProgram` | student-distrib/paging.c:214-231 | only the program window changes |
| `Paging.PageTables.MapUserVideo` | student-distrib/paging.c:132-162 | only the user video page changes, to the real screen |
| `Paging.PageTables.MapTerminalVideo` | student-distrib/paging.c:253-283 | only the user video page changes, to that terminal's buffer |
| `Paging.PageTables.MapUserVideoToBuffer` | student-distrib/paging.c:176-184 | the choice between the two |
| `FileSystem.ContentIgnoresPlacement` | student-distrib/filesystem.c:171-225 | two files with the same bytes in their blocks have the same content wherever the blocks sit |
| `FileSystem.ContentAt` | student-distrib/filesystem.c:171-192 | byte p of a file is byte p mod 4096 of the block whose number is entry p / 4096 of its index node |
| `FileSystem.ContentInBlock` | student-distrib/filesystem.c:171-192 | a range within one block of the content is that range of that block |
| `FileSystem.ReadLengthIsGreatest` | student-distrib/filesystem.c:158-172 | what a read returns is the greatest count within what was asked for and what is there |
| `FileSystem.ReadData` | student-distrib/filesystem.c:144-228 | the gather loop returns min(length, size - offset), 0 at or past the end, -1 for a bad inode, and the buffer holds exactly that slice of the file with every other byte unchanged |
| `Descriptors.ReadDentryByName` | student-distrib/filesystem.c:57-91 | the first entry whose name field spells the name; names that are too long match nothing |
| `Descriptors.LookupIsFirst` | student-distrib/filesystem.c:57-91 | that is the first one |
| `Descriptors.NoLongName` | student-distrib/filesystem.c:57-91 | a name of more than 32 bytes matches nothing |
| `Descriptors.OpenTakesLowestSlot` | student-distrib/syscall.c:410-423 | a successful `open` takes the lowest free slot of 2..7 at position 0 and touches no other |
| `Descriptors.OpenDescribesTheFile` | student-distrib/syscall.c:425-446 | it succeeds if and only if the name exists with a known type and a slot is free; the slot then has position 0, the inode of that name and the operations of its type |
| `Descriptors.CloseOnlyFreesTheSlot` | student-distrib/syscall.c:468-484 | `close` succeeds if and only if the slot is one of 2..7 in use, frees it and changes nothing else |
| `Descriptors.ReadMovesOnlyItsPosition` | student-distrib/syscall.c:322-340 | a read moves the position of its own descriptor by the bytes it returns and no other |
| `Descriptors.FailedOpenIsHarmlessIff` | student-distrib/syscall.c:410-446 | a failed `open` changes nothing if and only if the name was missing or no slot was free; an entry of unknown type costs a slot |
| `Descriptors.UnknownTypeCostsASlot` | student-distrib/syscall.c:443-446 | a directory of one entry of type 3 is such a case |
| `Descriptors.StreamsArePrefixes` | student-distrib/syscall.c:322-340 | under any interleaving of opens, reads of any sizes and closes, what each descriptor has returned since its open is a prefix of its file; descriptors 0 and 1 are never freed |
| `Descriptors.StreamsFollowNames` | student-distrib/syscall.c:322-453 | under any such interleaving, the file is the one of the name under which the descriptor was last opened |
| `Descriptors.EmptyReadMeansComplete` | student-distrib/filesystem.c:385-405 | and it is the whole file once a read of at least one byte returns nothing |
| `Descriptors.Process.OpenFile` | student-distrib/syscall.c:392-453 | the descriptor table and return code of `open`, every branch |
| `Descriptors.Process.ReadFile` | student-distrib/syscall.c:322-340 | the bytes, the count, the moved position, and the error cases |
| `Descriptors.Process.CloseFile` | student-distrib/syscall.c:468-484 | the descriptor table and return code of `close` |
| `Grep.BufferedSearchIsExactIff` | syscalls/ece391grep.c:20-60 | for every file, cut and pattern, what is found is what a search of the whole lines for the pattern finds if and only if: for a pattern the program can look for, no line of more than 1024 bytes contains it, and neither does a line that the cut goes through; for any other pattern, no line contains it |
| `Grep.LinesAreTheText` | syscalls/ece391grep.c:20-60 | the lines this speaks of, each with its newline, are the text again |
| `Grep.HitsAreThoseThatPass` | syscalls/ece391grep.c:40-51 | and the hits are the lines that contain the pattern, once each, in file order |
| `Grep.HighBytesAreMissed` | syscalls/ece391grep.c:43-44 | a file and a pattern that begins with a byte above 127: the line contains it and nothing is found |
| `Grep.CutIsHarmlessIff` | syscalls/ece391grep.c:33-41 | a newline lying behind the buffer cuts one line in two; the result is the same exactly if the cut is at the end of that line or the line lacks the pattern |
| `Grep.FirstCutIff` | syscalls/ece391grep.c:33-56 | where that cut is: behind the first full buffer that does not end at a newline, and nowhere if there is none |
| `Grep.StaleNewlineLosesALine` | syscalls/ece391grep.c:13-13 | 1025 bytes for which the byte behind the uninitialised buffer decides whether a line is found |
| `Grep.BufferedPiece` | syscalls/ece391grep.c:29-57 | the line found in the buffer is the next piece of the file whatever its position relative to the refills |
| `Grep.SearchLine` | syscalls/ece391grep.c:40-51 | finds a line if and only if the pattern occurs in it |
| `Grep.Strncmp` | syscalls/ece391support.c:33-46 | equality with the pattern at one position, the empty pattern included |
| `Grep.ShiftDown` | syscalls/ece391grep.c:36-36 | the overlapping string copy moves the unfinished line to the front |
| `Grep.SearchBuffer` | syscalls/ece391grep.c:28-57 | every line that ends in the buffer is searched once, the unfinished one is kept |
| `Grep.SearchOpenFile` | syscalls/ece391grep.c:20-60 | the refill loop ends, having searched the whole file, whatever the uninitialised buffer held |
| `Grep.DoOneFile` | syscalls/ece391grep.c:10-66 | the complete output for every initial buffer: what the pieces of the file yield, in file order, once each, prefixed by the file name, which is the whole-line search whenever that is possible; or the failure text; for a name without a newline the output has one line for each hit, which is the name, a colon and the hit, and ends in a newline |
| `Grep.RenderListsHits` | syscalls/ece391grep.c:43-49 | why: reports do not run together |
| `Grep.FailuresAreSpelled` | syscalls/ece391grep.c:14-64 | the three failure texts |
| `Audio.DoubleBuffer` | student-distrib/sb16.c:268-293 | after n full interrupts the offset is n + 2 blocks, the halves hold blocks n and n + 1, block k in half k mod 2, and half n mod 2 is next |
| `Audio.RefillHitsPlayedHalf` | student-distrib/sb16.c:274-288 | a refill overwrites only the half whose block has just been played |
| `Audio.PartialRefillStays` | student-distrib/sb16.c:274-288 | a read that does not fill its half overwrites only its beginning and stays at that half |
| `Audio.PlaybackStops` | student-distrib/sb16.c:268-293 | playback goes on for exactly a number of interrupts computed from the file size, and the last one resets the driver |
| `Audio.HeardIsPrefix` | student-distrib/sb16.c:268-293 | what the card has played after n interrupts is the first n blocks of the file, in order |
| `Audio.WholeFileButLastBlockIsHeard` | student-distrib/sb16.c:280-290 | over a whole playback of at least 64 KB: everything but the last 1 to 32768 bytes, which `stop` cuts off |
| `Audio.ShortFileIsHalfHeard` | student-distrib/sb16.c:230-236 | of a shorter file one half is heard: its first 32768 bytes, or all of it followed by what the buffer held before |
| `Audio.Sb16.PlayMusic` | student-distrib/sb16.c:207-238 | return code, driver state and the caller's descriptor table for a missing file, a file without the magic number, a second start and a start, which opens a descriptor; files shorter than the magic number included |
| `Audio.Sb16.Sb16Handler` | student-distrib/sb16.c:268-293 | one interrupt on the real buffer: full, partial and empty read |
| `Blink.PhaseClosedForm` | fish/blink.S:49-99 | for all on and off lengths, a node that has seen n ticks is where n modulo its period says |
| `Blink.PhaseAdvances` | fish/blink.S:64-86 | one tick moves the closed form by one, and the status is on exactly in the first part of the period |
| `Blink.AddedNodeBlinks` | fish/blink.S:131-162 | so a node shows the two characters it was added with, each as long as asked, from its on character on |
| `Blink.CountStep` | fish/blink.S:64-66 | the signed 16-bit countdown: lengths of 0 or above 32768 last one tick |
| `Blink.AddKeepsPoolIff` | fish/blink.S:131-162 | adding keeps list and pool in agreement if and only if the location is not 0 |
| `Blink.RemovedNodeStaysShownIff` | fish/blink.S:214-222 | in every reachable state, at whatever ages: when the node that drew last at a location is removed, another node there is shown as it is if and only if both stand at the same character |
| `Blink.RemoveDoesNotRedraw` | fish/blink.S:214-222 | for instance two nodes added at a free location, the later one removed: the other is alone there, in a pool in order, and shown if and only if both have the same first character |
| `Blink.RemovedNodeLeavesItsCharacter` | fish/blink.S:214-222 | a concrete pool for that |
| `Blink.LonerDrewIff` | fish/blink.S:64-86 | a tick makes a node that is alone at its location the last to have drawn there exactly if it was before or has just toggled |
| `Blink.LonerIsShownInTime` | fish/blink.S:64-86 | so a node alone at its location, whatever was there before, is shown as it is at the latest when its longer length is over |
| `Blink.UnlinkChained` | fish/blink.S:206-222 | unlinking a node keeps the others in their order and the list acyclic |
| `Blink.BlinkList.Malloc` | fish/fish.c:160-170 | the first free slot, and failure if and only if all 2000 are live |
| `Blink.BlinkList.FindHelper` | fish/blink.S:351-379 | the most recently added node with that location, or none |
| `Blink.BlinkList.Add` | fish/blink.S:105-184 | refused exactly for a location off the screen or a full pool, then nothing changes; else the node is the new head, shown at once |
| `Blink.BlinkList.Remove` | fish/blink.S:187-237 | unlinks and frees exactly the node that was found, or changes nothing; the search for the link to it ends |
| `Blink.BlinkList.Tick` | fish/blink.S:49-99 | every live node counts down once, and only those; which nodes are the last to have drawn at their locations |
| `Blink.OnlyToggledAreDrawn` | fish/blink.S:64-86 | a tick draws only at the characters of nodes that toggle; every other byte of the screen stays |
| `Blink.ColoursStay` | fish/blink.S:64-86 | the colours always do |
| `Blink.BlinkList.NodeShowsItsPhase` | fish/blink.S:49-99 | in every reachable state the status is on exactly in the on part of the period, and a node that was the last to draw at its location is on the screen with the matching character |
| `Numbers.TextRoundTrip` | student-distrib/lib.c:459-487 | for every value and radix 2..36 reading the printed digits gives the value back, with a leading zero only for 0 |
| `Numbers.NumeralRoundTrip` | student-distrib/lib.c:459-487 | and printing what was read from a numeral gives the numeral back |
| `Numbers.DigitsAreSpelled` | student-distrib/lib.c:460-460 | the digits |
| `Numbers.WordFits` | student-distrib/lib.c:106-151 | a 32-bit number needs at most 32 digits, 10 from radix 10 and 8 from radix 16 on |
| `Numbers.Strrev` | student-distrib/lib.c:495-508 | the text is reversed in place, every other cell stays |
| `Numbers.Itoa` | student-distrib/lib.c:459-487 | the buffer holds the text and its NUL and is otherwise untouched; the user-space copy is the same loop |
| `Numbers.Unsigned` | student-distrib/lib.c:127-141 | what `%u` and `%x` print reads back as the value |
| `Numbers.Padded` | student-distrib/lib.c:115-125 | `%#x` always prints eight digits that read back as the value |
| `Numbers.Signed` | student-distrib/lib.c:142-157 | `%d` reads back as the value, with a minus sign exactly for negative values, down to the lowest |

## Left out

- Consoles.Console.KeyBackspace: backspace left of the prompt on the top row is excluded: the code then writes in front of the video page (`LineEditor.BackspaceWritesOnPageIff`). What later keys do to a cursor at column -1 is left out.
- Consoles.Console.BackspaceHandler: excluded for the same cursor as `KeyBackspace`.
- Machines.Machine.KeyBackspace: the same.
- Keyboards.Keyboard.KeyboardHandler: the backspace key is excluded at the same cursor.
- Keyboards.Keyboard.InputHandler: Ctrl-C's signal and `stop` are not part of this model. The flags come as a parameter, as they are when the key arrives.
- Desks.Step: for a backspace left of the prompt the value model, like `LineEditor.Press` and `Desks.Alone`, leaves the terminal as it is; the theorems about runs require that it does not occur (`Desks.OnScreen`), and no console method records it.
- Consoles.Console.SwitchToTerminal: whether the terminal can be shown is a parameter here, supplied by the process table in `Machines.Machine.SwitchToTerminal`; the text of the refusal is a parameter too, and the shell's own output is a later write.
- Consoles.Console.TerminalRead: starts when Enter has been pressed on the reader's terminal; the busy wait is not part of this model.
- Consoles.Console.Clear: cursor registers and other port output are left out everywhere.
- Desks.TerminalsAreIsolated: runs with a backspace that leaves the screen are excluded, see `Desks.Step`.
- Kernels.Kernel.Execute: parsing of arguments, the ELF check and the program load are one parameter, `loadable`; the shell's file is taken to exist.
- Kernels.Kernel.Halt: closing the descriptors of the halted process and the status code are left out.
- Kernels.Kernel.PitHandler: the processor's stack position is a parameter, signals are left out.
- Processes.TickResumes: contexts are tokens; the assembly that switches stacks is not modelled.
- Paging.PageTables.MapProgram: the entry is required to fit into 32 bits, which holds for every process id; `vidmap`'s mapping before the next tick and TLB flushes are left out.
- Paging.PageTables.InitPage: entries are sums of fields that never overlap, where the source joins them with `|`; CR0, CR3 and CR4 are left out; the two page tables' addresses are parameters, 4 KB aligned and different; the user video table starts out zero.
- FileSystem.ReadData: images whose block numbers or sizes are out of range are excluded by a precondition (the code's own checks are off by one there); an image has at least one inode.
- Descriptors.Process.ReadFile: only descriptors of regular files; reading a device or a directory is not part of this model.
- Descriptors.Process.OpenFile: the open functions of the three kinds, which always succeed, and the NULL file name are left out.
- Descriptors.StreamsArePrefixes: for directories without entries of unknown type and with well-formed files.
- Grep.DoOneFile: the file, its name and the pattern hold no NUL byte, and names are those of regular files or of none; output goes to a string.
- Audio.Sb16.PlayMusic: the DSP and DMA programming is left out, and an interrupt is taken to follow every block, also after a partial one.
- Audio.WholeFileButLastBlockIsHeard: for files of at least 64 KB; `Audio.ShortFileIsHalfHeard` covers the others.
- Blink.BlinkList.Add: location 0 is excluded, see `Blink.AddKeepsPoolIff`; the copy from the caller always succeeds.
- Numbers.Unsigned: the rest of `printf` (format scanning, `%c`, `%s`) is left out.
- The RTC driver, SYNC and FIND of the blink list, the frame loops of `fish`, signals, the other user programs, PIC, IDT, exceptions and boot code are not part of this model.
