# A Dafny model of zkz, an x86-64 Linux debugger

zkz sets software breakpoints in a traced process, steps and continues it, looks up source lines, and collects
symbols from a binary and the shared libraries it needs. This project models those parts and proves what they keep
and what they do.

## The breakpoint engine

A breakpoint patches **one** byte (`int3`, 0xcc), but the debugger reads, saves and writes back **eight** at a time.
Breakpoints that are close together therefore save, erase and bring back each other's `int3`. Breakpoints are also
one-shot: after a hit the saved word is written back and nothing plants `int3` again, yet the entry stays listed.

- `Words.dfy`: the words of ptrace as eight bytes, and the masks and the test the debugger applies to the little-endian
  number they stand for.
- `Machine.dfy`: code memory (a map, so that ptrace can fail on unmapped words), an arbitrary processor and kernel,
  a fetched `int3` trapping with rip one past it, single steps, free runs, and the *undebugged run* of a program on its
  own code: `RunAt(p, n)` is where it is after n micro-steps. It steps over an int3 of the program's own, as the program
  does under a debugger that passes no signal on; without one it would die of SIGTRAP there. A system call is two micro-steps, its entry and its
  completion, because PTRACE_SYSCALL stops at both.
- `Sessions.dfy`: what each command does, as functions on the state of a session (memory, process, cached registers,
  breakpoint table, flags, and the log of restored addresses that RestoreBreakpoint writes).
- `Breakpoints.dfy`, `Debugger.dfy`: the classes of the debugger, updated in place and step by step; the contract of
  every method equates the state it leaves with the function of `Sessions.dfy`.
- `Commands.dfy`, `Flags.dfy`: what single commands do to the whole session, for every table, and what the running flag
  and a crash tell over whole histories, on every processor.
- `Overlap.dfy`: any layout, no deletion. The debuggee is always where the undebugged run gets to.
- `Ahead.dfy`: any layout, with or without tracing. `MemAt` is memory as the undebugged run alone tells it, every hit on the
  way handled; from it follow where ContinueExecution stops, what it leaves in memory, and how an exit is reported.
- `HitBound.dfy`: a hit may bring breakpoints back, but only at higher addresses, so planted breakpoints count down like
  a binary number.
- `Separation.dfy`: breakpoints at least a word apart. Memory is accounted for under deletion and stepping.
- `Stopping.dfy`: the same stops read off memory as it is, with breakpoints a word apart or when no disabled one is hit
  before the first.
- `Deletion.dfy`: deletion in any layout. As long as no other entry has captured the int3 of the deleted one, the debuggee
  stays on the undebugged run; and if one has, restoring that entry leaves an int3 where nothing is listed, or at the very
  address restored (`DeletionSpoilsIff`). Nothing is claimed of a captured int3 that is never written back.
- `Stepping.dfy`: the stepping commands, their detection of hits, and how many instructions they execute.
- `Numbering.dfy`, `Undo.dfy`: breakpoint numbers over whole histories; deletion in reverse order; RemoveAllBreakpoints.
- `Histories.dfy`: sessions with every command; last-in-first-out order and word separation are the two easy ways to
  delete safely.
- `Outcomes.dfy`: what the return code of ContinueExecution says, for every program.
- `Deviations.dfy`, `Inputs.dfy`: what StepX does with disabled breakpoints, and command sequences on which the code does
  not do what its commands are for.

Assumptions, stated as preconditions: an instruction's length and effect depend on no code bytes but its own, and a
system call instruction has at least two (`WellFormed`); the program is not found inside a system call (`Assumed`); a
breakpoint is put where the original byte is not int3 and where no instruction of the run has the address strictly
inside it (`Placeable`). By its type, a processor does not write code and raises no signals but the trap of int3.

The commands of a session are placing, disabling, deleting, continuing and the two stepping commands; nothing in the
program calls RemoveAllBreakpoints, so it is modelled by itself. Disabling a number that the list does not find follows a
null pointer: the session is then `crashed`, and no command does anything any more.

`Blocked` is not a return code of the program: the debuggee may run for ever, so every run is watched for an arbitrary
amount `fuel` of time, and a command that has not returned by then is `Blocked`. All statements hold for every `fuel`.

## The symbol loader

`Libraries.dfy`, `Listing.dfy`, `Walks.dfy`, `Unfolding.dfy`, `Symbols.dfy` and `Loader.dfy` model the walk over DT_NEEDED dependencies (System V
gABI, chapter 5, "Dynamic Section" and "Shared Object Dependencies"). Files are sequences of sections. `Symbols.dfy`
is the loader itself: classes for the mapping, which every nested call replaces, and for the two lists; `Listing.dfy`
says which symbols it lists, read off the files alone. SearchForPath
compares pointers to freshly allocated buffers, so it never finds anything; it is meant to compare texts. The model has
both: `byText` false is the code as written, and `byText` true is the code as meant. Buffers are objects, so that the
comparison of pointers is a comparison of pointers here too. `Loader.dfy` starts it on a program and states what it has
searched and found.

## The two searches

`DebugLines.dfy` is the table of source lines, `FreeSpace.dfy` the search for a run of zero bytes.

## Where the code falls short of its purpose

- A listed breakpoint that has already been restored is taken for a hit again when single-stepped, if its instruction is
  one byte long: the instruction is executed a second time (`RoundMisled`, `RoundExactIff`, and by commands `ExecutedTwice`).
- A hit takes breakpoints at the seven addresses after it out of memory too, unless its entry saved their int3 when it
  was placed; they stay listed and enabled, but may never be hit (`NeighbourStays`, and by commands `NeighbourLost`).
- StepX handles a disabled breakpoint at rip - i, which is right only in the second round (`DisabledRound`,
  `DisabledRoundIff`, `DisabledPatched`, `DisabledUnmapped`, `DisabledFirstRound`, and by commands `SkippedByStepX`).
- Deleting a breakpoint that another one has captured lets a later restore leave a stray int3 (`DeletionSpoilsIff`,
  `CapturedComesBack`, and by commands `StrayInt3`).
- Numbers never recover from the deletion of an entry that is not the last, and the last entry may be out of reach: it
  cannot be deleted, and disabling it crashes the debugger (`NumberingNeverRecovers`, `OutOfReach`, `DisableCrashesIff`,
  `InteriorDeletionDuplicates`).
- RemoveAllBreakpoints removes the first half of the breakpoints (`RemoveAllRemovesHalf`, `RemoveAllRemovesAllIff`).
- SearchForPath never finds a path, so that the loader does not end on cyclic dependencies (`EndsIffAcyclic`, and on two files
  that need each other `MutualNeverEnds`).
- find_free_space returns 0 instead of the address it has found (`FindFreeSpace`, `ZeroIsTheAddressIff`,
  and on two bytes `AddressLost`).
- The tests of RestoreBreakpoint's result against `< -1` never hold: when the restoring step ends the process, an enabled
  hit is still reported with 0, and a disabled one with -1 (`ContinueExits`, and by commands `ExitThreeWays` and `ExitUnnoticed`).

## Model

| member | source | states |
|---|---|---|
| Words.RoundTrip | src/Debugger.cpp:139-147 | Words taken apart into bytes and put together again are the same words. |
| Words.PlantBytes | src/Debugger.cpp:146 | The mask and the or replace the byte at the lowest address by int3 and change no other byte. |
| Words.LooseTest | src/breakpoint.cpp:66 | `(data & 0xcc) == 0xcc` depends on the low byte only and never misses an int3. |
| Words.FailedPeekLooksPlanted | src/breakpoint.cpp:64-66 | A failed peek (-1 in a uint64_t) passes the test for a planted breakpoint. |
| Machine.PokePlant | src/Debugger.cpp:139-147 | Peek, mask and poke change exactly one byte of memory. |
| Machine.AdvanceIsSingleStep | src/Debugger.cpp:120-128 | A single step on unpatched code is one whole instruction of the undebugged run, a system call included. |
| Sessions.FindAddressFrom | src/breakpoint.cpp:114-123 | The lookup by address yields the first entry with it, or none. |
| Sessions.FindNumberFrom | src/breakpoint.cpp:57-58 | The lookup by number yields the first entry with it, or none. |
| Breakpoints.Tracee.PeekText | src/Debugger.cpp:139 | PTRACE_PEEKTEXT: the word, or all ones on failure. |
| Breakpoints.Tracee.PokeText | src/Debugger.cpp:147 | PTRACE_POKETEXT: writes eight bytes, and fails on a dead process or an unmapped word without changing anything. |
| Breakpoints.Breakpoint.DisableBreakpoint | include/breakpoint.h:40-43 | Only the enabled flag changes. |
| Breakpoints.BreakpointList.AppendElement | src/breakpoint.cpp:38-45 | The new entry goes last, enabled, numbered by the new size, in an object of its own. |
| Breakpoints.BreakpointList.RemoveElement | src/breakpoint.cpp:48-81 | Memory, table and return code after a deletion, with the guard on the number, the loose test and the failing poke. |
| Breakpoints.BreakpointList.GetElementByBreakpointNumber | src/breakpoint.cpp:95-111 | The first element with the number, but none at all for numbers above the size. |
| Breakpoints.BreakpointList.GetElementByAddress | src/breakpoint.cpp:114-123 | The first element with the address, or null. |
| Debugger.Main.WaitForProcess | src/Debugger.cpp:45-67 | Tells an exit from a stop, and clears the running flag on an exit. |
| Debugger.Main.RemoveAllBreakpoints | src/Debugger.cpp:69-77 | The loop against the shrinking list, as a function of the session before. |
| Debugger.Main.DisableBreakpoint | src/Debugger.cpp:79-90 | Disables the entry with the number in place, through the pointer that the list returns; a null pointer is followed all the same, and the debugger crashes. |
| Debugger.Main.RestoreBreakpoint | src/Debugger.cpp:96-135 | Memory, registers, process and return code after writing back a word, rewinding and stepping, every failure included. |
| Debugger.Main.PlaceBreakpoint | src/Debugger.cpp:137-155 | Memory, table and return code after a placement. |
| Debugger.Main.StepAuto | src/Debugger.cpp:157-202 | The loop, for every value of the outer ret that it reads without assigning it. |
| Debugger.Main.StepX | src/Debugger.cpp:204-251 | The loop, with the restore at rip - i in its disabled branch. |
| Debugger.Main.ContinueExecution | src/Debugger.cpp:253-356 | The state and the return code that its recursion leaves. |
| Commands.PlaceDoes | src/Debugger.cpp:137-155 | A placement writes one byte and appends an enabled entry numbered by the new size with the word read before, and nothing else changes; without a process or a mapped word it fails and changes nothing. |
| Commands.RemoveDoes | src/breakpoint.cpp:57-76 | In every table, deleting a number within the size that is there erases the first entry that has it, wherever it stands, and writes its word back exactly if the byte has the bits of 0xcc; if the word cannot be written it fails and changes nothing. |
| Commands.RemoveDoesNothing | src/breakpoint.cpp:50-53 | Deleting any other number changes nothing and returns 0. |
| Commands.DisableDoes | src/Debugger.cpp:79-90 | In every table, disabling a number that is found clears the flag of the first entry that has it, wherever it stands; its address, word and number, every other entry and the rest of the session stay as they are. |
| Commands.RestoreDoes | src/Debugger.cpp:96-135 | Handling a hit: log, memory, registers, process and running flag, which only the end of the process clears; without a process or a mapped word nothing but the log changes. |
| Commands.RestoreCode | src/Debugger.cpp:99-134 | It returns -1 if and only if a request failed, EXIT_STATUS if and only if its step ended the process, and 0 otherwise. |
| Flags.StartsAs | src/Debugger.cpp:1248-1267 | A session begins with a live process, the registers it has, no breakpoint and no flag but running. |
| Flags.RestoreTruthful | src/Debugger.cpp:96-135 | If the running flag tells whether there is a process, it still does after a hit has been handled. |
| Flags.ContinueTruthful | src/Debugger.cpp:253-356 | The same of ContinueExecution. |
| Flags.AlwaysTruthful | src/Debugger.cpp:45-67 | The same of every list of commands, on every processor. |
| Flags.TruthfulFromStart | src/Debugger.cpp:45-67 | So from the start the flag is set exactly while there is a process. |
| Flags.CrashesIff | src/Debugger.cpp:79-90 | A history crashes the debugger if and only if it disables a number that is not found. |
| Overlap.PlaceSound | src/Debugger.cpp:137-155 | In any layout, code differs from the original only by int3 at listed addresses, and each entry saved original bytes or the int3 of listed breakpoints, the entry an address is looked up as having saved its original byte: a placement keeps this. |
| Overlap.PokeSaved | src/Debugger.cpp:99 | Writing back the word that the first entry for an address saved gives the address its original byte, keeps the invariant, and brings back only listed breakpoints at the seven addresses after it. |
| Overlap.NeighbourStays | src/Debugger.cpp:99 | After entry i is restored, a breakpoint planted at one of the seven addresses after it is still planted if and only if entry i saved int3 there; it stays listed either way. |
| Overlap.FirstSavedOriginal | src/breakpoint.cpp:114-123 | The entry that an address is looked up as saved the true original byte. |
| Overlap.StepFollows | src/Debugger.cpp:120-128 | Where no int3 is in the way, patched code runs exactly as the original. |
| Overlap.SyscallStopUnlisted | src/Debugger.cpp:290-304 | A stop at the entry or the return of a system call is never taken for a breakpoint. |
| Overlap.RestoreFollows | src/Debugger.cpp:96-135 | Handling a hit executes exactly the original instruction at its address and keeps the invariant. |
| Overlap.FirstLeg | src/Debugger.cpp:253-356 | Every stop of ContinueExecution is one of five: out of time, exit, system call, the program's own int3, or a hit, with where the undebugged run is and what changed in each case. |
| Overlap.ContinueFollows | src/Debugger.cpp:253-356 | ContinueExecution takes the undebugged run forward and keeps the invariant in any layout; while it has not returned, the run has made at least as many micro-steps as time has been spent, so breakpoints never keep it from progress; and without tracing a return of 0 leaves it one instruction past an enabled breakpoint, in any layout. |
| Overlap.ContinueReturns | src/Debugger.cpp:253-356 | If the program exits within the time watched, ContinueExecution returns. |
| Overlap.Transparency | src/Debugger.cpp:96-155 | For any list of place, disable and continue commands with overlapping or duplicate addresses, registers, rip and data are those of the undebugged run at some later position. |
| Overlap.TransparencyFromStart | src/Debugger.cpp:96-155 | The same from the moment the program is attached to. |
| HitBound.WeightBelow | src/Debugger.cpp:96-103 | Planted breakpoints among n listed addresses weigh less than 2^n. |
| HitBound.HitLowers | src/Debugger.cpp:96-103 | A hit strictly lowers the binary number whose bits are the planted addresses, the lowest address being the highest bit. |
| HitBound.HitsBounded | src/Debugger.cpp:335-352 | One ContinueExecution handles at most 2^k - 1 hits with k distinct listed addresses, and so at most 2^n - 1 with n entries, in any layout and after any deletions that kept the invariant. |
| HitBound.HitsUntilNextPlacement | src/Debugger.cpp:335-352 | The same bound for all hits until the next placement or deletion, however often execution is continued. |
| HitBound.ApartHitsBounded | src/Debugger.cpp:335-352 | With breakpoints a word apart, hits so far plus breakpoints still planted stay constant, so each is hit at most once. |
| Separation.PlaceSeparate | src/Debugger.cpp:137-155 | A placement a word away from all others saves the original word and keeps memory accounted for. |
| Separation.PokeSeparate | src/Debugger.cpp:99 | With breakpoints a word apart, writing a saved word back resets its own address and no other byte. |
| Separation.RemoveRestores | src/breakpoint.cpp:60-74 | With breakpoints a word apart, a deletion resets exactly the entry's byte, whether the loose test was right or not. |
| Separation.InPlaceRound | src/Debugger.cpp:157-251 | A round of StepX is a round of StepAuto unless it handles a disabled breakpoint at another address than rip - 1. |
| Separation.MemoryConserved | src/breakpoint.cpp:48-81 | Under any interleaving of place, hit, step, disable and delete with placements a word apart, on any processor, every saved word is the original word and memory differs from the original only by int3 at listed addresses; StepX must meet disabled breakpoints in its second round only. |
| Ahead.MemAtSound | src/Debugger.cpp:96-135 | Memory along the run keeps the invariant in any layout. |
| Ahead.ContinueDecided | src/Debugger.cpp:253-356 | In any layout, ContinueExecution is decided by the first stop on the undebugged run: a breakpoint still planted there and enabled and, with tracing on, the border of a system call or an int3 of the program's own. It returns 0 right after it, with the system call flag telling which, and anything else only if there was none; and memory is what the run tells. |
| Ahead.FirstStopStops | src/Debugger.cpp:253-356 | Conversely, if the first stop lies within the time watched, that is where it returns 0. |
| Ahead.ContinueExits | src/Debugger.cpp:324-352 | In any layout, tracing or not, when ContinueExecution leaves the process exited, the last instruction of the undebugged run decides what it returns: EXIT_STATUS if no breakpoint was planted there any more, otherwise 0 if the first entry for it is enabled and -1 if it is disabled. |
| Ahead.OneLastInstruction | src/Debugger.cpp:96-135 | There is one such instruction, so that the return code is determined. |
| Ahead.ExitReported | src/Debugger.cpp:253-356 | So every exit is reported as that instruction says, and by -1 if the process was gone before. |
| Stopping.ApartTakesOut | src/Debugger.cpp:96-103 | With breakpoints a word apart, memory along the run lacks exactly the breakpoints that were executed. |
| Stopping.PlainSame | src/Debugger.cpp:318-353 | With breakpoints a word apart, or when every planted disabled one is executed only after a stop point, memory as it is shows the stop points up to and including the first. |
| Stopping.ContinueStops | src/Debugger.cpp:253-356 | In those two cases and with tracing off, a return of 0 means one instruction past the first planted and enabled breakpoint of memory as it is, any other return that there was none before; with breakpoints a word apart exactly those that were executed are gone from memory; and when no process is left, the return code is the one that the last instruction determines. |
| Stopping.StopPointStops | src/Debugger.cpp:253-356 | Conversely, if there is such a first breakpoint within the time watched, ContinueExecution returns 0 one instruction past it. |
| Stopping.ApartStillPlanted | src/Debugger.cpp:318-353 | With breakpoints a word apart, one is still planted when the program gets to it if and only if it is planted now and its address is not executed before. |
| Deletion.ErasedSoundIff | src/breakpoint.cpp:48-81 | Erasing an entry, in any layout, keeps the invariant if and only if no other entry has captured its int3: none saved it, unless other entries for the address remain, one of them before it if it is itself for that address. |
| Deletion.RemoveSoundIff | src/breakpoint.cpp:48-81 | The same for the command that deletes by number. |
| Deletion.DeletionSpoilsIff | src/Debugger.cpp:96-135 | What the guard means to RestoreBreakpoint: after an effective deletion, restoring any remaining entry leaves no int3 at an unlisted address nor at the address it restores, if and only if nobody has captured the deleted one. |
| Deletion.CapturedComesBack | src/Debugger.cpp:96-135 | The entry that captured is the one whose restore leaves int3 there. |
| Deletion.LastNotCaptured | src/breakpoint.cpp:48-81 | As long as entries saved the int3 of earlier entries only, the newest is safe to delete. |
| Deletion.ApartNotCaptured | src/breakpoint.cpp:48-81 | With breakpoints a word apart every entry is safe to delete. |
| Histories.SafeTransparency | src/Debugger.cpp:96-356 | For any list of commands, stepping included, whose placements are on instructions, whose deletions meet the guard and whose steps tell hits, the debuggee stays on the undebugged run. |
| Histories.ApartIsSafe | src/breakpoint.cpp:48-81 | Commands that keep breakpoints a word apart meet the guard of every deletion. |
| Histories.LastInFirstOutIsSafe | src/breakpoint.cpp:48-81 | So do, in any layout, commands that only ever delete the last entry. |
| Stepping.StepOutcome | src/Debugger.cpp:162-181 | A single step either traps on a planted breakpoint or is one instruction of the undebugged run. |
| Stepping.DetectionExact | src/Debugger.cpp:181-197 | After a step rip - 1 is listed if and only if a planted breakpoint was executed or the next instruction starts one byte past a listed address. |
| Stepping.TellsHitsIff | src/Debugger.cpp:181-197 | Only traps are taken for hits in a round if and only if a planted breakpoint is executed or the next instruction is not one byte past a listed address. |
| Stepping.RoundIsOneInstruction | src/Debugger.cpp:160-199 | In a round that tells hits StepAuto executes one instruction, trapped or not, and ends exactly at an enabled breakpoint or at an exit. |
| Stepping.RoundMisled | src/Debugger.cpp:181-197 | In one that does not, the word of the listed address goes back, the debuggee is taken back one byte and executes what is there, and the command ends if the entry is enabled. |
| Stepping.RoundExactIff | src/Debugger.cpp:160-199 | So a round is one instruction if and only if it tells hits or the instruction executed again leads to the same state. |
| Stepping.StepAutoFollows | src/Debugger.cpp:157-202 | In any layout, while hits are told, StepAuto executes as many instructions as it makes rounds, ends with 0 only one instruction past an enabled breakpoint, and makes only one round if the outer ret happens to hold EXIT_STATUS. |
| Stepping.ExactTells | src/Debugger.cpp:181-197 | Hits are told throughout if no instruction of the run starts one byte past a listed address. |
| Stepping.StepXFollows | src/Debugger.cpp:204-251 | In any layout, while hits are told and disabled breakpoints are met in the second round only, StepX executes one instruction a step, fewer than asked for only past an enabled breakpoint or without a process. |
| Stepping.StepAutoStops | src/Debugger.cpp:157-202 | In any layout, while hits are told, StepAuto executes instructions up to and including the first breakpoint of the undebugged run that is still planted there and enabled, and leaves memory as the run tells; an exit is told by EXIT_STATUS if the last instruction ran by itself, and by -1 if it was at a disabled breakpoint. |
| Stepping.StepXStops | src/Debugger.cpp:204-251 | In any layout, while hits are told, StepX(count) executes min(count, k + 1) instructions, k of them before that first breakpoint, unless the process exits; a planted disabled breakpoint may be met by its second step. |
| Stepping.StopsAfterPlainly | src/Debugger.cpp:157-202 | What StepAuto stops at can be read off memory as it is in the two cases of `Stopping.PlainSame`. |
| Stepping.StepsToPlainly | src/Debugger.cpp:204-251 | So can what StepX stops at. |
| Numbering.NumberingNeverRecovers | src/breakpoint.cpp:38-81 | Over every history, numbers are 1..n if and only if every deletion removed the last entry; after another one the list is never empty again. |
| Numbering.GapForever | src/breakpoint.cpp:38-81 | Once a number is ahead of its position, one always will be. |
| Numbering.NumbersBelowPeak | src/breakpoint.cpp:38-81 | No number exceeds the largest size the list has had. |
| Numbering.NumbersReach | src/breakpoint.cpp:48-111 | While numbers are 1..n, disabling and deleting number k act on the k-th entry and no other. |
| Numbering.DisableCrashesIff | src/Debugger.cpp:79-90 | Disabling a number crashes the debugger if and only if it is above the size or no entry has it. |
| Numbering.OutOfReach | src/breakpoint.cpp:50-53 | An entry whose number is above the size cannot be deleted, and disabling it crashes the debugger, after which nothing happens any more. |
| Numbering.InteriorDeletionDuplicates | src/breakpoint.cpp:38-81 | After an interior deletion the next placement repeats the last number, which then means the older entry. |
| Undo.RemoveUndoesPlace | src/breakpoint.cpp:60-76 | Deleting the breakpoint placed last restores the whole session, overlapping or not. |
| Undo.LifoUndo | src/breakpoint.cpp:48-81 | Placing any addresses and deleting their numbers in reverse order restores memory and table exactly. |
| Undo.LifoUndoPartly | src/breakpoint.cpp:48-81 | On the way down, the session passes through the states it had on the way up, with numbers 1..m in each. |
| Undo.RemoveAllRemovesHalf | src/Debugger.cpp:69-77 | From numbers 1..n, RemoveAllBreakpoints removes entries 1 to ceil(n/2) and leaves the rest. |
| Undo.RemoveAllRemovesAllIff | src/Debugger.cpp:69-77 | Whatever the numbers, it empties the table if and only if that is empty or holds a single entry with number 1. |
| Undo.RemoveAllLeaves | src/Debugger.cpp:69-77 | Whatever the numbers, the loop goes on up to the first number r with no more than r entries left and takes out the first entry with each number up to it, and nothing else. |
| Undo.RemoveAllFails | src/Debugger.cpp:69-77 | Without a process it changes nothing and fails if and only if it comes to a number that is there. |
| Undo.RemoveAllRestores | src/Debugger.cpp:69-77 | From numbers 1..n and with breakpoints a word apart, it restores exactly the removed ones. |
| Undo.DescendingRemovesAll | src/Debugger.cpp:69-77 | From numbers 1..n and with breakpoints a word apart, a loop that counts down would remove all of them and restore all memory. |
| Outcomes.ContinueExplained | src/Debugger.cpp:253-356 | For every program and session: 0 means an enabled hit after disabled ones, or with tracing on a stop that matches no breakpoint, in exactly which case the system call flag is set; EXIT_STATUS and -1 come after disabled hits only, -1 because the process was gone or went with the last of them; and the running flag is cleared whenever the process exits, whatever the code. |
| Deviations.DisabledRound | src/Debugger.cpp:240-243 | A disabled breakpoint met in round i of StepX has its word written to rip - i, and the debuggee is stepped from there; that is the breakpoint's own address if and only if i is 1. |
| Deviations.DisabledRoundIff | src/Debugger.cpp:204-251 | A round that meets a disabled breakpoint is one instruction of the undebugged run if and only if i is 1, or the word written to rip - i keeps the invariant and the instruction there leads to the same state. |
| Deviations.DisabledPatched | src/Debugger.cpp:240-243 | The byte at rip - i becomes the original byte of the breakpoint's address, so that the code is patched correctly only if the program has the same byte at both. |
| Deviations.DisabledUnmapped | src/Debugger.cpp:240-243 | If no word is mapped there, nothing is written and the debuggee is left one byte past the int3. |
| Deviations.DisabledSecondRound | src/Debugger.cpp:240-243 | In the second round that is right, and one instruction is executed. |
| Deviations.DisabledFirstRound | src/Debugger.cpp:240-243 | In the first round the instruction at the breakpoint is skipped: int3 stays in place, the byte after it is overwritten, and the debuggee is stepped from there. |
| Inputs.ExecutedTwice | src/Debugger.cpp:181-197 | Attach, place 0, place 3, continue, StepAuto: the instruction at 3 is executed twice, and the debuggee is in no state of the undebugged run. |
| Inputs.StrayInt3 | src/breakpoint.cpp:48-81 | Attach, place 2, place 0, delete 1, continue: int3 is at 2 and 2 is not listed; continued once more, the debuggee skips the instruction there and is in no state of the undebugged run. |
| Inputs.ExitThreeWays | src/Debugger.cpp:324-352 | The same instruction ending the process is reported by EXIT_STATUS, 0 and -1, without a breakpoint, at an enabled one and at a disabled one. |
| Inputs.ExitUnnoticed | src/Debugger.cpp:324-352 | Attach, place 0, place 3 where the process ends, disable 1, continue: EXIT_STATUS, although an enabled breakpoint is planted at 3, because the hit at 0 takes it out. |
| Inputs.NeighbourLost | src/Debugger.cpp:96-103 | Attach, place 0, place 3, continue: breakpoint 2 is listed and enabled and never hit. |
| Inputs.SkippedByStepX | src/Debugger.cpp:204-251 | Attach, place 0, disable 1, StepX(1): the instruction at 0 is never executed, the one at 1 is, and the debuggee is in no state of the undebugged run. |
| Libraries.SymbolsTaken | src/parsesymbols.cpp:55-86 | Exactly the function symbols with a value are taken from a file's symbol tables, each shifted by the base address. |
| Libraries.NotedTogether | src/parsesymbols.cpp:135-171 | What is gathered over all dynamic sections is what their entries say one after the other. |
| Libraries.RunPathWins | src/parsesymbols.cpp:135-171 | The library directory is that of the last DT_RUNPATH of the file, or without any of the last DT_RPATH, in whatever order and sections they stand. |
| Libraries.NoPathNoted | src/parsesymbols.cpp:173-198 | Without either in any dynamic section, the default directory is used. |
| Libraries.DepsAre | src/parsesymbols.cpp:135-198 | A file that loads depends on the names of its DT_NEEDED entries, in their order over all dynamic sections, each with the directory before it as it stands: that of the last DT_RUNPATH, without any that of the last DT_RPATH, and /lib/ without either. |
| Libraries.OneDirectory | src/parsesymbols.cpp:135-155 | There is exactly one such directory. |
| Listing.SymbolsListed | src/parsesymbols.cpp:55-86 | Over a list of files there is one entry for each function symbol with a value, address shifted by the base, in the order of files, sections and table entries. |
| Listing.ListedIff | src/parsesymbols.cpp:55-86 | An entry is listed if and only if some file of the list that can be loaded has it in a symbol table. |
| Walks.TextTerminates | src/parsesymbols.cpp:173-228 | Comparing texts, nested calls are bounded by the number of paths not yet listed, on cyclic graphs too. |
| Walks.LoadsEachOnce | src/parsesymbols.cpp:105-113 | Comparing texts, the search list ends duplicate-free and is exactly the set of paths reachable from the root through files that load. |
| Walks.PointerUnfolds | src/parsesymbols.cpp:173-228 | Comparing pointers, the search list is the preorder of the unfolding tree if that is finite, and the recursion does not end otherwise. |
| Unfolding.EndsIffAcyclic | src/parsesymbols.cpp:105-113 | Comparing pointers, the walk ends if and only if no dependency cycle can be reached from the root. |
| Unfolding.MutualNeverEnds | src/parsesymbols.cpp:105-113 | On two libraries that need each other the walk does not end, and comparing texts it would. |
| Unfolding.OneEntryPerRoute | src/parsesymbols.cpp:173-228 | Comparing pointers, list entries correspond one to one to the routes of dependencies from the root, in preorder: a route before those that extend it, and earlier dependencies first. |
| Symbols.Elf.RemoveMap | src/elfp.cpp:147-156 | A live mapping is unmapped with the length it was mapped with, MAP_FAILED is passed to a munmap that fails, and the record of mappings and reads only grows. |
| Symbols.Elf.OpenElf | src/elfp.cpp:166-192 | Maps a file only while no other mapping is live; succeeds exactly on non-empty shared objects, and otherwise leaves the null pointer, or MAP_FAILED for an empty file. |
| Symbols.Elf.LoadFile | src/elfp.cpp:194-226 | A file that is no shared object is unmapped again; mapping an empty one fails and leaves MAP_FAILED. |
| Symbols.Symbol.SearchForPath | src/parsesymbols.cpp:105-113 | Finds the pointer, not the text (or the text, as meant). |
| Symbols.Symbol.OpenFile | src/parsesymbols.cpp:29-42 | The search list is that of the walk; the symbol list gains the symbols of the files opened, in search list order; the failure flag is set exactly if one of them does not load; and every mapping and header read is in order. |
| Symbols.Symbol.LoadSymbols | src/parsesymbols.cpp:49-103 | The file's own symbols come first, then those of its dependencies; its headers are read before nested calls replace the mapping. |
| Symbols.Symbol.LoadTable | src/parsesymbols.cpp:62-84 | Function symbols with a value, shifted by the base address, in order. |
| Symbols.Symbol.Gather | src/parsesymbols.cpp:128-171 | The directory and the needed names, read from the file that is mapped. |
| Symbols.Symbol.ParseDynamic | src/parsesymbols.cpp:115-253 | What the loop over the needed names leaves in the two lists. |
| Loader.LoadProgram | src/Debugger.cpp:1253-1258 | The whole of loading: as meant, the search list is duplicate-free and exactly what can be reached from the program; as written, on acyclic dependencies, it is their unfolding tree in preorder; the symbols listed are exactly the function symbols with a value of the files searched, each as often as it is there and in order; and loading has failed exactly if some file searched is missing, empty or no shared object. |
| DebugLines.DebugLineInfo.GetNoOfCompilationUnits | include/dwarf.h:58-68 | The largest unit number, or 0. |
| DebugLines.DebugLineInfo.GetMaxLineNumber | src/dwarf.cpp:52-67 | An upper bound of the unit's lines that is one of them or 0; -1 exactly for unit numbers that are too large. |
| DebugLines.DebugLineInfo.GetMinLineNumber | src/dwarf.cpp:69-86 | A lower bound of the unit's lines, whatever the uninitialised minimum held. |
| DebugLines.DebugLineInfo.GetAddressByLine | src/dwarf.cpp:33-50 | The first row for the unit and line, or -1 in 64 bits if there is none: the range checks never turn down a row that is present. |
| DebugLines.FirstMatchUnique | src/dwarf.cpp:33-50 | That specification determines the address. |
| FreeSpace.FindFreeSpace | src/elfp.cpp:108-144 | Returns 1 exactly when there is no window of zeros of the size (or the size is 0); otherwise stops at the end of the earliest one and returns 0. |
| FreeSpace.FindFreeSpaceAsMeant | src/elfp.cpp:120-143 | With the address recorded when a run begins, the earliest window's address is returned. |
| FreeSpace.ZeroIsTheAddressIff | src/elfp.cpp:125-131 | The 0 returned is the window's address if and only if memory starts at 0 and so does the window. |
| FreeSpace.AddressLost | src/elfp.cpp:123-131 | On the bytes 1, 0 at address 15, the scan for one free byte returns 0, and with the address recorded 16. |

## Left out

- Signals and faults: the stops modelled are the trap of int3, the end of a single step, the two sides of a system call, and the exit of the process; the signalled branch of WaitForProcess is not reached, and code outside the map reads as zero bytes instead of faulting.
- Self-modifying code, and code read as data: the debuggee does not see its code bytes.
- System calls that return elsewhere (rt_sigreturn, execve) and processes with several threads.
- Runs that never stop: a run is watched for a finite, arbitrary time, so that a command that never returns is seen as `Blocked` for every `fuel`.
- Debugger.Main.WaitForProcess: the signalled branch and the final -1 are left out, because no modelled stop leads to them.
- Address arithmetic does not wrap: user-space addresses are far below 2^64.
- Separation.MemoryConserved: a step of StepX that handles a disabled breakpoint at another address than its own is excluded, because it overwrites other code (`Deviations.DisabledRound`).
- Stepping.StepXStops: planted disabled breakpoints met by another step than the second are excluded, because the program restores them in the wrong place; the lemmas of `Deviations.dfy` say what happens then.
- Stepping.StepAutoStops: the outer ret of StepAuto is taken to hold something else than EXIT_STATUS; with that value the loop ends after one round, as `Debugger.Main.StepAuto` says.
- RemoveAllBreakpoints is no command of the histories: nothing in the program calls it.
- Stopping.ContinueStops: in layouts and sessions other than the two named, the first stop cannot be read off memory as it is, because hits of disabled breakpoints bring others back or take them out; `Ahead.ContinueDecided` says where it is.
- FreeSpace.FindFreeSpaceAsMeant: this is not code of the repository but its scan with the one assignment moved; reading the buffer with pread is not part of this model.
- Strings of dynamic sections appear looked up; a dynamic section without DT_DYNSYM, malformed section tables, and the byte counts of the path buffers are not modelled.
- Symbols.Elf.OpenElf: failing fstat, and mmap failing for other reasons than an empty file.
- Memory allocation failure, a munmap of a live mapping that fails, and lengths beyond an int.
- SetRegister from the prompt: changing registers leaves the undebugged run by intention.
- The command loop, the prompt and logging (src/Debugger.cpp:405-1090, include/log.h), starting and attaching to processes, reading DWARF and /proc.
- src/registers.cpp, src/inject.cpp, src/reconstruct.cpp, src/utils.cpp, src/debug.cpp: printing, unfinished code and plain setters.
