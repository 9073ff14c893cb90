# Verification model of the Squirrel debugger

A Dafny model of the debugger in `squirrel_debugger/`: how it pauses and steps a Squirrel VM, how
commands from other threads share its data with the VM thread, how watch expressions are parsed
and evaluated, and how variables are found, listed and assigned by iterator path.
`dafny verify dfyconfig.toml` checks everything.

## Shape

| file | what it models |
|---|---|
| `Common.dfy` | return codes, 32-bit conversions, prefixes of text |
| `StepControl.dfy` | hook events and commands as atomic steps of one state machine, and theorems over all its runs |
| `BreakpointMap.dfy` | the breakpoint table with its handles compared by identity |
| `Debugger.dfy` | the debugger object: every method proved against `StepControl` |
| `PauseProtocol.dfy` | the mutex, the condition variable, the VM thread and any number of command threads, interleaved access by access |
| `PauseRefinement.dfy` | every orderly interleaving is a run of the atomic state machine |
| `WatchSyntax.dfy` | what the watch parser builds, and a printer that is its inverse |
| `WatchGrammar.dfy` | the watch grammar written out on its own, and that the parser accepts exactly it |
| `WatchReader.dfy` | the parser over a shared cursor, proved against the grammar |
| `SquirrelVm.dfy` | objects, tables as slots with holes, arrays, and the operand stack with the API calls used |
| `Navigation.dfy` | resolving accessors to an object and its iterator path, and walking a path |
| `Listing.dfy` | child variables, sorting and paging |
| `PathText.dfy` | comma-separated paths and `std::stoi` |
| `PathAccess.dfy` | walking a path to list or assign, and the commands that do so |
| `WatchMeaning.dfy` | the recursive meaning of a watch expression |
| `Evaluator.dfy` | the worklist that computes that meaning without recursion, and the watch command |

Two models share one state. `StepControl` treats each hook event and each command as one step;
its theorems quantify over every sequence of steps. `PauseProtocol` splits every event and command
into its single accesses, with the unlocked ones on their own. `PauseRefinement` connects the two:
every interleaving without a spurious wake-up is a sequence of atomic steps, with the same events,
commands and answers, unless PauseExecution writes the counter inside the unlocked increment. The
theorems over sequences of steps therefore hold of interleavings. Watch evaluation and path access
work on an explicit operand stack, so that every method also states that the stack is balanced on
every exit, which is what `ScopedVerifySqTop` asserts in the original.

## What the proofs show about the code

- PauseExecution while a request is pending answers Success but changes nothing.
  `StepControl.PauseStopsAtNextLine` gives the exact condition under which the next line is sure to
  pause.
- The increment of `returnsRequired` in the call branch is not under the lock, although the header
  asks for it (`squirrel_debugger/include/sdb/SquirrelDebugger.h:86`), and PauseExecution sets the
  request before the counter. An accepted pause can therefore be overwritten and a line let through,
  even the very first one; `PauseProtocol.PauseStaysDueIff` gives the exact condition, in terms of
  the second of the pause's two writes, `PauseProtocol.FirstPauseCanMissNextLine` and
  `PauseProtocol.AcceptedPauseCanMissNextLine` give complete interleavings. Without such a pause,
  and without spurious wake-ups, interleavings are sequences of atomic steps
  (`PauseRefinement.InterleavingsRefine`).
- A breakpoint on line INT32_MAX or later is never hit (`StepControl.LineHitsExactly`).
- A dotted name in a watch is looked up as the head's name, because the loop over the chain reads
  `node` where `nodeIter` is meant. The evaluator is modelled as coded;
  `WatchMeaning.CodeReadsWhatIsWrittenIff` says exactly when that makes no difference,
  `WatchMeaning.HonestChainsMeanWhatIsWritten` that bracket chains are safe, and
  `WatchMeaning.DottedNameIsHead` shows the difference.
- Keys are compared by raw bits without their type while searching for the iterator
  (`Navigation.FoundSlotIsKeysSlotIff`, `Navigation.ShadowedLookup`).
- A path part above INT32_MAX cannot be sent back (`PathText.PathRoundTrip`).
- A page of locals whose end does not fit 32 bits is empty (`PathAccess.LocalsPageIsAskedForIff`).
- Numeric escapes in strings always swallow the character after their digits, and too few digits
  are padded on the right; `WatchSyntax.NumericEscapeExactly` says exactly when the byte is right.
- A blank watch answers the empty string; the refusal of an empty expression is never reached
  (`WatchMeaning.BlankIsEmptyString`). A missing closing quote or bracket at the end of a watch is
  accepted, and so is one closing bracket too many (`WatchGrammar.AcceptsExactly`).
- An array element cannot be assigned: the set callback expects the stack of a table member
  (`PathAccess.ElementIsNeverAssigned`).

## Assumptions

- Strings compared by pointer in the original (source names, interned strings) are modelled as
  interned: equal text, equal pointer. Where different texts must have different addresses, the
  lemma says `InternsApart`.
- Characters are classified as in the C locale. Lower-casing a file name is an arbitrary function.
- `std::sort` is any function that returns a sorted permutation (`Listing.IsSorter`); the order of
  entries with equal text is left open.
- Tables have distinct keys, and the table `sq_newtable` hands out next is referred to by nothing.
  Instances are iterated like tables.
- `sq_next` fails on a negative iterator, which a path part below zero becomes.
- A paused VM is inside a function, so at least two objects are below whatever the debugger pushes.
- Integers are unbounded except where the original converts to 32 bits, which is written out.

## Model

| member | source | states |
|---|---|---|
| StepControl.StepStopsExactly | squirrel_debugger/SquirrelDebugger.cpp:308-324 | From an accepted step at depth d on, with any commands but an accepted resume in between, before the wake-up or after it, the VM pauses at a line event if and only if it has a breakpoint, or its depth is at most the step's level, or the depth had fallen below that level before; nothing earlier pauses it. The level is d - 1 for StepOut, d for StepOver and d + 1 for StepIn |
| StepControl.StepInRunStops | squirrel_debugger/SquirrelDebugger.cpp:663-676 | The same for a step anywhere in a run from the start, with depth, level and breakpoint taken from the history of commands and events alone |
| StepControl.CounterTracksDepth | squirrel_debugger/SquirrelDebugger.cpp:733-748 | Over every run since the step: returnsRequired is k plus the change of depth while the depth has stayed at d - k or above, and negative for good once it has dipped below |
| StepControl.PauseStopsAtNextLine | squirrel_debugger/SquirrelDebugger.cpp:280-291 | PauseExecution always answers Success and changes nothing when a request is pending; the next line event is then sure to pause the VM, in every run without an accepted resume before it, if and only if no request was pending, or the pending one was already due (counter negative), or the VM waits; so a pause between a Continue and the wake-up is sure |
| StepControl.NotSureOfNextLine | squirrel_debugger/SquirrelDebugger.cpp:733-737 | A pending request that is not due lets a line event inside one more call through |
| StepControl.PauseLatch | squirrel_debugger/SquirrelDebugger.cpp:733-748 | A due request of any kind keeps its kind and a negative counter through any calls, returns and commands other than an accepted resume, up to the next line event |
| StepControl.LeftoverCounterIsDead | squirrel_debugger/SquirrelDebugger.cpp:733-737 | Two states that differ only in the counter left over while nothing is requested stay equal in every state, answer and status of every later run |
| StepControl.ReachableInv | squirrel_debugger/SquirrelDebugger.cpp:770-785 | In every reachable state a VM that waits un-notified has a request pending, so Continue and every step are accepted and notify it |
| StepControl.StackIsHistory | squirrel_debugger/SquirrelDebugger.cpp:718-756 | After every run currentStack is the stack of the calls still open, each frame with the lower-cased name of its own source and the line last executed in that frame |
| StepControl.OpenCall | squirrel_debugger/SquirrelDebugger.cpp:718-742 | The open call of frame j, found in the events alone: the last call made at depth j, with the depth above j ever since |
| StepControl.LineHitsExactly | squirrel_debugger/SquirrelDebugger.cpp:751-785 | Over every run a line event is a breakpoint hit if and only if the latest accepted list for its source, up to case, has the line (and the line is below INT32_MAX); the pause then reports the last such entry, any other pause reports id 0, and every pause shows the VM's call stack frame by frame, with 0 for a line that is no positive int |
| StepControl.BreakpointIsExpected | squirrel_debugger/SquirrelDebugger.cpp:754-762 | The breakpoint the hook looks up is the one that the history of SetFileBreakpoints commands and open calls calls for |
| StepControl.FilesAreHistory | squirrel_debugger/SquirrelDebugger.cpp:623-661 | The stored breakpoint of a file and line is the last entry for that line in the latest list for that file in which every id and line is above zero |
| StepControl.AddAllKeepsLast | squirrel_debugger/BreakpointMap.cpp:44-47 | Assigning entries in order keeps, for each line, the last entry that names it, and leaves other lines alone |
| StepControl.StatusIsStable | squirrel_debugger/SquirrelDebugger.cpp:678-706 | While the VM waits and nobody resumes it, every SendStatus repeats the status and stack published at the pause |
| StepControl.RunningUntilRearmed | squirrel_debugger/SquirrelDebugger.cpp:678-706 | From an accepted Continue on, even before the VM wakes, SendStatus reports Running, exactly until a new request is accepted or a breakpoint is hit |
| StepControl.RequestIsHistory | squirrel_debugger/SquirrelDebugger.cpp:280-320 | At every moment of every run the pending request is the one that the history of commands, breakpoint hits and waits calls for |
| StepControl.StatusIsHistory | squirrel_debugger/SquirrelDebugger.cpp:678-706 | At every moment of every run the published status follows from the history: Running without a pending request; in a pause, the stack and breakpoint that its line event had to show; otherwise Pausing after a pause or step in, Stepping after a step over or out |
| StepControl.AnswersAreHistory | squirrel_debugger/SquirrelDebugger.cpp:280-324 | At every moment of every run PauseExecution succeeds, Continue succeeds exactly when the history leaves a request pending, a step exactly while the VM has not left its pause, and a list of breakpoints exactly when no id or line is zero; otherwise InvalidNotPaused, or InvalidParameter for a list |
| StepControl.ContinueInRunShows | squirrel_debugger/SquirrelDebugger.cpp:678-706 | The same for a Continue anywhere in a run from the start: the status is Running if and only if the last entry of the run did not re-arm |
| BreakpointTable.ByNamePut | squirrel_debugger/BreakpointMap.cpp:44 | Replacing the lines under one handle is, in the table read by name, replacing the lines of that name |
| BreakpointTable.ByNameHas | squirrel_debugger/BreakpointMap.cpp:57-60 | A handle has lines exactly when its name has, and they are the same lines |
| BreakpointTable.BreakpointMap.Clear | squirrel_debugger/BreakpointMap.cpp:22-35 | Empties the lines of that name if the table has it, and changes no other name |
| BreakpointTable.BreakpointMap.AddAll | squirrel_debugger/BreakpointMap.cpp:37-48 | Adds the entries to the lines of that name, later entries winning |
| BreakpointTable.BreakpointMap.ReadBreakpoint | squirrel_debugger/BreakpointMap.cpp:50-70 | Finds exactly what the plain map from name and line holds; otherwise the caller's value comes back |
| BreakpointTable.BreakpointMap.FindFileNameHandle | squirrel_debugger/BreakpointMap.cpp:72-93 | Returns the handle whose text is the lower-cased name, or null if there is none |
| BreakpointTable.BreakpointMap.EnsureFileNameHandle | squirrel_debugger/BreakpointMap.cpp:95-113 | Returns the one handle of that lower-cased name, making it if needed, and keeps handles unique per name |
| DebuggerObject.SquirrelDebugger.PauseExecution | squirrel_debugger/SquirrelDebugger.cpp:280-291 | Answer and new state are those of the atomic command |
| DebuggerObject.SquirrelDebugger.ContinueExecution | squirrel_debugger/SquirrelDebugger.cpp:293-306 | Answer and new state are those of the atomic command, including the notification |
| DebuggerObject.SquirrelDebugger.Step | squirrel_debugger/SquirrelDebugger.cpp:663-676 | Answer and new state are those of the atomic step command |
| DebuggerObject.SquirrelDebugger.StepOut | squirrel_debugger/SquirrelDebugger.cpp:308-312 | A step that waits for one return: in a pause the counter becomes 1 |
| DebuggerObject.SquirrelDebugger.StepOver | squirrel_debugger/SquirrelDebugger.cpp:314-318 | A step that waits for no return: in a pause the counter becomes 0 |
| DebuggerObject.SquirrelDebugger.StepIn | squirrel_debugger/SquirrelDebugger.cpp:320-324 | A step that is due at once: in a pause the counter becomes -1 |
| DebuggerObject.SquirrelDebugger.SendStatus | squirrel_debugger/SquirrelDebugger.cpp:678-706 | Publishes the status of the state: Running, Paused with the stored status, Pausing or Stepping |
| DebuggerObject.SquirrelDebugger.SetFileBreakpoints | squirrel_debugger/SquirrelDebugger.cpp:623-661 | Every id and line above zero: the file's breakpoints are replaced; otherwise InvalidParameter with nothing stored, while the entries before the bad one are still reported back |
| DebuggerObject.SquirrelDebugger.SquirrelNativeDebugHook | squirrel_debugger/SquirrelDebugger.cpp:708-787 | While attached, each kind of event does to the object what one atomic event does to the state; while detached it does nothing |
| DebuggerObject.SquirrelDebugger.AddVm | squirrel_debugger/SquirrelDebugger.cpp:251-259 | Attaches and changes nothing else |
| DebuggerObject.SquirrelDebugger.DetachVm | squirrel_debugger/SquirrelDebugger.cpp:261-278 | Cancels the pause and any request, notifies a waiting hook, forgets the stack and the handle cache, and keeps the breakpoints and the counter |
| DebuggerObject.DetachedIsQuiet | squirrel_debugger/SquirrelDebugger.cpp:261-278 | From detaching on, whatever commands arrive and whether or not the hook has woken up, the status is Running and every resume is refused, until PauseExecution is accepted |
| DebuggerObject.SquirrelDebugger.HookCall | squirrel_debugger/SquirrelDebugger.cpp:718-738 | A call pushes a frame with the handle of its own source and counts unless the counter is negative |
| DebuggerObject.SquirrelDebugger.HandleOf | squirrel_debugger/SquirrelDebugger.cpp:719-728 | The cached handle of each source stays the handle in the table for its lower-cased name |
| DebuggerObject.SquirrelDebugger.HookReturn | squirrel_debugger/SquirrelDebugger.cpp:740-748 | A return pops a frame and counts down |
| DebuggerObject.SquirrelDebugger.HookLine | squirrel_debugger/SquirrelDebugger.cpp:751-787 | A line event marks the frame, turns a breakpoint into a due request, and pauses if a request is due, publishing the VM's call stack frame by frame |
| DebuggerObject.SquirrelDebugger.CheckBreakpoint | squirrel_debugger/SquirrelDebugger.cpp:761-767 | Reads exactly the breakpoint of that handle's name and line, and re-arms the request on a hit |
| DebuggerObject.SquirrelDebugger.AfterWait | squirrel_debugger/SquirrelDebugger.cpp:783-785 | Leaving the wait is the atomic wake-up |
| PauseProtocol.Reachable | squirrel_debugger/SquirrelDebugger.cpp:708-787 | Every state of every interleaving with any number of command threads, with those between the two writes of PauseExecution, keeps the invariant: one lock holder, isPaused agrees with the VM thread's position, queries see one state, the history explains the data |
| PauseProtocol.StepKeepsInv | squirrel_debugger/SquirrelDebugger.cpp:280-787 | No single step of any thread, spurious wake-ups included, breaks that invariant |
| PauseProtocol.Isolation | squirrel_debugger/SquirrelDebugger.cpp:326-371 | In every reachable state, whoever holds the mutex and sees isPaused finds the VM thread in the condition wait, and no step of any other thread changes the VM, currentStack, isPaused or the lock, even if a resume was accepted just before |
| PauseProtocol.QuerySeesOneState | squirrel_debugger/SquirrelDebugger.cpp:331-341 | From its first read to its last a query sees one VM state and one stack, changed only by its own writes |
| PauseProtocol.NoLostWakeup | squirrel_debugger/SquirrelDebugger.cpp:293-306 | In every reachable state a VM thread that waits un-notified is marked paused with a request pending, so no unlocked check turns a Continue away, and a Continue or step that gets the lock succeeds and notifies |
| PauseProtocol.ContinueWakes | squirrel_debugger/SquirrelDebugger.cpp:293-306 | From every reachable state in which the VM thread waits, whoever holds the lock and whatever every thread is in the middle of, any chosen command thread can get the script going again, without a spurious wake-up |
| PauseProtocol.HolderCanStep | squirrel_debugger/SquirrelDebugger.cpp:708-787 | In every reachable state whoever holds the lock has an enabled step |
| PauseProtocol.CommandsAreAtomic | squirrel_debugger/SquirrelDebugger.cpp:280-306 | The double-checked commands refine atomic ones: the shared data is the history replayed one atomic command at a time, but for the counter between the two writes of a PauseExecution, and every command returns the atomic answer of an entry of its own made since it began; a query succeeds exactly if the VM was paused at its entry |
| PauseProtocol.EveryCommandOnce | squirrel_debugger/SquirrelDebugger.cpp:280-306 | In every run each operation a thread was asked to do has exactly one entry in the history, in order, but for the one it is still about to do, and the history has no other entries of command threads |
| PauseProtocol.PeekIsAtomic | squirrel_debugger/SquirrelDebugger.cpp:283 | When the unlocked check decides, the atomic command gives the same answer and changes nothing |
| PauseProtocol.PeekDecidesExactly | squirrel_debugger/SquirrelDebugger.cpp:283-294 | The unlocked check answers a pause, a Continue or a list of breakpoints, without waiting for the lock, exactly when the command would change nothing; a step always takes the lock |
| PauseProtocol.LastResumeDecides | squirrel_debugger/SquirrelDebugger.cpp:770-785 | When several commands arrive before the VM thread leaves its wait, the last one that took effect decides the request and the counter it wakes up with; between the two writes of a PauseExecution it cannot wake up |
| PauseProtocol.WaitingIsSilent | squirrel_debugger/SquirrelDebugger.cpp:783 | While the VM thread waits, all it adds to the history is being woken |
| PauseProtocol.SoloCall | squirrel_debugger/SquirrelDebugger.cpp:718-738 | The steps of a call event nobody interrupts add up to the atomic call, whether its source is cached or has to be looked up under the lock |
| PauseProtocol.SoloReturn | squirrel_debugger/SquirrelDebugger.cpp:740-748 | The steps of a return event nobody interrupts add up to the atomic return |
| PauseProtocol.SoloLine | squirrel_debugger/SquirrelDebugger.cpp:751-787 | The steps of a line event nobody interrupts add up to the atomic line event |
| PauseProtocol.SoloCommand | squirrel_debugger/SquirrelDebugger.cpp:280-306 | The steps of a command nobody interrupts, both writes of PauseExecution among them, add up to the atomic command, whether the unlocked check or the lock decides it |
| PauseProtocol.PauseStaysDueIff | squirrel_debugger/SquirrelDebugger.cpp:280-291 | After an accepted pause no interleaving lets a line event through before the VM pauses or a resume is accepted, refused ones included, if and only if at the pause's second write, that of the counter, the VM thread was not between the comparison and the write of its unlocked increment; up to that write the lock keeps line events from being decided |
| PauseProtocol.WindowLetsLineThrough | squirrel_debugger/SquirrelDebugger.cpp:733-737 | From inside that window: the pausing thread unlocks, the write overwrites the counter, one more call counts it above zero, and the line in that call is let through |
| PauseProtocol.LatchHolds | squirrel_debugger/SquirrelDebugger.cpp:733-785 | Outside that window a pending pause survives every interleaving in which no resume is accepted and the VM does not pause |
| PauseProtocol.AcceptedPauseCanMissNextLine | squirrel_debugger/SquirrelDebugger.cpp:733-737 | Inside the window, reached after a step over by a call whose source is new, Continue and PauseExecution both succeed; the late write overwrites the counter, and the next line event does not pause |
| PauseProtocol.FirstPauseCanMissNextLine | squirrel_debugger/SquirrelDebugger.cpp:280-291 | No step and no Continue are needed: between the two writes of the very first PauseExecution the hook of the first call finds the initial counter fit for the increment, and the next line event does not pause |
| PauseRefinement.InterleavingsRefine | squirrel_debugger/SquirrelDebugger.cpp:280-787 | Every interleaving without spurious wake-ups, in which no pause makes its second write inside that window, is a run of the sequential state machine: each event and command takes effect at one step of its thread, and the shared data is the sequential state but for what the hook is in the middle of, a dead counter, and the counter that a pause is about to write |
| PauseRefinement.TraceHasEvents | squirrel_debugger/SquirrelDebugger.cpp:708-787 | That run has exactly the events the script raised, in order, but for the one the hook has not finished |
| PauseRefinement.TraceHasAnswers | squirrel_debugger/SquirrelDebugger.cpp:280-306 | That run has exactly the commands of the history, in order, and each returned the code the sequential machine gives it |
| PauseRefinement.AtRestStatesAgree | squirrel_debugger/SquirrelDebugger.cpp:708-787 | While the script runs or waits in a pause, the shared data is the sequential state, up to a dead counter or the counter that a pause is about to write |
| PauseRefinement.PausedStackIsHistory | squirrel_debugger/SquirrelDebugger.cpp:718-756 | In every such interleaving the stack a query finds is that of the open calls, each frame with its own source and last line |
| PauseRefinement.InterleavedLineHitsExactly | squirrel_debugger/SquirrelDebugger.cpp:751-785 | In every such interleaving a line event pauses exactly when the history of commands and calls has a breakpoint there or a request is due, and publishes the id of the right breakpoint and the VM's call stack |
| PauseRefinement.InterleavedStepStops | squirrel_debugger/SquirrelDebugger.cpp:733-785 | In every such interleaving, while a step taken at depth d is under way, a line event pauses if and only if it has a breakpoint, or its depth is at most the step's level (d - 1, d or d + 1), or the depth had fallen below that before, all by the history of commands and events |
| PauseRefinement.ReportsAreSequential | squirrel_debugger/SquirrelDebugger.cpp:678-706 | Every status published in such an interleaving is the one the sequential machine publishes at that moment of its run |
| PauseRefinement.ReportsAreHistory | squirrel_debugger/SquirrelDebugger.cpp:678-706 | So every status published in such an interleaving is the one that the history calls for |
| PauseRefinement.PausedReportIsStable | squirrel_debugger/SquirrelDebugger.cpp:678-706 | In every such interleaving, until somebody resumes the VM every status published since a pause is the one of that pause |
| PauseRefinement.RunningReportedUntilRearmed | squirrel_debugger/SquirrelDebugger.cpp:678-706 | In every such interleaving, every status published after an accepted Continue is Running exactly until a new request is accepted or a breakpoint is hit |
| PauseRefinement.StepFollows | squirrel_debugger/SquirrelDebugger.cpp:280-787 | One step of any thread is at most one atomic step of the sequential machine; PauseExecution takes effect at its first write |
| WatchSyntax.ParsePrint | squirrel_debugger/SquirrelVmHelpers.cpp:850-949 | Parsing the printed text of any well-formed expression, with any spaces before each token and at the end, gives the same tree with nothing left |
| WatchSyntax.ParsePrintClosed | squirrel_debugger/SquirrelVmHelpers.cpp:900-908 | Parsing printed text followed by a closing bracket and anything else gives the same tree and stops just past the bracket |
| WatchSyntax.ParsePrintParse | squirrel_debugger/SquirrelVmHelpers.cpp:850-949 | Every accepted, non-blank input gives a well-formed tree, and printing and parsing that tree gives it again; the cursor ends at a suffix of the input |
| WatchSyntax.LoopGivesWellFormed | squirrel_debugger/SquirrelVmHelpers.cpp:854-948 | Whatever the chain so far, the parser only ever ends with a blank or well-formed tree, and the cursor only moves forward within the input |
| WatchSyntax.PrintIsInjective | squirrel_debugger/SquirrelVmHelpers.cpp:850-949 | Different well-formed trees have different printed texts, however each is spaced |
| WatchSyntax.ReadBodyEscape | squirrel_debugger/SquirrelVmHelpers.cpp:737-822 | A string printed with the simple escapes reads back as itself and ends at its own quote |
| WatchSyntax.NumericEscapeExactly | squirrel_debugger/SquirrelVmHelpers.cpp:718-735 | For every letter and input: a numeric escape is read if and only if it has between one and the promised number of digits and something after them; it then always skips the next character, and stands for the byte its digits spell if and only if no digit is missing or that byte is zero |
| WatchSyntax.StringGoesOnAfterSkipped | squirrel_debugger/SquirrelVmHelpers.cpp:738-805 | After a numeric escape the string goes on behind the skipped character, even if that was the closing quote |
| WatchSyntax.ShortEscapeIsPadded | squirrel_debugger/SquirrelVmHelpers.cpp:777-781 | One digit 1 stands for the byte 16 |
| WatchSyntax.FullEscapeTakesQuote | squirrel_debugger/SquirrelVmHelpers.cpp:777-781 | Two digits take the closing quote with them |
| WatchGrammar.AcceptsExactly | squirrel_debugger/SquirrelVmHelpers.cpp:850-948 | The parser accepts exactly the texts of a grammar that is written out character by character, with the tree and the rest of the input that the grammar gives them; apart from that it accepts blank input |
| WatchGrammar.NamesExactly | squirrel_debugger/SquirrelVmHelpers.cpp:836-848 | A text is read as one name if and only if it consists of the letters a to z and A to Z, digits and underscores and starts with no digit |
| WatchGrammar.NumbersExactly | squirrel_debugger/SquirrelVmHelpers.cpp:822-834 | A text is read as one number if and only if it consists of digits |
| WatchGrammar.StringIsRead | squirrel_debugger/SquirrelVmHelpers.cpp:712-822 | A string is read as what its pieces stand for, plain characters and the listed escapes, in either kind of quotes, with or without the closing quote at the end of the input |
| WatchGrammar.StringIsRejected | squirrel_debugger/SquirrelVmHelpers.cpp:739-817 | A line break, a lone backslash or a backslash before any other letter rejects the input |
| WatchGrammar.EscapeExactly | squirrel_debugger/SquirrelVmHelpers.cpp:718-803 | What a numeric escape stands for, digit by digit: the byte of the last two promised digits, missing ones counting as 0, with the character behind the digits lost; and exactly when it is rejected |
| WatchReader.ReadNumber | squirrel_debugger/SquirrelVmHelpers.cpp:824-835 | Reads the longest run of digits |
| WatchReader.ReadIdentifier | squirrel_debugger/SquirrelVmHelpers.cpp:837-848 | Reads the longest run of identifier characters |
| WatchReader.ProcessStringEscape | squirrel_debugger/SquirrelVmHelpers.cpp:718-735 | The in-place digit buffer, cursor and errors are those of the grammar |
| WatchReader.ReadNumericEscape | squirrel_debugger/SquirrelVmHelpers.cpp:775-801 | The escape's value, cursor and errors are those of the grammar |
| WatchReader.ReadString | squirrel_debugger/SquirrelVmHelpers.cpp:712-822 | The string loop over a shared cursor reads what the grammar says, with the same errors |
| WatchReader.ParseOperand | squirrel_debugger/SquirrelVmHelpers.cpp:909-945 | Reads one string, number or name, or fails as the grammar does |
| WatchReader.ParseExpression | squirrel_debugger/SquirrelVmHelpers.cpp:850-949 | The recursive parser over one shared cursor builds the tree the grammar says, leaves the cursor where it says, or fails with its error |
| SquirrelVm.NextSlot | squirrel_debugger/SquirrelVmHelpers.cpp:556-560 | sq_next's slot: the first occupied one at or after the iterator |
| SquirrelVm.FindKey | squirrel_debugger/SquirrelVmHelpers.cpp:618-622 | sq_get's slot: one whose key has the same type and bits |
| Navigation.ResolvedPathLeadsBack | squirrel_debugger/SquirrelVmHelpers.cpp:572-649 | The iterator path that comes with a resolved object leads back to that object, through any nesting of arrays and tables with holes, and all its parts are ints |
| Navigation.FoundSlotIsKeysSlotIff | squirrel_debugger/SquirrelVmHelpers.cpp:627-637 | The slot the iteration finds by raw bits is the slot the key names if and only if no earlier key of another type has the same bits |
| Navigation.ShadowedLookup | squirrel_debugger/SquirrelVmHelpers.cpp:629 | A table with true before 1 answers the lookup of 1 with the value of true |
| Navigation.FindIterIsFirst | squirrel_debugger/SquirrelVmHelpers.cpp:624-637 | The iteration stops at the first occupied slot whose key has the bits searched for |
| Navigation.ResolveIsLookup | squirrel_debugger/SquirrelVmHelpers.cpp:572-649 | Without shadowed keys, resolving accessors succeeds exactly when the plain lookups do, on the same object |
| Navigation.GetObjectFromExpression | squirrel_debugger/SquirrelVmHelpers.cpp:572-649 | Success with the resolved object and its path appended, or InvalidParameter; on every exit the operand stack is as found |
| Navigation.GetFromArray | squirrel_debugger/SquirrelVmHelpers.cpp:592-613 | The same for an array; a key that is not numeric or out of range is InvalidParameter |
| Navigation.GetFromTable | squirrel_debugger/SquirrelVmHelpers.cpp:614-644 | The same for a table or instance |
| Navigation.SearchTable | squirrel_debugger/SquirrelVmHelpers.cpp:624-643 | The iteration resolves the rest below the first slot with the key's bits, and takes everything it pushed off the stack again |
| Listing.PagesPartition | squirrel_debugger/SquirrelVmHelpers.cpp:442-482 | Pages of any size partition a table or instance of fewer than 1000 members: joined they list every occupied slot exactly once, with its key's text and type, its value and the iterator that finds it, in the order of the key texts, for a table as many as childCount says |
| Listing.SmallPage | squirrel_debugger/SquirrelVmHelpers.cpp:442-482 | One page of such a table: the members from that one on in the order of the key texts, up to the count, each with its fields |
| Listing.LargePage | squirrel_debugger/SquirrelVmHelpers.cpp:484-505 | One page of a table or instance of 1000 members or more: the occupied slots from that iterator on in storage order, up to the count |
| Listing.ArrayPage | squirrel_debugger/SquirrelVmHelpers.cpp:420-440 | One page of an array: the elements from that index on, up to the count, each under its index |
| Listing.NothingElseIsListed | squirrel_debugger/SquirrelVmHelpers.cpp:505-509 | Values of any other kind list no children |
| Listing.TextLessExactly | squirrel_debugger/SquirrelVmHelpers.cpp:460-462 | Key texts are in dictionary order: a common front, then the end of the first or a smaller character |
| Listing.DescribedDescribes | squirrel_debugger/SquirrelVmHelpers.cpp:332-402 | What a client is told about a value, field by field |
| Listing.FoundIsListed | squirrel_debugger/SquirrelVmHelpers.cpp:612-632 | The path part that comes with a member found by its key is the iterator under which the member is listed |
| Listing.SortedAndRawAgree | squirrel_debugger/SquirrelVmHelpers.cpp:442-501 | From 0 with a large enough count the sorted and the raw algorithm list the same variables |
| Listing.ListedChildrenResolve | squirrel_debugger/SquirrelVmHelpers.cpp:421-507 | Every child listed by any branch carries an iterator which, appended to its parent's path, leads back to that child |
| Listing.KeysMeetEntries | squirrel_debugger/SquirrelVmHelpers.cpp:452-459 | The iteration from any point meets exactly the occupied slots from there on, in storage order |
| Listing.SortersExist | squirrel_debugger/SquirrelVmHelpers.cpp:460-462 | The sorting promise the listing relies on can be met |
| Listing.CreateChildVariable | squirrel_debugger/SquirrelVmHelpers.cpp:332-402 | Value, text, address of counted objects, class name of instances, child count by type, and editable exactly for the basic types, each field written out |
| Listing.TakeChild | squirrel_debugger/SquirrelVmHelpers.cpp:406-419 | Makes the variable for the step on top and pops key and value |
| Listing.CreateChildVariables | squirrel_debugger/SquirrelVmHelpers.cpp:404-507 | Lists the page of children and leaves the operand stack as found |
| Listing.ListSlotted | squirrel_debugger/SquirrelVmHelpers.cpp:442-502 | Sorts and pages a small table, iterates a large one |
| Listing.TakeNext | squirrel_debugger/SquirrelVmHelpers.cpp:485-498 | One step of an iteration and its variable, with the advanced iterator left on the stack |
| Listing.ListFrom | squirrel_debugger/SquirrelVmHelpers.cpp:422-441 | Up to count children in iteration order |
| Listing.TakeKey | squirrel_debugger/SquirrelVmHelpers.cpp:454-458 | One step of the iteration, its key's text and iterator, and the value dropped |
| Listing.CollectKeys | squirrel_debugger/SquirrelVmHelpers.cpp:450-459 | Every key's text with the iterator before it |
| Listing.ListByKeys | squirrel_debugger/SquirrelVmHelpers.cpp:464-481 | One variable per sorted key, up to count |
| Listing.ListOne | squirrel_debugger/SquirrelVmHelpers.cpp:467-480 | The child that one step from a stored iterator yields |
| PathText.PathRoundTrip | squirrel_debugger/SquirrelDebugger.cpp:139-146 | A path joined with commas is read back part for part if and only if every part is an int; otherwise std::stoi throws |
| PathText.StoiOfToDecimal | squirrel_debugger/SquirrelDebugger.cpp:145 | A printed number is read back exactly when it is an int |
| PathText.StoiExactly | squirrel_debugger/SquirrelDebugger.cpp:145 | std::stoi on every text: white space, at most one sign, digits and an ignored tail give the number that the digits spell if it is an int, anything else throws |
| PathText.DecimalIsSpelled | squirrel_debugger/SquirrelDebugger.cpp:514 | The value of a digit string is the sum of its digits by their places in base ten |
| PathText.SplitExactly | squirrel_debugger/SquirrelDebugger.cpp:141-144 | The pieces are the one list of texts without commas that gives the path when joined with commas |
| PathText.ParsePathExactly | squirrel_debugger/SquirrelDebugger.cpp:139-146 | A path is read as numbers exactly when std::stoi reads every one of those pieces, and as those numbers |
| PathText.GetLine | squirrel_debugger/SquirrelDebugger.cpp:143-144 | The piece up to the next comma or the end |
| PathText.ReadPath | squirrel_debugger/SquirrelDebugger.cpp:139-146 | The splitting loop reads the numbers between the commas, or throws as std::stoi does |
| PathAccess.AssignThroughPath | squirrel_debugger/SquirrelDebugger.cpp:190-221 | A set on a member of a table or instance: a boolean becomes true exactly for the texts true and 1, an integer or float what std::stoi or std::stof reads, a string the text; other kinds and unreadable texts are rejected. The same path then reads back exactly that value, the answer describes it, and no other path, iterator or key anywhere sees a change; a rejected set changes nothing |
| PathAccess.AssignInteger | squirrel_debugger/SquirrelVmHelpers.cpp:195-207 | An int member takes the number that the digits of the text spell, with sign and white space in front and anything behind, exactly if that is an int |
| PathAccess.ConvertExactly | squirrel_debugger/SquirrelVmHelpers.cpp:182-233 | Which texts are accepted for a value of each kind, and what each is read as |
| PathAccess.ElementIsNeverAssigned | squirrel_debugger/SquirrelDebugger.cpp:199-205 | A set on an array element never assigns it: it succeeds if and only if the text converts and the object fourth on the stack is a table or instance with the array as a key, which is what gets changed; otherwise it fails with nothing changed |
| PathAccess.ElementOfMemberAlwaysFails | squirrel_debugger/SquirrelDebugger.cpp:199-205 | When the array is itself a member of a table or instance, a set on its elements always fails with nothing changed |
| PathAccess.CallbackStack | squirrel_debugger/SquirrelDebugger.cpp:199-203 | The objects the set callback finds on top: container, iterator, key and value for a member, array and element for an element |
| PathAccess.PausedStackIsEnough | squirrel_debugger/SquirrelDebugger.cpp:190-221 | With two objects below, as in any running function, the stack is deep enough for every set |
| PathAccess.AssignmentMovesNothing | squirrel_debugger/SquirrelVmHelpers.cpp:182-244 | After an assignment every path from every object ends at the place where it ended before, and reads its old value unless that place is the assigned one |
| PathAccess.AssignmentKeepsHeap | squirrel_debugger/SquirrelVmHelpers.cpp:182-244 | After an assignment tables still have distinct keys, iterators are still ints and nothing refers to the spare table, so every other command may follow |
| PathAccess.OtherKeysKept | squirrel_debugger/SquirrelVmHelpers.cpp:182-244 | After an assignment every key of every table looks up what it did before, except the assigned one |
| PathAccess.AssignmentReadsBack | squirrel_debugger/SquirrelDebugger.cpp:207-218 | The assigned path reads the new value back with the old basic type |
| PathAccess.LocateIsNavigate | squirrel_debugger/SquirrelVmHelpers.cpp:518-570 | A path has a place exactly when it leads to a value, and the place holds that value |
| PathAccess.AssignMeansPut | squirrel_debugger/SquirrelDebugger.cpp:205 | Setting a member through its key is an assignment of the very slot the iterator reached |
| PathAccess.PutThenGet | squirrel_debugger/SquirrelDebugger.cpp:211-217 | What was set under a key is what reading that key then gives |
| PathAccess.PushConverted | squirrel_debugger/SquirrelVmHelpers.cpp:188-233 | The value on top gives way to the text read as a value of its type, or nothing changes; `PathAccess.ConvertExactly` says what is read |
| PathAccess.UpdateFromString | squirrel_debugger/SquirrelVmHelpers.cpp:182-244 | Converts the text as `PathAccess.ConvertExactly` says and stores it under the key, or rejects it with the heap as found |
| PathAccess.AssignCallback | squirrel_debugger/SquirrelDebugger.cpp:198-219 | For any four objects on top: stores the converted value in the fourth under the second and reads it back, or fails with the heap as found; only the top of the stack may differ afterwards |
| PathAccess.WithVariableAtPath | squirrel_debugger/SquirrelVmHelpers.cpp:518-570 | Runs the callback with exactly the objects on the stack that the path pushes, or answers InvalidParameter; on every exit the operand stack is as found |
| PathAccess.WithArrayElement | squirrel_debugger/SquirrelVmHelpers.cpp:534-552 | The same for an array, with the index as a 32-bit int |
| PathAccess.WithMember | squirrel_debugger/SquirrelVmHelpers.cpp:553-565 | The same for a table or instance, through the iterator |
| PathAccess.ListLocals | squirrel_debugger/SquirrelDebugger.cpp:101-129 | Lists a page of a frame's locals, none editable, with the stack as found |
| PathAccess.LocalsPage | squirrel_debugger/SquirrelDebugger.cpp:105-110 | The page is exactly the stretch of locals up to its end, each with its name, its value and the number that finds it again, none editable |
| PathAccess.LocalsPageIsAskedForIff | squirrel_debugger/SquirrelDebugger.cpp:104 | The page returned is the one asked for if and only if its end fits 32 bits or there was nothing to list; otherwise it is empty |
| PathAccess.WithStackVariables | squirrel_debugger/SquirrelDebugger.cpp:131-165 | The first part of the path names the local; every answer, exception and change is that of walking the rest from the local's value |
| PathAccess.PopulateGlobalVariables | squirrel_debugger/SquirrelDebugger.cpp:167-188 | Lists the children of what the path leads to from the root table, with stack and heap as found |
| PathAccess.GetStackVariables | squirrel_debugger/SquirrelDebugger.cpp:326-342 | Not paused, frame too deep, the locals, or the children at the path |
| PathAccess.SetStackVariableValue | squirrel_debugger/SquirrelDebugger.cpp:357-371 | Not paused, frame too deep, a local itself, or the set through the path, for members and array elements alike |
| WatchMeaning.EvalPathLeadsBack | squirrel_debugger/SquirrelDebugger.cpp:544-591 | The path of every successful evaluation leads back to the same object, from the root table or from the local it names, also after it was joined with commas and read again |
| WatchMeaning.NameIsResolved | squirrel_debugger/SquirrelDebugger.cpp:487-591 | An expression on a name is its keys resolved from the root table or below the first local of that name: a bracket's key is the value of the expression in it, any other key the text of the head; object, path and scope are those of the resolution |
| WatchMeaning.NumberIsItself | squirrel_debugger/SquirrelDebugger.cpp:505-519 | A number alone is the int its digits spell, wrapped to 32 bits, or an error if a long cannot hold it |
| WatchMeaning.StringIsItself | squirrel_debugger/SquirrelDebugger.cpp:520-597 | A string is itself, whatever brackets with a value follow it |
| WatchMeaning.BlankIsEmptyString | squirrel_debugger/SquirrelDebugger.cpp:520-606 | A blank watch is the empty string; the check for an empty expression is never reached |
| WatchMeaning.NamesAreLookups | squirrel_debugger/SquirrelDebugger.cpp:544-591 | Where no key is shadowed, an expression on a name is the chain of plain lookups of its keys, brackets standing for the values inside them, from the first local of that name, or else from the root table |
| WatchMeaning.CodeReadsWhatIsWrittenIff | squirrel_debugger/SquirrelDebugger.cpp:493-536 | The code looks up what is written in a chain if and only if every dotted name in it is the head's own name |
| WatchMeaning.HonestChainsMeanWhatIsWritten | squirrel_debugger/SquirrelDebugger.cpp:493-536 | Expressions without a foreign dotted name, bracket chains among them, mean what is written |
| WatchMeaning.DottedNameIsHead | squirrel_debugger/SquirrelDebugger.cpp:507-523 | The watch foo.bar on { foo = { foo = 1, bar = 2 } } answers 1 |
| WatchMeaning.InterningExists | squirrel_debugger/SquirrelDebugger.cpp:521-524 | Texts can be interned at different addresses, as the two results about dotted names assume |
| Evaluator.Evaluate | squirrel_debugger/SquirrelDebugger.cpp:441-600 | The worklist returns the recursive meaning of the expression and fails exactly when there is none; it evaluates every sub-expression once, after all those inside it, never takes the internal-error branch, and terminates |
| Evaluator.PushKeepsStack | squirrel_debugger/SquirrelDebugger.cpp:467-480 | Pushing unresolved brackets keeps the stack distinct and unresolved, each entry above the one that encloses it |
| Evaluator.ResultsGrow | squirrel_debugger/SquirrelDebugger.cpp:599 | Filing a result keeps every result right and the order of evaluation right |
| Evaluator.LogIsComplete | squirrel_debugger/SquirrelDebugger.cpp:460-483 | Once the whole expression is resolved, every sub-expression has been |
| Evaluator.FailureGoesUp | squirrel_debugger/SquirrelDebugger.cpp:562-589 | A sub-expression without a value leaves the whole expression without one |
| Evaluator.AddressesAreAll | squirrel_debugger/SquirrelDebugger.cpp:460-476 | The finite set that bounds the worklist holds exactly the sub-expressions |
| Evaluator.LookupInTemp | squirrel_debugger/SquirrelDebugger.cpp:547-570 | Looking a name up in the temporary table that holds just that local leads to what the local's value leads to |
| Evaluator.PushUnresolved | squirrel_debugger/SquirrelDebugger.cpp:464-481 | Pushes exactly the bracket expressions of the chain that have no result yet |
| Evaluator.BuildAccessors | squirrel_debugger/SquirrelDebugger.cpp:487-537 | The accessor list is the one the meaning asks for, and the branch for a missing result is never taken |
| Evaluator.MakeLiteral | squirrel_debugger/SquirrelDebugger.cpp:505-529 | One literal, or a failure on overflow, with the operand stack as found |
| Evaluator.EvaluateLocal | squirrel_debugger/SquirrelDebugger.cpp:544-579 | Finds the first local of that name and resolves the rest from it; the temporary table leaves no trace |
| Evaluator.ResolveLocal | squirrel_debugger/SquirrelDebugger.cpp:554-574 | The path found in the temporary table, with the local's number in front |
| Evaluator.EvaluateHead | squirrel_debugger/SquirrelDebugger.cpp:539-597 | A literal is its own value; a name is a local if there is one, else a member of the root table |
| Evaluator.GetImmediateValue | squirrel_debugger/SquirrelDebugger.cpp:406-621 | The text must be one whole expression, the VM paused and the expression have a value; the answer is the variable for that value with its path and scope |
| Evaluator.PrintedWatchIsItsMeaning | squirrel_debugger/SquirrelDebugger.cpp:406-621 | A watch on the printed text of any well-formed expression is answered by that expression's meaning if the VM is paused, and with InvalidNotPaused if not |
| Evaluator.WatchIsMeaning | squirrel_debugger/SquirrelDebugger.cpp:406-621 | The same for every text of the grammar: the value with its path and scope, and the variable that describes it field by field |
| Evaluator.OtherWatches | squirrel_debugger/SquirrelDebugger.cpp:413-433 | Every other text is refused with InvalidParameter, paused or not, except a blank one |
| Evaluator.IndexedWatch | squirrel_debugger/SquirrelDebugger.cpp:406-621 | name[n] on an array of the root table answers element n with the path to it |
| Evaluator.WatchThenList | squirrel_debugger/SquirrelDebugger.cpp:406-621 | Listing by the text of the path a watch returned lists the children of the object the watch found |

## Left out

- StepControl.StepStopsExactly: counts each call event as one step; `PauseRefinement.InterleavedStepStops` is the statement over interleavings in which no pause writes the counter inside the unlocked increment.
- StepControl.PauseLatch: likewise; `PauseProtocol.PauseStaysDueIff` is the statement under all interleavings.
- PauseRefinement.InterleavingsRefine: spurious wake-ups, which the sequential machine does not have, are left to `PauseProtocol`.
- PauseProtocol.Reachable: a critical section other than that of PauseExecution changes the request and the counter in one step: those of Continue and of a breakpoint write the request once and only the VM thread reads the counter unlocked, and a step is accepted only while that thread waits; attaching and detaching a VM are not among its actions, only methods of the debugger object.
- Listing.CreateChildVariables: a page of a small table must not start beyond its end, where the original moves an iterator past the end of a vector; an iterator given for a large table is a slot position, and pages of large tables are not shown to partition it.
- Listing.CreateChildVariable: the exception for an instance whose class has no name anywhere, which leaves the class on the operand stack; balance on every exit is not claimed of it.
- Navigation.ResolvedPathLeadsBack: tables and arrays have at most 2^31 slots, so that iterators are ints.
- WatchSyntax.NumericEscapeExactly: `\u` with more than four digits, which writes beyond its buffer, is an error here and nothing further is said about it.
- WatchReader.ProcessStringEscape: `\u` with more than four digits, which writes beyond its buffer, likewise.
- WatchGrammar.EscapeExactly: `\u` with more than four digits, which writes beyond its buffer, likewise.
- WatchReader.ReadNumericEscape: `\u` with more than four digits, which writes beyond its buffer, likewise.
- Evaluator.Evaluate: reference counts of the strings it makes are not modelled, nor where in the temporary table the one entry lies, which never shows.
- Wrap-around of `returnsRequired`, and the bound of 1024 on the depth of `currentStack`, which the original asserts.
- The print callback, attaching to a script that is already inside functions, and the source-name cache surviving a change of the script's strings.
- The text of values and keys (`ToString`, table summaries, class and closure names, float formatting and parsing): arbitrary functions of the object and the heap.
- Delegates and metamethods: a lookup finds own members only, and the sizes of delegates are arbitrary.
- `embedded_server/`, the data transfer objects, `sample_app/`, logging and the delivery of status events.
