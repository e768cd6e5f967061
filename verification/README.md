# Verification model of runwhenidle

runwhenidle supervises one command: it stops the command's whole process tree
while the user is active and continues it while the user is idle. This project
models that program in Dafny and proves what it keeps on every run.

`dafny verify dfyconfig.toml` checks the whole project.

## What is modelled

| module | part of the program | form |
|---|---|---|
| `ProcessTree`, `ProcessTable` | finding all descendants of a process from one reading of /proc | methods over arrays, against a certificate `Lists` |
| `Snapshot` | from the text of /proc to the tree it describes | lemmas that join `StatLine`, `ProcessTable`, `ProcessTree` and `TreeSignals` |
| `StatLine`, `CNumbers` | the parser of `/proc/<pid>/stat`, `strtol`, printed numbers | a scanning method, against the printer |
| `TreeSignals` | pausing and resuming a tree, on one snapshot and while processes fork and exit | a class, and a transition system |
| `Supervisor` | `main`, the Wayland event loop, the X11 polling loop, the loop that only waits, the handling of signals | a class with the program's variables as fields |
| `SupervisorTrace`, `Script` | what a run may do, and which answers it was given | two automata over whole runs |
| `SupervisorDuties` | what every run owes to the answers it gets | laws over the actions of allowed traces |
| `IdlePolling`, `TimeUtils` | the decision of one X11 pass, the sleep time, real time | functions and lemmas over timed runs |
| `WitnessRuns` | runs that do what the documentation does not expect | concrete traces both automata accept |
| `ExitDetection` | which ends of a child `waitpid` can reveal to the supervisor | a history of child events |
| `EndToEnd` | from the supervisor's bookkeeping to the processes | lemmas over both systems |
| `WaylandObjects` | creation and destruction of protocol objects | a class with a ghost history |
| `EnvironmentGuessing` | the choice of a Wayland socket and of an X11 display | methods over directory listings |
| `Arguments` | joining the command line into one shell command | a two-pass method over an array |

**Tree search.** A `Slot` says from which queue entry a row was reached. A
queue is `BreadthFirst` when every slot is justified, the slots are in scan
order and every entry has been scanned. `Lists` says that some breadth-first
queue has these rows. The lemmas derive from `Lists` alone that it holds each
descendant once, parents first, by depth, and that it is unique. The original
writes past its buffer for some tables. The method then sets `overrun`, and its
contract says for exactly which tables: the root is its own ancestor, or every
row descends from the root. No acyclicity is assumed. With distinct process ids
a cycle reachable from the root has to contain the root.

**The supervisor.** A run is driven by a script: the answers of poll, the
dispatch functions, `waitpid`, the clocks and the idle query, one record for
each pass of a loop. Scripts are arbitrary finite sequences, and a run that
uses up its script ends as `Cut`, so the contracts speak about every prefix of
every run. `RunMain` leaves a ghost trace of actions. Two automata, which know
nothing of the program's code, watch it. `SupervisorTrace` keeps what is due
after each action (a reported event creates a duty; no poll, sleep, new pass or
return is allowed while a duty is open). `Script` makes sure that every action
uses the answer given for its pass and that a pass is worked through before the
next begins. `RunMain` promises, however the run ends, that both automata accept
its trace, that the passes begun are those of the script in their order, and that
the sleeps of the X11 loop are those of the timed model (`FollowsScript`). The
properties of whole runs are proved of the automata, by induction over traces.
`SupervisorDuties` restates what the first automaton demands in terms of the
trace alone: which action has to follow a poll's report before the loop goes on,
and which answers end it. `Script.AnswersComeFromTheirPass` does the same for the
second.
The local variables of the Wayland loop are fields, and its body is divided into
methods in the order of the source.

**The changing tree.** In `TreeSignals` processes fork and exit between any two
signals. `EndToEnd` joins this system to the supervisor's traces: when the
program returns, nothing is left stopped.

## Hypotheses

- `kill`, `/proc` and memory allocation do not fail; the original otherwise exits at once, possibly half way through a tree.
- Process ids in one reading of /proc are distinct and positive, and numbers in names there fit an int. One reading is a snapshot.
- While the tree changes: a process exits after its children, so nobody is reparented; nobody exits between being listed and being signalled; the stop signal is honoured, and nobody else stops or continues these processes. A parent started before its children, and a process id is not reused while a row still names it as parent.
- Exit statuses are bytes, clocks do not run backwards, and the kernel returns -1 or a non-negative descriptor.
- Idle events arrive only within the two dispatch functions. Timing is proved with a bound, `slack`, on the time the program does not measure; the processing itself takes model time only there.
- The compositor's alternation of idled and resumed (ext_idle_notification_v1) is a hypothesis only of the two lemmas that need it.

## What turned out differently from the documentation

- The documentation says that an idle user's activity is looked at once per second. The X11 loop looks every 100 ms if and only if the command was not paused on entry and every idle time read while monitoring had reached the timeout (`IdlePolling.PollsTenTimesASecondUntilThePause`); `IdlePolling.AnIdleUserIsLookedAtTenTimesASecond` is such a run.
- The documentation says that on an interruption the command is resumed and then sent the signal. The code sends the signal first (`SupervisorTrace.TheSignalComesBeforeTheResume`). The documented order is kept if and only if there is nothing to resume or the process is external and gets no signal (`SupervisorTrace.DocumentedOrderNeedsOnlyOne`); `WitnessRuns.AStoppedCommandMayGetTheSignalFirst` is a run that does not keep it.
- `get_child_processes` writes past its array exactly when the root is its own ancestor or every row of the table descends from it (`ProcessTree.GetChildProcesses`). `ProcessTree.TablesThatOverrun` gives a table for each case. While the tool itself is a row outside the tree neither happens (`TreeSignals.SnapshotsNeverOverrun`).
- For a name without `") "` the parser returns the parent a stat line was printed with if and only if the head and all digits of the parent fit (`StatLine.PrintedParentIsReadBack`). For every name on one line it does so if and only if the first `") "`, in the name or behind it, is in reach and the token behind that reads as the parent (`StatLine.ReadBackExactlyIfTheTokenNamesTheParent`). A name holding `") "` can print the very line of another process and then makes the parser answer with that one's parent (`StatLine.NameCanImitateAnotherLine`), so no parser could do better.
- A child killed by a signal is never noticed, because the check accepts normal exits only (`ExitDetection.OnlyNormalExitsAreNoticed`). The wait after an interruption has no such gap.
- With a delay of 0 before monitoring, the Wayland backend's timer is never armed (`TimeUtils.TimerValueIsExact`), and without it nothing is ever paused there (`SupervisorTrace.MonitoringNeedsTheTimer`).
- A run that is over leaves a pause outstanding if and only if it ended with the exit, because the command is gone, while the command was paused (`SupervisorTrace.OnlyAnExitLeavesAPause`); `WitnessRuns.AnExitMayLeaveAPause` is such a run. After that every process of the tree stays stopped for as long as it exists, also when the root is gone (`TreeSignals.TheTreeIsStranded`).
- The Wayland socket chosen depends on the order of the directory unless there is a `Winner` (`EnvironmentGuessing.OrderMattersUnlessThereIsAWinner`): the number INT_MAX is taken for no number, and `wayland-1` and `wayland-01` have the same number. The choice of an X11 display never depends on the order, but the scan cuts display numbers to 32 bits: the least one is chosen if and only if no number above INT_MAX falls below it that way (`EnvironmentGuessing.LeastDisplayIsChosenUnlessCut`, with `EnvironmentGuessing.LargeNumbersAreCut` as a counterexample).
- Splitting the joined arguments at spaces gives them back if and only if none is empty or holds a space; what else a shell makes of quotes, tabs and the like is not modelled (`Arguments.WordsSurviveExactlyWithoutSpaces`).
- The branch on `optind == argc` in arguments_parsing.c:48 is commented as the case of one remaining argument; it is the case of none. One argument takes the same path as several.

## Model

| member | source | states |
|---|---|---|
| `ProcessTree.GetChildProcesses` | process_handling.c:173-200 | The in-place search terminates for every table with distinct ids; it leaves its array if and only if the root is its own ancestor or every row descends from it; otherwise what stands before the sentinel is the breadth-first listing of the root's descendants |
| `ProcessTree.ListsEveryDescendantOnce` | process_handling.c:184-193 | A listing holds exactly the transitive descendants of the root, each id once, and never the root |
| `ProcessTree.ListsParentsFirst` | process_handling.c:184-193 | Every listed process whose parent is not the root comes after its parent |
| `ProcessTree.ListsByDepth` | process_handling.c:184-193 | The depths in a listing never decrease |
| `ProcessTree.ListingIsUnique` | process_handling.c:184-193 | A table and a root have only one listing |
| `ProcessTree.QueuesAgree` | process_handling.c:184-193 | Two breadth-first queues of one table agree entry by entry |
| `ProcessTree.NextEntryIsLeast` | process_handling.c:184-189 | After a common prefix the next entry of a queue exists in the other queue too and is not preceded by it |
| `ProcessTree.DepthIsUnique` | process_handling.c:184-193 | A descendant has one depth, if the root is not its own ancestor |
| `ProcessTree.QueuedRowsDescend` | process_handling.c:186-190 | Every queued row descends from the root, at the depth its chain of slots has |
| `ProcessTree.DepthsNeverDecrease` | process_handling.c:184-193 | The in-place queue is ordered by depth |
| `ProcessTree.DescendantsAreQueued` | process_handling.c:184-193 | Every descendant is in a finished queue, not earlier than its depth says |
| `ProcessTree.NoRowTwice` | process_handling.c:184-193 | No row is queued twice, unless the root is its own ancestor |
| `ProcessTree.AFullQueueIsEverything` | process_handling.c:189-190 | A queue is never longer than the table, and one as long as the table holds every row |
| `ProcessTree.AShortQueueMissesARow` | process_handling.c:192-197 | A finished queue shorter than the table leaves a row that does not descend from the root |
| `ProcessTree.CyclesGoArbitrarilyDeep` | process_handling.c:184-193 | If the root is its own ancestor, it is found at depths without bound |
| `ProcessTree.ACycleNeverFinishes` | process_handling.c:184-193 | If the root is its own ancestor, no queue is ever finished |
| `ProcessTree.SearchOutcome` | process_handling.c:189-197 | The queue fills the array exactly in the two overrun cases |
| `ProcessTree.TablesThatOverrun` | process_handling.c:189-197 | A table for each way the array overruns: only a child of the root, and a root in a cycle beside another process |
| `ProcessTree.Enqueue` | process_handling.c:186-190 | Appending a matching row keeps the invariant of the search |
| `ProcessTree.NextEntry` | process_handling.c:184-192 | Going on to the next queue entry keeps the invariant, and after the last one the queue is breadth-first |
| `ProcessTree.BeforeSentinel` | process_handling.c:237-240 | What a caller sees: the rows up to the first process id 0 |
| `ProcessTree.ListingInBuffer` | process_handling.c:197-200 | A finished queue with the sentinel behind it reads as a listing |
| `ProcessTable.ReadAllProcesses` | process_handling.c:129-167 | Every write is within the current capacity, doubling keeps the rows, each entry's stat text is parsed, and the table is the sub-sequence of entries that have rows, in order; reading stops as undefined exactly if the parser has no defined answer for some entry |
| `ProcessTable.ReadEntry` | process_handling.c:148-162 | An entry is skipped, gives a row, or is one the parser has no defined answer for |
| `ProcessTable.NumbersNameProcesses` | process_handling.c:150-154 | A directory whose name is a number, whatever follows it, stands for that process; what is no directory or does not begin like a number stands for none |
| `ProcessTable.Reallocate` | process_handling.c:139-147 | Growing keeps every row |
| `ProcessTable.RowsAreTheReadableProcesses` | process_handling.c:150-166 | A row is in the table if and only if it is the row of some directory entry |
| `ProcessTable.DistinctEntriesGiveValidTable` | process_handling.c:138-167 | A directory that names each process once gives a table with distinct ids |
| `ProcessTable.FindDescendants` | process_handling.c:122-201 | Both stages together: from directory entries and their text to the listing, with the exact conditions for an undefined parse and for an overrun |
| `Snapshot.TheDirectoryGivesTheTable` | process_handling.c:129-167 | If /proc has a directory named by its number for each process, with a fitting line of it, and nothing else that looks like one, the parser answers for each and the table read is that of the world |
| `Snapshot.NamesAreRead` | process_handling.c:150-154 | The processes read from the directory names are those of the world, each once |
| `Snapshot.TheDirectoryGivesTheTree` | process_handling.c:122-201 | Then the listing found is the process tree without its root, and the array never overruns while the tool is outside the tree |
| `Snapshot.RowsAreTheProcesses` | process_handling.c:150-166 | A row is in the table if and only if it is a process with its parent |
| `Snapshot.RowOfAProcess` | process_handling.c:150-166 | The row of a process whose line fits has its own parent, and process 1 has none |
| `StatLine.ReadParentProcessId` | process_handling.c:59-120 | For every text and every previous content of the buffer: the first closing parenthesis followed by a space from index 3 on decides, 0 if there is none; a printed line is read back if and only if it fits |
| `StatLine.ParentOfPrint` | process_handling.c:118-119 | Parsing a printed line behind its parenthesis returns the printed parent if and only if head and parent fit the 85 bytes |
| `StatLine.PrintedParentIsReadBack` | process_handling.c:82-119 | The same for the whole parser, scan included |
| `StatLine.FirstCloseDecides` | process_handling.c:105-119 | For every name on one line, what the parser answers: 0 if the first closing parenthesis with a space behind it is out of reach, and otherwise what the token behind it reads as |
| `StatLine.ReadBackExactlyIfTheTokenNamesTheParent` | process_handling.c:105-119 | For every name on one line the parent is read back if and only if that parenthesis is in reach and the token behind it reads as the parent |
| `StatLine.CloseInName` | process_handling.c:106-112 | The first such parenthesis is the one that closes the name unless the name holds one itself |
| `StatLine.FirstCloseOfPrint` | process_handling.c:100-117 | In the buffer of a printed line the scan from index 3 stops at the first closing parenthesis with a space behind it in the name or right after it, if that is in reach |
| `StatLine.FilledWithPrint` | process_handling.c:93-99 | What the buffer holds after reading a printed line |
| `StatLine.BufferIsExactlyLargeEnough` | process_handling.c:82-92 | Ids up to 4194304 and names up to 64 characters always fit, and for the largest ids not one character more does |
| `StatLine.NameCanImitateAnotherLine` | process_handling.c:106-119 | A name holding the closing sequence can print the line of another process, and the parser then answers with that one's parent |
| `TreeSignals.TreeSignaller.SignalRecursively` | process_handling.c:233-260 | The signal goes to the root first and then in listing order to each proper descendant, each process once and nobody else; for the table of a world with the tool outside the tree these are exactly the processes of the tree; on an overrun only the root has been signalled |
| `TreeSignals.TreeSignaller.PauseCommandRecursively` | process_handling.c:233-242 | The configured stop signal goes to the root first and then in listing order to each proper descendant, each process once and nobody else; for the table of a world with the tool outside the tree these are exactly the processes of the tree; on an overrun only the root has been signalled |
| `TreeSignals.TreeSignaller.ResumeCommandRecursively` | process_handling.c:251-260 | SIGCONT goes to the root first and then in listing order to each proper descendant, each process once and nobody else; for the table of a world with the tool outside the tree these are exactly the processes of the tree; on an overrun only the root has been signalled |
| `TreeSignals.TreeSignaller.SignalListed` | process_handling.c:237-240 | The loop over the listing signals the rows before the sentinel in order |
| `TreeSignals.ListedAreReached` | process_handling.c:233-260 | Signalling the root and a listing reaches exactly the root and its descendants, each once |
| `TreeSignals.ReachedIsTheTree` | process_handling.c:233-260 | Those are exactly the processes of the tree, in the world the table shows |
| `TreeSignals.TheSignalsReachTheTree` | process_handling.c:233-260 | The signals of a pause stop the whole tree, those of a resume continue it, and nobody else is touched |
| `TreeSignals.PauseAndResumeSignalTheSame` | process_handling.c:233-260 | On an unchanged tree pause and resume signal the same processes in the same order, each once |
| `TreeSignals.ListingIsTheTree` | process_handling.c:122-201 | The listing of a snapshot is the process tree without its root, and a tool outside the tree rules out the overrun |
| `TreeSignals.NextKeepsInvariant` | process_handling.c:233-260 | Every signal, snapshot, fork and exit keeps: what is stopped is in the tree, and during a resume what is still stopped is still to be signalled |
| `TreeSignals.RunsKeepInvariant` | process_handling.c:233-260 | The invariant holds at every moment of every run |
| `TreeSignals.StoppedStaysInTheTree` | process_handling.c:233-260 | Whatever the tool has stopped is at every moment the root or one of its current descendants |
| `TreeSignals.ResumeLeavesNothingStopped` | process_handling.c:251-260 | After a completed resume nothing is stopped, whatever has been forked or has exited |
| `TreeSignals.SnapshotsNeverOverrun` | process_handling.c:173-200 | No snapshot taken in a run overruns the array |
| `TreeSignals.QuietPauseStopsTheTree` | process_handling.c:233-242 | If nothing forks or exits meanwhile, a pause stops exactly the whole tree |
| `TreeSignals.StoppedAfterSignals` | process_handling.c:237-240 | What is stopped after a list of processes has been signalled |
| `TreeSignals.TheTreeIsStranded` | process_handling.c:233-242 | If the tool ends after a pause, exactly those processes of the tree stay stopped that have not exited themselves, also after the root has gone |
| `TreeSignals.StoppedUntilItExits` | process_handling.c:233-242 | Without the tool a stopped process stays stopped until it exits |
| `EndToEnd.NothingIsLeftStoppedAtReturn` | main.c:84-127 | When the program returns with its operations complete, no process is left stopped by it |
| `EndToEnd.BookkeepingMatchesTheTree` | main.c:129-142 | command_paused holds exactly when the last operation on the tree was a pause |
| `Supervisor.Supervisor.RunMain` | main.c:592-679 | Every run of main, however it ends, is accepted by both automata, begins the passes of its script in their order, and sleeps in the X11 loop for the times of the timed model; it ends with the return, with the exit of the finished command's code, or has used up the script |
| `Supervisor.Supervisor.MonitorOnWayland` | main.c:592-596 | The same up to the failure of the Wayland backend, after which every descriptor is closed and nothing has slept |
| `Supervisor.Supervisor.MonitorByPolling` | main.c:598-678 | The same from there on |
| `Supervisor.Supervisor.RunWaylandIdleEventLoop` | main.c:217-495 | However it ends, the passes begun are the set-up, k passes of the event loop and d of the loop that only waits, in the script's order; every descriptor is closed on each way out but exit |
| `Supervisor.Supervisor.LeaveWaylandLoop` | main.c:481-494 | Each way out closes the descriptors and goes on as the source does |
| `Supervisor.Supervisor.SetUpWaylandLoop` | main.c:218-300 | The set-up fails exactly if a needed descriptor cannot be had; otherwise the poll array holds the right descriptors and the command has been checked once |
| `Supervisor.Supervisor.OpenDescriptors` | main.c:221-254 | All needed descriptors are open, or the loop is to be left for the polling backend |
| `Supervisor.Supervisor.OpenStartTimer` | main.c:221-230 | The start timer is open or the set-up fails |
| `Supervisor.Supervisor.OpenExitDescriptors` | main.c:238-254 | The process descriptor is open if there is one, and only without one the fallback timer is tried |
| `Supervisor.Supervisor.FillPollArray` | main.c:256-298 | The slots are distinct, within the five elements, and hold display, start timer, signals and, in slot 3, the open exit descriptor, which its index names |
| `Supervisor.Supervisor.CheckBeforeLoop` | main.c:299-300 | The command is checked once before the first pass |
| `Supervisor.Supervisor.WaylandLoopPass` | main.c:303-479 | One pass, from any state between passes: it ends with all reported events dealt with, or leaves the loop for a reason the automaton accepts |
| `Supervisor.Supervisor.HeedSignals` | main.c:304-312 | An interruption is handled and a child signal checked before anything else in a pass |
| `Supervisor.Supervisor.WaitForEvents` | main.c:314-356 | Pending events, flush and poll in order; events are looked at only after all three succeed |
| `Supervisor.Supervisor.DispatchPendingEvents` | main.c:314-323 | Pending events are delivered; an interrupted call starts the pass again, any other failure gives the backend up |
| `Supervisor.Supervisor.FlushRequests` | main.c:325-338 | A blocked flush is remembered for the poll, an interrupted one starts the pass again, any other failure gives the backend up |
| `Supervisor.Supervisor.PollDescriptors` | main.c:340-356 | The poll asks for writability exactly while a flush is blocked; a failed poll hands over |
| `Supervisor.Supervisor.HandleEvents` | main.c:358-478 | After a poll signals, display, timer, end of the command and events are dealt with in this order and none is left over |
| `Supervisor.Supervisor.HandleDisplayEvents` | main.c:358-387 | Signals are read first; an invalid display hands over, a closed one gives up, a writable one is flushed |
| `Supervisor.Supervisor.FlushWhenWritable` | main.c:374-387 | The second flush; only a failure other than EAGAIN and EINTR gives the backend up |
| `Supervisor.Supervisor.StartMonitoringIfDue` | main.c:389-424 | The start timer is looked at only before monitoring; a broken one hands over |
| `Supervisor.Supervisor.StartMonitoring` | main.c:404-423 | A fired timer is read and closed, monitoring starts, the notification is requested and the command paused, in this order |
| `Supervisor.Supervisor.RetireStartTimer` | main.c:404-411 | The timer is read, closed once, and its slot disabled |
| `Supervisor.Supervisor.RequestNotification` | main.c:415-422 | With the notification object the command is paused at once; without it the backend is given up |
| `Supervisor.Supervisor.CheckForExit` | main.c:426-464 | Whichever exit descriptor is open is dealt with |
| `Supervisor.Supervisor.CheckProcessDescriptor` | main.c:426-438 | An invalid process descriptor hands over, a ready one leads to a check |
| `Supervisor.Supervisor.CheckFallbackTimer` | main.c:440-464 | A broken fallback timer hands over, a fired one is read and leads to a check |
| `Supervisor.Supervisor.DispatchWhenReadable` | main.c:466-478 | Events of a readable display are delivered; only a failure other than EINTR and EAGAIN gives the backend up |
| `Supervisor.Supervisor.DeliverEvents` | main.c:144-177 | All events of one dispatch are delivered in order, and nothing but the paused flag depends on them |
| `Supervisor.Supervisor.WaylandIdleNotificationIdled` | main.c:144-161 | After idled the command is not paused, and nothing is done that was not due |
| `Supervisor.Supervisor.WaylandIdleNotificationResumed` | main.c:163-177 | After resumed the command is paused exactly if monitoring has started |
| `Supervisor.Supervisor.ResumeAndWaitForPidToExitCheckingForSignals` | main.c:187-210 | A paused command is resumed first; then the passes given are begun in order, only wait, and end with an interruption or the end of the command |
| `Supervisor.Supervisor.WaitingPass` | main.c:198-209 | One such pass: interruption, check, and 100 ms of sleep |
| `Supervisor.Supervisor.SleepForMsWithSignalfd` | main.c:179-185 | One poll with a positive timeout that fits an int, after which pending signals are read |
| `Supervisor.Supervisor.ProcessSignalfd` | main.c:62-73 | The signal descriptor is read empty: the last interrupting signal wins and a child signal is remembered |
| `Supervisor.Supervisor.HandleInterruption` | main.c:84-127 | From any running state: an own command gets the signal, a paused one is resumed, and the code is the command's, or 0 for an external process |
| `Supervisor.Supervisor.ForwardInterruption` | main.c:85-109 | SIGINT or SIGTERM is sent to an own command and to no external process |
| `Supervisor.Supervisor.ResumeIfPaused` | main.c:111-121 | A paused command is resumed and no longer counts as paused |
| `Supervisor.Supervisor.WaitForPidToExitSynchronously` | process_handling.c:262-271 | The code returned is the exit status of the awaited command |
| `Supervisor.Supervisor.ExitIfPidHasFinished` | process_handling.c:274-301 | The program exits with the code of a finished command and otherwise only forgets that a check was due |
| `Supervisor.Supervisor.ProbePid` | process_handling.c:274-289 | An external process has finished if it cannot be signalled, an own one only if waitpid reports a normal exit |
| `Supervisor.Supervisor.PauseRunningCommandOnUserActivity` | main.c:138-142 | One pause of the tree, after which the command counts as paused |
| `Supervisor.Supervisor.ResumePausedCommandOnUserIdle` | main.c:129-136 | One resume of the tree, after which it does not |
| `Supervisor.Supervisor.CloseFileDescriptorIfOpen` | descriptor_utils.c:47-61 | An open descriptor is closed once and set to -1; a closed one is left alone |
| `Supervisor.Supervisor.CloseAll` | main.c:490-492 | All descriptors of the Wayland loop are closed and nothing else changes |
| `Supervisor.Supervisor.RunX11Loop` | main.c:619-678 | However it ends, the passes given are begun in order, and all but an unfinished last one have slept for the times of the timed model |
| `Supervisor.Supervisor.X11LoopPass` | main.c:632-678 | One pass agrees with the decision model and sleeps once, for a time that fits an int |
| `Supervisor.Supervisor.SleepUntilNextLook` | main.c:670-677 | One sleep of the time decided on, cut to an int, that fits the automaton's state |
| `Supervisor.Supervisor.RangeFits` | main.c:670-677 | A sleep in the range of the timed model fits the automaton's state |
| `Supervisor.Supervisor.HeedSignalsInX11` | main.c:633-647 | An interruption is handled and a child signal checked before anything else in a pass |
| `Supervisor.Supervisor.LookAndDecide` | main.c:648-669 | Clock or idle time, then the check, then the decision |
| `Supervisor.Supervisor.StartMonitoringByClock` | main.c:648-656 | Monitoring starts exactly when the delay has passed on the clock |
| `Supervisor.Supervisor.PauseOrResumeCommandDependingOnUserActivity` | main.c:497-556 | Pause, resume and sleep time are those of the decision model; the unsigned subtraction never wraps |
| `IdlePolling.PassSleepsInRange` | main.c:497-556 | One pass keeps the sleep between its bounds, and poll gets a positive int |
| `IdlePolling.RunsSleepInRange` | main.c:619-677 | At every sleep of every run: 100 or 1000 ms while the command runs, 1000 ms up to the timeout while it is paused |
| `IdlePolling.PollsTenTimesASecondUntilThePause` | main.c:619-677 | The loop polls every 100 ms if and only if the command is not paused on entry and every idle time read while monitoring has reached the timeout |
| `IdlePolling.NeverPausedExactlyWhenAlwaysIdle` | main.c:648-669 | The loop never has the command paused if and only if the same holds |
| `IdlePolling.SlowsDownWithThePause` | main.c:500-545 | The sleep leaves 100 ms exactly with the first pause |
| `IdlePolling.MonitoringStartsByTheClock` | main.c:648-656 | A pass monitors if and only if monitoring had started on entry or the clock has reached the delay by then |
| `IdlePolling.AnIdleUserIsLookedAtTenTimesASecond` | main.c:619-677 | A run with an idle user that is monitored and polls every 100 ms |
| `IdlePolling.WithoutIdleTimeNothingIsPaused` | main.c:75-82 | Without an idle source an inherited pause ends at the first pass and no pass ever pauses |
| `IdlePolling.PausedExactlyWhileTheUserIsActive` | main.c:500-522 | After every observation the command is paused if and only if the last input is less than the timeout ago, in real time |
| `IdlePolling.PausedNeverOverstays` | main.c:524-545 | A paused command is looked at again less than one polling interval, the measured pausing time and the slack after the timeout has run out |
| `IdlePolling.ResumedOnceAndInTime` | main.c:632-678 | Over a whole run: from an observation of an active user on, with no further input, the command stays paused until the timeout has run out, and the first observation after that, which comes in time, resumes it |
| `IdlePolling.PauseSleepsToTheDeadline` | main.c:524-545 | The sleep of a paused command ends within 2 ms after the deadline or is one polling interval |
| `IdlePolling.PauseSleepsUpToTheDeadline` | main.c:524-545 | The sleep of a paused command does not end a millisecond or more before the deadline, unless it is the longest poll can wait |
| `IdlePolling.NoLookBeforeTheDeadline` | main.c:524-545 | While the command is paused, a look no signal brings forward comes less than a millisecond before the deadline at the earliest |
| `IdlePolling.AnActiveUserIsLeftAlone` | main.c:524-545 | With a timeout of five minutes and an active user the next look comes after five minutes |
| `IdlePolling.NoActivityIsMissed` | main.c:665-677 | Input between two observations of a running command is seen as activity by the second, which pauses |
| `IdlePolling.WholeMillisecondsDecide` | main.c:500 | Truncation to milliseconds does not change the comparison with the timeout |
| `SupervisorTrace.StepsAreSound` | main.c:84-679 | Every allowed action keeps the automaton's invariant and moves only the parts of the state it may |
| `SupervisorTrace.RunsAreConsistent` | main.c:558-679 | The invariant holds after every allowed run; paused implies monitoring |
| `SupervisorTrace.PauseAndResumeAlternate` | main.c:129-142 | On every run pauses and resumes alternate, beginning with a pause, and the command counts as paused exactly after a pause |
| `SupervisorTrace.NothingOutstandingAtReturn` | main.c:592-643 | Whenever main returns, every pause has been undone and every descriptor of the Wayland loop is closed |
| `SupervisorTrace.OnlyAnExitLeavesAPause` | process_handling.c:291-300 | A run that is over leaves a pause outstanding if and only if it ended with the exit after a check while the command was paused |
| `WitnessRuns.AnExitMayLeaveAPause` | process_handling.c:279-299 | A run that exits because an external process is gone while the user is active, with the pause outstanding |
| `SupervisorTrace.AnExitEndsTheRun` | process_handling.c:299 | A run that is over because the command has finished ended with the exit of that code |
| `SupervisorTrace.TheEndIsFoundByACheck` | process_handling.c:274-289 | The code a run knows the command to have finished with is the answer to a check in the run |
| `SupervisorTrace.HandoverKeepsState` | main.c:592-632 | The polling backend inherits paused, monitoring and interruption, paused implies monitoring, and no descriptor is left open |
| `SupervisorTrace.InterruptionIsTheLastRead` | main.c:67-68 | The interruption known is the last one read from the signal descriptor |
| `SupervisorTrace.NoPollAfterAnInterruption` | main.c:303-307 | After an interrupting signal has been read no poll and no sleep ever happens again |
| `SupervisorTrace.ExactlyOneSignalIsForwarded` | main.c:84-109 | A run that returns has forwarded exactly one signal, the last one read, and nothing to an external process |
| `SupervisorTrace.ForwardedFollowsStage` | main.c:84-109 | What has been forwarded at each stage of a run |
| `SupervisorTrace.TheSignalComesBeforeTheResume` | main.c:84-121 | In every run that returns, an interruption is followed by the signal to an own command, then by the resume of a paused one, and by nothing else |
| `SupervisorTrace.DocumentedOrderNeedsOnlyOne` | README.md:41-44 | The resume comes before the signal, as documented, if and only if one of the two is not needed |
| `SupervisorTrace.AftermathFollowsStage` | main.c:84-121 | What has followed the interruption at each stage of a run |
| `WitnessRuns.AStoppedCommandMayGetTheSignalFirst` | main.c:84-121 | A run in which a paused command is sent SIGINT and resumed only then |
| `SupervisorTrace.ChildSignalIsCheckedBeforePolling` | main.c:309-312 | Between reading SIGCHLD and the next poll or sleep the command is checked |
| `SupervisorDuties.SignalsAreReadFirst` | main.c:358-361 | After a poll that reports signals nothing but closing descriptors happens before they have been read |
| `SupervisorDuties.TheDisplayIsServed` | main.c:374-387 | A display reported writable is flushed and one reported readable is read before the loop goes on |
| `SupervisorDuties.AReportedEndIsChecked` | main.c:426-463 | If the open process descriptor is reported ready, or the open fallback timer fired, the command is checked before the loop goes on |
| `SupervisorDuties.TheFallbackTimerIsRead` | main.c:455-460 | A fallback timer reported fired is read before the loop goes on |
| `SupervisorDuties.TheStartTimerStartsMonitoring` | main.c:404-418 | If the open start timer is reported fired, it is read, then monitoring starts, then the notification object is requested, before the loop goes on |
| `SupervisorDuties.TheStartPauses` | main.c:420-422 | With the notification object there a running command is paused before the loop goes on |
| `SupervisorDuties.ALostDisplayEndsTheLoop` | main.c:363-372 | An invalid display ends the loop and never gives the backend up without a successor; a closed one ends it and never hands over |
| `SupervisorDuties.ABrokenDescriptorEndsTheLoop` | main.c:392-402 | After a report that a polled descriptor of the loop is broken the loop never goes on |
| `SupervisorDuties.TheAnswerDecidesTheWayOut` | main.c:314-478 | Each failure ends the loop for good, and either gives the backend up or hands over, never both |
| `SupervisorDuties.TheWayOutHasAReason` | main.c:314-478 | The backend is given up, or handed over, only after one of the failures that call for it |
| `SupervisorDuties.TroubleIsNotInvented` | main.c:392-453 | A descriptor is found broken only if a poll has reported one |
| `SupervisorDuties.EveryOpenDescriptorIsPolled` | main.c:256-298 | Every poll of the loop asks about each open descriptor, the start timer in slot 1 and the exit descriptor in slot 3 |
| `SupervisorDuties.NoWaitingForAStoppedCommand` | main.c:187-209 | The loop that only waits never begins a pass or sleeps while the command is paused |
| `SupervisorDuties.TheCommandIsCheckedFirst` | main.c:657-669 | Between looking at the idle time and pausing or resuming, and between any two sleeps, the command is checked |
| `SupervisorDuties.TheClockStartsMonitoring` | main.c:648-656 | When the clock has reached the delay, monitoring starts before the X11 loop looks or sleeps |
| `SupervisorDuties.TheLastOneCounts` | main.c:66-72 | Of a batch of signals the last interrupting one counts |
| `SupervisorDuties.TheLastSignalReadIsForwarded` | main.c:84-109 | An own command is sent the very last interrupting signal that was read, and no other |
| `SupervisorDuties.TheEndIsHeeded` | process_handling.c:274-300 | A check that finds the command ended is followed by the exit at once |
| `SupervisorDuties.AnExternalProcessEndsWithZero` | process_handling.c:279-283 | For an external process the program exits with 0, and only after a check that could not signal it |
| `SupervisorDuties.AnOwnCommandEndsWithItsCode` | process_handling.c:284-289 | For an own command the program exits with the code of a normal exit that a check has reported |
| `SupervisorDuties.TheReturnedCode` | main.c:122-126 | A run that returns returns 0 for an external process and otherwise the status the command was waited for with |
| `SupervisorDuties.DutyIsDone` | main.c:303-479 | Whatever an answer has made necessary is done before the loop goes on |
| `Script.AnswersComeFromTheirPass` | main.c:303-479 | Every answer a run uses is the one given for the pass it is in and for that very question; each dispatch delivers all the events given to it, in order |
| `SupervisorTrace.OpenedAndClosedMatch` | main.c:221-298 | At any moment what has been opened has been closed, except what is open now |
| `SupervisorTrace.EveryDescriptorIsClosedOnce` | main.c:481-494 | On every way out of the Wayland loop each opened descriptor has been closed exactly once |
| `SupervisorTrace.PausedWhileNotIdle` | main.c:144-177 | With an alternating compositor the command is paused exactly while the user is not idle, until the Wayland loop ends |
| `SupervisorTrace.EveryEventActs` | main.c:156-176 | With an alternating compositor every idled resumes and every resumed pauses; neither callback finds nothing to do |
| `SupervisorTrace.MonitoringNeedsTheTimer` | main.c:389-413 | The Wayland loop monitors only after a poll has reported the start timer |
| `SupervisorTrace.RunsObey` | main.c:657-669 | In the X11 loop what is due and what is paused follow the idle time observed last |
| `SupervisorTrace.SleepsOnlyAfterActing` | main.c:657-677 | A monitoring X11 loop goes to sleep only with the command paused exactly if the idle time was below the timeout |
| `SupervisorTrace.EverySleepFits` | main.c:670-677 | Every sleep of every run: 100 ms while only waiting, 100 or 1000 ms while the command runs, 1000 ms up to the timeout, cut to an int, while it is paused |
| `ExitDetection.OnlyNormalExitsAreNoticed` | process_handling.c:285-300 | The supervisor ends with a code if and only if its child exited normally with it and was asked about afterwards |
| `ExitDetection.StateAfter` | process_handling.c:285-288 | What the kernel still keeps of a child after any history of ends and questions |
| `TimeUtils.ElapsedIsAdditive` | time_utils.c:3-7 | Elapsed times add up over intermediate instants |
| `TimeUtils.ElapsedIsWithinAMillisecond` | time_utils.c:3-7 | The result is off by less than a millisecond and not negative for ordered instants |
| `TimeUtils.TimerValueIsExact` | descriptor_utils.c:17-19 | A timer value is normalised, stands for exactly the delay, and disarms the timer only for delay 0 |
| `WaylandObjects.IdleBackend.TryMonitorWaylandIdleNotify` | wayland.c:168-196 | For every sequence of announcements and attempts each created object has been destroyed once and the display last; seat, notifier and notification are made once, from the first offer |
| `WaylandObjects.IdleBackend.TryInitializeWaylandIdleBackend` | wayland.c:69-104 | The backend is available exactly if connection, registry, seat and notifier are there; otherwise everything made is destroyed |
| `WaylandObjects.IdleBackend.WaylandRegistryGlobal` | wayland.c:136-153 | The first seat and the first notifier are bound, all else is ignored |
| `WaylandObjects.IdleBackend.StartWaylandIdleNotificationObject` | wayland.c:106-134 | At most one notification is requested, with the request its version allows and a saturated timeout |
| `WaylandObjects.MadeAndDestroyedMatch` | wayland.c:168-196 | In every proper history the objects made are those destroyed, in order, and at most one alive |
| `WaylandObjects.EverythingMadeIsDestroyed` | wayland.c:174-193 | After a complete history each object made has been destroyed once |
| `WaylandObjects.AtMostOneOfEachKind` | wayland.c:143-152 | Until an object is destroyed no second one of its kind is made |
| `WaylandObjects.TheRequestFitsTheNotifier` | wayland.c:115-124 | The version bound is at most 2 and at most the advertised one; the input-only request is made exactly from version 2 on; the timeout is the one asked for or the largest of 32 bits |
| `WaylandObjects.TheFirstOfferCounts` | wayland.c:143-152 | The object used is that of the first announcement of its interface that can be bound |
| `EnvironmentGuessing.FindBestWaylandSocketInRuntimeDir` | environment_guessing.c:14-120 | The search returns path and name of the choice, or nothing without a candidate or with a buffer too small; the choice is a socket of the directory; a winner is always the choice, and the socket wayland-n with the least n below INT_MAX is one in every order |
| `EnvironmentGuessing.NumberBehindThePrefix` | environment_guessing.c:57-71 | The number printed behind wayland- is read back up to INT_MAX; a larger one, or one followed by anything, counts as none |
| `EnvironmentGuessing.NoNumberBehindThePrefix` | environment_guessing.c:57-60 | A suffix that is empty or does not begin with a digit counts as none |
| `EnvironmentGuessing.CandidatesAreTheSockets` | environment_guessing.c:37-55 | The candidates are exactly the names of sockets with the prefix whose path fits |
| `EnvironmentGuessing.LeastSocketWins` | environment_guessing.c:73-86 | The socket with the least number below INT_MAX wins, whatever the order of the directory and whatever other names without a number there are |
| `EnvironmentGuessing.ChoiceIsASocket` | environment_guessing.c:37-86 | Whatever is chosen is a socket with the prefix |
| `EnvironmentGuessing.SelectDescribes` | environment_guessing.c:73-86 | What the choice is for any listing: the least number below INT_MAX, or without numbers the least name |
| `EnvironmentGuessing.WinnerIsSelected` | environment_guessing.c:73-86 | A winner is chosen in whatever order the directory is read |
| `EnvironmentGuessing.OrderMattersUnlessThereIsAWinner` | environment_guessing.c:73-86 | The choice is the same for every order of the directory if and only if there is a winner |
| `EnvironmentGuessing.LessIsAnOrder` | environment_guessing.c:83 | Of two different names exactly one is before the other |
| `EnvironmentGuessing.LessIsTransitive` | environment_guessing.c:83 | And this carries over from name to name |
| `EnvironmentGuessing.FirstDifferenceDecides` | environment_guessing.c:83 | The first characters that differ decide, and a name is before its continuations |
| `EnvironmentGuessing.FindBestX11DisplayFromSocketDir` | environment_guessing.c:171-210 | The least display number as read from the sockets, or none if no socket has one |
| `EnvironmentGuessing.BestDisplayIsLeast` | environment_guessing.c:198-201 | The choice is the least of the numbers as read |
| `EnvironmentGuessing.BestDisplayIgnoresTheOrder` | environment_guessing.c:171-202 | The choice is the same for every order of the directory |
| `EnvironmentGuessing.NumbersAreReadCut` | environment_guessing.c:184-189 | A number is read clamped to a long and cut to an int, never larger, and unchanged up to INT_MAX |
| `EnvironmentGuessing.NoDisplayNumber` | environment_guessing.c:176-196 | What is no socket, does not begin with X and a digit, or has text behind the number, is no display |
| `EnvironmentGuessing.LeastDisplayIsChosenUnlessCut` | environment_guessing.c:185-201 | The display with the least number in its name is chosen if and only if every number is up to INT_MAX or, clamped and cut to an int, not below that least number |
| `EnvironmentGuessing.SmallNumbersGiveTheLeastDisplay` | environment_guessing.c:171-202 | With all numbers up to INT_MAX the least display is chosen for every order of the directory |
| `EnvironmentGuessing.LargeNumbersAreCut` | environment_guessing.c:185-201 | A number beyond 32 bits is taken for the small display number it leaves and wins against a display that is really the least |
| `Arguments.ReadRemainingArgumentsAsChar` | arguments_parsing.c:53-80 | Both passes agree, every byte is written within the buffer, and it holds the joined arguments and a terminator |
| `Arguments.JoinFits` | arguments_parsing.c:53-57 | The bytes counted are the joined arguments and one more |
| `Arguments.JoinOfParts` | arguments_parsing.c:69-78 | One argument stays as it is, and two lists joined have a single space between them |
| `Arguments.CopyArguments` | arguments_parsing.c:69-76 | The second pass fills the buffer with the joined arguments and a space |
| `Arguments.AppendArgument` | arguments_parsing.c:71-74 | One argument and a space are written behind what is there |
| `Arguments.WordsOfJoin` | arguments_parsing.c:69-78 | Words without spaces are found again in the joined string |
| `Arguments.WordsSurviveExactlyWithoutSpaces` | arguments_parsing.c:69-78 | Splitting the joined string at its spaces gives the arguments if and only if none of them is empty or holds a space |
| `CNumbers.ValueOfDecimal` | process_handling.c:119 | Reading a printed number gives the number back |
| `CNumbers.TruncationShrinks` | process_handling.c:94 | A printed number that loses digits at its end changes its value |
| `CNumbers.ToInt` | environment_guessing.c:189 | A long becomes the one int that differs from it by a multiple of 2^32 |

## Left out

- Option parsing with `getopt_long`, usage and version text, and the redirection of stderr; only the accepted range of the timeout is kept, in `Settings`.
- The branch of arguments_parsing.c:48-51 for no remaining argument, which duplicates the null entry of `argv`; the join is modelled for one or more arguments.
- The loop that turns `--pause-method` into upper case (arguments_parsing.c:163), which runs over the size of a pointer.
- `fork`, `execl`, `kill`, `waitpid`, `poll`, `signalfd`, `timerfd` and `pidfd_open` themselves: their answers are part of the script, their calls are actions of the trace.
- The retry of an interrupted read in `consume_timer_file_descriptor_checked` (descriptor_utils.c:67-69): a read of a timer succeeds or fails.
- Freshness of descriptors: the model allows the kernel to return any non-negative number, so nothing is said about two open descriptors having different numbers.
- Xlib, XScreenSaver and libwayland internals, the search for a connection in `connect_to_wayland_best_effort` and the generated protocol code, except for the alternation of events.
- `tty_utils.c`, `file_utils.c`, `string_utils.c`, `sleep_utils.c`, all printing, and the order in which environment variables are inferred.
- `build_xauthority_path_from_home_dir`: a bounds check and two copies, which would only add an easy member.
- Readings of /proc that change while they are made, processes that are reparented, and a descendant that exits between being listed and being signalled.
- Failing signals and failing allocation, after which the original exits at once; an overrun of the descendants array is reported by a flag and not carried further.
- The value `sscanf` gives for a directory name beyond the range of int (process_handling.c:154), and an array capacity beyond the range of int (process_handling.c:140).
- TreeSignals.TreeSignaller.SignalRecursively: joins pause and resume, whose loops differ in the signal only; printing is left out.
- What a shell makes of the joined command besides splitting it at spaces: quotes, tabs, expansion and so on.
- Supervisor.Supervisor.HandleEvents: the events a poll returns are given by the role of their slot, so that reading them from the array element is not modelled; which descriptor is in which slot is.
- Supervisor.Supervisor.RunMain: begins after the command has been started and signals have been blocked; the tree operations are single actions in its trace, and `EndToEnd` connects them with `TreeSignals`.
- SupervisorTrace.ExactlyOneSignalIsForwarded: speaks of runs that return; a command that exits by itself first gets no signal.
- IdlePolling.NoActivityIsMissed: needs the slack to be at most the timeout less one polling interval; with the smallest timeout of 1000 ms that is none.
