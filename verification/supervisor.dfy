/**
  The supervisor itself. What the surroundings do in a run is a script given in
  advance, one entry for each pass of a loop; a run that uses up its script is
  cut there, so that the contracts speak about every prefix of every run.
 */
module Supervisor {
  import opened CNumbers
  import opened Settings
  import opened TimeUtils
  import opened SupervisorTrace
  import opened Script
  import IdlePolling

  /** How a loop ends: main returns, the program exits because the command has finished, or the script is used up. */
  datatype Flow = Returned(code: int) | Exited(code: int) | HandedOver | Cut

  /** How one pass of a loop, or a part of it, ends. */
  datatype PassEnd = Onward | LeaveToWait | LeaveToX11 | Handled(code: int) | Finished(code: int)

  /** Everything a run of the program meets. */
  datatype MainInput = MainInput(
    waylandAvailable: bool, setup: WaylandSetup, passes: seq<WaylandPass>, drain: seq<DrainPass>,
    session: IdlePolling.Session, x11: seq<X11Pass>)
  {
    /** Descriptors are -1 or not negative, exit statuses are bytes and clocks do not run backwards. */
    predicate Possible() {
      && setup.timerFd >= -1 && setup.processFd >= -1 && setup.fallbackFd >= -1
      && (forall p | p in passes :: p.waitStatus <= 255)
      && (forall p | p in drain :: p.waitStatus <= 255)
      && (forall p | p in x11 :: p.waitStatus <= 255 && p.reading.Sane())
    }
  }

  /** The states the two automata are in after a run, the passes begun in it, its polls with a timeout, and how the X11 loop was entered. */
  ghost predicate Recorded(
    s: Settings, trace: seq<Action>, m: Watch, c: Cursor, turns: seq<Turn>, sleeps: seq<int>, entry: Option<IdlePolling.Loop>)
  {
    && Run(s, trace) == Some(m) && Replay(trace) == Some(c) && turns == TurnsIn(trace) && sleeps == SleepsIn(trace)
    && entry == EntryIn(s, trace)
  }

  class Supervisor {
    const settings: Settings
    const signalFd: int

    var monitoringStarted: bool
    var commandPaused: bool
    var interruptionReceived: Option<Signal>
    var sigchldReceived: bool

    // The local variables of the Wayland loop.
    var waylandDisplayFd: int
    var startMonitorTimer: int
    var processExitWait: int
    var fallbackTimer: int
    var waylandFlushIsPending: bool
    var pollFds: array<int>
    var pollCount: int
    var processExitPollIndex: int
    var fallbackPollIndex: int

    ghost var trace: seq<Action>
    ghost var watch: Watch
    ghost var cursor: Cursor
    ghost var turns: seq<Turn>
    ghost var sleeps: seq<int>
    ghost var entry: Option<IdlePolling.Loop>

    /** The run so far is allowed and uses the answers it was given. */
    ghost predicate Tracked()
      reads this
    {
      Recorded(settings, trace, watch, cursor, turns, sleeps, entry) && Consistent(settings, watch)
    }

    /** The variables agree with the automaton, except that a child signal may just have been acknowledged. */
    ghost predicate Mirrors()
      reads this
    {
      && Tracked()
      && monitoringStarted == watch.monitoring
      && commandPaused == watch.paused
      && interruptionReceived == watch.interruption
      && startMonitorTimer == watch.fds.startTimer
      && processExitWait == watch.fds.processExit
      && fallbackTimer == watch.fds.fallbackTimer
    }

    ghost predicate Valid()
      reads this
    {
      Mirrors() && (watch.childSignal ==> sigchldReceived)
    }

    constructor (settings: Settings, signalFd: int)
      ensures this.settings == settings && Valid() && watch == INITIAL && cursor == BEGINNING && trace == [] && entry == None
      ensures fresh(pollFds) && pollFds.Length == 5
    {
      this.settings := settings;
      this.signalFd := signalFd;
      monitoringStarted, commandPaused := false, false;
      interruptionReceived, sigchldReceived := None, false;
      waylandDisplayFd, startMonitorTimer, processExitWait, fallbackTimer := -1, -1, -1, -1;
      waylandFlushIsPending := false;
      pollFds := new int[5];
      pollCount, processExitPollIndex, fallbackPollIndex := 0, -1, -1;
      trace, watch, cursor, turns, sleeps, entry := [], INITIAL, BEGINNING, [], [], None;
    }

    /** Records an action that leaves the script where it is. */
    ghost method Log(a: Action)
      requires Tracked() && Enabled(settings, watch, a) && !a.EnterX11? && (IsSilent(a) || (Uses(cursor, a) && !IsAnswer(a)))
      modifies this`trace, this`watch
      ensures Tracked() && trace == old(trace) + [a]
      ensures watch == Effect(settings, old(watch), a)
    {
      hide Enabled, Effect, Consistent, Run, Replay, TurnsIn, SleepsIn, EntryIn, Moves, Uses, Advance, IsSilent;
      StepsAreSound(settings, watch, a);
      RunStep(settings, trace, a);
      OneMore(settings, trace, a);
      OthersLeaveTheCursor(cursor, a);
      watch := Effect(settings, watch, a);
      trace := trace + [a];
    }

    /** Records an action that uses up an answer. */
    ghost method LogAnswer(a: Action)
      requires Tracked() && Enabled(settings, watch, a) && Uses(cursor, a) && !a.Begin? && !a.Sleep? && !a.EnterX11?
      modifies this`trace, this`watch, this`cursor
      ensures Tracked() && trace == old(trace) + [a]
      ensures watch == Effect(settings, old(watch), a) && cursor == Advance(old(cursor), a)
    {
      hide Enabled, Effect, Consistent, Run, Replay, TurnsIn, SleepsIn, EntryIn, Moves, Uses, Advance;
      StepsAreSound(settings, watch, a);
      RunStep(settings, trace, a);
      OneMore(settings, trace, a);
      watch, cursor := Effect(settings, watch, a), Advance(cursor, a);
      trace := trace + [a];
    }

    ghost method LogSleep(ms: int, readable: bool)
      requires Tracked() && Enabled(settings, watch, Sleep(ms, readable)) && Uses(cursor, Sleep(ms, readable))
      modifies this`trace, this`watch, this`cursor, this`sleeps
      ensures Tracked() && trace == old(trace) + [Sleep(ms, readable)] && sleeps == old(sleeps) + [ms]
      ensures watch == Slept(old(watch), readable) && cursor == old(cursor).(phase := Answered)
    {
      hide Enabled, Consistent, Run, Replay, TurnsIn, SleepsIn, EntryIn, Moves, Uses;
      var a := Sleep(ms, readable);
      StepsAreSound(settings, watch, a);
      RunStep(settings, trace, a);
      OneMore(settings, trace, a);
      watch, cursor := Effect(settings, watch, a), Advance(cursor, a);
      trace, sleeps := trace + [a], sleeps + [ms];
    }

    ghost method BeginPass(turn: Turn)
      requires Valid() && Running(watch) && watch.finished.None? && TurnFits(watch, turn) && PassOver(cursor)
      modifies this`trace, this`watch, this`cursor, this`turns
      ensures Valid() && watch == old(watch) && turns == old(turns) + [turn]
      ensures cursor == Cursor(turn, Fresh, 0)
    {
      hide Consistent, Run, Replay, TurnsIn, SleepsIn, EntryIn, Moves;
      var a := Begin(turn);
      StepsAreSound(settings, watch, a);
      RunStep(settings, trace, a);
      OneMore(settings, trace, a);
      watch, cursor := Effect(settings, watch, a), Advance(cursor, a);
      trace, turns := trace + [a], turns + [turn];
    }

    // ---------- Signals and the command ----------

    method ProcessSignalfd(signals: seq<Signal>)
      requires Valid() && watch.due.DrainDue? && watch.finished.None? && !watch.stage.Over?
      requires cursor.phase.Answered? && signals == SignalsOf(cursor.turn)
      modifies this`interruptionReceived, this`sigchldReceived, this`trace, this`watch
      ensures Valid()
      ensures watch == Drained(old(watch), signals)
      ensures trace == old(trace) + [Drain(signals)]
    {
      hide Recorded, Consistent, LastInterruption;
      LastInterruptionStep(interruptionReceived, [], SIGCHLD);
      for i := 0 to |signals|
        invariant trace == old(trace) && watch == old(watch)
        invariant interruptionReceived == LastInterruption(old(interruptionReceived), signals[..i])
        invariant sigchldReceived <==> old(sigchldReceived) || SIGCHLD in signals[..i]
      {
        assert signals[..i + 1] == signals[..i] + [signals[i]];
        LastInterruptionStep(old(interruptionReceived), signals[..i], signals[i]);
        if signals[i] == SIGINT || signals[i] == SIGTERM {
          interruptionReceived := Some(signals[i]);
        } else if signals[i] == SIGCHLD {
          sigchldReceived := true;
        }
      }
      assert signals[..|signals|] == signals;
      Log(Drain(signals));
    }

    method SendSignalToPid(signal: Signal)
      requires Tracked() && watch.stage == MustForward(signal) && watch.finished.None?
      modifies this`trace, this`watch
      ensures Tracked() && watch == PassedOn(old(watch))
    {
      hide Recorded, Consistent;
      Log(Forward(signal));
    }

    method PauseCommandRecursively()
      requires Tracked() && watch.due.PauseDue? && watch.finished.None? && !watch.stage.Over?
      requires watch.stage.X11? ==> !watch.mustCheck
      modifies this`trace, this`watch
      ensures Tracked() && watch == WithPaused(old(watch), true) && trace == old(trace) + [Pause]
    {
      hide Recorded, Consistent;
      Log(Pause);
    }

    method ResumeCommandRecursively()
      requires Tracked() && watch.due.ResumeDue? && watch.finished.None? && !watch.stage.Over?
      requires watch.stage.X11? ==> !watch.mustCheck
      modifies this`trace, this`watch
      ensures Tracked() && watch == WithPaused(old(watch), false) && trace == old(trace) + [Resume]
    {
      hide Recorded, Consistent;
      Log(Resume);
    }

    method WaitForPidToExitSynchronously(waitStatus: nat) returns (code: int)
      requires Valid() && watch.stage.Released? && watch.due.Nothing? && watch.finished.None?
      requires !settings.externalPid && waitStatus <= 255 && waitStatus == WaitStatusOf(cursor.turn)
      modifies this`trace, this`watch
      ensures Valid() && code == waitStatus && watch == WithStage(old(watch), Waited(code))
    {
      hide Recorded, Consistent;
      Log(Wait(waitStatus));
      return waitStatus;
    }

    method ExitProgram(code: int)
      requires Tracked() && watch.finished == Some(code) && !watch.stage.Over?
      modifies this`trace, this`watch
      ensures Tracked() && watch == WithStage(old(watch), Over)
    {
      hide Recorded, Consistent;
      Log(Exit(code));
    }

    /** Asks about the command once; our own child must have exited normally, an external process must be gone. */
    method ProbePid(probe: Probe) returns (finished: Option<int>)
      requires Tracked() && Active(watch) && watch.loop.cause.Stay? && watch.finished.None?
      requires watch.due.Nothing? || watch.due.PauseDue? || watch.due.ResumeDue?
      requires ProbeAllowed(cursor, probe)
      modifies this`trace, this`watch, this`cursor
      ensures Tracked() && finished == FinishedCode(settings, probe) && watch == Checked(old(watch), finished)
      ensures cursor == old(cursor).(phase := PhaseAfterProbe(old(cursor)))
    {
      hide Recorded, Consistent;
      finished := None;
      if settings.externalPid {
        if probe.killFails { finished := Some(0); }
      } else if probe.wait.ExitedWith? {
        finished := Some(probe.wait.code);
      }
      LogAnswer(Check(probe));
    }

    method ExitIfPidHasFinished(probe: Probe) returns (exit: Option<int>)
      requires Mirrors() && Active(watch) && watch.loop.cause.Stay? && watch.finished.None?
      requires watch.due.Nothing? || watch.due.PauseDue? || watch.due.ResumeDue?
      requires ProbeAllowed(cursor, probe)
      modifies this`trace, this`watch, this`cursor
      ensures cursor == old(cursor).(phase := PhaseAfterProbe(old(cursor)))
      ensures Tracked() && exit == FinishedCode(settings, probe)
      ensures exit.None? ==> Valid() && watch == Checked(old(watch), None)
      ensures exit.Some? ==> watch == WithStage(Checked(old(watch), exit), Over)
    {
      hide Recorded, Consistent, Enabled, Effect, FinishedCode, ProbeAllowed, PhaseAfterProbe;
      exit := ProbePid(probe);
      if exit.Some? { ExitProgram(exit.value); }
    }

    method PauseRunningCommandOnUserActivity()
      requires Valid() && watch.due.PauseDue? && watch.finished.None? && Active(watch)
      requires watch.stage.X11? ==> !watch.mustCheck
      modifies this`commandPaused, this`trace, this`watch
      ensures Valid() && watch == WithPaused(old(watch), true) && trace == old(trace) + [Pause]
    {
      hide Recorded, Consistent, Enabled, Effect;
      PauseCommandRecursively();
      commandPaused := true;
    }

    method ResumePausedCommandOnUserIdle()
      requires Valid() && watch.due.ResumeDue? && watch.finished.None? && Active(watch)
      requires watch.stage.X11? ==> !watch.mustCheck
      modifies this`commandPaused, this`trace, this`watch
      ensures Valid() && watch == WithPaused(old(watch), false) && trace == old(trace) + [Resume]
    {
      hide Recorded, Consistent, Enabled, Effect;
      ResumeCommandRecursively();
      commandPaused := false;
    }

    ghost method TakeUpInterruption()
      requires Valid() && Running(watch) && watch.finished.None? && interruptionReceived.Some?
      modifies this`trace, this`watch
      ensures Valid() && watch == TakenUp(settings, old(watch), interruptionReceived.value)
      ensures interruptionReceived.value != SIGCHLD
    {
      hide Recorded;
      Log(Handle(interruptionReceived.value));
    }

    /** An interruption is passed on to our own command, and to nobody else. */
    method ForwardInterruption()
      requires Valid() && Running(watch) && watch.finished.None? && interruptionReceived.Some?
      modifies this`trace, this`watch
      ensures Valid() && watch == PassedOn(old(watch))
    {
      hide Recorded, Consistent, Enabled, Effect;
      var signal := interruptionReceived.value;
      TakeUpInterruption();
      if signal == SIGINT {
        if !settings.externalPid { SendSignalToPid(SIGINT); }
      } else if signal == SIGTERM {
        if !settings.externalPid { SendSignalToPid(SIGTERM); }
      }
    }

    method ResumeIfPaused()
      requires Valid() && watch.finished.None? && !watch.stage.Over? && !watch.stage.X11?
      requires watch.due == if commandPaused then ResumeDue else Nothing
      modifies this`commandPaused, this`trace, this`watch
      ensures Valid() && watch == WithPaused(old(watch), false)
    {
      hide Recorded, Consistent, Enabled, Effect;
      if commandPaused {
        commandPaused := false;
        ResumeCommandRecursively();
      }
    }

    /** `waitStatus` is the exit status the synchronous wait for our own child delivers. */
    method HandleInterruption(waitStatus: nat) returns (code: int)
      requires Valid() && Running(watch) && watch.finished.None? && interruptionReceived.Some?
      requires waitStatus <= 255 && waitStatus == WaitStatusOf(cursor.turn)
      modifies this`commandPaused, this`trace, this`watch
      ensures Valid() && code == if settings.externalPid then 0 else waitStatus
      ensures watch == HandledWith(settings, old(watch), code)
      ensures ReadyToReturn(settings, watch, code) && watch.fds == old(watch.fds)
    {
      hide Recorded, Consistent, Enabled, Effect, PassedOn, WithPaused, WithStage, HandledWith;
      HandledInSteps(settings, watch, if settings.externalPid then 0 else waitStatus);
      ForwardInterruption();
      ResumeIfPaused();
      if settings.externalPid {
        return 0;
      }
      code := WaitForPidToExitSynchronously(waitStatus);
    }

    /** One poll on the signal descriptor alone. */
    method SleepForMsWithSignalfd(ms: int, readable: bool, signals: seq<Signal>)
      requires Valid() && MaySleep(watch) && watch.finished.None? && 0 < ms <= INT_MAX && SleepFits(settings, watch, ms)
      requires Uses(cursor, Sleep(ms, readable))
      requires signals == SignalsOf(cursor.turn)
      modifies this`interruptionReceived, this`sigchldReceived, this`trace, this`watch, this`cursor, this`sleeps
      ensures cursor == old(cursor).(phase := Answered)
      ensures Valid() && sleeps == old(sleeps) + [ms]
      ensures Running(watch) && watch.finished.None? && watch.stage == old(watch.stage) && watch.fds == old(watch.fds)
      ensures watch == if readable then Drained(Slept(old(watch), true), signals) else Slept(old(watch), false)
    {
      hide Recorded, Consistent, Effect, Uses;
      LogSleep(ms, readable);
      if readable { ProcessSignalfd(signals); }
    }

    // ---------- Waiting without monitoring ----------

    method WaitingPass(p: DrainPass) returns (end: PassEnd)
      requires Valid() && InDraining(watch) && PassOver(cursor) && p.waitStatus <= 255
      modifies this`commandPaused, this`interruptionReceived, this`sigchldReceived
      modifies this`trace, this`watch, this`cursor, this`turns, this`sleeps
      ensures Ends(end) && !end.LeaveToWait? && !end.LeaveToX11? && turns == old(turns) + [DrainTurn(p)]
      ensures !end.Finished? ==> watch.fds == old(watch.fds)
      ensures !end.Onward? ==> sleeps == old(sleeps)
      ensures end.Onward? ==> InDraining(watch) && PassOver(cursor) && sleeps == old(sleeps) + [100]
    {
      hide Recorded, Consistent, Effect, Slept, Drained, LastInterruption, HandledWith;
      BeginPass(DrainTurn(p));
      if interruptionReceived.Some? {
        var code := HandleInterruption(p.waitStatus);
        return Handled(code);
      }
      if sigchldReceived { sigchldReceived := false; }
      var exit := ExitIfPidHasFinished(p.probe);
      if exit.Some? { return Finished(exit.value); }
      SleepForMsWithSignalfd(100, p.readable, p.signals);
      return Onward;
    }

    /** `d` counts the passes begun. */
    method ResumeAndWaitForPidToExitCheckingForSignals(passes: seq<DrainPass>) returns (flow: Flow, ghost d: nat)
      requires Valid() && watch.stage.Draining? && watch.loop.cause.Stay? && watch.finished.None?
      requires watch.due == if commandPaused then ResumeDue else Nothing
      requires PassOver(cursor) && forall p | p in passes :: p.waitStatus <= 255
      modifies this`commandPaused, this`interruptionReceived, this`sigchldReceived
      modifies this`trace, this`watch, this`cursor, this`turns, this`sleeps
      ensures Tracked() && !flow.HandedOver?
      ensures flow.Returned? ==> Valid() && ReadyToReturn(settings, watch, flow.code) && watch.fds == old(watch.fds)
      ensures flow.Exited? ==> watch.stage.Over? && watch.finished == Some(flow.code)
      ensures d <= |passes| && turns == old(turns) + DrainTurns(passes)[..d]
      ensures flow.Cut? ==> d == |passes| && watch.stage.Draining?
    {
      hide Recorded, Consistent, Enabled, Effect;
      d := 0;
      ResumeIfPaused();
      for i := 0 to |passes|
        invariant Valid() && InDraining(watch) && watch.fds == old(watch.fds) && PassOver(cursor)
        invariant turns == old(turns) + DrainTurns(passes)[..i]
      {
        var end := WaitingPass(passes[i]);
        match end {
          case Onward =>
          case Handled(code) => return Returned(code), i + 1;
          case Finished(code) => return Exited(code), i + 1;
        }
      }
      return Cut, |passes|;
    }

    // ---------- The Wayland loop: events ----------

    ghost method TellEvent(e: IdleEvent)
      requires Valid() && InPass(watch) && Uses(cursor, Event(e))
      modifies this`trace, this`watch, this`cursor
      ensures Valid() && watch == Told(old(watch), e) && (commandPaused ==> monitoringStarted)
      ensures cursor == old(cursor).(delivered := old(cursor).delivered + 1)
    {
      hide Recorded, Uses;
      LogAnswer(Event(e));
    }

    method WaylandIdleNotificationIdled()
      requires Valid() && InPass(watch) && Uses(cursor, Event(Idled))
      modifies this`commandPaused, this`trace, this`watch, this`cursor
      ensures Valid() && watch == WithPaused(old(watch), false)
      ensures cursor == old(cursor).(delivered := old(cursor).delivered + 1)
    {
      hide Recorded, Consistent, Enabled, Effect, Uses;
      TellEvent(Idled);
      if !monitoringStarted { return; }
      if commandPaused { ResumePausedCommandOnUserIdle(); }
    }

    method WaylandIdleNotificationResumed()
      requires Valid() && InPass(watch) && Uses(cursor, Event(Resumed))
      modifies this`commandPaused, this`trace, this`watch, this`cursor
      ensures Valid() && watch == WithPaused(old(watch), monitoringStarted)
      ensures cursor == old(cursor).(delivered := old(cursor).delivered + 1)
    {
      hide Recorded, Consistent, Enabled, Effect, Uses;
      TellEvent(Resumed);
      if !monitoringStarted { return; }
      if !commandPaused { PauseRunningCommandOnUserActivity(); }
    }

    /** The callbacks one call to a dispatch function makes. */
    method DeliverEvents(events: seq<IdleEvent>)
      requires Valid() && InPass(watch)
      requires events == EventsOf(cursor) && cursor.delivered == 0 && (cursor.phase.Fresh? || HasPolled(cursor))
      modifies this`commandPaused, this`trace, this`watch, this`cursor
      ensures Valid() && watch == WithPaused(old(watch), commandPaused)
      ensures cursor == old(cursor).(delivered := |events|)
    {
      hide Recorded, Consistent, Enabled, Effect;
      for i := 0 to |events|
        invariant Valid() && watch == WithPaused(old(watch), commandPaused)
        invariant cursor == old(cursor).(delivered := i)
      {
        if events[i].Idled? { WaylandIdleNotificationIdled(); } else { WaylandIdleNotificationResumed(); }
      }
    }

    ghost method LogDispatchPending(p: WaylandPass)
      requires Valid() && AtTop(watch) && Attentive(watch)
      requires cursor == Cursor(WaylandTurn(p), Fresh, |p.pendingEvents|)
      modifies this`trace, this`watch, this`cursor
      ensures Valid() && watch == Dispatched(old(watch), p.pending)
      ensures cursor == Cursor(WaylandTurn(p), if p.pending.Done? then Queued else Ended, 0)
    {
      hide Recorded, Consistent;
      LogAnswer(DispatchPending(p.pending));
    }

    method DispatchPendingEvents(p: WaylandPass)
      requires Valid() && AtTop(watch) && Attentive(watch) && cursor == Cursor(WaylandTurn(p), Fresh, 0)
      modifies this`commandPaused, this`trace, this`watch, this`cursor
      ensures Valid() && watch.fds == old(watch.fds)
      ensures cursor == Cursor(WaylandTurn(p), if p.pending.Done? then Queued else Ended, 0)
      ensures p.pending.Done? ==> ReadyToFlush(watch)
      ensures p.pending.Interrupted? ==> AtTop(watch)
      ensures p.pending.TryAgain? || p.pending.Failed? ==> Leaving(watch, GiveUp)
    {
      hide Recorded, Consistent, Enabled, Effect, Uses, Advance;
      DeliverEvents(p.pendingEvents);
      LogDispatchPending(p);
    }

    // ---------- The Wayland loop: requests and polling ----------

    ghost method LogFlush(r: CallResult)
      requires Valid() && InPass(watch) && (watch.loop.todo.flush || (watch.loop.queueEmpty && watch.loop.flush.NotFlushed?))
      requires Uses(cursor, Flush(r))
      modifies this`trace, this`watch, this`cursor
      ensures Valid() && watch == FlushedWith(old(watch), r) && cursor == Advance(old(cursor), Flush(r))
    {
      hide Recorded, Consistent, Uses, Advance;
      LogAnswer(Flush(r));
    }

    method FlushRequests(p: WaylandPass, r: CallResult)
      requires Valid() && ReadyToFlush(watch) && cursor == Cursor(WaylandTurn(p), Queued, 0) && r == p.flush
      modifies this`waylandFlushIsPending, this`trace, this`watch, this`cursor
      ensures cursor == Cursor(WaylandTurn(p), if r.Done? || r.TryAgain? then Requested else Ended, 0)
      ensures Valid() && watch.fds == old(watch.fds)
      ensures r.Done? || r.TryAgain? ==> ReadyToPoll(watch) && waylandFlushIsPending == watch.loop.flush.Blocked?
      ensures r.Interrupted? ==> AtTop(watch)
      ensures r.Failed? ==> Leaving(watch, GiveUp)
    {
      hide Recorded, Consistent, Enabled, Effect;
      LogFlush(r);
      if r.TryAgain? {
        waylandFlushIsPending := true;
      } else if r.Done? {
        waylandFlushIsPending := false;
      }
    }

    /** The poll array holds each open descriptor in its own slot and -1 for the start timer once it is closed. */
    ghost predicate SlotsAgree()
      reads this, pollFds
    {
      && pollFds.Length == 5 && 3 <= pollCount <= 5
      && pollFds[0] == waylandDisplayFd && pollFds[1] == watch.fds.startTimer && pollFds[2] == signalFd
      && pollFds[..pollCount] == PollSlots(watch.fds, pollFds[..pollCount])
      && processExitPollIndex == (if watch.fds.processExit >= 0 then 3 else -1)
      && fallbackPollIndex == (if watch.fds.fallbackTimer >= 0 then 3 else -1)
      && (processExitPollIndex >= 0 ==> pollCount == 4 && pollFds[processExitPollIndex] == watch.fds.processExit)
      && (fallbackPollIndex >= 0 ==> pollCount == 4 && pollFds[fallbackPollIndex] == watch.fds.fallbackTimer)
    }

    method PollDescriptors(p: WaylandPass, r: PollResult)
      requires Valid() && ReadyToPoll(watch) && SlotsAgree() && waylandFlushIsPending == watch.loop.flush.Blocked?
      requires cursor == Cursor(WaylandTurn(p), Requested, 0) && r == p.poll
      modifies this`trace, this`watch, this`cursor
      ensures cursor == Cursor(WaylandTurn(p), if r.Polled? then Answered else Ended, 0)
      ensures Valid() && watch.fds == old(watch.fds)
      ensures r.PollInterrupted? ==> AtTop(watch)
      ensures r.PollFailed? ==> Leaving(watch, HandOver)
      ensures r.Polled? ==> JustPolled(watch, r.ready)
    {
      hide Recorded, Consistent;
      LogAnswer(Poll(pollFds[..pollCount], waylandFlushIsPending, r));
    }

    method FlushWhenWritable(r: CallResult, x: Ready)
      requires Valid() && JustPolled(watch, x) && InPass(watch) && x.waylandOut
      requires cursor.turn.WaylandTurn? && cursor.phase.Answered? && r == cursor.turn.wayland.secondFlush
      modifies this`waylandFlushIsPending, this`trace, this`watch, this`cursor
      ensures cursor == old(cursor)
      ensures Valid() && watch.fds == old(watch.fds)
      ensures if r.Failed? then Leaving(watch, GiveUp) else FacingTimer(watch, x)
    {
      hide Recorded, Consistent, Enabled, Effect;
      LogFlush(r);
      if r.TryAgain? {
        waylandFlushIsPending := true;
      } else if r.Done? {
        waylandFlushIsPending := false;
      }
    }

    method ReadSignalsAfterPoll(signals: seq<Signal>, x: Ready)
      requires Valid() && JustPolled(watch, x) && cursor.phase.Answered? && signals == SignalsOf(cursor.turn)
      modifies this`interruptionReceived, this`sigchldReceived, this`trace, this`watch
      ensures Valid() && JustPolled(watch, x.(signal := false)) && watch.fds == old(watch.fds)
    {
      hide Recorded, Consistent, Enabled, Effect, LastInterruption;
      if x.signal { ProcessSignalfd(signals); }
    }

    method HandleDisplayEvents(p: WaylandPass, x: Ready) returns (end: PassEnd)
      requires Valid() && JustPolled(watch, x) && cursor == Cursor(WaylandTurn(p), Answered, 0)
      modifies this`interruptionReceived, this`sigchldReceived, this`waylandFlushIsPending
      modifies this`trace, this`watch, this`cursor
      ensures cursor == old(cursor)
      ensures Valid() && watch.fds == old(watch.fds) && Ends(end) && !end.Handled? && !end.Finished?
      ensures end.Onward? ==> FacingTimer(watch, x.(signal := false))
    {
      hide Recorded, Consistent, Enabled, Effect;
      ReadSignalsAfterPoll(p.signals, x);
      if x.waylandInvalid { return LeaveToX11; }
      if x.waylandClosed { return LeaveToWait; }
      if x.waylandOut {
        FlushWhenWritable(p.secondFlush, x.(signal := false));
        if p.secondFlush.Failed? { return LeaveToWait; }
      }
      return Onward;
    }

    /** What has to hold when a pass, or a part of it, has ended in a given way. */
    ghost predicate Ends(end: PassEnd)
      reads this
    {
      match end
      case Onward => Valid()
      case LeaveToWait => Valid() && Leaving(watch, GiveUp)
      case LeaveToX11 => Valid() && Leaving(watch, HandOver)
      case Handled(code) => Valid() && ReadyToReturn(settings, watch, code)
      case Finished(code) => Tracked() && watch.stage.Over? && watch.finished == Some(code)
    }

    // ---------- The Wayland loop: descriptors ----------

    method CloseFileDescriptorIfOpen(fd: int, d: Descriptor) returns (closed: int)
      requires Tracked() && fd == DescriptorOf(watch.fds, d) && fd >= -1 && watch.finished.None? && !watch.stage.Over?
      modifies this`trace, this`watch
      ensures Tracked() && closed == -1 && watch == WithDescriptor(old(watch), d, -1)
      ensures trace == old(trace) + if fd >= 0 then [Close(d, fd)] else []
    {
      hide Recorded, Consistent;
      if fd < 0 { return fd; }
      Log(Close(d, fd));
      return -1;
    }

    method CloseAll()
      requires Valid() && watch.finished.None? && !watch.stage.Over?
      modifies this`startMonitorTimer, this`processExitWait, this`fallbackTimer, this`trace, this`watch
      ensures Valid() && watch == old(watch).(fds := NO_DESCRIPTORS)
    {
      hide Recorded, Enabled, Effect;
      startMonitorTimer := CloseFileDescriptorIfOpen(startMonitorTimer, StartTimer);
      processExitWait := CloseFileDescriptorIfOpen(processExitWait, ProcessExit);
      fallbackTimer := CloseFileDescriptorIfOpen(fallbackTimer, FallbackTimer);
    }

    // ---------- The Wayland loop: the start of monitoring ----------

    method ReportTrouble()
      requires Valid() && InPass(watch) && watch.loop.todo.trouble
      modifies this`trace, this`watch
      ensures Valid() && Leaving(watch, HandOver) && watch.fds == old(watch.fds)
    {
      hide Recorded, Consistent;
      Log(Trouble);
    }

    method ConsumeTimer(d: Descriptor, ok: bool)
      requires Valid() && InPass(watch)
      requires if d.StartTimer? then watch.loop.todo.readStart else d.FallbackTimer? && watch.loop.todo.readFallback
      requires Uses(cursor, Consume(d, ok))
      modifies this`trace, this`watch, this`cursor
      ensures Valid() && watch == Consumed(old(watch), d, ok)
      ensures cursor == if d.StartTimer? then old(cursor) else old(cursor).(phase := FallbackRead)
    {
      hide Recorded, Consistent, Uses;
      LogAnswer(Consume(d, ok));
    }

    method CloseStartTimer()
      requires Valid() && InPass(watch) && SlotsAgree()
      modifies this`startMonitorTimer, this`trace, this`watch, pollFds
      ensures Valid() && SlotsAgree() && watch == WithDescriptor(old(watch), StartTimer, -1)
    {
      hide Recorded, Enabled, Effect;
      startMonitorTimer := CloseFileDescriptorIfOpen(startMonitorTimer, StartTimer);
      pollFds[1] := -1;
    }

    method MarkMonitoringStarted(ghost x: Ready)
      requires Valid() && FacingStart(watch, x)
      modifies this`monitoringStarted, this`trace, this`watch
      ensures Valid() && FacingNotify(watch, x) && watch.fds == old(watch.fds)
    {
      hide Recorded, Consistent;
      Log(Start);
      monitoringStarted := true;
    }

    ghost method LogNotify(created: bool)
      requires Tracked() && watch.due.NotifyDue? && watch.loop.cause.Stay? && watch.finished.None? && !watch.stage.Over?
      requires cursor.turn.WaylandTurn? && cursor.phase.Answered? && created == cursor.turn.wayland.created
      modifies this`trace, this`watch
      ensures Tracked() && watch == Notified(old(watch), created)
    {
      hide Recorded, Consistent;
      Log(Notify(created));
    }

    /** Creating the notification object; the tree is paused at once, since the user counts as active until told otherwise. */
    method RequestNotification(created: bool, ghost x: Ready)
      requires Valid() && FacingNotify(watch, x)
      requires cursor.turn.WaylandTurn? && cursor.phase.Answered? && created == cursor.turn.wayland.created
      modifies this`commandPaused, this`trace, this`watch
      ensures Valid() && watch.fds == old(watch.fds)
      ensures if created then FacingExit(watch, x) && commandPaused else Leaving(watch, GiveUp)
    {
      hide Recorded, Consistent, Enabled, Effect;
      LogNotify(created);
      if !created { return; }
      if !commandPaused { PauseRunningCommandOnUserActivity(); }
    }

    /** The start timer is read and closed, once it has fired. */
    method RetireStartTimer(read: bool, ghost x: Ready)
      requires Valid() && SlotsAgree() && FacingTimer(watch, x) && watch.loop.todo.start && !BrokenTimer(watch, x)
      requires cursor.turn.WaylandTurn? && cursor.phase.Answered? && read == cursor.turn.wayland.startRead
      modifies this`startMonitorTimer, this`trace, this`watch, this`cursor, pollFds
      ensures cursor == old(cursor)
      ensures Valid() && SlotsAgree()
      ensures if read then FacingStart(watch, x) else Leaving(watch, HandOver)
    {
      hide Recorded, Consistent, Enabled, Effect, SlotsAgree;
      ConsumeStartTimer(read);
      if read { CloseStartTimer(); }
    }

    method ConsumeStartTimer(read: bool)
      requires Valid() && SlotsAgree() && InPass(watch) && watch.loop.todo.readStart
      requires cursor.turn.WaylandTurn? && cursor.phase.Answered? && read == cursor.turn.wayland.startRead
      modifies this`trace, this`watch, this`cursor
      ensures Valid() && SlotsAgree() && watch == Consumed(old(watch), StartTimer, read) && cursor == old(cursor)
    {
      hide Recorded, Consistent, Enabled, Effect;
      ConsumeTimer(StartTimer, read);
    }

    method StartMonitoring(p: WaylandPass, ghost x: Ready) returns (end: PassEnd)
      requires Valid() && SlotsAgree() && FacingTimer(watch, x) && watch.loop.todo.start && !BrokenTimer(watch, x)
      requires cursor == Cursor(WaylandTurn(p), Answered, 0)
      modifies this`startMonitorTimer, this`monitoringStarted, this`commandPaused, this`trace, this`watch, this`cursor, pollFds
      ensures cursor == old(cursor)
      ensures Valid() && Ends(end) && !end.Handled? && !end.Finished?
      ensures end.Onward? ==> SlotsAgree() && FacingExit(watch, x)
    {
      hide Recorded, Consistent, Enabled, Effect, FacingStart, FacingNotify, FacingExit, FacingTimer, Leaving;
      RetireStartTimer(p.startRead, x);
      if !p.startRead { return LeaveToX11; }
      MarkMonitoringStarted(x);
      RequestNotification(p.created, x);
      if !p.created { return LeaveToWait; }
      return Onward;
    }

    method StartMonitoringIfDue(p: WaylandPass, x: Ready) returns (end: PassEnd)
      requires Valid() && SlotsAgree() && FacingTimer(watch, x) && cursor == Cursor(WaylandTurn(p), Answered, 0)
      modifies this`startMonitorTimer, this`monitoringStarted, this`commandPaused, this`trace, this`watch, this`cursor, pollFds
      ensures cursor == old(cursor)
      ensures Valid() && Ends(end) && !end.Handled? && !end.Finished?
      ensures end.Onward? ==> SlotsAgree() && FacingExit(watch, x)
    {
      hide Recorded, Consistent, Enabled, Effect;
      end := Onward;
      if !monitoringStarted && pollFds[1] >= 0 {
        if x.startInvalid || x.startError {
          ReportTrouble();
          return LeaveToX11;
        }
        if x.startIn {
          end := StartMonitoring(p, x);
        }
      }
    }

    // ---------- The Wayland loop: the end of the command ----------

    method CheckProcessDescriptor(p: WaylandPass, x: Ready) returns (end: PassEnd)
      requires Valid() && SlotsAgree() && FacingExit(watch, x) && processExitPollIndex >= 0
      requires cursor == Cursor(WaylandTurn(p), Answered, 0)
      modifies this`trace, this`watch, this`cursor
      ensures Ends(end) && !end.Handled? && !end.LeaveToWait? && watch.fds == old(watch.fds)
      ensures end.Onward? ==> FacingDispatch(watch, x)
      ensures HasPolled(cursor) && cursor.turn == WaylandTurn(p) && cursor.delivered == 0
    {
      hide Recorded, Enabled, Effect;
      if x.exitInvalid {
        ReportTrouble();
        return LeaveToX11;
      }
      if x.exitReady {
        var exit := ExitIfPidHasFinished(p.exitProbe);
        if exit.Some? { return Finished(exit.value); }
      }
      return Onward;
    }

    method CheckFallbackTimer(p: WaylandPass, x: Ready) returns (end: PassEnd)
      requires Valid() && SlotsAgree() && FacingExit(watch, x) && fallbackPollIndex >= 0
      requires cursor == Cursor(WaylandTurn(p), Answered, 0)
      modifies this`trace, this`watch, this`cursor
      ensures Ends(end) && !end.Handled? && !end.LeaveToWait? && watch.fds == old(watch.fds)
      ensures end.Onward? ==> FacingDispatch(watch, x)
      ensures HasPolled(cursor) && cursor.turn == WaylandTurn(p) && cursor.delivered == 0
    {
      hide Recorded, Enabled, Effect;
      if x.fallbackInvalid || x.fallbackError {
        ReportTrouble();
        return LeaveToX11;
      }
      if x.fallbackIn {
        ConsumeTimer(FallbackTimer, p.fallbackRead);
        if !p.fallbackRead { return LeaveToX11; }
        var exit := ExitIfPidHasFinished(p.fallbackProbe);
        if exit.Some? { return Finished(exit.value); }
      }
      return Onward;
    }

    ghost method LogDispatch(r: CallResult)
      requires Valid() && InPass(watch) && !watch.mustCheck && watch.loop.todo == NOTHING_TO_DO.(dispatch := true)
      requires Uses(cursor, Dispatch(r))
      modifies this`trace, this`watch
      ensures Valid() && watch == Delivered(old(watch), r)
    {
      hide Recorded, Consistent, Uses;
      Log(Dispatch(r));
    }

    method DispatchWhenReadable(p: WaylandPass, x: Ready) returns (end: PassEnd)
      requires Valid() && FacingDispatch(watch, x)
      requires HasPolled(cursor) && cursor.turn == WaylandTurn(p) && cursor.delivered == 0
      modifies this`commandPaused, this`trace, this`watch, this`cursor
      ensures Ends(end) && !end.Handled? && !end.Finished? && watch.fds == old(watch.fds)
      ensures end.Onward? ==> AtTop(watch)
      ensures HasPolled(cursor)
    {
      hide Recorded, Consistent, Enabled, Effect;
      if !x.waylandIn { return Onward; }
      DeliverEvents(p.events);
      LogDispatch(p.dispatch);
      if p.dispatch.Failed? { return LeaveToWait; }
      return Onward;
    }

    // ---------- The Wayland loop as a whole ----------

    /** Signals are looked after before anything else. */
    method HeedSignals(p: WaylandPass) returns (end: PassEnd)
      requires Valid() && AtTop(watch) && p.waitStatus <= 255 && cursor == Cursor(WaylandTurn(p), Fresh, 0)
      modifies this`commandPaused, this`sigchldReceived, this`trace, this`watch, this`cursor
      ensures cursor == old(cursor)
      ensures Ends(end) && !end.LeaveToWait? && !end.LeaveToX11? && (!end.Finished? ==> watch.fds == old(watch.fds))
      ensures end.Onward? ==> AtTop(watch) && Attentive(watch)
    {
      hide Recorded, Consistent, Enabled, Effect, HandledWith;
      if interruptionReceived.Some? {
        var code := HandleInterruption(p.waitStatus);
        return Handled(code);
      }
      if sigchldReceived {
        sigchldReceived := false;
        var exit := ExitIfPidHasFinished(p.signalProbe);
        if exit.Some? { return Finished(exit.value); }
      }
      return Onward;
    }

    /** Up to the return of poll; `polled` tells whether there are events to look at. */
    method WaitForEvents(p: WaylandPass) returns (end: PassEnd, polled: bool)
      requires Valid() && AtTop(watch) && Attentive(watch) && SlotsAgree() && cursor == Cursor(WaylandTurn(p), Fresh, 0)
      modifies this`commandPaused, this`waylandFlushIsPending, this`trace, this`watch, this`cursor
      ensures Ends(end) && !end.Handled? && !end.Finished? && watch.fds == old(watch.fds)
      ensures polled <==> p.pending.Done? && (p.flush.Done? || p.flush.TryAgain?) && p.poll.Polled?
      ensures polled ==> end.Onward? && JustPolled(watch, p.poll.ready) && cursor == Cursor(WaylandTurn(p), Answered, 0)
      ensures !polled ==> PassOver(cursor) && (end.Onward? ==> AtTop(watch))
    {
      hide Recorded, Consistent, Enabled, Effect, AtTop, Attentive, ReadyToFlush, ReadyToPoll, JustPolled, Leaving;
      polled := false;
      DispatchPendingEvents(p);
      if !p.pending.Done? {
        return if p.pending.Interrupted? then Onward else LeaveToWait, false;
      }
      FlushRequests(p, p.flush);
      if p.flush.Interrupted? { return Onward, false; }
      if p.flush.Failed? { return LeaveToWait, false; }
      PollDescriptors(p, p.poll);
      if p.poll.PollInterrupted? { return Onward, false; }
      if p.poll.PollFailed? { return LeaveToX11, false; }
      return Onward, true;
    }

    method HandleEvents(p: WaylandPass, x: Ready) returns (end: PassEnd)
      requires Valid() && JustPolled(watch, x) && SlotsAgree() && cursor == Cursor(WaylandTurn(p), Answered, 0)
      modifies this, pollFds
      ensures Ends(end) && !end.Handled? && pollFds == old(pollFds) && sleeps == old(sleeps) && entry == old(entry) && turns == old(turns)
      ensures end.Onward? ==> AtTop(watch) && SlotsAgree()
      ensures PassOver(cursor)
    {
      hide Recorded, Consistent, Enabled, Effect, AtTop, JustPolled, FacingTimer, FacingDispatch, Leaving;
      var y := x.(signal := false);
      end := HandleDisplayEvents(p, x);
      if !end.Onward? { return; }
      end := StartMonitoringIfDue(p, y);
      if !end.Onward? { return; }
      end := CheckForExit(p, y);
      if !end.Onward? { return; }
      end := DispatchWhenReadable(p, y);
    }

    method CheckForExit(p: WaylandPass, x: Ready) returns (end: PassEnd)
      requires Valid() && SlotsAgree() && FacingExit(watch, x)
      requires cursor == Cursor(WaylandTurn(p), Answered, 0)
      modifies this`trace, this`watch, this`cursor
      ensures Ends(end) && !end.Handled? && !end.LeaveToWait? && watch.fds == old(watch.fds)
      ensures end.Onward? ==> FacingDispatch(watch, x)
      ensures HasPolled(cursor) && cursor.turn == WaylandTurn(p) && cursor.delivered == 0
    {
      hide Recorded, Enabled, Effect;
      if processExitPollIndex >= 0 {
        end := CheckProcessDescriptor(p, x);
      } else if fallbackPollIndex >= 0 {
        end := CheckFallbackTimer(p, x);
      } else {
        end := Onward;
      }
    }

    ghost method BeginWaylandPass(p: WaylandPass)
      requires Valid() && AtTop(watch) && PassOver(cursor)
      modifies this`trace, this`watch, this`cursor, this`turns
      ensures Valid() && watch == old(watch) && turns == old(turns) + [WaylandTurn(p)]
      ensures cursor == Cursor(WaylandTurn(p), Fresh, 0)
    {
      hide Recorded, Consistent, Enabled, Effect;
      BeginPass(WaylandTurn(p));
    }

    method WaylandLoopPass(p: WaylandPass) returns (end: PassEnd)
      requires Valid() && AtTop(watch) && SlotsAgree() && PassOver(cursor) && p.waitStatus <= 255
      modifies this, pollFds
      ensures Ends(end) && pollFds == old(pollFds) && sleeps == old(sleeps) && entry == old(entry) && turns == old(turns) + [WaylandTurn(p)]
      ensures end.Onward? ==> AtTop(watch) && SlotsAgree()
      ensures !end.Handled? && !end.Finished? ==> PassOver(cursor)
    {
      hide Recorded, Consistent, Enabled, Effect, AtTop, Attentive, JustPolled, Leaving;
      BeginWaylandPass(p);
      end := HeedSignals(p);
      if !end.Onward? { return; }
      var polled;
      end, polled := WaitForEvents(p);
      if !polled { return; }
      end := HandleEvents(p, p.poll.ready);
    }

    /** A descriptor the loop owns has been opened. */
    ghost method LogOpen(d: Descriptor, fd: int)
      requires Tracked() && Enabled(settings, watch, Open(d, fd)) && Uses(cursor, Open(d, fd))
      modifies this`trace, this`watch
      ensures Tracked() && watch == WithDescriptor(old(watch), d, fd)
    {
      hide Recorded, Consistent, Enabled, Uses;
      Log(Open(d, fd));
    }

    ghost method LogUnavailable()
      requires Valid() && AtStart(watch) && Uses(cursor, Unavailable)
      modifies this`trace, this`watch, this`cursor
      ensures Valid() && Leaving(watch, HandOver) && watch.fds == old(watch.fds) && cursor == old(cursor).(phase := Ended)
    {
      hide Recorded, Consistent, Uses;
      LogAnswer(Unavailable);
    }

    method OpenStartTimer(fd: int) returns (ok: bool)
      requires Valid() && AtStart(watch) && watch.fds == NO_DESCRIPTORS && fd >= -1
      requires cursor.turn.SetupTurn? && cursor.phase.Fresh? && fd == cursor.turn.setup.timerFd
      modifies this`startMonitorTimer, this`trace, this`watch
      ensures Valid() && AtStart(watch) && ok == (fd != -1) && watch.fds == NO_DESCRIPTORS.(startTimer := fd)
    {
      hide Recorded, Consistent, Effect;
      startMonitorTimer := fd;
      if fd == -1 { return false; }
      LogOpen(StartTimer, fd);
      return true;
    }

    /** Opens what the loop needs to notice the end of the command: a process descriptor, or else a timer. */
    method OpenExitDescriptors(setup: WaylandSetup) returns (ok: bool)
      requires Valid() && AtStart(watch) && watch.fds.processExit == -1 && watch.fds.fallbackTimer == -1
      requires setup.processFd >= -1 && setup.fallbackFd >= -1 && cursor == Cursor(SetupTurn(setup), Fresh, 0)
      modifies this`processExitWait, this`fallbackTimer, this`trace, this`watch
      ensures Valid() && AtStart(watch)
      ensures watch.fds.startTimer == old(watch.fds.startTimer)
      ensures ok <==> setup.processFd >= 0 || setup.fallbackFd >= 0
      ensures watch.fds.processExit == setup.processFd
      ensures watch.fds.fallbackTimer == if setup.processFd >= 0 then -1 else setup.fallbackFd
      ensures ok ==> (watch.fds.processExit >= 0) != (watch.fds.fallbackTimer >= 0)
    {
      hide Recorded, Consistent, Effect;
      processExitWait := setup.processFd;
      if setup.processFd != -1 {
        LogOpen(ProcessExit, setup.processFd);
        return true;
      }
      fallbackTimer := setup.fallbackFd;
      if setup.fallbackFd == -1 { return false; }
      LogOpen(FallbackTimer, setup.fallbackFd);
      return true;
    }

    method FillPollArray()
      requires Valid() && pollFds.Length == 5 && !(processExitWait >= 0 && fallbackTimer >= 0)
      modifies this`pollCount, this`processExitPollIndex, this`fallbackPollIndex, pollFds
      ensures Valid() && SlotsAgree()
    {
      hide Recorded, Consistent, Enabled, Effect;
      pollFds[0], pollFds[1], pollFds[2] := waylandDisplayFd, startMonitorTimer, signalFd;
      pollCount, processExitPollIndex, fallbackPollIndex := 3, -1, -1;
      if processExitWait >= 0 {
        processExitPollIndex := pollCount;
        pollFds[processExitPollIndex] := processExitWait;
        pollCount := pollCount + 1;
      }
      if fallbackTimer >= 0 {
        fallbackPollIndex := pollCount;
        pollFds[fallbackPollIndex] := fallbackTimer;
        pollCount := pollCount + 1;
      }
    }

    /** Everything before the endless loop; LeaveToX11 if something cannot be opened. */
    method SetUpWaylandLoop(setup: WaylandSetup) returns (end: PassEnd)
      requires Valid() && AtStart(watch) && watch.fds == NO_DESCRIPTORS && pollFds.Length == 5
      requires setup.timerFd >= -1 && setup.processFd >= -1 && setup.fallbackFd >= -1 && PassOver(cursor)
      modifies this, pollFds
      ensures Ends(end) && !end.Handled? && !end.LeaveToWait? && pollFds == old(pollFds) && sleeps == old(sleeps) && entry == old(entry)
      ensures turns == old(turns) + [SetupTurn(setup)] && PassOver(cursor)
      ensures end.Onward? ==> AtTop(watch) && SlotsAgree()
      ensures end.LeaveToX11? <==> Fails(setup)
      ensures end.Onward? ==> waylandDisplayFd == setup.displayFd
    {
      hide Recorded, Consistent, Enabled, Effect, Leaving, SlotsAgree, AtTop, Fails;
      BeginPass(SetupTurn(setup));
      waylandFlushIsPending := false;
      waylandDisplayFd := setup.displayFd;
      var ok := OpenDescriptors(setup);
      if !ok { return LeaveToX11; }
      FillPollArray();
      end := CheckBeforeLoop(setup);
    }

    /** The command could have exited before its signal is delivered. */
    method CheckBeforeLoop(setup: WaylandSetup) returns (end: PassEnd)
      requires Valid() && AtStart(watch) && SlotsAgree() && cursor == Cursor(SetupTurn(setup), Fresh, 0)
      modifies this`trace, this`watch, this`cursor
      ensures Ends(end) && (end.Onward? || end.Finished?) && PassOver(cursor)
      ensures end.Onward? ==> AtTop(watch) && SlotsAgree()
    {
      hide Recorded, Consistent, Enabled, Effect;
      var exit := ExitIfPidHasFinished(setup.probe);
      if exit.Some? { return Finished(exit.value); }
      return Onward;
    }

    method OpenDescriptors(setup: WaylandSetup) returns (ok: bool)
      requires Valid() && AtStart(watch) && watch.fds == NO_DESCRIPTORS && cursor == Cursor(SetupTurn(setup), Fresh, 0)
      requires setup.timerFd >= -1 && setup.processFd >= -1 && setup.fallbackFd >= -1
      modifies this`startMonitorTimer, this`processExitWait, this`fallbackTimer, this`trace, this`watch, this`cursor
      ensures Valid() && ok == !Fails(setup)
      ensures if ok then AtStart(watch) && cursor == old(cursor) else Leaving(watch, HandOver) && PassOver(cursor)
      ensures ok ==> !(processExitWait >= 0 && fallbackTimer >= 0)
    {
      hide Recorded, Consistent, Enabled, Effect, Leaving;
      ok := OpenStartTimer(setup.timerFd);
      if !ok || setup.displayFd == -1 {
        LogUnavailable();
        return false;
      }
      ok := OpenExitDescriptors(setup);
      if !ok {
        LogUnavailable();
      }
    }

    /** `k` counts the passes of the event loop, `d` those of the loop that only waits. */
    method RunWaylandIdleEventLoop(setup: WaylandSetup, passes: seq<WaylandPass>, drain: seq<DrainPass>)
      returns (flow: Flow, ghost k: nat, ghost d: nat)
      requires Valid() && AtStart(watch) && watch.fds == NO_DESCRIPTORS && pollFds.Length == 5 && PassOver(cursor)
      requires setup.timerFd >= -1 && setup.processFd >= -1 && setup.fallbackFd >= -1
      requires forall p | p in passes :: p.waitStatus <= 255
      requires forall p | p in drain :: p.waitStatus <= 255
      modifies this, pollFds
      ensures Tracked() && k <= |passes|
      ensures flow.Returned? ==> Valid() && ReadyToReturn(settings, watch, flow.code) && AllClosed(watch)
      ensures flow.HandedOver? ==> Valid() && Leaving(watch, HandOver) && AllClosed(watch) && PassOver(cursor)
      ensures flow.Exited? ==> watch.stage.Over? && watch.finished == Some(flow.code)
      ensures d <= |drain|
      ensures turns == old(turns) + [SetupTurn(setup)] + WaylandTurns(passes)[..k] + DrainTurns(drain)[..d]
      ensures entry == old(entry) && (flow.HandedOver? ==> d == 0 && sleeps == old(sleeps))
      ensures flow.Cut? ==> (watch.stage.Wayland? && k == |passes| && d == 0) || (watch.stage.Draining? && d == |drain|)
    {
      hide Recorded, Consistent, Enabled, Effect, SlotsAgree, PassOver, Leaving;
      var end := SetUpWaylandLoop(setup);
      var i := 0;
      while end.Onward? && i < |passes|
        invariant 0 <= i <= |passes| && Ends(end) && pollFds == old(pollFds)
        invariant turns == old(turns) + [SetupTurn(setup)] + WaylandTurns(passes)[..i]
        invariant entry == old(entry) && sleeps == old(sleeps)
        invariant !end.Handled? && !end.Finished? ==> PassOver(cursor)
        invariant end.Onward? ==> AtTop(watch) && SlotsAgree() && watch.stage.Wayland?
      {
        end := WaylandLoopPass(passes[i]);
        i := i + 1;
      }
      k := i;
      flow, d := LeaveWaylandLoop(end, drain);
    }

    /** The way out of the event loop, once the descriptors are closed; an event loop still going on is cut. */
    method LeaveWaylandLoop(end: PassEnd, drain: seq<DrainPass>) returns (flow: Flow, ghost d: nat)
      requires Ends(end) && (end.Onward? ==> watch.stage.Wayland?) && forall p | p in drain :: p.waitStatus <= 255
      requires !end.Handled? && !end.Finished? ==> PassOver(cursor)
      modifies this`startMonitorTimer, this`processExitWait, this`fallbackTimer
      modifies this`commandPaused, this`interruptionReceived, this`sigchldReceived
      modifies this`trace, this`watch, this`cursor, this`turns, this`sleeps
      ensures Tracked()
      ensures flow.Returned? ==> Valid() && ReadyToReturn(settings, watch, flow.code) && AllClosed(watch)
      ensures flow.HandedOver? ==> Valid() && Leaving(watch, HandOver) && AllClosed(watch) && PassOver(cursor)
      ensures flow.Exited? ==> watch.stage.Over? && watch.finished == Some(flow.code)
      ensures flow.HandedOver? <==> end.LeaveToX11?
      ensures flow.HandedOver? ==> d == 0 && sleeps == old(sleeps)
      ensures d <= |drain| && turns == old(turns) + DrainTurns(drain)[..d]
      ensures flow.Cut? ==> (watch.stage.Wayland? && end.Onward? && d == 0) || (watch.stage.Draining? && d == |drain|)
    {
      hide Recorded, Consistent, Enabled, Effect;
      d := 0;
      match end {
        case Onward => flow := Cut;
        case Finished(code) => flow := Exited(code);
        case Handled(code) =>
          CloseAll();
          flow := Returned(code);
        case LeaveToX11 =>
          CloseAll();
          flow := HandedOver;
        case LeaveToWait =>
          CloseAll();
          LogLost();
          flow, d := ResumeAndWaitForPidToExitCheckingForSignals(drain);
      }
    }

    ghost method LogLost()
      requires Valid() && Leaving(watch, GiveUp) && AllClosed(watch)
      modifies this`trace, this`watch
      ensures Valid() && watch == Leave(old(watch), Draining)
    {
      hide Recorded, Consistent;
      Log(Lost);
    }

    // ---------- The X11 loop ----------

    ghost function LoopState(sleepTimeMs: int): IdlePolling.Loop
      reads this
    {
      IdlePolling.Loop(monitoringStarted, commandPaused, sleepTimeMs)
    }

    ghost method LogClock(elapsedMs: int)
      requires Valid() && InX11(watch) && watch.due.Nothing? && Attentive(watch) && !watch.monitoring
      requires Uses(cursor, Clock(elapsedMs))
      modifies this`trace, this`watch, this`cursor
      ensures Valid() && watch == Clocked(old(watch), elapsedMs >= settings.startMonitorAfterMs)
      ensures cursor == old(cursor).(phase := Queued)
    {
      hide Recorded, Consistent, Uses;
      LogAnswer(Clock(elapsedMs));
    }

    ghost method LogStartByClock()
      requires Tracked() && InX11(watch) && watch.due.StartDue?
      modifies this`trace, this`watch
      ensures Tracked() && watch == Begun(old(watch))
    {
      hide Recorded, Consistent;
      Log(Start);
    }

    method StartMonitoringByClock(session: IdlePolling.Session, now: Timespec)
      requires Valid() && InX11(watch) && watch.due.Nothing? && Attentive(watch) && !monitoringStarted
      requires cursor.turn.X11Turn? && cursor.phase.Fresh? && session == cursor.turn.session && now == cursor.turn.x11.reading.now
      modifies this`monitoringStarted, this`trace, this`watch, this`cursor
      ensures cursor == old(cursor).(phase := Queued)
      ensures Valid() && InX11(watch) && watch.due.Nothing? && Attentive(watch) && watch.fds == old(watch.fds)
      ensures monitoringStarted <==> GetElapsedTimeMs(session.began, now) >= settings.startMonitorAfterMs
      ensures !monitoringStarted ==> watch.looked && watch.mustCheck == old(watch.mustCheck)
    {
      hide Recorded, Consistent, Enabled, Effect;
      var elapsedMs := GetElapsedTimeMs(session.began, now);
      LogClock(elapsedMs);
      if elapsedMs >= settings.startMonitorAfterMs {
        LogStartByClock();
        monitoringStarted := true;
      }
    }

    ghost method LogObserve(idleMs: nat)
      requires Valid() && InX11(watch) && watch.due.Nothing? && Attentive(watch) && watch.monitoring
      requires Uses(cursor, Observe(idleMs))
      modifies this`trace, this`watch, this`cursor
      ensures Valid() && watch == Observed(settings, old(watch), idleMs)
      ensures cursor == old(cursor).(phase := Queued)
    {
      hide Recorded, Consistent, Uses;
      LogAnswer(Observe(idleMs));
    }

    /** The difference of two unsigned longs, read as a long long. */
    static function UnsignedDifference(a: nat, b: nat): int {
      var u := (a - b) % (ULONG_MAX + 1);
      if u <= LONG_MAX then u else u - (ULONG_MAX + 1)
    }

    /** What the idle time means for the tree has been decided by the observation; the sleep time follows it. */
    method PauseOrResumeCommandDependingOnUserActivity(sleepTimeMs: int, idleMs: nat, pauseBegin: Timespec, pauseEnd: Timespec)
      returns (newSleepTimeMs: int)
      requires settings.Accepted() && Valid() && InX11(watch) && !watch.mustCheck
      requires watch.due == Observed(settings, WithPaused(watch, commandPaused), idleMs).due
      modifies this`commandPaused, this`trace, this`watch
      ensures Valid() && watch == WithPaused(old(watch), commandPaused)
      ensures LoopState(newSleepTimeMs) ==
        IdlePolling.Decide(settings.userIdleTimeoutMs, old(LoopState(sleepTimeMs)), idleMs, GetElapsedTimeMs(pauseBegin, pauseEnd))
    {
      hide Recorded, Consistent, Enabled, Effect;
      newSleepTimeMs := sleepTimeMs;
      if idleMs >= settings.userIdleTimeoutMs {
        if commandPaused {
          newSleepTimeMs := IdlePolling.POLLING_INTERVAL_MS;
          ResumePausedCommandOnUserIdle();
        }
      } else {
        var pausedThisIteration := false;
        if !commandPaused {
          PauseRunningCommandOnUserActivity();
          pausedThisIteration := true;
        }
        newSleepTimeMs := UnsignedDifference(settings.userIdleTimeoutMs, idleMs);
        if pausedThisIteration {
          newSleepTimeMs := newSleepTimeMs - GetElapsedTimeMs(pauseBegin, pauseEnd);
        }
        if newSleepTimeMs < IdlePolling.POLLING_INTERVAL_MS {
          newSleepTimeMs := IdlePolling.POLLING_INTERVAL_MS;
        }
      }
    }

    method HeedSignalsInX11(p: X11Pass) returns (end: PassEnd)
      requires Valid() && InX11(watch) && watch.due.Nothing? && p.waitStatus <= 255
      requires cursor.turn.X11Turn? && cursor.phase.Fresh? && cursor.turn.x11 == p
      modifies this`commandPaused, this`sigchldReceived, this`trace, this`watch, this`cursor
      ensures cursor == old(cursor)
      ensures Ends(end) && !end.LeaveToWait? && !end.LeaveToX11? && (!end.Finished? ==> watch.fds == old(watch.fds))
      ensures end.Onward? ==> InX11(watch) && watch.due.Nothing? && Attentive(watch) && commandPaused == old(commandPaused)
    {
      hide Recorded, Consistent, Enabled, Effect, HandledWith;
      if interruptionReceived.Some? {
        var code := HandleInterruption(p.waitStatus);
        return Handled(code);
      }
      if sigchldReceived {
        sigchldReceived := false;
        var exit := ExitIfPidHasFinished(p.signalProbe);
        if exit.Some? { return Finished(exit.value); }
      }
      return Onward;
    }

    /** The part of a pass between heeding signals and going to sleep. */
    method LookAndDecide(session: IdlePolling.Session, p: X11Pass, sleepTimeMs: int) returns (end: PassEnd, newSleepTimeMs: int)
      requires settings.Accepted() && Valid() && InX11(watch) && watch.due.Nothing? && Attentive(watch)
      requires cursor == Cursor(X11Turn(session, p), Fresh, 0)
      modifies this`monitoringStarted, this`commandPaused, this`trace, this`watch, this`cursor
      ensures Ends(end) && (end.Onward? || end.Finished?) && cursor == Cursor(X11Turn(session, p), Requested, 0)
      ensures end.Onward? ==>
        && InX11(watch) && watch.due.Nothing? && MaySleep(watch) && watch.fds == old(watch.fds)
        && LoopState(newSleepTimeMs) == IdlePolling.Pass(settings, session, old(LoopState(sleepTimeMs)), p.reading)
    {
      hide Recorded, Consistent, Enabled, Effect, IdlePolling.Decide;
      newSleepTimeMs := sleepTimeMs;
      if !monitoringStarted { StartMonitoringByClock(session, p.reading.now); }
      var idleMs := 0;
      if monitoringStarted {
        idleMs := IdlePolling.QueryUserIdleTime(session, p.reading);
        LogObserve(idleMs);
      }
      var exit := ExitIfPidHasFinished(p.probe);
      if exit.Some? { return Finished(exit.value), newSleepTimeMs; }
      if monitoringStarted {
        newSleepTimeMs := PauseOrResumeCommandDependingOnUserActivity(
          sleepTimeMs, idleMs, p.reading.pauseBegin, p.reading.pauseEnd);
      }
      return Onward, newSleepTimeMs;
    }

    method X11LoopPass(session: IdlePolling.Session, p: X11Pass, sleepTimeMs: int) returns (end: PassEnd, newSleepTimeMs: int)
      requires settings.Accepted() && Valid() && InX11(watch) && watch.due.Nothing? && p.waitStatus <= 255 && p.reading.Sane()
      requires IdlePolling.Entering(LoopState(sleepTimeMs)) || IdlePolling.SleepInRange(settings, LoopState(sleepTimeMs))
      requires PassOver(cursor)
      modifies this
      ensures turns == old(turns) + [X11Turn(session, p)] && (end.Onward? ==> PassOver(cursor))
      ensures Ends(end) && !end.LeaveToWait? && !end.LeaveToX11? && pollFds == old(pollFds)
      ensures !end.Finished? ==> watch.fds == old(watch.fds)
      ensures entry == old(entry) && (!end.Onward? ==> sleeps == old(sleeps))
      ensures end.Onward? ==>
        && InX11(watch) && watch.due.Nothing?
        && LoopState(newSleepTimeMs) == IdlePolling.Pass(settings, session, old(LoopState(sleepTimeMs)), p.reading)
        && sleeps == old(sleeps) + [IdlePolling.PollMs(newSleepTimeMs)]
    {
      hide Recorded, Consistent, Effect, IdlePolling.Pass, IdlePolling.Entering, IdlePolling.SleepInRange,
           Slept, Drained, LastInterruption, MaySleep, SleepFits, Attentive, Enabled, WithPaused;
      newSleepTimeMs := sleepTimeMs;
      BeginPass(X11Turn(session, p));
      end := HeedSignalsInX11(p);
      if !end.Onward? { return; }
      end, newSleepTimeMs := LookAndDecide(session, p, sleepTimeMs);
      if !end.Onward? { return; }
      IdlePolling.PassSleepsInRange(settings, session, old(LoopState(sleepTimeMs)), p.reading);
      SleepUntilNextLook(session, p, newSleepTimeMs);
    }

    method SleepUntilNextLook(session: IdlePolling.Session, p: X11Pass, sleepTimeMs: int)
      requires settings.Accepted() && Valid() && InX11(watch) && MaySleep(watch)
      requires IdlePolling.SleepInRange(settings, LoopState(sleepTimeMs)) && cursor == Cursor(X11Turn(session, p), Requested, 0)
      modifies this`interruptionReceived, this`sigchldReceived, this`trace, this`watch, this`cursor, this`sleeps
      ensures Valid() && InX11(watch) && watch.due.Nothing? && watch.fds == old(watch.fds) && PassOver(cursor)
      ensures sleeps == old(sleeps) + [IdlePolling.PollMs(sleepTimeMs)]
    {
      hide Recorded, Consistent, Enabled, Effect, LastInterruption, SleepFits, MaySleep;
      var sleepTimeMsInt := if sleepTimeMs > INT_MAX then INT_MAX else sleepTimeMs;
      RangeFits(sleepTimeMs);
      SleepForMsWithSignalfd(sleepTimeMsInt, p.readable, p.signals);
    }

    /** A sleep in the range of the timed model fits the automaton's state. */
    lemma RangeFits(sleepTimeMs: int)
      requires settings.Accepted() && Mirrors() && watch.stage.X11?
      requires IdlePolling.SleepInRange(settings, LoopState(sleepTimeMs))
      ensures SleepFits(settings, watch, IdlePolling.PollMs(sleepTimeMs))
    {
      hide Recorded, Consistent;
    }

    /** `d` counts the passes begun; all of them but an unfinished last one have slept. */
    method RunX11Loop(session: IdlePolling.Session, passes: seq<X11Pass>) returns (flow: Flow, sleepTimeMs: int, ghost d: nat)
      requires settings.Accepted() && Valid() && InX11(watch) && watch.due.Nothing? && AllClosed(watch)
      requires PassOver(cursor) && forall p | p in passes :: p.waitStatus <= 255 && p.reading.Sane()
      modifies this
      ensures Tracked() && !flow.HandedOver?
      ensures flow.Returned? ==> Valid() && ReadyToReturn(settings, watch, flow.code) && AllClosed(watch)
      ensures flow.Exited? ==> watch.stage.Over? && watch.finished == Some(flow.code)
      ensures d <= |passes| && turns == old(turns) + X11Turns(session, passes)[..d] && entry == old(entry)
      ensures if flow.Cut? then d == |passes| && watch.stage.X11? else d > 0
      ensures var begin := old(LoopState(IdlePolling.POLLING_INTERVAL_BEFORE_STARTING_MONITORING_MS));
        var readings := ReadingsOf(passes)[..if flow.Cut? then d else d - 1];
        && sleeps == old(sleeps) + IdlePolling.Polls(settings, session, begin, readings)
        && (flow.Cut? ==> LoopState(sleepTimeMs) == IdlePolling.After(settings, session, begin, readings))
    {
      hide Recorded, Enabled, Effect, IdlePolling.Pass, IdlePolling.PollMs, IdlePolling.After, IdlePolling.Polls;
      sleepTimeMs := IdlePolling.POLLING_INTERVAL_BEFORE_STARTING_MONITORING_MS;
      ghost var begin := LoopState(sleepTimeMs);
      ghost var readings := ReadingsOf(passes);
      IdlePolling.NoPassYet(settings, session, begin);
      for i := 0 to |passes|
        invariant Valid() && InX11(watch) && watch.due.Nothing? && AllClosed(watch)
        invariant IdlePolling.Entering(LoopState(sleepTimeMs)) || IdlePolling.SleepInRange(settings, LoopState(sleepTimeMs))
        invariant LoopState(sleepTimeMs) == IdlePolling.After(settings, session, begin, readings[..i])
        invariant sleeps == old(sleeps) + IdlePolling.Polls(settings, session, begin, readings[..i])
        invariant turns == old(turns) + X11Turns(session, passes)[..i] && PassOver(cursor) && entry == old(entry)
      {
        IdlePolling.AfterOneMore(settings, session, begin, readings, i);
        IdlePolling.PassSleepsInRange(settings, session, LoopState(sleepTimeMs), passes[i].reading);
        var end;
        end, sleepTimeMs := X11LoopPass(session, passes[i], sleepTimeMs);
        match end {
          case Onward =>
          case Handled(code) => return Returned(code), sleepTimeMs, i + 1;
          case Finished(code) => return Exited(code), sleepTimeMs, i + 1;
        }
      }
      return Cut, sleepTimeMs, |passes|;
    }

    // ---------- The program ----------

    ghost method LogEnterX11()
      requires Valid() && Leaving(watch, HandOver) && AllClosed(watch)
      modifies this`trace, this`watch, this`entry
      ensures Valid() && watch == Leave(old(watch), X11)
      ensures entry == Some(LoopState(IdlePolling.POLLING_INTERVAL_BEFORE_STARTING_MONITORING_MS))
    {
      hide Consistent, Run, Replay, TurnsIn, SleepsIn, EntryIn, Moves;
      StepsAreSound(settings, watch, EnterX11);
      RunStep(settings, trace, EnterX11);
      OneMore(settings, trace, EnterX11);
      OthersLeaveTheCursor(cursor, EnterX11);
      watch, entry := Effect(settings, watch, EnterX11), EntryFrom(Some(watch));
      trace := trace + [EnterX11];
    }

    ghost method LogReturn(code: int)
      requires Valid() && ReadyToReturn(settings, watch, code) && AllClosed(watch)
      modifies this`trace, this`watch
      ensures Tracked() && trace == old(trace) + [Return(code)]
    {
      hide Recorded, Consistent;
      Log(Return(code));
    }

    /**
      main, from the first attempt at Wayland on. A run that does not end has used
      up its script. `k` and `d` count the passes of the loops.
     */
    method RunMain(input: MainInput) returns (flow: Flow, ghost k: nat, ghost d: nat)
      requires settings.Accepted() && Valid() && trace == [] && watch == INITIAL && cursor == BEGINNING
      requires turns == [] && sleeps == [] && entry == None && pollFds.Length == 5 && input.Possible()
      modifies this, pollFds
      ensures Allowed(settings, trace) && Replay(trace).Some? && !flow.HandedOver?
      ensures FollowsScript(settings, input, trace, k, d)
      ensures flow.Cut? ==> UsedUp(settings, input, trace, k, d)
      ensures flow.Returned? ==> trace != [] && trace[|trace| - 1] == Return(flow.code)
      ensures flow.Exited? ==> trace != [] && trace[|trace| - 1] == Exit(flow.code)
      ensures flow.Exited? ==> Run(settings, trace).value.finished == Some(flow.code)
    {
      hide Run, Replay, TurnsIn, SleepsIn, EntryIn, Consistent, Enabled, Effect, Leaving, FollowsScript, UsedUp, TurnsBefore,
           MainInput.Possible;
      flow, k, d := MonitorOnWayland(input);
      if flow.HandedOver? { flow, d := MonitorByPolling(input, k); }
    }

    /** main up to the failure of the Wayland backend, if it fails. */
    method MonitorOnWayland(input: MainInput) returns (flow: Flow, ghost k: nat, ghost d: nat)
      requires Valid() && watch == INITIAL && cursor == BEGINNING && pollFds.Length == 5 && input.Possible()
      requires turns == [] && sleeps == [] && entry == None
      modifies this, pollFds
      ensures Tracked() && k <= |input.passes| && (!input.waylandAvailable ==> k == 0)
      ensures flow.HandedOver? ==>
        Valid() && Leaving(watch, HandOver) && AllClosed(watch) && PassOver(cursor) && turns == TurnsBefore(input, k) && sleeps == []
      ensures !flow.HandedOver? ==> FollowsScript(settings, input, trace, k, d)
      ensures flow.Cut? ==> UsedUp(settings, input, trace, k, d)
      ensures flow.Returned? ==> trace != [] && trace[|trace| - 1] == Return(flow.code)
      ensures flow.Exited? ==> trace != [] && trace[|trace| - 1] == Exit(flow.code) && watch.finished == Some(flow.code)
    {
      hide Run, Replay, TurnsIn, SleepsIn, EntryIn, Consistent, Enabled, Effect, ReadyToReturn, Leaving, WaylandTurns, DrainTurns, X11Turns, ReadingsOf;
      flow, k, d := HandedOver, 0, 0;
      if input.waylandAvailable {
        flow, k, d := RunWaylandIdleEventLoop(input.setup, input.passes, input.drain);
        if flow.Returned? { LogReturn(flow.code); }
        if flow.Exited? { AnExitEndsTheRun(settings, trace, flow.code); }
      } else {
        LogUnavailable();
      }
    }

    /** main from the failure of the Wayland backend on. */
    method MonitorByPolling(input: MainInput, ghost k: nat) returns (flow: Flow, ghost d: nat)
      requires settings.Accepted() && Valid() && Leaving(watch, HandOver) && AllClosed(watch) && PassOver(cursor)
      requires k <= |input.passes| && (!input.waylandAvailable ==> k == 0) && input.Possible()
      requires turns == TurnsBefore(input, k) && sleeps == []
      modifies this
      ensures Tracked() && !flow.HandedOver? && FollowsScript(settings, input, trace, k, d)
      ensures flow.Cut? ==> UsedUp(settings, input, trace, k, d)
      ensures flow.Returned? ==> trace != [] && trace[|trace| - 1] == Return(flow.code)
      ensures flow.Exited? ==> trace != [] && trace[|trace| - 1] == Exit(flow.code) && watch.finished == Some(flow.code)
    {
      hide Run, Replay, TurnsIn, SleepsIn, EntryIn, Consistent, Enabled, Effect, ReadyToReturn, TurnsBefore;
      LogEnterX11();
      var sleepTimeMs;
      flow, sleepTimeMs, d := RunX11Loop(input.session, input.x11);
      ghost var readings := ReadingsOf(input.x11)[..if flow.Cut? then d else d - 1];
      if flow.Returned? { LogReturn(flow.code); }
      if flow.Exited? { AnExitEndsTheRun(settings, trace, flow.code); }
      assert readings == ReadingsOf(input.x11)[..|sleeps|];
    }
  }

  // ---------- The passes of a script ----------

  ghost function WaylandTurns(passes: seq<WaylandPass>): seq<Turn> {
    seq(|passes|, i requires 0 <= i < |passes| => WaylandTurn(passes[i]))
  }

  ghost function DrainTurns(passes: seq<DrainPass>): seq<Turn> {
    seq(|passes|, i requires 0 <= i < |passes| => DrainTurn(passes[i]))
  }

  ghost function X11Turns(session: IdlePolling.Session, passes: seq<X11Pass>): seq<Turn> {
    seq(|passes|, i requires 0 <= i < |passes| => X11Turn(session, passes[i]))
  }

  ghost function ReadingsOf(passes: seq<X11Pass>): seq<IdlePolling.Reading> {
    seq(|passes|, i requires 0 <= i < |passes| => passes[i].reading)
  }

  /** The set-up and the first k passes of the Wayland loop, if there is one. */
  ghost function TurnsBefore(input: MainInput, k: nat): seq<Turn>
    requires k <= |input.passes|
  {
    if input.waylandAvailable then [SetupTurn(input.setup)] + WaylandTurns(input.passes)[..k] else []
  }

  /**
    The passes begun in a run, however it ended, are those of the script, in
    order: k of the Wayland loop, then d of the loop that only waits or of the X11
    loop. Every pass of the X11 loop but an unfinished last one has slept, for the
    times of the timed model.
   */
  ghost predicate FollowsScript(s: Settings, input: MainInput, trace: seq<Action>, k: nat, d: nat) {
    && k <= |input.passes| && (!input.waylandAvailable ==> k == 0)
    && match EntryIn(s, trace)
       case None => input.waylandAvailable && d <= |input.drain| && TurnsIn(trace) == TurnsBefore(input, k) + DrainTurns(input.drain)[..d]
       case Some(entry) =>
         && d <= |input.x11| && TurnsIn(trace) == TurnsBefore(input, k) + X11Turns(input.session, input.x11)[..d]
         && var n := |SleepsIn(trace)|;
            n <= d <= n + 1 && SleepsIn(trace) == IdlePolling.Polls(s, input.session, entry, ReadingsOf(input.x11)[..n])
  }

  /** The loop the run was cut in has had all its passes. */
  ghost predicate UsedUp(s: Settings, input: MainInput, trace: seq<Action>, k: nat, d: nat)
    requires Allowed(s, trace)
  {
    match Run(s, trace).value.stage
    case Wayland => input.waylandAvailable && k == |input.passes| && d == 0
    case Draining => input.waylandAvailable && d == |input.drain|
    case X11 => d == |input.x11| == |SleepsIn(trace)|
    case _ => false
  }
}
