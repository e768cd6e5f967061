/**
  What the supervisor may do, as an automaton over the actions of a whole run.
  It keeps the obligations an action creates and refuses any run that sleeps,
  polls or ends while one of them is open.
 */
module SupervisorTrace {
  import opened CNumbers
  import opened Settings
  import IdlePolling

  datatype Signal = SIGINT | SIGTERM | SIGCHLD

  /** What waitpid(WNOHANG | WUNTRACED) reports for our own child. */
  datatype WaitStatus = NoChange | StoppedByJobControl | ExitedWith(code: nat) | KilledBy(signal: int) | NoSuchChild

  /** The answers to kill(pid, 0) and to waitpid; only one of the two is asked. */
  datatype Probe = Probe(killFails: bool, wait: WaitStatus)

  function FinishedCode(s: Settings, probe: Probe): Option<int> {
    if s.externalPid then if probe.killFails then Some(0) else None
    else match probe.wait
      case ExitedWith(code) => Some(code)
      case _ => None
  }

  datatype IdleEvent = Idled | Resumed

  /** A call into libwayland: success, EINTR, EAGAIN or any other error. */
  datatype CallResult = Done | Interrupted | TryAgain | Failed

  datatype Descriptor = StartTimer | ProcessExit | FallbackTimer

  /** The returned events of one poll, by the role of their slot. */
  datatype Ready = Ready(
    signal: bool,
    waylandInvalid: bool, waylandClosed: bool, waylandOut: bool, waylandIn: bool,
    startInvalid: bool, startError: bool, startIn: bool,
    exitInvalid: bool, exitReady: bool,
    fallbackInvalid: bool, fallbackError: bool, fallbackIn: bool)

  datatype PollResult = PollInterrupted | PollFailed | Polled(ready: Ready)

  // ---------- What the surroundings answer ----------

  /** The answers while the Wayland loop is set up; -1 for what cannot be opened. */
  datatype WaylandSetup = WaylandSetup(timerFd: int, displayFd: int, processFd: int, fallbackFd: int, probe: Probe)

  /** The answers during one pass of the Wayland loop. */
  datatype WaylandPass = WaylandPass(
    waitStatus: nat, signalProbe: Probe,
    pendingEvents: seq<IdleEvent>, pending: CallResult, flush: CallResult,
    poll: PollResult, signals: seq<Signal>, secondFlush: CallResult,
    startRead: bool, created: bool, exitProbe: Probe, fallbackRead: bool, fallbackProbe: Probe,
    events: seq<IdleEvent>, dispatch: CallResult)

  /** The answers during one pass of the loop that only waits for the command. */
  datatype DrainPass = DrainPass(waitStatus: nat, probe: Probe, readable: bool, signals: seq<Signal>)

  /** The answers during one pass of the X11 loop. */
  datatype X11Pass = X11Pass(
    waitStatus: nat, signalProbe: Probe, reading: IdlePolling.Reading, probe: Probe, readable: bool, signals: seq<Signal>)

  datatype Turn =
    | NoTurn
    | SetupTurn(setup: WaylandSetup)
    | WaylandTurn(wayland: WaylandPass)
    | DrainTurn(drain: DrainPass)
    | X11Turn(session: IdlePolling.Session, x11: X11Pass)

  datatype Action =
    | Begin(turn: Turn)                           // a pass begins
    | Drain(signals: seq<Signal>)                 // the signal descriptor is read empty
    | Check(probe: Probe)                         // has the command finished?
    | Exit(code: int)                             // the program exits because it has
    | Pause | Resume                              // the whole tree is stopped, or continued
    | Handle(signal: Signal)                      // an interruption is taken up
    | Forward(signal: Signal)                     // and passed on to the command
    | Wait(code: int)                             // which is then waited for
    | Return(code: int)
    | Open(descriptor: Descriptor, fd: int) | Close(descriptor: Descriptor, fd: int)
    | Unavailable                                 // the Wayland backend cannot be set up
    | DispatchPending(pending: CallResult)
    | Flush(flushed: CallResult)
    | Poll(fds: seq<int>, wantsWrite: bool, result: PollResult)
    | Dispatch(dispatched: CallResult)
    | Event(event: IdleEvent)                     // delivered by either dispatch
    | Consume(timer: Descriptor, ok: bool)        // a timer descriptor is read
    | Start                                       // monitoring starts
    | Notify(created: bool)                       // the idle notification object is requested
    | Trouble                                     // a polled descriptor is found broken
    | Lost                                        // the backend is gone, wait for the command without monitoring
    | EnterX11                                    // the polling backend takes over
    | Clock(elapsedMs: int)
    | Observe(idleMs: nat)
    | Sleep(ms: int, readable: bool)

  datatype Stage = Wayland | X11 | Draining | MustForward(signal: Signal) | Released | Waited(code: int) | Over

  /** The one thing that has to happen next. */
  datatype Due = Nothing | DrainDue | StartDue | NotifyDue | PauseDue | ResumeDue

  datatype Cause = Stay | GiveUp | HandOver

  datatype FlushState = NotFlushed | Flushed | Blocked

  /** What the last poll has reported and the pass has not yet dealt with. */
  datatype Todo = Todo(flush: bool, dispatch: bool, start: bool, readStart: bool, readFallback: bool, trouble: bool)

  const NOTHING_TO_DO: Todo := Todo(false, false, false, false, false, false)

  /** The descriptors the Wayland loop owns; -1 stands for a closed one. */
  datatype Descriptors = Descriptors(startTimer: int, processExit: int, fallbackTimer: int)

  const NO_DESCRIPTORS: Descriptors := Descriptors(-1, -1, -1)

  /** How far the Wayland loop has come. */
  datatype Progress = Progress(
    cause: Cause,                 // why the loop has to be left
    entered: bool, notified: bool,
    queueEmpty: bool, flush: FlushState,
    todo: Todo)

  datatype Watch = Watch(
    stage: Stage,
    monitoring: bool,
    paused: bool,
    interruption: Option<Signal>,
    finished: Option<int>,        // a check has seen the end
    due: Due,
    childSignal: bool,            // a child signal has not been followed by a check
    mustCheck: bool,              // something else asks for a check
    looked: bool,                 // this X11 pass has read the clock or the idle time
    loop: Progress,
    fds: Descriptors)

  const INITIAL: Watch := Watch(
    Wayland, false, false, None, None, Nothing, false, true, false,
    Progress(Stay, false, false, false, NotFlushed, NOTHING_TO_DO), NO_DESCRIPTORS)

  function DescriptorOf(fds: Descriptors, d: Descriptor): int {
    match d
    case StartTimer => fds.startTimer
    case ProcessExit => fds.processExit
    case FallbackTimer => fds.fallbackTimer
  }

  function SetDescriptor(fds: Descriptors, d: Descriptor, fd: int): Descriptors {
    match d
    case StartTimer => fds.(startTimer := fd)
    case ProcessExit => fds.(processExit := fd)
    case FallbackTimer => fds.(fallbackTimer := fd)
  }

  function WithDescriptor(m: Watch, d: Descriptor, fd: int): Watch {
    m.(fds := SetDescriptor(m.fds, d, fd))
  }

  predicate AllClosed(m: Watch) {
    m.fds == NO_DESCRIPTORS
  }

  /** The last interrupting signal of a batch, or the one known before it. */
  function LastInterruption(before: Option<Signal>, signals: seq<Signal>): (r: Option<Signal>)
    ensures before != Some(SIGCHLD) ==> r != Some(SIGCHLD)
  {
    if signals == [] then before
    else
      var last := |signals| - 1;
      if signals[last] == SIGCHLD then LastInterruption(before, signals[..last]) else Some(signals[last])
  }

  predicate Active(m: Watch) {
    m.stage.Wayland? || m.stage.X11? || m.stage.Draining?
  }

  lemma LastInterruptionStep(before: Option<Signal>, signals: seq<Signal>, x: Signal)
    ensures LastInterruption(before, []) == before
    ensures LastInterruption(before, signals + [x]) == if x == SIGCHLD then LastInterruption(before, signals) else Some(x)
  {
    assert (signals + [x])[..|signals|] == signals;
  }

  predicate Running(m: Watch) {
    Active(m) && m.due.Nothing? && m.loop.cause.Stay?
  }

  /** In the middle of a pass of the Wayland loop. */
  predicate InPass(m: Watch) {
    m.stage.Wayland? && Running(m) && m.finished.None?
  }

  /** Nothing the last poll reported is left undone. */
  predicate Settled(m: Watch) {
    m.loop.todo == NOTHING_TO_DO && !m.mustCheck
  }

  predicate Attentive(m: Watch) {
    m.interruption.None? && !m.childSignal
  }

  /** Before the first pass of the Wayland loop. */
  predicate AtStart(m: Watch) {
    InPass(m) && m.loop.todo == NOTHING_TO_DO && !m.loop.entered
  }

  predicate AtTop(m: Watch) {
    InPass(m) && Settled(m)
  }

  predicate ReadyToFlush(m: Watch) {
    AtTop(m) && Attentive(m) && m.loop.queueEmpty && m.loop.flush.NotFlushed?
  }

  predicate ReadyToPoll(m: Watch) {
    AtTop(m) && Attentive(m) && m.loop.queueEmpty && !m.loop.flush.NotFlushed?
  }

  /** The Wayland loop is to be left, for waiting only or for the polling backend. */
  predicate Leaving(m: Watch, cause: Cause) {
    m.stage.Wayland? && m.due.Nothing? && m.finished.None? && m.loop.cause == cause
  }

  /** Everything is done and main may return the code. */
  predicate ReadyToReturn(s: Settings, m: Watch, code: int) {
    m.due.Nothing? && m.finished.None? && (m.stage == Waited(code) || (m.stage.Released? && s.externalPid && code == 0))
  }

  function Leave(m: Watch, next: Stage): Watch {
    m.(stage := next, mustCheck := true, looked := false,
       loop := m.loop.(cause := Stay, todo := NOTHING_TO_DO),
       due := if next.Draining? && m.paused then ResumeDue else Nothing)
  }

  predicate BrokenTimer(m: Watch, x: Ready) {
    !m.monitoring && m.fds.startTimer >= 0 && (x.startInvalid || x.startError)
  }

  predicate BrokenIn(m: Watch, x: Ready) {
    BrokenTimer(m, x) || LateBroken(m, x)
  }

  predicate LateBroken(m: Watch, x: Ready) {
    || (m.fds.processExit >= 0 && x.exitInvalid)
    || (m.fds.fallbackTimer >= 0 && (x.fallbackInvalid || x.fallbackError))
  }

  /** The cause for leaving that a poll gives at once. */
  function PollCause(r: PollResult): Cause {
    if r.PollFailed? then HandOver
    else if r.PollInterrupted? then Stay
    else if r.ready.waylandInvalid then HandOver
    else if r.ready.waylandClosed then GiveUp
    else Stay
  }

  function TodoAfter(m: Watch, x: Ready): Todo {
    var start := !m.monitoring && m.fds.startTimer >= 0 && x.startIn;
    Todo(x.waylandOut, x.waylandIn, start, start, m.fds.fallbackTimer >= 0 && x.fallbackIn, BrokenIn(m, x))
  }

  predicate AsksForCheck(m: Watch, x: Ready) {
    (m.fds.processExit >= 0 && x.exitReady) || (m.fds.fallbackTimer >= 0 && x.fallbackIn)
  }

  /** A poll creates a duty for each event it reports, unless the loop has to be left at once. */
  function AfterPoll(m: Watch, r: PollResult): Watch {
    var seen := r.Polled? && PollCause(r).Stay?;
    m.(due := if r.Polled? && r.ready.signal then DrainDue else Nothing,
       mustCheck := seen && AsksForCheck(m, r.ready),
       loop := m.loop.(queueEmpty := false, flush := NotFlushed, cause := PollCause(r),
                       todo := if seen then TodoAfter(m, r.ready) else NOTHING_TO_DO))
  }

  /** The descriptors to poll, in order; the display and the signal descriptor are as given. */
  function PollSlots(fds: Descriptors, given: seq<int>): seq<int> {
    if |given| < 3 then [0, 0, 0]
    else [given[0], fds.startTimer, given[2]] +
         if fds.processExit >= 0 then [fds.processExit] else if fds.fallbackTimer >= 0 then [fds.fallbackTimer] else []
  }

  // ---------- The effects of single actions ----------

  function Drained(m: Watch, signals: seq<Signal>): Watch {
    m.(due := Nothing, interruption := LastInterruption(m.interruption, signals),
       childSignal := m.childSignal || SIGCHLD in signals)
  }

  function Checked(m: Watch, finished: Option<int>): Watch {
    m.(finished := finished, childSignal := false, mustCheck := false)
  }

  function WithPaused(m: Watch, paused: bool): Watch {
    m.(paused := paused, due := Nothing)
  }

  function TakenUp(s: Settings, m: Watch, signal: Signal): Watch {
    m.(stage := if s.externalPid then Released else MustForward(signal),
       due := if s.externalPid && m.paused then ResumeDue else Nothing)
  }

  function PassedOn(m: Watch): Watch {
    m.(stage := Released, due := if m.paused then ResumeDue else Nothing)
  }

  /** An interruption has been handled and main may return the code. */
  function HandledWith(s: Settings, m: Watch, code: int): Watch {
    WithPaused(m, false).(stage := if s.externalPid then Released else Waited(code))
  }

  function Slept(m: Watch, readable: bool): Watch {
    m.(looked := false, mustCheck := true, due := if readable then DrainDue else Nothing)
  }

  function Told(m: Watch, e: IdleEvent): Watch {
    m.(due := if !m.monitoring then Nothing
              else if e.Idled? && m.paused then ResumeDue
              else if e.Resumed? && !m.paused then PauseDue
              else Nothing)
  }

  function Dispatched(m: Watch, r: CallResult): Watch {
    m.(loop := m.loop.(entered := true, queueEmpty := r.Done?, flush := NotFlushed,
                       cause := if r.TryAgain? || r.Failed? then GiveUp else Stay))
  }

  function Delivered(m: Watch, r: CallResult): Watch {
    m.(loop := m.loop.(todo := m.loop.todo.(dispatch := false), cause := if r.Failed? then GiveUp else Stay))
  }

  function WithStage(m: Watch, stage: Stage): Watch {
    m.(stage := stage)
  }

  function WithCause(m: Watch, cause: Cause): Watch {
    m.(loop := m.loop.(cause := cause))
  }

  function FlushedWith(m: Watch, r: CallResult): Watch {
    m.(loop := m.loop.(todo := m.loop.todo.(flush := false), cause := if r.Failed? then GiveUp else Stay,
                       flush := if r.Done? then Flushed else if r.TryAgain? then Blocked else m.loop.flush))
  }

  function Consumed(m: Watch, d: Descriptor, ok: bool): Watch {
    var todo := if d.StartTimer? then m.loop.todo.(readStart := false) else m.loop.todo.(readFallback := false);
    m.(loop := m.loop.(todo := todo, cause := if ok then Stay else HandOver))
  }

  function Begun(m: Watch): Watch {
    m.(monitoring := true, looked := false, loop := m.loop.(todo := m.loop.todo.(start := false)),
       due := if m.stage.Wayland? then NotifyDue else Nothing)
  }

  function Notified(m: Watch, created: bool): Watch {
    m.(loop := m.loop.(notified := created, cause := if created then Stay else GiveUp),
       due := if created && !m.paused then PauseDue else Nothing)
  }

  function Clocked(m: Watch, due: bool): Watch {
    m.(looked := !due, due := if due then StartDue else Nothing)
  }

  function Observed(s: Settings, m: Watch, idleMs: nat): Watch {
    m.(looked := true, mustCheck := true,
       due := if idleMs >= s.userIdleTimeoutMs && m.paused then ResumeDue
              else if idleMs < s.userIdleTimeoutMs && !m.paused then PauseDue
              else Nothing)
  }

  /** Everything a pass of a polling loop has to do has been done. */
  predicate MaySleep(m: Watch) {
    (m.stage.X11? || m.stage.Draining?) && Running(m) && Attentive(m) && !m.mustCheck && (m.stage.X11? ==> m.looked)
  }

  /** 100 ms while only waiting; 100 or 1000 ms while the command runs; while it is paused 1000 ms up to the timeout, cut to an int. */
  predicate SleepFits(s: Settings, m: Watch, ms: int) {
    if m.stage.Draining? then ms == 100
    else if m.paused then IdlePolling.POLLING_INTERVAL_MS <= ms <= IdlePolling.PollMs(s.userIdleTimeoutMs)
    else ms == IdlePolling.POLLING_INTERVAL_BEFORE_STARTING_MONITORING_MS || (m.monitoring && ms == IdlePolling.POLLING_INTERVAL_MS)
  }

  /** A pass belongs to its loop, and the Wayland loop begins one only when nothing of the last is left. */
  predicate TurnFits(m: Watch, turn: Turn) {
    match turn
    case NoTurn => false
    case SetupTurn(_) => m.stage.Wayland? && !m.loop.entered
    case WaylandTurn(_) => m.stage.Wayland? && Settled(m)
    case DrainTurn(_) => m.stage.Draining?
    case X11Turn(_, _) => m.stage.X11?
  }

  /** Whether an action is allowed while the program runs and no check has seen the end. */
  predicate Permitted(s: Settings, m: Watch, a: Action) {
    match a
    case Begin(turn) =>
      Running(m) && TurnFits(m, turn)
    case Drain(_) =>
      m.due.DrainDue?
    case Check(_) =>
      Active(m) && m.loop.cause.Stay? && (m.due.Nothing? || m.due.PauseDue? || m.due.ResumeDue?)
    case Exit(code) => m.finished == Some(code)
    case Pause =>
      m.due.PauseDue? && (m.stage.X11? ==> !m.mustCheck)
    case Resume =>
      m.due.ResumeDue? && (m.stage.X11? ==> !m.mustCheck)
    case Handle(signal) =>
      Running(m) && m.interruption == Some(signal)
    case Forward(signal) =>
      m.stage == MustForward(signal)
    case Wait(code) =>
      m.stage.Released? && m.due.Nothing? && !s.externalPid && 0 <= code <= 255
    case Return(code) =>
      m.due.Nothing? && AllClosed(m)
      && (m.stage == Waited(code) || (m.stage.Released? && s.externalPid && code == 0))
    case Open(d, fd) =>
      m.stage.Wayland? && Running(m) && !m.loop.entered && fd >= 0 && DescriptorOf(m.fds, d) == -1
      && (d.FallbackTimer? ==> m.fds.processExit == -1) && (d.ProcessExit? ==> m.fds.fallbackTimer == -1)
    case Close(d, fd) =>
      fd >= 0 && DescriptorOf(m.fds, d) == fd
    case Start =>
      if m.stage.Wayland? then Running(m) && m.loop.todo.start && !m.loop.todo.readStart && m.fds.startTimer == -1
      else m.stage.X11? && m.due.StartDue?
    case Unavailable =>
      m.stage.Wayland? && !m.loop.entered && Running(m)
    case Lost =>
      m.stage.Wayland? && m.due.Nothing? && m.loop.cause.GiveUp? && AllClosed(m)
    case EnterX11 =>
      m.stage.Wayland? && m.due.Nothing? && m.loop.cause.HandOver? && AllClosed(m)
    case DispatchPending(_) =>
      m.stage.Wayland? && Running(m) && Settled(m) && Attentive(m)
    case Flush(_) =>
      m.stage.Wayland? && Running(m) && (m.loop.todo.flush || (m.loop.queueEmpty && m.loop.flush.NotFlushed?))
    case Poll(fds, wantsWrite, _) =>
      m.stage.Wayland? && Running(m) && Settled(m) && Attentive(m)
      && m.loop.queueEmpty && !m.loop.flush.NotFlushed? && wantsWrite == m.loop.flush.Blocked?
      && fds == PollSlots(m.fds, fds)
    case Dispatch(_) =>
      m.stage.Wayland? && Running(m) && m.loop.todo.dispatch && !m.loop.todo.flush && !m.loop.todo.start && !m.loop.todo.trouble && !m.mustCheck
    case Event(_) =>
      m.stage.Wayland? && Running(m)
    case Consume(d, _) =>
      m.stage.Wayland? && Running(m) && (if d.StartTimer? then m.loop.todo.readStart else d.FallbackTimer? && m.loop.todo.readFallback)
    case Notify(_) =>
      m.due.NotifyDue? && m.loop.cause.Stay?
    case Trouble =>
      m.stage.Wayland? && Running(m) && m.loop.todo.trouble
    case Clock(_) =>
      m.stage.X11? && Running(m) && Attentive(m) && !m.monitoring
    case Observe(_) =>
      m.stage.X11? && Running(m) && Attentive(m) && m.monitoring
    case Sleep(ms, _) =>
      MaySleep(m) && 0 < ms <= INT_MAX && SleepFits(s, m, ms)
  }

  function Effect(s: Settings, m: Watch, a: Action): Watch {
    match a
    case Begin(_) => m
    case Drain(signals) => Drained(m, signals)
    case Check(probe) => Checked(m, FinishedCode(s, probe))
    case Exit(_) => WithStage(m, Over)
    case Pause => WithPaused(m, true)
    case Resume => WithPaused(m, false)
    case Handle(signal) => TakenUp(s, m, signal)
    case Forward(_) => PassedOn(m)
    case Wait(code) => WithStage(m, Waited(code))
    case Return(_) => WithStage(m, Over)
    case Open(d, fd) => WithDescriptor(m, d, fd)
    case Close(d, _) => WithDescriptor(m, d, -1)
    case Start => Begun(m)
    case Unavailable => WithCause(m, HandOver)
    case Lost => Leave(m, Draining)
    case EnterX11 => Leave(m, X11)
    case DispatchPending(r) => Dispatched(m, r)
    case Flush(r) => FlushedWith(m, r)
    case Poll(_, _, r) => AfterPoll(m, r)
    case Dispatch(r) => Delivered(m, r)
    case Event(e) => Told(m, e)
    case Consume(d, ok) => Consumed(m, d, ok)
    case Notify(created) => Notified(m, created)
    case Trouble => WithCause(m, HandOver)
    case Clock(elapsedMs) => Clocked(m, elapsedMs >= s.startMonitorAfterMs)
    case Observe(idleMs) => Observed(s, m, idleMs)
    case Sleep(_, readable) => Slept(m, readable)
  }

  predicate Enabled(s: Settings, m: Watch, a: Action) {
    && !m.stage.Over?
    && (m.finished.Some? ==> a.Exit?)
    && Permitted(s, m, a)
  }

  predicate IsCommand(a: Action) {
    a.Drain? || a.Check? || a.Pause? || a.Resume?
  }

  predicate IsInterruption(a: Action) {
    a.Handle? || a.Forward? || a.Wait? || a.Return?
  }

  predicate IsDescriptor(a: Action) {
    a.Open? || a.Close?
  }

  predicate IsBackend(a: Action) {
    a.Begin? || a.Unavailable? || a.Lost? || a.EnterX11?
  }

  predicate IsPolling(a: Action) {
    a.Clock? || a.Observe? || a.Sleep?
  }

  /** The automaton's next state, or None for an action that is not allowed. */
  function Step(s: Settings, m: Watch, a: Action): Option<Watch> {
    if Enabled(s, m, a) then Some(Effect(s, m, a)) else None
  }

  /** Right after a poll: the signals come first, then whatever makes the loop end, then the other events. */
  predicate JustPolled(m: Watch, x: Ready) {
    && m.stage.Wayland? && m.finished.None?
    && m.due == (if x.signal then DrainDue else Nothing)
    && m.loop.cause == PollCause(Polled(x))
    && (m.loop.cause.Stay? ==> m.loop.todo == TodoAfter(m, x) && m.mustCheck == AsksForCheck(m, x))
  }

  /** The display has been dealt with, as far as writing goes. */
  predicate FacingTimer(m: Watch, x: Ready) {
    InPass(m) && m.loop.todo == TodoAfter(m, x).(flush := false) && m.mustCheck == AsksForCheck(m, x)
  }

  /** The start timer has fired and is closed. */
  predicate FacingStart(m: Watch, x: Ready) {
    && InPass(m) && !m.monitoring && m.fds.startTimer == -1 && m.mustCheck == AsksForCheck(m, x)
    && m.loop.todo == Todo(false, x.waylandIn, true, false, m.fds.fallbackTimer >= 0 && x.fallbackIn, LateBroken(m, x))
  }

  /** Monitoring has just started and the notification object is to be requested. */
  predicate FacingNotify(m: Watch, x: Ready) {
    && m.stage.Wayland? && m.due.NotifyDue? && m.finished.None? && m.loop.cause.Stay? && m.mustCheck == AsksForCheck(m, x)
    && m.loop.todo == Todo(false, x.waylandIn, false, false, m.fds.fallbackTimer >= 0 && x.fallbackIn, LateBroken(m, x))
  }

  /** The start timer has been dealt with. */
  predicate FacingExit(m: Watch, x: Ready) {
    && InPass(m) && m.mustCheck == AsksForCheck(m, x)
    && m.loop.todo == Todo(false, x.waylandIn, false, false, m.fds.fallbackTimer >= 0 && x.fallbackIn, LateBroken(m, x))
  }

  /** Only reading from the display is left. */
  predicate FacingDispatch(m: Watch, x: Ready) {
    InPass(m) && !m.mustCheck && m.loop.todo == NOTHING_TO_DO.(dispatch := x.waylandIn)
  }

  predicate InDraining(m: Watch) {
    m.stage.Draining? && Running(m) && m.finished.None?
  }

  /** In a pass of the X11 loop. */
  predicate InX11(m: Watch) {
    m.stage.X11? && m.loop.cause.Stay? && m.finished.None?
  }

  lemma HandledInSteps(s: Settings, m: Watch, code: int)
    ensures var p := PassedOn(m);
      && p.stage.Released? && p.finished == m.finished && p.paused == m.paused
      && p.due == if m.paused then ResumeDue else Nothing
    ensures var q := WithPaused(PassedOn(m), false);
      && q.stage.Released? && q.finished == m.finished && q.due.Nothing?
      && HandledWith(s, m, code) == if s.externalPid then q else WithStage(q, Waited(code))
    ensures m.finished.None? && (s.externalPid ==> code == 0) ==> ReadyToReturn(s, HandledWith(s, m, code), code)
    ensures HandledWith(s, m, code).fds == m.fds
  {
  }

  /** The state after a whole run, or None if the run is not allowed. */
  function Run(s: Settings, trace: seq<Action>): Option<Watch> {
    if trace == [] then Some(INITIAL)
    else
      var last := |trace| - 1;
      match Run(s, trace[..last])
      case None => None
      case Some(m) => Step(s, m, trace[last])
  }

  ghost predicate Allowed(s: Settings, trace: seq<Action>) {
    Run(s, trace).Some?
  }

  lemma RunStep(s: Settings, trace: seq<Action>, a: Action)
    ensures Run(s, trace + [a]) == match Run(s, trace) case None => None case Some(m) => Step(s, m, a)
  {
    assert (trace + [a])[..|trace|] == trace;
  }

  lemma {:induction false} PrefixesAreAllowed(s: Settings, trace: seq<Action>, n: nat)
    requires Allowed(s, trace) && n <= |trace|
    ensures Allowed(s, trace[..n])
    decreases |trace|
  {
    if n == |trace| {
      assert trace[..n] == trace;
    } else {
      var last := |trace| - 1;
      PrefixesAreAllowed(s, trace[..last], n);
      assert trace[..last][..n] == trace[..n];
    }
  }

  // ---------- Invariants of the automaton ----------

  predicate Consistent(s: Settings, m: Watch) {
    && (m.paused ==> m.monitoring)
    && (m.due.PauseDue? ==> m.monitoring && !m.paused)
    && (m.due.ResumeDue? ==> m.paused)
    && (m.due.NotifyDue? ==> m.stage.Wayland? && m.monitoring && !m.paused && !m.loop.notified)
    && (m.loop.todo.start ==> !m.monitoring)
    && (m.finished.Some? ==> m.due.Nothing? || m.due.PauseDue? || m.due.ResumeDue?)
    && (m.loop.notified ==> m.monitoring)
    && (m.due.StartDue? ==> m.stage.X11? && !m.monitoring)
    && ((m.stage.Released? && !m.due.ResumeDue?) || m.stage.Waited? ==> !m.paused)
    && (m.stage.Released? || m.stage.Waited? || m.stage.MustForward? ==>
          (m.due.Nothing? || m.due.ResumeDue?) && m.interruption.Some? && m.loop.cause.Stay? && m.finished.None?)
    && (m.stage.MustForward? ==> m.due.Nothing? && m.interruption == Some(m.stage.signal))
    && (m.stage.MustForward? || m.stage.Waited? ==> !s.externalPid)
    && !(m.fds.processExit >= 0 && m.fds.fallbackTimer >= 0)
    && m.interruption != Some(SIGCHLD)
    && -1 <= m.fds.startTimer && -1 <= m.fds.processExit && -1 <= m.fds.fallbackTimer
  }

  /** How one action may change the parts of the state the theorems below are about. */
  predicate Moves(s: Settings, m: Watch, a: Action, n: Watch) {
    && !m.stage.Over?
    && (n.paused == m.paused || a.Pause? || a.Resume?)
    && (a.Pause? ==> !m.paused && n.paused)
    && (a.Resume? ==> m.paused && !n.paused)
    && n.interruption == (if a.Drain? then LastInterruption(m.interruption, a.signals) else m.interruption)
    && (m.childSignal ==> n.childSignal || a.Check? || a.Exit?)
    && (a.Drain? && SIGCHLD in a.signals ==> n.childSignal)
    && (a.Poll? || a.Sleep? ==> m.interruption.None? && !m.childSignal)
    && DescriptorsMove(m, a, n)
    && StageMoves(s, m, a, n)
    && (n.monitoring == m.monitoring || (a.Start? && !m.monitoring && n.monitoring))
  }

  predicate DescriptorsMove(m: Watch, a: Action, n: Watch) {
    match a
    case Open(d, fd) => fd >= 0 && DescriptorOf(m.fds, d) == -1 && n.fds == SetDescriptor(m.fds, d, fd)
    case Close(d, fd) => fd >= 0 && DescriptorOf(m.fds, d) == fd && n.fds == SetDescriptor(m.fds, d, -1)
    case _ => n.fds == m.fds
  }

  predicate StageMoves(s: Settings, m: Watch, a: Action, n: Watch) {
    match a
    case Drain(_) => m.due.DrainDue? && n.stage == m.stage && n.finished == m.finished
    case Exit(code) => m.finished == Some(code) && n.stage.Over? && n.finished == m.finished
    case Handle(signal) => Active(m) && m.interruption == Some(signal) && n.stage == if s.externalPid then Released else MustForward(signal)
    case Forward(signal) => m.stage == MustForward(signal) && n.stage.Released?
    case Wait(code) => m.stage.Released? && n.stage == Waited(code)
    case Return(code) => n.stage.Over? && n.finished == m.finished && AllClosed(m) && !m.paused && (m.stage == Waited(code) || (m.stage.Released? && s.externalPid))
    case Lost => m.stage.Wayland? && n.stage.Draining? && AllClosed(m)
    case EnterX11 => m.stage.Wayland? && n.stage.X11? && AllClosed(m)
    case _ => n.stage == m.stage
  }

  ghost predicate Sound(s: Settings, m: Watch, a: Action) {
    var n := Step(s, m, a);
    Consistent(s, m) && n.Some? ==> Consistent(s, n.value) && Moves(s, m, a, n.value)
  }

  lemma CommandStepsAreSound(s: Settings, m: Watch, a: Action)
    requires IsCommand(a)
    ensures Sound(s, m, a)
  {
    hide LastInterruption;
  }

  lemma InterruptionStepsAreSound(s: Settings, m: Watch, a: Action)
    requires IsInterruption(a)
    ensures Sound(s, m, a)
  {
    hide LastInterruption;
  }

  lemma DescriptorStepsAreSound(s: Settings, m: Watch, a: Action)
    requires IsDescriptor(a)
    ensures Sound(s, m, a)
  {
    hide LastInterruption;
  }

  lemma StartStepsAreSound(s: Settings, m: Watch, a: Action)
    requires a.Start?
    ensures Sound(s, m, a)
  {
    hide LastInterruption;
  }

  lemma BackendStepsAreSound(s: Settings, m: Watch, a: Action)
    requires IsBackend(a)
    ensures Sound(s, m, a)
  {
    hide LastInterruption;
  }

  lemma PollingStepsAreSound(s: Settings, m: Watch, a: Action)
    requires IsPolling(a) || a.Exit?
    ensures Sound(s, m, a)
  {
    hide LastInterruption;
  }

  lemma WaylandStepsAreSound(s: Settings, m: Watch, a: Action)
    requires !IsCommand(a) && !IsInterruption(a) && !IsDescriptor(a) && !a.Start? && !IsBackend(a) && !IsPolling(a) && !a.Exit?
    ensures Sound(s, m, a)
  {
    hide LastInterruption;
  }

  lemma StepsAreSound(s: Settings, m: Watch, a: Action)
    ensures Sound(s, m, a)
  {
    hide Sound;
    if IsCommand(a) {
      CommandStepsAreSound(s, m, a);
    } else if IsInterruption(a) {
      InterruptionStepsAreSound(s, m, a);
    } else if IsDescriptor(a) {
      DescriptorStepsAreSound(s, m, a);
    } else if a.Start? {
      StartStepsAreSound(s, m, a);
    } else if IsBackend(a) {
      BackendStepsAreSound(s, m, a);
    } else if IsPolling(a) || a.Exit? {
      PollingStepsAreSound(s, m, a);
    } else {
      WaylandStepsAreSound(s, m, a);
    }
  }

  lemma {:induction false} RunsAreConsistent(s: Settings, trace: seq<Action>)
    requires Allowed(s, trace)
    ensures Consistent(s, Run(s, trace).value)
  {
    hide Step;
    if trace != [] {
      var last := |trace| - 1;
      RunsAreConsistent(s, trace[..last]);
      StepsAreSound(s, Run(s, trace[..last]).value, trace[last]);
    }
  }

  /** The last action of an allowed run is a sound step from the state before it. */
  lemma LastMove(s: Settings, trace: seq<Action>) returns (m: Watch, a: Action, n: Watch)
    requires Allowed(s, trace) && trace != []
    ensures trace == trace[..|trace| - 1] + [a] && Run(s, trace[..|trace| - 1]) == Some(m) && Run(s, trace) == Some(n)
    ensures Step(s, m, a) == Some(n)
    ensures Consistent(s, m) && Consistent(s, n) && Moves(s, m, a, n)
  {
    hide Step, Moves, Consistent;
    var last := |trace| - 1;
    m, a, n := Run(s, trace[..last]).value, trace[last], Run(s, trace).value;
    RunsAreConsistent(s, trace[..last]);
    StepsAreSound(s, m, a);
  }

  // ---------- Pause and resume alternate ----------

  /** The operations on the process tree, in order. */
  function Operations(trace: seq<Action>): seq<Action> {
    if trace == [] then []
    else
      var last := |trace| - 1;
      Operations(trace[..last]) + if trace[last].Pause? || trace[last].Resume? then [trace[last]] else []
  }

  /** Pauses and resumes alternate, beginning with a pause. */
  ghost predicate Alternating(operations: seq<Action>) {
    forall k :: 0 <= k < |operations| ==> operations[k] == if k % 2 == 0 then Pause else Resume
  }

  predicate EndsPaused(operations: seq<Action>) {
    operations != [] && operations[|operations| - 1].Pause?
  }

  /** The operations alternate, and the command counts as paused exactly when the last one paused it. */
  lemma {:induction false} PauseAndResumeAlternate(s: Settings, trace: seq<Action>)
    requires Allowed(s, trace)
    ensures Alternating(Operations(trace))
    ensures Run(s, trace).value.paused <==> EndsPaused(Operations(trace))
  {
    hide Step, Consistent, DescriptorsMove, StageMoves, Alternating;
    if trace != [] {
      var m, a, n := LastMove(s, trace);
      var before := Operations(trace[..|trace| - 1]);
      PauseAndResumeAlternate(s, trace[..|trace| - 1]);
      AlternationGoesOn(before, a);
      assert before + [] == before;
    } else {
      AlternationGoesOn([], Pause);
    }
  }

  lemma AlternationGoesOn(operations: seq<Action>, a: Action)
    ensures Alternating([])
    ensures Alternating(operations) && (a == if EndsPaused(operations) then Resume else Pause) ==> Alternating(operations + [a])
    ensures Alternating(operations) && !EndsPaused(operations) ==> |operations| % 2 == 0
  {
  }

  /** Whenever the program returns, as many resumes as pauses are behind it and every descriptor of the Wayland loop is closed. */
  lemma NothingOutstandingAtReturn(s: Settings, trace: seq<Action>, code: int)
    requires Allowed(s, trace + [Return(code)])
    ensures Allowed(s, trace) && AllClosed(Run(s, trace).value)
    ensures Alternating(Operations(trace)) && !EndsPaused(Operations(trace)) && |Operations(trace)| % 2 == 0
  {
    hide Step, Consistent, DescriptorsMove, Alternating;
    BeforeReturn(s, trace, code);
    PauseAndResumeAlternate(s, trace);
    AlternationGoesOn(Operations(trace), Pause);
  }

  lemma BeforeReturn(s: Settings, trace: seq<Action>, code: int)
    requires Allowed(s, trace + [Return(code)])
    ensures Allowed(s, trace) && !Run(s, trace).value.paused && AllClosed(Run(s, trace).value)
  {
    hide Step, Consistent, DescriptorsMove;
    var m, a, n := LastMove(s, trace + [Return(code)]);
    assert (trace + [Return(code)])[..|trace|] == trace;
  }

  /** A run that is over leaves a pause outstanding if and only if the program has exited, because the command is gone, while it was paused. */
  lemma OnlyAnExitLeavesAPause(s: Settings, trace: seq<Action>)
    requires Allowed(s, trace) && Run(s, trace).value.stage.Over?
    ensures trace != [] && Allowed(s, trace[..|trace| - 1])
    ensures EndsPaused(Operations(trace)) <==> trace[|trace| - 1].Exit? && Run(s, trace[..|trace| - 1]).value.paused
  {
    hide Step, Consistent, DescriptorsMove, Operations;
    assert trace != [];
    var m, a, n := LastMove(s, trace);
    PauseAndResumeAlternate(s, trace);
    if a.Return? { NothingOutstandingAtReturn(s, trace[..|trace| - 1], a.code); }
    if a.Exit? { assert n.paused == m.paused; }
  }

  /** A run that is over because the command has finished ended with the exit. */
  lemma AnExitEndsTheRun(s: Settings, trace: seq<Action>, code: int)
    requires Allowed(s, trace) && Run(s, trace).value.stage.Over? && Run(s, trace).value.finished == Some(code)
    ensures trace != [] && trace[|trace| - 1] == Exit(code)
  {
    hide Step, DescriptorsMove;
    assert trace != [];
    var m, a, n := LastMove(s, trace);
  }

  lemma OnlyACheckFindsTheEnd(s: Settings, m: Watch, a: Action)
    requires Step(s, m, a).Some?
    ensures Step(s, m, a).value.finished == if a.Check? then FinishedCode(s, a.probe) else m.finished
  {
    hide PollSlots, BrokenIn, TodoAfter, AsksForCheck, PollCause, LastInterruption, FinishedCode, SleepFits, MaySleep, Permitted;
  }

  /** The code the program exits with is the answer of a check in the run. */
  lemma {:induction false} TheEndIsFoundByACheck(s: Settings, trace: seq<Action>, code: int)
    requires Allowed(s, trace) && Run(s, trace).value.finished == Some(code)
    ensures exists k :: 0 <= k < |trace| && trace[k].Check? && FinishedCode(s, trace[k].probe) == Some(code)
  {
    hide Step, FinishedCode;
    assert trace != [];
    var last := |trace| - 1;
    OnlyACheckFindsTheEnd(s, Run(s, trace[..last]).value, trace[last]);
    if !trace[last].Check? {
      TheEndIsFoundByACheck(s, trace[..last], code);
      var k :| 0 <= k < last && trace[..last][k].Check? && FinishedCode(s, trace[..last][k].probe) == Some(code);
      assert trace[k] == trace[..last][k];
    }
  }

  /** Handing over to the polling backend changes neither what is known nor whether the command is paused. */
  lemma HandoverKeepsState(s: Settings, trace: seq<Action>)
    requires Allowed(s, trace + [EnterX11])
    ensures Allowed(s, trace)
    ensures var m, n := Run(s, trace).value, Run(s, trace + [EnterX11]).value;
      && n.stage.X11? && n.paused == m.paused && n.monitoring == m.monitoring && n.interruption == m.interruption
      && (n.paused ==> n.monitoring) && AllClosed(n)
  {
    hide Step;
    assert (trace + [EnterX11])[..|trace|] == trace;
    var m, a, n := LastMove(s, trace + [EnterX11]);
  }

  // ---------- Interruptions ----------

  /** The last interrupting signal read in a run. */
  function LastRead(trace: seq<Action>): Option<Signal> {
    if trace == [] then None
    else
      var last := |trace| - 1;
      var before := LastRead(trace[..last]);
      if trace[last].Drain? then LastInterruption(before, trace[last].signals) else before
  }

  function Forwarded(trace: seq<Action>): seq<Signal> {
    if trace == [] then []
    else
      var last := |trace| - 1;
      Forwarded(trace[..last]) + if trace[last].Forward? then [trace[last].signal] else []
  }

  lemma {:induction false} InterruptionIsTheLastRead(s: Settings, trace: seq<Action>)
    requires Allowed(s, trace)
    ensures Run(s, trace).value.interruption == LastRead(trace)
  {
    hide Step, Consistent;
    if trace != [] {
      var m, a, n := LastMove(s, trace);
      InterruptionIsTheLastRead(s, trace[..|trace| - 1]);
    }
  }

  lemma {:induction false} ReadingKeepsInterruption(before: Option<Signal>, signals: seq<Signal>)
    ensures before.Some? ==> LastInterruption(before, signals).Some?
    ensures (exists x :: x in signals && x != SIGCHLD) ==> LastInterruption(before, signals).Some?
  {
    if signals != [] {
      ReadingKeepsInterruption(before, signals[..|signals| - 1]);
      assert signals == signals[..|signals| - 1] + [signals[|signals| - 1]];
    }
  }

  lemma {:induction false} InterruptionSticks(s: Settings, trace: seq<Action>, i: nat)
    requires Allowed(s, trace) && i < |trace|
    requires trace[i].Drain? && exists x :: x in trace[i].signals && x != SIGCHLD
    ensures LastRead(trace).Some?
    decreases |trace|
  {
    var last := |trace| - 1;
    if trace[last].Drain? {
      ReadingKeepsInterruption(LastRead(trace[..last]), trace[last].signals);
    }
    if i < last {
      PrefixesAreAllowed(s, trace, last);
      InterruptionSticks(s, trace[..last], i);
    }
  }

  /** Once an interrupting signal has been read, the program never polls or sleeps again: the next thing it takes up is the interruption. */
  lemma NoPollAfterAnInterruption(s: Settings, trace: seq<Action>, i: nat, j: nat)
    requires Allowed(s, trace) && i < j < |trace|
    requires trace[i].Drain? && exists x :: x in trace[i].signals && x != SIGCHLD
    ensures !trace[j].Poll? && !trace[j].Sleep?
  {
    hide Step, Consistent;
    PrefixesAreAllowed(s, trace, j + 1);
    PrefixesAreAllowed(s, trace, j);
    var m, a, n := LastMove(s, trace[..j + 1]);
    assert trace[..j + 1][..j] == trace[..j];
    InterruptionIsTheLastRead(s, trace[..j]);
    InterruptionSticks(s, trace[..j], i);
  }

  /** What has been forwarded at each stage of a run. */
  predicate ForwardedSoFar(s: Settings, m: Watch, forwarded: seq<Signal>) {
    if Active(m) || m.stage.MustForward? || (m.stage.Over? && m.finished.Some?) || s.externalPid then forwarded == []
    else m.interruption.Some? && forwarded == [m.interruption.value]
  }

  lemma {:induction false} ForwardedFollowsStage(s: Settings, trace: seq<Action>)
    requires Allowed(s, trace)
    ensures ForwardedSoFar(s, Run(s, trace).value, Forwarded(trace))
  {
    hide Step;
    if trace != [] {
      var m, a, n := LastMove(s, trace);
      ForwardedFollowsStage(s, trace[..|trace| - 1]);
    }
  }

  /** A run that returns has passed on exactly one signal, the last one read; nothing is sent to a process that is not our own. */
  lemma ExactlyOneSignalIsForwarded(s: Settings, trace: seq<Action>, code: int)
    requires Allowed(s, trace + [Return(code)])
    ensures LastRead(trace).Some?
    ensures Forwarded(trace) == if s.externalPid then [] else [LastRead(trace).value]
  {
    hide Step;
    var m, a, n := LastMove(s, trace + [Return(code)]);
    assert (trace + [Return(code)])[..|trace|] == trace;
    ForwardedFollowsStage(s, trace);
    InterruptionIsTheLastRead(s, trace);
  }

  // ---------- What follows an interruption ----------

  /** The operations on the tree and the signals sent since an interruption was taken up. */
  function Aftermath(trace: seq<Action>): seq<Action> {
    if trace == [] then []
    else
      var last := |trace| - 1;
      if trace[last].Handle? then []
      else Aftermath(trace[..last]) + if trace[last].Pause? || trace[last].Resume? || trace[last].Forward? then [trace[last]] else []
  }

  /** Whether the command was paused when the interruption was taken up. */
  ghost predicate PausedWhenHandled(s: Settings, trace: seq<Action>) {
    trace != [] &&
    var last := |trace| - 1;
    if trace[last].Handle? then Allowed(s, trace[..last]) && Run(s, trace[..last]).value.paused
    else PausedWhenHandled(s, trace[..last])
  }

  function SignalSent(s: Settings, signal: Signal): seq<Action> {
    if s.externalPid then [] else [Forward(signal)]
  }

  function ResumedIf(paused: bool): seq<Action> {
    if paused then [Resume] else []
  }

  predicate AftermathSoFar(s: Settings, m: Watch, done: seq<Action>, paused: bool) {
    match m.stage
    case MustForward(_) => done == [] && m.paused == paused
    case Released =>
      m.interruption.Some? && done == SignalSent(s, m.interruption.value) + ResumedIf(paused && !m.due.ResumeDue?)
      && (m.due.ResumeDue? ==> paused)
    case Waited(_) => m.interruption.Some? && done == SignalSent(s, m.interruption.value) + ResumedIf(paused)
    case _ => true
  }

  lemma AftermathStep(s: Settings, m: Watch, a: Action, done: seq<Action>, paused: bool)
    requires Consistent(s, m) && Step(s, m, a).Some? && AftermathSoFar(s, m, done, paused)
    ensures AftermathSoFar(s, Step(s, m, a).value,
      if a.Handle? then [] else done + if a.Pause? || a.Resume? || a.Forward? then [a] else [],
      if a.Handle? then m.paused else paused)
  {
    hide PollSlots, BrokenIn, TodoAfter, AsksForCheck, PollCause, FinishedCode, SleepFits;
    assert done + [] == done;
    if a.Resume? && m.interruption.Some? {
      var sent := SignalSent(s, m.interruption.value);
      assert sent + [] + [Resume] == sent + [Resume];
    } else if a.Forward? {
      assert [] + [a] + [] == [a];
    }
  }

  lemma {:induction false} AftermathFollowsStage(s: Settings, trace: seq<Action>)
    requires Allowed(s, trace)
    ensures AftermathSoFar(s, Run(s, trace).value, Aftermath(trace), PausedWhenHandled(s, trace))
  {
    hide Step, Consistent, Moves, AftermathSoFar;
    if trace != [] {
      var before := trace[..|trace| - 1];
      var m, a, n := LastMove(s, trace);
      AftermathFollowsStage(s, before);
      AftermathStep(s, m, a, Aftermath(before), PausedWhenHandled(s, before));
    } else {
      NothingHandledYet(s);
    }
  }

  lemma NothingHandledYet(s: Settings)
    ensures AftermathSoFar(s, INITIAL, [], false)
  {
  }

  /** In every run that returns, the signal goes to an own command first, and only then is a paused command resumed. */
  lemma TheSignalComesBeforeTheResume(s: Settings, trace: seq<Action>, code: int)
    requires Allowed(s, trace + [Return(code)])
    ensures LastRead(trace).Some?
    ensures Aftermath(trace) == SignalSent(s, LastRead(trace).value) + ResumedIf(PausedWhenHandled(s, trace))
  {
    hide Step, Moves, Consistent;
    assert (trace + [Return(code)])[..|trace|] == trace;
    var m, a, n := LastMove(s, trace + [Return(code)]);
    ExactlyOneSignalIsForwarded(s, trace, code);
    AftermathFollowsStage(s, trace);
    InterruptionIsTheLastRead(s, trace);
    ReturningState(s, m, code);
  }

  lemma ReturningState(s: Settings, m: Watch, code: int)
    requires Step(s, m, Return(code)).Some?
    ensures m.due.Nothing? && (m.stage == Waited(code) || m.stage.Released?)
  {
  }

  /** The documented order, first the resume and then the signal, is kept if and only if one of the two is not needed. */
  lemma DocumentedOrderNeedsOnlyOne(s: Settings, trace: seq<Action>, code: int)
    requires Allowed(s, trace + [Return(code)])
    ensures LastRead(trace).Some?
    ensures Aftermath(trace) == ResumedIf(PausedWhenHandled(s, trace)) + SignalSent(s, LastRead(trace).value)
            <==> s.externalPid || !PausedWhenHandled(s, trace)
  {
    hide Allowed, Aftermath, PausedWhenHandled, LastRead;
    TheSignalComesBeforeTheResume(s, trace, code);
    var signal := LastRead(trace).value;
    assert ([Forward(signal)] + [Resume])[0] == Forward(signal);
    assert ([Resume] + [Forward(signal)])[0] == Resume;
  }

  // ---------- Child signals ----------

  lemma {:induction false} ChildSignalWaitsForACheck(s: Settings, trace: seq<Action>, i: nat)
    requires Allowed(s, trace) && i < |trace|
    requires trace[i].Drain? && SIGCHLD in trace[i].signals
    requires forall k :: i < k < |trace| ==> !trace[k].Check? && !trace[k].Exit?
    ensures Run(s, trace).value.childSignal
    decreases |trace|
  {
    hide Step, Consistent;
    var m, a, n := LastMove(s, trace);
    if i < |trace| - 1 {
      ChildSignalWaitsForACheck(s, trace[..|trace| - 1], i);
    }
  }

  /** Between reading SIGCHLD and the next poll or sleep the program checks whether the command has finished. */
  lemma ChildSignalIsCheckedBeforePolling(s: Settings, trace: seq<Action>, i: nat, j: nat)
    requires Allowed(s, trace) && i < j < |trace|
    requires trace[i].Drain? && SIGCHLD in trace[i].signals
    requires trace[j].Poll? || trace[j].Sleep?
    ensures exists k :: i < k < j && (trace[k].Check? || trace[k].Exit?)
  {
    hide Step, Consistent;
    PrefixesAreAllowed(s, trace, j + 1);
    PrefixesAreAllowed(s, trace, j);
    var m, a, n := LastMove(s, trace[..j + 1]);
    assert trace[..j + 1][..j] == trace[..j];
    if forall k :: i < k < j ==> !trace[k].Check? && !trace[k].Exit? {
      ChildSignalWaitsForACheck(s, trace[..j], i);
    }
  }

  // ---------- Descriptors ----------

  function Opened(trace: seq<Action>, d: Descriptor): seq<int> {
    if trace == [] then []
    else
      var last := |trace| - 1;
      Opened(trace[..last], d) + if trace[last].Open? && trace[last].descriptor == d then [trace[last].fd] else []
  }

  function Closed(trace: seq<Action>, d: Descriptor): seq<int> {
    if trace == [] then []
    else
      var last := |trace| - 1;
      Closed(trace[..last], d) + if trace[last].Close? && trace[last].descriptor == d then [trace[last].fd] else []
  }

  /** What has been opened has been closed, once and in order, except for the descriptor that is open now. */
  lemma {:induction false} OpenedAndClosedMatch(s: Settings, trace: seq<Action>, d: Descriptor)
    requires Allowed(s, trace)
    ensures var fd := DescriptorOf(Run(s, trace).value.fds, d);
      Opened(trace, d) == Closed(trace, d) + if fd >= 0 then [fd] else []
  {
    hide Step;
    if trace != [] {
      var m, a, n := LastDescriptorMove(s, trace);
      OpenedAndClosedMatch(s, trace[..|trace| - 1], d);
    }
  }

  lemma LastDescriptorMove(s: Settings, trace: seq<Action>) returns (m: Watch, a: Action, n: Watch)
    requires Allowed(s, trace) && trace != []
    ensures a == trace[|trace| - 1] && Run(s, trace[..|trace| - 1]) == Some(m) && Run(s, trace) == Some(n)
    ensures DescriptorsMove(m, a, n) && forall d :: -1 <= DescriptorOf(m.fds, d)
  {
    hide Step;
    m, a, n := LastMove(s, trace);
  }

  /** On every way out of the Wayland loop each descriptor opened has been closed exactly once. */
  lemma EveryDescriptorIsClosedOnce(s: Settings, trace: seq<Action>, a: Action, d: Descriptor)
    requires Allowed(s, trace + [a]) && (a.Return? || a.Lost? || a.EnterX11?)
    ensures Opened(trace, d) == Closed(trace, d)
  {
    hide Step, Consistent;
    var m, a', n := LastMove(s, trace + [a]);
    assert (trace + [a])[..|trace|] == trace;
    OpenedAndClosedMatch(s, trace, d);
  }

  // ---------- The compositor ----------

  /**
    Whether the user is idle according to the events delivered since the
    notification object was created; None once the compositor has broken the
    rule that idled and resumed alternate, starting with idled.
   */
  function IdleByEvents(trace: seq<Action>): Option<bool> {
    if trace == [] then Some(false)
    else
      var last := |trace| - 1;
      var before := IdleByEvents(trace[..last]);
      match trace[last]
      case Notify(_) => Some(false)
      case Event(Idled) => if before == Some(false) then Some(true) else None
      case Event(Resumed) => if before == Some(true) then Some(false) else None
      case _ => before
  }

  predicate Follows(m: Watch, idle: bool) {
    m.loop.notified && m.stage.Wayland? ==>
      && (m.due.PauseDue? ==> !idle)
      && (m.due.ResumeDue? ==> idle)
      && (m.due.Nothing? || m.due.DrainDue? ==> m.paused == !idle)
  }

  lemma FollowingStep(s: Settings, m: Watch, a: Action, before: bool, after: bool)
    requires Consistent(s, m) && Step(s, m, a).Some? && Follows(m, before)
    requires match a
      case Notify(_) => !after
      case Event(Idled) => !before && after
      case Event(Resumed) => before && !after
      case _ => after == before
    ensures Follows(Step(s, m, a).value, after)
    ensures a.Event? && m.loop.notified ==> (Step(s, m, a).value.due == if after then ResumeDue else PauseDue)
  {
    if IsCommand(a) {
    } else if IsInterruption(a) || IsDescriptor(a) {
    } else if a.Start? || IsBackend(a) || IsPolling(a) {
    } else {
    }
  }

  /**
    With a compositor that keeps the rule, the command is paused exactly while
    the user is not idle, from the creation of the notification object to the
    end of the Wayland loop.
   */
  lemma {:induction false} PausedWhileNotIdle(s: Settings, trace: seq<Action>)
    requires Allowed(s, trace) && IdleByEvents(trace).Some?
    ensures Follows(Run(s, trace).value, IdleByEvents(trace).value)
  {
    hide Step, Consistent, Moves;
    if trace != [] {
      var m, a, n := LastMove(s, trace);
      var before := trace[..|trace| - 1];
      if IdleByEvents(before).Some? {
        PausedWhileNotIdle(s, before);
        FollowingStep(s, m, a, IdleByEvents(before).value, IdleByEvents(trace).value);
      } else {
        NotifyFollows(s, m, a);
      }
    }
  }

  lemma NotifyFollows(s: Settings, m: Watch, a: Action)
    requires Consistent(s, m) && Step(s, m, a).Some? && a.Notify?
    ensures Follows(Step(s, m, a).value, false)
  {
  }

  /** Then neither callback ever finds nothing to do: idled is followed by a resume, resumed by a pause. */
  lemma EveryEventActs(s: Settings, trace: seq<Action>, e: IdleEvent)
    requires Allowed(s, trace + [Event(e)]) && IdleByEvents(trace + [Event(e)]).Some?
    requires Run(s, trace).value.loop.notified
    ensures Run(s, trace + [Event(e)]).value.due == if e == Idled then ResumeDue else PauseDue
  {
    hide Step, Consistent, Moves;
    var m, a, n := LastMove(s, trace + [Event(e)]);
    assert (trace + [Event(e)])[..|trace|] == trace;
    PausedWhileNotIdle(s, trace);
    FollowingStep(s, m, a, IdleByEvents(trace).value, e == Idled);
  }

  // ---------- The start timer ----------

  predicate ReportsTimer(a: Action) {
    a.Poll? && a.result.Polled? && a.result.ready.startIn
  }

  ghost predicate TimerBehind(s: Settings, m: Watch, a: Action) {
    Enabled(s, m, a) && Effect(s, m, a).stage.Wayland? ==>
      var n := Effect(s, m, a);
      && m.stage.Wayland?
      && (n.loop.todo.start ==> m.loop.todo.start || ReportsTimer(a))
      && (n.monitoring ==> m.monitoring || m.loop.todo.start)
  }

  lemma TimerBehindCommands(s: Settings, m: Watch, a: Action)
    requires IsCommand(a) || IsInterruption(a) || a.Exit?
    ensures TimerBehind(s, m, a)
  {
    hide AfterPoll, PollSlots, BrokenIn, Dispatched, FlushedWith, Delivered, Consumed, Notified, Told, LastInterruption, FinishedCode;
  }

  lemma TimerBehindBackends(s: Settings, m: Watch, a: Action)
    requires IsDescriptor(a) || IsBackend(a) || IsPolling(a)
    ensures TimerBehind(s, m, a)
  {
    hide AfterPoll, PollSlots, BrokenIn, Dispatched, FlushedWith, Delivered, Consumed, Notified, Told, Drained, Checked, TakenUp, PassedOn, Permitted;
  }

  lemma TimerBehindStart(s: Settings, m: Watch, a: Action)
    requires a.Start?
    ensures TimerBehind(s, m, a)
  {
    hide AfterPoll, PollSlots, BrokenIn, Dispatched, FlushedWith, Delivered, Consumed, Notified, Told, Drained, Checked, TakenUp, PassedOn;
  }

  lemma TimerBehindLoop(s: Settings, m: Watch, a: Action)
    requires !IsCommand(a) && !IsInterruption(a) && !IsDescriptor(a) && !a.Start? && !IsBackend(a) && !IsPolling(a) && !a.Exit?
    ensures TimerBehind(s, m, a)
  {
    hide BrokenIn;
  }

  lemma TimerStep(s: Settings, m: Watch, a: Action)
    ensures TimerBehind(s, m, a)
  {
    hide TimerBehind;
    if IsCommand(a) || IsInterruption(a) || a.Exit? {
      TimerBehindCommands(s, m, a);
    } else if IsDescriptor(a) || IsBackend(a) || IsPolling(a) {
      TimerBehindBackends(s, m, a);
    } else if a.Start? {
      TimerBehindStart(s, m, a);
    } else {
      TimerBehindLoop(s, m, a);
    }
  }

  /** The Wayland loop monitors, and so pauses anything, only after its start timer has fired; a delay of 0 never arms that timer. */
  lemma {:induction false} MonitoringNeedsTheTimer(s: Settings, trace: seq<Action>)
    requires Allowed(s, trace) && Run(s, trace).value.stage.Wayland?
    requires Run(s, trace).value.monitoring || Run(s, trace).value.loop.todo.start
    ensures exists k :: 0 <= k < |trace| && ReportsTimer(trace[k])
  {
    hide Enabled, Effect;
    var last := |trace| - 1;
    var m := Run(s, trace[..last]).value;
    TimerStep(s, m, trace[last]);
    if m.monitoring || m.loop.todo.start {
      MonitoringNeedsTheTimer(s, trace[..last]);
      var k :| 0 <= k < last && ReportsTimer(trace[..last][k]);
      assert ReportsTimer(trace[k]);
    }
  }

  // ---------- The polling backend ----------

  /** The idle time observed last. */
  function LastIdle(trace: seq<Action>): Option<nat> {
    if trace == [] then None
    else
      var last := |trace| - 1;
      if trace[last].Observe? then Some(trace[last].idleMs) else LastIdle(trace[..last])
  }

  predicate Obeys(s: Settings, m: Watch, idle: Option<nat>) {
    m.stage.X11? && m.looked && m.monitoring ==>
      && idle.Some?
      && (m.due.PauseDue? ==> idle.value < s.userIdleTimeoutMs)
      && (m.due.ResumeDue? ==> idle.value >= s.userIdleTimeoutMs)
      && (m.due.Nothing? ==> (m.paused <==> idle.value < s.userIdleTimeoutMs))
      && (m.due.Nothing? || m.due.PauseDue? || m.due.ResumeDue?)
  }

  ghost predicate KeepsObeying(s: Settings, m: Watch, a: Action, idle: Option<nat>) {
    Consistent(s, m) && Step(s, m, a).Some? && Obeys(s, m, idle) ==>
      Obeys(s, Step(s, m, a).value, if a.Observe? then Some(a.idleMs) else idle)
  }

  lemma CommandsObey(s: Settings, m: Watch, a: Action, idle: Option<nat>)
    requires IsCommand(a) || a.Exit?
    ensures KeepsObeying(s, m, a, idle)
  {
  }

  lemma PollingObeys(s: Settings, m: Watch, a: Action, idle: Option<nat>)
    requires IsPolling(a) || a.Start?
    ensures KeepsObeying(s, m, a, idle)
  {
  }

  lemma InterruptionObeys(s: Settings, m: Watch, a: Action, idle: Option<nat>)
    requires IsInterruption(a)
    ensures KeepsObeying(s, m, a, idle)
  {
  }

  lemma DescriptorsObey(s: Settings, m: Watch, a: Action, idle: Option<nat>)
    requires IsDescriptor(a)
    ensures KeepsObeying(s, m, a, idle)
  {
  }

  lemma BackendObeys(s: Settings, m: Watch, a: Action, idle: Option<nat>)
    requires IsBackend(a)
    ensures KeepsObeying(s, m, a, idle)
  {
  }

  lemma WaylandObeys(s: Settings, m: Watch, a: Action, idle: Option<nat>)
    requires !IsCommand(a) && !IsInterruption(a) && !IsDescriptor(a) && !a.Start? && !IsBackend(a) && !IsPolling(a) && !a.Exit?
    ensures KeepsObeying(s, m, a, idle)
  {
  }

  lemma ObeyingStep(s: Settings, m: Watch, a: Action, idle: Option<nat>)
    ensures KeepsObeying(s, m, a, idle)
  {
    hide KeepsObeying;
    if IsCommand(a) || a.Exit? {
      CommandsObey(s, m, a, idle);
    } else if IsPolling(a) || a.Start? {
      PollingObeys(s, m, a, idle);
    } else if IsInterruption(a) {
      InterruptionObeys(s, m, a, idle);
    } else if IsDescriptor(a) {
      DescriptorsObey(s, m, a, idle);
    } else if IsBackend(a) {
      BackendObeys(s, m, a, idle);
    } else {
      WaylandObeys(s, m, a, idle);
    }
  }

  lemma {:induction false} RunsObey(s: Settings, trace: seq<Action>)
    requires Allowed(s, trace)
    ensures Obeys(s, Run(s, trace).value, LastIdle(trace))
  {
    hide Step, Consistent, Moves;
    if trace != [] {
      var m, a, n := LastMove(s, trace);
      RunsObey(s, trace[..|trace| - 1]);
      ObeyingStep(s, m, a, LastIdle(trace[..|trace| - 1]));
    }
  }

  /** Once monitoring has started, the polling backend goes to sleep only with the command paused exactly if the idle time was below the timeout. */
  lemma SleepsOnlyAfterActing(s: Settings, trace: seq<Action>, ms: int, readable: bool)
    requires Allowed(s, trace + [Sleep(ms, readable)])
    ensures Allowed(s, trace)
    ensures var m := Run(s, trace).value;
      m.stage.X11? && m.monitoring ==>
        LastIdle(trace).Some? && (m.paused <==> LastIdle(trace).value < s.userIdleTimeoutMs)
  {
    hide Step;
    RunStep(s, trace, Sleep(ms, readable));
    RunsObey(s, trace);
    SleepingState(s, Run(s, trace).value, ms, readable);
  }

  /** Every sleep of every allowed run has a length that fits the state it happens in. */
  lemma EverySleepFits(s: Settings, trace: seq<Action>, i: nat)
    requires Allowed(s, trace) && i < |trace| && trace[i].Sleep?
    ensures Allowed(s, trace[..i])
    ensures 0 < trace[i].ms <= INT_MAX && SleepFits(s, Run(s, trace[..i]).value, trace[i].ms)
  {
    hide Run, Effect, SleepFits, MaySleep;
    PrefixesAreAllowed(s, trace, i + 1);
    PrefixesAreAllowed(s, trace, i);
    assert trace[..i + 1] == trace[..i] + [trace[i]];
    RunStep(s, trace[..i], trace[i]);
  }

  lemma SleepingState(s: Settings, m: Watch, ms: int, readable: bool)
    requires Step(s, m, Sleep(ms, readable)).Some?
    ensures m.due.Nothing? && (m.stage.X11? ==> m.looked)
  {
  }
}
