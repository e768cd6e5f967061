/** Concrete runs of the polling backend that do what the documentation does not expect. */
module WitnessRuns {
  import opened CNumbers
  import opened Settings
  import opened TimeUtils
  import opened SupervisorTrace
  import opened Script
  import IdlePolling

  const RUNNING: Probe := Probe(false, NoChange)
  const GONE: Probe := Probe(true, NoSuchChild)
  const SESSION: IdlePolling.Session := IdlePolling.Session(true, Timespec(0, 0))

  function Wanted(externalPid: bool): Settings {
    Settings(externalPid, 300000, 300)
  }

  /** One second into the run, the user active just now. */
  const ACTIVE: IdlePolling.Reading := IdlePolling.Reading(Timespec(1, 0), 0, Timespec(1, 0), Timespec(1, 0))

  /** The command is found running and the user active; signals may then end the sleep. */
  function PausingPass(signals: seq<Signal>): X11Pass {
    X11Pass(0, RUNNING, ACTIVE, RUNNING, signals != [], signals)
  }

  /** The command is found gone. */
  const LAST_PASS: X11Pass := X11Pass(0, GONE, ACTIVE, GONE, false, [])

  /** The state of a run and of its script. */
  ghost predicate Reaches(s: Settings, trace: seq<Action>, m: Watch, c: Cursor) {
    Run(s, trace) == Some(m) && Replay(trace) == Some(c)
  }

  lemma GoOn(s: Settings, trace: seq<Action>, m: Watch, c: Cursor, a: Action)
    requires Reaches(s, trace, m, c) && Enabled(s, m, a) && Uses(c, a)
    ensures Reaches(s, trace + [a], Effect(s, m, a), Advance(c, a))
  {
    hide Enabled, Effect, Uses, Advance, Run, Replay;
    RunStep(s, trace, a);
    OneMore(s, trace, a);
  }

  function Entered(): Watch {
    Leave(WithCause(INITIAL, HandOver), X11)
  }

  lemma AtTheBeginning(s: Settings)
    ensures Reaches(s, [], INITIAL, BEGINNING)
  {
  }

  lemma EnteringX11(s: Settings)
    ensures Reaches(s, [Unavailable, EnterX11], Entered(), BEGINNING)
  {
    AtTheBeginning(s);
    hide Reaches;
    GoOn(s, [], INITIAL, BEGINNING, Unavailable);
    assert [] + [Unavailable] == [Unavailable];
    GoOn(s, [Unavailable], WithCause(INITIAL, HandOver), BEGINNING, EnterX11);
    assert [Unavailable] + [EnterX11] == [Unavailable, EnterX11];
  }

  /** Monitoring, and neither paused nor asked to pause yet. */
  function Monitoring(): Watch {
    Entered().(monitoring := true)
  }

  /** Monitoring and paused, after a sleep. */
  function Paused(readable: bool): Watch {
    Monitoring().(paused := true, due := if readable then DrainDue else Nothing)
  }

  lemma MonitoringStarts(s: Settings, t: seq<Action>, turn: Turn)
    requires Reaches(s, t, Entered(), BEGINNING) && s.startMonitorAfterMs == 300
    requires turn.X11Turn? && turn.session == SESSION && turn.x11.reading == ACTIVE
    ensures Reaches(s, t + [Begin(turn)] + [Clock(1000)] + [Start], Monitoring(), Cursor(turn, Queued, 0))
  {
    hide Reaches;
    GoOn(s, t, Entered(), BEGINNING, Begin(turn));
    GoOn(s, t + [Begin(turn)], Entered(), Cursor(turn, Fresh, 0), Clock(1000));
    GoOn(s, t + [Begin(turn)] + [Clock(1000)], Clocked(Entered(), true), Cursor(turn, Queued, 0), Start);
  }

  /** The user is seen active and the command found running. */
  function Looked(): Watch {
    Monitoring().(looked := true, mustCheck := false, due := PauseDue)
  }

  lemma UserIsSeen(s: Settings, t: seq<Action>, turn: Turn)
    requires Reaches(s, t, Monitoring(), Cursor(turn, Queued, 0)) && s.userIdleTimeoutMs == 300000
    requires turn.X11Turn? && turn.session == SESSION && turn.x11.reading == ACTIVE && turn.x11.probe == RUNNING
    ensures Reaches(s, t + [Observe(0)] + [Check(RUNNING)], Looked(), Cursor(turn, Requested, 0))
  {
    hide Reaches;
    GoOn(s, t, Monitoring(), Cursor(turn, Queued, 0), Observe(0));
    GoOn(s, t + [Observe(0)], Observed(s, Monitoring(), 0), Cursor(turn, Queued, 0), Check(RUNNING));
  }

  lemma CommandIsPaused(s: Settings, t: seq<Action>, turn: Turn)
    requires Reaches(s, t, Looked(), Cursor(turn, Requested, 0)) && s.userIdleTimeoutMs == 300000 && turn.X11Turn?
    ensures Reaches(s, t + [Pause] + [Sleep(300000, turn.x11.readable)], Paused(turn.x11.readable), Cursor(turn, Answered, 0))
  {
    hide Reaches;
    var a := Sleep(300000, turn.x11.readable);
    GoOn(s, t, Looked(), Cursor(turn, Requested, 0), Pause);
    GoOn(s, t + [Pause], WithPaused(Looked(), true), Cursor(turn, Requested, 0), a);
  }

  function PauseByActivity(signals: seq<Signal>): seq<Action> {
    [Unavailable, EnterX11] + [Begin(X11Turn(SESSION, PausingPass(signals)))] + [Clock(1000)] + [Start]
    + [Observe(0)] + [Check(RUNNING)] + [Pause] + [Sleep(300000, signals != [])]
  }

  lemma PausingByActivity(externalPid: bool, signals: seq<Signal>)
    ensures Reaches(Wanted(externalPid), PauseByActivity(signals), Paused(signals != []),
                    Cursor(X11Turn(SESSION, PausingPass(signals)), Answered, 0))
  {
    hide Reaches, Entered, Monitoring, Looked, Paused;
    var s, turn := Wanted(externalPid), X11Turn(SESSION, PausingPass(signals));
    EnteringX11(s);
    var t := [Unavailable, EnterX11];
    MonitoringStarts(s, t, turn);
    t := t + [Begin(turn)] + [Clock(1000)] + [Start];
    UserIsSeen(s, t, turn);
    CommandIsPaused(s, t + [Observe(0)] + [Check(RUNNING)], turn);
  }

  // ---------- An exit that leaves the tree stopped ----------

  function GoneWhilePaused(): seq<Action> {
    PauseByActivity([]) + [Begin(X11Turn(SESSION, LAST_PASS))] + [Observe(0)] + [Check(GONE)]
  }

  lemma CommandIsFoundGone(s: Settings, t: seq<Action>, c: Cursor)
    requires Reaches(s, t, Paused(false), c) && PassOver(c) && s == Wanted(true)
    ensures var turn := X11Turn(SESSION, LAST_PASS);
      Reaches(s, t + [Begin(turn)] + [Observe(0)] + [Check(GONE)], Paused(false).(looked := true, mustCheck := false, finished := Some(0)),
              Cursor(turn, Requested, 0))
  {
    hide Reaches;
    var turn := X11Turn(SESSION, LAST_PASS);
    GoOn(s, t, Paused(false), c, Begin(turn));
    GoOn(s, t + [Begin(turn)], Paused(false), Cursor(turn, Fresh, 0), Observe(0));
    GoOn(s, t + [Begin(turn)] + [Observe(0)], Observed(s, Paused(false), 0), Cursor(turn, Queued, 0), Check(GONE));
  }

  /** An external process that is killed while the user is active: the program exits with the pause outstanding. */
  lemma AnExitMayLeaveAPause()
    ensures var s, trace := Wanted(true), GoneWhilePaused() + [Exit(0)];
      Allowed(s, trace) && Replay(trace).Some? && Run(s, trace).value.stage.Over? && EndsPaused(Operations(trace))
  {
    var s, t := Wanted(true), GoneWhilePaused();
    var m := Paused(false).(looked := true, mustCheck := false, finished := Some(0));
    PausingByActivity(true, []);
    hide PauseByActivity, Operations, Run, Replay, EndsPaused;
    CommandIsFoundGone(s, PauseByActivity([]), Cursor(X11Turn(SESSION, PausingPass([])), Answered, 0));
    GoOn(s, t, m, Cursor(X11Turn(SESSION, LAST_PASS), Requested, 0), Exit(0));
    assert (t + [Exit(0)])[..|t|] == t;
    OnlyAnExitLeavesAPause(s, t + [Exit(0)]);
  }

  // ---------- A signal sent to a stopped command ----------

  function InterruptedWhilePaused(): seq<Action> {
    PauseByActivity([SIGINT]) + [Drain([SIGINT])] + [Begin(X11Turn(SESSION, LAST_PASS))]
  }

  function Interrupted(): Watch {
    Paused(false).(interruption := Some(SIGINT))
  }

  lemma OneInterruption()
    ensures LastInterruption(None, [SIGINT]) == Some(SIGINT)
  {
  }

  lemma InterruptionIsRead(s: Settings, t: seq<Action>)
    requires Reaches(s, t, Paused(true), Cursor(X11Turn(SESSION, PausingPass([SIGINT])), Answered, 0))
    ensures var turn := X11Turn(SESSION, LAST_PASS);
      Reaches(s, t + [Drain([SIGINT])] + [Begin(turn)], Interrupted(), Cursor(turn, Fresh, 0))
  {
    OneInterruption();
    hide Reaches, LastInterruption;
    var turn, c := X11Turn(SESSION, LAST_PASS), Cursor(X11Turn(SESSION, PausingPass([SIGINT])), Answered, 0);
    GoOn(s, t, Paused(true), c, Drain([SIGINT]));
    GoOn(s, t + [Drain([SIGINT])], Interrupted(), c, Begin(turn));
  }

  lemma InterruptionIsHandled(s: Settings, t: seq<Action>)
    requires Reaches(s, t, Interrupted(), Cursor(X11Turn(SESSION, LAST_PASS), Fresh, 0)) && !s.externalPid
    ensures Reaches(s, t + [Handle(SIGINT)] + [Forward(SIGINT)] + [Resume],
                    Interrupted().(stage := Released, paused := false), Cursor(X11Turn(SESSION, LAST_PASS), Fresh, 0))
  {
    hide Reaches;
    var c := Cursor(X11Turn(SESSION, LAST_PASS), Fresh, 0);
    GoOn(s, t, Interrupted(), c, Handle(SIGINT));
    var m := TakenUp(s, Interrupted(), SIGINT);
    GoOn(s, t + [Handle(SIGINT)], m, c, Forward(SIGINT));
    GoOn(s, t + [Handle(SIGINT)] + [Forward(SIGINT)], PassedOn(m), c, Resume);
  }

  lemma CommandIsAwaited(s: Settings, t: seq<Action>)
    requires var m := Interrupted().(stage := Released, paused := false);
      Reaches(s, t, m, Cursor(X11Turn(SESSION, LAST_PASS), Fresh, 0)) && !s.externalPid
    ensures Allowed(s, t + [Wait(0)] + [Return(0)]) && Replay(t + [Wait(0)] + [Return(0)]).Some?
  {
    hide Run, Replay;
    var m, c := Interrupted().(stage := Released, paused := false), Cursor(X11Turn(SESSION, LAST_PASS), Fresh, 0);
    GoOn(s, t, m, c, Wait(0));
    GoOn(s, t + [Wait(0)], WithStage(m, Waited(0)), c, Return(0));
  }

  /** An own command interrupted while it is paused: it gets the signal first and is resumed afterwards. */
  lemma AStoppedCommandMayGetTheSignalFirst()
    ensures var s, trace := Wanted(false), InterruptedWhilePaused() + [Handle(SIGINT)] + [Forward(SIGINT)] + [Resume] + [Wait(0)];
      && Allowed(s, trace + [Return(0)]) && Replay(trace + [Return(0)]).Some?
      && PausedWhenHandled(s, trace) && Aftermath(trace) == [Forward(SIGINT), Resume]
  {
    var s, t := Wanted(false), InterruptedWhilePaused();
    PausingByActivity(false, [SIGINT]);
    hide PauseByActivity, Run, Replay, Aftermath, PausedWhenHandled;
    InterruptionIsRead(s, PauseByActivity([SIGINT]));
    InterruptionIsHandled(s, t);
    CommandIsAwaited(s, t + [Handle(SIGINT)] + [Forward(SIGINT)] + [Resume]);
    Since(s, t, Handle(SIGINT));
    Since(s, t + [Handle(SIGINT)], Forward(SIGINT));
    Since(s, t + [Handle(SIGINT)] + [Forward(SIGINT)], Resume);
    Since(s, t + [Handle(SIGINT)] + [Forward(SIGINT)] + [Resume], Wait(0));
  }

  lemma Since(s: Settings, t: seq<Action>, a: Action)
    ensures Aftermath(t + [a]) ==
      if a.Handle? then [] else Aftermath(t) + if a.Pause? || a.Resume? || a.Forward? then [a] else []
    ensures PausedWhenHandled(s, t + [a]) <==>
      if a.Handle? then Allowed(s, t) && Run(s, t).value.paused else PausedWhenHandled(s, t)
  {
    hide Run;
    assert (t + [a])[..|t|] == t;
  }
}
