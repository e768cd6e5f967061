/** The X11 polling loop: what one pass decides, how long it sleeps, and what that means in real time. */
module IdlePolling {
  import opened CNumbers
  import opened Settings
  import opened TimeUtils

  const POLLING_INTERVAL_MS := 1000
  const POLLING_INTERVAL_BEFORE_STARTING_MONITORING_MS := 100
  const IDLE_TIME_NOT_AVAILABLE_VALUE: nat := ULONG_MAX

  /** The part of the supervisor's state the decision reads and writes. */
  datatype Loop = Loop(monitoring: bool, paused: bool, sleepMs: int)

  /** What the surroundings report during one pass; the pause clocks are read only if the pass pauses. */
  datatype Reading = Reading(now: Timespec, idleMs: nat, pauseBegin: Timespec, pauseEnd: Timespec) {
    predicate Sane() {
      pauseBegin.Normalised() && pauseEnd.Normalised() && pauseBegin.Ns() <= pauseEnd.Ns()
    }
  }

  /** Whether the screen saver extension answers, and when the loop was entered. */
  datatype Session = Session(idleTimeAvailable: bool, began: Timespec)

  function QueryUserIdleTime(session: Session, r: Reading): nat {
    if session.idleTimeAvailable then r.idleMs else IDLE_TIME_NOT_AVAILABLE_VALUE
  }

  /** The decision for one observed idle time. */
  function Decide(timeoutMs: nat, l: Loop, idleMs: nat, pausingMs: int): Loop {
    if idleMs >= timeoutMs then
      l.(paused := false, sleepMs := if l.paused then POLLING_INTERVAL_MS else l.sleepMs)
    else
      var target := timeoutMs - idleMs - if l.paused then 0 else pausingMs;
      l.(paused := true, sleepMs := if target < POLLING_INTERVAL_MS then POLLING_INTERVAL_MS else target)
  }

  function Started(s: Settings, session: Session, l: Loop, r: Reading): Loop {
    l.(monitoring := l.monitoring || GetElapsedTimeMs(session.began, r.now) >= s.startMonitorAfterMs)
  }

  /** One pass of the loop that is neither interrupted nor the last. */
  function Pass(s: Settings, session: Session, l: Loop, r: Reading): Loop {
    var m := Started(s, session, l, r);
    if m.monitoring then
      Decide(s.userIdleTimeoutMs, m, QueryUserIdleTime(session, r), GetElapsedTimeMs(r.pauseBegin, r.pauseEnd))
    else m
  }

  function After(s: Settings, session: Session, l: Loop, readings: seq<Reading>): Loop {
    if readings == [] then l
    else
      var last := |readings| - 1;
      Pass(s, session, After(s, session, l, readings[..last]), readings[last])
  }

  /** The argument of poll. */
  function PollMs(sleepMs: int): int {
    if sleepMs > INT_MAX then INT_MAX else sleepMs
  }

  /** The arguments of poll over a whole run. */
  function Polls(s: Settings, session: Session, l: Loop, readings: seq<Reading>): (p: seq<int>)
    ensures |p| == |readings|
  {
    if readings == [] then []
    else
      Polls(s, session, l, readings[..|readings| - 1]) + [PollMs(After(s, session, l, readings).sleepMs)]
  }

  lemma NoPassYet(s: Settings, session: Session, l: Loop)
    ensures After(s, session, l, []) == l && Polls(s, session, l, []) == []
  {
  }

  lemma AfterOneMore(s: Settings, session: Session, l: Loop, readings: seq<Reading>, i: nat)
    requires i < |readings|
    ensures After(s, session, l, readings[..i + 1]) == Pass(s, session, After(s, session, l, readings[..i]), readings[i])
    ensures Polls(s, session, l, readings[..i + 1])
      == Polls(s, session, l, readings[..i]) + [PollMs(After(s, session, l, readings[..i + 1]).sleepMs)]
  {
    assert readings[..i + 1][..i] == readings[..i];
  }

  // ---------- The sleep time ----------

  /** The state the loop is entered with, on its own or by handover from the Wayland backend. */
  predicate Entering(l: Loop) {
    l.sleepMs == POLLING_INTERVAL_BEFORE_STARTING_MONITORING_MS && (l.paused ==> l.monitoring)
  }

  /** At every sleep: 100 or 1000 ms while the command runs, 1000 ms up to the timeout while it is paused. */
  predicate SleepInRange(s: Settings, l: Loop) {
    && (l.paused ==> l.monitoring && POLLING_INTERVAL_MS <= l.sleepMs <= s.userIdleTimeoutMs)
    && (!l.paused ==> l.sleepMs == POLLING_INTERVAL_BEFORE_STARTING_MONITORING_MS
                      || (l.monitoring && l.sleepMs == POLLING_INTERVAL_MS))
  }

  lemma PassSleepsInRange(s: Settings, session: Session, l: Loop, r: Reading)
    requires s.Accepted() && r.Sane() && (Entering(l) || SleepInRange(s, l))
    ensures SleepInRange(s, Pass(s, session, l, r))
    ensures 0 < PollMs(Pass(s, session, l, r).sleepMs) <= INT_MAX
  {
    ElapsedIsWithinAMillisecond(r.pauseBegin, r.pauseEnd);
  }

  /** Over every run the sleep stays in range, and poll is never asked to wait forever or not at all. */
  lemma {:induction false} RunsSleepInRange(s: Settings, session: Session, l: Loop, readings: seq<Reading>)
    requires s.Accepted() && Entering(l) && readings != []
    requires forall r | r in readings :: r.Sane()
    ensures SleepInRange(s, After(s, session, l, readings))
    ensures 0 < PollMs(After(s, session, l, readings).sleepMs) <= INT_MAX
  {
    var last := |readings| - 1;
    if last > 0 {
      RunsSleepInRange(s, session, l, readings[..last]);
    }
    PassSleepsInRange(s, session, After(s, session, l, readings[..last]), readings[last]);
  }

  /** The loop has found the command paused neither on entry nor after any pass. */
  ghost predicate NeverPaused(s: Settings, session: Session, l: Loop, readings: seq<Reading>) {
    forall k: nat | k <= |readings| :: !After(s, session, l, readings[..k]).paused
  }

  lemma OnePassMore(s: Settings, session: Session, l: Loop, readings: seq<Reading>)
    requires readings != []
    ensures NeverPaused(s, session, l, readings) <==>
      NeverPaused(s, session, l, readings[..|readings| - 1]) && !After(s, session, l, readings).paused
  {
    var last := |readings| - 1;
    assert forall k: nat | k <= last :: readings[..last][..k] == readings[..k];
    assert readings[..|readings|] == readings;
    if NeverPaused(s, session, l, readings) {
      forall k: nat | k <= last ensures !After(s, session, l, readings[..last][..k]).paused {
        assert readings[..last][..k] == readings[..k];
      }
    }
  }

  lemma NothingPausedYet(s: Settings, session: Session, l: Loop)
    ensures NeverPaused(s, session, l, []) <==> !l.paused
  {
    var none: seq<Reading> := [];
    assert none[..0] == none && After(s, session, l, none) == l;
    assert NeverPaused(s, session, l, none) ==> !After(s, session, l, none[..0]).paused;
  }

  /** Pass k monitors: monitoring had started on entry, or the clock has reached the delay by then. */
  ghost predicate MonitorsBy(s: Settings, session: Session, l: Loop, readings: seq<Reading>, k: int)
    requires k < |readings|
  {
    l.monitoring || exists j :: 0 <= j <= k && GetElapsedTimeMs(session.began, readings[j].now) >= s.startMonitorAfterMs
  }

  /** The command is not paused on entry, and every idle time read while monitoring has reached the timeout. */
  ghost predicate AlwaysIdle(s: Settings, session: Session, l: Loop, readings: seq<Reading>) {
    && !l.paused
    && forall k :: 0 <= k < |readings| && MonitorsBy(s, session, l, readings, k) ==>
         QueryUserIdleTime(session, readings[k]) >= s.userIdleTimeoutMs
  }

  lemma {:induction false} MonitoringStartsByTheClock(s: Settings, session: Session, l: Loop, readings: seq<Reading>)
    ensures After(s, session, l, readings).monitoring <==> MonitorsBy(s, session, l, readings, |readings| - 1)
  {
    hide GetElapsedTimeMs;
    if readings != [] {
      MonitoringStartsByTheClock(s, session, l, readings[..|readings| - 1]);
    }
  }

  lemma OneReadingMore(s: Settings, session: Session, l: Loop, readings: seq<Reading>)
    requires readings != []
    ensures var last := |readings| - 1;
      AlwaysIdle(s, session, l, readings) <==>
        && AlwaysIdle(s, session, l, readings[..last])
        && (MonitorsBy(s, session, l, readings, last) ==> QueryUserIdleTime(session, readings[last]) >= s.userIdleTimeoutMs)
  {
    hide GetElapsedTimeMs;
    var before := readings[..|readings| - 1];
    forall k | 0 <= k < |before|
      ensures MonitorsBy(s, session, l, before, k) <==> MonitorsBy(s, session, l, readings, k)
    {
      assert forall j :: 0 <= j <= k ==> before[j] == readings[j];
    }
  }

  lemma NotPausedAtTheEnd(s: Settings, session: Session, l: Loop, readings: seq<Reading>)
    requires NeverPaused(s, session, l, readings)
    ensures !After(s, session, l, readings).paused
  {
    assert readings[..|readings|] == readings;
  }

  /** The loop pauses nothing if and only if the user is idle whenever it looks. */
  lemma {:induction false} NeverPausedExactlyWhenAlwaysIdle(s: Settings, session: Session, l: Loop, readings: seq<Reading>)
    ensures NeverPaused(s, session, l, readings) <==> AlwaysIdle(s, session, l, readings)
  {
    if readings == [] {
      NothingPausedYet(s, session, l);
    } else {
      hide NeverPaused, AlwaysIdle, MonitorsBy;
      var before := readings[..|readings| - 1];
      NeverPausedExactlyWhenAlwaysIdle(s, session, l, before);
      OnePassMore(s, session, l, readings);
      OneReadingMore(s, session, l, readings);
      MonitoringStartsByTheClock(s, session, l, readings);
      if NeverPaused(s, session, l, before) { NotPausedAtTheEnd(s, session, l, before); }
    }
  }

  /**
    The user's activity is looked at every second, or less often, only once the
    command has been paused, that is once the user was seen active while
    monitoring: until then the loop polls every 100 ms.
   */
  lemma PollsTenTimesASecondUntilThePause(s: Settings, session: Session, l: Loop, readings: seq<Reading>)
    requires s.Accepted() && Entering(l) && readings != []
    requires forall r | r in readings :: r.Sane()
    ensures After(s, session, l, readings).sleepMs == POLLING_INTERVAL_BEFORE_STARTING_MONITORING_MS
            <==> AlwaysIdle(s, session, l, readings)
  {
    NeverPausedExactlyWhenAlwaysIdle(s, session, l, readings);
    SlowsDownWithThePause(s, session, l, readings);
  }

  lemma {:induction false} SlowsDownWithThePause(s: Settings, session: Session, l: Loop, readings: seq<Reading>)
    requires s.Accepted() && Entering(l) && readings != []
    requires forall r | r in readings :: r.Sane()
    ensures After(s, session, l, readings).sleepMs == POLLING_INTERVAL_BEFORE_STARTING_MONITORING_MS
            <==> NeverPaused(s, session, l, readings)
  {
    hide NeverPaused;
    var last := |readings| - 1;
    OnePassMore(s, session, l, readings);
    if last > 0 { RunsSleepInRange(s, session, l, readings[..last]); }
    PassSleepsInRange(s, session, After(s, session, l, readings[..last]), readings[last]);
    if last > 0 {
      SlowsDownWithThePause(s, session, l, readings[..last]);
    } else {
      NothingPausedYet(s, session, l);
    }
  }

  /** A monitored, running command and an idle user: the next look comes after 100 ms, not after a second. */
  lemma AnIdleUserIsLookedAtTenTimesASecond()
    ensures var s := Settings(false, 300000, 300);
      var session := Session(true, Timespec(0, 0));
      var reading := Reading(Timespec(1, 0), 400000, Timespec(0, 0), Timespec(0, 0));
      s.Accepted() && reading.Sane() && Polls(s, session, Loop(true, false, 100), [reading, reading, reading]) == [100, 100, 100]
  {
    var s, session, l := Settings(false, 300000, 300), Session(true, Timespec(0, 0)), Loop(true, false, 100);
    var r := Reading(Timespec(1, 0), 400000, Timespec(0, 0), Timespec(0, 0));
    assert [r, r, r][..2] == [r, r] && [r, r][..1] == [r] && [r][..0] == [];
    assert After(s, session, l, [r]) == Pass(s, session, l, r) == l;
    assert After(s, session, l, [r, r]) == l && After(s, session, l, [r, r, r]) == l;
    assert Polls(s, session, l, [r]) == [100] && Polls(s, session, l, [r, r]) == [100, 100];
  }

  // ---------- No idle source ----------

  /** Without an idle source an inherited pause ends at the first pass and no pass ever pauses. */
  lemma {:induction false} WithoutIdleTimeNothingIsPaused(s: Settings, session: Session, l: Loop, readings: seq<Reading>)
    requires s.Accepted() && !session.idleTimeAvailable && (l.paused ==> l.monitoring) && readings != []
    ensures !After(s, session, l, readings).paused
  {
    var last := |readings| - 1;
    if last > 0 {
      WithoutIdleTimeNothingIsPaused(s, session, l, readings[..last]);
    }
  }

  // ---------- Timed runs ----------

  /** A reading together with the instant of the idle query and of the user's last input before it, in ns. */
  datatype Timed = Timed(reading: Reading, at: int, input: int)

  ghost function Readings(run: seq<Timed>): seq<Reading> {
    seq(|run|, k requires 0 <= k < |run| => run[k].reading)
  }

  /** The state before pass k. */
  ghost function At(s: Settings, session: Session, l: Loop, run: seq<Timed>, k: nat): Loop
    requires k <= |run|
  {
    After(s, session, l, Readings(run)[..k])
  }

  lemma AtStep(s: Settings, session: Session, l: Loop, run: seq<Timed>, k: nat)
    requires k < |run|
    ensures At(s, session, l, run, k + 1) == Pass(s, session, At(s, session, l, run, k), run[k].reading)
  {
    assert Readings(run)[..k + 1][..k] == Readings(run)[..k];
  }

  /** The time pass k spends pausing the tree, which the code measures and sleeps that much less. */
  ghost function PausingNs(before: Loop, after: Loop, r: Reading): int {
    if !before.paused && after.paused then r.pauseEnd.Ns() - r.pauseBegin.Ns() else 0
  }

  /** The display server reports whole milliseconds since the last input. */
  ghost predicate Observes(p: Timed) {
    p.input <= p.at && p.reading.idleMs == (p.at - p.input) / NS_PER_MS && p.reading.Sane()
  }

  /**
    The next query follows the sleep. A signal may end the sleep early; poll
    returns by its deadline, and everything the code does not measure takes at
    most `slack`. Input between the queries is later than the first of them.
   */
  ghost predicate Follows(before: Loop, after: Loop, p: Timed, next: Timed, slack: nat) {
    && p.at <= next.at <= p.at + PausingNs(before, after, p.reading) + PollMs(after.sleepMs) * NS_PER_MS + slack
    && (next.input == p.input || p.at < next.input)
  }

  ghost predicate Timely(s: Settings, session: Session, l: Loop, run: seq<Timed>, slack: nat) {
    && (forall k | 0 <= k < |run| :: Observes(run[k]))
    && (forall k: nat | k < |run| - 1 ::
          Follows(At(s, session, l, run, k), At(s, session, l, run, k + 1), run[k], run[k + 1], slack))
  }

  ghost function TimeoutNs(s: Settings): int {
    s.userIdleTimeoutMs * NS_PER_MS
  }

  /** Whole milliseconds lose nothing against a deadline in whole milliseconds. */
  lemma WholeMillisecondsDecide(ns: nat, ms: nat)
    ensures ns / NS_PER_MS >= ms <==> ns >= ms * NS_PER_MS
  {
    assert ns == ns / NS_PER_MS * NS_PER_MS + ns % NS_PER_MS;
  }

  /**
    After every observation the command is paused exactly when the user's last
    input is less than the timeout ago: it is never resumed early, and it is
    resumed by the first observation that comes late enough.
   */
  lemma PausedExactlyWhileTheUserIsActive(s: Settings, session: Session, l: Loop, run: seq<Timed>, slack: nat, k: nat)
    requires Timely(s, session, l, run, slack) && session.idleTimeAvailable
    requires k < |run| && At(s, session, l, run, k + 1).monitoring
    ensures At(s, session, l, run, k + 1).paused <==> run[k].at < run[k].input + TimeoutNs(s)
  {
    AtStep(s, session, l, run, k);
    assert Observes(run[k]);
    WholeMillisecondsDecide(run[k].at - run[k].input, s.userIdleTimeoutMs);
  }

  /**
    Resume latency: while the command is paused, the next observation comes less
    than one polling interval, plus the measured pausing time and the slack, after
    the timeout has run out on the input known by then.
   */
  lemma PausedNeverOverstays(s: Settings, session: Session, l: Loop, run: seq<Timed>, slack: nat, k: nat)
    requires s.Accepted() && Timely(s, session, l, run, slack) && session.idleTimeAvailable
    requires k + 1 < |run| && At(s, session, l, run, k + 1).paused && At(s, session, l, run, k + 1).monitoring
    ensures var pausing := PausingNs(At(s, session, l, run, k), At(s, session, l, run, k + 1), run[k].reading);
      run[k + 1].at < run[k + 1].input + TimeoutNs(s) + POLLING_INTERVAL_MS * NS_PER_MS + pausing + slack
  {
    var before, after := At(s, session, l, run, k), At(s, session, l, run, k + 1);
    var p, next := run[k], run[k + 1];
    AtStep(s, session, l, run, k);
    PausedExactlyWhileTheUserIsActive(s, session, l, run, slack, k);
    assert Observes(p) && Follows(before, after, p, next, slack);
    PauseSleepsToTheDeadline(s, session, before, p);
  }

  /**
    The whole of a pause: from an observation of an active user on, as long as
    there is no more input, the command stays paused until the timeout has run
    out and is resumed once within the bound above, by pass i, if the run goes on
    that long.
   */
  lemma {:induction false} ResumedOnceAndInTime(
    s: Settings, session: Session, l: Loop, run: seq<Timed>, slack: nat, j: nat, k: nat) returns (i: nat)
    requires s.Accepted() && Timely(s, session, l, run, slack) && session.idleTimeAvailable
    requires j <= k < |run| && At(s, session, l, run, j + 1).monitoring
    requires forall m :: j <= m <= k ==> run[m].input == run[j].input
    requires run[j].at < run[j].input + TimeoutNs(s) <= run[k].at
    ensures j < i <= k && !At(s, session, l, run, i + 1).paused
    ensures forall m :: j < m <= i ==> At(s, session, l, run, m).paused
    ensures var pausing := PausingNs(At(s, session, l, run, i - 1), At(s, session, l, run, i), run[i - 1].reading);
      run[j].input + TimeoutNs(s) <= run[i].at
        < run[j].input + TimeoutNs(s) + POLLING_INTERVAL_MS * NS_PER_MS + pausing + slack
    decreases k - j
  {
    hide Timely, At;
    PausedExactlyWhileTheUserIsActive(s, session, l, run, slack, j);
    PausedNeverOverstays(s, session, l, run, slack, j);
    AtStep(s, session, l, run, j + 1);
    if run[j + 1].at < run[j].input + TimeoutNs(s) {
      i := ResumedOnceAndInTime(s, session, l, run, slack, j + 1, k);
    } else {
      i := j + 1;
      PausedExactlyWhileTheUserIsActive(s, session, l, run, slack, i);
    }
  }

  /** The sleep chosen while the user is active ends at most 2 ms after the deadline, or lasts one polling interval. */
  lemma PauseSleepsToTheDeadline(s: Settings, session: Session, before: Loop, p: Timed)
    requires s.Accepted() && session.idleTimeAvailable && Observes(p)
    requires var after := Pass(s, session, before, p.reading); after.monitoring && after.paused
    ensures var after := Pass(s, session, before, p.reading);
      var wake := p.at + PausingNs(before, after, p.reading) + PollMs(after.sleepMs) * NS_PER_MS;
      || wake < p.input + TimeoutNs(s) + 2 * NS_PER_MS
      || wake <= p.at + PausingNs(before, after, p.reading) + POLLING_INTERVAL_MS * NS_PER_MS
  {
    var r := p.reading;
    ElapsedIsWithinAMillisecond(r.pauseBegin, r.pauseEnd);
    var ns := p.at - p.input;
    assert ns == ns / NS_PER_MS * NS_PER_MS + ns % NS_PER_MS;
  }

  /** The same sleep from below: it does not end a millisecond or more before the deadline, unless poll cannot wait that long. */
  lemma PauseSleepsUpToTheDeadline(s: Settings, session: Session, before: Loop, p: Timed)
    requires session.idleTimeAvailable && Observes(p)
    requires var after := Pass(s, session, before, p.reading); after.monitoring && after.paused
    ensures var after := Pass(s, session, before, p.reading);
      || PollMs(after.sleepMs) == INT_MAX
      || p.at + PausingNs(before, after, p.reading) + PollMs(after.sleepMs) * NS_PER_MS > p.input + TimeoutNs(s) - NS_PER_MS
  {
    var r := p.reading;
    ElapsedIsWithinAMillisecond(r.pauseBegin, r.pauseEnd);
    var ns := p.at - p.input;
    assert ns == ns / NS_PER_MS * NS_PER_MS + ns % NS_PER_MS;
  }

  /**
    While the command is paused, a look that no signal brings forward comes less
    than a millisecond before the deadline at the earliest: the loop does not keep
    looking at a user who is known to be active.
   */
  lemma NoLookBeforeTheDeadline(s: Settings, session: Session, l: Loop, run: seq<Timed>, slack: nat, k: nat)
    requires Timely(s, session, l, run, slack) && session.idleTimeAvailable
    requires k + 1 < |run| && At(s, session, l, run, k + 1).paused && At(s, session, l, run, k + 1).monitoring
    requires PollMs(At(s, session, l, run, k + 1).sleepMs) < INT_MAX
    requires run[k].at + PausingNs(At(s, session, l, run, k), At(s, session, l, run, k + 1), run[k].reading)
             + PollMs(At(s, session, l, run, k + 1).sleepMs) * NS_PER_MS <= run[k + 1].at
    ensures run[k + 1].at > run[k].input + TimeoutNs(s) - NS_PER_MS
  {
    AtStep(s, session, l, run, k);
    assert Observes(run[k]);
    PauseSleepsUpToTheDeadline(s, session, At(s, session, l, run, k), run[k]);
  }

  /** A paused command and an active user: the next look comes after five minutes, not after a second. */
  lemma AnActiveUserIsLeftAlone()
    ensures var s := Settings(false, 300000, 300);
      var session := Session(true, Timespec(0, 0));
      var reading := Reading(Timespec(1, 0), 0, Timespec(0, 0), Timespec(0, 0));
      Polls(s, session, Loop(true, true, 1000), [reading]) == [300000]
  {
    var s, session := Settings(false, 300000, 300), Session(true, Timespec(0, 0));
    var r := Reading(Timespec(1, 0), 0, Timespec(0, 0), Timespec(0, 0));
    assert [r][..0] == [];
    assert After(s, session, Loop(true, true, 1000), [r]) == Loop(true, true, 300000);
  }

  /**
    No activity is missed while the command runs: input after one observation is
    seen as activity by the next, provided the unmeasured time leaves the gap
    between the observations within the timeout.
   */
  lemma NoActivityIsMissed(s: Settings, session: Session, l: Loop, run: seq<Timed>, slack: nat, k: nat)
    requires s.Accepted() && Entering(l) && Timely(s, session, l, run, slack) && session.idleTimeAvailable
    requires k + 1 < |run| && At(s, session, l, run, k + 1).monitoring && !At(s, session, l, run, k + 1).paused
    requires run[k].at < run[k + 1].input
    requires slack <= TimeoutNs(s) - POLLING_INTERVAL_MS * NS_PER_MS
    ensures At(s, session, l, run, k + 2).paused
  {
    var before, after := At(s, session, l, run, k), At(s, session, l, run, k + 1);
    AtStep(s, session, l, run, k);
    AtStep(s, session, l, run, k + 1);
    forall r | r in Readings(run)[..k + 1] ensures r.Sane() {
      var j :| 0 <= j < k + 1 && r == Readings(run)[j];
      assert Observes(run[j]);
    }
    RunsSleepInRange(s, session, l, Readings(run)[..k + 1]);
    assert Follows(before, after, run[k], run[k + 1], slack);
    PausedExactlyWhileTheUserIsActive(s, session, l, run, slack, k + 1);
  }
}
