/**
  What the supervisor's runs owe to the answers they get. Each law speaks of the
  actions of an allowed run, of what a poll has reported and of the descriptors
  open at that moment.
 */
module SupervisorDuties {
  import opened CNumbers
  import opened Settings
  import opened SupervisorTrace

  /** Something an answer has made necessary. */
  datatype Duty =
    | ToDrain | ToFlush | ToDispatch | ToReadStart | ToStart | ToStartByClock | ToNotify | ToPause | ToResume
    | ToReadFallback | ToCheck | ToLook | ToReport | ToGiveUp | ToHandOver

  predicate InLoop(m: Watch) {
    m.stage.Wayland? && m.loop.cause.Stay?
  }

  /** The automaton has not forgotten it. */
  predicate Owes(m: Watch, duty: Duty) {
    match duty
    case ToDrain => m.due.DrainDue?
    case ToFlush => InLoop(m) ==> m.loop.todo.flush
    case ToDispatch => InLoop(m) ==> m.loop.todo.dispatch
    case ToReadStart => InLoop(m) ==> m.loop.todo.readStart
    case ToStart => InLoop(m) ==> m.loop.todo.start
    case ToStartByClock => m.due.StartDue?
    case ToNotify => m.due.NotifyDue?
    case ToPause => m.due.PauseDue?
    case ToResume => m.due.ResumeDue?
    case ToReadFallback => InLoop(m) ==> m.loop.todo.readFallback
    case ToCheck => InLoop(m) ==> m.mustCheck
    case ToLook => m.stage.X11? || m.stage.Draining? ==> m.mustCheck
    case ToReport => InLoop(m) ==> m.loop.todo.trouble
    case ToGiveUp => m.stage.Wayland? ==> m.loop.cause.GiveUp?
    case ToHandOver => m.stage.Wayland? ==> m.loop.cause.HandOver?
  }

  predicate Does(a: Action, duty: Duty) {
    match duty
    case ToDrain => a.Drain?
    case ToFlush => a.Flush?
    case ToDispatch => a.Dispatch?
    case ToReadStart => a.Consume? && a.timer.StartTimer?
    case ToStart => a.Start?
    case ToStartByClock => a.Start?
    case ToNotify => a.Notify?
    case ToPause => a.Pause?
    case ToResume => a.Resume?
    case ToReadFallback => a.Consume? && a.timer.FallbackTimer?
    case ToCheck => a.Check?
    case ToLook => a.Check?
    case _ => false
  }

  /** The loop goes on: the next pass of the Wayland loop, or another poll in it. */
  predicate GoesOn(a: Action) {
    a.Poll? || (a.Begin? && a.turn.WaylandTurn?)
  }

  // ---------- Duties are kept ----------

  ghost predicate Keeps(s: Settings, m: Watch, a: Action, duty: Duty) {
    Consistent(s, m) && Enabled(s, m, a) && Owes(m, duty) && !Does(a, duty) ==> Owes(Effect(s, m, a), duty)
  }

  lemma PollKeeps(s: Settings, m: Watch, a: Action, duty: Duty)
    requires a.Poll?
    ensures Keeps(s, m, a, duty)
  {
    hide PollSlots, TodoAfter, AsksForCheck, PollCause;
  }

  lemma CommandKeeps(s: Settings, m: Watch, a: Action, duty: Duty)
    requires IsCommand(a) || IsInterruption(a) || a.Exit?
    ensures Keeps(s, m, a, duty)
  {
    hide LastInterruption, FinishedCode;
  }

  lemma BackendKeeps(s: Settings, m: Watch, a: Action, duty: Duty)
    requires IsDescriptor(a) || IsBackend(a) || IsPolling(a) || a.Start?
    ensures Keeps(s, m, a, duty)
  {
    hide SleepFits, Consistent;
  }

  lemma DisplayCallKeeps(s: Settings, m: Watch, a: Action, duty: Duty)
    requires a.DispatchPending? || a.Flush? || a.Dispatch?
    ensures Keeps(s, m, a, duty)
  {
    hide Consistent;
  }

  lemma CallKeeps(s: Settings, m: Watch, a: Action, duty: Duty)
    requires a.Event? || a.Consume? || a.Notify? || a.Trouble?
    ensures Keeps(s, m, a, duty)
  {
    hide Consistent;
  }

  lemma EveryActionKeeps(s: Settings, m: Watch, a: Action, duty: Duty)
    ensures Keeps(s, m, a, duty)
  {
    hide Keeps;
    if a.Poll? {
      PollKeeps(s, m, a, duty);
    } else if IsCommand(a) || IsInterruption(a) || a.Exit? {
      CommandKeeps(s, m, a, duty);
    } else if IsDescriptor(a) || IsBackend(a) || IsPolling(a) || a.Start? {
      BackendKeeps(s, m, a, duty);
    } else if a.DispatchPending? || a.Flush? || a.Dispatch? {
      DisplayCallKeeps(s, m, a, duty);
    } else {
      CallKeeps(s, m, a, duty);
    }
  }

  /** The step a run makes at an index. */
  lemma StepAt(s: Settings, trace: seq<Action>, i: nat) returns (m: Watch, n: Watch)
    requires Allowed(s, trace) && i < |trace|
    ensures Run(s, trace[..i]) == Some(m) && Run(s, trace[..i + 1]) == Some(n)
    ensures Enabled(s, m, trace[i]) && n == Effect(s, m, trace[i]) && Consistent(s, m)
  {
    hide Run, Enabled, Effect, Consistent;
    PrefixesAreAllowed(s, trace, i);
    RunsAreConsistent(s, trace[..i]);
    PrefixesAreAllowed(s, trace, i + 1);
    assert trace[..i + 1] == trace[..i] + [trace[i]];
    RunStep(s, trace[..i], trace[i]);
    m, n := Run(s, trace[..i]).value, Run(s, trace[..i + 1]).value;
  }

  /** A duty that arises at i is still there before j, unless something in between has done it. */
  lemma {:induction false} DutyIsKept(s: Settings, trace: seq<Action>, i: nat, j: nat, duty: Duty)
    requires Allowed(s, trace) && i < j < |trace|
    requires Allowed(s, trace[..i + 1]) && Owes(Run(s, trace[..i + 1]).value, duty)
    ensures Allowed(s, trace[..j])
    ensures Owes(Run(s, trace[..j]).value, duty) || exists k :: i < k < j && Does(trace[k], duty)
  {
    hide Run, Enabled, Effect, Owes, Does;
    PrefixesAreAllowed(s, trace, j);
    if j > i + 1 {
      DutyIsKept(s, trace, i, j - 1, duty);
      var m, n := StepAt(s, trace, j - 1);
      if Owes(m, duty) && !Does(trace[j - 1], duty) {
        EveryActionKeeps(s, m, trace[j - 1], duty);
      }
    }
  }

  lemma StageIsNotEnteredAgain(s: Settings, m: Watch, a: Action)
    requires Consistent(s, m) && Enabled(s, m, a) && Effect(s, m, a).stage.Wayland?
    ensures m.stage.Wayland?
  {
    hide Enabled, Effect, Consistent;
    StepsAreSound(s, m, a);
  }

  /** Once left, the Wayland loop is not entered again. */
  lemma {:induction false} TheLoopIsNotEnteredAgain(s: Settings, trace: seq<Action>, i: nat, j: nat)
    requires Allowed(s, trace) && i <= j <= |trace|
    requires Allowed(s, trace[..j]) && Run(s, trace[..j]).value.stage.Wayland?
    ensures Allowed(s, trace[..i]) && Run(s, trace[..i]).value.stage.Wayland?
  {
    hide Run, Enabled, Effect, Consistent;
    if i < j {
      var m, n := StepAt(s, trace, j - 1);
      StageIsNotEnteredAgain(s, m, trace[j - 1]);
      TheLoopIsNotEnteredAgain(s, trace, i, j - 1);
    }
  }

  lemma GoingOnIsWayland(s: Settings, m: Watch, a: Action)
    requires Enabled(s, m, a) && GoesOn(a)
    ensures m.stage.Wayland?
  {
  }

  predicate OfTheLoop(duty: Duty) {
    !duty.ToLook?
  }

  lemma OwingStopsTheLoop(s: Settings, m: Watch, a: Action, duty: Duty)
    requires Enabled(s, m, a) && GoesOn(a) && OfTheLoop(duty)
    ensures !Owes(m, duty)
  {
  }

  /** A duty of the Wayland loop is done before the loop goes on. */
  lemma DutyIsDone(s: Settings, trace: seq<Action>, i: nat, j: nat, duty: Duty)
    requires Allowed(s, trace) && i < j < |trace| && GoesOn(trace[j]) && OfTheLoop(duty)
    requires Allowed(s, trace[..i + 1]) && Owes(Run(s, trace[..i + 1]).value, duty)
    ensures exists k :: i < k < j && Does(trace[k], duty)
  {
    hide Run, Enabled, Effect, Owes, Does, GoesOn;
    DutyIsKept(s, trace, i, j, duty);
    var m, n := StepAt(s, trace, j);
    OwingStopsTheLoop(s, m, trace[j], duty);
  }

  // ---------- What a poll reports ----------

  /** A poll at i that reports x, and the state it happens in. */
  ghost predicate Reports(s: Settings, trace: seq<Action>, i: nat, x: Ready, m: Watch) {
    && Allowed(s, trace) && i < |trace| && trace[i].Poll? && trace[i].result == Polled(x)
    && Run(s, trace[..i]) == Some(m)
  }

  lemma ReportOwes(s: Settings, m: Watch, a: Action, x: Ready)
    requires Enabled(s, m, a) && a.Poll? && a.result == Polled(x)
    ensures var n := Effect(s, m, a);
      && (x.signal ==> Owes(n, ToDrain))
      && (x.waylandInvalid ==> Owes(n, ToHandOver))
      && (x.waylandClosed && !x.waylandInvalid ==> Owes(n, ToGiveUp))
      && (x.waylandOut ==> Owes(n, ToFlush))
      && (x.waylandIn ==> Owes(n, ToDispatch))
  {
    hide TodoAfter, AsksForCheck;
    TodoOf(m, x);
  }

  lemma TodoOf(m: Watch, x: Ready)
    ensures TodoAfter(m, x).flush == x.waylandOut && TodoAfter(m, x).dispatch == x.waylandIn
  {
  }

  lemma ReportOnDescriptorsOwes(s: Settings, m: Watch, a: Action, x: Ready)
    requires Enabled(s, m, a) && a.Poll? && a.result == Polled(x)
    ensures var n, fds := Effect(s, m, a), m.fds;
      && (!m.monitoring && fds.startTimer >= 0 && x.startIn ==> Owes(n, ToReadStart) && Owes(n, ToStart))
      && (!m.monitoring && fds.startTimer >= 0 && (x.startInvalid || x.startError) ==> Owes(n, ToReport))
      && (fds.processExit >= 0 && x.exitInvalid ==> Owes(n, ToReport))
      && (fds.fallbackTimer >= 0 && (x.fallbackInvalid || x.fallbackError) ==> Owes(n, ToReport))
      && (fds.fallbackTimer >= 0 && x.fallbackIn ==> Owes(n, ToReadFallback) && Owes(n, ToCheck))
      && (fds.processExit >= 0 && x.exitReady ==> Owes(n, ToCheck))
  {
    hide PollSlots;
  }

  /** The state after a report. */
  lemma Reported(s: Settings, trace: seq<Action>, i: nat, x: Ready, m: Watch) returns (n: Watch)
    requires Reports(s, trace, i, x, m)
    ensures Run(s, trace[..i + 1]) == Some(n) && Enabled(s, m, trace[i]) && n == Effect(s, m, trace[i])
  {
    hide Run, Enabled, Effect;
    var m';
    m', n := StepAt(s, trace, i);
  }

  /** Signals come first: nothing but closing descriptors happens before they have been read. */
  lemma SignalsAreReadFirst(s: Settings, trace: seq<Action>, i: nat, j: nat, x: Ready, m: Watch)
    requires Reports(s, trace, i, x, m) && x.signal
    requires i < j < |trace| && !trace[j].Drain? && !trace[j].Close?
    ensures exists k :: i < k < j && trace[k].Drain?
  {
    hide Run, Enabled, Effect, Consistent;
    var n := Reported(s, trace, i, x, m);
    ReportOwes(s, m, trace[i], x);
    DutyIsKept(s, trace, i, j, ToDrain);
    var before, after := StepAt(s, trace, j);
    if before.due.DrainDue? { DrainingComesFirst(s, before, trace[j]); }
  }

  lemma DrainingComesFirst(s: Settings, m: Watch, a: Action)
    requires Enabled(s, m, a) && Consistent(s, m) && m.due.DrainDue?
    ensures a.Drain? || a.Close?
  {
  }

  /** A display that can be written is flushed, and one that can be read is read, before the loop goes on. */
  lemma TheDisplayIsServed(s: Settings, trace: seq<Action>, i: nat, j: nat, x: Ready, m: Watch)
    requires Reports(s, trace, i, x, m) && i < j < |trace| && GoesOn(trace[j])
    ensures x.waylandOut ==> exists k :: i < k < j && trace[k].Flush?
    ensures x.waylandIn ==> exists k :: i < k < j && trace[k].Dispatch?
  {
    hide Run, Enabled, Effect, GoesOn;
    var n := Reported(s, trace, i, x, m);
    ReportOwes(s, m, trace[i], x);
    if x.waylandOut { DutyIsDone(s, trace, i, j, ToFlush); }
    if x.waylandIn { DutyIsDone(s, trace, i, j, ToDispatch); }
  }

  /**
    The end of the command: if the open process descriptor is ready, or the open
    fallback timer has fired, the command is checked before the loop goes on.
   */
  lemma AReportedEndIsChecked(s: Settings, trace: seq<Action>, i: nat, j: nat, x: Ready, m: Watch)
    requires Reports(s, trace, i, x, m) && i < j < |trace| && GoesOn(trace[j])
    requires (x.exitReady && DescriptorOf(m.fds, ProcessExit) >= 0) || (x.fallbackIn && DescriptorOf(m.fds, FallbackTimer) >= 0)
    ensures exists k :: i < k < j && trace[k].Check?
  {
    hide Run, Enabled, Effect, GoesOn;
    var n := Reported(s, trace, i, x, m);
    ReportOnDescriptorsOwes(s, m, trace[i], x);
    DutyIsDone(s, trace, i, j, ToCheck);
  }

  /** The fallback timer that has fired is read before the loop goes on. */
  lemma TheFallbackTimerIsRead(s: Settings, trace: seq<Action>, i: nat, j: nat, x: Ready, m: Watch)
    requires Reports(s, trace, i, x, m) && i < j < |trace| && GoesOn(trace[j])
    requires x.fallbackIn && DescriptorOf(m.fds, FallbackTimer) >= 0
    ensures exists k :: i < k < j && trace[k].Consume? && trace[k].timer.FallbackTimer?
  {
    hide Run, Enabled, Effect, GoesOn;
    var n := Reported(s, trace, i, x, m);
    ReportOnDescriptorsOwes(s, m, trace[i], x);
    DutyIsDone(s, trace, i, j, ToReadFallback);
  }

  /** Monitoring starts with the start timer: it is read, then monitoring starts, then the notification object is requested. */
  lemma TheStartTimerStartsMonitoring(s: Settings, trace: seq<Action>, i: nat, j: nat, x: Ready, m: Watch)
    requires Reports(s, trace, i, x, m) && i < j < |trace| && GoesOn(trace[j])
    requires x.startIn && DescriptorOf(m.fds, StartTimer) >= 0 && !m.monitoring
    ensures exists r, t, q :: i < r < t < q < j && trace[r].Consume? && trace[r].timer.StartTimer? && trace[t].Start? && trace[q].Notify?
  {
    hide Run, Enabled, Effect, GoesOn;
    var n := Reported(s, trace, i, x, m);
    ReportOnDescriptorsOwes(s, m, trace[i], x);
    DutyIsDone(s, trace, i, j, ToStart);
    var t :| i < t < j && Does(trace[t], ToStart);
    DutyIsKept(s, trace, i, t, ToReadStart);
    var before, after := StepAt(s, trace, t);
    var last, next := StepAt(s, trace, j);
    GoingOnIsWayland(s, last, trace[j]);
    TheLoopIsNotEnteredAgain(s, trace, t, j);
    StartingAfterReading(s, trace, i, t, before);
    var r :| i < r < t && Does(trace[r], ToReadStart);
    NotifyingIsDue(s, before, trace[t]);
    DutyIsDone(s, trace, t, j, ToNotify);
    var q :| t < q < j && Does(trace[q], ToNotify);
  }

  lemma StartingAfterReading(s: Settings, trace: seq<Action>, i: nat, t: nat, before: Watch)
    requires i < t < |trace| && Enabled(s, before, trace[t]) && trace[t].Start? && before.stage.Wayland?
    requires Owes(before, ToReadStart) || exists k :: i < k < t && Does(trace[k], ToReadStart)
    ensures exists k :: i < k < t && Does(trace[k], ToReadStart)
  {
  }

  lemma NotifyingIsDue(s: Settings, m: Watch, a: Action)
    requires Enabled(s, m, a) && a.Start? && m.stage.Wayland?
    ensures Owes(Effect(s, m, a), ToNotify)
  {
  }

  // ---------- Ways out of the loop ----------

  /** Nothing that ends the loop lets it go on, and it is left in one way only. */
  lemma ThereIsNoWayBack(s: Settings, trace: seq<Action>, i: nat, j: nat, duty: Duty)
    requires Allowed(s, trace) && i < j < |trace| && (duty.ToGiveUp? || duty.ToHandOver? || duty.ToReport?)
    requires Allowed(s, trace[..i + 1]) && Owes(Run(s, trace[..i + 1]).value, duty)
    ensures !GoesOn(trace[j])
    ensures duty.ToGiveUp? ==> !trace[j].EnterX11?
    ensures duty.ToHandOver? ==> !trace[j].Lost?
  {
    hide Run, Enabled, Effect, Owes, GoesOn;
    if GoesOn(trace[j]) { DutyIsDone(s, trace, i, j, duty); }
    DutyIsKept(s, trace, i, j, duty);
    var m, n := StepAt(s, trace, j);
    LeavingAsDue(s, m, trace[j], duty);
  }

  lemma LeavingAsDue(s: Settings, m: Watch, a: Action, duty: Duty)
    requires Enabled(s, m, a) && Owes(m, duty)
    ensures duty.ToGiveUp? ==> !a.EnterX11?
    ensures duty.ToHandOver? ==> !a.Lost?
  {
  }

  /** A display that has become invalid hands over to the polling backend; one that is closed does not, but ends monitoring. */
  lemma ALostDisplayEndsTheLoop(s: Settings, trace: seq<Action>, i: nat, j: nat, x: Ready, m: Watch)
    requires Reports(s, trace, i, x, m) && i < j < |trace|
    ensures x.waylandInvalid ==> !GoesOn(trace[j]) && !trace[j].Lost?
    ensures x.waylandClosed && !x.waylandInvalid ==> !GoesOn(trace[j]) && !trace[j].EnterX11?
  {
    hide Run, Enabled, Effect, GoesOn, Owes;
    var n := Reported(s, trace, i, x, m);
    ReportOwes(s, m, trace[i], x);
    if x.waylandInvalid {
      ThereIsNoWayBack(s, trace, i, j, ToHandOver);
    } else if x.waylandClosed {
      ThereIsNoWayBack(s, trace, i, j, ToGiveUp);
    }
  }

  /** After a report that a polled descriptor is broken the loop does not go on. */
  lemma ABrokenDescriptorEndsTheLoop(s: Settings, trace: seq<Action>, i: nat, j: nat, x: Ready, m: Watch)
    requires Reports(s, trace, i, x, m) && i < j < |trace|
    requires || (DescriptorOf(m.fds, StartTimer) >= 0 && !m.monitoring && (x.startInvalid || x.startError))
             || (DescriptorOf(m.fds, ProcessExit) >= 0 && x.exitInvalid)
             || (DescriptorOf(m.fds, FallbackTimer) >= 0 && (x.fallbackInvalid || x.fallbackError))
    ensures !GoesOn(trace[j])
  {
    hide Run, Enabled, Effect, GoesOn, Owes;
    var n := Reported(s, trace, i, x, m);
    ReportOnDescriptorsOwes(s, m, trace[i], x);
    ThereIsNoWayBack(s, trace, i, j, ToReport);
  }

  /** The answers for which the backend is given up: the user counts as idle from then on. */
  predicate GivesUp(a: Action) {
    || (a.DispatchPending? && (a.pending.TryAgain? || a.pending.Failed?))
    || (a.Flush? && a.flushed.Failed?)
    || (a.Poll? && a.result.Polled? && a.result.ready.waylandClosed && !a.result.ready.waylandInvalid)
    || (a.Notify? && !a.created)
    || (a.Dispatch? && a.dispatched.Failed?)
  }

  /** The answers for which the polling backend takes over. */
  predicate HandsOver(a: Action) {
    || a.Unavailable? || a.Trouble?
    || (a.Poll? && (a.result.PollFailed? || (a.result.Polled? && a.result.ready.waylandInvalid)))
    || (a.Consume? && !a.ok)
  }

  predicate IsLoopCall(a: Action) {
    a.DispatchPending? || a.Flush? || a.Poll? || a.Notify? || a.Dispatch? || a.Consume? || a.Trouble? || a.Unavailable?
  }

  ghost predicate CauseFollows(s: Settings, m: Watch, a: Action) {
    Enabled(s, m, a) ==>
      var n := Effect(s, m, a);
      && (GivesUp(a) ==> Owes(n, ToGiveUp))
      && (HandsOver(a) ==> Owes(n, ToHandOver))
      && (m.stage.Wayland? && n.stage.Wayland? && !GivesUp(a) && !HandsOver(a) ==> n.loop.cause.Stay? || n.loop.cause == m.loop.cause)
  }

  lemma CauseFollowsTheCall(s: Settings, m: Watch, a: Action)
    requires IsLoopCall(a)
    ensures CauseFollows(s, m, a)
  {
    hide PollSlots, TodoAfter, AsksForCheck, Attentive, Settled;
  }

  lemma OthersLeaveTheCause(s: Settings, m: Watch, a: Action)
    requires !IsLoopCall(a)
    ensures CauseFollows(s, m, a)
  {
    hide Permitted, LastInterruption, FinishedCode;
  }

  lemma CauseFollowsTheAnswer(s: Settings, m: Watch, a: Action)
    ensures CauseFollows(s, m, a)
  {
    hide CauseFollows;
    if IsLoopCall(a) {
      CauseFollowsTheCall(s, m, a);
    } else {
      OthersLeaveTheCause(s, m, a);
    }
  }

  /** Each of these answers ends the loop for good, and in its own way. */
  lemma TheAnswerDecidesTheWayOut(s: Settings, trace: seq<Action>, i: nat, j: nat)
    requires Allowed(s, trace) && i < j < |trace|
    ensures GivesUp(trace[i]) ==> !GoesOn(trace[j]) && !trace[j].EnterX11?
    ensures HandsOver(trace[i]) ==> !GoesOn(trace[j]) && !trace[j].Lost?
  {
    hide Run, Enabled, Effect, GoesOn, Owes, GivesUp, HandsOver;
    var m, n := StepAt(s, trace, i);
    CauseFollowsTheAnswer(s, m, trace[i]);
    if GivesUp(trace[i]) { ThereIsNoWayBack(s, trace, i, j, ToGiveUp); }
    if HandsOver(trace[i]) { ThereIsNoWayBack(s, trace, i, j, ToHandOver); }
  }

  lemma {:induction false} CauseHasAReason(s: Settings, trace: seq<Action>, j: nat)
    requires Allowed(s, trace) && j <= |trace| && Allowed(s, trace[..j]) && Run(s, trace[..j]).value.stage.Wayland?
    ensures Run(s, trace[..j]).value.loop.cause.GiveUp? ==> exists k :: 0 <= k < j && GivesUp(trace[k])
    ensures Run(s, trace[..j]).value.loop.cause.HandOver? ==> exists k :: 0 <= k < j && HandsOver(trace[k])
  {
    hide Run, Enabled, Effect, GivesUp, HandsOver, Consistent;
    if j > 0 {
      var m, n := StepAt(s, trace, j - 1);
      StageIsNotEnteredAgain(s, m, trace[j - 1]);
      CauseHasAReason(s, trace, j - 1);
      NewCause(s, m, trace[j - 1]);
    } else {
      BeginningHasNoCause(s, trace);
    }
  }

  lemma BeginningHasNoCause(s: Settings, trace: seq<Action>)
    ensures Run(s, trace[..0]) == Some(INITIAL) && INITIAL.loop.cause.Stay?
  {
  }

  lemma NewCause(s: Settings, m: Watch, a: Action)
    requires Enabled(s, m, a) && m.stage.Wayland? && Effect(s, m, a).stage.Wayland?
    ensures var n := Effect(s, m, a);
      && (n.loop.cause.GiveUp? ==> GivesUp(a) || m.loop.cause.GiveUp?)
      && (n.loop.cause.HandOver? ==> HandsOver(a) || m.loop.cause.HandOver?)
  {
    hide Enabled, Effect, GivesUp, HandsOver;
    CauseFollowsTheAnswer(s, m, a);
  }

  /** The backend is given up, or handed over, for one of its reasons only. */
  lemma TheWayOutHasAReason(s: Settings, trace: seq<Action>, j: nat)
    requires Allowed(s, trace) && j < |trace|
    ensures trace[j].Lost? ==> exists k :: 0 <= k < j && GivesUp(trace[k])
    ensures trace[j].EnterX11? ==> exists k :: 0 <= k < j && HandsOver(trace[k])
  {
    hide Run, Effect, GivesUp, HandsOver;
    var m, n := StepAt(s, trace, j);
    if trace[j].Lost? || trace[j].EnterX11? { CauseHasAReason(s, trace, j); }
  }

  /** A descriptor is found broken only if a poll has reported that. */
  predicate ReportsTrouble(a: Action) {
    a.Poll? && a.result.Polled? &&
    var x := a.result.ready;
    x.startInvalid || x.startError || x.exitInvalid || x.fallbackInvalid || x.fallbackError
  }

  ghost predicate FindsNothing(s: Settings, m: Watch, a: Action) {
    Enabled(s, m, a) && Effect(s, m, a).loop.todo.trouble ==> m.loop.todo.trouble || ReportsTrouble(a)
  }

  lemma LoopCallsFindNothing(s: Settings, m: Watch, a: Action)
    requires IsLoopCall(a)
    ensures FindsNothing(s, m, a)
  {
    hide PollSlots, AsksForCheck, PollCause, Attentive, Settled;
  }

  lemma OthersFindNothing(s: Settings, m: Watch, a: Action)
    requires !IsLoopCall(a)
    ensures FindsNothing(s, m, a)
  {
    hide Permitted, LastInterruption, FinishedCode;
  }

  lemma TroubleIsNew(s: Settings, m: Watch, a: Action)
    ensures FindsNothing(s, m, a)
  {
    hide FindsNothing;
    if IsLoopCall(a) {
      LoopCallsFindNothing(s, m, a);
    } else {
      OthersFindNothing(s, m, a);
    }
  }

  lemma {:induction false} TroubleHasBeenReported(s: Settings, trace: seq<Action>, j: nat)
    requires Allowed(s, trace) && j <= |trace| && Allowed(s, trace[..j]) && Run(s, trace[..j]).value.loop.todo.trouble
    ensures exists k :: 0 <= k < j && ReportsTrouble(trace[k])
  {
    if j > 0 {
      hide Run, Enabled, Effect, ReportsTrouble;
      var m, n := StepAt(s, trace, j - 1);
      TroubleIsNew(s, m, trace[j - 1]);
      if !ReportsTrouble(trace[j - 1]) { TroubleHasBeenReported(s, trace, j - 1); }
    }
  }

  lemma TroubleIsNotInvented(s: Settings, trace: seq<Action>, j: nat)
    requires Allowed(s, trace) && j < |trace| && trace[j].Trouble?
    ensures exists k :: 0 <= k < j && ReportsTrouble(trace[k])
  {
    hide Run, Effect, ReportsTrouble;
    var m, n := StepAt(s, trace, j);
    TroubleHasBeenReported(s, trace, j);
  }

  // ---------- Polled descriptors ----------

  /** Every open descriptor is polled in its own slot, the start timer in the second. */
  lemma EveryOpenDescriptorIsPolled(s: Settings, trace: seq<Action>, i: nat)
    requires Allowed(s, trace) && i < |trace| && trace[i].Poll?
    ensures Allowed(s, trace[..i])
    ensures var fds, open := trace[i].fds, Run(s, trace[..i]).value.fds;
      && 3 <= |fds| <= 4 && fds[1] == DescriptorOf(open, StartTimer)
      && (DescriptorOf(open, ProcessExit) >= 0 ==> |fds| == 4 && fds[3] == DescriptorOf(open, ProcessExit))
      && (DescriptorOf(open, FallbackTimer) >= 0 ==> |fds| == 4 && fds[3] == DescriptorOf(open, FallbackTimer))
  {
    hide Run, Effect;
    var m, n := StepAt(s, trace, i);
    assert trace[i].fds == PollSlots(m.fds, trace[i].fds);
  }

  // ---------- Pausing, resuming and looking ----------

  /** With the notification object there, a command that runs is paused before the loop goes on. */
  lemma TheStartPauses(s: Settings, trace: seq<Action>, i: nat, j: nat)
    requires Allowed(s, trace) && i < j < |trace| && trace[i] == Notify(true) && GoesOn(trace[j])
    requires Allowed(s, trace[..i]) && !Run(s, trace[..i]).value.paused
    ensures exists k :: i < k < j && trace[k].Pause?
  {
    hide Run, Enabled, GoesOn;
    var m, n := StepAt(s, trace, i);
    DutyIsDone(s, trace, i, j, ToPause);
  }

  /** While waiting only a paused command has anything due, and that is the resume. */
  predicate OnlyResumes(m: Watch) {
    m.stage.Draining? ==> !m.due.PauseDue? && (m.paused ==> m.due.ResumeDue?)
  }

  lemma {:induction false} WaitingResumesFirst(s: Settings, trace: seq<Action>)
    requires Allowed(s, trace)
    ensures OnlyResumes(Run(s, trace).value)
  {
    if trace != [] {
      hide Run, Enabled, Effect, Consistent;
      var last := |trace| - 1;
      assert trace[..last + 1] == trace;
      var m, n := StepAt(s, trace, last);
      WaitingResumesFirst(s, trace[..last]);
      WaitingStep(s, m, trace[last]);
    }
  }

  lemma WaitingStep(s: Settings, m: Watch, a: Action)
    requires Enabled(s, m, a) && Consistent(s, m) && OnlyResumes(m)
    ensures OnlyResumes(Effect(s, m, a))
  {
    hide PollSlots, TodoAfter, AsksForCheck, PollCause, LastInterruption, FinishedCode, SleepFits;
  }

  /** The loop that only waits for the command never waits for a stopped one. */
  lemma NoWaitingForAStoppedCommand(s: Settings, trace: seq<Action>, j: nat)
    requires Allowed(s, trace) && j < |trace|
    requires Allowed(s, trace[..j]) && Run(s, trace[..j]).value.stage.Draining? && (trace[j].Begin? || trace[j].Sleep?)
    ensures !Run(s, trace[..j]).value.paused
  {
    hide Run, Effect;
    var m, n := StepAt(s, trace, j);
    WaitingResumesFirst(s, trace[..j]);
  }

  lemma LookingOwesACheck(s: Settings, m: Watch, a: Action)
    requires Enabled(s, m, a) && (a.Observe? || a.Sleep?)
    ensures Owes(Effect(s, m, a), ToLook)
  {
  }

  lemma CheckedBeforeActing(s: Settings, m: Watch, a: Action)
    requires Enabled(s, m, a) && ((m.stage.X11? && (a.Pause? || a.Resume?)) || a.Sleep?)
    ensures !Owes(m, ToLook)
  {
  }

  /** Between looking at the idle time and acting upon it, and between any two sleeps, the command is checked. */
  lemma TheCommandIsCheckedFirst(s: Settings, trace: seq<Action>, i: nat, j: nat)
    requires Allowed(s, trace) && i < j < |trace| && (trace[i].Observe? || trace[i].Sleep?)
    requires Allowed(s, trace[..j])
    requires (Run(s, trace[..j]).value.stage.X11? && (trace[j].Pause? || trace[j].Resume?)) || trace[j].Sleep?
    ensures exists k :: i < k < j && trace[k].Check?
  {
    hide Run, Enabled, Effect, Owes;
    var m, n := StepAt(s, trace, i);
    LookingOwesACheck(s, m, trace[i]);
    DutyIsKept(s, trace, i, j, ToLook);
    var before, after := StepAt(s, trace, j);
    CheckedBeforeActing(s, before, trace[j]);
  }

  lemma ClockOwesTheStart(s: Settings, m: Watch, a: Action)
    requires Enabled(s, m, a) && a.Clock? && a.elapsedMs >= s.startMonitorAfterMs
    ensures Owes(Effect(s, m, a), ToStartByClock)
  {
  }

  lemma StartComesBeforeSleeping(s: Settings, m: Watch, a: Action)
    requires Enabled(s, m, a) && (a.Observe? || a.Sleep? || a.Begin?)
    ensures !Owes(m, ToStartByClock)
  {
  }

  /** When the clock has reached the delay, monitoring starts before the X11 loop sleeps. */
  lemma TheClockStartsMonitoring(s: Settings, trace: seq<Action>, i: nat, j: nat)
    requires Allowed(s, trace) && i < j < |trace| && trace[i].Clock? && trace[i].elapsedMs >= s.startMonitorAfterMs
    requires trace[j].Observe? || trace[j].Sleep? || trace[j].Begin?
    ensures exists k :: i < k < j && trace[k].Start?
  {
    hide Run, Enabled, Effect, Owes;
    var m, n := StepAt(s, trace, i);
    ClockOwesTheStart(s, m, trace[i]);
    DutyIsKept(s, trace, i, j, ToStartByClock);
    var before, after := StepAt(s, trace, j);
    StartComesBeforeSleeping(s, before, trace[j]);
  }

  // ---------- The last signal ----------

  predicate NoInterruption(signals: seq<Signal>) {
    forall j :: 0 <= j < |signals| ==> signals[j] == SIGCHLD
  }

  /** The last interrupting signal of a batch counts. */
  lemma {:induction false} TheLastOneCounts(before: Option<Signal>, signals: seq<Signal>, k: nat)
    requires k <= |signals| && NoInterruption(signals[k..]) && (k > 0 ==> signals[k - 1] != SIGCHLD)
    ensures LastInterruption(before, signals) == if k > 0 then Some(signals[k - 1]) else before
  {
    if |signals| > k {
      var last := |signals| - 1;
      assert signals[last] == signals[k..][last - k];
      forall j | 0 <= j < |signals[..last][k..]| ensures signals[..last][k..][j] == SIGCHLD {
        assert signals[..last][k..][j] == signals[k..][j];
      }
      TheLastOneCounts(before, signals[..last], k);
    }
  }

  lemma {:induction false} LaterBatchesDoNotCount(trace: seq<Action>, i: nat, k: nat)
    requires i < |trace| && trace[i].Drain? && 0 < k <= |trace[i].signals|
    requires trace[i].signals[k - 1] != SIGCHLD && NoInterruption(trace[i].signals[k..])
    requires forall j :: i < j < |trace| && trace[j].Drain? ==> NoInterruption(trace[j].signals)
    ensures LastRead(trace) == Some(trace[i].signals[k - 1])
  {
    var last := |trace| - 1;
    if i == last {
      TheLastOneCounts(LastRead(trace[..last]), trace[last].signals, k);
    } else {
      LaterBatchesDoNotCount(trace[..last], i, k);
      if trace[last].Drain? {
        assert trace[last].signals[0..] == trace[last].signals;
        TheLastOneCounts(LastRead(trace[..last]), trace[last].signals, 0);
      }
    }
  }

  /** An own command is sent the very last interrupting signal that was read, and no other. */
  lemma TheLastSignalReadIsForwarded(s: Settings, trace: seq<Action>, code: int, i: nat, k: nat)
    requires Allowed(s, trace + [Return(code)]) && !s.externalPid
    requires i < |trace| && trace[i].Drain? && 0 < k <= |trace[i].signals|
    requires trace[i].signals[k - 1] != SIGCHLD && NoInterruption(trace[i].signals[k..])
    requires forall j :: i < j < |trace| && trace[j].Drain? ==> NoInterruption(trace[j].signals)
    ensures Forwarded(trace) == [trace[i].signals[k - 1]]
  {
    hide Run, NoInterruption;
    ExactlyOneSignalIsForwarded(s, trace, code);
    LaterBatchesDoNotCount(trace, i, k);
  }

  // ---------- The end of an external process ----------

  /** For an external process the program exits with 0, and only when the process can no longer be signalled. */
  lemma AnExternalProcessEndsWithZero(s: Settings, trace: seq<Action>, code: int)
    requires Allowed(s, trace + [Exit(code)]) && s.externalPid
    ensures code == 0 && exists k :: 0 <= k < |trace| && trace[k].Check? && trace[k].probe.killFails
  {
    hide Run;
    RunStep(s, trace, Exit(code));
    TheEndIsFoundByACheck(s, trace, code);
  }

  /** An own command's code is the one it has exited with. */
  lemma AnOwnCommandEndsWithItsCode(s: Settings, trace: seq<Action>, code: int)
    requires Allowed(s, trace + [Exit(code)]) && !s.externalPid
    ensures exists k :: 0 <= k < |trace| && trace[k].Check? && trace[k].probe.wait.ExitedWith? && trace[k].probe.wait.code == code
  {
    hide Run;
    RunStep(s, trace, Exit(code));
    TheEndIsFoundByACheck(s, trace, code);
  }

  /** A check that finds the end is followed by the exit at once. */
  lemma TheEndIsHeeded(s: Settings, trace: seq<Action>, i: nat)
    requires Allowed(s, trace) && i + 1 < |trace| && trace[i].Check?
    requires if s.externalPid then trace[i].probe.killFails else trace[i].probe.wait.ExitedWith?
    ensures trace[i + 1].Exit?
  {
    hide Run;
    var m, n := StepAt(s, trace, i);
    var m', n' := StepAt(s, trace, i + 1);
  }

  lemma {:induction false} WaitedForBefore(s: Settings, trace: seq<Action>, code: int)
    requires Allowed(s, trace) && Run(s, trace).value.stage == Waited(code)
    ensures exists k :: 0 <= k < |trace| && trace[k] == Wait(code)
  {
    hide Step, Consistent, DescriptorsMove;
    assert trace != [];
    var last := |trace| - 1;
    var m, a, n := LastMove(s, trace);
    if a != Wait(code) {
      WaitedForBefore(s, trace[..last], code);
      var k :| 0 <= k < last && trace[..last][k] == Wait(code);
      assert trace[k] == Wait(code);
    }
  }

  /** A run that returns returns the exit status the command was waited for with, and 0 for an external process. */
  lemma TheReturnedCode(s: Settings, trace: seq<Action>, code: int)
    requires Allowed(s, trace + [Return(code)])
    ensures s.externalPid ==> code == 0
    ensures !s.externalPid ==> exists k :: 0 <= k < |trace| && trace[k] == Wait(code)
  {
    hide Run;
    RunStep(s, trace, Return(code));
    RunsAreConsistent(s, trace);
    if !s.externalPid { WaitedForBefore(s, trace, code); }
  }
}
