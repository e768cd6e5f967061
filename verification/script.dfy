/**
  The answers of the surroundings, as they are used up by the actions of a run:
  every action that depends on an answer has to use the one given for its pass,
  and a pass has to be worked through before the next one begins.
 */
module Script {
  import opened CNumbers
  import opened Settings
  import opened TimeUtils
  import opened SupervisorTrace
  import IdlePolling

  /** How far the current pass has come. */
  datatype Phase = Fresh | Queued | Requested | Answered | FallbackRead | Ended

  /** `delivered` counts the idle events passed on since the pass, or its poll, began. */
  datatype Cursor = Cursor(turn: Turn, phase: Phase, delivered: nat)

  const BEGINNING: Cursor := Cursor(NoTurn, Ended, 0)

  function SignalsOf(t: Turn): seq<Signal> {
    match t
    case WaylandTurn(p) => p.signals
    case DrainTurn(p) => p.signals
    case X11Turn(_, p) => p.signals
    case _ => []
  }

  function WaitStatusOf(t: Turn): int {
    match t
    case WaylandTurn(p) => p.waitStatus
    case DrainTurn(p) => p.waitStatus
    case X11Turn(_, p) => p.waitStatus
    case _ => -1
  }

  function DescriptorIn(setup: WaylandSetup, d: Descriptor): int {
    match d
    case StartTimer => setup.timerFd
    case ProcessExit => setup.processFd
    case FallbackTimer => setup.fallbackFd
  }

  predicate Fails(setup: WaylandSetup) {
    setup.timerFd == -1 || setup.displayFd == -1 || (setup.processFd == -1 && setup.fallbackFd == -1)
  }

  function EventsOf(c: Cursor): seq<IdleEvent> {
    if !c.turn.WaylandTurn? then []
    else if c.phase.Fresh? then c.turn.wayland.pendingEvents
    else c.turn.wayland.events
  }

  predicate HasPolled(c: Cursor) {
    c.phase.Answered? || c.phase.FallbackRead?
  }

  /** The answer of a probe: a pass may ask more than once, for different reasons. */
  predicate ProbeAllowed(c: Cursor, probe: Probe) {
    match c.turn
    case NoTurn => false
    case SetupTurn(u) => c.phase.Fresh? && probe == u.probe
    case WaylandTurn(p) =>
      || (c.phase.Fresh? && probe == p.signalProbe)
      || (c.phase.Answered? && probe == p.exitProbe)
      || (c.phase.FallbackRead? && probe == p.fallbackProbe)
    case DrainTurn(p) => c.phase.Fresh? && probe == p.probe
    case X11Turn(_, p) => (c.phase.Fresh? && probe == p.signalProbe) || (c.phase.Queued? && probe == p.probe)
  }

  function PhaseAfterProbe(c: Cursor): Phase {
    match c.turn
    case SetupTurn(_) => Ended
    case DrainTurn(_) => Queued
    case X11Turn(_, _) => if c.phase.Queued? then Requested else c.phase
    case _ => c.phase
  }

  /** Whether an action uses the answers of the current pass. */
  predicate Uses(c: Cursor, a: Action) {
    match a
    case Begin(_) => PassOver(c)
    case Drain(signals) => c.phase.Answered? && signals == SignalsOf(c.turn)
    case Check(probe) => ProbeAllowed(c, probe)
    case Wait(code) => code == WaitStatusOf(c.turn)
    case Open(d, fd) =>
      c.turn.SetupTurn? && c.phase.Fresh? && fd == DescriptorIn(c.turn.setup, d) && (d.FallbackTimer? ==> c.turn.setup.processFd == -1)
    case Unavailable => c.turn.NoTurn? || (c.turn.SetupTurn? && c.phase.Fresh? && Fails(c.turn.setup))
    case DispatchPending(r) =>
      c.turn.WaylandTurn? && c.phase.Fresh? && r == c.turn.wayland.pending && c.delivered == |EventsOf(c)|
    case Flush(r) =>
      c.turn.WaylandTurn? && ((c.phase.Queued? && r == c.turn.wayland.flush) || (c.phase.Answered? && r == c.turn.wayland.secondFlush))
    case Poll(_, _, r) => c.turn.WaylandTurn? && c.phase.Requested? && r == c.turn.wayland.poll
    case Dispatch(r) => c.turn.WaylandTurn? && HasPolled(c) && r == c.turn.wayland.dispatch && c.delivered == |EventsOf(c)|
    case Event(e) => (c.phase.Fresh? || HasPolled(c)) && c.delivered < |EventsOf(c)| && e == EventsOf(c)[c.delivered]
    case Consume(d, ok) =>
      c.turn.WaylandTurn? && c.phase.Answered?
      && ok == if d.StartTimer? then c.turn.wayland.startRead else c.turn.wayland.fallbackRead
    case Notify(created) => c.turn.WaylandTurn? && c.phase.Answered? && created == c.turn.wayland.created
    case Clock(elapsedMs) =>
      c.turn.X11Turn? && c.phase.Fresh? && elapsedMs == GetElapsedTimeMs(c.turn.session.began, c.turn.x11.reading.now)
    case Observe(idleMs) =>
      c.turn.X11Turn? && (c.phase.Fresh? || c.phase.Queued?)
      && idleMs == IdlePolling.QueryUserIdleTime(c.turn.session, c.turn.x11.reading)
    case Sleep(_, readable) =>
      || (c.turn.DrainTurn? && c.phase.Queued? && readable == c.turn.drain.readable)
      || (c.turn.X11Turn? && c.phase.Requested? && readable == c.turn.x11.readable)
    case _ => true
  }

  function Advance(c: Cursor, a: Action): Cursor {
    match a
    case Begin(turn) => Cursor(turn, Fresh, 0)
    case Check(_) => c.(phase := PhaseAfterProbe(c))
    case Unavailable => c.(phase := Ended)
    case DispatchPending(r) => c.(phase := if r.Done? then Queued else Ended, delivered := 0)
    case Flush(r) =>
      c.(phase := if !c.phase.Queued? then c.phase else if r.Done? || r.TryAgain? then Requested else Ended)
    case Poll(_, _, r) => c.(phase := if r.Polled? then Answered else Ended)
    case Event(_) => c.(delivered := c.delivered + 1)
    case Consume(d, _) => c.(phase := if d.FallbackTimer? then FallbackRead else c.phase)
    case Clock(_) => c.(phase := Queued)
    case Observe(_) => c.(phase := Queued)
    case Sleep(_, _) => c.(phase := Answered)
    case _ => c
  }

  /** Where a run stands in its script, or None if it has used an answer it was not given. */
  function Replay(trace: seq<Action>): Option<Cursor> {
    if trace == [] then Some(BEGINNING)
    else
      var last := |trace| - 1;
      match Replay(trace[..last])
      case None => None
      case Some(c) => if Uses(c, trace[last]) then Some(Advance(c, trace[last])) else None
  }

  /** The passes begun in a run. */
  function TurnsIn(trace: seq<Action>): seq<Turn> {
    if trace == [] then []
    else
      var last := |trace| - 1;
      TurnsIn(trace[..last]) + if trace[last].Begin? then [trace[last].turn] else []
  }

  /** The timeouts of the polls that had one. */
  function SleepsIn(trace: seq<Action>): seq<int> {
    if trace == [] then []
    else
      var last := |trace| - 1;
      SleepsIn(trace[..last]) + if trace[last].Sleep? then [trace[last].ms] else []
  }

  /** The state the X11 loop is entered with, in a run that enters it. */
  function EntryIn(s: Settings, trace: seq<Action>): Option<IdlePolling.Loop> {
    if trace == [] then None
    else
      var last := |trace| - 1;
      if trace[last].EnterX11? then EntryFrom(Run(s, trace[..last])) else EntryIn(s, trace[..last])
  }

  function EntryFrom(m: Option<Watch>): Option<IdlePolling.Loop> {
    match m
    case None => None
    case Some(w) =>
      Some(IdlePolling.Loop(w.monitoring, w.paused, IdlePolling.POLLING_INTERVAL_BEFORE_STARTING_MONITORING_MS))
  }

  lemma OneMore(s: Settings, trace: seq<Action>, a: Action)
    ensures Replay(trace + [a]) == match Replay(trace)
      case None => None
      case Some(c) => if Uses(c, a) then Some(Advance(c, a)) else None
    ensures TurnsIn(trace + [a]) == TurnsIn(trace) + if a.Begin? then [a.turn] else []
    ensures SleepsIn(trace + [a]) == SleepsIn(trace) + if a.Sleep? then [a.ms] else []
    ensures EntryIn(s, trace + [a]) == if a.EnterX11? then EntryFrom(Run(s, trace)) else EntryIn(s, trace)
  {
    hide Uses, Advance, Run, EntryFrom;
    assert (trace + [a])[..|trace|] == trace;
  }

  predicate IsAnswer(a: Action) {
    a.Begin? || a.Check? || a.Unavailable? || a.DispatchPending? || a.Flush? || a.Poll? || a.Event? || a.Consume?
    || a.Clock? || a.Observe? || a.Sleep?
  }

  /** Actions that depend on no answer. */
  predicate IsSilent(a: Action) {
    a.Exit? || a.Pause? || a.Resume? || a.Handle? || a.Forward? || a.Return? || a.Close? || a.Start? || a.Trouble?
    || a.Lost? || a.EnterX11?
  }

  predicate PassOver(c: Cursor) {
    HasPolled(c) || c.phase.Ended?
  }

  lemma OthersLeaveTheCursor(c: Cursor, a: Action)
    requires !IsAnswer(a) || IsSilent(a)
    ensures Advance(c, a) == c
    ensures IsSilent(a) ==> Uses(c, a) && !IsAnswer(a)
  {
  }

  // ---------- Whose answers a run uses ----------

  /** The pass begun last. */
  function LastBegun(trace: seq<Action>): Turn {
    if trace == [] then NoTurn
    else
      var last := |trace| - 1;
      if trace[last].Begin? then trace[last].turn else LastBegun(trace[..last])
  }

  /** Whether the pass begun last has polled with success, read its fallback timer, or looked at the clock or the idle time. */
  function PolledSince(trace: seq<Action>): bool {
    trace != [] &&
    var last := |trace| - 1;
    !trace[last].Begin? && ((trace[last].Poll? && trace[last].result.Polled?) || PolledSince(trace[..last]))
  }

  function FallbackReadSince(trace: seq<Action>): bool {
    trace != [] &&
    var last := |trace| - 1;
    !trace[last].Begin? && ((trace[last].Consume? && trace[last].timer.FallbackTimer?) || FallbackReadSince(trace[..last]))
  }

  function LookedSince(trace: seq<Action>): bool {
    trace != [] &&
    var last := |trace| - 1;
    !trace[last].Begin? && (trace[last].Clock? || trace[last].Observe? || LookedSince(trace[..last]))
  }

  /** The events delivered by the dispatch in progress. */
  function DeliveredSince(trace: seq<Action>): seq<IdleEvent> {
    if trace == [] then []
    else
      var last := |trace| - 1;
      if trace[last].Begin? || trace[last].DispatchPending? then []
      else DeliveredSince(trace[..last]) + if trace[last].Event? then [trace[last].event] else []
  }

  predicate Follows(c: Cursor, turn: Turn, polled: bool, fallbackRead: bool, looked: bool, delivered: seq<IdleEvent>) {
    && c.turn == turn
    && (turn.WaylandTurn? ==> (HasPolled(c) <==> polled) && (c.phase.FallbackRead? <==> fallbackRead))
    && (turn.X11Turn? ==> (c.phase.Fresh? ==> !looked) && (c.phase.Queued? ==> looked))
    && c.delivered <= |EventsOf(c)| && delivered == EventsOf(c)[..c.delivered]
  }

  lemma FollowingAction(c: Cursor, a: Action, turn: Turn, polled: bool, fallbackRead: bool, looked: bool, delivered: seq<IdleEvent>)
    requires Follows(c, turn, polled, fallbackRead, looked, delivered) && Uses(c, a)
    ensures Follows(Advance(c, a),
      if a.Begin? then a.turn else turn,
      !a.Begin? && ((a.Poll? && a.result.Polled?) || polled),
      !a.Begin? && ((a.Consume? && a.timer.FallbackTimer?) || fallbackRead),
      !a.Begin? && (a.Clock? || a.Observe? || looked),
      if a.Begin? || a.DispatchPending? then [] else delivered + if a.Event? then [a.event] else [])
  {
    assert delivered + [] == delivered;
  }

  lemma {:induction false} TheCursorFollows(trace: seq<Action>)
    requires Replay(trace).Some?
    ensures Follows(Replay(trace).value, LastBegun(trace), PolledSince(trace), FallbackReadSince(trace), LookedSince(trace), DeliveredSince(trace))
  {
    if trace != [] {
      hide Follows, Uses, Advance;
      var before := trace[..|trace| - 1];
      TheCursorFollows(before);
      FollowingAction(Replay(before).value, trace[|trace| - 1],
        LastBegun(before), PolledSince(before), FallbackReadSince(before), LookedSince(before), DeliveredSince(before));
    }
  }

  /** The answer an action after `before` uses is the one given for the pass begun last, for this very question. */
  predicate IsTheAnswer(before: seq<Action>, a: Action) {
    match LastBegun(before)
    case NoTurn => true
    case SetupTurn(u) => AnswersTheSetup(u, a)
    case WaylandTurn(p) => AnswersThePass(p, before, a)
    case DrainTurn(p) =>
      && (a.Drain? ==> a.signals == p.signals)
      && (a.Check? ==> a.probe == p.probe)
      && (a.Wait? ==> a.code == p.waitStatus)
      && (a.Sleep? ==> a.readable == p.readable)
    case X11Turn(session, p) =>
      && (a.Drain? ==> a.signals == p.signals)
      && (a.Check? ==> a.probe == if LookedSince(before) then p.probe else p.signalProbe)
      && (a.Wait? ==> a.code == p.waitStatus)
      && (a.Clock? ==> a.elapsedMs == GetElapsedTimeMs(session.began, p.reading.now))
      && (a.Observe? ==> a.idleMs == if session.idleTimeAvailable then p.reading.idleMs else 18446744073709551615)
      && (a.Sleep? ==> a.readable == p.readable)
  }

  predicate AnswersTheSetup(u: WaylandSetup, a: Action) {
    && (a.Check? ==> a.probe == u.probe)
    && (a.Open? && a.descriptor.StartTimer? ==> a.fd == u.timerFd)
    && (a.Open? && a.descriptor.ProcessExit? ==> a.fd == u.processFd)
    && (a.Open? && a.descriptor.FallbackTimer? ==> a.fd == u.fallbackFd && u.processFd == -1)
    && (a.Unavailable? ==> u.timerFd == -1 || u.displayFd == -1 || (u.processFd == -1 && u.fallbackFd == -1))
  }

  predicate AnswersThePass(p: WaylandPass, before: seq<Action>, a: Action) {
    var polled := PolledSince(before);
    && (a.Drain? ==> a.signals == p.signals)
    && (a.Check? ==> a.probe == if FallbackReadSince(before) then p.fallbackProbe else if polled then p.exitProbe else p.signalProbe)
    && (a.Wait? ==> a.code == p.waitStatus)
    && (a.Event? ==> DeliveredSince(before) + [a.event] <= if polled then p.events else p.pendingEvents)
    && (a.DispatchPending? ==> a.pending == p.pending && DeliveredSince(before) == p.pendingEvents)
    && (a.Flush? ==> a.flushed == if polled then p.secondFlush else p.flush)
    && (a.Poll? ==> a.result == p.poll)
    && (a.Consume? ==> a.ok == if a.timer.StartTimer? then p.startRead else p.fallbackRead)
    && (a.Notify? ==> a.created == p.created)
    && (a.Dispatch? ==> a.dispatched == p.dispatch && DeliveredSince(before) == p.events)
  }

  lemma AnswerOf(before: seq<Action>, c: Cursor, a: Action)
    requires Follows(c, LastBegun(before), PolledSince(before), FallbackReadSince(before), LookedSince(before), DeliveredSince(before))
    requires Uses(c, a)
    ensures IsTheAnswer(before, a)
  {
  }

  lemma {:induction false} PrefixesReplay(trace: seq<Action>, n: nat)
    requires Replay(trace).Some? && n <= |trace|
    ensures Replay(trace[..n]).Some?
    decreases |trace|
  {
    if n < |trace| {
      PrefixesReplay(trace[..|trace| - 1], n);
      assert trace[..|trace| - 1][..n] == trace[..n];
    } else {
      assert trace[..n] == trace;
    }
  }

  /** Every answer a run uses is the one given for the pass it is in; the events it delivers are all those given, in their order. */
  lemma AnswersComeFromTheirPass(trace: seq<Action>, j: nat)
    requires Replay(trace).Some? && j < |trace|
    ensures IsTheAnswer(trace[..j], trace[j])
  {
    hide Follows, Uses, Advance, IsTheAnswer;
    PrefixesReplay(trace, j + 1);
    PrefixesReplay(trace, j);
    assert trace[..j + 1][..j] == trace[..j];
    TheCursorFollows(trace[..j]);
    AnswerOf(trace[..j], Replay(trace[..j]).value, trace[j]);
  }
}
