/** From the supervisor's bookkeeping to the processes themselves. */
module EndToEnd {
  import opened Settings
  import SupervisorTrace
  import TreeSignals

  function TreeOperation(a: SupervisorTrace.Action): TreeSignals.Operation {
    if a.Pause? then TreeSignals.PauseTree else TreeSignals.ResumeTree
  }

  function Translate(operations: seq<SupervisorTrace.Action>): seq<TreeSignals.Operation> {
    seq(|operations|, k requires 0 <= k < |operations| => TreeOperation(operations[k]))
  }

  lemma TranslationKeepsTheEnd(operations: seq<SupervisorTrace.Action>)
    ensures TreeSignals.PauseOutstanding(Translate(operations)) <==> SupervisorTrace.EndsPaused(operations)
  {
  }

  /** The operations a run of the supervisor performs on the process tree. */
  function TreeOperations(trace: seq<SupervisorTrace.Action>): seq<TreeSignals.Operation> {
    Translate(SupervisorTrace.Operations(trace))
  }

  /**
    When the program returns and its last operation is complete, no process is
    left stopped by it, whatever processes were forked and whichever exited
    (children first) during all of its operations.
   */
  lemma NothingIsLeftStoppedAtReturn(
    s: Settings, trace: seq<SupervisorTrace.Action>, code: int,
    root: int, tool: int, run: seq<TreeSignals.System>, events: seq<TreeSignals.Event>, i: nat)
    requires SupervisorTrace.Allowed(s, trace + [SupervisorTrace.Return(code)])
    requires TreeSignals.IsRun(root, tool, run, events) && i < |run|
    requires run[i].phase.Resting? && run[i].completed == TreeOperations(trace)
    ensures run[i].w.stopped == {}
  {
    hide SupervisorTrace.Allowed, SupervisorTrace.Alternating, SupervisorTrace.AllClosed, SupervisorTrace.Run,
         SupervisorTrace.Operations, SupervisorTrace.EndsPaused, TreeSignals.IsRun, TreeSignals.PauseOutstanding, Translate;
    SupervisorTrace.NothingOutstandingAtReturn(s, trace, code);
    TranslationKeepsTheEnd(SupervisorTrace.Operations(trace));
    TreeSignals.ResumeLeavesNothingStopped(root, tool, run, events, i);
  }

  /** While the supervisor is between operations, it takes the command for paused exactly if the tree's last operation was a pause. */
  lemma BookkeepingMatchesTheTree(s: Settings, trace: seq<SupervisorTrace.Action>)
    requires SupervisorTrace.Allowed(s, trace)
    ensures SupervisorTrace.Run(s, trace).value.paused <==> TreeSignals.PauseOutstanding(TreeOperations(trace))
  {
    hide SupervisorTrace.Alternating, SupervisorTrace.Run, SupervisorTrace.Operations, SupervisorTrace.EndsPaused,
         TreeSignals.PauseOutstanding, Translate;
    SupervisorTrace.PauseAndResumeAlternate(s, trace);
    TranslationKeepsTheEnd(SupervisorTrace.Operations(trace));
  }
}
