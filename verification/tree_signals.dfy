/** Pausing and resuming a process tree, on one snapshot and while the tree changes. */
module TreeSignals {
  import opened ProcessTree

  // ---------- One operation on one snapshot ----------

  datatype Signal = SIGSTOP | SIGTSTP | SIGCONT

  datatype Kill = Kill(processId: int, signal: Signal)

  ghost function KillsOf(rows: seq<ProcessInfo>, signal: Signal): seq<Kill> {
    seq(|rows|, k requires 0 <= k < |rows| => Kill(rows[k].processId, signal))
  }

  class TreeSignaller {
    /** SIGSTOP or SIGTSTP, as --pause-method says. */
    const pauseSignal: Signal
    ghost var sent: seq<Kill>

    constructor (pauseSignal: Signal)
      ensures this.pauseSignal == pauseSignal && sent == []
    {
      this.pauseSignal := pauseSignal;
      sent := [];
    }

    method SendSignalToPid(processId: int, signal: Signal)
      modifies this
      ensures sent == old(sent) + [Kill(processId, signal)]
    {
      sent := sent + [Kill(processId, signal)];
    }

    /** The root first, then the descendants up to the sentinel. */
    method SignalRecursively(root: int, signal: Signal, t: Table) returns (overrun: bool)
      requires ValidTable(t)
      modifies this
      ensures overrun <==> SelfAncestor(t, root) || EveryRowDescends(t, root)
      ensures overrun ==> sent == old(sent) + [Kill(root, signal)]
      ensures !overrun ==> exists rows :: Lists(t, root, rows) && sent == old(sent) + [Kill(root, signal)] + KillsOf(rows, signal)
      ensures !overrun ==> old(sent) <= sent && Reaches(t, root, sent[|old(sent)|..], signal)
      ensures forall w, tool | Observed(w, t, root, tool) :: !overrun && ReachesTheTree(w, root, sent[|old(sent)|..], signal)
    {
      hide Lists, SelfAncestor, EveryRowDescends, ValidTable, BeforeSentinel, Reaches, Observed, ReachesTheTree;
      SendSignalToPid(root, signal);
      var descendants;
      overrun, descendants := GetChildProcesses(t, root);
      forall w, tool | Observed(w, t, root, tool) ensures !overrun { ObservedTablesNeverOverrun(w, t, root, tool); }
      if overrun { return; }
      ghost var rows := BeforeSentinel(descendants[..]);
      SignalListed(descendants, signal);
      assert sent[|old(sent)|..] == [Kill(root, signal)] + KillsOf(rows, signal);
      ListedAreReached(t, root, rows, signal);
      forall w, tool | Observed(w, t, root, tool) ensures ReachesTheTree(w, root, sent[|old(sent)|..], signal) {
        ReachedIsTheTree(w, t, root, tool, sent[|old(sent)|..], signal);
      }
    }

    /** The loop over the listing. */
    method SignalListed(descendants: array<ProcessInfo>, signal: Signal)
      requires |BeforeSentinel(descendants[..])| < descendants.Length
      modifies this
      ensures sent == old(sent) + KillsOf(BeforeSentinel(descendants[..]), signal)
    {
      hide BeforeSentinel;
      ghost var slots := descendants[..];
      ghost var rows := BeforeSentinel(slots);
      assert slots[|rows|].processId == 0;
      var k := 0;
      while descendants[k].processId != 0
        invariant 0 <= k <= |rows| && descendants[..] == slots
        invariant sent == old(sent) + KillsOf(rows[..k], signal)
        decreases |rows| - k
      {
        assert slots[k] == descendants[k];
        assert rows[..k + 1] == rows[..k] + [descendants[k]];
        SendSignalToPid(descendants[k].processId, signal);
        k := k + 1;
      }
      assert rows[..k] == rows;
    }

    method PauseCommandRecursively(root: int, t: Table) returns (overrun: bool)
      requires ValidTable(t)
      modifies this
      ensures overrun <==> SelfAncestor(t, root) || EveryRowDescends(t, root)
      ensures !overrun ==> exists rows ::
        Lists(t, root, rows) && sent == old(sent) + [Kill(root, pauseSignal)] + KillsOf(rows, pauseSignal)
      ensures !overrun ==> old(sent) <= sent && Reaches(t, root, sent[|old(sent)|..], pauseSignal)
      ensures forall w, tool | Observed(w, t, root, tool) :: !overrun && ReachesTheTree(w, root, sent[|old(sent)|..], pauseSignal)
    {
      overrun := SignalRecursively(root, pauseSignal, t);
    }

    method ResumeCommandRecursively(root: int, t: Table) returns (overrun: bool)
      requires ValidTable(t)
      modifies this
      ensures overrun <==> SelfAncestor(t, root) || EveryRowDescends(t, root)
      ensures !overrun ==> exists rows ::
        Lists(t, root, rows) && sent == old(sent) + [Kill(root, SIGCONT)] + KillsOf(rows, SIGCONT)
      ensures !overrun ==> old(sent) <= sent && Reaches(t, root, sent[|old(sent)|..], SIGCONT)
      ensures forall w, tool | Observed(w, t, root, tool) :: !overrun && ReachesTheTree(w, root, sent[|old(sent)|..], SIGCONT)
    {
      overrun := SignalRecursively(root, SIGCONT, t);
    }
  }

  ghost predicate IsSignalled(kills: seq<Kill>, p: int) {
    exists k :: 0 <= k < |kills| && kills[k].processId == p
  }

  /** The process has a row that properly descends from the root. */
  ghost predicate IsBelow(t: Table, root: int, p: int) {
    exists r: ProcessInfo :: r.processId == p && IsProperDescendant(t, root, r)
  }

  /** These are one signal for the root, first, and one for each of its proper descendants, and nothing else. */
  ghost predicate Reaches(t: Table, root: int, kills: seq<Kill>, signal: Signal) {
    && kills != [] && kills[0].processId == root
    && (forall k :: 0 <= k < |kills| ==> kills[k].signal == signal)
    && (forall j, k :: 0 <= j < k < |kills| ==> kills[j].processId != kills[k].processId)
    && (forall p :: IsSignalled(kills, p) <==> p == root || IsBelow(t, root, p))
  }

  lemma ListedAreReached(t: Table, root: int, rows: seq<ProcessInfo>, signal: Signal)
    requires ValidTable(t) && Lists(t, root, rows)
    ensures Reaches(t, root, [Kill(root, signal)] + KillsOf(rows, signal), signal)
  {
    hide Lists, ValidTable, IsProperDescendant;
    ListsEveryDescendantOnce(t, root, rows);
    var kills := [Kill(root, signal)] + KillsOf(rows, signal);
    assert |kills| == |rows| + 1 && kills[0] == Kill(root, signal);
    forall k | 1 <= k < |kills| ensures kills[k] == Kill(rows[k - 1].processId, signal) && rows[k - 1] in rows {
      assert kills[k] == KillsOf(rows, signal)[k - 1];
    }
    forall p ensures IsSignalled(kills, p) <==> p == root || IsBelow(t, root, p) {
      if r: ProcessInfo :| r.processId == p && IsProperDescendant(t, root, r) {
        assert r in rows;
        var k :| 0 <= k < |rows| && rows[k] == r;
        assert kills[k + 1].processId == p;
      }
      if k :| 0 <= k < |kills| && kills[k].processId == p {
        if k > 0 { assert rows[k - 1].processId == p && IsProperDescendant(t, root, rows[k - 1]); }
      }
      if p == root { assert kills[0].processId == p; }
    }
  }

  /** On an unchanged tree pause and resume signal the same processes in the same order, each of them once. */
  lemma PauseAndResumeSignalTheSame(t: Table, root: int, paused: seq<ProcessInfo>, resumed: seq<ProcessInfo>)
    requires ValidTable(t) && Lists(t, root, paused) && Lists(t, root, resumed)
    ensures paused == resumed
    ensures forall a, b :: 0 <= a < b < |paused| ==> paused[a].processId != paused[b].processId
    ensures forall a :: 0 <= a < |paused| ==> paused[a].processId != root
  {
    ListingIsUnique(t, root, paused, resumed);
    ListsEveryDescendantOnce(t, root, paused);
  }

  // ---------- The processes of the machine ----------

  /** The parent and the start time of every process alive, and those stopped by the tool. */
  datatype World = World(parent: map<int, int>, started: map<int, nat>, stopped: set<int>)

  ghost predicate ValidWorld(w: World) {
    && w.parent.Keys == w.started.Keys && w.stopped <= w.parent.Keys
    && (forall p :: p in w.parent ==> 0 < p)
    && (forall p :: p in w.parent && w.parent[p] in w.parent ==> w.started[w.parent[p]] < w.started[p])
  }

  /** The chain of parents leads from p to the root. */
  ghost predicate Under(w: World, root: int, p: int)
    requires ValidWorld(w)
    decreases if p in w.started then w.started[p] else 0
  {
    p == root || (p in w.parent && w.parent[p] in w.parent && Under(w, root, w.parent[p]))
  }

  /** The root and everything below it. */
  ghost predicate InTree(w: World, root: int, p: int)
    requires ValidWorld(w)
  {
    p in w.parent && Under(w, root, p)
  }

  /** What reading /proc gives: a row for every process with a parent. */
  ghost predicate TableOf(w: World, t: Table) {
    && ValidTable(t)
    && (forall r :: r in t <==> r.processId in w.parent && r.parentProcessId == w.parent[r.processId] && r.parentProcessId != 0)
  }

  lemma {:induction false} RowsBelowStartLater(w: World, t: Table, root: int, i: nat, d: nat)
    requires ValidWorld(w) && TableOf(w, t) && root in w.parent
    requires i < |t| && AtDepth(t, root, i, d)
    ensures InTree(w, root, t[i].processId) && w.started[root] < w.started[t[i].processId]
    decreases d
  {
    assert t[i] in t;
    if d > 1 {
      var j: nat :| j < |t| && t[j].processId == t[i].parentProcessId && AtDepth(t, root, j, d - 1);
      RowsBelowStartLater(w, t, root, j, d - 1);
    }
  }

  lemma {:induction false} TreeMembersHaveRows(w: World, t: Table, root: int, p: int) returns (i: nat, d: nat)
    requires ValidWorld(w) && TableOf(w, t) && InTree(w, root, p) && p != root
    ensures i < |t| && t[i].processId == p && AtDepth(t, root, i, d)
    decreases w.started[p]
  {
    var q := w.parent[p];
    assert ProcessInfo(p, q) in t;
    i :| 0 <= i < |t| && t[i] == ProcessInfo(p, q);
    d := 1;
    if q != root {
      var j, e := TreeMembersHaveRows(w, t, root, q);
      d := e + 1;
      assert t[j].processId == t[i].parentProcessId && AtDepth(t, root, j, d - 1) by { assert e >= 1; }
    }
  }

  /** The listing of a snapshot is the tree without its root, and taking it never overruns the buffer while the tool itself is outside. */
  lemma ListingIsTheTree(w: World, t: Table, root: int, tool: int, rows: seq<ProcessInfo>)
    requires ValidWorld(w) && TableOf(w, t) && root in w.parent
    requires tool in w.parent && w.parent[tool] != 0 && !Under(w, root, tool)
    ensures !SelfAncestor(t, root) && !EveryRowDescends(t, root)
    ensures Lists(t, root, rows) ==> forall p :: p in IdsOf(rows) <==> InTree(w, root, p) && p != root
  {
    forall i: nat, d: nat | i < |t| && AtDepth(t, root, i, d)
      ensures InTree(w, root, t[i].processId) && w.started[root] < w.started[t[i].processId]
    {
      RowsBelowStartLater(w, t, root, i, d);
    }
    assert ProcessInfo(tool, w.parent[tool]) in t;
    var k :| 0 <= k < |t| && t[k] == ProcessInfo(tool, w.parent[tool]);
    assert !Descends(t, root, k);
    if Lists(t, root, rows) {
      ListsEveryDescendantOnce(t, root, rows);
      forall p ensures p in IdsOf(rows) <==> InTree(w, root, p) && p != root {
        if InTree(w, root, p) && p != root {
          var i, d := TreeMembersHaveRows(w, t, root, p);
          assert IsProperDescendant(t, root, t[i]);
          var k :| 0 <= k < |rows| && rows[k] == t[i];
          assert IdsOf(rows)[k] == p;
        }
        if p in IdsOf(rows) {
          var k :| 0 <= k < |rows| && rows[k].processId == p;
          assert IsProperDescendant(t, root, rows[k]);
        }
      }
    }
  }

  /** The table shows a world in which the root is alive and the tool is outside its tree. */
  ghost predicate Observed(w: World, t: Table, root: int, tool: int) {
    ValidWorld(w) && TableOf(w, t) && root in w.parent && tool in w.parent && w.parent[tool] != 0 && !Under(w, root, tool)
  }

  lemma ObservedTablesNeverOverrun(w: World, t: Table, root: int, tool: int)
    requires Observed(w, t, root, tool)
    ensures !SelfAncestor(t, root) && !EveryRowDescends(t, root)
  {
    ListingIsTheTree(w, t, root, tool, []);
  }

  /** The processes signalled are exactly those of the tree, each once and with this signal, and the root is the first. */
  ghost predicate ReachesTheTree(w: World, root: int, kills: seq<Kill>, signal: Signal) {
    && ValidWorld(w) && kills != [] && kills[0].processId == root
    && (forall k :: 0 <= k < |kills| ==> kills[k].signal == signal)
    && (forall j, k :: 0 <= j < k < |kills| ==> kills[j].processId != kills[k].processId)
    && (forall p :: IsSignalled(kills, p) <==> InTree(w, root, p))
  }

  lemma ReachedIsTheTree(w: World, t: Table, root: int, tool: int, kills: seq<Kill>, signal: Signal)
    requires Observed(w, t, root, tool) && Reaches(t, root, kills, signal)
    ensures ReachesTheTree(w, root, kills, signal)
  {
    forall p ensures p == root || IsBelow(t, root, p) <==> InTree(w, root, p) {
      if r: ProcessInfo :| r.processId == p && IsProperDescendant(t, root, r) {
        DescendantsAreInTheTree(w, t, root, r);
      }
      if InTree(w, root, p) && p != root {
        var i, d := TreeMembersHaveRows(w, t, root, p);
        assert IsProperDescendant(t, root, t[i]);
      }
    }
  }

  lemma DescendantsAreInTheTree(w: World, t: Table, root: int, r: ProcessInfo)
    requires ValidWorld(w) && TableOf(w, t) && root in w.parent && IsProperDescendant(t, root, r)
    ensures InTree(w, root, r.processId)
  {
    var i: nat :| i < |t| && t[i] == r && Descends(t, root, i);
    var d: nat :| AtDepth(t, root, i, d);
    RowsBelowStartLater(w, t, root, i, d);
  }

  /** The world after these signals have reached their processes. */
  function Delivered(w: World, kills: seq<Kill>): World {
    if kills == [] then w
    else
      var before, kill := Delivered(w, kills[..|kills| - 1]), kills[|kills| - 1];
      before.(stopped := if kill.signal == SIGCONT then before.stopped - {kill.processId} else before.stopped + {kill.processId})
  }

  lemma {:induction false} DeliveredOneByOne(w: World, kills: seq<Kill>, signal: Signal, p: int)
    requires forall k :: 0 <= k < |kills| ==> kills[k].signal == signal
    ensures p in Delivered(w, kills).stopped <==>
      if signal == SIGCONT then p in w.stopped && !IsSignalled(kills, p) else p in w.stopped || IsSignalled(kills, p)
  {
    if kills != [] {
      var last := |kills| - 1;
      DeliveredOneByOne(w, kills[..last], signal, p);
      assert IsSignalled(kills, p) <==> IsSignalled(kills[..last], p) || kills[last].processId == p by {
        if k :| 0 <= k < last && kills[k].processId == p { assert kills[..last][k].processId == p; }
        if k :| 0 <= k < last && kills[..last][k].processId == p { assert kills[k].processId == p; }
      }
    }
  }

  /** The signals of a pause stop the whole tree and those of a resume continue it; nobody else is touched. */
  lemma TheSignalsReachTheTree(w: World, root: int, kills: seq<Kill>, signal: Signal)
    requires ReachesTheTree(w, root, kills, signal)
    ensures forall p :: p in Delivered(w, kills).stopped <==>
      if signal == SIGCONT then p in w.stopped && !InTree(w, root, p) else p in w.stopped || InTree(w, root, p)
  {
    forall p ensures p in Delivered(w, kills).stopped <==>
      if signal == SIGCONT then p in w.stopped && !IsSignalled(kills, p) else p in w.stopped || IsSignalled(kills, p)
    {
      DeliveredOneByOne(w, kills, signal, p);
    }
  }

  ghost function IdsOf(rows: seq<ProcessInfo>): seq<int> {
    seq(|rows|, k requires 0 <= k < |rows| => rows[k].processId)
  }

  // ---------- Operations while the tree changes ----------

  datatype Operation = PauseTree | ResumeTree

  /** Between operations, after the root has been signalled, or with the descendants still to be signalled. */
  datatype Phase = Resting | RootSignalled(op: Operation) | Walking(op: Operation, pending: seq<int>)

  /** The machine, the tool's operation in progress, and the operations completed. */
  datatype System = System(w: World, phase: Phase, completed: seq<Operation>)

  datatype Event =
    | Begin(op: Operation)                       // the root is signalled
    | Snapshot(t: Table, rows: seq<ProcessInfo>)
    | SignalNext                                 // the next descendant is signalled
    | Finish
    | Fork(parent: int, child: int, time: nat)
    | Exit(process: int)

  function Signalled(w: World, op: Operation, p: int): World {
    w.(stopped := if op.PauseTree? then w.stopped + {p} else w.stopped - {p})
  }

  function Forked(w: World, parent: int, child: int, time: nat): World {
    w.(parent := w.parent[child := parent], started := w.started[child := time])
  }

  function Exited(w: World, p: int): World {
    World(w.parent - {p}, w.started - {p}, w.stopped - {p})
  }

  /**
    Signals reach their process; processes fork, unless stopped, and exit after
    their children, but not between being listed and being signalled. The root
    and the tool stay.
   */
  ghost predicate Next(root: int, tool: int, s: System, e: Event, n: System) {
    match e
    case Begin(op) => s.phase.Resting? && n == System(Signalled(s.w, op, root), RootSignalled(op), s.completed)
    case Snapshot(t, rows) =>
      s.phase.RootSignalled? && TableOf(s.w, t) && Lists(t, root, rows)
      && n == s.(phase := Walking(s.phase.op, IdsOf(rows)))
    case SignalNext =>
      s.phase.Walking? && s.phase.pending != []
      && n == System(Signalled(s.w, s.phase.op, s.phase.pending[0]), Walking(s.phase.op, s.phase.pending[1..]), s.completed)
    case Finish =>
      s.phase.Walking? && s.phase.pending == [] && n == System(s.w, Resting, s.completed + [s.phase.op])
    case Fork(parent, child, time) =>
      parent in s.w.parent && parent !in s.w.stopped && parent != tool && child !in s.w.parent && 0 < child
      && parent in s.w.started && s.w.started[parent] < time && (forall p :: p in s.w.parent ==> s.w.parent[p] != child)
      && n == s.(w := Forked(s.w, parent, child, time))
    case Exit(p) =>
      p in s.w.parent && p != root && p != tool && (forall q :: q in s.w.parent ==> s.w.parent[q] != p)
      && (s.phase.Walking? ==> p !in s.phase.pending)
      && n == s.(w := Exited(s.w, p))
  }

  ghost predicate Initial(root: int, tool: int, s: System) {
    && ValidWorld(s.w) && s.w.stopped == {} && s.phase == Resting && s.completed == []
    && root in s.w.parent && tool in s.w.parent && s.w.parent[tool] != 0 && !Under(s.w, root, tool)
  }

  predicate PauseOutstanding(completed: seq<Operation>) {
    completed != [] && completed[|completed| - 1] == PauseTree
  }

  ghost predicate AllInTree(w: World, root: int, ids: seq<int>)
    requires ValidWorld(w)
  {
    forall p :: p in ids ==> InTree(w, root, p)
  }

  ghost predicate Invariant(root: int, tool: int, s: System) {
    && ValidWorld(s.w) && root in s.w.parent && tool in s.w.parent && s.w.parent[tool] != 0 && !Under(s.w, root, tool)
    && (forall p :: p in s.w.stopped ==> Under(s.w, root, p))
    && match s.phase
       case Resting => PauseOutstanding(s.completed) || s.w.stopped == {}
       case RootSignalled(op) => op.ResumeTree? ==> root !in s.w.stopped
       case Walking(op, pending) =>
         && AllInTree(s.w, root, pending)
         && (op.ResumeTree? ==> forall p :: p in s.w.stopped ==> p in pending)
  }

  lemma {:induction false} ForkKeepsTree(w: World, root: int, parent: int, child: int, time: nat, p: int)
    requires ValidWorld(w) && ValidWorld(Forked(w, parent, child, time)) && child !in w.parent && p in w.parent
    requires forall q :: q in w.parent ==> w.parent[q] != child
    ensures Under(Forked(w, parent, child, time), root, p) <==> Under(w, root, p)
    decreases w.started[p]
  {
    if p != root && w.parent[p] in w.parent {
      ForkKeepsTree(w, root, parent, child, time, w.parent[p]);
    }
  }

  lemma {:induction false} ExitKeepsTree(w: World, root: int, x: int, p: int)
    requires ValidWorld(w) && ValidWorld(Exited(w, x)) && p in w.parent && p != x && x != root
    requires forall q :: q in w.parent ==> w.parent[q] != x
    ensures Under(Exited(w, x), root, p) <==> Under(w, root, p)
    decreases w.started[p]
  {
    if p != root && w.parent[p] in w.parent {
      ExitKeepsTree(w, root, x, w.parent[p]);
    }
  }

  lemma {:induction false} StoppingKeepsTree(w: World, root: int, stopped: set<int>, p: int)
    requires ValidWorld(w) && ValidWorld(w.(stopped := stopped))
    ensures Under(w.(stopped := stopped), root, p) <==> Under(w, root, p)
    decreases if p in w.started then w.started[p] else 0
  {
    if p != root && p in w.parent && w.parent[p] in w.parent {
      StoppingKeepsTree(w, root, stopped, w.parent[p]);
    }
  }

  lemma BeginKeepsInvariant(root: int, tool: int, s: System, op: Operation, n: System)
    requires Invariant(root, tool, s) && Next(root, tool, s, Begin(op), n)
    ensures Invariant(root, tool, n)
  {
    forall p ensures Under(n.w, root, p) <==> Under(s.w, root, p) {
      StoppingKeepsTree(s.w, root, n.w.stopped, p);
    }
  }

  lemma SnapshotKeepsInvariant(root: int, tool: int, s: System, t: Table, rows: seq<ProcessInfo>, n: System)
    requires Invariant(root, tool, s) && Next(root, tool, s, Snapshot(t, rows), n)
    ensures Invariant(root, tool, n)
  {
    ListingIsTheTree(s.w, t, root, tool, rows);
    var ids := IdsOf(rows);
    assert n == System(s.w, Walking(s.phase.op, ids), s.completed);
    assert AllInTree(s.w, root, ids);
    assert forall p :: p in s.w.stopped ==> InTree(s.w, root, p);
  }

  lemma SignalKeepsInvariant(root: int, tool: int, s: System, n: System)
    requires Invariant(root, tool, s) && Next(root, tool, s, SignalNext, n)
    ensures Invariant(root, tool, n)
  {
    var pending := s.phase.pending;
    assert pending[0] in pending;
    forall p ensures Under(n.w, root, p) <==> Under(s.w, root, p) {
      StoppingKeepsTree(s.w, root, n.w.stopped, p);
    }
    assert pending == [pending[0]] + pending[1..];
    forall p | p in pending[1..] ensures InTree(n.w, root, p) {
      assert p in pending;
    }
  }

  lemma ForkKeepsInvariant(root: int, tool: int, s: System, parent: int, child: int, time: nat, n: System)
    requires Invariant(root, tool, s) && Next(root, tool, s, Fork(parent, child, time), n)
    ensures Invariant(root, tool, n)
  {
    forall p | p in s.w.parent ensures Under(n.w, root, p) <==> Under(s.w, root, p) {
      ForkKeepsTree(s.w, root, parent, child, time, p);
    }
  }

  lemma ExitKeepsInvariant(root: int, tool: int, s: System, x: int, n: System)
    requires Invariant(root, tool, s) && Next(root, tool, s, Exit(x), n)
    ensures Invariant(root, tool, n)
  {
    forall p | p in n.w.parent ensures Under(n.w, root, p) <==> Under(s.w, root, p) {
      ExitKeepsTree(s.w, root, x, p);
    }
  }

  lemma NextKeepsInvariant(root: int, tool: int, s: System, e: Event, n: System)
    requires Invariant(root, tool, s) && Next(root, tool, s, e, n)
    ensures Invariant(root, tool, n)
  {
    hide Invariant;
    match e
    case Begin(op) => BeginKeepsInvariant(root, tool, s, op, n);
    case Snapshot(t, rows) => SnapshotKeepsInvariant(root, tool, s, t, rows, n);
    case SignalNext => SignalKeepsInvariant(root, tool, s, n);
    case Finish => FinishKeepsInvariant(root, tool, s, n);
    case Fork(parent, child, time) => ForkKeepsInvariant(root, tool, s, parent, child, time, n);
    case Exit(x) => ExitKeepsInvariant(root, tool, s, x, n);
  }

  lemma FinishKeepsInvariant(root: int, tool: int, s: System, n: System)
    requires Invariant(root, tool, s) && Next(root, tool, s, Finish, n)
    ensures Invariant(root, tool, n)
  {
    var pending, stopped := s.phase.pending, s.w.stopped;
    forall p | s.phase.op.ResumeTree? ensures p !in stopped {
      assert p in stopped ==> p in pending;
    }
  }

  // ---------- Whole runs ----------

  ghost predicate IsRun(root: int, tool: int, run: seq<System>, events: seq<Event>) {
    && |run| == |events| + 1 && Initial(root, tool, run[0])
    && forall i: nat | i < |events| :: Next(root, tool, run[i], events[i], run[i + 1])
  }

  lemma {:induction false} RunsKeepInvariant(root: int, tool: int, run: seq<System>, events: seq<Event>, i: nat)
    requires IsRun(root, tool, run, events) && i < |run|
    ensures Invariant(root, tool, run[i])
    decreases i
  {
    if i > 0 {
      hide Invariant;
      RunsKeepInvariant(root, tool, run, events, i - 1);
      NextKeepsInvariant(root, tool, run[i - 1], events[i - 1], run[i]);
    } else {
      assert run[0].phase == Resting;
    }
  }

  /** At every moment of a run what the tool has stopped is the root or below it. */
  lemma StoppedStaysInTheTree(root: int, tool: int, run: seq<System>, events: seq<Event>, i: nat, p: int)
    requires IsRun(root, tool, run, events) && i < |run| && p in run[i].w.stopped
    ensures ValidWorld(run[i].w) && InTree(run[i].w, root, p)
  {
    RunsKeepInvariant(root, tool, run, events, i);
  }

  /** After a completed resume nothing is left stopped, whatever was forked or exited in between. */
  lemma ResumeLeavesNothingStopped(root: int, tool: int, run: seq<System>, events: seq<Event>, i: nat)
    requires IsRun(root, tool, run, events) && i < |run|
    requires run[i].phase.Resting? && !PauseOutstanding(run[i].completed)
    ensures run[i].w.stopped == {}
  {
    RunsKeepInvariant(root, tool, run, events, i);
  }

  /** The buffer never overruns in a run: the tool is a row that does not descend from the root. */
  lemma SnapshotsNeverOverrun(root: int, tool: int, run: seq<System>, events: seq<Event>, i: nat, t: Table)
    requires IsRun(root, tool, run, events) && i < |run| && TableOf(run[i].w, t)
    ensures !SelfAncestor(t, root) && !EveryRowDescends(t, root)
  {
    RunsKeepInvariant(root, tool, run, events, i);
    ListingIsTheTree(run[i].w, t, root, tool, []);
  }

  // ---------- A quiet machine ----------

  /** The processes stopped after all of a list has been signalled. */
  function AfterSignals(w: World, op: Operation, pending: seq<int>): World
    decreases |pending|
  {
    if pending == [] then w else AfterSignals(Signalled(w, op, pending[0]), op, pending[1..])
  }

  lemma {:induction false} StoppedAfterSignals(w: World, op: Operation, pending: seq<int>)
    ensures var v := AfterSignals(w, op, pending);
      && v.parent == w.parent && v.started == w.started
      && forall p :: p in v.stopped <==> if p in pending then op.PauseTree? else p in w.stopped
    decreases |pending|
  {
    if pending != [] {
      StoppedAfterSignals(Signalled(w, op, pending[0]), op, pending[1..]);
      assert pending == [pending[0]] + pending[1..];
    }
  }

  /** If no process forks or exits meanwhile, a pause stops the whole tree and nothing else. */
  lemma QuietPauseStopsTheTree(root: int, tool: int, s: System, t: Table, rows: seq<ProcessInfo>)
    requires Invariant(root, tool, s) && s.phase.Resting? && TableOf(s.w, t) && Lists(t, root, rows)
    ensures var w := AfterSignals(Signalled(s.w, PauseTree, root), PauseTree, IdsOf(rows));
      forall p :: p in w.stopped <==> InTree(s.w, root, p)
  {
    var first := Signalled(s.w, PauseTree, root);
    StoppedAfterSignals(first, PauseTree, IdsOf(rows));
    ListingIsTheTree(s.w, t, root, tool, rows);
  }

  // ---------- When the tool has ended while the tree is stopped ----------

  /** The process that takes over the children of those that exit. */
  const INIT := 1

  /** Without the tool processes fork and exit, the root among them; nobody is continued. */
  datatype LaterEvent = LaterFork(parent: int, child: int, time: nat) | LaterExit(process: int)

  /** A process is gone and its children have a new parent. */
  function Orphaned(w: World, x: int): World {
    World(map p | p in w.parent && p != x :: if w.parent[p] == x then INIT else w.parent[p], w.started - {x}, w.stopped - {x})
  }

  function Later(w: World, events: seq<LaterEvent>): World {
    if events == [] then w
    else
      var before := Later(w, events[..|events| - 1]);
      match events[|events| - 1]
      case LaterFork(parent, child, time) => Forked(before, parent, child, time)
      case LaterExit(x) => Orphaned(before, x)
  }

  lemma {:induction false} StoppedUntilItExits(w: World, events: seq<LaterEvent>, p: int)
    ensures p in Later(w, events).stopped <==> p in w.stopped && LaterExit(p) !in events
  {
    if events != [] {
      var last := |events| - 1;
      StoppedUntilItExits(w, events[..last], p);
      assert events == events[..last] + [events[last]];
    }
  }

  /** If the tool ends after a pause, every process of the tree stays stopped for as long as it exists, also after the root has gone. */
  lemma TheTreeIsStranded(root: int, tool: int, s: System, t: Table, rows: seq<ProcessInfo>, events: seq<LaterEvent>)
    requires Invariant(root, tool, s) && s.phase.Resting? && TableOf(s.w, t) && Lists(t, root, rows)
    ensures var w := Later(AfterSignals(Signalled(s.w, PauseTree, root), PauseTree, IdsOf(rows)), events);
      forall p :: p in w.stopped <==> InTree(s.w, root, p) && LaterExit(p) !in events
  {
    hide Invariant, TableOf, Lists, InTree, AfterSignals;
    var w := AfterSignals(Signalled(s.w, PauseTree, root), PauseTree, IdsOf(rows));
    QuietPauseStopsTheTree(root, tool, s, t, rows);
    forall p ensures p in Later(w, events).stopped <==> p in w.stopped && LaterExit(p) !in events {
      StoppedUntilItExits(w, events, p);
    }
  }
}
