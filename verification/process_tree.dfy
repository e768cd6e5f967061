/** The breadth-first search that lists every descendant of a process. */
module ProcessTree {

  datatype ProcessInfo = ProcessInfo(processId: int, parentProcessId: int)

  type Table = seq<ProcessInfo>

  /** Every row carries its own positive process id, as the entries of /proc do. */
  ghost predicate ValidTable(t: Table) {
    && (forall i :: 0 <= i < |t| ==> 0 < t[i].processId)
    && (forall i, j :: 0 <= i < j < |t| ==> t[i].processId != t[j].processId)
  }

  /** Row i is reached from root by exactly d parent links. */
  ghost predicate AtDepth(t: Table, root: int, i: nat, d: nat)
    requires i < |t|
    decreases d
  {
    if d <= 1 then d == 1 && t[i].parentProcessId == root
    else exists j: nat | j < |t| :: t[j].processId == t[i].parentProcessId && AtDepth(t, root, j, d - 1)
  }

  ghost predicate Descends(t: Table, root: int, i: nat)
    requires i < |t|
  {
    exists d: nat :: AtDepth(t, root, i, d)
  }

  ghost predicate SelfAncestor(t: Table, root: int) {
    exists i: nat | i < |t| :: t[i].processId == root && Descends(t, root, i)
  }

  ghost predicate EveryRowDescends(t: Table, root: int) {
    forall i: nat | i < |t| :: Descends(t, root, i)
  }

  // ---------- What a breadth-first queue is ----------

  /** A queue entry: the row, and the queue position of the parent whose scan found it (-1 is the root). */
  datatype Slot = Slot(row: nat, from: int)

  ghost predicate Before(x: Slot, y: Slot) {
    x.from < y.from || (x.from == y.from && x.row < y.row)
  }

  ghost predicate InTable(t: Table, q: seq<Slot>) {
    forall k :: 0 <= k < |q| ==> q[k].row < |t| && -1 <= q[k].from < k
  }

  ghost function Key(t: Table, root: int, q: seq<Slot>, p: int): int
    requires InTable(t, q) && -1 <= p < |q|
  {
    if p == -1 then root else t[q[p].row].processId
  }

  /** Entry k is a child of the entry that found it. */
  ghost predicate Linked(t: Table, root: int, q: seq<Slot>, k: nat)
    requires InTable(t, q) && k < |q|
  {
    t[q[k].row].parentProcessId == Key(t, root, q, q[k].from)
  }

  /** Every entry was found below the entry it names, and entries stand in scan order. */
  ghost predicate Sound(t: Table, root: int, q: seq<Slot>) {
    && InTable(t, q)
    && (forall k: nat | k < |q| :: Linked(t, root, q, k))
    && (forall a, b :: 0 <= a < b < |q| ==> Before(q[a], q[b]))
  }

  /** Every child of entry p among the first `upto` rows has been queued by p's scan. */
  ghost predicate Scanned(t: Table, root: int, q: seq<Slot>, p: int, upto: nat)
    requires InTable(t, q) && -1 <= p < |q| && upto <= |t|
  {
    forall i: nat | i < upto :: t[i].parentProcessId == Key(t, root, q, p) ==> Slot(i, p) in q
  }

  ghost predicate BreadthFirst(t: Table, root: int, q: seq<Slot>) {
    Sound(t, root, q) && forall p | -1 <= p < |q| :: Scanned(t, root, q, p, |t|)
  }

  ghost function Rows(t: Table, q: seq<Slot>): (r: seq<ProcessInfo>)
    requires InTable(t, q)
  {
    seq(|q|, k requires 0 <= k < |q| => t[q[k].row])
  }

  /** The rows are the breadth-first listing of everything below root. */
  ghost predicate Lists(t: Table, root: int, rows: seq<ProcessInfo>) {
    exists q :: BreadthFirst(t, root, q) && rows == Rows(t, q)
  }

  // ---------- Depth ----------

  ghost function DepthOf(t: Table, q: seq<Slot>, k: nat): nat
    requires InTable(t, q) && k < |q|
    decreases k
  {
    if q[k].from == -1 then 1 else 1 + DepthOf(t, q, q[k].from)
  }

  lemma {:induction false} QueuedRowsDescend(t: Table, root: int, q: seq<Slot>, k: nat)
    requires Sound(t, root, q) && k < |q|
    ensures AtDepth(t, root, q[k].row, DepthOf(t, q, k))
    decreases k
  {
    assert Linked(t, root, q, k);
    if q[k].from != -1 {
      QueuedRowsDescend(t, root, q, q[k].from);
      assert t[q[q[k].from].row].processId == t[q[k].row].parentProcessId;
      assert DepthOf(t, q, q[k].from) >= 1;
    }
  }

  /** Positions later in the queue are never shallower. */
  lemma {:induction false} DepthsNeverDecrease(t: Table, root: int, q: seq<Slot>, a: nat, b: nat)
    requires Sound(t, root, q) && a <= b < |q|
    ensures DepthOf(t, q, a) <= DepthOf(t, q, b)
    decreases b
  {
    if a < b {
      assert Before(q[a], q[b]);
      if q[a].from != -1 {
        DepthsNeverDecrease(t, root, q, q[a].from, q[b].from);
      }
    }
  }

  /** A row d links below the root is queued, and not before position d - 1. */
  lemma {:induction false} DescendantsAreQueued(t: Table, root: int, q: seq<Slot>, i: nat, d: nat) returns (k: nat)
    requires BreadthFirst(t, root, q) && i < |t| && AtDepth(t, root, i, d)
    ensures k < |q| && q[k].row == i && d <= k + 1
    decreases d
  {
    var p: int := -1;
    if d > 1 {
      var j: nat :| j < |t| && t[j].processId == t[i].parentProcessId && AtDepth(t, root, j, d - 1);
      p := DescendantsAreQueued(t, root, q, j, d - 1);
    }
    assert Scanned(t, root, q, p, |t|);
    assert Slot(i, p) in q;
    k :| 0 <= k < |q| && q[k] == Slot(i, p);
  }

  // ---------- No row is listed twice ----------

  lemma {:induction false} NoRowTwice(t: Table, root: int, q: seq<Slot>, a: nat, b: nat)
    requires ValidTable(t) && Sound(t, root, q) && !SelfAncestor(t, root)
    requires a < b < |q|
    ensures q[a].row != q[b].row
    decreases b
  {
    if q[a].row == q[b].row {
      assert Before(q[a], q[b]) && Linked(t, root, q, a) && Linked(t, root, q, b);
      var p := q[b].from;
      assert Key(t, root, q, q[a].from) == Key(t, root, q, p);
      QueuedRowsDescend(t, root, q, p);
      if q[a].from == -1 {
        assert false;
      } else {
        NoRowTwice(t, root, q, q[a].from, p);
      }
    }
  }

  /** A queue without repetitions is no longer than the table, and names every row if it is as long. */
  lemma {:induction false} Pigeonhole(rows: seq<nat>, n: nat)
    requires forall k :: 0 <= k < |rows| ==> rows[k] < n
    requires forall a, b :: 0 <= a < b < |rows| ==> rows[a] != rows[b]
    ensures |rows| <= n
    ensures |rows| == n ==> forall i: nat | i < n :: i in rows
    decreases n
  {
    assert |rows| > 0 ==> rows[0] < n;
    if n > 0 {
      if n - 1 in rows {
        var k :| 0 <= k < |rows| && rows[k] == n - 1;
        var rest := rows[..k] + rows[k + 1..];
        Pigeonhole(rest, n - 1);
        forall i: nat | |rows| == n && i < n ensures i in rows {
          if i != n - 1 { assert i in rest; }
        }
      } else {
        Pigeonhole(rows, n - 1);
      }
    }
  }

  lemma {:induction false} CoveringIsLong(rows: seq<nat>, n: nat)
    requires forall i: nat | i < n :: i in rows
    ensures n <= |rows|
    decreases n
  {
    if n > 0 {
      assert n - 1 in rows;
      var k :| 0 <= k < |rows| && rows[k] == n - 1;
      var rest := rows[..k] + rows[k + 1..];
      forall i: nat | i < n - 1 ensures i in rest {
        assert i in rows;
        assert rows == rows[..k] + [rows[k]] + rows[k + 1..];
      }
      CoveringIsLong(rest, n - 1);
    }
  }

  ghost function RowNumbers(q: seq<Slot>): seq<nat> {
    seq(|q|, k requires 0 <= k < |q| => q[k].row)
  }

  /** Without a cycle through the root, the queue fills the table only when every row descends. */
  lemma AFullQueueIsEverything(t: Table, root: int, q: seq<Slot>)
    requires ValidTable(t) && Sound(t, root, q) && !SelfAncestor(t, root)
    ensures |q| <= |t|
    ensures |q| == |t| ==> EveryRowDescends(t, root)
  {
    var rows := RowNumbers(q);
    forall a, b | 0 <= a < b < |rows| ensures rows[a] != rows[b] {
      NoRowTwice(t, root, q, a, b);
    }
    Pigeonhole(rows, |t|);
    forall i: nat | |q| == |t| && i < |t| ensures Descends(t, root, i) {
      assert i in rows;
      var k :| 0 <= k < |rows| && rows[k] == i;
      QueuedRowsDescend(t, root, q, k);
    }
  }

  /** A finished queue shorter than the table leaves some row that does not descend. */
  lemma AShortQueueMissesARow(t: Table, root: int, q: seq<Slot>)
    requires BreadthFirst(t, root, q) && |q| < |t|
    ensures !EveryRowDescends(t, root)
  {
    if EveryRowDescends(t, root) {
      forall i: nat | i < |t| ensures i in RowNumbers(q) {
        assert Descends(t, root, i);
        var d: nat :| AtDepth(t, root, i, d);
        var k := DescendantsAreQueued(t, root, q, i, d);
        assert RowNumbers(q)[k] == i;
      }
      CoveringIsLong(RowNumbers(q), |t|);
    }
  }

  // ---------- A cycle can only run through the root ----------

  /** Going once more round a cycle through the root adds its length to every depth. */
  lemma {:induction false} OnceMoreRound(t: Table, root: int, z: nat, c: nat, i: nat, d: nat)
    requires z < |t| && t[z].processId == root && AtDepth(t, root, z, c)
    requires i < |t| && AtDepth(t, root, i, d)
    ensures AtDepth(t, root, i, d + c)
    decreases d
  {
    if d > 1 {
      var j: nat :| j < |t| && t[j].processId == t[i].parentProcessId && AtDepth(t, root, j, d - 1);
      OnceMoreRound(t, root, z, c, j, d - 1);
      assert AtDepth(t, root, j, d + c - 1);
    }
  }

  lemma {:induction false} CyclesGoArbitrarilyDeep(t: Table, root: int, z: nat, c: nat, least: nat) returns (d: nat)
    requires z < |t| && t[z].processId == root && AtDepth(t, root, z, c)
    ensures least <= d && AtDepth(t, root, z, d)
    decreases least
  {
    if least <= c {
      d := c;
    } else {
      d := CyclesGoArbitrarilyDeep(t, root, z, c, least - 1);
      OnceMoreRound(t, root, z, c, z, d);
      d := d + c;
    }
  }

  /** No finished queue exists when the root is its own ancestor. */
  lemma ACycleNeverFinishes(t: Table, root: int, q: seq<Slot>)
    requires SelfAncestor(t, root)
    ensures !BreadthFirst(t, root, q)
  {
    if BreadthFirst(t, root, q) {
      var z: nat :| z < |t| && t[z].processId == root && Descends(t, root, z);
      var c: nat :| AtDepth(t, root, z, c);
      var d := CyclesGoArbitrarilyDeep(t, root, z, c, |q| + 1);
      var k := DescendantsAreQueued(t, root, q, z, d);
    }
  }

  // ---------- What a listing promises ----------

  ghost predicate IsProperDescendant(t: Table, root: int, r: ProcessInfo) {
    exists i: nat | i < |t| :: t[i] == r && Descends(t, root, i)
  }

  /** The listing holds exactly the descendants, each of them once, and never the root itself. */
  lemma ListsEveryDescendantOnce(t: Table, root: int, rows: seq<ProcessInfo>)
    requires ValidTable(t) && Lists(t, root, rows)
    ensures forall r :: r in rows <==> IsProperDescendant(t, root, r)
    ensures forall a, b :: 0 <= a < b < |rows| ==> rows[a].processId != rows[b].processId
    ensures forall a :: 0 <= a < |rows| ==> rows[a].processId != root
  {
    var q: seq<Slot> :| BreadthFirst(t, root, q) && rows == Rows(t, q);
    if SelfAncestor(t, root) { ACycleNeverFinishes(t, root, q); }
    forall r ensures r in rows <==> IsProperDescendant(t, root, r) {
      if r in rows {
        var k :| 0 <= k < |q| && t[q[k].row] == r;
        QueuedRowsDescend(t, root, q, k);
      }
      if IsProperDescendant(t, root, r) {
        var i: nat :| i < |t| && t[i] == r && Descends(t, root, i);
        var d: nat :| AtDepth(t, root, i, d);
        var k := DescendantsAreQueued(t, root, q, i, d);
        assert rows[k] == r;
      }
    }
    forall a, b | 0 <= a < b < |rows| ensures rows[a].processId != rows[b].processId {
      NoRowTwice(t, root, q, a, b);
    }
    forall a | 0 <= a < |rows| ensures rows[a].processId != root {
      QueuedRowsDescend(t, root, q, a);
    }
  }

  /** Parents stand before their children. */
  lemma ListsParentsFirst(t: Table, root: int, rows: seq<ProcessInfo>)
    requires Lists(t, root, rows)
    ensures forall b :: 0 <= b < |rows| && rows[b].parentProcessId != root ==>
                          exists a :: 0 <= a < b && rows[a].processId == rows[b].parentProcessId
  {
    var q: seq<Slot> :| BreadthFirst(t, root, q) && rows == Rows(t, q);
    forall b | 0 <= b < |rows| && rows[b].parentProcessId != root
      ensures exists a :: 0 <= a < b && rows[a].processId == rows[b].parentProcessId
    {
      assert Linked(t, root, q, b);
      assert rows[q[b].from].processId == rows[b].parentProcessId;
    }
  }

  /** No row stands behind a deeper one. */
  lemma ListsByDepth(t: Table, root: int, rows: seq<ProcessInfo>, a: nat, b: nat, i: nat, j: nat, d: nat, e: nat)
    requires ValidTable(t) && Lists(t, root, rows)
    requires a <= b < |rows| && i < |t| && j < |t| && t[i] == rows[a] && t[j] == rows[b]
    requires AtDepth(t, root, i, d) && AtDepth(t, root, j, e)
    ensures d <= e
  {
    var q: seq<Slot> :| BreadthFirst(t, root, q) && rows == Rows(t, q);
    if SelfAncestor(t, root) { ACycleNeverFinishes(t, root, q); }
    QueuedRowsDescend(t, root, q, a);
    QueuedRowsDescend(t, root, q, b);
    DepthsNeverDecrease(t, root, q, a, b);
    DepthIsUnique(t, root, i, d, DepthOf(t, q, a));
    DepthIsUnique(t, root, j, e, DepthOf(t, q, b));
  }

  lemma {:induction false} DepthIsUnique(t: Table, root: int, i: nat, d: nat, e: nat)
    requires ValidTable(t) && !SelfAncestor(t, root)
    requires i < |t| && AtDepth(t, root, i, d) && AtDepth(t, root, i, e)
    ensures d == e
    decreases d
  {
    if d > 1 {
      var j: nat :| j < |t| && t[j].processId == t[i].parentProcessId && AtDepth(t, root, j, d - 1);
      if e > 1 {
        var k: nat :| k < |t| && t[k].processId == t[i].parentProcessId && AtDepth(t, root, k, e - 1);
        DepthIsUnique(t, root, j, d - 1, e - 1);
      }
    }
  }

  /** Two finished queues of one table agree entry by entry, so a table has at most one listing. */
  lemma {:induction false} QueuesAgree(t: Table, root: int, q: seq<Slot>, r: seq<Slot>, k: nat)
    requires BreadthFirst(t, root, q) && BreadthFirst(t, root, r)
    requires k <= |q| && k <= |r|
    ensures q[..k] == r[..k]
    decreases k
  {
    if k > 0 {
      QueuesAgree(t, root, q, r, k - 1);
      NextEntryIsLeast(t, root, q, r, k - 1);
      NextEntryIsLeast(t, root, r, q, k - 1);
    }
  }

  /** After a common prefix, no queue can hold an entry the other one skipped. */
  lemma NextEntryIsLeast(t: Table, root: int, q: seq<Slot>, r: seq<Slot>, k: nat)
    requires BreadthFirst(t, root, q) && BreadthFirst(t, root, r)
    requires k < |q| && k <= |r| && q[..k] == r[..k]
    ensures k < |r| && !Before(q[k], r[k])
  {
    var s := q[k];
    assert Linked(t, root, q, k);
    assert forall m :: 0 <= m < k ==> q[m] == r[m];
    assert Key(t, root, r, s.from) == Key(t, root, q, s.from);
    assert Scanned(t, root, r, s.from, |t|);
    assert s in r;
    var m :| 0 <= m < |r| && r[m] == s;
    if m > k {
      assert Before(r[k], r[m]);
    }
  }

  lemma ListingIsUnique(t: Table, root: int, rows: seq<ProcessInfo>, others: seq<ProcessInfo>)
    requires Lists(t, root, rows) && Lists(t, root, others)
    ensures rows == others
  {
    var q: seq<Slot> :| BreadthFirst(t, root, q) && rows == Rows(t, q);
    var r: seq<Slot> :| BreadthFirst(t, root, r) && others == Rows(t, r);
    if |q| < |r| {
      QueuesAgree(t, root, q, r, |q|);
      NextEntryIsLeast(t, root, r, q, |q|);
    } else if |r| < |q| {
      QueuesAgree(t, root, q, r, |r|);
      NextEntryIsLeast(t, root, q, r, |r|);
    } else {
      QueuesAgree(t, root, q, r, |q|);
      assert q == q[..|q|] == r[..|r|] == r;
    }
  }

  // ---------- The search itself ----------

  /** The rows before the first entry whose process id is 0. */
  function BeforeSentinel(slots: seq<ProcessInfo>): (rows: seq<ProcessInfo>)
    ensures rows <= slots && forall k :: 0 <= k < |rows| ==> rows[k].processId != 0
    ensures |rows| < |slots| ==> slots[|rows|].processId == 0
  {
    if slots == [] || slots[0].processId == 0 then []
    else [slots[0]] + BeforeSentinel(slots[1..])
  }

  lemma {:induction false} SentinelEnds(slots: seq<ProcessInfo>, n: nat)
    requires n < |slots| && slots[n].processId == 0
    requires forall k :: 0 <= k < n ==> slots[k].processId != 0
    ensures BeforeSentinel(slots) == slots[..n]
  {
    if n > 0 {
      SentinelEnds(slots[1..], n - 1);
    }
  }

  /**
    The search while it scans the table for children of queue entry p: the first
    |q| slots of the buffer hold the queued rows, earlier entries have been
    scanned completely, and p's own scan has passed the first `upto` rows.
   */
  ghost predicate Searching(t: Table, root: int, slots: seq<ProcessInfo>, q: seq<Slot>, p: int, upto: nat) {
    && Sound(t, root, q) && -1 <= p < |q| <= |slots| == |t| && upto <= |t|
    && slots[..|q|] == Rows(t, q)
    && (forall k :: 0 <= k < |q| ==> Before(q[k], Slot(upto, p)))
    && (forall o | -1 <= o < p :: Scanned(t, root, q, o, |t|))
    && Scanned(t, root, q, p, upto)
  }

  lemma SearchBegins(t: Table, root: int, slots: seq<ProcessInfo>)
    requires |slots| == |t|
    ensures Searching(t, root, slots, [], -1, 0)
  {
  }

  lemma RowIsPassedOver(t: Table, root: int, slots: seq<ProcessInfo>, q: seq<Slot>, p: int, upto: nat)
    requires Searching(t, root, slots, q, p, upto) && upto < |t|
    requires t[upto].parentProcessId != Key(t, root, q, p)
    ensures Searching(t, root, slots, q, p, upto + 1)
  {
  }

  lemma Enqueue(t: Table, root: int, slots: seq<ProcessInfo>, q: seq<Slot>, p: int, upto: nat)
    requires Searching(t, root, slots, q, p, upto) && upto < |t| && |q| < |t|
    requires t[upto].parentProcessId == Key(t, root, q, p)
    ensures Searching(t, root, slots[|q| := t[upto]], q + [Slot(upto, p)], p, upto + 1)
    ensures Key(t, root, q + [Slot(upto, p)], p) == Key(t, root, q, p)
  {
    var r := q + [Slot(upto, p)];
    forall o, n: nat | -1 <= o < |q| && n <= |t| && Scanned(t, root, q, o, n) ensures Scanned(t, root, r, o, n) {
      forall i: nat | i < n && t[i].parentProcessId == Key(t, root, r, o) ensures Slot(i, o) in r {
        assert Slot(i, o) in q;
      }
    }
    assert r[|q|] == Slot(upto, p);
    forall k: nat | k < |r| ensures Linked(t, root, r, k) {
      assert k < |q| ==> Linked(t, root, q, k);
    }
  }

  lemma NextEntry(t: Table, root: int, slots: seq<ProcessInfo>, q: seq<Slot>, p: int)
    requires Searching(t, root, slots, q, p, |t|)
    ensures p + 1 < |q| ==> Searching(t, root, slots, q, p + 1, 0)
    ensures p + 1 == |q| ==> BreadthFirst(t, root, q)
  {
  }

  lemma SearchOutcome(t: Table, root: int, q: seq<Slot>)
    requires ValidTable(t) && Sound(t, root, q) && |q| <= |t|
    requires |q| < |t| ==> BreadthFirst(t, root, q)
    ensures |q| == |t| <==> SelfAncestor(t, root) || EveryRowDescends(t, root)
  {
    if |q| < |t| {
      AShortQueueMissesARow(t, root, q);
      if SelfAncestor(t, root) { ACycleNeverFinishes(t, root, q); }
    } else if !SelfAncestor(t, root) {
      AFullQueueIsEverything(t, root, q);
    }
  }

  /** Two tables for which the array overruns: nothing but the root's child, and the root beside a process that is its own ancestor. */
  lemma TablesThatOverrun()
    ensures var alone := [ProcessInfo(2, 1)];
      ValidTable(alone) && EveryRowDescends(alone, 1) && !SelfAncestor(alone, 1)
    ensures var cycle := [ProcessInfo(1, 2), ProcessInfo(2, 1), ProcessInfo(3, 4)];
      ValidTable(cycle) && SelfAncestor(cycle, 1) && !EveryRowDescends(cycle, 1)
  {
    var alone := [ProcessInfo(2, 1)];
    assert AtDepth(alone, 1, 0, 1);
    var cycle := [ProcessInfo(1, 2), ProcessInfo(2, 1), ProcessInfo(3, 4)];
    assert AtDepth(cycle, 1, 1, 1) && AtDepth(cycle, 1, 0, 2);
    assert !Descends(cycle, 1, 2);
  }

  lemma ListingInBuffer(t: Table, root: int, slots: seq<ProcessInfo>, q: seq<Slot>)
    requires ValidTable(t) && BreadthFirst(t, root, q) && |q| < |slots|
    requires slots[..|q|] == Rows(t, q) && slots[|q|].processId == 0
    ensures Lists(t, root, BeforeSentinel(slots)) && |BeforeSentinel(slots)| < |slots|
  {
    forall k | 0 <= k < |q| ensures slots[k].processId != 0 {
      assert slots[k] == Rows(t, q)[k];
    }
    SentinelEnds(slots, |q|);
  }

  /**
    Stage 2 of the search. The buffer of descendants is also the work queue; an
    access past its end is reported as `overrun` and ends the search, because
    the program has no defined behaviour from there on. The buffer starts with
    arbitrary contents.
   */
  method GetChildProcesses(t: Table, root: int) returns (overrun: bool, descendants: array<ProcessInfo>)
    requires ValidTable(t)
    ensures fresh(descendants) && descendants.Length == |t|
    ensures overrun <==> SelfAncestor(t, root) || EveryRowDescends(t, root)
    ensures !overrun ==> Lists(t, root, BeforeSentinel(descendants[..]))
    ensures !overrun ==> |BeforeSentinel(descendants[..])| < descendants.Length
  {
    hide SelfAncestor, EveryRowDescends, Lists, BeforeSentinel, Linked, Scanned;
    descendants := new ProcessInfo[|t|];
    SearchBegins(t, root, descendants[..]);
    var knownDescendants := 1;
    var checkedProcessId := root;
    ghost var q: seq<Slot> := [];
    overrun := false;
    var descendantIndex := 0;
    assert descendants[..][..0] == Rows(t, []);
    while descendantIndex < knownDescendants
      invariant knownDescendants == |q| + 1 && 0 <= descendantIndex <= knownDescendants
      invariant descendantIndex <= |q| ==>
        && Searching(t, root, descendants[..], q, descendantIndex - 1, 0)
        && checkedProcessId == Key(t, root, q, descendantIndex - 1)
      invariant |q| < descendantIndex ==>
        BreadthFirst(t, root, q) && |q| < |t| && descendants[..][..|q|] == Rows(t, q)
      decreases |t| + 1 - descendantIndex
    {
      ghost var p := descendantIndex - 1;
      for processIndex := 0 to |t|
        invariant knownDescendants == |q| + 1
        invariant Searching(t, root, descendants[..], q, p, processIndex)
        invariant checkedProcessId == Key(t, root, q, p)
      {
        if t[processIndex].parentProcessId != checkedProcessId {
          RowIsPassedOver(t, root, descendants[..], q, p, processIndex);
          continue;
        }
        if knownDescendants - 1 == descendants.Length {
          SearchOutcome(t, root, q);
          return true, descendants;
        }
        Enqueue(t, root, descendants[..], q, p, processIndex);
        ghost var before := descendants[..];
        descendants[knownDescendants - 1] := t[processIndex];
        assert descendants[..] == before[|q| := t[processIndex]];
        knownDescendants := knownDescendants + 1;
        q := q + [Slot(processIndex, p)];
      }
      NextEntry(t, root, descendants[..], q, p);
      if descendantIndex == descendants.Length {
        SearchOutcome(t, root, q);
        return true, descendants;
      }
      checkedProcessId := descendants[descendantIndex].processId;
      descendantIndex := descendantIndex + 1;
    }
    ghost var found := descendants[..][..|q|];
    descendants[knownDescendants - 1] := ProcessInfo(0, descendants[knownDescendants - 1].parentProcessId);
    assert descendants[..][..|q|] == found;
    SearchOutcome(t, root, q);
    ListingInBuffer(t, root, descendants[..], q);
  }
}
