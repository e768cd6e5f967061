/** From the text of /proc to the tree of processes it describes. */
module Snapshot {
  import opened CNumbers
  import opened StatLine
  import opened ProcessTree
  import opened ProcessTable
  import opened TreeSignals

  /** The entry's stat file holds the line of process p, in the form and of the length the parser is made for. */
  ghost predicate Prints(e: DirectoryEntry, p: int, parent: int) {
    0 < p && 0 <= parent <= INT_MAX && exists comm, state, rest :: PrintsWith(e, p, parent, comm, state, rest)
  }

  ghost predicate PrintsWith(e: DirectoryEntry, p: nat, parent: nat, comm: string, state: char, rest: string) {
    && e.stat == Some(Print(p, comm, state, parent, rest))
    && !HoldsClose(comm) && OnOneLine(comm, state) && Fits(p, comm, parent)
  }

  /** The entry is the directory of process p. */
  predicate IsDirectoryOf(e: DirectoryEntry, p: int) {
    0 < p && e.isDirectory && e.name == Decimal(p)
  }

  /** The directory has an entry for each process of the world, with its line, and otherwise only entries that cannot be taken for one; no name occurs twice. */
  ghost predicate Shows(entries: seq<DirectoryEntry>, w: World) {
    && ValidWorld(w)
    && (forall j, k :: 0 <= j < k < |entries| ==> entries[j].name != entries[k].name)
    && (forall p :: p in w.parent ==> exists e :: e in entries && IsDirectoryOf(e, p))
    && (forall e :: e in entries ==>
          || (e.isDirectory && exists p :: p in w.parent && IsDirectoryOf(e, p) && Prints(e, p, w.parent[p]))
          || !e.isDirectory || !BeginsLikeANumber(e.name))
  }

  lemma DirectoryOfAProcess(e: DirectoryEntry, p: int)
    requires IsDirectoryOf(e, p)
    ensures ProcessOf(e) == Some(p)
  {
    assert e.name == Decimal(p) + "";
    NumbersNameProcesses(e, p, "");
  }

  /** The processes read from the names are those of the world, each once. */
  lemma NamesAreRead(entries: seq<DirectoryEntry>, w: World)
    requires Shows(entries, w)
    ensures DistinctProcesses(entries)
    ensures forall p :: p in w.parent ==> exists e :: e in entries && ProcessOf(e) == Some(p)
    ensures forall e :: e in entries && ProcessOf(e).Some? ==>
      ProcessOf(e).value in w.parent && IsDirectoryOf(e, ProcessOf(e).value) && Prints(e, ProcessOf(e).value, w.parent[ProcessOf(e).value])
  {
    hide ProcessOf, Prints, ValidWorld, BeginsLikeANumber, Decimal;
    forall e | e in entries && ProcessOf(e).Some?
      ensures ProcessOf(e).value in w.parent && IsDirectoryOf(e, ProcessOf(e).value) && Prints(e, ProcessOf(e).value, w.parent[ProcessOf(e).value])
    {
      NumbersNameProcesses(e, 0, "");
      var p :| p in w.parent && IsDirectoryOf(e, p) && Prints(e, p, w.parent[p]);
      DirectoryOfAProcess(e, p);
    }
    forall p | p in w.parent ensures exists e :: e in entries && ProcessOf(e) == Some(p) {
      var e :| e in entries && IsDirectoryOf(e, p);
      DirectoryOfAProcess(e, p);
    }
  }

  /** An entry's row is its process with its parent, unless it has none. */
  lemma RowOfAProcess(e: DirectoryEntry, p: int, parent: int)
    requires ProcessOf(e) == Some(p) && Prints(e, p, parent)
    ensures !IsFaulty(e)
    ensures RowOf(e) == if parent == 0 then None else Some(ProcessInfo(p, parent))
  {
    hide ProcessOf, ParentOf, Print, Fits, HoldsClose;
    var comm, state, rest :| PrintsWith(e, p, parent, comm, state, rest);
    PrintedParentIsReadBack(p, comm, state, parent, rest, e.garbage);
  }

  /** Reading the directory of a world gives the table of that world. */
  lemma TheDirectoryGivesTheTable(entries: seq<DirectoryEntry>, w: World)
    requires Shows(entries, w)
    ensures forall e :: e in entries ==> !IsFaulty(e)
    ensures TableOf(w, RowsOf(entries))
  {
    hide ProcessOf, ParentIn, Prints, ValidWorld, DistinctProcesses, ValidTable, RowsOf, RowOf, IsDirectoryOf, BeginsLikeANumber;
    NamesAreRead(entries, w);
    DistinctEntriesGiveValidTable(entries);
    forall e | e in entries ensures !IsFaulty(e) {
      if ProcessOf(e).Some? { RowOfAProcess(e, ProcessOf(e).value, w.parent[ProcessOf(e).value]); }
    }
    forall r ensures r in RowsOf(entries) <==>
      r.processId in w.parent && r.parentProcessId == w.parent[r.processId] && r.parentProcessId != 0
    {
      RowsAreTheProcesses(entries, w, r);
    }
  }

  lemma RowsAreTheProcesses(entries: seq<DirectoryEntry>, w: World, r: ProcessInfo)
    requires Shows(entries, w)
    ensures r in RowsOf(entries) <==>
      r.processId in w.parent && r.parentProcessId == w.parent[r.processId] && r.parentProcessId != 0
  {
    hide ProcessOf, ParentIn, Prints, ValidWorld, DistinctProcesses, RowsOf, IsDirectoryOf, BeginsLikeANumber;
    NamesAreRead(entries, w);
    RowsAreTheReadableProcesses(entries, r);
    if r in RowsOf(entries) {
      var k :| 0 <= k < |entries| && RowOf(entries[k]) == Some(r);
      var p := ProcessOf(entries[k]).value;
      RowOfAProcess(entries[k], p, w.parent[p]);
    }
    if r.processId in w.parent && r.parentProcessId == w.parent[r.processId] && r.parentProcessId != 0 {
      var e :| e in entries && ProcessOf(e) == Some(r.processId);
      RowOfAProcess(e, r.processId, r.parentProcessId);
    }
  }

  /**
    The whole way from the text of /proc: while the tool is a process outside the
    tree, reading the directory and searching its table has a defined outcome,
    and the listing is the tree without its root.
   */
  lemma TheDirectoryGivesTheTree(entries: seq<DirectoryEntry>, w: World, root: int, tool: int, rows: seq<ProcessInfo>)
    requires Shows(entries, w) && root in w.parent
    requires tool in w.parent && w.parent[tool] != 0 && !Under(w, root, tool)
    ensures forall e :: e in entries ==> !IsFaulty(e)
    ensures !SelfAncestor(RowsOf(entries), root) && !EveryRowDescends(RowsOf(entries), root)
    ensures Lists(RowsOf(entries), root, rows) ==> forall p :: p in IdsOf(rows) <==> InTree(w, root, p) && p != root
  {
    hide IsFaulty, SelfAncestor, EveryRowDescends, RowsOf, Lists, TableOf, InTree, Under;
    TheDirectoryGivesTheTable(entries, w);
    ListingIsTheTree(w, RowsOf(entries), root, tool, rows);
  }
}
