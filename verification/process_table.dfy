/** Reading the /proc directory into a growing array of process rows. */
module ProcessTable {
  import opened CNumbers
  import opened ProcessTree
  import opened StatLine

  /**
    An entry of /proc, what its stat file holds if it is a process that can be
    read, and what the parser's buffer holds before.
   */
  datatype DirectoryEntry = DirectoryEntry(isDirectory: bool, name: string, stat: Option<string>, garbage: Leftover)

  const NUMBER_OF_PROCESSES_INITIALLY_ALLOCATED := 4096

  /** The process an entry of /proc stands for: sscanf reads the number its name starts with. */
  function ProcessOf(entry: DirectoryEntry): Option<int> {
    if !entry.isDirectory then None
    else match ScanNumber(entry.name)
      case NoNumber => None
      case Number(v, _) => Some(v)
  }

  /** A name that is a number, or goes on behind it, stands for that process; what is no directory, or does not begin like a number, for none. */
  lemma NumbersNameProcesses(e: DirectoryEntry, n: nat, rest: string)
    requires rest == [] || !IsDigit(rest[0])
    ensures e.isDirectory && e.name == Decimal(n) + rest ==> ProcessOf(e) == Some(n)
    ensures !e.isDirectory || !BeginsLikeANumber(e.name) ==> ProcessOf(e) == None
  {
    DigitsReadBack(Decimal(n), rest);
    ValueOfDecimal(n);
  }

  predicate BeginsLikeANumber(name: string) {
    name != [] && (IsDigit(name[0]) || IsSpace(name[0]) || IsSign(name[0]))
  }

  /** What read_parent_process_id answers for it. */
  function ParentIn(entry: DirectoryEntry): ParentRead {
    ParentOf(entry.stat, entry.garbage)
  }

  /** The row an entry contributes; a process without a readable parent contributes none. */
  function RowOf(entry: DirectoryEntry): Option<ProcessInfo> {
    match ProcessOf(entry)
    case None => None
    case Some(id) =>
      match ParentIn(entry)
      case Parent(parent) => if parent == 0 then None else Some(ProcessInfo(id, parent))
      case Undefined => None
  }

  /** The parser has no defined answer for the entry. */
  predicate IsFaulty(entry: DirectoryEntry) {
    ProcessOf(entry).Some? && ParentIn(entry).Undefined?
  }

  /** The values present in a sequence of options, in order. */
  function Somes<T>(options: seq<Option<T>>): (t: seq<T>)
    ensures |t| <= |options|
  {
    if options == [] then []
    else
      var last := |options| - 1;
      Somes(options[..last]) + match options[last] case None => [] case Some(x) => [x]
  }

  function RowOptions(entries: seq<DirectoryEntry>): seq<Option<ProcessInfo>> {
    seq(|entries|, i requires 0 <= i < |entries| => RowOf(entries[i]))
  }

  /** The table is the sub-sequence of the directory whose entries have rows. */
  function RowsOf(entries: seq<DirectoryEntry>): Table {
    Somes(RowOptions(entries))
  }

  /**
    Stage 1 of the search. The capacity doubles when an entry is read while the
    array is full, even if that entry turns out to have no row; it never exceeds
    the initial allocation or twice the number of rows. Reading stops with
    `undefined` at an entry the parser has no defined answer for.
   */
  method ReadAllProcesses(entries: seq<DirectoryEntry>)
    returns (undefined: bool, allProcesses: array<ProcessInfo>, totalProcesses: nat)
    ensures undefined <==> exists e :: e in entries && IsFaulty(e)
    ensures totalProcesses <= allProcesses.Length
    ensures !undefined ==> allProcesses[..totalProcesses] == RowsOf(entries)
    ensures allProcesses.Length == NUMBER_OF_PROCESSES_INITIALLY_ALLOCATED || allProcesses.Length <= 2 * totalProcesses
  {
    hide IsFaulty, RowOf;
    ghost var options := RowOptions(entries);
    var processesAllocated := NUMBER_OF_PROCESSES_INITIALLY_ALLOCATED;
    allProcesses := new ProcessInfo[processesAllocated];
    totalProcesses := 0;
    for i := 0 to |entries|
      invariant fresh(allProcesses)
      invariant totalProcesses <= processesAllocated == allProcesses.Length
      invariant processesAllocated == NUMBER_OF_PROCESSES_INITIALLY_ALLOCATED || processesAllocated <= 2 * totalProcesses
      invariant processesAllocated > 0
      invariant allProcesses[..totalProcesses] == Somes(options[..i])
      invariant forall k :: 0 <= k < i ==> !IsFaulty(entries[k])
    {
      assert options[..i + 1][..i] == options[..i];
      if totalProcesses == processesAllocated {
        processesAllocated := processesAllocated * 2;
        allProcesses := Reallocate(allProcesses, processesAllocated);
      }
      var row;
      undefined, row := ReadEntry(entries[i]);
      if undefined {
        assert entries[i] in entries;
        return undefined, allProcesses, totalProcesses;
      }
      if row == None { continue; }
      allProcesses[totalProcesses] := row.value;
      totalProcesses := totalProcesses + 1;
    }
    assert options[..|entries|] == options;
    return false, allProcesses, totalProcesses;
  }

  /** One directory entry: not a process, a process without a parent that can be read, or a row. */
  method ReadEntry(entry: DirectoryEntry) returns (undefined: bool, row: Option<ProcessInfo>)
    ensures undefined == IsFaulty(entry) && row == RowOf(entry)
  {
    hide ScanNumber, ParentOf;
    var process := ProcessOf(entry);
    if process == None { return false, None; }
    var read := ReadParentProcessId(entry.stat, entry.garbage);
    if read.Undefined? { return true, None; }
    if read.id == 0 { return false, None; }
    return false, Some(ProcessInfo(process.value, read.id));
  }

  /** realloc to a larger size: the old rows survive, the new ones are arbitrary. */
  method Reallocate(a: array<ProcessInfo>, size: nat) returns (b: array<ProcessInfo>)
    requires a.Length <= size
    ensures fresh(b) && b.Length == size && b[..a.Length] == a[..]
  {
    b := new ProcessInfo[size];
    forall k | 0 <= k < a.Length { b[k] := a[k]; }
  }

  // ---------- The table agrees with the directory ----------

  lemma {:induction false} SomesHoldEveryValue<T>(options: seq<Option<T>>, x: T)
    ensures x in Somes(options) <==> Some(x) in options
  {
    if options != [] {
      var last := |options| - 1;
      SomesHoldEveryValue(options[..last], x);
      assert options == options[..last] + [options[last]];
    }
  }

  /** Each row comes from an entry and each readable process has its row. */
  lemma RowsAreTheReadableProcesses(entries: seq<DirectoryEntry>, row: ProcessInfo)
    ensures row in RowsOf(entries) <==> exists k :: 0 <= k < |entries| && RowOf(entries[k]) == Some(row)
  {
    hide ScanNumber;
    var options := RowOptions(entries);
    SomesHoldEveryValue(options, row);
    forall k | 0 <= k < |entries| ensures options[k] == RowOf(entries[k]) {
    }
  }

  ghost predicate DistinctProcesses(entries: seq<DirectoryEntry>) {
    && (forall k :: 0 <= k < |entries| && ProcessOf(entries[k]).Some? ==> 0 < ProcessOf(entries[k]).value)
    && (forall j, k :: 0 <= j < k < |entries| && ProcessOf(entries[j]).Some? ==> ProcessOf(entries[j]) != ProcessOf(entries[k]))
  }

  /** A directory that names each process once gives a table the tree search accepts. */
  lemma DistinctEntriesGiveValidTable(entries: seq<DirectoryEntry>)
    requires DistinctProcesses(entries)
    ensures ValidTable(RowsOf(entries))
  {
    var options := RowOptions(entries);
    forall k | 0 <= k < |options| && options[k].Some?
      ensures ProcessOf(entries[k]) == Some(options[k].value.processId)
    {
      assert options[k] == RowOf(entries[k]);
    }
    DistinctSomes(options);
  }

  lemma {:induction false} DistinctSomes(options: seq<Option<ProcessInfo>>)
    requires forall k :: 0 <= k < |options| && options[k].Some? ==> 0 < options[k].value.processId
    requires forall j, k :: 0 <= j < k < |options| && options[j].Some? && options[k].Some? ==>
                              options[j].value.processId != options[k].value.processId
    ensures ValidTable(Somes(options))
  {
    if options != [] {
      var last := |options| - 1;
      var before := Somes(options[..last]);
      DistinctSomes(options[..last]);
      forall i | 0 <= i < |before| && options[last].Some?
        ensures before[i].processId != options[last].value.processId
      {
        SomesHoldEveryValue(options[..last], before[i]);
      }
    }
  }

  /** Both stages: from the entries of /proc to the descendants of a process. */
  method FindDescendants(entries: seq<DirectoryEntry>, root: int)
    returns (undefined: bool, overrun: bool, descendants: array<ProcessInfo>)
    requires DistinctProcesses(entries)
    ensures undefined <==> exists e :: e in entries && IsFaulty(e)
    ensures !undefined ==>
      var t := RowsOf(entries);
      && (overrun <==> SelfAncestor(t, root) || EveryRowDescends(t, root))
      && (!overrun ==> Lists(t, root, BeforeSentinel(descendants[..])))
  {
    hide Lists, SelfAncestor, EveryRowDescends, BeforeSentinel, RowsOf, ValidTable, DistinctProcesses, IsFaulty;
    var allProcesses, totalProcesses;
    undefined, allProcesses, totalProcesses := ReadAllProcesses(entries);
    if undefined { return undefined, false, allProcesses; }
    DistinctEntriesGiveValidTable(entries);
    overrun, descendants := GetChildProcesses(allProcesses[..totalProcesses], root);
  }
}
