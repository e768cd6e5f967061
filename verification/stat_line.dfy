/** Reading a parent process id from the text of /proc/<pid>/stat. */
module StatLine {
  import opened CNumbers

  /** pid digits, space, comm in parentheses, space, state, space, parent digits, and a byte for the terminator. */
  const MAX_STAT_FILE_READ_LENGTH: nat := 7 + 1 + 64 + 2 + 1 + 1 + 1 + 7 + 1
  const MIN_CLOSING_PARENTHESIS_POSITION: nat := 3

  /** What the uninitialised buffer happens to hold. */
  type Leftover = b: seq<char> | |b| == MAX_STAT_FILE_READ_LENGTH witness seq(MAX_STAT_FILE_READ_LENGTH, _ => '\0')

  /** The line as proc(5) describes it. */
  function Print(pid: nat, comm: string, state: char, parent: nat, rest: string): string {
    Decimal(pid) + " (" + comm + ") " + [state] + " " + Decimal(parent) + " " + rest
  }

  // ---------- The C library calls ----------

  /** The characters fgets stores: up to size - 1 of them, and none after a newline. */
  function Fgets(text: string, size: nat): (s: string)
    ensures |s| < size || (size == 0 && s == [])
  {
    if text == [] || size <= 1 then []
    else if text[0] == '\n' then "\n"
    else [text[0]] + Fgets(text[1..], size - 1)
  }

  /** The C string at the start of a piece of memory, unless it has no terminator. */
  function CString(memory: seq<char>): Option<string> {
    if memory == [] then None
    else if memory[0] == '\0' then Some([])
    else match CString(memory[1..])
      case None => None
      case Some(s) => Some([memory[0]] + s)
  }

  /** The first token strtok finds between spaces. */
  function Token(s: string): Option<string> {
    if s == [] then None
    else if s[0] == ' ' then Token(s[1..])
    else Some(UpToSpace(s))
  }

  function UpToSpace(s: string): string {
    if s == [] || s[0] == ' ' then [] else [s[0]] + UpToSpace(s[1..])
  }

  // ---------- The parser ----------

  /** Undefined stands for a read outside the buffer or through the null token. */
  datatype ParentRead = Parent(id: int) | Undefined

  predicate ClosesAt(buffer: seq<char>, k: nat)
    requires k + 1 < |buffer|
  {
    buffer[k] == ')' && buffer[k + 1] == ' '
  }

  /** The parent named behind position k, where the closing parenthesis was found. */
  function ParentBehind(buffer: seq<char>, k: nat): ParentRead {
    if k + 3 >= |buffer| then Undefined
    else match CString(buffer[k + 3..])
      case None => Undefined
      case Some(s) =>
        match Token(s)
        case None => Undefined
        case Some(token) => Parent(ToInt(ReadLong(token).value))
  }

  /** The buffer after fgets; what lies behind the terminator is left over from before. */
  function Filled(text: string, garbage: Leftover): (buffer: seq<char>)
    ensures |buffer| == MAX_STAT_FILE_READ_LENGTH
  {
    var s := Fgets(text, MAX_STAT_FILE_READ_LENGTH);
    s + ['\0'] + garbage[|s| + 1..]
  }

  /** The first place from `from` on where a parenthesis is closed and a space follows, or the last index. */
  function FirstClose(s: seq<char>, from: nat): (k: nat)
    requires from < |s|
    ensures from <= k < |s|
    ensures forall j: nat | from <= j < k :: !ClosesAt(s, j)
    ensures k < |s| - 1 ==> ClosesAt(s, k)
    decreases |s| - from
  {
    if from == |s| - 1 || ClosesAt(s, from) then from else FirstClose(s, from + 1)
  }

  /** What the parser answers for the text of a file, or for None when it cannot be opened. */
  function ParentOf(stat: Option<string>, garbage: Leftover): ParentRead {
    if stat == None || stat.value == [] then Parent(0)
    else
      var buffer := Filled(stat.value, garbage);
      var k := FirstClose(buffer, MIN_CLOSING_PARENTHESIS_POSITION);
      if k == MAX_STAT_FILE_READ_LENGTH - 1 then Parent(0) else ParentBehind(buffer, k)
  }

  method ReadParentProcessId(stat: Option<string>, garbage: Leftover) returns (r: ParentRead)
    ensures stat == None || stat == Some([]) ==> r == Parent(0)
    ensures stat.Some? && stat.value != [] ==>
      var buffer := Filled(stat.value, garbage);
      || (exists k: nat | MIN_CLOSING_PARENTHESIS_POSITION <= k < MAX_STAT_FILE_READ_LENGTH - 1 ::
            && ClosesAt(buffer, k)
            && (forall j: nat | MIN_CLOSING_PARENTHESIS_POSITION <= j < k :: !ClosesAt(buffer, j))
            && r == ParentBehind(buffer, k))
      || ((forall j: nat | MIN_CLOSING_PARENTHESIS_POSITION <= j < MAX_STAT_FILE_READ_LENGTH - 1 :: !ClosesAt(buffer, j))
          && r == Parent(0))
    ensures r == ParentOf(stat, garbage)
    ensures forall pid: nat, comm, state, parent: nat, rest | stat == Some(Print(pid, comm, state, parent, rest)) ::
      Readable(comm, state, parent) ==> (r == Parent(parent) <==> Fits(pid, comm, parent))
  {
    hide ParentBehind, Fits, Print, Filled, HoldsClose, OnOneLine;
    forall pid: nat, comm, state, parent: nat, rest | stat == Some(Print(pid, comm, state, parent, rest)) && Readable(comm, state, parent)
      ensures ParentOf(stat, garbage) == Parent(parent) <==> Fits(pid, comm, parent)
    {
      PrintedParentIsReadBack(pid, comm, state, parent, rest, garbage);
    }
    if stat == None || stat.value == [] { return Parent(0); }
    var buffer := Filled(stat.value, garbage);
    var index := MIN_CLOSING_PARENTHESIS_POSITION;
    while index < MAX_STAT_FILE_READ_LENGTH - 1
      invariant MIN_CLOSING_PARENTHESIS_POSITION <= index <= MAX_STAT_FILE_READ_LENGTH - 1
      invariant forall j: nat | MIN_CLOSING_PARENTHESIS_POSITION <= j < index :: !ClosesAt(buffer, j)
    {
      if ClosesAt(buffer, index) { break; }
      index := index + 1;
    }
    assert index == FirstClose(buffer, MIN_CLOSING_PARENTHESIS_POSITION);
    if index == MAX_STAT_FILE_READ_LENGTH - 1 {
      r := Parent(0);
    } else {
      r := ParentBehind(buffer, index);
    }
  }

  // ---------- The round trip ----------

  predicate HoldsClose(s: string) {
    exists k :: 0 <= k < |s| - 1 && s[k] == ')' && s[k + 1] == ' '
  }

  predicate OnOneLine(comm: string, state: char) {
    '\n' !in comm && state != '\n'
  }

  /** What the parser takes for granted about a line; parent 0 is also its answer for failure. */
  predicate Readable(comm: string, state: char, parent: nat) {
    !HoldsClose(comm) && OnOneLine(comm, state) && 0 < parent <= INT_MAX
  }

  /** The three variable fields fit beside the six fixed characters and the terminator. */
  predicate Fits(pid: nat, comm: string, parent: nat) {
    |Decimal(pid)| + |comm| + |Decimal(parent)| + 6 < MAX_STAT_FILE_READ_LENGTH
  }

  lemma {:induction false} FgetsTakesPrefix(line: string, rest: string, size: nat)
    requires '\n' !in line && size > 0
    ensures |line| < size ==> line <= Fgets(line + rest, size)
    ensures |line| >= size - 1 ==> Fgets(line + rest, size) == line[..size - 1]
  {
    if line != [] && size > 1 {
      assert (line + rest)[1..] == line[1..] + rest;
      FgetsTakesPrefix(line[1..], rest, size - 1);
    }
  }

  function Head(pid: nat, comm: string): string {
    Decimal(pid) + " (" + comm
  }

  function Line(pid: nat, comm: string, state: char, parent: nat): string {
    Head(pid, comm) + ") " + [state] + " " + Decimal(parent)
  }

  /** The buffer starts with as much of the line as fits, and the terminator comes right behind a full buffer. */
  lemma FilledWithPrint(pid: nat, comm: string, state: char, parent: nat, rest: string, garbage: Leftover)
    requires OnOneLine(comm, state)
    ensures var b := Filled(Print(pid, comm, state, parent, rest), garbage);
      var l := Line(pid, comm, state, parent);
      if |l| < MAX_STAT_FILE_READ_LENGTH - 1 then l + " " <= b && '\0' in b[|l|..]
      else b == l[..MAX_STAT_FILE_READ_LENGTH - 1] + ['\0']
  {
    var l := Line(pid, comm, state, parent);
    var text := Print(pid, comm, state, parent, rest);
    assert text == l + (" " + rest);
    if |l| < MAX_STAT_FILE_READ_LENGTH - 1 {
      assert text == (l + " ") + rest;
      FgetsTakesPrefix(l + " ", rest, MAX_STAT_FILE_READ_LENGTH);
      var b := Filled(text, garbage);
      var n := |Fgets(text, MAX_STAT_FILE_READ_LENGTH)|;
      assert b[|l|..][n - |l|] == '\0';
    } else {
      FgetsTakesPrefix(l, " " + rest, MAX_STAT_FILE_READ_LENGTH);
    }
  }

  /** Where the first parenthesis is closed that a space follows, counted from the start of the name. */
  function CloseInName(comm: string): (c: nat)
    ensures c <= |comm|
    ensures !HoldsClose(comm) ==> c == |comm|
  {
    var s := comm + ") ";
    assert ClosesAt(s, |comm|);
    assert forall j: nat :: j < |comm| && ClosesAt(s, j) ==> comm[j] == ')' && j + 1 < |comm| && comm[j + 1] == ' ';
    FirstClose(s, 0)
  }

  /** The position of that parenthesis in the line. */
  function CloseInLine(pid: nat, comm: string): nat {
    |Decimal(pid)| + 2 + CloseInName(comm)
  }

  /** The scan stops there, if that is within its reach. */
  lemma FirstCloseOfPrint(pid: nat, comm: string, state: char, parent: nat, rest: string, garbage: Leftover)
    requires OnOneLine(comm, state)
    ensures var h := CloseInLine(pid, comm);
      FirstClose(Filled(Print(pid, comm, state, parent, rest), garbage), MIN_CLOSING_PARENTHESIS_POSITION)
      == if h + 1 < MAX_STAT_FILE_READ_LENGTH - 1 then h else MAX_STAT_FILE_READ_LENGTH - 1
  {
    hide Decimal;
    var b := Filled(Print(pid, comm, state, parent, rest), garbage);
    var l := Line(pid, comm, state, parent);
    var named := comm + ") ";
    var n := |Decimal(pid)|;
    var h := CloseInLine(pid, comm);
    FilledWithPrint(pid, comm, state, parent, rest, garbage);
    assert forall j :: 0 <= j < |l| && j < MAX_STAT_FILE_READ_LENGTH - 1 ==> b[j] == l[j];
    assert l[n + 2..][..|named|] == named;
    assert forall j: nat :: j < |named| ==> l[n + 2 + j] == named[j];
    assert l[n] == ' ' && l[n + 1] == '(';
    assert forall j: nat :: j < n ==> l[j] == Decimal(pid)[j];
    assert b[MAX_STAT_FILE_READ_LENGTH - 1] == '\0' || |l| < MAX_STAT_FILE_READ_LENGTH - 1;
    forall j: nat | j < h && j + 1 < MAX_STAT_FILE_READ_LENGTH ensures !ClosesAt(b, j) {
      if n + 2 <= j { assert !ClosesAt(named, j - n - 2); }
    }
    if h + 1 < MAX_STAT_FILE_READ_LENGTH - 1 {
      assert ClosesAt(named, CloseInName(comm));
      assert ClosesAt(b, h);
    }
  }

  lemma {:induction false} CStringKeepsPrefix(memory: seq<char>, p: string)
    requires p <= memory && '\0' !in p && '\0' in memory
    ensures CString(memory).Some? && p <= CString(memory).value
    ensures |p| < |memory| && memory[|p|] == '\0' ==> CString(memory).value == p
  {
    if memory[0] != '\0' {
      assert memory == [memory[0]] + memory[1..];
      CStringKeepsPrefix(memory[1..], if p == [] then [] else p[1..]);
    }
  }

  lemma {:induction false} TokenOfDigits(d: string, y: string)
    requires AllDigits(d) && d != [] && (y == [] || y[0] == ' ')
    ensures Token(" " + d + y) == Some(d)
  {
    UpToSpaceStops(d, y);
    assert (" " + d + y)[1..] == d + y;
    assert d[0] != ' ';
  }

  lemma {:induction false} UpToSpaceStops(d: string, y: string)
    requires ' ' !in d && (y == [] || y[0] == ' ')
    ensures UpToSpace(d + y) == d
  {
    if d != [] {
      assert (d + y)[1..] == d[1..] + y;
      UpToSpaceStops(d[1..], y);
    }
  }

  /** Behind the closing parenthesis the parser finds the parent exactly when the line fits. */
  lemma ParentOfPrint(pid: nat, comm: string, state: char, parent: nat, rest: string, garbage: Leftover)
    requires OnOneLine(comm, state) && parent <= INT_MAX
    ensures var b := Filled(Print(pid, comm, state, parent, rest), garbage);
      && (Fits(pid, comm, parent) ==> ParentBehind(b, |Head(pid, comm)|) == Parent(parent))
      && (!Fits(pid, comm, parent) && parent > 0 ==> ParentBehind(b, |Head(pid, comm)|) != Parent(parent))
  {
    hide CString, Token, ReadLong, Decimal;
    var b := Filled(Print(pid, comm, state, parent, rest), garbage);
    var l := Line(pid, comm, state, parent);
    var h := |Head(pid, comm)|;
    FilledWithPrint(pid, comm, state, parent, rest, garbage);
    assert |l| == h + 4 + |Decimal(parent)|;
    assert l[h + 3..] == " " + Decimal(parent);
    if Fits(pid, comm, parent) {
      if |l| < MAX_STAT_FILE_READ_LENGTH - 1 {
        assert b[h + 3..][|l| - h - 3..] == b[|l|..];
      } else {
        assert b[h + 3..][|l| - h - 3] == '\0';
      }
      WholeParent(b, h, parent);
    } else if parent == 0 {
    } else if h + 3 < MAX_STAT_FILE_READ_LENGTH - 1 {
      var kept := MAX_STAT_FILE_READ_LENGTH - 1 - (h + 4);
      assert b[h + 3..] == " " + Decimal(parent)[..kept] + ['\0'];
      CutParent(b, h, parent, kept);
    } else if h + 3 == MAX_STAT_FILE_READ_LENGTH - 1 {
      assert b[h + 3..] == ['\0'];
      NoParent(b, h);
    }
  }

  lemma WholeParent(b: seq<char>, h: nat, parent: nat)
    requires h + 3 < |b| && parent <= INT_MAX && '\0' in b[h + 3..]
    requires " " + Decimal(parent) + " " <= b[h + 3..] || " " + Decimal(parent) + ['\0'] <= b[h + 3..]
    ensures ParentBehind(b, h) == Parent(parent)
  {
    hide Decimal;
    ValueOfDecimal(parent);
    var tail := if " " + Decimal(parent) + " " <= b[h + 3..] then " " + Decimal(parent) + " " else " " + Decimal(parent);
    ParentOfDigits(b, h, Decimal(parent), tail);
  }

  lemma CutParent(b: seq<char>, h: nat, parent: nat, kept: nat)
    requires h + 3 < |b| && 0 < parent <= INT_MAX && kept < |Decimal(parent)|
    requires b[h + 3..] == " " + Decimal(parent)[..kept] + ['\0']
    ensures ParentBehind(b, h) != Parent(parent)
  {
    hide Decimal;
    TruncationShrinks(parent, kept);
    var digits := Decimal(parent)[..kept];
    if kept == 0 {
      assert b[h + 3..] == " " + ['\0'];
      NoParent(b, h);
    } else {
      ParentOfDigits(b, h, digits, " " + digits);
    }
  }

  lemma NoParent(b: seq<char>, h: nat)
    requires h + 3 < |b| && (b[h + 3..] == ['\0'] || b[h + 3..] == " " + ['\0'])
    ensures ParentBehind(b, h) == Undefined
  {
    var blank := b[h + 3..][..|b| - h - 4];
    CStringKeepsPrefix(b[h + 3..], blank);
    assert Token([]) == None && Token(" ") == None;
  }

  lemma ParentOfDigits(b: seq<char>, h: nat, digits: string, tail: string)
    requires h + 3 < |b| && AllDigits(digits) && digits != [] && ValueOf(digits) <= INT_MAX
    requires tail == " " + digits + " " || (tail == " " + digits && tail + ['\0'] <= b[h + 3..])
    requires tail <= b[h + 3..] && '\0' in b[h + 3..]
    ensures ParentBehind(b, h) == Parent(ValueOf(digits))
  {
    hide CString, Token, ReadLong;
    CStringKeepsPrefix(b[h + 3..], tail);
    TokenIn(CString(b[h + 3..]).value, tail, digits);
    ReadDigits(digits);
  }

  lemma TokenIn(s: string, tail: string, digits: string)
    requires AllDigits(digits) && digits != [] && tail <= s
    requires tail == " " + digits + " " || (tail == " " + digits && s == tail)
    ensures Token(s) == Some(digits)
  {
    var y := s[|digits| + 1..];
    assert y == [] || y[0] == ' ';
    assert s == " " + digits + y;
    TokenOfDigits(digits, y);
  }

  lemma ReadDigits(digits: string)
    requires AllDigits(digits) && digits != [] && ValueOf(digits) <= INT_MAX
    ensures ReadLong(digits).value == ValueOf(digits)
  {
    DigitsReadBack(digits, "");
    assert digits + "" == digits;
  }

  /** The parent a line was printed with is read back if and only if the line fits; a parent 0 is read back if it fits. */
  lemma PrintedParentIsReadBack(pid: nat, comm: string, state: char, parent: nat, rest: string, garbage: Leftover)
    requires !HoldsClose(comm) && OnOneLine(comm, state) && parent <= INT_MAX
    ensures Fits(pid, comm, parent) ==> ParentOf(Some(Print(pid, comm, state, parent, rest)), garbage) == Parent(parent)
    ensures parent > 0 && !Fits(pid, comm, parent) ==>
      ParentOf(Some(Print(pid, comm, state, parent, rest)), garbage) != Parent(parent)
  {
    hide ParentBehind, Decimal, Filled;
    FirstCloseOfPrint(pid, comm, state, parent, rest, garbage);
    ParentOfPrint(pid, comm, state, parent, rest, garbage);
    assert CloseInLine(pid, comm) == |Head(pid, comm)|;
    assert Print(pid, comm, state, parent, rest) != [];
  }

  // ---------- Names that hold a closing parenthesis and a space ----------

  /** What is left of a line two characters behind the closing parenthesis at position h, up to the first null character. */
  function Behind(line: string, h: nat): string {
    var s := Fgets(line, MAX_STAT_FILE_READ_LENGTH);
    if h + 3 <= |s| then UpToNul(s[h + 3..]) else []
  }

  function UpToNul(s: string): string {
    if s == [] || s[0] == '\0' then [] else [s[0]] + UpToNul(s[1..])
  }

  lemma {:induction false} CStringOfTerminated(s: string, more: seq<char>)
    ensures CString(s + ['\0'] + more) == Some(UpToNul(s))
  {
    if s != [] {
      assert (s + ['\0'] + more)[1..] == s[1..] + ['\0'] + more;
      CStringOfTerminated(s[1..], more);
    }
  }

  /**
    The answer for any name on one line: it is decided by the first closing
    parenthesis with a space behind it, in the name or after it, and by the token
    found behind that.
   */
  lemma FirstCloseDecides(pid: nat, comm: string, state: char, parent: nat, rest: string, garbage: Leftover)
    requires OnOneLine(comm, state)
    ensures var line, h := Print(pid, comm, state, parent, rest), CloseInLine(pid, comm);
      ParentOf(Some(line), garbage) ==
        if h + 1 >= MAX_STAT_FILE_READ_LENGTH - 1 then Parent(0)
        else match Token(Behind(line, h))
          case None => Undefined
          case Some(token) => Parent(ToInt(ReadLong(token).value))
  {
    hide Decimal, Token, ReadLong, UpToNul, CString;
    var line, h := Print(pid, comm, state, parent, rest), CloseInLine(pid, comm);
    var s, b := Fgets(line, MAX_STAT_FILE_READ_LENGTH), Filled(line, garbage);
    FirstCloseOfPrint(pid, comm, state, parent, rest, garbage);
    if h + 1 < MAX_STAT_FILE_READ_LENGTH - 1 {
      LineReachesBehind(pid, comm, state, parent, rest);
      if h + 3 <= |s| {
        assert b[h + 3..] == s[h + 3..] + ['\0'] + garbage[|s| + 1..];
        CStringOfTerminated(s[h + 3..], garbage[|s| + 1..]);
      } else {
        assert Token([]) == None by { NoToken(); }
      }
    }
  }

  lemma NoToken()
    ensures Token([]) == None
  {
  }

  /** Unless the buffer is full, the line goes on behind the state. */
  lemma LineReachesBehind(pid: nat, comm: string, state: char, parent: nat, rest: string)
    requires OnOneLine(comm, state)
    ensures var s := Fgets(Print(pid, comm, state, parent, rest), MAX_STAT_FILE_READ_LENGTH);
      CloseInLine(pid, comm) + 3 <= |s| || |s| == MAX_STAT_FILE_READ_LENGTH - 1
  {
    hide Decimal, Fgets;
    var l := Line(pid, comm, state, parent);
    assert Print(pid, comm, state, parent, rest) == l + (" " + rest);
    FgetsTakesPrefix(l, " " + rest, MAX_STAT_FILE_READ_LENGTH);
  }

  /**
    For every name on one line the parent is read back if and only if the first
    closing parenthesis with a space behind it is in reach and the token behind
    that reads as this parent.
   */
  lemma ReadBackExactlyIfTheTokenNamesTheParent(
    pid: nat, comm: string, state: char, parent: nat, rest: string, garbage: Leftover)
    requires OnOneLine(comm, state) && parent > 0
    ensures var line, h := Print(pid, comm, state, parent, rest), CloseInLine(pid, comm);
      ParentOf(Some(line), garbage) == Parent(parent) <==>
        && h + 1 < MAX_STAT_FILE_READ_LENGTH - 1
        && exists token :: Token(Behind(line, h)) == Some(token) && ToInt(ReadLong(token).value) == parent
  {
    hide ParentOf, Token, ReadLong, Behind, CloseInLine, Print;
    FirstCloseDecides(pid, comm, state, parent, rest, garbage);
  }

  /**
    Without the condition on the name the line is ambiguous: a name holding ") "
    can print the very line of a process with an empty name and any other parent,
    and then that other parent is what the parser answers.
   */
  lemma NameCanImitateAnotherLine(pid: nat, other: nat, state: char, parent: nat, rest: string, garbage: Leftover)
    ensures var comm := ") R " + Decimal(other) + " ";
      && HoldsClose(comm)
      && Print(pid, comm, state, parent, rest) == Print(pid, "", 'R', other, ") " + [state] + " " + Decimal(parent) + " " + rest)
    ensures var comm := ") R " + Decimal(other) + " ";
      other <= INT_MAX && Fits(pid, "", other) ==>
        ParentOf(Some(Print(pid, comm, state, parent, rest)), garbage) == Parent(other)
  {
    hide ParentOf, Fits;
    var comm := ") R " + Decimal(other) + " ";
    assert comm[0] == ')' && comm[1] == ' ';
    var tail := ") " + [state] + " " + Decimal(parent) + " " + rest;
    PrintSplits(pid, comm, state, parent, rest);
    PrintSplits(pid, "", 'R', other, tail);
    assert ") " + ['R'] + " " == ") R ";
    assert comm + tail == "" + (") R " + Decimal(other) + " " + tail);
    if other <= INT_MAX { PrintedParentIsReadBack(pid, "", 'R', other, tail, garbage); }
  }

  lemma PrintSplits(pid: nat, comm: string, state: char, parent: nat, rest: string)
    ensures Print(pid, comm, state, parent, rest)
      == Decimal(pid) + " (" + (comm + (") " + [state] + " " + Decimal(parent) + " " + rest))
  {
    var a := Decimal(pid) + " (";
    var b := ") " + [state] + " " + Decimal(parent) + " " + rest;
    assert Print(pid, comm, state, parent, rest) == a + comm + b;
    assert a + comm + b == a + (comm + b);
  }

  /** Ids up to 4194304 and command names up to 64 characters always fit, and no byte of the buffer is spare. */
  lemma BufferIsExactlyLargeEnough(pid: nat, comm: string, parent: nat)
    requires pid <= 4194304 && parent <= 4194304
    ensures |comm| <= 64 ==> Fits(pid, comm, parent)
    ensures pid == parent == 4194304 ==> (Fits(pid, comm, parent) <==> |comm| <= 64)
  {
    assert Power10(7) == 10000000 by { Powers(); }
    DecimalLength(pid, 7);
    DecimalLength(parent, 7);
    assert |Decimal(4194304)| == 7 by { SevenDigits(); }
  }

  lemma Powers()
    ensures Power10(7) == 10000000
  {
    assert Power10(3) == 1000;
    assert Power10(5) == 100000;
  }

  lemma SevenDigits()
    ensures |Decimal(4194304)| == 7
  {
    assert |Decimal(4)| == 1;
    assert |Decimal(419)| == 3;
    assert |Decimal(41943)| == 5;
  }
}
