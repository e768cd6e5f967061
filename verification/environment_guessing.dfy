/** Guessing the Wayland socket and the X11 display from directory listings. */
module EnvironmentGuessing {
  import opened CNumbers

  const PATH_MAX := 4096
  const PREFIX := "wayland-"

  datatype SocketEntry = SocketEntry(name: string, isSocket: bool)

  // ---------- strcmp ----------

  /** strcmp(a, b) < 0. */
  predicate Less(a: string, b: string) {
    b != [] && (a == [] || a[0] < b[0] || (a[0] == b[0] && Less(a[1..], b[1..])))
  }

  lemma {:induction false} LessIsAnOrder(a: string, b: string)
    ensures Less(a, b) || Less(b, a) || a == b
    ensures !(Less(a, b) && Less(b, a)) && !Less(a, a)
  {
    if a != [] && b != [] {
      LessIsAnOrder(a[1..], b[1..]);
      assert a == [a[0]] + a[1..] && b == [b[0]] + b[1..];
    }
    if a != [] { LessIsAnOrder(a[1..], a[1..]); }
  }

  lemma {:induction false} LessIsTransitive(a: string, b: string, c: string)
    requires Less(a, b) && Less(b, c)
    ensures Less(a, c)
  {
    if a != [] && a[0] == b[0] && b[0] == c[0] {
      LessIsTransitive(a[1..], b[1..], c[1..]);
    }
  }

  /** The first characters that differ decide, and a string is before its continuations. */
  lemma {:induction false} FirstDifferenceDecides(p: string, a: string, b: string)
    requires a != [] && b != [] ==> a[0] != b[0]
    ensures Less(p + a, p + b) <==> b != [] && (a == [] || a[0] < b[0])
  {
    if p == [] {
      assert p + a == a && p + b == b;
    } else {
      assert (p + a)[1..] == p[1..] + a && (p + b)[1..] == p[1..] + b;
      FirstDifferenceDecides(p[1..], a, b);
    }
  }

  // ---------- Wayland sockets ----------

  /** The number behind the prefix, or -1 if what is there is not a number up to INT_MAX. */
  function NumericSuffix(name: string): (n: int)
    ensures -1 <= n <= INT_MAX
  {
    if |name| <= |PREFIX| || !IsDigit(name[|PREFIX|]) then -1
    else
      var r := ReadLong(name[|PREFIX|..]);
      if r.rest == [] && !r.outOfRange && 0 <= r.value <= INT_MAX then r.value else -1
  }

  /** A number printed behind the prefix is read back up to INT_MAX; a larger one, or one followed by anything, is none. */
  lemma NumberBehindThePrefix(n: nat, rest: string)
    requires rest == [] || !IsDigit(rest[0])
    ensures NumericSuffix("wayland-" + Decimal(n) + rest) == if rest == [] && n <= INT_MAX then n else -1
  {
    hide ScanNumber, Decimal;
    var name := "wayland-" + Decimal(n) + rest;
    assert name[|PREFIX|..] == Decimal(n) + rest && name[|PREFIX|] == Decimal(n)[0];
    DigitsReadBack(Decimal(n), rest);
    ValueOfDecimal(n);
  }

  /** Nor is a suffix that is empty or does not begin with a digit. */
  lemma NoNumberBehindThePrefix(suffix: string)
    requires suffix == [] || !IsDigit(suffix[0])
    ensures NumericSuffix("wayland-" + suffix) == -1
  {
    var name := "wayland-" + suffix;
    assert |PREFIX| == 8 && name[|PREFIX|..] == suffix;
  }

  predicate IsCandidate(runtimeDir: string, e: SocketEntry) {
    PREFIX <= e.name && |runtimeDir| + 1 + |e.name| < PATH_MAX && e.isSocket
  }

  function Candidates(runtimeDir: string, entries: seq<SocketEntry>): seq<string> {
    if entries == [] then []
    else
      var e := entries[|entries| - 1];
      Candidates(runtimeDir, entries[..|entries| - 1]) + if IsCandidate(runtimeDir, e) then [e.name] else []
  }

  /** The candidates are the names of the sockets with the prefix whose path fits. */
  lemma {:induction false} CandidatesAreTheSockets(runtimeDir: string, entries: seq<SocketEntry>, name: string)
    ensures name in Candidates(runtimeDir, entries) <==>
      "wayland-" <= name && |runtimeDir| + 1 + |name| < 4096 && SocketEntry(name, true) in entries
  {
    if entries != [] {
      var last := |entries| - 1;
      CandidatesAreTheSockets(runtimeDir, entries[..last], name);
      assert entries == entries[..last] + [entries[last]];
    }
  }

  /** What the loop keeps: the lowest number is INT_MAX as long as only other names have been seen. */
  datatype Best = Nothing | Best(lowest: int, name: string)

  function Consider(best: Best, name: string): Best {
    var n := NumericSuffix(name);
    if best.Nothing? then Best(if n >= 0 then n else INT_MAX, name)
    else if n >= 0 then
      if best.lowest == INT_MAX || n < best.lowest then Best(n, name) else best
    else if best.lowest == INT_MAX && Less(name, best.name) then best.(name := name)
    else best
  }

  function Select(names: seq<string>): Best {
    if names == [] then Nothing
    else Consider(Select(names[..|names| - 1]), names[|names| - 1])
  }

  /** Numbers below INT_MAX go before everything else; INT_MAX itself is taken for no number by the loop. */
  predicate Numbered(name: string) {
    0 <= NumericSuffix(name) < INT_MAX
  }

  predicate AtLimit(name: string) {
    NumericSuffix(name) == INT_MAX
  }

  /**
    The name is the only one with the least number; or, without numbers, the only
    one numbered INT_MAX and before all other names; or the least of all names.
   */
  ghost predicate Winner(names: seq<string>, w: string) {
    && w in names
    && if exists x :: x in names && Numbered(x) then
         Numbered(w) && forall x :: x in names && x != w && Numbered(x) ==> NumericSuffix(w) < NumericSuffix(x)
       else if exists x :: x in names && AtLimit(x) then
         AtLimit(w) && forall x :: x in names && x != w ==> !AtLimit(x) && Less(w, x)
       else
         forall x :: x in names && x != w ==> Less(w, x)
  }

  /** What is known of the loop's state after any list of names. */
  ghost predicate Describes(names: seq<string>, best: Best) {
    if names == [] then best.Nothing?
    else
      && best.Best? && best.name in names && 0 <= best.lowest <= INT_MAX
      && (best.lowest < INT_MAX ==>
            NumericSuffix(best.name) == best.lowest
            && forall x :: x in names && Numbered(x) ==> best.lowest <= NumericSuffix(x))
      && (best.lowest == INT_MAX ==>
            && (forall x :: x in names ==> !Numbered(x))
            && ((forall x :: x in names ==> !AtLimit(x)) ==> forall x :: x in names && x != best.name ==> Less(best.name, x))
            && (forall w :: Winner(names, w) ==> best.name == w))
  }

  lemma {:induction false} SelectDescribes(names: seq<string>)
    ensures Describes(names, Select(names))
  {
    hide Less, NumericSuffix;
    if names != [] {
      var last := |names| - 1;
      SelectDescribes(names[..last]);
      ConsiderDescribes(names[..last], Select(names[..last]), names[last]);
      assert names[..last] + [names[last]] == names;
    }
  }

  lemma ConsiderDescribes(names: seq<string>, best: Best, x: string)
    requires Describes(names, best)
    ensures Describes(names + [x], Consider(best, x))
  {
    hide Less, NumericSuffix;
    var next := Consider(best, x);
    assert forall y :: y in names + [x] <==> y in names || y == x;
    if next.lowest == INT_MAX {
      forall y | y in names + [x] && y != next.name && forall z :: z in names + [x] ==> !AtLimit(z)
        ensures Less(next.name, y)
      {
        LeastStays(names, best, x, y);
      }
      forall w | Winner(names + [x], w) ensures next.name == w {
        WinnerStays(names, best, x, w);
      }
    }
  }

  lemma LeastStays(names: seq<string>, best: Best, x: string, y: string)
    requires Describes(names, best) && Consider(best, x).lowest == INT_MAX
    requires y in names + [x] && y != Consider(best, x).name
    requires forall z :: z in names + [x] ==> !AtLimit(z)
    ensures Less(Consider(best, x).name, y)
  {
    hide Less;
    assert x in names + [x] && forall z :: z in names ==> z in names + [x];
    assert names != [];
    LessIsAnOrder(x, best.name);
    if Less(x, best.name) && y != best.name {
      LessIsTransitive(x, best.name, y);
    }
  }

  lemma WinnerStays(names: seq<string>, best: Best, x: string, w: string)
    requires Describes(names, best) && Winner(names + [x], w)
    requires Consider(best, x).lowest == INT_MAX
    ensures Consider(best, x).name == w
  {
    hide Less, NumericSuffix;
    assert forall y :: y in names + [x] <==> y in names || y == x;
    assert x in names + [x];
    if names != [] {
      LessIsAnOrder(x, best.name);
      LessIsAnOrder(w, best.name);
      LessIsAnOrder(w, x);
      if w in names { assert Winner(names, w); }
    }
  }

  /** If there is a winner, the loop finds it, in whatever order the directory is read. */
  lemma WinnerIsSelected(names: seq<string>, w: string)
    requires Winner(names, w)
    ensures Select(names).Best? && Select(names).name == w
  {
    SelectDescribes(names);
  }

  // ---------- Independence of the order ----------

  ghost predicate OrderIndependent(names: seq<string>) {
    forall others: seq<string> | multiset(others) == multiset(names) :: Select(others) == Select(names)
  }

  lemma {:induction false} FirstLeastIsKept(x: string, rest: seq<string>)
    requires Numbered(x) && forall y :: y in rest && Numbered(y) ==> NumericSuffix(x) <= NumericSuffix(y)
    ensures Select([x] + rest) == Best(NumericSuffix(x), x)
  {
    hide Less, NumericSuffix;
    if rest != [] {
      var last := |rest| - 1;
      FirstLeastIsKept(x, rest[..last]);
      assert ([x] + rest)[..last + 1] == [x] + rest[..last];
      assert rest[last] in rest;
    } else {
      assert ([x] + rest)[..0] == [];
    }
  }

  /** Moving one name to the front, or to the back, permutes the list. */
  lemma MovedIsAPermutation(names: seq<string>, k: nat)
    requires k < |names|
    ensures multiset([names[k]] + (names[..k] + names[k + 1..])) == multiset(names)
    ensures multiset((names[..k] + names[k + 1..]) + [names[k]]) == multiset(names)
  {
    assert names == names[..k] + [names[k]] + names[k + 1..];
  }

  /**
    The choice does not depend on the order of the directory if and only if the
    directory has a winner: a name that alone has the least number; or, without
    numbers, the only one numbered INT_MAX if it is also before all others; or
    just the least name.
   */
  lemma OrderMattersUnlessThereIsAWinner(names: seq<string>)
    requires names != []
    ensures OrderIndependent(names) <==> exists w :: Winner(names, w)
  {
    hide Less, NumericSuffix, Select, Winner;
    if exists w :: Winner(names, w) {
      var w :| Winner(names, w);
      forall others: seq<string> | multiset(others) == multiset(names) ensures Select(others) == Select(names) {
        WinnerOfPermutation(names, others, w);
      }
    }
    if OrderIndependent(names) {
      SelectDescribes(names);
      IndependentSelectionWins(names);
    }
  }

  lemma SameMembers(names: seq<string>, others: seq<string>)
    requires multiset(others) == multiset(names)
    ensures forall x :: x in names <==> x in others
  {
    assert forall x :: x in names <==> x in multiset(names);
    assert forall x :: x in others <==> x in multiset(others);
  }

  lemma WinnerOfPermutation(names: seq<string>, others: seq<string>, w: string)
    requires multiset(others) == multiset(names) && Winner(names, w)
    ensures Select(others) == Select(names)
  {
    hide Less, NumericSuffix, Select;
    SameMembers(names, others);
    assert Winner(others, w);
    WinnerIsSelected(names, w);
    WinnerIsSelected(others, w);
    SelectDescribes(names);
    SelectDescribes(others);
  }

  function Without(names: seq<string>, k: nat): seq<string>
    requires k < |names|
  {
    names[..k] + names[k + 1..]
  }

  lemma MovedLast(names: seq<string>, k: nat)
    requires k < |names| && OrderIndependent(names)
    ensures Consider(Select(Without(names, k)), names[k]) == Select(names)
  {
    hide Consider, Select;
    MovedIsAPermutation(names, k);
    ConsideredNext(Without(names, k), names[k]);
  }

  lemma MovedFirst(names: seq<string>, k: nat)
    requires k < |names| && OrderIndependent(names) && Numbered(names[k])
    requires forall y :: y in names && Numbered(y) ==> NumericSuffix(names[k]) <= NumericSuffix(y)
    ensures Select(names) == Best(NumericSuffix(names[k]), names[k])
  {
    hide Consider, NumericSuffix, Select;
    MovedIsAPermutation(names, k);
    FirstLeastIsKept(names[k], Without(names, k));
  }

  /** Without numbers, a name that is another order's choice, or less than the choice, cannot exist beside it. */
  lemma OthersAreLess(names: seq<string>, k: nat)
    requires k < |names| && OrderIndependent(names) && names[k] != Select(names).name
    requires Select(names).Best? && Select(names).lowest == INT_MAX && Describes(names, Select(names))
    ensures !AtLimit(names[k]) && Less(Select(names).name, names[k])
  {
    hide Less, Select;
    var x := names[k];
    MovedLast(names, k);
    SelectDescribes(Without(names, k));
    assert forall y :: y in Without(names, k) ==> y in names;
    LessIsAnOrder(x, Select(names).name);
    assert x in names;
  }

  lemma IndependentSelectionWins(names: seq<string>)
    requires names != [] && OrderIndependent(names) && Describes(names, Select(names))
    ensures Winner(names, Select(names).name)
  {
    hide Less, NumericSuffix, Select, OrderIndependent;
    var best := Select(names);
    forall x | x in names && x != best.name
      ensures if best.lowest < INT_MAX then Numbered(x) ==> best.lowest < NumericSuffix(x)
              else !AtLimit(x) && Less(best.name, x)
    {
      var k :| 0 <= k < |names| && names[k] == x;
      if best.lowest == INT_MAX {
        OthersAreLess(names, k);
      } else if Numbered(x) && NumericSuffix(x) == best.lowest {
        MovedFirst(names, k);
      }
    }
  }

  // ---------- Numbered sockets ----------

  /**
    There is a socket wayland-n, and every other socket of that kind has a larger
    number or a suffix that does not begin with a digit.
   */
  ghost predicate LeastSocket(entries: seq<SocketEntry>, n: nat) {
    && SocketEntry("wayland-" + Decimal(n), true) in entries
    && forall e :: e in entries && e.isSocket && "wayland-" <= e.name ==>
         (exists m: nat :: e.name == "wayland-" + Decimal(m) && n <= m) || |e.name| == 8 || !IsDigit(e.name[8])
  }

  lemma SuffixOfASocket(entries: seq<SocketEntry>, n: nat, name: string)
    requires LeastSocket(entries, n) && SocketEntry(name, true) in entries && "wayland-" <= name
    ensures NumericSuffix(name) == -1 || n <= NumericSuffix(name)
    ensures NumericSuffix(name) == n ==> name == "wayland-" + Decimal(n)
  {
    hide NumericSuffix, Decimal;
    var e := SocketEntry(name, true);
    if m: nat :| e.name == "wayland-" + Decimal(m) && n <= m {
      NumberBehindThePrefix(m, "");
      assert "wayland-" + Decimal(m) + "" == name;
    } else {
      NoNumberBehindThePrefix(name[8..]);
      assert "wayland-" + name[8..] == name;
    }
  }

  /** The socket with the least number below INT_MAX wins, whatever the order of the directory. */
  lemma LeastSocketWins(runtimeDir: string, entries: seq<SocketEntry>, n: nat)
    requires LeastSocket(entries, n) && n < INT_MAX && |runtimeDir| + 1 + |"wayland-" + Decimal(n)| < PATH_MAX
    ensures Winner(Candidates(runtimeDir, entries), "wayland-" + Decimal(n))
  {
    hide NumericSuffix, Decimal, Candidates, Less, LeastSocket;
    var names, w := Candidates(runtimeDir, entries), "wayland-" + Decimal(n);
    assert w in names by { FirstOfLeastSocket(entries, n); CandidatesAreTheSockets(runtimeDir, entries, w); }
    NumberBehindThePrefix(n, "");
    assert w + "" == w;
    forall x | x in names && x != w && Numbered(x) ensures n < NumericSuffix(x) {
      CandidatesAreTheSockets(runtimeDir, entries, x);
      SuffixOfASocket(entries, n, x);
    }
  }

  lemma FirstOfLeastSocket(entries: seq<SocketEntry>, n: nat)
    requires LeastSocket(entries, n)
    ensures SocketEntry("wayland-" + Decimal(n), true) in entries
  {
  }

  // ---------- The two searches ----------

  /** The best socket's path and name; None if there is no candidate or a buffer is too small. */
  method FindBestWaylandSocketInRuntimeDir(runtimeDir: string, entries: seq<SocketEntry>, pathSize: nat, nameSize: nat)
    returns (r: Option<(string, string)>)
    ensures var best := Select(Candidates(runtimeDir, entries));
      r == if best.Nothing? || |runtimeDir| + 1 + |best.name| >= pathSize || (nameSize > 0 && |best.name| >= nameSize) then None
           else Some((runtimeDir + "/" + best.name, best.name))
    ensures forall w | Winner(Candidates(runtimeDir, entries), w) ::
      r == if |runtimeDir| + 1 + |w| >= pathSize || (nameSize > 0 && |w| >= nameSize) then None
           else Some((runtimeDir + "/" + w, w))
    ensures forall n: nat | LeastSocket(entries, n) && n < INT_MAX ::
      var w := "wayland-" + Decimal(n);
      |runtimeDir| + 1 + |w| < PATH_MAX && |runtimeDir| + 1 + |w| < pathSize && |w| < nameSize ==>
        r == Some((runtimeDir + "/" + w, w))
    ensures r.Some? ==> SocketEntry(r.value.1, true) in entries && "wayland-" <= r.value.1 && r.value.0 == runtimeDir + "/" + r.value.1
    ensures (forall e :: e in entries && e.isSocket ==> !("wayland-" <= e.name)) ==> r == None
  {
    forall n: nat | LeastSocket(entries, n) && n < INT_MAX && |runtimeDir| + 1 + |"wayland-" + Decimal(n)| < PATH_MAX
      ensures Winner(Candidates(runtimeDir, entries), "wayland-" + Decimal(n))
    {
      LeastSocketWins(runtimeDir, entries, n);
    }
    ChoiceIsASocket(runtimeDir, entries);
    NothingSelected(runtimeDir);
    hide Less, NumericSuffix, IsCandidate, Candidates, Select, Winner, LeastSocket, Decimal;
    var found, lowest, bestName := false, INT_MAX, "";
    for i := 0 to |entries|
      invariant Select(Candidates(runtimeDir, entries[..i])) == if found then Best(lowest, bestName) else Nothing
    {
      CandidatesStep(runtimeDir, entries, i);
      if !IsCandidate(runtimeDir, entries[i]) { continue; }
      var name := entries[i].name;
      ConsideredNext(Candidates(runtimeDir, entries[..i]), name);
      var n := NumericSuffix(name);
      if !found {
        found, lowest, bestName := true, if n >= 0 then n else INT_MAX, name;
      } else if n >= 0 {
        if lowest == INT_MAX || n < lowest {
          lowest, bestName := n, name;
        }
      } else if lowest == INT_MAX {
        if Less(name, bestName) {
          bestName := name;
        }
      }
    }
    assert entries[..|entries|] == entries;
    forall w | Winner(Candidates(runtimeDir, entries), w) ensures found && bestName == w {
      WinnerIsSelected(Candidates(runtimeDir, entries), w);
    }
    if !found { return None; }
    if |runtimeDir| + 1 + |bestName| >= pathSize { return None; }
    if nameSize > 0 && |bestName| >= nameSize { return None; }
    return Some((runtimeDir + "/" + bestName, bestName));
  }

  /** Whatever is chosen is a socket with the prefix. */
  lemma ChoiceIsASocket(runtimeDir: string, entries: seq<SocketEntry>)
    ensures var best := Select(Candidates(runtimeDir, entries));
      best.Best? ==> SocketEntry(best.name, true) in entries && "wayland-" <= best.name
  {
    hide Less, NumericSuffix, Candidates, Select;
    SelectDescribes(Candidates(runtimeDir, entries));
    var best := Select(Candidates(runtimeDir, entries));
    if best.Best? { CandidatesAreTheSockets(runtimeDir, entries, best.name); }
  }

  lemma NothingSelected(runtimeDir: string)
    ensures Candidates(runtimeDir, []) == [] && Select([]) == Nothing
  {
  }

  lemma CandidatesStep(runtimeDir: string, entries: seq<SocketEntry>, i: nat)
    requires i < |entries|
    ensures entries[..0] == []
    ensures Candidates(runtimeDir, entries[..i + 1]) == if IsCandidate(runtimeDir, entries[i])
      then Candidates(runtimeDir, entries[..i]) + [entries[i].name] else Candidates(runtimeDir, entries[..i])
  {
    assert entries[..i + 1][..i] == entries[..i];
    assert Candidates(runtimeDir, entries[..i]) + [] == Candidates(runtimeDir, entries[..i]);
  }

  lemma ConsideredNext(names: seq<string>, x: string)
    ensures Select(names + [x]) == Consider(Select(names), x)
  {
    hide Consider;
    assert (names + [x])[..|names|] == names;
  }

  /** The number of an X11 socket, cut to an int as the loop does. */
  function DisplayNumber(e: SocketEntry): Option<int> {
    if e.name == [] || e.name[0] != 'X' || |e.name| == 1 || !IsDigit(e.name[1]) || !e.isSocket then None
    else
      var r := ReadLong(e.name[1..]);
      if r.rest == [] then Some(ToInt(r.value)) else None
  }

  /** Only a socket has a display number, and only if its name is X and a number with nothing behind it. */
  lemma NoDisplayNumber(e: SocketEntry, n: nat, rest: string)
    ensures !e.isSocket || |e.name| < 2 || e.name[0] != 'X' || !IsDigit(e.name[1]) ==> DisplayNumber(e) == None
    ensures e.name == "X" + Decimal(n) + rest && rest != [] && !IsDigit(rest[0]) ==> DisplayNumber(e) == None
  {
    hide ScanNumber, Decimal;
    if e.name == "X" + Decimal(n) + rest && rest != [] && !IsDigit(rest[0]) {
      assert e.name[1..] == Decimal(n) + rest;
      DigitsReadBack(Decimal(n), rest);
    }
  }

  /** The loop's choice so far, with one more entry. */
  function Lower(best: Option<int>, number: Option<int>): Option<int> {
    if number.Some? && (best == None || number.value < best.value) then number else best
  }

  function BestDisplay(entries: seq<SocketEntry>): Option<int> {
    if entries == [] then None
    else Lower(BestDisplay(entries[..|entries| - 1]), DisplayNumber(entries[|entries| - 1]))
  }

  method FindBestX11DisplayFromSocketDir(entries: seq<SocketEntry>) returns (best: Option<int>)
    ensures best == BestDisplay(entries)
    ensures best == None <==> forall e :: e in entries ==> DisplayNumber(e) == None
    ensures best.Some? ==>
      && (exists e :: e in entries && DisplayNumber(e) == best)
      && (forall e :: e in entries && DisplayNumber(e).Some? ==> best.value <= DisplayNumber(e).value)
  {
    hide DisplayNumber;
    best := None;
    for i := 0 to |entries|
      invariant best == BestDisplay(entries[..i])
    {
      assert entries[..i + 1][..i] == entries[..i];
      var number := DisplayNumber(entries[i]);
      if number.Some? && (best == None || number.value < best.value) {
        best := number;
      }
    }
    assert entries[..|entries|] == entries;
    BestDisplayIsLeast(entries);
  }

  /** The choice is the least of the numbers as the loop reads them. */
  lemma {:induction false} BestDisplayIsLeast(entries: seq<SocketEntry>)
    ensures BestDisplay(entries) == None <==> forall e :: e in entries ==> DisplayNumber(e) == None
    ensures BestDisplay(entries).Some? ==>
      && (exists e :: e in entries && DisplayNumber(e) == BestDisplay(entries))
      && (forall e :: e in entries && DisplayNumber(e).Some? ==> BestDisplay(entries).value <= DisplayNumber(e).value)
  {
    hide DisplayNumber;
    if entries != [] {
      var last := |entries| - 1;
      BestDisplayIsLeast(entries[..last]);
      assert entries == entries[..last] + [entries[last]];
    }
  }

  /** It does not depend on the order of the directory, whatever its numbers. */
  lemma BestDisplayIgnoresTheOrder(entries: seq<SocketEntry>, others: seq<SocketEntry>)
    requires multiset(entries) == multiset(others)
    ensures BestDisplay(entries) == BestDisplay(others)
  {
    hide DisplayNumber;
    assert forall e :: e in entries <==> e in multiset(entries);
    assert forall e :: e in others <==> e in multiset(others);
    BestDisplayIsLeast(entries);
    BestDisplayIsLeast(others);
  }

  /** The number an X11 socket's name really stands for. */
  function TrueNumber(e: SocketEntry): Option<int> {
    if DisplayNumber(e) == None then None
    else match ScanNumber(e.name[1..])
      case NoNumber => None
      case Number(v, _) => Some(v)
  }

  /** What clamping to a long and cutting to an int make of a number. */
  function AsRead(v: int): int {
    ToInt(if v > LONG_MAX then LONG_MAX else v)
  }

  /** The loop reads each number cut, which never makes it larger and leaves one up to INT_MAX alone. */
  lemma NumbersAreReadCut(e: SocketEntry)
    ensures match TrueNumber(e)
      case None => DisplayNumber(e) == None
      case Some(v) => DisplayNumber(e) == Some(AsRead(v)) && AsRead(v) <= v && (v <= INT_MAX ==> AsRead(v) == v)
  {
    if DisplayNumber(e).Some? {
      DigitIsNeitherSpaceNorSign(e.name[1]);
      var t := e.name[1..];
      assert t[0] == e.name[1] && SkipSpace(t) == t;
      assert LeadingDigits(t) != [];
    }
  }

  /** The display with the least number in its name. */
  ghost predicate HasLeastNumber(entries: seq<SocketEntry>, least: SocketEntry) {
    && least in entries && TrueNumber(least).Some?
    && forall e :: e in entries && TrueNumber(e).Some? ==> TrueNumber(least).value <= TrueNumber(e).value
  }

  /** Every number is up to INT_MAX, or what is left of it when it is read is not below n. */
  ghost predicate NoneFallsBelow(entries: seq<SocketEntry>, n: int) {
    forall e :: e in entries && TrueNumber(e).Some? ==>
      TrueNumber(e).value <= INT_MAX || AsRead(TrueNumber(e).value) >= n
  }

  /** The least numbered display is chosen if and only if no name holds a number above INT_MAX that falls below it by being cut. */
  lemma LeastDisplayIsChosenUnlessCut(entries: seq<SocketEntry>, least: SocketEntry)
    requires HasLeastNumber(entries, least)
    ensures BestDisplay(entries) == TrueNumber(least) <==> NoneFallsBelow(entries, TrueNumber(least).value)
  {
    hide DisplayNumber, TrueNumber, AsRead, BestDisplay;
    forall e ensures match TrueNumber(e)
      case None => DisplayNumber(e) == None
      case Some(v) => DisplayNumber(e) == Some(AsRead(v)) && AsRead(v) <= v && (v <= INT_MAX ==> AsRead(v) == v)
    {
      NumbersAreReadCut(e);
    }
    BestDisplayIsLeast(entries);
    assert DisplayNumber(least).Some?;
  }

  /** With all numbers up to INT_MAX the least display is chosen for every order of the directory. */
  lemma SmallNumbersGiveTheLeastDisplay(entries: seq<SocketEntry>, others: seq<SocketEntry>, least: SocketEntry)
    requires multiset(entries) == multiset(others) && HasLeastNumber(entries, least)
    requires forall e :: e in entries && TrueNumber(e).Some? ==> TrueNumber(e).value <= INT_MAX
    ensures BestDisplay(others) == TrueNumber(least)
  {
    hide DisplayNumber, TrueNumber, AsRead, BestDisplay, HasLeastNumber;
    BestDisplayIgnoresTheOrder(entries, others);
    LeastDisplayIsChosenUnlessCut(entries, least);
  }

  function Display(n: nat): SocketEntry {
    SocketEntry("X" + Decimal(n), true)
  }

  lemma NumbersOfDisplay(n: nat)
    requires n <= LONG_MAX
    ensures TrueNumber(Display(n)) == Some(n) && DisplayNumber(Display(n)) == Some(ToInt(n))
  {
    hide Decimal, ScanNumber;
    var name := "X" + Decimal(n);
    assert name[1..] == Decimal(n) && name[1] == Decimal(n)[0];
    ReadsBack(n);
  }

  /**
    A number beyond 32 bits is taken for the display number that it leaves: beside
    it a display with a number in between is not chosen, although it is the least.
   */
  lemma LargeNumbersAreCut(n: nat, between: nat)
    requires n < between <= INT_MAX
    ensures var large := n + 0x1_0000_0000;
      && DisplayNumber(Display(large)) == Some(n)
      && HasLeastNumber([Display(between), Display(large)], Display(between))
      && BestDisplay([Display(between), Display(large)]) == Some(n)
  {
    hide DisplayNumber, TrueNumber, Display;
    var large := n + 0x1_0000_0000;
    NumbersOfDisplay(between);
    NumbersOfDisplay(large);
    assert ToInt(large) == n;
    BestDisplayIsLeast([Display(between), Display(large)]);
  }

  lemma ReadsBack(n: nat)
    requires n <= LONG_MAX
    ensures ReadLong(Decimal(n)) == Strtol(n, [], false) && ScanNumber(Decimal(n)) == Number(n, [])
  {
    hide Decimal, ScanNumber;
    ValueOfDecimal(n);
    DigitsReadBack(Decimal(n), "");
    assert Decimal(n) + "" == Decimal(n);
  }
}
