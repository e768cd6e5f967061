/** Joining the words of the command line into one shell command. */
module Arguments {

  /** The arguments with a single space between neighbours. */
  function Join(arguments: seq<string>): string {
    if arguments == [] then []
    else if |arguments| == 1 then arguments[0]
    else Join(arguments[..|arguments| - 1]) + " " + arguments[|arguments| - 1]
  }

  /** The bytes the first pass counts: each argument and one byte behind it. */
  function BytesNeeded(arguments: seq<string>): nat {
    if arguments == [] then 0
    else BytesNeeded(arguments[..|arguments| - 1]) + |arguments[|arguments| - 1]| + 1
  }

  lemma {:induction false} JoinFits(arguments: seq<string>)
    requires arguments != []
    ensures |Join(arguments)| + 1 == BytesNeeded(arguments)
  {
    if |arguments| > 1 {
      JoinFits(arguments[..|arguments| - 1]);
    } else {
      assert arguments[..0] == [];
    }
  }

  /** Joining is the same piece by piece: two lists joined have one space between them, and one argument stays as it is. */
  lemma {:induction false} JoinOfParts(a: seq<string>, b: seq<string>, x: string)
    ensures Join([x]) == x
    ensures a != [] && b != [] ==> Join(a + b) == Join(a) + " " + Join(b)
    decreases |b|
  {
    if |b| > 1 {
      var last := |b| - 1;
      assert (a + b)[..|a + b| - 1] == a + b[..last];
      JoinOfParts(a, b[..last], x);
    } else if |b| == 1 {
      assert (a + b)[..|a|] == a;
    }
  }

  lemma OneArgumentMore(arguments: seq<string>, i: nat)
    requires i < |arguments|
    ensures BytesNeeded(arguments[..i + 1]) == BytesNeeded(arguments[..i]) + |arguments[i]| + 1
    ensures Join(arguments[..i + 1]) == if i == 0 then arguments[0] else Join(arguments[..i]) + " " + arguments[i]
  {
    assert arguments[..i + 1][..i] == arguments[..i];
  }

  lemma {:induction false} BytesNeededGrows(arguments: seq<string>, i: nat)
    requires i <= |arguments|
    ensures BytesNeeded(arguments[..i]) <= BytesNeeded(arguments)
  {
    if i < |arguments| {
      var rest := arguments[..|arguments| - 1];
      BytesNeededGrows(rest, i);
      assert rest[..i] == arguments[..i];
    } else {
      assert arguments[..i] == arguments;
    }
  }

  lemma NoBytesForNothing()
    ensures BytesNeeded([]) == 0
  {
  }

  /** Both passes; every byte of the buffer is written, and the last one ends the string. */
  method ReadRemainingArgumentsAsChar(arguments: seq<string>) returns (buffer: array<char>)
    requires arguments != []
    ensures buffer[..] == Join(arguments) + ['\0']
  {
    NoBytesForNothing();
    hide BytesNeeded, Join;
    assert arguments[..0] == [];
    var memory := 0;
    for i := 0 to |arguments|
      invariant memory == BytesNeeded(arguments[..i])
    {
      OneArgumentMore(arguments, i);
      memory := memory + |arguments[i]| + 1;
    }
    assert arguments[..|arguments|] == arguments;
    buffer := new char[memory];
    CopyArguments(buffer, arguments);
    buffer[buffer.Length - 1] := '\0';
    JoinFits(arguments);
    assert buffer[..] == buffer[..buffer.Length - 1] + ['\0'];
  }

  /** The second pass. */
  method CopyArguments(buffer: array<char>, arguments: seq<string>)
    requires arguments != [] && buffer.Length == BytesNeeded(arguments)
    modifies buffer
    ensures buffer[..] == Join(arguments) + " "
  {
    NoBytesForNothing();
    hide BytesNeeded, Join;
    assert arguments[..0] == [] && arguments[..|arguments|] == arguments;
    var length := 0;
    for i := 0 to |arguments|
      invariant length == BytesNeeded(arguments[..i]) <= buffer.Length
      invariant buffer[..length] == if i == 0 then [] else Join(arguments[..i]) + " "
    {
      OneArgumentMore(arguments, i);
      BytesNeededGrows(arguments, i + 1);
      length := AppendArgument(buffer, length, arguments[i]);
    }
    assert buffer[..length] == buffer[..];
  }

  method AppendArgument(buffer: array<char>, at: nat, s: string) returns (length: nat)
    requires at + |s| + 1 <= buffer.Length
    modifies buffer
    ensures length == at + |s| + 1 && buffer[..length] == old(buffer[..at]) + s + " "
  {
    CopyInto(buffer, at, s);
    assert buffer[..at + |s|] == old(buffer[..at]) + s;
    length := at + |s|;
    buffer[length] := ' ';
    length := length + 1;
  }

  /** memcpy of one argument. */
  method CopyInto(buffer: array<char>, at: nat, s: string)
    requires at + |s| <= buffer.Length
    modifies buffer
    ensures buffer[..at] == old(buffer[..at]) && buffer[at..at + |s|] == s
  {
    forall k | 0 <= k < |s| { buffer[at + k] := s[k]; }
  }

  // ---------- What the joined string still tells ----------

  /** The words of a string: its longest pieces without a space. */
  function Words(s: string): seq<string> {
    if s == [] then []
    else
      var last := |s| - 1;
      if s[last] == ' ' then Words(s[..last])
      else
        var w := LastWord(s);
        Words(s[..|s| - |w|]) + [w]
  }

  function LastWord(s: string): (w: string)
    ensures |w| <= |s| && w == s[|s| - |w|..] && ' ' !in w
    ensures s != [] && s[|s| - 1] != ' ' ==> w != []
    ensures |w| < |s| ==> s[|s| - |w| - 1] == ' '
  {
    if s == [] || s[|s| - 1] == ' ' then []
    else LastWord(s[..|s| - 1]) + [s[|s| - 1]]
  }

  lemma {:induction false} LastWordIs(s: string, w: string)
    requires IsWord(w) && (s == [] || s[|s| - 1] == ' ')
    ensures LastWord(s + w) == w
  {
    var t := s + w;
    assert t[..|t| - 1] == s + w[..|w| - 1];
    assert w == w[..|w| - 1] + [w[|w| - 1]];
    if |w| > 1 {
      LastWordIs(s, w[..|w| - 1]);
    } else {
      assert t[..|t| - 1] == s;
    }
  }

  predicate IsWord(w: string) {
    w != [] && ' ' !in w
  }

  lemma {:induction false} WordsAreProper(s: string)
    ensures forall k :: 0 <= k < |Words(s)| ==> IsWord(Words(s)[k])
  {
    if s != [] {
      if s[|s| - 1] == ' ' {
        WordsAreProper(s[..|s| - 1]);
      } else {
        WordsAreProper(s[..|s| - |LastWord(s)|]);
      }
    }
  }

  lemma OneWordMore(front: string, w: string)
    requires IsWord(w) && (front == [] || front[|front| - 1] == ' ')
    ensures Words(front + w) == Words(front) + [w]
  {
    LastWordIs(front, w);
    assert (front + w)[..|front|] == front;
  }

  lemma SpaceEndsWord(s: string)
    ensures Words(s + " ") == Words(s)
  {
    assert (s + " ")[..|s|] == s;
  }

  lemma {:induction false} WordsOfJoin(arguments: seq<string>)
    requires forall k :: 0 <= k < |arguments| ==> IsWord(arguments[k])
    ensures Words(Join(arguments)) == arguments
  {
    hide Words, Join, IsWord;
    Nothing();
    if arguments != [] {
      var last := |arguments| - 1;
      WordsOfJoin(arguments[..last]);
      OneArgumentMore(arguments, last);
      WordsOfJoinStep(arguments[..last], arguments[last]);
      assert arguments[..last + 1] == arguments[..last] + [arguments[last]] == arguments;
    }
  }

  lemma WordsOfJoinStep(rest: seq<string>, w: string)
    requires IsWord(w) && Words(Join(rest)) == rest
    ensures rest == [] ==> Words(w) == [w]
    ensures Words(Join(rest) + " " + w) == rest + [w]
  {
    hide Words, Join;
    if rest == [] {
      OneWordMore([], w);
      Nothing();
      assert [] + w == w;
    }
    SpaceEndsWord(Join(rest));
    OneWordMore(Join(rest) + " ", w);
  }

  lemma Nothing()
    ensures Words([]) == [] && Join([]) == []
  {
  }

  /** Splitting the joined string at its spaces gives the original arguments if and only if none of them is empty or holds a space. */
  lemma WordsSurviveExactlyWithoutSpaces(arguments: seq<string>)
    ensures Words(Join(arguments)) == arguments <==> forall k :: 0 <= k < |arguments| ==> IsWord(arguments[k])
  {
    hide Words, Join, IsWord;
    WordsAreProper(Join(arguments));
    if forall k :: 0 <= k < |arguments| ==> IsWord(arguments[k]) {
      WordsOfJoin(arguments);
    }
  }
}
