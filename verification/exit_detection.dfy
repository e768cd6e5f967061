/** Which ends of our own child the supervisor can notice. */
module ExitDetection {
  import opened CNumbers
  import opened Settings
  import opened SupervisorTrace

  /** Our child as the kernel keeps it: an end is kept until it has been asked for once. */
  datatype Child = Alive | Zombie(status: WaitStatus) | Reaped

  datatype ChildEvent = Ends(status: WaitStatus) | Asked

  function Happens(c: Child, e: ChildEvent): Child {
    match e
    case Ends(status) => if c.Alive? then Zombie(status) else c
    case Asked => if c.Zombie? then Reaped else c
  }

  /** What waitpid answers; a child that is stopped or running is not distinguished. */
  function Answer(c: Child): WaitStatus {
    match c
    case Alive => NoChange
    case Zombie(status) => status
    case Reaped => NoSuchChild
  }

  function After(history: seq<ChildEvent>): Child {
    if history == [] then Alive
    else Happens(After(history[..|history| - 1]), history[|history| - 1])
  }

  /** Some check in the history ends the program with this code. */
  ghost predicate Noticed(s: Settings, history: seq<ChildEvent>, code: int) {
    exists k: nat | k < |history| :: NoticedAt(s, history, code, k)
  }

  ghost predicate NoticedAt(s: Settings, history: seq<ChildEvent>, code: int, k: nat)
    requires k < |history|
  {
    history[k].Asked? && FinishedCode(s, Probe(false, Answer(After(history[..k])))) == Some(code)
  }

  /** How the child ended, if it has. */
  function EndOf(history: seq<ChildEvent>): Option<WaitStatus> {
    if history == [] then None
    else
      var last := |history| - 1;
      var before := EndOf(history[..last]);
      if before == None && history[last].Ends? then Some(history[last].status) else before
  }

  predicate AskedAfterEnd(history: seq<ChildEvent>) {
    history != [] &&
    var last := |history| - 1;
    AskedAfterEnd(history[..last]) || (EndOf(history[..last]).Some? && history[last].Asked?)
  }

  lemma {:induction false} StateAfter(history: seq<ChildEvent>)
    ensures After(history) == match EndOf(history)
      case None => Alive
      case Some(status) => if AskedAfterEnd(history) then Reaped else Zombie(status)
    ensures AskedAfterEnd(history) ==> EndOf(history).Some?
  {
    if history != [] {
      StateAfter(history[..|history| - 1]);
    }
  }

  /**
    The supervisor ends with the exit code of its own child if and only if the
    child exited normally and was asked about afterwards. A child killed by a
    signal is never noticed, however often it is asked about.
   */
  lemma {:induction false} OnlyNormalExitsAreNoticed(s: Settings, history: seq<ChildEvent>, code: nat)
    requires !s.externalPid
    ensures Noticed(s, history, code) <==> EndOf(history) == Some(ExitedWith(code)) && AskedAfterEnd(history)
  {
    if history != [] {
      var last := |history| - 1;
      var before := history[..last];
      OnlyNormalExitsAreNoticed(s, before, code);
      StateAfter(before);
      assert forall k: nat | k < last :: before[..k] == history[..k];
      assert forall k: nat | k < last :: NoticedAt(s, before, code, k) <==> NoticedAt(s, history, code, k);
      assert Noticed(s, history, code) <==> Noticed(s, before, code) || NoticedAt(s, history, code, last);
    }
  }
}
