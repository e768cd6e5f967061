/** Clock readings and the delays given to kernel timers. */
module TimeUtils {

  const MS_PER_S := 1000
  const NS_PER_MS := 1_000_000
  const NS_PER_S := 1_000_000_000

  datatype Timespec = Timespec(sec: int, nsec: int) {
    predicate Normalised() {
      0 <= nsec < NS_PER_S
    }

    /** The instant in nanoseconds. */
    function Ns(): int {
      sec * NS_PER_S + nsec
    }
  }

  /** Each reading is cut to whole milliseconds before the difference is taken. */
  function GetElapsedTimeMs(start: Timespec, end: Timespec): int {
    var startMs := start.sec * MS_PER_S + start.nsec / NS_PER_MS;
    var endMs := end.sec * MS_PER_S + end.nsec / NS_PER_MS;
    endMs - startMs
  }

  /** The it_value of a one-shot or periodic timer. */
  function TimerValue(delayMs: nat): Timespec {
    Timespec(delayMs / MS_PER_S, (delayMs % MS_PER_S) * NS_PER_MS)
  }

  lemma ElapsedIsAdditive(a: Timespec, b: Timespec, c: Timespec)
    ensures GetElapsedTimeMs(a, b) + GetElapsedTimeMs(b, c) == GetElapsedTimeMs(a, c)
  {
  }

  /** The truncated difference is off by less than one millisecond, and never negative for ordered readings. */
  lemma ElapsedIsWithinAMillisecond(start: Timespec, end: Timespec)
    requires start.Normalised() && end.Normalised()
    ensures -NS_PER_MS < end.Ns() - start.Ns() - GetElapsedTimeMs(start, end) * NS_PER_MS < NS_PER_MS
    ensures start.Ns() <= end.Ns() ==> 0 <= GetElapsedTimeMs(start, end)
  {
    WholeMilliseconds(start);
    WholeMilliseconds(end);
  }

  lemma WholeMilliseconds(t: Timespec)
    requires t.Normalised()
    ensures 0 <= t.Ns() - (t.sec * MS_PER_S + t.nsec / NS_PER_MS) * NS_PER_MS < NS_PER_MS
  {
    assert t.nsec == t.nsec / NS_PER_MS * NS_PER_MS + t.nsec % NS_PER_MS;
  }

  /** A timer value is a legal timespec that stands for exactly the delay asked for, and arms the timer unless that is 0. */
  lemma TimerValueIsExact(delayMs: nat)
    ensures TimerValue(delayMs).Normalised()
    ensures TimerValue(delayMs).Ns() == delayMs * NS_PER_MS
    ensures GetElapsedTimeMs(Timespec(0, 0), TimerValue(delayMs)) == delayMs
    ensures TimerValue(delayMs) == Timespec(0, 0) <==> delayMs == 0
  {
    var q, r := delayMs / MS_PER_S, delayMs % MS_PER_S;
    assert delayMs == q * MS_PER_S + r;
    assert r * NS_PER_MS / NS_PER_MS == r;
  }
}
