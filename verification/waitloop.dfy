/** The poll loop (starlark_builtins.go, waitLoop): check, and sleep up to the deadline in between. */
module WaitLoop {
  datatype Verdict = True | False | CheckFailed

  datatype Ended = Became | TimedOut | Raised | Cancelled

  /** Sleeps until the deadline or for the interval, whichever is shorter; 500 to 700 ms by default. */
  const DEFAULT_INTERVAL: int := 500_000_000
  const JITTER: int := 200_000_000

  /** A sleep between two checks: asked for at instant `at`, when the check before had come back false. */
  datatype Nap = Nap(at: int, asked: int)

  function Min(a: int, b: int): int {
    if a < b then a else b
  }

  /** The sleep is for the interval, or half a second and some jitter without one, but never past the
      deadline. */
  predicate WellAsked(nap: Nap, interval: int, deadline: int) {
    var remaining := deadline - nap.at;
    && remaining > 0
    && if interval > 0 then nap.asked == Min(interval, remaining)
       else Min(DEFAULT_INTERVAL, remaining) <= nap.asked <= Min(DEFAULT_INTERVAL + JITTER, remaining)
  }

  function CeilDiv(a: int, b: int): int
    requires b > 0
  {
    (a + b - 1) / b
  }

  /** The time there is to wait in: none for a timeout of zero or less, which still makes one check. */
  function Room(timeout: int): nat {
    if timeout > 0 then timeout else 0
  }

  /** `n` full sleeps of length `step`. */
  function Slept(n: nat, step: int): int {
    if n == 0 then 0 else Slept(n - 1, step) + step
  }

  /** `checks` counts the checks made; `last` is the last one's verdict and `at` the instant at which its
      outcome was known.  With a positive interval there are at most ceil(timeout / interval) + 1 checks,
      at least one always, and False only after a check that came back false with the deadline passed; and
      the sleeps asked for never add up to more than the timeout.  Between any two checks there is one
      sleep, well asked: checks are no further apart than that, but for how long they take and how late
      the clock wakes them. */
  method Wait(start: int, timeout: int, interval: int)
    returns (ended: Ended, checks: nat, last: Verdict, at: int, slept: nat, naps: seq<Nap>)
    ensures checks >= 1 && at >= start
    ensures ended.Became? <==> last.True?
    ensures ended.Raised? <==> last.CheckFailed?
    ensures ended.TimedOut? ==> at >= start + timeout
    ensures ended.Cancelled? ==> at < start + timeout
    ensures slept <= Room(timeout) && checks == |naps| + 1
    ensures forall i :: 0 <= i < |naps| ==> WellAsked(naps[i], interval, start + timeout)
    ensures forall i :: 0 <= i < |naps| - 1 ==> naps[i].at + naps[i].asked <= naps[i + 1].at
    ensures naps != [] ==> naps[|naps| - 1].at + naps[|naps| - 1].asked <= at
    ensures interval > 0 ==> checks <= CeilDiv(Room(timeout), interval) + 1
    ensures interval <= 0 ==> checks <= CeilDiv(Room(timeout), DEFAULT_INTERVAL) + 1
  {
    var deadline := start + timeout;
    var step := if interval > 0 then interval else DEFAULT_INTERVAL;   // at least this much
    at := start;
    checks, slept, naps := 0, 0, [];
    ghost var waited := 0;   // full steps slept
    while true
      invariant checks == waited == |naps| && at >= start + slept && slept <= Room(timeout)
      invariant at >= start + Slept(waited, step) || at >= deadline
      invariant waited > 0 ==> Slept(waited - 1, step) < timeout
      invariant forall i :: 0 <= i < |naps| ==> WellAsked(naps[i], interval, deadline)
      invariant forall i :: 0 <= i < |naps| - 1 ==> naps[i].at + naps[i].asked <= naps[i + 1].at
      invariant naps != [] ==> naps[|naps| - 1].at + naps[|naps| - 1].asked <= at
      decreases if at < deadline then deadline - at else 0
    {
      var took: nat :| true;
      last :| true;
      at := at + took;
      checks := checks + 1;
      Few(timeout, step, checks);
      if !last.False? {
        return if last.True? then Became else Raised, checks, last, at, slept, naps;
      }
      var remaining := deadline - at;
      if remaining <= 0 {
        return TimedOut, checks, last, at, slept, naps;
      }
      var d := interval;
      if d <= 0 {
        var jitter: nat :| jitter < JITTER;
        d := DEFAULT_INTERVAL + jitter;
      }
      if d > remaining {
        d := remaining;
      }
      var cancelled: bool := *;
      if cancelled {
        return Cancelled, checks, last, at, slept, naps;
      }
      var late: nat :| true;
      naps := naps + [Nap(at, d)];
      at, slept := at + d + late, slept + d;
      waited := waited + 1;
    }
  }

  lemma {:induction false} SleptIsProduct(n: nat, step: int)
    ensures Slept(n, step) == n * step
  {
    if n > 0 {
      SleptIsProduct(n - 1, step);
    }
  }

  lemma CeilDivCovers(a: int, b: int)
    requires b > 0
    ensures CeilDiv(a, b) * b >= a
  {
    var n := a + b - 1;
    assert n == b * (n / b) + n % b;
  }

  lemma TimesGrows(m: int, n: int, b: int)
    requires m <= n && b > 0
    ensures m * b <= n * b
  {
  }

  lemma Few(timeout: int, step: int, checks: nat)
    requires step > 0 && checks >= 1
    requires checks >= 2 ==> Slept(checks - 2, step) < timeout
    ensures checks <= CeilDiv(Room(timeout), step) + 1
  {
    var q := CeilDiv(Room(timeout), step);
    CeilDivCovers(Room(timeout), step);
    if checks >= 2 {
      SleptIsProduct(checks - 2, step);
      if q <= checks - 2 {
        TimesGrows(q, checks - 2, step);
      }
    } else {
      assert q >= 0;
    }
  }
}
