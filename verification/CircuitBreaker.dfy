/** The startup circuit breaker: how many unclean starts in a row, and how long to wait. */
module CircuitBreaker {
  import opened Options

  const RESET_WINDOW_MS := 60 * 60 * 1000
  const BACKOFF_SCHEDULE_S := [0, 0, 10, 30, 120, 300, 900]

  /** What the state file holds; times are in milliseconds. */
  datatype State = State(attempt: int, timestamp: int)

  /** Seconds to wait; an attempt below one, as only a foreign file could cause, waits for nothing. */
  function GetDelay(attempt: int): int {
    var idx := if attempt - 1 <= |BACKOFF_SCHEDULE_S| - 1 then attempt - 1 else |BACKOFF_SCHEDULE_S| - 1;
    if idx < 0 then 0 else BACKOFF_SCHEDULE_S[idx]
  }

  function NextAttempt(file: Option<State>, now: int): int {
    if file.Some? && now - file.value.timestamp < RESET_WINDOW_MS then file.value.attempt + 1 else 1
  }

  /** A clean stop is a shutdown that removes the file. */
  datatype Event = Start(now: int) | CleanStop

  function Step(file: Option<State>, e: Event): Option<State> {
    match e
    case Start(now) => Some(State(NextAttempt(file, now), now))
    case CleanStop => None
  }

  /** The file after a history, from a fresh checkout. */
  function After(h: seq<Event>): Option<State> {
    if h == [] then None else Step(After(h[..|h| - 1]), h[|h| - 1])
  }

  // ---------------------------------------------------------------------------------------------
  // The count
  // ---------------------------------------------------------------------------------------------

  predicate Follows(earlier: Event, later: Event) {
    earlier.Start? && later.Start? && later.now - earlier.now < 3600000  // an hour
  }

  /** The last k events are starts, each within the window of the one before. */
  predicate IsChain(h: seq<Event>, k: int) {
    && 1 <= k <= |h| && h[|h| - 1].Start?
    && forall i :: |h| - k < i < |h| ==> Follows(h[i - 1], h[i])
  }

  lemma {:induction false} StateOfStart(h: seq<Event>)
    ensures h != [] && h[|h| - 1].Start? ==> After(h).Some? && After(h).value.timestamp == h[|h| - 1].now
    ensures h == [] || h[|h| - 1].CleanStop? ==> After(h).None?
  {
  }

  lemma ChainGrows(h: seq<Event>, k: int)
    requires |h| > 1
    ensures IsChain(h, k + 1) && k >= 1 <==> k >= 1 && IsChain(h[..|h| - 1], k) && Follows(h[|h| - 2], h[|h| - 1])
  {
    var rest := h[..|h| - 1];
    if k >= 1 && IsChain(h, k + 1) {
      assert Follows(h[|h| - 1 - 1], h[|h| - 1]);
      forall i | |rest| - k < i < |rest|
        ensures Follows(rest[i - 1], rest[i])
      {
        assert Follows(h[i - 1], h[i]);
      }
    }
    if k >= 1 && IsChain(rest, k) && Follows(h[|h| - 2], h[|h| - 1]) {
      forall i | |h| - (k + 1) < i < |h|
        ensures Follows(h[i - 1], h[i])
      {
        if i < |rest| { assert Follows(rest[i - 1], rest[i]); }
      }
    }
  }

  /** Over every history: the attempt written by a start is the length of the longest chain of starts
      that ends with it, with gaps under an hour and no clean stop in between. */
  lemma {:induction false} AttemptIsLongestChain(h: seq<Event>, k: int)
    requires h != [] && h[|h| - 1].Start?
    ensures After(h).Some? && After(h).value.attempt >= 1
    ensures IsChain(h, k) <==> 1 <= k <= After(h).value.attempt
    decreases |h|
  {
    var rest := h[..|h| - 1];
    StateOfStart(rest);
    if rest != [] && rest[|rest| - 1].Start? {
      AttemptIsLongestChain(rest, k - 1);
      ChainGrows(h, k - 1);
    }
    if k > 1 && IsChain(h, k) { LastTwoFollow(h, k); }
  }

  lemma LastTwoFollow(h: seq<Event>, k: int)
    requires k > 1 && IsChain(h, k)
    ensures |h| > 1 && Follows(h[|h| - 2], h[|h| - 1])
  {
    assert Follows(h[|h| - 1 - 1], h[|h| - 1]);
  }

  // ---------------------------------------------------------------------------------------------
  // The delay
  // ---------------------------------------------------------------------------------------------

  lemma DelayIsMonotone(a: int, b: int)
    requires a <= b
    ensures 0 <= GetDelay(a) <= GetDelay(b) <= 900
    ensures b >= 7 <==> GetDelay(b) == 900
  {
  }

  /** The waits of the first seven attempts; later ones wait as long as the seventh. */
  lemma DelayOfAttempt(attempt: int)
    ensures GetDelay(1) == 0 && GetDelay(2) == 0 && GetDelay(3) == 10 && GetDelay(4) == 30
    ensures GetDelay(5) == 120 && GetDelay(6) == 300 && GetDelay(7) == 900
    ensures attempt > 7 ==> GetDelay(attempt) == 900
  {
  }

  /** The longest wait is shorter than the window: a process that crashes while it waits, or right
      after, is still counted by the next start. */
  lemma WaitingNeverResets(h: seq<Event>, now: int)
    requires h != [] && h[|h| - 1].Start?
    requires now <= h[|h| - 1].now + 1000 * GetDelay(After(h).value.attempt)
    ensures After(h + [Start(now)]) == Some(State(After(h).value.attempt + 1, now))
  {
    var attempt := After(h).value.attempt;
    StateOfStart(h);
    DelayIsMonotone(attempt, attempt);
    assert (h + [Start(now)])[..|h|] == h;
  }

  /** Starts only, each after the wait of the one before and within the window. */
  predicate IsCrashLoop(h: seq<Event>) {
    && (forall i :: 0 <= i < |h| ==> h[i].Start?)
    && (forall i :: 0 < i < |h| ==> 1000 * GetDelay(i) <= h[i].now - h[i - 1].now < RESET_WINDOW_MS)
  }

  /** The waits of the first n attempts, in seconds. */
  function TotalBackoff(n: nat): int {
    if n == 0 then 0 else TotalBackoff(n - 1) + GetDelay(n)
  }

  lemma {:induction false} TotalBackoffIsLinear(n: nat)
    requires n >= 6
    ensures TotalBackoff(n) == 460 + 900 * (n - 6)
  {
    if n == 6 {
      assert TotalBackoff(2) == 0 && TotalBackoff(3) == 10;
      assert TotalBackoff(4) == 40 && TotalBackoff(5) == 160;
    } else {
      TotalBackoffIsLinear(n - 1);
      DelayIsMonotone(n, n);
    }
  }

  /** A crash loop is throttled: its n-th start writes n and comes no sooner after the first than all the
      waits before it, which for seven starts or more is 460 seconds and then 900 for each. */
  lemma {:induction false} CrashLoopIsThrottled(h: seq<Event>)
    requires h != [] && IsCrashLoop(h)
    ensures After(h) == Some(State(|h|, h[|h| - 1].now))
    ensures h[|h| - 1].now - h[0].now >= 1000 * TotalBackoff(|h| - 1)
    ensures |h| >= 7 ==> h[|h| - 1].now - h[0].now >= 1000 * (460 + 900 * (|h| - 7))
    decreases |h|
  {
    if |h| >= 7 { TotalBackoffIsLinear(|h| - 1); }
    var rest := h[..|h| - 1];
    if rest != [] {
      CrashLoopIsThrottled(rest);
      assert h[|h| - 1].now - h[|h| - 2].now >= 1000 * GetDelay(|h| - 1);
    }
  }

  // ---------------------------------------------------------------------------------------------
  // The object
  // ---------------------------------------------------------------------------------------------

  class Breaker {
    var file: Option<State>

    constructor ()
      ensures file == After([])
    {
      file := None;
    }

    /** Returns the wait; the file is written before it begins. */
    method EnforceStartupBackoff(now: int, ghost h: seq<Event>) returns (delaySec: int)
      requires file == After(h)
      modifies this
      ensures file == After(h + [Start(now)])
      ensures delaySec == GetDelay(file.value.attempt) && 0 <= delaySec <= 900
    {
      assert (h + [Start(now)])[..|h|] == h;
      var attempt;
      if file.None? {
        attempt := 1;
      } else {
        var elapsedMs := now - file.value.timestamp;
        if elapsedMs < RESET_WINDOW_MS {
          attempt := file.value.attempt + 1;
        } else {
          attempt := 1;
        }
      }
      file := Some(State(attempt, now));
      delaySec := GetDelay(attempt);
      DelayIsMonotone(attempt, attempt);
    }

    method ResetCircuitBreaker(ghost h: seq<Event>)
      requires file == After(h)
      modifies this
      ensures file == After(h + [CleanStop])
    {
      assert (h + [CleanStop])[..|h|] == h;
      file := None;
    }
  }
}
