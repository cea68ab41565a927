/**
  The timing of internal/browsersession/heartbeat.go in milliseconds: how long one cycle's attempts can
  take, and whether a steadily succeeding job can be reported stale.
 */
module HeartbeatTiming {

  const ATTEMPTS: nat := 3
  const PROBE_TIMEOUT: nat := 10_000
  const RETRY_DELAY: nat := 250
  const GRACE: nat := 5_000
  const SECOND: nat := 1_000

  /** The longest a cycle's attempts and waits can take: three timeouts and waits of 250 and 500. */
  const LONGEST_CYCLE: nat := 30_750

  // ---- runProbeWithRetry ----

  datatype ProbeResult =
    | Success
    | OriginMismatch | TargetMissing | SensitiveScript | AutomationDisabled
    | Timeout | UnreadableResponse | Unavailable

  predicate Retryable(r: ProbeResult) {
    r.Timeout? || r.UnreadableResponse? || r.Unavailable?
  }

  /** What each attempt returns and how long it takes, and whether the context ends during the wait behind it. */
  datatype Script = Script(result: nat -> ProbeResult, millis: nat -> nat, waitEnds: nat -> bool, waited: nat -> nat)

  datatype Answer = Result(r: ProbeResult) | ContextEnded

  ghost predicate Timed(s: Script) {
    forall k: nat :: s.millis(k) <= PROBE_TIMEOUT && s.waited(k) <= k * RETRY_DELAY
  }

  /** Attempt k fails in a retryable way and the wait behind it passes. */
  predicate GoesOn(s: Script, k: nat) {
    Retryable(s.result(k)) && !s.waitEnds(k)
  }

  /** Attempts 1 to n-1 went on and attempt n settled the answer. */
  ghost predicate Settled(s: Script, n: nat, answer: Answer) {
    && 1 <= n <= ATTEMPTS
    && (forall k | 1 <= k < n :: GoesOn(s, k))
    && (n < ATTEMPTS ==> !GoesOn(s, n))
    && answer == if n < ATTEMPTS && Retryable(s.result(n)) then ContextEnded else Result(s.result(n))
  }

  /** The time until attempt n ends: the attempts, and the waits behind the earlier ones. */
  function Elapsed(s: Script, n: nat): nat {
    if n == 0 then 0 else Elapsed(s, n - 1) + (n - 1) * RETRY_DELAY + s.millis(n)
  }

  method RunProbeWithRetry(s: Script) returns (answer: Answer, attempts: nat, elapsed: nat)
    requires Timed(s)
    ensures Settled(s, attempts, answer)
    ensures elapsed == Elapsed(s, attempts) + (if answer == ContextEnded then s.waited(attempts) else 0)
    ensures elapsed <= LONGEST_CYCLE
  {
    attempts, elapsed := 0, 0;
    var last := Unavailable;
    while attempts < ATTEMPTS
      invariant 0 <= attempts < ATTEMPTS
      invariant forall k | 1 <= k <= attempts :: GoesOn(s, k)
      invariant elapsed == Elapsed(s, attempts) + attempts * RETRY_DELAY
      invariant elapsed <= attempts * PROBE_TIMEOUT + (if attempts == 2 then 750 else attempts * RETRY_DELAY)
      decreases ATTEMPTS - attempts
    {
      attempts := attempts + 1;
      last := s.result(attempts);
      elapsed := elapsed + s.millis(attempts);
      if last.Success? {
        return Result(last), attempts, elapsed;
      }
      if attempts == ATTEMPTS || !Retryable(last) {
        break;
      }
      if s.waitEnds(attempts) {
        return ContextEnded, attempts, elapsed + s.waited(attempts);
      }
      elapsed := elapsed + attempts * RETRY_DELAY;
    }
    answer := Result(last);
  }

  /** The attempts settle in one way only. */
  lemma SettledOnce(s: Script, m: nat, a: Answer, n: nat, b: Answer)
    requires Settled(s, m, a) && Settled(s, n, b)
    ensures m == n && a == b
  {
  }

  // ---- heartbeatOutcomeIsFresh ----

  /** The code's limit counts one wait of 250 ms for each retry, not the growing waits. */
  function MaximumAge(interval: nat): nat {
    interval + ATTEMPTS * PROBE_TIMEOUT + (ATTEMPTS - 1) * RETRY_DELAY + GRACE
  }

  predicate IsFresh(now: int, interval: nat, timestamp: int) {
    0 <= now - timestamp <= MaximumAge(interval)
  }

  /** A job whose every cycle succeeds: cycle i takes millis(i), and the next begins when both it and the
      interval are over. */
  datatype Job = Job(interval: nat, begin: nat, millis: nat -> nat)

  function Max(a: nat, b: nat): nat {
    if a >= b then a else b
  }

  function Started(j: Job, i: nat): nat {
    if i == 0 then j.begin else Started(j, i - 1) + Max(j.interval, j.millis(i - 1))
  }

  function Logged(j: Job, i: nat): nat {
    Started(j, i) + j.millis(i)
  }

  /** RFC 3339 keeps whole seconds. */
  function Timestamp(j: Job, i: nat): nat {
    Started(j, i) / SECOND * SECOND
  }

  /** Cycle i's outcome is the last one in the log at this time. */
  predicate LastLogged(j: Job, i: nat, now: int) {
    Logged(j, i) <= now < Logged(j, i + 1)
  }

  ghost predicate NeverStale(j: Job) {
    forall i: nat, now: int | LastLogged(j, i, now) :: IsFresh(now, j.interval, Timestamp(j, i))
  }

  ghost predicate Timely(j: Job) {
    forall i: nat :: j.millis(i) <= LONGEST_CYCLE
  }

  /** Oldest just before the next outcome is logged. */
  lemma WorstAge(j: Job, i: nat, now: int)
    requires LastLogged(j, i, now)
    ensures 0 <= now - Timestamp(j, i) <= Max(j.interval, j.millis(i)) + j.millis(i + 1) + SECOND - 2
  {
    assert Started(j, i + 1) == Started(j, i) + Max(j.interval, j.millis(i));
  }

  /** A job whose cycles fit into its interval is never reported stale. */
  lemma SteadyJobIsNeverStale(j: Job)
    requires Timely(j) && forall i: nat :: j.millis(i) <= j.interval
    ensures NeverStale(j)
  {
    forall i: nat, now: int | LastLogged(j, i, now) ensures IsFresh(now, j.interval, Timestamp(j, i)) {
      WorstAge(j, i, now);
      assert j.millis(i) <= j.interval && j.millis(i + 1) <= LONGEST_CYCLE;
    }
  }

  /** The interval from which no succeeding job at all is reported stale, though its cycles may overrun it. */
  const SAFE_INTERVAL: nat := 26_998

  ghost predicate NoJobIsStale(interval: nat) {
    forall j: Job | j.interval == interval && Timely(j) :: NeverStale(j)
  }

  lemma SafeIntervalIsSafe(interval: nat)
    requires interval >= SAFE_INTERVAL
    ensures NoJobIsStale(interval)
  {
    forall j: Job | j.interval == interval && Timely(j) ensures NeverStale(j) {
      forall i: nat, now: int | LastLogged(j, i, now) ensures IsFresh(now, j.interval, Timestamp(j, i)) {
        WorstAge(j, i, now);
        assert j.millis(i) <= LONGEST_CYCLE && j.millis(i + 1) <= LONGEST_CYCLE;
      }
    }
  }

  /** Below it, cycles that all need the full three attempts make the job look stale between two successes. */
  lemma ShorterIntervalsAreNot(interval: nat)
    requires interval < SAFE_INTERVAL
    ensures !NoJobIsStale(interval)
  {
    var j := Job(interval, 999, _ => LONGEST_CYCLE);
    assert Timely(j);
    assert Started(j, 0) == 999 && Started(j, 1) == 999 + LONGEST_CYCLE;
    var now := Logged(j, 1) - 1;
    assert LastLogged(j, 0, now);
    assert !IsFresh(now, interval, Timestamp(j, 0));
  }

  /** Exactly which intervals can never make a succeeding job look stale; the smallest allowed one, 15 s, can. */
  lemma StalenessIsExact(interval: nat)
    ensures NoJobIsStale(interval) <==> interval >= SAFE_INTERVAL
  {
    if interval >= SAFE_INTERVAL {
      SafeIntervalIsSafe(interval);
    } else {
      ShorterIntervalsAreNot(interval);
    }
  }
}
