/**
 * The two retry decorators of postgres_to_es/db/backoff.py.
 *
 * Both wrap a function and call it again and again until one call returns.
 * The wrapped function is an oracle here: `calls[i]` is what its i-th call
 * does (raise an error or return a value). `time.sleep` appends its argument
 * to the `sleeps` log that the model returns, and `logger.error` appends a
 * `LogLine`. A negative argument makes `time.sleep` raise ValueError; that
 * happens inside the `except` handler, so it escapes the wrapper.
 */
module Backoff {

  /** What one call of the wrapped function does. */
  datatype Outcome<T> = Failed(error: string) | Ok(value: T)

  /** How a retry wrapper ends. */
  datatype Exit<T> =
    | Returned(value: T)  // a call of the wrapped function returned
    | SleepRaised         // time.sleep was handed a negative delay and raised
    | Spins               // pg_backoff only: the outer loop turns forever and never calls

  /** One line written to the error log: the attempt number shown and the error. */
  datatype LogLine = LogLine(attempt: int, error: string)

  /** The defaults of `backoff` and of `pg_backoff`. */
  const BACKOFF_START: real := 0.1
  const BACKOFF_FACTOR: real := 2.0
  const BACKOFF_BORDER: real := 10.0
  const PG_START: int := 25
  const PG_FACTOR: int := 5
  const PG_BORDER: int := 1

  /** Some call of the wrapped function eventually returns. */
  predicate Eventually<T>(calls: seq<Outcome<T>>) {
    exists i :: 0 <= i < |calls| && calls[i].Ok?
  }

  /** The index of the first call that returns. */
  function FirstOk<T>(calls: seq<Outcome<T>>): (k: nat)
    requires Eventually(calls)
    ensures k < |calls| && calls[k].Ok?
    ensures forall i :: 0 <= i < k ==> calls[i].Failed?
  {
    if calls[0].Ok? then 0
    else
      assert Eventually(calls[1..]) by {
        var i :| 0 <= i < |calls| && calls[i].Ok?;
        assert calls[1..][i - 1].Ok?;
      }
      1 + FirstOk(calls[1..])
  }

  // ---------------------------------------------------------------------------
  // backoff: exponential delay, clamped once it has reached the border
  // ---------------------------------------------------------------------------

  /** `factor ** n`, as Python computes it on numbers. */
  function Pow(b: real, n: nat): real {
    if n == 0 then 1.0 else b * Pow(b, n - 1)
  }

  /** The value of `delay` after `k` failed calls. */
  function ExpDelay(start: real, factor: real, border: real, k: nat): real {
    if k == 0 then start
    else if ExpDelay(start, factor, border, k - 1) < border then start * Pow(factor, k - 1)
    else border
  }

  /** The first `n` sleeps of `backoff`: sleep i follows failure i and lasts ExpDelay(.., i + 1). */
  function ExpSleeps(start: real, factor: real, border: real, n: nat): (r: seq<real>)
    ensures |r| == n
  {
    if n == 0 then [] else ExpSleeps(start, factor, border, n - 1) + [ExpDelay(start, factor, border, n)]
  }

  /** Sleep i of `backoff` lasts ExpDelay(.., i + 1). */
  lemma {:induction false} ExpSleepsAt(start: real, factor: real, border: real, n: nat, i: nat)
    requires i < n
    ensures ExpSleeps(start, factor, border, n)[i] == ExpDelay(start, factor, border, i + 1)
  {
    if i < n - 1 {
      ExpSleepsAt(start, factor, border, n - 1, i);
    }
  }

  /** The error log of `backoff` after `n` failures. */
  function ExpLog<T>(calls: seq<Outcome<T>>, n: nat): (r: seq<LogLine>)
    requires n <= |calls| && forall i :: 0 <= i < n ==> calls[i].Failed?
    ensures |r| == n
  {
    if n == 0 then [] else ExpLog(calls, n - 1) + [LogLine(n - 1, calls[n - 1].error)]
  }

  /** Failure i of `backoff` is logged with attempt i and its own error. */
  lemma {:induction false} ExpLogAt<T>(calls: seq<Outcome<T>>, n: nat, i: nat)
    requires n <= |calls| && forall j :: 0 <= j < n ==> calls[j].Failed?
    requires i < n
    ensures ExpLog(calls, n)[i] == LogLine(i, calls[i].error)
  {
    if i < n - 1 {
      ExpLogAt(calls, n - 1, i);
    }
  }

  /** No delay in `s` is negative. */
  predicate NonNegative(s: seq<real>) {
    forall i :: 0 <= i < |s| ==> 0.0 <= s[i]
  }

  /**
   * `backoff(start, factor, border)` applied to a function whose calls behave
   * as `calls` says. It returns the first value a call returns; before that,
   * failure number i (from 0) is logged with attempt i and followed by a sleep
   * of ExpDelay(.., i + 1).
   */
  method Backoff<T>(calls: seq<Outcome<T>>, start: real, factor: real, border: real)
    returns (exit: Exit<T>, attempt: nat, sleeps: seq<real>, log: seq<LogLine>)
    requires Eventually(calls)
    ensures !exit.Spins?
    ensures attempt <= |sleeps| <= FirstOk(calls)
    ensures sleeps == ExpSleeps(start, factor, border, |sleeps|)
    ensures log == ExpLog(calls, |sleeps|)
    ensures NonNegative(sleeps[..attempt])
    ensures exit.Returned? ==>
      attempt == |sleeps| == FirstOk(calls) && exit.value == calls[attempt].value
    ensures exit.SleepRaised? ==> |sleeps| == attempt + 1 && sleeps[attempt] < 0.0
    ensures 0.0 <= start && 0.0 <= factor && 0.0 <= border ==> exit.Returned?
  {
    attempt := 0;
    var delay := start;
    sleeps, log := [], [];
    while true
      invariant attempt <= FirstOk(calls)
      invariant delay == ExpDelay(start, factor, border, attempt)
      invariant sleeps == ExpSleeps(start, factor, border, attempt)
      invariant log == ExpLog(calls, attempt)
      invariant NonNegative(sleeps)
      decreases FirstOk(calls) - attempt
    {
      match calls[attempt]
      case Ok(v) =>
        exit := Returned(v);
        assert sleeps[..attempt] == sleeps;
        return;
      case Failed(err) =>
        ExpRecord(calls, start, factor, border, attempt, sleeps, log);
        log := log + [LogLine(attempt, err)];
        if delay < border {
          delay := start * Pow(factor, attempt);
        } else {
          delay := border;
        }
        assert delay == ExpDelay(start, factor, border, attempt + 1);
        sleeps := sleeps + [delay];
        assert sleeps == ExpSleeps(start, factor, border, attempt + 1) && |sleeps| == attempt + 1;
        assert 0.0 <= start && 0.0 <= factor && 0.0 <= border ==> 0.0 <= delay by {
          if 0.0 <= start && 0.0 <= factor && 0.0 <= border {
            ExpDelayNonNegative(start, factor, border, attempt + 1);
          }
        }
        if delay < 0.0 {
          exit := SleepRaised;
          return;
        }
        attempt := attempt + 1;
    }
  }

  /** One more failed call extends the sleep log and the error log by one entry each. */
  lemma ExpRecord<T>(calls: seq<Outcome<T>>, start: real, factor: real, border: real, n: nat,
                     sleeps: seq<real>, log: seq<LogLine>)
    requires n < |calls| && forall j :: 0 <= j <= n ==> calls[j].Failed?
    requires sleeps == ExpSleeps(start, factor, border, n)
    requires log == ExpLog(calls, n)
    ensures ExpDelay(start, factor, border, n + 1) ==
      if ExpDelay(start, factor, border, n) < border then start * Pow(factor, n) else border
    ensures sleeps + [ExpDelay(start, factor, border, n + 1)] == ExpSleeps(start, factor, border, n + 1)
    ensures log + [LogLine(n, calls[n].error)] == ExpLog(calls, n + 1)
    ensures (sleeps + [ExpDelay(start, factor, border, n + 1)])[..n] == sleeps
  {
  }

  lemma {:induction false} PowNonNegative(b: real, n: nat)
    requires 0.0 <= b
    ensures 0.0 <= Pow(b, n)
  {
    if n > 0 {
      PowNonNegative(b, n - 1);
    }
  }

  /** With non-negative parameters no delay is negative, so time.sleep never raises. */
  lemma ExpDelayNonNegative(start: real, factor: real, border: real, k: nat)
    requires 0.0 <= start && 0.0 <= factor && 0.0 <= border
    ensures 0.0 <= ExpDelay(start, factor, border, k)
  {
    if k > 0 {
      PowNonNegative(factor, k - 1);
    }
  }

  /**
   * While every earlier delay of the pure exponential stays below the border,
   * the sleep after failure k is start * factor^k.
   */
  lemma {:induction false} ExpClosedForm(start: real, factor: real, border: real, k: nat)
    requires start < border
    requires forall j :: 0 <= j < k ==> start * Pow(factor, j) < border
    ensures ExpDelay(start, factor, border, k + 1) == start * Pow(factor, k)
  {
    if k > 0 {
      ExpClosedForm(start, factor, border, k - 1);
      assert start * Pow(factor, k - 1) < border;
      assert ExpDelay(start, factor, border, k) < border;
    }
  }

  /** Once a delay has reached the border, every later delay is the border exactly. */
  lemma {:induction false} ExpCapped(start: real, factor: real, border: real, i: nat, j: nat)
    requires border <= ExpDelay(start, factor, border, i)
    requires i < j
    ensures ExpDelay(start, factor, border, j) == border
  {
    if j > i + 1 {
      ExpCapped(start, factor, border, i, j - 1);
    }
  }

  /**
   * With the defaults the sleeps are 0.1, 0.2, ..., 6.4, then 12.8, which
   * overshoots the border of 10, then 10 for ever after.
   */
  lemma ExpDefaults()
    ensures ExpDelay(BACKOFF_START, BACKOFF_FACTOR, BACKOFF_BORDER, 1) == 0.1
    ensures ExpDelay(BACKOFF_START, BACKOFF_FACTOR, BACKOFF_BORDER, 7) == 6.4
    ensures ExpDelay(BACKOFF_START, BACKOFF_FACTOR, BACKOFF_BORDER, 8) == 12.8
    ensures forall k :: 9 <= k ==> ExpDelay(BACKOFF_START, BACKOFF_FACTOR, BACKOFF_BORDER, k) == BACKOFF_BORDER
  {
    var s, f, b := BACKOFF_START, BACKOFF_FACTOR, BACKOFF_BORDER;
    assert Pow(f, 0) == 1.0;
    assert Pow(f, 1) == 2.0;
    assert Pow(f, 2) == 4.0;
    assert Pow(f, 3) == 8.0;
    assert Pow(f, 4) == 16.0;
    assert Pow(f, 5) == 32.0;
    assert Pow(f, 6) == 64.0;
    assert Pow(f, 7) == 128.0;
    ExpClosedForm(s, f, b, 0);
    ExpClosedForm(s, f, b, 6);
    ExpClosedForm(s, f, b, 7);
    forall k | 9 <= k
      ensures ExpDelay(s, f, b, k) == b
    {
      ExpCapped(s, f, b, 8, k);
    }
  }

  // ---------------------------------------------------------------------------
  // pg_backoff: a delay that walks down to the border and back up to the start
  // ---------------------------------------------------------------------------

  /**
   * Where the ramp stands: the current `delay` and whether the last call was
   * made by the descending loop (true before the first call too).
   */
  datatype RampState = RampState(delay: int, falling: bool)

  /** Neither inner loop can run: the outer `while True` turns without a call. */
  predicate Stalled(start: int, border: int, delay: int) {
    start <= delay <= border
  }

  /**
   * The state after the next call. From the descending loop the next call is
   * another descending one if delay > border, else the first ascending one if
   * delay < start; from the ascending loop it is the reverse order, because
   * the ascending loop is re-checked first and the outer loop then re-enters
   * the descending one. In a stalled state no call comes and nothing changes.
   */
  function RampStep(start: int, factor: int, border: int, s: RampState): RampState {
    if s.falling then
      if s.delay > border then RampState(s.delay - factor, true)
      else if s.delay < start then RampState(s.delay + factor, false)
      else s
    else
      if s.delay < start then RampState(s.delay + factor, false)
      else if s.delay > border then RampState(s.delay - factor, true)
      else s
  }

  /** The ramp after `k` calls; the delay of call k (from 0) is RampAt(.., k + 1).delay. */
  function RampAt(start: int, factor: int, border: int, k: nat): RampState {
    if k == 0 then RampState(start, true)
    else RampStep(start, factor, border, RampAt(start, factor, border, k - 1))
  }

  /** The first `n` sleeps of `pg_backoff`: sleep i follows call i and lasts RampAt(.., i + 1).delay. */
  function RampSleeps(start: int, factor: int, border: int, n: nat): (r: seq<int>)
    ensures |r| == n
  {
    if n == 0 then [] else RampSleeps(start, factor, border, n - 1) + [RampAt(start, factor, border, n).delay]
  }

  lemma {:induction false} RampSleepsAt(start: int, factor: int, border: int, n: nat, i: nat)
    requires i < n
    ensures RampSleeps(start, factor, border, n)[i] == RampAt(start, factor, border, i + 1).delay
  {
    if i < n - 1 {
      RampSleepsAt(start, factor, border, n - 1, i);
    }
  }

  /**
   * The error log of `pg_backoff` after `n` failures: the descending loop
   * shows attempt + 1, the ascending loop shows attempt.
   */
  function RampLog<T>(start: int, factor: int, border: int, calls: seq<Outcome<T>>, n: nat): (r: seq<LogLine>)
    requires n <= |calls| && forall i :: 0 <= i < n ==> calls[i].Failed?
    ensures |r| == n
  {
    if n == 0 then []
    else
      var shown := if RampAt(start, factor, border, n).falling then n else n - 1;
      RampLog(start, factor, border, calls, n - 1) + [LogLine(shown, calls[n - 1].error)]
  }

  lemma {:induction false} RampLogAt<T>(start: int, factor: int, border: int, calls: seq<Outcome<T>>, n: nat, i: nat)
    requires n <= |calls| && forall j :: 0 <= j < n ==> calls[j].Failed?
    requires i < n
    ensures RampLog(start, factor, border, calls, n)[i]
      == LogLine(if RampAt(start, factor, border, i + 1).falling then i + 1 else i, calls[i].error)
  {
    if i < n - 1 {
      RampLogAt(start, factor, border, calls, n - 1, i);
    }
  }

  /** No delay in `s` is negative. */
  predicate IntNonNegative(s: seq<int>) {
    forall i :: 0 <= i < |s| ==> 0 <= s[i]
  }

  /** One more failed call extends the sleep log and the error log by one entry each. */
  lemma RampRecord<T>(start: int, factor: int, border: int, calls: seq<Outcome<T>>, n: nat,
                      sleeps: seq<int>, log: seq<LogLine>)
    requires n < |calls| && forall j :: 0 <= j <= n ==> calls[j].Failed?
    requires sleeps == RampSleeps(start, factor, border, n)
    requires log == RampLog(start, factor, border, calls, n)
    ensures sleeps + [RampAt(start, factor, border, n + 1).delay] == RampSleeps(start, factor, border, n + 1)
    ensures log + [LogLine(if RampAt(start, factor, border, n + 1).falling then n + 1 else n, calls[n].error)]
      == RampLog(start, factor, border, calls, n + 1)
    ensures sleeps[..n] == sleeps
  {
  }

  /** A call that returns ends `pg_backoff` with its value. */
  lemma RampReturns<T>(calls: seq<Outcome<T>>, start: int, factor: int, border: int,
                       attempt: nat, sleeps: seq<int>, log: seq<LogLine>)
    requires Eventually(calls) && attempt <= FirstOk(calls) && calls[attempt].Ok?
    requires sleeps == RampSleeps(start, factor, border, attempt)
    requires log == RampLog(start, factor, border, calls, attempt)
    requires IntNonNegative(sleeps)
    ensures RampEnded(calls, start, factor, border, Returned(calls[attempt].value), attempt, sleeps, log)
  {
    assert sleeps[..attempt] == sleeps;
  }

  /** A negative sleep after failure `attempt` ends `pg_backoff` with the error of time.sleep. */
  lemma RampRaises<T>(calls: seq<Outcome<T>>, start: int, factor: int, border: int,
                      attempt: nat, sleeps: seq<int>, log: seq<LogLine>)
    requires Eventually(calls) && attempt <= FirstOk(calls) && calls[attempt].Failed?
    requires |sleeps| == attempt + 1 && sleeps[attempt] < 0 && IntNonNegative(sleeps[..attempt])
    requires sleeps == RampSleeps(start, factor, border, attempt + 1)
    requires log == RampLog(start, factor, border, calls, attempt + 1)
    ensures RampEnded(calls, start, factor, border, SleepRaised, attempt, sleeps, log)
  {
  }

  /**
   * One failed call of the descending loop: the delay falls by the factor, the
   * log shows the call's own number, and a negative sleep ends the wrapper.
   */
  lemma RampFall<T>(calls: seq<Outcome<T>>, start: int, factor: int, border: int,
                    attempt: nat, delay: int, falling: bool, sleeps: seq<int>, log: seq<LogLine>)
    requires RampTrace(calls, start, factor, border, attempt, delay, falling, sleeps, log)
    requires delay > border && (!falling ==> delay >= start)
    requires calls[attempt].Failed?
    ensures delay - factor >= 0 ==>
      RampTrace(calls, start, factor, border, attempt + 1, delay - factor, true,
                sleeps + [delay - factor], log + [LogLine(attempt + 1, calls[attempt].error)])
    ensures delay - factor < 0 ==>
      RampEnded(calls, start, factor, border, SleepRaised, attempt,
                sleeps + [delay - factor], log + [LogLine(attempt + 1, calls[attempt].error)])
  {
    RampRecord(start, factor, border, calls, attempt, sleeps, log);
    var sleeps' := sleeps + [delay - factor];
    assert sleeps'[..attempt] == sleeps;
    if delay - factor < 0 {
      RampRaises(calls, start, factor, border, attempt, sleeps', log + [LogLine(attempt + 1, calls[attempt].error)]);
    }
  }

  /** What one inner loop of `pg_backoff` hands back: go on, or leave the wrapper. */
  datatype Turn<T> = Continue | Stop(exit: Exit<T>)

  /**
   * The state of `pg_backoff` after `attempt` failed calls: `delay` and the
   * ghost `falling` are RampAt(.., attempt), and the sleep and error logs are
   * those of the first `attempt` failures, none of them negative.
   */
  ghost predicate RampTrace<T>(calls: seq<Outcome<T>>, start: int, factor: int, border: int,
                               attempt: nat, delay: int, falling: bool, sleeps: seq<int>, log: seq<LogLine>)
  {
    && Eventually(calls)
    && attempt <= FirstOk(calls)
    && RampAt(start, factor, border, attempt) == RampState(delay, falling)
    && (attempt > 0 ==> start > border)
    && sleeps == RampSleeps(start, factor, border, attempt)
    && log == RampLog(start, factor, border, calls, attempt)
    && IntNonNegative(sleeps)
  }

  /**
   * How `pg_backoff` may end: on the first call that returns, or on a
   * negative sleep; either way the logs are those of the ramp.
   */
  ghost predicate RampEnded<T>(calls: seq<Outcome<T>>, start: int, factor: int, border: int,
                         exit: Exit<T>, attempt: nat, sleeps: seq<int>, log: seq<LogLine>)
    requires Eventually(calls)
  {
    && !exit.Spins?
    && attempt <= |sleeps| <= FirstOk(calls)
    && sleeps == RampSleeps(start, factor, border, |sleeps|)
    && log == RampLog(start, factor, border, calls, |sleeps|)
    && IntNonNegative(sleeps[..attempt])
    && (exit.Returned? ==> attempt == |sleeps| == FirstOk(calls) && exit.value == calls[attempt].value)
    && (exit.SleepRaised? ==> |sleeps| == attempt + 1 && sleeps[attempt] < 0)
  }

  /**
   * `pg_backoff(start, factor, border)` applied to a function whose calls
   * behave as `calls` says. Each call is preceded by one step of the ramp,
   * failure number i is followed by a sleep of RampAt(.., i + 1).delay, and
   * the function is called at all only when start > border.
   */
  method PgBackoff<T>(calls: seq<Outcome<T>>, start: int, factor: int, border: int)
    returns (exit: Exit<T>, attempt: nat, sleeps: seq<int>, log: seq<LogLine>)
    requires Eventually(calls)
    ensures exit.Spins? <==> start <= border
    ensures exit.Spins? ==> attempt == 0 && sleeps == [] && log == []
    ensures !exit.Spins? ==> RampEnded(calls, start, factor, border, exit, attempt, sleeps, log)
  {
    attempt := 0;
    var delay := start;
    sleeps, log := [], [];
    ghost var falling := true;
    while true
      invariant RampTrace(calls, start, factor, border, attempt, delay, falling, sleeps, log)
      invariant !falling ==> delay >= start
      decreases FirstOk(calls) - attempt
    {
      if Stalled(start, border, delay) {
        // No inner loop can run and nothing changes: the source spins here for ever.
        exit := Spins;
        return;
      }
      ghost var attempt0 := attempt;
      var turn;
      turn, attempt, delay, falling, sleeps, log :=
        RampDescend(calls, start, factor, border, attempt, delay, falling, sleeps, log);
      if turn.Stop? {
        exit := turn.exit;
        return;
      }
      turn, attempt, delay, falling, sleeps, log :=
        RampAscend(calls, start, factor, border, attempt, delay, falling, sleeps, log);
      if turn.Stop? {
        exit := turn.exit;
        return;
      }
      assert attempt > attempt0;
    }
  }

  /**
   * The descending loop of `pg_backoff`: while delay > border, step the delay
   * down by the factor and call; it leaves with delay <= border.
   */
  method RampDescend<T>(calls: seq<Outcome<T>>, start: int, factor: int, border: int,
                        attempt0: nat, delay0: int, ghost falling0: bool, sleeps0: seq<int>, log0: seq<LogLine>)
    returns (turn: Turn<T>, attempt: nat, delay: int, ghost falling: bool, sleeps: seq<int>, log: seq<LogLine>)
    requires RampTrace(calls, start, factor, border, attempt0, delay0, falling0, sleeps0, log0)
    requires !falling0 ==> delay0 >= start
    requires delay0 > border || delay0 < start
    ensures turn.Stop? ==> RampEnded(calls, start, factor, border, turn.exit, attempt, sleeps, log)
    ensures turn.Continue? ==>
      && RampTrace(calls, start, factor, border, attempt, delay, falling, sleeps, log)
      && attempt0 <= attempt && delay <= border && delay < start
      && (falling ==> delay <= border)
  {
    attempt, delay, falling, sleeps, log := attempt0, delay0, falling0, sleeps0, log0;
    while delay > border
      invariant RampTrace(calls, start, factor, border, attempt, delay, falling, sleeps, log)
      invariant attempt0 <= attempt
      invariant !falling ==> delay >= start
      invariant attempt == attempt0 ==> delay == delay0
      decreases FirstOk(calls) - attempt
    {
      ghost var wasFalling := falling;
      delay := delay - factor;
      falling := true;
      match calls[attempt]
      case Ok(v) =>
        turn := Stop(Returned(v));
        RampReturns(calls, start, factor, border, attempt, sleeps, log);
        return;
      case Failed(err) =>
        RampFall(calls, start, factor, border, attempt, delay + factor, wasFalling, sleeps, log);
        log := log + [LogLine(attempt + 1, err)];
        sleeps := sleeps + [delay];
        if delay < 0 {
          turn := Stop(SleepRaised);
          return;
        }
        attempt := attempt + 1;
    }
    turn := Continue;
  }

  /**
   * The ascending loop of `pg_backoff` (the `else` of the descending one):
   * while delay < start, step the delay up by the factor and call; it leaves
   * with delay >= start, after at least one call.
   */
  method RampAscend<T>(calls: seq<Outcome<T>>, start: int, factor: int, border: int,
                       attempt0: nat, delay0: int, ghost falling0: bool, sleeps0: seq<int>, log0: seq<LogLine>)
    returns (turn: Turn<T>, attempt: nat, delay: int, ghost falling: bool, sleeps: seq<int>, log: seq<LogLine>)
    requires RampTrace(calls, start, factor, border, attempt0, delay0, falling0, sleeps0, log0)
    requires falling0 ==> delay0 <= border
    requires delay0 <= border && delay0 < start
    ensures turn.Stop? ==> RampEnded(calls, start, factor, border, turn.exit, attempt, sleeps, log)
    ensures turn.Continue? ==>
      && RampTrace(calls, start, factor, border, attempt, delay, falling, sleeps, log)
      && attempt0 < attempt && delay >= start && !falling
  {
    attempt, delay, falling, sleeps, log := attempt0, delay0, falling0, sleeps0, log0;
    while delay < start
      invariant RampTrace(calls, start, factor, border, attempt, delay, falling, sleeps, log)
      invariant attempt0 <= attempt
      invariant falling ==> delay <= border
      invariant attempt == attempt0 ==> delay == delay0 && falling == falling0
      invariant attempt > attempt0 ==> !falling
      decreases FirstOk(calls) - attempt
    {
      delay := delay + factor;
      falling := false;
      match calls[attempt]
      case Ok(v) =>
        turn := Stop(Returned(v));
        RampReturns(calls, start, factor, border, attempt, sleeps, log);
        return;
      case Failed(err) =>
        RampRecord(start, factor, border, calls, attempt, sleeps, log);
        log := log + [LogLine(attempt, err)];
        sleeps := sleeps + [delay];
        if delay < 0 {
          turn := Stop(SleepRaised);
          RampRaises(calls, start, factor, border, attempt, sleeps, log);
          return;
        }
        attempt := attempt + 1;
    }
    turn := Continue;
  }

  /** When start <= border the ramp never moves: no call is ever made. */
  lemma {:induction false} RampStalls(start: int, factor: int, border: int, k: nat)
    requires start <= border
    ensures RampAt(start, factor, border, k) == RampState(start, true)
  {
    if k > 0 {
      RampStalls(start, factor, border, k - 1);
    }
  }

  /** Consecutive delays differ by exactly the factor, up or down. */
  lemma RampMovesByFactor(start: int, factor: int, border: int, k: nat)
    requires start > border
    ensures var d := RampAt(start, factor, border, k + 1).delay - RampAt(start, factor, border, k).delay;
      d == factor || d == -factor
  {
  }

  /** For a positive factor every delay lies strictly between border - factor and start + factor. */
  lemma {:induction false} RampBounds(start: int, factor: int, border: int, k: nat)
    requires start > border && factor > 0
    ensures border - factor < RampAt(start, factor, border, k).delay < start + factor
    ensures RampAt(start, factor, border, k).falling ==> RampAt(start, factor, border, k).delay <= start
  {
    if k > 0 {
      RampBounds(start, factor, border, k - 1);
    }
  }

  /** With the defaults the first five calls descend from 25 by 5 down to 0. */
  lemma {:induction false} RampDefaultsDown(k: nat)
    requires k <= 5
    ensures RampAt(PG_START, PG_FACTOR, PG_BORDER, k) == RampState(25 - 5 * k, true)
  {
    if k > 0 {
      RampDefaultsDown(k - 1);
    }
  }

  /** ... and the next five ascend from 0 by 5 back up to 25. */
  lemma {:induction false} RampDefaultsUp(j: nat)
    requires 1 <= j <= 5
    ensures RampAt(PG_START, PG_FACTOR, PG_BORDER, 5 + j) == RampState(5 * j, false)
  {
    if j == 1 {
      RampDefaultsDown(5);
    } else {
      RampDefaultsUp(j - 1);
    }
  }

  /** With the defaults the delays of calls 1..10 go down from 20 to 0 and back up to 25. */
  lemma RampDefaultDelays()
    ensures forall k :: 1 <= k <= 10 ==>
      RampAt(PG_START, PG_FACTOR, PG_BORDER, k).delay == if k <= 5 then 25 - 5 * k else 5 * (k - 5)
  {
    forall k | 1 <= k <= 5
      ensures RampAt(PG_START, PG_FACTOR, PG_BORDER, k).delay == 25 - 5 * k
    {
      RampDefaultsDown(k);
    }
    forall k | 6 <= k <= 10
      ensures RampAt(PG_START, PG_FACTOR, PG_BORDER, k).delay == 5 * (k - 5)
    {
      RampDefaultsUp(k - 5);
    }
  }

  /** The sleeps are exactly the delays after calls 1..n. */
  lemma {:induction false} RampSleepsMatch(start: int, factor: int, border: int, n: nat, expected: seq<int>)
    requires |expected| == n
    requires forall i :: 0 <= i < n ==> RampAt(start, factor, border, i + 1).delay == expected[i]
    ensures RampSleeps(start, factor, border, n) == expected
  {
    if n > 0 {
      RampSleepsMatch(start, factor, border, n - 1, expected[..n - 1]);
      assert expected == expected[..n - 1] + [expected[n - 1]];
    }
  }

  /** With the defaults 25, 5, 1 the sleeps are 20, 15, 10, 5, 0, 5, 10, 15, 20, 25. */
  lemma RampDefaults()
    ensures RampSleeps(PG_START, PG_FACTOR, PG_BORDER, 10) == [20, 15, 10, 5, 0, 5, 10, 15, 20, 25]
  {
    var expected := [20, 15, 10, 5, 0, 5, 10, 15, 20, 25];
    RampDefaultDelays();
    assert forall i :: 0 <= i < 10 ==> expected[i] == if i < 5 then 20 - 5 * i else 5 * (i - 4);
    RampSleepsMatch(PG_START, PG_FACTOR, PG_BORDER, 10, expected);
  }

  /** After ten calls the ramp is back where it was after the first. */
  lemma RampDefaultsTurn()
    ensures RampAt(PG_START, PG_FACTOR, PG_BORDER, 11) == RampAt(PG_START, PG_FACTOR, PG_BORDER, 1)
  {
    RampDefaultsUp(5);
    RampDefaultsDown(1);
  }

  /** With the defaults the ramp repeats with period 10 from the first call on. */
  lemma {:induction false} RampDefaultsPeriodic(k: nat)
    requires 1 <= k
    ensures RampAt(PG_START, PG_FACTOR, PG_BORDER, k + 10) == RampAt(PG_START, PG_FACTOR, PG_BORDER, k)
  {
    if k == 1 {
      RampDefaultsTurn();
    } else {
      RampDefaultsPeriodic(k - 1);
    }
  }
}
