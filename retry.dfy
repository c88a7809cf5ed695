/**
 * The `retry` decorator of utils/decorators.py: call the wrapped function,
 * catch only the configured exceptions, sleep for a geometrically growing
 * delay between attempts, and re-raise once the attempt budget is spent.
 *
 * The wrapped function is a total function of its arguments and of the call
 * number (0 for the first call), which stands for whatever outside state makes
 * one call fail and the next succeed.  Logging an attempt and sleeping are
 * recorded as events of a trace instead of being performed.
 */
module Retry {

  /** What one call of the wrapped function does: return a value or raise. */
  datatype Outcome<T, E> = Returned(value: T) | Raised(error: E)

  /** What the decorated function does for its caller. `NoResult` is the Python `None`
      that falls out when the loop body never runs. */
  datatype Result<T, E> = Value(value: T) | Raise(error: E) | NoResult

  /** `Try(n, args)`: the line "n. try:" is logged and the function is called with `args`;
      `Sleep(d)`: `time.sleep(d)`. */
  datatype Event<A> = Try(number: int, args: A) | Sleep(delay: real)

  datatype Run<T, E, A> = Run(result: Result<T, E>, trace: seq<Event<A>>)

  /** `_delay *= backoff_factor`: the delay before the next retry. */
  function NextDelay(delay: real, backoffFactor: real): real
  {
    delay * backoffFactor
  }

  function Pow(b: real, i: nat): real
  {
    if i == 0 then 1.0 else Pow(b, i - 1) * b
  }

  /** The call raised one of the configured exceptions (the `except exceptions` clause applies). */
  predicate Caught<T, E>(o: Outcome<T, E>, exceptions: E -> bool)
  {
    o.Raised? && exceptions(o.error)
  }

  /** How an attempt that is not retried ends the run. */
  function Final<T, E>(o: Outcome<T, E>): Result<T, E>
  {
    match o
    case Returned(v) => Value(v)
    case Raised(e) => Raise(e)
  }

  /**
   * The loop from the state where `k` calls have been made, `tries` is the
   * value of `_tries` and `delay` the value of `_delay`.
   */
  function Attempts<T, E, A>(f: (A, nat) -> Outcome<T, E>, args: A, exceptions: E -> bool,
                             totalTries: int, backoffFactor: real,
                             k: nat, tries: int, delay: real): Run<T, E, A>
    decreases tries
  {
    if tries <= 1 then Run(NoResult, [])
    else
      var attempt := Try(totalTries + 2 - tries, args);
      var o := f(args, k);
      if !Caught(o, exceptions) || tries - 1 == 1 then Run(Final(o), [attempt])
      else
        var rest := Attempts(f, args, exceptions, totalTries, backoffFactor, k + 1, tries - 1, NextDelay(delay, backoffFactor));
        Run(rest.result, [attempt, Sleep(delay)] + rest.trace)
  }

  /** The whole decorated call: `_tries, _delay = total_tries + 1, initial_wait`. */
  function Retried<T, E, A>(f: (A, nat) -> Outcome<T, E>, args: A, exceptions: E -> bool,
                            totalTries: int, initialWait: real, backoffFactor: real): Run<T, E, A>
  {
    Attempts(f, args, exceptions, totalTries, backoffFactor, 0, totalTries + 1, initialWait)
  }

  /** `func_with_retries(*args)`: the loop of the decorator, step by step. */
  method FuncWithRetries<T, E, A>(f: (A, nat) -> Outcome<T, E>, args: A, exceptions: E -> bool,
                                  totalTries: int, initialWait: real, backoffFactor: real)
    returns (result: Result<T, E>, trace: seq<Event<A>>)
    ensures Run(result, trace) == Retried(f, args, exceptions, totalTries, initialWait, backoffFactor)
  {
    var tries, delay := totalTries + 1, initialWait;
    var k: nat := 0;
    trace := [];
    while tries > 1
      invariant var rest := Attempts(f, args, exceptions, totalTries, backoffFactor, k, tries, delay);
        Retried(f, args, exceptions, totalTries, initialWait, backoffFactor) == Run(rest.result, trace + rest.trace)
      decreases tries
    {
      ghost var here := Attempts(f, args, exceptions, totalTries, backoffFactor, k, tries, delay);
      ghost var done := trace;
      var attempt := Try(totalTries + 2 - tries, args);
      trace := trace + [attempt];
      var o := f(args, k);
      if !Caught(o, exceptions) {
        result := Final(o);
        return;
      }
      tries := tries - 1;
      if tries == 1 {
        result := Raise(o.error);
        return;
      }
      var sleep, nextDelay := Sleep(delay), NextDelay(delay, backoffFactor);
      var next: nat := k + 1;
      ghost var rest := Attempts(f, args, exceptions, totalTries, backoffFactor, next, tries, nextDelay);
      assert here == Run(rest.result, [attempt, sleep] + rest.trace);
      trace := trace + [sleep];
      assert trace + rest.trace == done + ([attempt, sleep] + rest.trace);
      delay, k := nextDelay, next;
    }
    result := NoResult;
  }

  /** The attempts numbered k+1 .. j that fail and are retried: each is logged, then slept after. */
  function Steps<A>(args: A, initialWait: real, backoffFactor: real, k: nat, j: nat): seq<Event<A>>
    decreases j - k
  {
    if j <= k then []
    else [Try(k + 1, args), Sleep(Delay(initialWait, backoffFactor, k))] + Steps(args, initialWait, backoffFactor, k + 1, j)
  }

  /** Closed form of the schedule: attempt i+1 is logged at position 2i and followed by a sleep of
      `initial_wait * backoff_factor^i`. */
  lemma {:induction false} StepsAt<A>(args: A, w: real, b: real, k: nat, j: nat, i: nat)
    requires k <= i < j
    ensures |Steps(args, w, b, k, j)| == 2 * (j - k)
    ensures Steps(args, w, b, k, j)[2 * (i - k)] == Try(i + 1, args)
    ensures Steps(args, w, b, k, j)[2 * (i - k) + 1] == Sleep(Delay(w, b, i))
    decreases j - k
  {
    if i > k {
      StepsAt(args, w, b, k + 1, j, i);
    } else if k + 1 < j {
      StepsAt(args, w, b, k + 1, j, k + 1);
    }
  }

  /** The value of `_delay` after i retries: `initial_wait` multiplied i times by `backoff_factor`. */
  function Delay(w: real, b: real, i: nat): real
  {
    if i == 0 then w else NextDelay(Delay(w, b, i - 1), b)
  }

  /** The delays form the geometric sequence `initial_wait * backoff_factor^i`. */
  lemma {:induction false} DelayIsGeometric(w: real, b: real, i: nat)
    ensures Delay(w, b, i) == w * Pow(b, i)
  {
    if i > 0 {
      DelayIsGeometric(w, b, i - 1);
      assert w * Pow(b, i) == (w * Pow(b, i - 1)) * b;
    }
  }

  /**
   * When attempts k+1 .. j fail with a caught exception and attempt j+1 either
   * returns or raises something not caught, that attempt ends the run with its
   * own outcome, after the sleeps of the earlier ones.
   */
  lemma {:induction false} AttemptsStopAt<T, E, A>(f: (A, nat) -> Outcome<T, E>, args: A, exceptions: E -> bool,
                                                   total: int, w: real, b: real, k: nat, j: nat, d: real)
    requires k <= j < total && d == Delay(w, b, k)
    requires forall i :: k <= i < j ==> Caught(f(args, i), exceptions)
    requires !Caught(f(args, j), exceptions)
    ensures Attempts(f, args, exceptions, total, b, k, total + 1 - k, d)
         == Run(Final(f(args, j)), Steps(args, w, b, k, j) + [Try(j + 1, args)])
    decreases j - k
  {
    if k < j {
      AttemptsStopAt(f, args, exceptions, total, w, b, k + 1, j, NextDelay(d, b));
      assert B: Steps(args, w, b, k, j) == [Try(k + 1, args), Sleep(d)] + Steps(args, w, b, k + 1, j);
    }
  }

  /** When attempts k+1 .. total all fail with a caught exception, the last one is re-raised. */
  lemma {:induction false} AttemptsExhausted<T, E, A>(f: (A, nat) -> Outcome<T, E>, args: A, exceptions: E -> bool,
                                                      total: int, w: real, b: real, k: nat, d: real)
    requires k < total && d == Delay(w, b, k)
    requires forall i :: k <= i < total ==> Caught(f(args, i), exceptions)
    ensures Attempts(f, args, exceptions, total, b, k, total + 1 - k, d)
         == Run(Final(f(args, total - 1)), Steps(args, w, b, k, total - 1) + [Try(total, args)])
    decreases total - k
  {
    if k < total - 1 {
      AttemptsExhausted(f, args, exceptions, total, w, b, k + 1, NextDelay(d, b));
    }
  }

  /**
   * Retry exhaustion: with `total_tries = n >= 1` and every call raising a caught
   * exception, the function is called exactly n times (attempts logged 1..n,
   * always with the same arguments), n-1 sleeps of `initial_wait * backoff^i`
   * separate them, none follows the last failure, and the last exception is re-raised.
   */
  lemma RetryExhausted<T, E, A>(f: (A, nat) -> Outcome<T, E>, args: A, exceptions: E -> bool,
                                n: int, w: real, b: real)
    requires n >= 1
    requires forall i :: 0 <= i < n ==> Caught(f(args, i), exceptions)
    ensures var r := Retried(f, args, exceptions, n, w, b);
      && r.result == Final(f(args, n - 1))
      && r.trace == Steps(args, w, b, 0, n - 1) + [Try(n, args)]
      && |r.trace| == 2 * n - 1
  {
    AttemptsExhausted(f, args, exceptions, n, w, b, 0, w);
    if n > 1 {
      StepsAt(args, w, b, 0, n - 1, 0);
    }
  }

  /**
   * Success after k failures (k < n): the decorated call returns the function's
   * value after exactly k sleeps following the geometric sequence.  The same
   * holds when call k+1 raises an exception outside `exceptions`: it propagates
   * at once, with no further attempt and no sleep after it.
   */
  lemma RetryStopsAt<T, E, A>(f: (A, nat) -> Outcome<T, E>, args: A, exceptions: E -> bool,
                              n: int, w: real, b: real, k: nat)
    requires k < n
    requires forall i :: 0 <= i < k ==> Caught(f(args, i), exceptions)
    requires !Caught(f(args, k), exceptions)
    ensures var r := Retried(f, args, exceptions, n, w, b);
      && r.result == Final(f(args, k))
      && r.trace == Steps(args, w, b, 0, k) + [Try(k + 1, args)]
  {
    AttemptsStopAt(f, args, exceptions, n, w, b, 0, k, w);
  }

  /** An exception outside `exceptions` on the first call propagates with a single attempt and no sleep. */
  lemma UncaughtFirstCall<T, E, A>(f: (A, nat) -> Outcome<T, E>, args: A, exceptions: E -> bool,
                                   n: int, w: real, b: real)
    requires n >= 1 && f(args, 0).Raised? && !exceptions(f(args, 0).error)
    ensures Retried(f, args, exceptions, n, w, b) == Run(Raise(f(args, 0).error), [Try(1, args)])
  {
    RetryStopsAt(f, args, exceptions, n, w, b, 0);
  }

  /** With `total_tries <= 0` the loop guard fails at once: no call, no sleep, the result is None. */
  lemma NoTriesNoCall<T, E, A>(f: (A, nat) -> Outcome<T, E>, args: A, exceptions: E -> bool,
                               n: int, w: real, b: real)
    requires n <= 0
    ensures Retried(f, args, exceptions, n, w, b) == Run(NoResult, [])
  {
  }

  /** Whatever the calls do, a run with budget n >= 1 ends at some attempt j+1 <= n
      after the geometric schedule of the j attempts before it. */
  lemma {:induction false} AttemptsShape<T, E, A>(f: (A, nat) -> Outcome<T, E>, args: A, exceptions: E -> bool,
                                                  total: int, w: real, b: real, k: nat, d: real)
    requires k < total && d == Delay(w, b, k)
    ensures exists j :: k <= j < total && Attempts(f, args, exceptions, total, b, k, total + 1 - k, d).trace
                                          == Steps(args, w, b, k, j) + [Try(j + 1, args)]
    decreases total - k
  {
    var here := Attempts(f, args, exceptions, total, b, k, total + 1 - k, d);
    if Caught(f(args, k), exceptions) && k + 1 < total {
      var rest := Attempts(f, args, exceptions, total, b, k + 1, total - k, NextDelay(d, b));
      AttemptsShape(f, args, exceptions, total, w, b, k + 1, NextDelay(d, b));
      var j :| k + 1 <= j < total && rest.trace == Steps(args, w, b, k + 1, j) + [Try(j + 1, args)];
      assert here.trace == Steps(args, w, b, k, j) + [Try(j + 1, args)];
    } else {
      assert here.trace == Steps(args, w, b, k, k) + [Try(k + 1, args)];
    }
  }

  /** With `backoff_factor = 1` every sleep lasts `initial_wait`. */
  lemma {:induction false} PowOne(i: nat)
    ensures Pow(1.0, i) == 1.0
  {
    if i > 0 {
      PowOne(i - 1);
    }
  }

  /** With `backoff_factor = 1` every sleep in the first `j` steps lasts `w`. */
  lemma {:induction false} ConstantSleeps<A>(args: A, w: real, j: nat, p: nat)
    requires p < |Steps(args, w, 1.0, 0, j)| && Steps(args, w, 1.0, 0, j)[p].Sleep?
    ensures Steps(args, w, 1.0, 0, j)[p].delay == w
  {
    var i := p / 2;
    var b := 1.0;
    var z := 0;
    StepsAt(args, w, b, z, j, z);
    StepsAt(args, w, b, z, j, i);
    DelayIsGeometric(w, b, i);
    PowOne(i);
  }

  /**
   * With `backoff_factor = 1` (and every exception caught) a run makes at most
   * `total_tries` attempts, the last one logged as such, and every sleep lasts
   * exactly `initial_wait`.
   */
  lemma ConstantBackoff<T, E, A>(f: (A, nat) -> Outcome<T, E>, args: A, exceptions: E -> bool, n: int, w: real)
    requires n >= 1
    ensures var r := Retried(f, args, exceptions, n, w, 1.0);
      && (exists j :: 0 <= j < n && |r.trace| == 2 * j + 1 && r.trace[2 * j] == Try(j + 1, args))
      && (forall e :: e in r.trace && e.Sleep? ==> e.delay == w)
  {
    var r := Retried(f, args, exceptions, n, w, 1.0);
    var b := 1.0;
    var z := 0;
    AttemptsShape(f, args, exceptions, n, w, b, z, w);
    var j :| 0 <= j < n && r.trace == Steps(args, w, b, z, j) + [Try(j + 1, args)];
    var s := Steps(args, w, b, z, j);
    if j > 0 {
      StepsAt(args, w, b, z, j, z);
    }
    assert |r.trace| == 2 * j + 1 && r.trace[2 * j] == Try(j + 1, args);
    forall e | e in r.trace && e.Sleep?
      ensures e.delay == w
    {
      var p :| 0 <= p < |r.trace| && r.trace[p] == e;
      assert p < |s| && s[p] == e;
      ConstantSleeps(args, w, j, p);
    }
  }

  /**
   * `get_current_positions` is decorated with `retry(Exception, total_tries=10,
   * backoff_factor=1)` and the default `initial_wait=0.25`: every exception is
   * caught, there are at most 10 attempts, and every sleep lasts 0.25 seconds.
   */
  lemma CurrentPositionsRetryBudget<T, E, A>(f: (A, nat) -> Outcome<T, E>, args: A)
    ensures var r := Retried(f, args, _ => true, 10, 0.25, 1.0);
      && (exists j :: 0 <= j < 10 && |r.trace| == 2 * j + 1 && r.trace[2 * j] == Try(j + 1, args))
      && (forall e :: e in r.trace && e.Sleep? ==> e.delay == 0.25)
  {
    ConstantBackoff(f, args, _ => true, 10, 0.25);
  }
}
