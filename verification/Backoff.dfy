/** Delays before trying again: poll backoff, change checks, long-poll requests, token refreshes. */
module Backoff {
  import opened Text

  // Durations are nanoseconds in an int64.
  const SECOND := 1_000_000_000
  const POLL_BASE_DELAY := 2 * SECOND
  const POLL_IDLE_CAP := 30 * SECOND
  const POLL_FAILURE_CAP := 60 * SECOND
  const ACTIVITY_CHECK_INTERVAL := 3 * SECOND
  const ACTIVITY_FAILURE_MAX := 60 * SECOND
  const LONG_POLL_RETRY_DELAY := 2 * SECOND
  const LONG_POLL_MAX_RETRY_DELAY := 60 * SECOND
  const REFRESH_BACKOFF_BASE := 30 * SECOND
  const REFRESH_BACKOFF_MAX := 15 * 60 * SECOND
  const REFRESH_NETWORK_BACKOFF_MAX := 2 * 60 * SECOND
  const THROTTLE_DEFAULT := 30 * SECOND
  const THROTTLE_MAX := 10 * 60 * SECOND

  function Min(a: int, b: int): int {
    if a < b then a else b
  }

  function Pow2(n: nat): nat {
    if n == 0 then 1 else 2 * Pow2(n - 1)
  }

  // A product or shift as int64 arithmetic leaves it.
  function WrapInt64(x: int): int {
    (x + TWO_64 / 2) % TWO_64 - TWO_64 / 2
  }

  // What every backoff is meant to be.
  function Exponential(base: nat, n: nat, cap: nat): nat {
    if base * Pow2(n) < cap then base * Pow2(n) else cap
  }

  // ----- errors -----

  // What errors.As finds in an error: an answer worth retrying, an answer of
  // the messages endpoint; and whether there was no answer, and whether the
  // identity provider rejected the refresh token.
  datatype Retryable = Retryable(status: int, retryAfter: int)
  datatype MessagesError = MessagesError(status: int, snippet: string)
  datatype Error = Error(retryable: Option<Retryable>, messages: Option<MessagesError>, network: bool, permanent: bool)

  predicate IsClient4xxNon429(status: int) {
    400 <= status < 500 && status != 429
  }

  // How long to pause all polling, if the error is Teams rate-limiting.
  function TeamsThrottle(err: Option<Error>): (pause: Option<int>)
    ensures pause.Some? ==> 0 < pause.value <= THROTTLE_MAX
    ensures pause.Some? <==> err.Some? && err.value.retryable.Some? && err.value.retryable.value.status == 429
  {
    if err.None? || err.value.retryable.None? || err.value.retryable.value.status != 429 then None
    else if err.value.retryable.value.retryAfter <= 0 then Some(THROTTLE_DEFAULT)
    else Some(Min(err.value.retryable.value.retryAfter, THROTTLE_MAX))
  }

  // Teams' own delay is kept up to ten minutes; without one it is half a minute.
  lemma PauseExactly(err: Error, d: int)
    requires err.retryable == Some(Retryable(429, d))
    ensures TeamsThrottle(Some(err)) ==
            Some(if d <= 0 then 30 * SECOND else if d < 600 * SECOND then d else 600 * SECOND)
  {
  }

  predicate IsThreadGone(err: Option<Error>) {
    && err.Some? && err.value.messages.Some? && err.value.messages.value.status == 404
    && (Contains(err.value.messages.value.snippet, "ThreadNotFound") || Contains(err.value.messages.value.snippet, "SoftDeleted"))
  }

  // ----- shifts that are clamped -----

  lemma {:induction false} Pow2Grows(m: nat, n: nat)
    requires m <= n
    ensures Pow2(m) <= Pow2(n)
  {
    if m < n { Pow2Grows(m, n - 1); }
  }

  // Clamping the shift changes nothing once base << limit is past the cap.
  lemma ClampedShift(base: nat, n: nat, limit: nat, cap: nat)
    requires cap <= base * Pow2(limit) <= MAX_INT64
    ensures var shift := if n < limit then n else limit;
            && base * Pow2(shift) <= MAX_INT64
            && Min(WrapInt64(base * Pow2(shift)), cap) == Exponential(base, n, cap)
  {
    var shift := if n < limit then n else limit;
    Pow2Grows(shift, limit);
    Pow2Grows(shift, n);
    Scaled(base, Pow2(shift), Pow2(limit));
    Scaled(base, Pow2(shift), Pow2(n));
  }

  lemma Scaled(base: nat, a: nat, b: nat)
    requires a <= b
    ensures base * a <= base * b
  {
  }

  function ActivityRetryDelay(failures: int): int {
    if failures <= 0 then ACTIVITY_CHECK_INTERVAL
    else Min(WrapInt64(ACTIVITY_CHECK_INTERVAL * Pow2(if failures < 6 then failures else 6)), ACTIVITY_FAILURE_MAX)
  }

  lemma ActivityDelayIsExponential(failures: nat)
    ensures ActivityRetryDelay(failures) == Exponential(ACTIVITY_CHECK_INTERVAL, failures, ACTIVITY_FAILURE_MAX)
  {
    assert Pow2(6) == 64;
    if failures > 0 { ClampedShift(ACTIVITY_CHECK_INTERVAL, failures, 6, ACTIVITY_FAILURE_MAX); }
  }

  function LongPollDelay(failures: int): int
    requires failures > 0
  {
    Min(WrapInt64(LONG_POLL_RETRY_DELAY * Pow2(if failures - 1 < 5 then failures - 1 else 5)), LONG_POLL_MAX_RETRY_DELAY)
  }

  lemma LongPollDelayIsExponential(failures: nat)
    requires failures > 0
    ensures LongPollDelay(failures) == Exponential(LONG_POLL_RETRY_DELAY, failures - 1, LONG_POLL_MAX_RETRY_DELAY)
  {
    assert Pow2(5) == 32;
    ClampedShift(LONG_POLL_RETRY_DELAY, failures - 1, 5, LONG_POLL_MAX_RETRY_DELAY);
  }

  function RefreshShifted(failures: int): int {
    if failures > 1 then WrapInt64(REFRESH_BACKOFF_BASE * Pow2(if failures - 1 < 10 then failures - 1 else 10))
    else REFRESH_BACKOFF_BASE
  }

  lemma RefreshDelayIsExponential(failures: nat)
    requires failures > 0
    ensures Min(RefreshShifted(failures), REFRESH_BACKOFF_MAX) ==
            Exponential(REFRESH_BACKOFF_BASE, failures - 1, REFRESH_BACKOFF_MAX)
  {
    assert Pow2(10) == 1024;
    if failures > 1 { ClampedShift(REFRESH_BACKOFF_BASE, failures - 1, 10, REFRESH_BACKOFF_MAX); }
  }

  class RefreshFailure {
    var failures: nat
    var until: int
    var err: Option<Error>

    constructor ()
      ensures failures == 0 && until == 0 && err.None?
    {
      failures, until, err := 0, 0, None;
    }

    // A refused token waits the longest, but no failure to get an answer
    // waits longer than the network cap.
    method Record(now: int, e: Error)
      modifies this
      ensures failures == old(failures) + 1 && err == Some(e)
      ensures until == now +
              var delay := if e.permanent then REFRESH_BACKOFF_MAX
                           else Exponential(REFRESH_BACKOFF_BASE, old(failures), REFRESH_BACKOFF_MAX);
              if e.network then Min(delay, REFRESH_NETWORK_BACKOFF_MAX) else delay
    {
      failures := failures + 1;
      RefreshDelayIsExponential(failures);
      var delay := RefreshShifted(failures);
      if delay > REFRESH_BACKOFF_MAX || e.permanent {
        delay := REFRESH_BACKOFF_MAX;
      }
      if e.network && delay > REFRESH_NETWORK_BACKOFF_MAX {
        delay := REFRESH_NETWORK_BACKOFF_MAX;
      }
      until := now + delay;
      err := Some(e);
    }

    method Blocked(now: int) returns (cached: Option<Error>)
      ensures cached == if now < until then err else None
    {
      if err.None? || now >= until {
        return None;
      }
      return err;
    }

    method Reset()
      modifies this
      ensures failures == 0 && until == 0 && err.None?
    {
      failures, until, err := 0, 0, None;
    }
  }

  // ----- a shift that is not -----

  // OnFailure's delay: multiplied first, capped after.
  function FailureDelay(failures: int): int {
    Min(if failures > 1 then WrapInt64(POLL_BASE_DELAY * Pow2(failures - 1)) else POLL_BASE_DELAY, POLL_FAILURE_CAP)
  }

  // The counts past 33 for which the wrapped product is positive after all.
  const LUCKY_FAILURES := {37, 41, 42, 45, 47, 50, 51, 53}

  lemma {:induction false} Pow2Adds(m: nat, n: nat)
    ensures Pow2(m + n) == Pow2(m) * Pow2(n)
  {
    if n > 0 { Pow2Adds(m, n - 1); }
  }

  lemma Pow2Values()
    ensures Pow2(32) == 0x1_0000_0000 && Pow2(33) == 0x2_0000_0000 && Pow2(54) == 0x40_0000_0000_0000
  {
    Pow2Small();
    Pow2Adds(8, 8);
    Pow2Adds(16, 16);
    Pow2Adds(32, 16);
    Pow2Adds(48, 6);
    Pow2Adds(32, 1);
  }

  lemma Pow2Small()
    ensures Pow2(1) == 2 && Pow2(6) == 64 && Pow2(8) == 256
  {
    assert Pow2(3) == 8;
    Pow2Adds(3, 3);
    Pow2Adds(6, 1);
    Pow2Adds(7, 1);
  }

  // From 2^54 on the product is a multiple of 2^64.
  lemma WrapsToZero(n: nat)
    requires n >= 54
    ensures WrapInt64(POLL_BASE_DELAY * Pow2(n)) == 0
  {
    Pow2Values();
    Pow2Adds(54, n - 54);
    Regroup(Pow2(n - 54));
    MultipleWraps(1953125 * Pow2(n - 54));
  }

  lemma Regroup(m: nat)
    ensures POLL_BASE_DELAY * (0x40_0000_0000_0000 * m) == 1953125 * m * TWO_64
  {
    assert POLL_BASE_DELAY * 0x40_0000_0000_0000 == 1953125 * TWO_64;
  }

  lemma MultipleWraps(k: int)
    ensures WrapInt64(k * TWO_64) == 0
  {
    assert (k * TWO_64 + TWO_64 / 2) % TWO_64 == TWO_64 / 2;
  }

  lemma DoubleWraps(x: int)
    ensures WrapInt64(2 * x) == WrapInt64(2 * WrapInt64(x))
  {
    var k := (x + TWO_64 / 2) / TWO_64;
    assert 2 * WrapInt64(x) == 2 * x - 2 * k * TWO_64;
    ShiftedBy(2 * x + TWO_64 / 2, -2 * k);
  }

  lemma ShiftedBy(x: int, k: int)
    ensures (x + k * TWO_64) % TWO_64 == x % TWO_64
  {
  }

  // The wrapped products for shifts of 33 to 53.
  const WRAPPED := [
    -1266874889709551616, -2533749779419103232, -5067499558838206464,
    8311744956033138688, -1823254161643274240, -3646508323286548480,
    -7293016646573096960, 3860710780563357696, 7721421561126715392,
    -3003900951456120832, -6007801902912241664, 6431140267885068288,
    -5584463537939415040, 7277816997830721536, -3891110078048108544,
    -7782220156096217088, 2882303761517117440, 5764607523034234880,
    -6917529027641081856, 4611686018427387904, -9223372036854775808
  ]

  lemma NextWrapped(n: nat)
    requires 34 <= n <= 53
    ensures WrapInt64(2 * WRAPPED[n - 34]) == WRAPPED[n - 33]
  {
  }

  lemma {:induction false} WrappedProducts(n: nat)
    requires 33 <= n <= 53
    ensures WrapInt64(POLL_BASE_DELAY * Pow2(n)) == WRAPPED[n - 33]
  {
    if n == 33 {
      Pow2Values();
    } else {
      WrappedProducts(n - 1);
      DoubleProduct(n);
      NextWrapped(n);
    }
  }

  lemma DoubleProduct(n: nat)
    requires n > 0
    ensures WrapInt64(POLL_BASE_DELAY * Pow2(n)) == WrapInt64(2 * WrapInt64(POLL_BASE_DELAY * Pow2(n - 1)))
  {
    DoubleWraps(POLL_BASE_DELAY * Pow2(n - 1));
  }

  lemma LuckyProducts(n: nat)
    requires 33 <= n <= 53
    ensures WRAPPED[n - 33] >= POLL_FAILURE_CAP <==> n + 1 in LUCKY_FAILURES
    ensures WRAPPED[n - 33] < 0 <==> n + 1 !in LUCKY_FAILURES
  {
  }

  lemma FailureDelayPast33(failures: nat)
    requires failures > 33
    ensures FailureDelay(failures) == POLL_FAILURE_CAP <==> failures in LUCKY_FAILURES
    ensures failures !in LUCKY_FAILURES ==> FailureDelay(failures) <= 0
  {
    if failures > 54 {
      WrapsToZero(failures - 1);
    } else {
      WrappedProducts(failures - 1);
      LuckyProducts(failures - 1);
    }
  }

  lemma NoWrapTo33(failures: nat)
    requires 0 < failures <= 33
    ensures FailureDelay(failures) == Exponential(POLL_BASE_DELAY, failures - 1, POLL_FAILURE_CAP) > 0
  {
    Pow2Values();
    Pow2Grows(0, failures - 1);
    Pow2Grows(failures - 1, 32);
  }

  // The delay after so many failures in a row is the one meant up to 33 of
  // them, later for a few counts only; for every other count it is not even
  // positive, so that the thread is polled again at once.
  lemma FailureDelayExactly(failures: nat)
    requires failures > 0
    ensures FailureDelay(failures) == Exponential(POLL_BASE_DELAY, failures - 1, POLL_FAILURE_CAP) <==>
            failures <= 33 || failures in LUCKY_FAILURES
    ensures FailureDelay(failures) > 0 <==> failures <= 33 || failures in LUCKY_FAILURES
  {
    if failures <= 33 {
      NoWrapTo33(failures);
    } else {
      FailureDelayPast33(failures);
      MeantPast33(failures);
    }
  }

  lemma MeantPast33(failures: nat)
    requires failures > 33
    ensures Exponential(POLL_BASE_DELAY, failures - 1, POLL_FAILURE_CAP) == POLL_FAILURE_CAP
  {
    Pow2Values();
    Pow2Grows(32, failures - 1);
  }

  // ----- one thread's backoff -----

  datatype Reason = Success | Idle | RetryAfter | Failure | Client4xx

  datatype BackoffState = BackoffState(failures: nat, delay: int, idleCap: int) {
    function Base(): int {
      if delay <= 0 then POLL_BASE_DELAY else delay
    }

    function Cap(): int {
      if idleCap > 0 then idleCap else POLL_IDLE_CAP
    }

    function Succeeded(): BackoffState {
      this.(failures := 0, delay := POLL_BASE_DELAY)
    }

    function Idled(): BackoffState {
      this.(failures := 0, delay := Min(Base() + POLL_BASE_DELAY, Cap()))
    }

    function Failed(): BackoffState {
      this.(failures := failures + 1, delay := FailureDelay(failures + 1))
    }

    function Told(d: int): BackoffState {
      if d <= 0 then Failed() else this.(failures := failures + 1, delay := d)
    }

    function Outcome(ingested: int, err: Option<Error>): (BackoffState, Reason) {
      if err.None? then if ingested > 0 then (Succeeded(), Success) else (Idled(), Idle)
      else if err.value.retryable.Some? then
        var r := err.value.retryable.value;
        if r.status == 429 && r.retryAfter > 0 then (Told(r.retryAfter), RetryAfter) else (Failed(), Failure)
      else if err.value.messages.Some? && IsClient4xxNon429(err.value.messages.value.status) then
        (this.(failures := 0, delay := POLL_IDLE_CAP), Client4xx)
      else (Failed(), Failure)
    }
  }

  function IdledTimes(b: BackoffState, n: nat): BackoffState {
    if n == 0 then b else IdledTimes(b, n - 1).Idled()
  }

  // Idle polls in a row add two seconds each, up to the cap.
  lemma {:induction false} IdlePollsAdd(b: BackoffState, n: nat)
    requires n > 0
    ensures IdledTimes(b, n) == b.(failures := 0, delay := Min(b.Base() + n * POLL_BASE_DELAY, b.Cap()))
  {
    if n > 1 {
      IdlePollsAdd(b, n - 1);
    }
  }

  // Every outcome leaves a thread waiting, unless it is a failure for which
  // the product wraps.
  lemma OutcomeWaits(b: BackoffState, ingested: int, err: Option<Error>)
    ensures b.Outcome(ingested, err).0.delay > 0 <==>
            (b.Outcome(ingested, err).1 == Failure ==> b.failures < 33 || b.failures + 1 in LUCKY_FAILURES)
  {
    FailureDelayExactly(b.failures + 1);
  }

  class PollBackoff {
    var failures: nat
    var delay: int
    var idleCap: int

    constructor (delay: int)
      ensures Value() == BackoffState(0, delay, 0)
    {
      failures, this.delay, idleCap := 0, delay, 0;
    }

    function Value(): BackoffState
      reads this
    {
      BackoffState(failures, delay, idleCap)
    }

    method OnSuccess()
      modifies this`failures, this`delay
      ensures Value() == old(Value()).Succeeded()
      ensures failures == 0 && delay == 2 * SECOND
    {
      failures := 0;
      delay := POLL_BASE_DELAY;
    }

    method OnIdle()
      modifies this`failures, this`delay
      ensures Value() == old(Value()).Idled()
    {
      if delay <= 0 {
        delay := POLL_BASE_DELAY;
      }
      failures := 0;
      var next := delay + POLL_BASE_DELAY;
      var cap := POLL_IDLE_CAP;
      if idleCap > 0 {
        cap := idleCap;
      }
      if next > cap {
        next := cap;
      }
      delay := next;
    }

    method OnFailure()
      modifies this`failures, this`delay
      ensures Value() == old(Value()).Failed()
    {
      failures := failures + 1;
      delay := POLL_BASE_DELAY;
      if failures > 1 {
        delay := WrapInt64(POLL_BASE_DELAY * Pow2(failures - 1));
      }
      if delay > POLL_FAILURE_CAP {
        delay := POLL_FAILURE_CAP;
      }
    }

    method OnRetryAfter(d: int)
      modifies this`failures, this`delay
      ensures Value() == old(Value()).Told(d)
      ensures failures == old(failures) + 1 && (d > 0 ==> delay == d)
    {
      if d <= 0 {
        OnFailure();
        return;
      }
      failures := failures + 1;
      delay := d;
    }

    method Apply(ingested: int, err: Option<Error>) returns (next: int, reason: Reason)
      modifies this`failures, this`delay
      ensures (Value(), reason) == old(Value()).Outcome(ingested, err) && next == delay
      ensures err.None? && ingested > 0 ==> reason == Success && next == 2 * SECOND && failures == 0
      ensures err.None? && ingested <= 0 ==> reason == Idle && failures == 0
      ensures forall d | err.Some? && err.value.retryable == Some(Retryable(429, d)) && d > 0 ::
                reason == RetryAfter && next == d && failures == old(failures) + 1
      ensures err.Some? && err.value.retryable.None? && err.value.messages.Some?
              && 400 <= err.value.messages.value.status < 500 && err.value.messages.value.status != 429 ==>
                reason == Client4xx && next == 30 * SECOND && failures == 0
    {
      if err.None? {
        if ingested > 0 {
          OnSuccess();
          return delay, Success;
        }
        OnIdle();
        return delay, Idle;
      }
      if err.value.retryable.Some? {
        var r := err.value.retryable.value;
        if r.status == 429 && r.retryAfter > 0 {
          OnRetryAfter(r.retryAfter);
          return delay, RetryAfter;
        }
        OnFailure();
        return delay, Failure;
      }
      if err.value.messages.Some? && IsClient4xxNon429(err.value.messages.value.status) {
        failures := 0;
        delay := POLL_IDLE_CAP;
        return delay, Client4xx;
      }
      OnFailure();
      return delay, Failure;
    }
  }
}
