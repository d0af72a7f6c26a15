/** How long one read-only call can really last, against the bound the client advertises. */
module InFlight {
  import opened Prelude
  import opened Delays
  import opened Transport
  import Admission

  /** Largest `Duration`, in nanoseconds, and the largest attempt count the bound multiplies by. */
  const DURATION_MAX: nat := 0xffff_ffff_ffff_ffff * 1_000_000_000 + 999_999_999
  const U32_MAX: nat := 0xffff_ffff

  function SatAdd(a: nat, b: nat): nat {
    Min(a + b, DURATION_MAX)
  }

  function SatMul(a: nat, n: nat): nat {
    Min(a * n, DURATION_MAX)
  }

  /** `Client::max_in_flight_duration`. */
  function MaxInFlight(c: Client): nat {
    var perAttempt := SatAdd(SatAdd(c.admission.qpsWait, c.admission.concurrencyWait), c.requestTimeout);
    var attempts := Max(c.retry.maxAttempts, 1);
    var between := Max(c.retry.maxDelay, c.retry.maxRetryAfter);
    SatAdd(SatMul(perAttempt, Min(attempts, U32_MAX)), SatMul(between, Min(attempts - 1, U32_MAX)))
  }

  function BackoffMax(c: Client, n: nat): nat
    requires ValidRatio(c.retry.jitter)
  {
    JitterMax(c.retry.jitter, BackoffBase(c.retry, n))
  }

  /** The longest a failed attempt `n` and the pause after it can take, beyond admission. */
  function WorstRound(c: Client, n: nat): nat
    requires ValidRatio(c.retry.jitter)
  {
    Max(2 * c.requestTimeout + BackoffMax(c, n), c.requestTimeout + c.retry.maxRetryAfter)
  }

  /**
   * The longest run from attempt `n` on when every attempt waits `wait` for admission: rounds until the
   * last attempt, which uses both timeouts.
   */
  function WorstFrom(c: Client, n: nat, wait: nat): nat
    requires ValidRatio(c.retry.jitter) && 1 <= n <= c.retry.maxAttempts
    decreases c.retry.maxAttempts - n
  {
    wait + if n == c.retry.maxAttempts then 2 * c.requestTimeout else WorstRound(c, n) + WorstFrom(c, n + 1, wait)
  }

  function WorstCase(c: Client): nat
    requires ValidClient(c)
  {
    WorstFrom(c, 1, Admission.Longest(c.admission))
  }

  // ---------------------------------------------------------------- the worst case bounds every run

  /** Time of one attempt, and the delay that a retry of it would add. */
  lemma AttemptTime(c: Client, n: nat, a: Attempt, canRetry: bool)
    requires ValidClient(c) && ValidAttempt(c, n, a)
    ensures Elapsed(c, a) <= Admission.Longest(c.admission) + 2 * c.requestTimeout
    ensures var r := RunAttempt(c, ReadOnly, a, canRetry);
      r.Err? && r.error.retryable ==>
        Elapsed(c, a) + RetryDelay(r.error, a) <= Admission.Longest(c.admission) + WorstRound(c, n)
  {
  }

  lemma {:induction false} WithinWorstCase(c: Client, script: seq<Attempt>, n: nat)
    requires ValidClient(c) && ValidScript(c, script) && 1 <= n <= c.retry.maxAttempts
    ensures ExecuteFrom(c, ReadOnly, script, n).elapsed <= WorstFrom(c, n, Admission.Longest(c.admission))
    decreases c.retry.maxAttempts - n
  {
    hide ValidAttempt, RunAttempt, Elapsed, RetryDelay, WorstRound;
    AttemptTime(c, n, script[n - 1], n < c.retry.maxAttempts);
    if n < c.retry.maxAttempts {
      WithinWorstCase(c, script, n + 1);
    }
    assert c.retry.maxAttempts - n >= 1 ==> WorstRound(c, n) >= 2 * c.requestTimeout by {
      WorstRoundLong(c, n);
    }
  }

  lemma WorstRoundLong(c: Client, n: nat)
    requires ValidRatio(c.retry.jitter)
    ensures WorstRound(c, n) >= 2 * c.requestTimeout
  {
  }

  /** A mutation makes one attempt and is bounded by it. */
  lemma MutationWithin(c: Client, safety: Safety, script: seq<Attempt>)
    requires ValidClient(c) && ValidScript(c, script) && !safety.ReadOnly?
    ensures ExecuteFrom(c, safety, script, 1).elapsed <= Admission.Longest(c.admission) + 2 * c.requestTimeout
  {
    assert ValidAttempt(c, 1, script[0]);
    AttemptTime(c, 1, script[0], false);
  }

  // ---------------------------------------------------------------- and it is attained

  /** An attempt that uses every timeout to the full and then asks for the longest pause. */
  function WorstAttempt(c: Client, n: nat, wait: nat): Attempt
    requires ValidRatio(c.retry.jitter)
  {
    var headers :=
      if n >= c.retry.maxAttempts then Headers(200, None, None, Stalled, None, true)
      else if 2 * c.requestTimeout + BackoffMax(c, n) >= c.requestTimeout + c.retry.maxRetryAfter then
        Headers(503, None, None, Arrives([], c.requestTimeout), None, true)
      else Headers(429, Some(c.retry.maxRetryAfter), None, Stalled, None, true);
    Attempt(true, Granted, wait, Replied(headers, c.requestTimeout), true, BackoffMax(c, n))
  }

  ghost function WorstScript(c: Client, wait: nat): seq<Attempt>
    requires ValidRatio(c.retry.jitter)
  {
    seq(c.retry.maxAttempts, i requires i >= 0 => WorstAttempt(c, i + 1, wait))
  }

  lemma WorstScriptIsValid(c: Client, wait: nat)
    requires ValidClient(c) && wait <= Admission.Longest(c.admission)
    ensures ValidScript(c, WorstScript(c, wait))
  {
    var script := WorstScript(c, wait);
    forall i | 0 <= i < |script| ensures ValidAttempt(c, i + 1, script[i]) {
      assert script[i] == WorstAttempt(c, i + 1, wait);
    }
  }

  lemma {:induction false} WorstCaseAttained(c: Client, n: nat, wait: nat)
    requires ValidClient(c) && 1 <= n <= c.retry.maxAttempts
    ensures ExecuteFrom(c, ReadOnly, WorstScript(c, wait), n).elapsed == WorstFrom(c, n, wait)
    decreases c.retry.maxAttempts - n
  {
    hide WorstAttempt, RunAttempt, Elapsed, RetryDelay, WorstRound, Handed, Delivered;
    WorstStep(c, n, wait);
    assert WorstScript(c, wait)[n - 1] == WorstAttempt(c, n, wait);
    if n < c.retry.maxAttempts {
      WorstCaseAttained(c, n + 1, wait);
    }
  }

  lemma WorstStep(c: Client, n: nat, wait: nat)
    requires ValidClient(c) && 1 <= n <= c.retry.maxAttempts
    ensures var a := WorstAttempt(c, n, wait);
      var r := RunAttempt(c, ReadOnly, a, n < c.retry.maxAttempts);
      && r.Err?
      && (n < c.retry.maxAttempts ==>
            r.error.retryable
            && Elapsed(c, a) + RetryDelay(r.error, a) == wait + WorstRound(c, n))
      && (n == c.retry.maxAttempts ==> Elapsed(c, a) == wait + 2 * c.requestTimeout)
  {
  }

  // ---------------------------------------------------------------- the advertised bound

  ghost predicate BoundsEveryRun(c: Client, bound: nat)
    requires ValidClient(c)
  {
    forall script :: ValidScript(c, script) ==> ExecuteFrom(c, ReadOnly, script, 1).elapsed <= bound
  }

  /** A bound holds for every run exactly when it reaches the worst case. */
  lemma BoundIffWorstCase(c: Client, bound: nat)
    requires ValidClient(c)
    ensures BoundsEveryRun(c, bound) <==> WorstCase(c) <= bound
  {
    hide WorstFrom, ExecuteFrom, WorstScript, ValidAttempt;
    if WorstCase(c) <= bound {
      forall script | ValidScript(c, script) ensures ExecuteFrom(c, ReadOnly, script, 1).elapsed <= bound {
        WithinWorstCase(c, script, 1);
      }
    } else {
      var wait := Admission.Longest(c.admission);
      WorstScriptIsValid(c, wait);
      WorstCaseAttained(c, 1, wait);
      assert ExecuteFrom(c, ReadOnly, WorstScript(c, wait), 1).elapsed > bound;
    }
  }

  /** With `a` attempts made, a run is bounded by `a` full attempts and `a - 1` longest pauses. */
  lemma {:induction false} BoundByAttempts(c: Client, script: seq<Attempt>, n: nat)
    requires ValidClient(c) && ValidScript(c, script) && 1 <= n <= c.retry.maxAttempts
    ensures var o := ExecuteFrom(c, ReadOnly, script, n);
      var pause := Max(c.retry.maxRetryAfter, JitterMax(c.retry.jitter, c.retry.maxDelay));
      o.attempts >= 1
      && o.elapsed <= o.attempts * (Admission.Longest(c.admission) + 2 * c.requestTimeout) + (o.attempts - 1) * pause
    decreases c.retry.maxAttempts - n
  {
    hide ValidAttempt, RunAttempt, Elapsed, RetryDelay, JitterMax, Handed, Delivered;
    var attempt := Admission.Longest(c.admission) + 2 * c.requestTimeout;
    var pause := Max(c.retry.maxRetryAfter, JitterMax(c.retry.jitter, c.retry.maxDelay));
    AttemptTime(c, n, script[n - 1], n < c.retry.maxAttempts);
    PauseBound(c, n, script[n - 1], n < c.retry.maxAttempts);
    var r := RunAttempt(c, ReadOnly, script[n - 1], n < c.retry.maxAttempts);
    if r.Err? && r.error.retryable && n < c.retry.maxAttempts {
      var rest := ExecuteFrom(c, ReadOnly, script, n + 1);
      BoundByAttempts(c, script, n + 1);
      Accumulate(rest.attempts, attempt, pause,
        Elapsed(c, script[n - 1]), RetryDelay(r.error, script[n - 1]), rest.elapsed);
    }
  }

  lemma Accumulate(k: nat, attempt: nat, pause: nat, first: nat, delay: nat, rest: nat)
    requires k >= 1 && first <= attempt && delay <= pause
    requires rest <= k * attempt + (k - 1) * pause
    ensures first + delay + rest <= (k + 1) * attempt + k * pause
  {
    assert (k + 1) * attempt == k * attempt + attempt;
    assert k * pause == (k - 1) * pause + pause;
  }

  lemma PauseBound(c: Client, n: nat, a: Attempt, canRetry: bool)
    requires ValidClient(c) && ValidAttempt(c, n, a)
    ensures var r := RunAttempt(c, ReadOnly, a, canRetry);
      r.Err? && r.error.retryable ==>
        RetryDelay(r.error, a) <= Max(c.retry.maxRetryAfter, JitterMax(c.retry.jitter, c.retry.maxDelay))
  {
    JitterMonotone(c.retry.jitter, BackoffBase(c.retry, n), c.retry.maxDelay);
  }

  /** The same worst case, closed over the remaining attempts. */
  lemma {:induction false} WorstFromBound(c: Client, n: nat)
    requires ValidClient(c) && 1 <= n <= c.retry.maxAttempts
    ensures WorstFrom(c, n, Admission.Longest(c.admission)) <= 2 * ((c.retry.maxAttempts - n + 1)
        * (c.admission.qpsWait + c.admission.concurrencyWait + c.requestTimeout)
      + (c.retry.maxAttempts - n) * Max(c.retry.maxDelay, c.retry.maxRetryAfter))
    decreases c.retry.maxAttempts - n
  {
    hide WorstRound, JitterMax;
    var per := c.admission.qpsWait + c.admission.concurrencyWait + c.requestTimeout;
    var between := Max(c.retry.maxDelay, c.retry.maxRetryAfter);
    var k := c.retry.maxAttempts - n;
    if k == 0 {
      assert (k + 1) * per == per;
    } else {
      WorstFromBound(c, n + 1);
      WorstRoundBound(c, n);
      assert k * per + per == (k + 1) * per;
      assert (k - 1) * between + between == k * between;
    }
  }

  lemma WorstRoundBound(c: Client, n: nat)
    requires ValidClient(c)
    ensures WorstRound(c, n) <= 2 * c.requestTimeout + 2 * Max(c.retry.maxDelay, c.retry.maxRetryAfter)
  {
  }

  /** Below saturation the real worst case is at most twice the advertised bound. */
  lemma WithinTwiceAdvertised(c: Client, script: seq<Attempt>)
    requires ValidClient(c) && ValidScript(c, script)
    requires c.retry.maxAttempts <= U32_MAX && MaxInFlight(c) < DURATION_MAX
    ensures ExecuteFrom(c, ReadOnly, script, 1).elapsed <= 2 * MaxInFlight(c)
  {
    hide ExecuteFrom, WorstFrom, ValidScript;
    WithinWorstCase(c, script, 1);
    WorstFromBound(c, 1);
    Unsaturated(c);
  }

  lemma Unsaturated(c: Client)
    requires 1 <= c.retry.maxAttempts <= U32_MAX && MaxInFlight(c) < DURATION_MAX
    ensures MaxInFlight(c) == c.retry.maxAttempts
        * (c.admission.qpsWait + c.admission.concurrencyWait + c.requestTimeout)
      + (c.retry.maxAttempts - 1) * Max(c.retry.maxDelay, c.retry.maxRetryAfter)
  {
    var per := SatAdd(SatAdd(c.admission.qpsWait, c.admission.concurrencyWait), c.requestTimeout);
    MulMono(1, c.retry.maxAttempts, per);
  }

  /** Headers and body of the attempt together fit into one request timeout. */
  predicate Prompt(c: Client, a: Attempt) {
    Elapsed(c, a) <= a.waited + c.requestTimeout
  }

  /**
   * The advertised bound does hold for a run whose attempts each receive headers and body within one
   * request timeout, provided jitter cannot lift a backoff over both configured maxima.
   */
  lemma PromptRunsAreWithinAdvertised(c: Client, script: seq<Attempt>)
    requires ValidClient(c) && ValidScript(c, script)
    requires forall i :: 0 <= i < |script| ==> Prompt(c, script[i])
    requires JitterMax(c.retry.jitter, c.retry.maxDelay) <= Max(c.retry.maxDelay, c.retry.maxRetryAfter)
    requires c.retry.maxAttempts <= U32_MAX && MaxInFlight(c) < DURATION_MAX
    ensures ExecuteFrom(c, ReadOnly, script, 1).elapsed <= MaxInFlight(c)
  {
    PromptFrom(c, script, 1);
    Unsaturated(c);
  }

  lemma {:induction false} PromptFrom(c: Client, script: seq<Attempt>, n: nat)
    requires ValidClient(c) && ValidScript(c, script) && 1 <= n <= c.retry.maxAttempts
    requires forall i :: 0 <= i < |script| ==> Prompt(c, script[i])
    requires JitterMax(c.retry.jitter, c.retry.maxDelay) <= Max(c.retry.maxDelay, c.retry.maxRetryAfter)
    ensures ExecuteFrom(c, ReadOnly, script, n).elapsed <= (c.retry.maxAttempts - n + 1)
        * (c.admission.qpsWait + c.admission.concurrencyWait + c.requestTimeout)
      + (c.retry.maxAttempts - n) * Max(c.retry.maxDelay, c.retry.maxRetryAfter)
    decreases c.retry.maxAttempts - n
  {
    hide RunAttempt, Elapsed, RetryDelay, ValidAttempt, JitterMax, Handed, Delivered;
    var per := c.admission.qpsWait + c.admission.concurrencyWait + c.requestTimeout;
    var between := Max(c.retry.maxDelay, c.retry.maxRetryAfter);
    assert ValidAttempt(c, n, script[n - 1]) && Prompt(c, script[n - 1]);
    PauseBound(c, n, script[n - 1], n < c.retry.maxAttempts);
    WaitBound(c, n, script[n - 1]);
    var k := c.retry.maxAttempts - n;
    if k == 0 {
      assert (k + 1) * per == per;
    } else {
      PromptFrom(c, script, n + 1);
      var r := RunAttempt(c, ReadOnly, script[n - 1], n < c.retry.maxAttempts);
      var delay := if r.Err? && r.error.retryable then RetryDelay(r.error, script[n - 1]) else 0;
      var rest := if r.Err? && r.error.retryable then ExecuteFrom(c, ReadOnly, script, n + 1).elapsed else 0;
      Accumulate(k, per, between, Elapsed(c, script[n - 1]), delay, rest);
    }
  }

  lemma WaitBound(c: Client, n: nat, a: Attempt)
    requires ValidClient(c) && ValidAttempt(c, n, a)
    ensures a.waited <= c.admission.qpsWait + c.admission.concurrencyWait
  {
  }

  lemma FifthMore(delay: nat)
    requires delay % 5 == 0
    ensures JitterMax(Ratio(1, 5), delay) == delay + delay / 5
  {
    NearestBounds(6 * delay, 5, delay + delay / 5, delay + delay / 5);
    assert (5 + 1) * delay == 6 * delay;
  }

  /** The documented retry policy and limits, whatever the admission. */
  predicate DefaultLimits(c: Client) {
    && c.retry == RetryPolicy(3, 100_000_000, 2_000_000_000, 30_000_000_000, Ratio(1, 5))
    && c.requestTimeout == 30_000_000_000 && c.maxResponseBytes == 1_048_576
    && c.admission.qpsWait == c.admission.concurrencyWait == 5_000_000_000
  }

  /** A client that is built without any setting: no rate limit, 32 permits. */
  predicate DefaultClient(c: Client) {
    DefaultLimits(c) && c.admission == Admission.Config(None, 5_000_000_000, 5_000_000_000, 32)
  }

  /** The client of the Axum example: 32 requests a second, 8 permits. */
  predicate ExampleClient(c: Client) {
    DefaultLimits(c) && c.admission == Admission.Config(Some(31_250_000), 5_000_000_000, 5_000_000_000, 8)
  }

  /** The two jittered pauses of the default policy reach 120 and 240 milliseconds. */
  lemma DefaultPauses(c: Client)
    requires DefaultLimits(c)
    ensures BackoffMax(c, 1) == 120_000_000 && BackoffMax(c, 2) == 240_000_000
  {
    hide JitterMax;
    assert Pow2(0) == 1 && Pow2(1) == 2;
    FifthMore(100_000_000);
    FifthMore(200_000_000);
  }

  lemma DefaultWorst(c: Client, wait: nat)
    requires DefaultLimits(c)
    ensures WorstFrom(c, 1, wait) == 3 * wait + 180_360_000_000
  {
    hide BackoffMax, JitterMax;
    DefaultPauses(c);
    assert WorstRound(c, 1) == 60_120_000_000 && WorstRound(c, 2) == 60_240_000_000;
    hide WorstRound;
    assert WorstFrom(c, 3, wait) == wait + 60_000_000_000;
    assert WorstFrom(c, 2, wait) == 2 * wait + 120_240_000_000;
  }

  /**
   * With the default limits the client advertises 180 seconds. However admission is set up, a run that
   * never waits for it lasts 180.36 seconds.
   */
  lemma DefaultsExceedAdvertised(c: Client)
    requires DefaultLimits(c) && Admission.ValidConfig(c.admission)
    ensures ValidClient(c) && MaxInFlight(c) == 180_000_000_000
    ensures WorstCase(c) == 3 * Admission.Longest(c.admission) + 180_360_000_000
    ensures !BoundsEveryRun(c, MaxInFlight(c))
    ensures ValidScript(c, WorstScript(c, 0)) && forall i :: 0 <= i < 3 ==> WorstScript(c, 0)[i].waited == 0
    ensures ExecuteFrom(c, ReadOnly, WorstScript(c, 0), 1).elapsed == 180_360_000_000
  {
    hide WorstFrom, BoundsEveryRun, ExecuteFrom, ValidScript;
    DefaultWorst(c, 0);
    DefaultWorst(c, Admission.Longest(c.admission));
    BoundIffWorstCase(c, 180_000_000_000);
    WorstScriptIsValid(c, 0);
    WorstCaseAttained(c, 1, 0);
  }

  /** Worst cases: 195.36 seconds for the client without settings, 210.36 for the example's. */
  lemma DefaultAndExampleWorstCase(c: Client)
    ensures DefaultClient(c) ==> ValidClient(c) && WorstCase(c) == 195_360_000_000
    ensures ExampleClient(c) ==> ValidClient(c) && WorstCase(c) == 210_360_000_000
  {
    hide WorstCase, MaxInFlight, BoundsEveryRun, ExecuteFrom, ValidScript;
    if DefaultClient(c) || ExampleClient(c) {
      DefaultsExceedAdvertised(c);
    }
  }
}
