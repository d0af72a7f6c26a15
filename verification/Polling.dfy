/** Polling delays and the deadline-bounded loop that waits for an SMS. */
module Polling {
  import opened Prelude
  import opened Delays

  /** `cancelledAt` is the moment the caller's cancellation token fires, if it ever does. */
  datatype PollOptions = PollOptions(
    deadline: nat, baseInterval: nat, maxInterval: nat, jitter: Ratio, cancelledAt: Option<nat>)

  /** What `with_intervals` and `with_jitter_ratio` insist on. */
  predicate ValidOptions(o: PollOptions) {
    0 < o.baseInterval <= o.maxInterval && ValidRatio(o.jitter)
  }

  // ---------------------------------------------------------------- delays

  function AdvanceInterval(current: nat, maximum: nat): nat {
    Min(2 * current, maximum)
  }

  function IntervalAfter(o: PollOptions, polls: nat): nat {
    Min(o.baseInterval * Pow2(polls), o.maxInterval)
  }

  function Floor(retryAfter: Option<nat>): nat {
    if retryAfter.Some? then retryAfter.value else 0
  }

  /** A value the jitter can draw for this delay. */
  predicate Drawable(o: PollOptions, normal: nat, retryAfter: Option<nat>, drawn: nat)
    requires ValidOptions(o)
  {
    Jittered(o.jitter, Max(normal, Floor(retryAfter)), drawn)
  }

  function PollingDelay(o: PollOptions, normal: nat, retryAfter: Option<nat>, drawn: nat): nat {
    if retryAfter.Some? then Max(drawn, retryAfter.value) else Min(drawn, o.maxInterval)
  }

  function CappedWakeAt(now: nat, delay: nat, deadline: nat): nat {
    Min(now + delay, deadline)
  }

  lemma IntervalDoubles(o: PollOptions, polls: nat)
    requires ValidOptions(o)
    ensures AdvanceInterval(IntervalAfter(o, polls), o.maxInterval) == IntervalAfter(o, polls + 1)
    ensures o.baseInterval <= IntervalAfter(o, polls) <= o.maxInterval
  {
    MulMono(1, Pow2(polls), o.baseInterval);
    assert o.baseInterval * Pow2(polls + 1) == 2 * (o.baseInterval * Pow2(polls));
  }

  /** No delay is shorter than the server's floor or than the jittered normal interval. */
  lemma DelayBounds(o: PollOptions, polls: nat, retryAfter: Option<nat>, drawn: nat)
    requires ValidOptions(o) && Drawable(o, IntervalAfter(o, polls), retryAfter, drawn)
    ensures var delay := PollingDelay(o, IntervalAfter(o, polls), retryAfter, drawn);
      && delay >= Floor(retryAfter)
      && delay >= JitterMin(o.jitter, IntervalAfter(o, polls)) >= JitterMin(o.jitter, o.baseInterval)
      && delay <= Max(o.maxInterval, JitterMax(o.jitter, Max(o.maxInterval, Floor(retryAfter))))
      && (retryAfter.None? ==> delay <= o.maxInterval)
      && (retryAfter.None? && drawn <= o.maxInterval ==> delay == drawn)
      && (retryAfter.Some? && drawn >= retryAfter.value ==> delay == drawn)
  {
    var normal := IntervalAfter(o, polls);
    IntervalDoubles(o, polls);
    JitterMonotone(o.jitter, o.baseInterval, normal);
    JitterMonotone(o.jitter, normal, Max(normal, Floor(retryAfter)));
    JitterMonotone(o.jitter, Max(normal, Floor(retryAfter)), Max(o.maxInterval, Floor(retryAfter)));
  }

  // ---------------------------------------------------------------- stopping

  datatype StopReason = Cancelled | DeadlineReached

  /** What preflight and the biased selects conclude from a look at the token and the clock. */
  function StopAt(o: PollOptions, now: nat): Option<StopReason> {
    if o.cancelledAt.Some? && o.cancelledAt.value <= now then Some(Cancelled)
    else if o.deadline <= now then Some(DeadlineReached)
    else None
  }

  function FirstStop(o: PollOptions): nat {
    if o.cancelledAt.Some? then Min(o.cancelledAt.value, o.deadline) else o.deadline
  }

  /** When a select resumes whose own branch is ready at `ready`, woken `lag` late. */
  function Resumes(o: PollOptions, ready: nat, lag: nat): nat {
    Min(ready, FirstStop(o)) + lag
  }

  // ---------------------------------------------------------------- the waiting loop

  datatype SmsCheck = Pending(snapshot: nat) | Received(snapshot: nat) | Terminated(snapshot: nat)

  datatype CheckReply = Snapshot(sms: SmsCheck) | RateLimited(retryAfter: Option<nat>) | Failure(error: nat)

  /**
   * The environment's part in one round: time before the check starts, its reply and duration, the
   * value drawn for the delay, and how late the two selects are resumed.
   */
  datatype Round = Round(before: nat, reply: CheckReply, took: nat, lag: nat, drawn: nat, overslept: nat)

  datatype WaitOutcome =
    | Done(sms: SmsCheck)
    | Stopped(why: StopReason, lastObserved: Option<SmsCheck>)
    | ClientError(error: nat)
    | Running

  function RetryAfter(reply: CheckReply): Option<nat> {
    if reply.RateLimited? then reply.retryAfter else None
  }

  predicate KeepsWaiting(reply: CheckReply) {
    reply.RateLimited? || (reply.Snapshot? && reply.sms.Pending?)
  }

  predicate ValidRounds(o: PollOptions, rounds: seq<Round>)
    requires ValidOptions(o)
  {
    forall i :: 0 <= i < |rounds| ==> Drawable(o, IntervalAfter(o, i), RetryAfter(rounds[i].reply), rounds[i].drawn)
  }

  function Delay(o: PollOptions, rounds: seq<Round>, i: nat): nat
    requires i < |rounds|
  {
    PollingDelay(o, IntervalAfter(o, i), RetryAfter(rounds[i].reply), rounds[i].drawn)
  }

  function LatestPending(rounds: seq<Round>, n: nat): Option<SmsCheck>
    requires n <= |rounds|
  {
    if n == 0 then None
    else if rounds[n - 1].reply.Snapshot? && rounds[n - 1].reply.sms.Pending? then Some(rounds[n - 1].reply.sms)
    else LatestPending(rounds, n - 1)
  }

  /**
   * `starts` and `answers` are the moments at which checks began and at which their replies were
   * handled: all before any stop, each check a full delay after the previous reply.
   */
  predicate Timeline(o: PollOptions, began: nat, rounds: seq<Round>, starts: seq<nat>, answers: seq<nat>) {
    && |answers| <= |starts| <= |rounds| && |starts| <= |answers| + 1
    && (forall i :: 0 <= i < |starts| ==> starts[i] < FirstStop(o))
    && (forall i :: 0 <= i < |answers| ==> answers[i] < FirstStop(o))
    && (starts != [] ==> starts[0] == began + rounds[0].before)
    && (forall i :: 0 <= i < |answers| ==> answers[i] == starts[i] + rounds[i].took + rounds[i].lag)
    && (forall i :: 0 < i < |starts| ==>
          starts[i] == answers[i - 1] + Delay(o, rounds, i - 1) + rounds[i - 1].overslept + rounds[i].before)
    && (forall i :: 0 <= i < |starts| - 1 ==> KeepsWaiting(rounds[i].reply))
  }

  /** The last check was answered, with this reply. */
  predicate EndsWith(rounds: seq<Round>, starts: seq<nat>, answers: seq<nat>, reply: CheckReply) {
    0 < |starts| == |answers| <= |rounds| && rounds[|answers| - 1].reply == reply
  }

  lemma StartExtends(o: PollOptions, began: nat, rounds: seq<Round>, starts: seq<nat>, answers: seq<nat>, now: nat)
    requires Timeline(o, began, rounds, starts, answers) && |starts| == |answers| < |rounds|
    requires forall i :: 0 <= i < |answers| ==> KeepsWaiting(rounds[i].reply)
    requires StopAt(o, now) == None && now == ReadyAt(o, began, rounds, answers) + rounds[|starts|].before
    ensures Timeline(o, began, rounds, starts + [now], answers)
  {
    hide Delay;
  }

  lemma AnswerExtends(o: PollOptions, began: nat, rounds: seq<Round>, starts: seq<nat>, answers: seq<nat>, now: nat)
    requires Timeline(o, began, rounds, starts, answers) && |starts| == |answers| + 1
    requires StopAt(o, now) == None
    requires now == starts[|answers|] + rounds[|answers|].took + rounds[|answers|].lag
    ensures Timeline(o, began, rounds, starts, answers + [now])
  {
    hide Delay;
  }

  /** When the loop comes round again after `answers`, if nothing stops it. */
  function ReadyAt(o: PollOptions, began: nat, rounds: seq<Round>, answers: seq<nat>): nat
    requires |answers| <= |rounds|
  {
    var n := |answers|;
    if n == 0 then began else answers[n - 1] + Delay(o, rounds, n - 1) + rounds[n - 1].overslept
  }

  lemma ResumesOnTime(o: PollOptions, ready: nat, lag: nat)
    requires StopAt(o, Resumes(o, ready, lag)) == None
    ensures Resumes(o, ready, lag) == ready + lag
  {
  }

  /** When the pause after the last reply is over. */
  function SleepEnd(o: PollOptions, rounds: seq<Round>, answers: seq<nat>): nat
    requires 0 < |answers| <= |rounds|
  {
    var last := |answers| - 1;
    Resumes(o, CappedWakeAt(answers[last], Delay(o, rounds, last), o.deadline), rounds[last].overslept)
  }

  /** The look that follows these starts and answers: a check in flight, the end of a pause, or a preflight. */
  predicate LooksAt(
      o: PollOptions, began: nat, rounds: seq<Round>, starts: seq<nat>, answers: seq<nat>, at: nat)
    requires |answers| <= |starts| <= |rounds|
  {
    var n := |answers|;
    if |starts| > n then at == Resumes(o, starts[n] + rounds[n].took, rounds[n].lag)
    else if n > 0 && StopAt(o, SleepEnd(o, rounds, answers)).Some? then at == SleepEnd(o, rounds, answers)
    else n < |rounds| && at == ReadyAt(o, began, rounds, answers) + rounds[n].before
  }

  predicate AllKeepWaiting(rounds: seq<Round>) {
    forall i :: 0 <= i < |rounds| ==> KeepsWaiting(rounds[i].reply)
  }

  /**
   * What a run of the loop is: it ends at the first reply that ends the wait, at the first look that
   * finds a stop, with the latest pending snapshot, or when the rounds are used up.
   */
  predicate IsRun(
      o: PollOptions, began: nat, rounds: seq<Round>, outcome: WaitOutcome, starts: seq<nat>, answers: seq<nat>,
      ended: nat)
  {
    && Timeline(o, began, rounds, starts, answers)
    && match outcome
       case Done(sms) =>
         !sms.Pending? && EndsWith(rounds, starts, answers, Snapshot(sms)) && ended == answers[|answers| - 1]
       case ClientError(error) =>
         EndsWith(rounds, starts, answers, Failure(error)) && ended == answers[|answers| - 1]
       case Stopped(why, last) =>
         && AllKeepWaiting(rounds[..|answers|]) && last == LatestPending(rounds, |answers|)
         && StopAt(o, ended) == Some(why) && LooksAt(o, began, rounds, starts, answers, ended)
       case Running =>
         && AllKeepWaiting(rounds) && |answers| == |starts| == |rounds|
         && ended == (if rounds == [] then began else SleepEnd(o, rounds, answers))
         && (rounds != [] ==> StopAt(o, ended).None?)
  }

  /** `wait_for_sms`; `Running` means that the given rounds were not enough to end it. */
  method WaitForSms(o: PollOptions, began: nat, rounds: seq<Round>)
    returns (outcome: WaitOutcome, starts: seq<nat>, answers: seq<nat>, ended: nat)
    requires ValidOptions(o) && ValidRounds(o, rounds)
    ensures IsRun(o, began, rounds, outcome, starts, answers, ended)
  {
    hide PollingDelay, LatestPending, IntervalAfter, Timeline, StopAt, Resumes, Delay;
    var last: Option<SmsCheck> := None;
    var interval := o.baseInterval;
    var now := began;
    starts, answers := [], [];
    Begins(o, began, rounds);
    for i := 0 to |rounds|
      invariant |starts| == |answers| == i
      invariant interval == IntervalAfter(o, i)
      invariant last == LatestPending(rounds, i)
      invariant Timeline(o, began, rounds, starts, answers)
      invariant forall j :: 0 <= j < i ==> KeepsWaiting(rounds[j].reply)
      invariant now == ReadyAt(o, began, rounds, answers)
      invariant i > 0 ==> StopAt(o, now) == None && now == SleepEnd(o, rounds, answers)
    {
      var round := rounds[i];
      LatestPendingStep(rounds, i);
      now := now + round.before;
      if StopAt(o, now).Some? {
        return Stopped(StopAt(o, now).value, last), starts, answers, now;
      }
      StartExtends(o, began, rounds, starts, answers, now);
      starts := starts + [now];
      var answered := Resumes(o, now + round.took, round.lag);
      if StopAt(o, answered).Some? {
        return Stopped(StopAt(o, answered).value, last), starts, answers, answered;
      }
      ResumesOnTime(o, now + round.took, round.lag);
      AnswerExtends(o, began, rounds, starts, answers, answered);
      answers := answers + [answered];
      var retryAfter: Option<nat> := None;
      match round.reply {
        case Snapshot(sms) =>
          if !sms.Pending? {
            return Done(sms), starts, answers, answered;
          }
          last := Some(sms);
        case RateLimited(asked) => retryAfter := asked;
        case Failure(error) => return ClientError(error), starts, answers, answered;
      }
      var normal := interval;
      IntervalDoubles(o, i);
      interval := AdvanceInterval(interval, o.maxInterval);
      var delay := PollingDelay(o, normal, retryAfter, round.drawn);
      DelayIs(o, rounds, i, retryAfter);
      var wakeAt := CappedWakeAt(answered, delay, o.deadline);
      now := Resumes(o, wakeAt, round.overslept);
      if StopAt(o, now).Some? {
        return Stopped(StopAt(o, now).value, last), starts, answers, now;
      }
      WokeBeforeDeadline(o, wakeAt, round.overslept);
    }
    return Running, starts, answers, now;
  }

  lemma DelayIs(o: PollOptions, rounds: seq<Round>, i: nat, retryAfter: Option<nat>)
    requires i < |rounds| && retryAfter == RetryAfter(rounds[i].reply)
    ensures Delay(o, rounds, i) == PollingDelay(o, IntervalAfter(o, i), retryAfter, rounds[i].drawn)
  {
  }

  lemma WokeBeforeDeadline(o: PollOptions, ready: nat, lag: nat)
    requires StopAt(o, Resumes(o, ready, lag)) == None
    ensures Resumes(o, ready, lag) == ready + lag && ready < o.deadline
  {
  }

  lemma Begins(o: PollOptions, began: nat, rounds: seq<Round>)
    requires ValidOptions(o)
    ensures IntervalAfter(o, 0) == o.baseInterval && LatestPending(rounds, 0) == None
    ensures Timeline(o, began, rounds, [], [])
  {
    assert Pow2(0) == 1;
  }

  lemma LatestPendingStep(rounds: seq<Round>, n: nat)
    requires n < |rounds|
    ensures LatestPending(rounds, n + 1) == if rounds[n].reply.Snapshot? && rounds[n].reply.sms.Pending?
      then Some(rounds[n].reply.sms) else LatestPending(rounds, n)
  {
  }

  // ---------------------------------------------------------------- the pause before another cancellation

  /** The pause of `wait_cancel_retry`. */
  function CancelRetryDelay(o: PollOptions, retryAfter: nat, drawn: nat): nat {
    PollingDelay(o, Max(o.baseInterval, retryAfter), Some(retryAfter), drawn)
  }

  ghost predicate FlooredAtBase(o: PollOptions, retryAfter: nat)
    requires ValidOptions(o)
  {
    forall drawn :: Drawable(o, Max(o.baseInterval, retryAfter), Some(retryAfter), drawn) ==>
      CancelRetryDelay(o, retryAfter, drawn) >= o.baseInterval
  }

  /**
   * Every draw respects the base interval exactly when the server asked for at least as much, or the
   * jitter is too small to take half a nanosecond off the base interval.
   */
  lemma FlooredAtBaseIff(o: PollOptions, retryAfter: nat)
    requires ValidOptions(o)
    ensures FlooredAtBase(o, retryAfter) <==>
      retryAfter >= o.baseInterval || 2 * o.jitter.num * o.baseInterval <= o.jitter.den
  {
    var low := JitterMin(o.jitter, Max(o.baseInterval, retryAfter));
    assert Drawable(o, Max(o.baseInterval, retryAfter), Some(retryAfter), low);
    KeepsWholeDelay(o.jitter, o.baseInterval);
    hide JitterMin;
    if FlooredAtBase(o, retryAfter) {
      assert CancelRetryDelay(o, retryAfter, low) >= o.baseInterval;
    }
  }

  lemma NearestReaches(x: nat, d: nat, k: nat)
    requires d > 0
    ensures k <= NearestQuotient(x, d) <==> 2 * (k * d) <= 2 * x + d
  {
    QuotientAtLeast(k, 2 * d, 2 * x + d);
    assert k * (2 * d) == 2 * (k * d);
  }

  lemma KeepsWholeDelay(r: Ratio, delay: nat)
    requires ValidRatio(r)
    ensures JitterMin(r, delay) == delay <==> 2 * r.num * delay <= r.den
  {
    hide NearestQuotient;
    var whole, part := r.den * delay, r.num * delay;
    assert (r.den - r.num) * delay == whole - part;
    MulMono(r.num, r.den, delay);
    NearestReaches(whole - part, r.den, delay);
    assert delay * r.den == whole && 2 * r.num * delay == 2 * part;
  }

  /** With the default options a 429 that asks for no pause is retried after 1.6 of the 2 seconds. */
  lemma DefaultPauseIsBelowBase(o: PollOptions)
    requires o.baseInterval == 2_000_000_000 && o.maxInterval == 30_000_000_000 && o.jitter == Ratio(1, 5)
    ensures Drawable(o, o.baseInterval, Some(0), 1_600_000_000)
    ensures CancelRetryDelay(o, 0, 1_600_000_000) < o.baseInterval
    ensures !FlooredAtBase(o, 0)
  {
    NearestBounds((5 - 1) * o.baseInterval, 5, 1_600_000_000, 1_600_000_000);
    FlooredAtBaseIff(o, 0);
  }
}
