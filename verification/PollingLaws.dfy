/** What every run of the waiting loop satisfies: the loop is determined, and how many checks it can start. */
module PollingLaws {
  import opened Prelude
  import opened Delays
  import opened Polling

  // ---------------------------------------------------------------- the loop has one run

  lemma {:induction false} CommonPrefix(
      o: PollOptions, began: nat, rounds: seq<Round>, s1: seq<nat>, a1: seq<nat>, s2: seq<nat>, a2: seq<nat>, i: nat)
    requires Timeline(o, began, rounds, s1, a1) && Timeline(o, began, rounds, s2, a2)
    requires i < |s1| && i < |s2|
    ensures s1[i] == s2[i]
    ensures i < |a1| && i < |a2| ==> a1[i] == a2[i]
  {
    hide Delay;
    if i > 0 {
      CommonPrefix(o, began, rounds, s1, a1, s2, a2, i - 1);
    }
  }

  /** A check that one run starts or answers is not missing from another. */
  lemma SecondReachesAsFar(
      o: PollOptions, began: nat, rounds: seq<Round>,
      s1: seq<nat>, a1: seq<nat>, out: WaitOutcome, s2: seq<nat>, a2: seq<nat>, e2: nat)
    requires Timeline(o, began, rounds, s1, a1) && IsRun(o, began, rounds, out, s2, a2, e2)
    ensures |s1| <= |s2| && |a1| <= |a2|
  {
    hide Delay, LatestPending;
    var m := |a2|;
    if |s2| > m && |a1| > m {
      CommonPrefix(o, began, rounds, s1, a1, s2, a2, m);
    } else if |s1| > |s2| {
      if m > 0 {
        CommonPrefix(o, began, rounds, s1, a1, s2, a2, m - 1);
        NextStartPasses(o, began, rounds, s1, a1, a2);
      }
    }
  }

  lemma NextStartPasses(
      o: PollOptions, began: nat, rounds: seq<Round>, s1: seq<nat>, a1: seq<nat>, a2: seq<nat>)
    requires Timeline(o, began, rounds, s1, a1) && 0 < |a2| < |s1| && a1[|a2| - 1] == a2[|a2| - 1]
    ensures StopAt(o, SleepEnd(o, rounds, a2)).None? && KeepsWaiting(rounds[|a2| - 1].reply)
    ensures s1[|a2|] == ReadyAt(o, began, rounds, a2) + rounds[|a2|].before
  {
    hide Delay;
    var n := |a2|;
    assert s1[n] == a1[n - 1] + Delay(o, rounds, n - 1) + rounds[n - 1].overslept + rounds[n].before;
    assert s1[n] < FirstStop(o);
    assert KeepsWaiting(rounds[n - 1].reply);
  }

  /** The loop's contract leaves no choice: two runs on the same rounds are the same run. */
  lemma RunIsUnique(
      o: PollOptions, began: nat, rounds: seq<Round>,
      out1: WaitOutcome, s1: seq<nat>, a1: seq<nat>, e1: nat, out2: WaitOutcome, s2: seq<nat>, a2: seq<nat>, e2: nat)
    requires IsRun(o, began, rounds, out1, s1, a1, e1) && IsRun(o, began, rounds, out2, s2, a2, e2)
    ensures out1 == out2 && s1 == s2 && a1 == a2 && e1 == e2
  {
    hide Delay, LatestPending, SleepEnd;
    SecondReachesAsFar(o, began, rounds, s1, a1, out2, s2, a2, e2);
    SecondReachesAsFar(o, began, rounds, s2, a2, out1, s1, a1, e1);
    forall i | 0 <= i < |s1| ensures s1[i] == s2[i] && (i < |a1| ==> a1[i] == a2[i]) {
      CommonPrefix(o, began, rounds, s1, a1, s2, a2, i);
    }
    assert s1 == s2 && a1 == a2;
  }

  // ---------------------------------------------------------------- stops and snapshots

  /** No check starts and no reply is taken at or after the deadline or the cancellation. */
  lemma ChecksPrecedeStop(
      o: PollOptions, began: nat, rounds: seq<Round>, starts: seq<nat>, answers: seq<nat>, i: nat)
    requires Timeline(o, began, rounds, starts, answers) && i < |starts|
    ensures starts[i] < o.deadline && (o.cancelledAt.Some? ==> starts[i] < o.cancelledAt.value)
    ensures i < |answers| ==>
      answers[i] < o.deadline && (o.cancelledAt.Some? ==> answers[i] < o.cancelledAt.value)
  {
  }

  /**
   * The reason of a stop is true at the moment it is given: cancelled exactly if the token had fired by
   * then, whatever the deadline, and otherwise the deadline had come. A check in flight or a pause is cut
   * short by it, up to the delay in waking the loop.
   */
  lemma StopReasonIsTrue(
      o: PollOptions, began: nat, rounds: seq<Round>, why: StopReason, last: Option<SmsCheck>, starts: seq<nat>,
      answers: seq<nat>, ended: nat)
    requires IsRun(o, began, rounds, Stopped(why, last), starts, answers, ended)
    ensures why == Cancelled <==> o.cancelledAt.Some? && o.cancelledAt.value <= ended
    ensures why == DeadlineReached ==> o.deadline <= ended
    ensures var n := |answers|;
      |starts| > n ==>
        && ended <= o.deadline + rounds[n].lag
        && (o.cancelledAt.Some? ==> ended <= o.cancelledAt.value + rounds[n].lag)
    ensures var n := |answers|;
      |starts| == n && (n == |rounds| || (n > 0 && rounds[n].before == 0)) ==>
        && ended <= o.deadline + rounds[n - 1].overslept
        && (o.cancelledAt.Some? ==> ended <= o.cancelledAt.value + rounds[n - 1].overslept)
  {
    hide Delay, LatestPending;
  }

  /** The snapshot of a stop is the pending one of the last reply that brought one, if any reply did. */
  lemma {:induction false} LatestPendingIsLatest(rounds: seq<Round>, n: nat, sms: SmsCheck)
    requires n <= |rounds|
    ensures LatestPending(rounds, n) == Some(sms) <==> exists i :: IsLatestPending(rounds, n, i, sms)
  {
    if n > 0 {
      var m: nat := n - 1;
      LatestPendingIsLatest(rounds, m, sms);
      if BringsPending(rounds[m]) {
        assert rounds[m].reply.sms == sms ==> IsLatestPending(rounds, n, m, sms);
        assert forall i :: IsLatestPending(rounds, n, i, sms) ==> i == m;
      } else {
        if i :| IsLatestPending(rounds, n, i, sms) {
          assert IsLatestPending(rounds, m, i, sms);
        }
        if i :| IsLatestPending(rounds, m, i, sms) {
          assert IsLatestPending(rounds, n, i, sms);
        }
      }
    }
  }

  predicate BringsPending(round: Round) {
    round.reply.Snapshot? && round.reply.sms.Pending?
  }

  predicate IsLatestPending(rounds: seq<Round>, n: nat, i: int, sms: SmsCheck)
    requires n <= |rounds|
  {
    && 0 <= i < n && BringsPending(rounds[i]) && rounds[i].reply.sms == sms
    && forall j :: i < j < n ==> !BringsPending(rounds[j])
  }

  // ---------------------------------------------------------------- how many checks fit before the stop

  /** The earliest moment at which check number `k`, counted from zero, can start. */
  function EarliestStart(o: PollOptions, began: nat, k: nat): nat
    requires ValidOptions(o)
  {
    if k == 0 then began else EarliestStart(o, began, k - 1) + JitterMin(o.jitter, IntervalAfter(o, k - 1))
  }

  /** Some provider and some draws make the loop start check number `k`. */
  ghost predicate CanStart(o: PollOptions, began: nat, k: nat)
    requires ValidOptions(o)
  {
    exists rounds, outcome, starts, answers, ended ::
      ValidRounds(o, rounds) && IsRun(o, began, rounds, outcome, starts, answers, ended) && |starts| > k
  }

  lemma {:induction false} NoCheckStartsEarlier(
      o: PollOptions, began: nat, rounds: seq<Round>, starts: seq<nat>, answers: seq<nat>, i: nat)
    requires ValidOptions(o) && ValidRounds(o, rounds) && Timeline(o, began, rounds, starts, answers) && i < |starts|
    ensures starts[i] >= EarliestStart(o, began, i)
    ensures i > 0 ==> starts[i] >= answers[i - 1] + Floor(RetryAfter(rounds[i - 1].reply))
  {
    hide IntervalAfter, JitterMin, PollingDelay, Drawable;
    if i > 0 {
      NoCheckStartsEarlier(o, began, rounds, starts, answers, i - 1);
      DelayBounds(o, i - 1, RetryAfter(rounds[i - 1].reply), rounds[i - 1].drawn);
    }
  }

  /** A provider that answers at once, with the least draw every time. */
  function EagerRound(o: PollOptions, i: nat): Round
    requires ValidOptions(o)
  {
    Round(0, Snapshot(Pending(0)), 0, 0, JitterMin(o.jitter, IntervalAfter(o, i)), 0)
  }

  function EagerRounds(o: PollOptions, n: nat): seq<Round>
    requires ValidOptions(o)
  {
    seq(n, i requires i >= 0 => EagerRound(o, i))
  }

  function EagerStarts(o: PollOptions, began: nat, n: nat): seq<nat>
    requires ValidOptions(o)
  {
    seq(n, i requires i >= 0 => EarliestStart(o, began, i))
  }

  lemma EarliestStartGrows(o: PollOptions, began: nat, i: nat, k: nat)
    requires ValidOptions(o) && i <= k
    ensures EarliestStart(o, began, i) <= EarliestStart(o, began, k)
  {
  }

  lemma EagerDelay(o: PollOptions, i: nat)
    requires ValidOptions(o)
    ensures var low := JitterMin(o.jitter, IntervalAfter(o, i));
      Drawable(o, IntervalAfter(o, i), None, low) && PollingDelay(o, IntervalAfter(o, i), None, low) == low
  {
    IntervalDoubles(o, i);
  }

  lemma EagerIndex(o: PollOptions, began: nat, n: nat, i: nat)
    requires ValidOptions(o) && i < n
    ensures var rounds, starts := EagerRounds(o, n), EagerStarts(o, began, n);
      && rounds[i].before == rounds[i].took == rounds[i].lag == rounds[i].overslept == 0
      && rounds[i].reply == Snapshot(Pending(0))
      && Drawable(o, IntervalAfter(o, i), None, rounds[i].drawn)
      && starts[i] == EarliestStart(o, began, i)
      && EarliestStart(o, began, i + 1) == EarliestStart(o, began, i) + Delay(o, rounds, i)
  {
    EagerDelay(o, i);
    EarliestStartStep(o, began, i);
  }

  lemma EagerTimeline(o: PollOptions, began: nat, k: nat)
    requires ValidOptions(o) && EarliestStart(o, began, k) < FirstStop(o)
    ensures ValidRounds(o, EagerRounds(o, k + 1))
    ensures Timeline(o, began, EagerRounds(o, k + 1), EagerStarts(o, began, k + 1), EagerStarts(o, began, k + 1))
  {
    hide EagerRounds, EagerStarts, EarliestStart;
    EagerIndices(o, began, k);
    EarliestStartStep(o, began, 0);
    EagerFits(o, began, EagerRounds(o, k + 1), EagerStarts(o, began, k + 1));
  }

  lemma EagerFits(o: PollOptions, began: nat, rounds: seq<Round>, starts: seq<nat>)
    requires ValidOptions(o) && |rounds| == |starts| > 0 && starts[0] == began
    requires forall i :: 0 <= i < |starts| ==>
      && rounds[i].before == rounds[i].took == rounds[i].lag == rounds[i].overslept == 0
      && rounds[i].reply == Snapshot(Pending(0)) && Drawable(o, IntervalAfter(o, i), None, rounds[i].drawn)
      && starts[i] < FirstStop(o)
    requires forall i :: 0 < i < |starts| ==> starts[i] == starts[i - 1] + Delay(o, rounds, i - 1)
    ensures ValidRounds(o, rounds) && Timeline(o, began, rounds, starts, starts)
  {
    hide IntervalAfter, FirstStop, Drawable, Delay;
  }

  lemma EagerIndices(o: PollOptions, began: nat, k: nat)
    requires ValidOptions(o) && EarliestStart(o, began, k) < FirstStop(o)
    ensures var rounds, starts := EagerRounds(o, k + 1), EagerStarts(o, began, k + 1);
      && (forall i :: 0 <= i <= k ==>
            && rounds[i].before == rounds[i].took == rounds[i].lag == rounds[i].overslept == 0
            && rounds[i].reply == Snapshot(Pending(0)) && Drawable(o, IntervalAfter(o, i), None, rounds[i].drawn)
            && starts[i] < FirstStop(o))
      && (forall i :: 0 < i <= k ==> starts[i] == starts[i - 1] + Delay(o, rounds, i - 1))
      && starts[0] == EarliestStart(o, began, 0) && |starts| == |rounds| == k + 1
  {
    hide IntervalAfter, JitterMin, FirstStop, PollingDelay, Drawable, EarliestStart, EagerRound, Delay;
    var rounds, starts := EagerRounds(o, k + 1), EagerStarts(o, began, k + 1);
    forall i | 0 <= i <= k
      ensures rounds[i].before == rounds[i].took == rounds[i].lag == rounds[i].overslept == 0
      ensures rounds[i].reply == Snapshot(Pending(0)) && Drawable(o, IntervalAfter(o, i), None, rounds[i].drawn)
      ensures starts[i] < FirstStop(o)
    {
      EagerIndex(o, began, k + 1, i);
      EarliestStartGrows(o, began, i, k);
    }
    forall i | 0 < i <= k ensures starts[i] == starts[i - 1] + Delay(o, rounds, i - 1) {
      EagerIndex(o, began, k + 1, i - 1);
      EagerIndex(o, began, k + 1, i);
    }
  }

  lemma EarliestStartStep(o: PollOptions, began: nat, i: nat)
    requires ValidOptions(o)
    ensures EarliestStart(o, began, 0) == began
    ensures EarliestStart(o, began, i + 1) == EarliestStart(o, began, i) + JitterMin(o.jitter, IntervalAfter(o, i))
  {
  }

  /** On the eager provider the loop starts every check that fits, and then pauses once more. */
  lemma EagerRun(o: PollOptions, began: nat, k: nat) returns (outcome: WaitOutcome, ended: nat)
    requires ValidOptions(o) && EarliestStart(o, began, k) < FirstStop(o)
    ensures var rounds, starts := EagerRounds(o, k + 1), EagerStarts(o, began, k + 1);
      ValidRounds(o, rounds) && IsRun(o, began, rounds, outcome, starts, starts, ended)
  {
    hide EarliestStart, FirstStop, Timeline, EagerRounds, EagerStarts, IsRun;
    EagerTimeline(o, began, k);
    EagerKeepsWaiting(o, began, k + 1);
    outcome, ended := RunAfterLastPause(o, began, EagerRounds(o, k + 1), EagerStarts(o, began, k + 1));
  }

  lemma RunAfterLastPause(o: PollOptions, began: nat, rounds: seq<Round>, starts: seq<nat>)
    returns (outcome: WaitOutcome, ended: nat)
    requires Timeline(o, began, rounds, starts, starts) && |starts| == |rounds| > 0 && AllKeepWaiting(rounds)
    ensures IsRun(o, began, rounds, outcome, starts, starts, ended)
  {
    hide Delay, StopAt, Timeline, LatestPending, SleepEnd;
    assert rounds[..|starts|] == rounds;
    ended := SleepEnd(o, rounds, starts);
    outcome := if StopAt(o, ended).None? then Running
      else Stopped(StopAt(o, ended).value, LatestPending(rounds, |starts|));
  }

  lemma EagerKeepsWaiting(o: PollOptions, began: nat, n: nat)
    requires ValidOptions(o)
    ensures |EagerRounds(o, n)| == |EagerStarts(o, began, n)| == n
    ensures AllKeepWaiting(EagerRounds(o, n))
  {
  }

  /** Whatever the loop returns on `k + 1` eager rounds, it started check `k` exactly if that fits. */
  lemma EagerRunReaches(
      o: PollOptions, began: nat, k: nat, outcome: WaitOutcome, starts: seq<nat>, answers: seq<nat>, ended: nat)
    requires ValidOptions(o) && ValidRounds(o, EagerRounds(o, k + 1))
    requires IsRun(o, began, EagerRounds(o, k + 1), outcome, starts, answers, ended)
    ensures |starts| > k <==> EarliestStart(o, began, k) < FirstStop(o)
  {
    hide EarliestStart, FirstStop, EagerRounds, IsRun;
    if EarliestStart(o, began, k) < FirstStop(o) {
      var out, end := EagerRun(o, began, k);
      var eager := EagerStarts(o, began, k + 1);
      RunIsUnique(o, began, EagerRounds(o, k + 1), outcome, starts, answers, ended, out, eager, eager, end);
    }
    if |starts| > k {
      StartedInTime(o, began, EagerRounds(o, k + 1), outcome, starts, answers, ended, k);
    }
  }

  lemma StartedInTime(
      o: PollOptions, began: nat, rounds: seq<Round>, outcome: WaitOutcome, starts: seq<nat>, answers: seq<nat>,
      ended: nat, k: nat)
    requires ValidOptions(o) && ValidRounds(o, rounds) && |starts| > k
    requires IsRun(o, began, rounds, outcome, starts, answers, ended)
    ensures EarliestStart(o, began, k) < FirstStop(o)
  {
    hide EarliestStart, FirstStop, ValidRounds, LooksAt, Delay;
    NoCheckStartsEarlier(o, began, rounds, starts, answers, k);
  }

  /** Check `k` can start in some run of the loop exactly when the earliest schedule reaches it before the stop. */
  lemma CanStartIff(o: PollOptions, began: nat, k: nat)
    requires ValidOptions(o)
    ensures CanStart(o, began, k) <==> EarliestStart(o, began, k) < FirstStop(o)
  {
    hide EarliestStart, FirstStop, EagerRounds, IsRun;
    if CanStart(o, began, k) {
      var rounds, outcome, starts, answers, ended :|
        ValidRounds(o, rounds) && IsRun(o, began, rounds, outcome, starts, answers, ended) && |starts| > k;
      StartedInTime(o, began, rounds, outcome, starts, answers, ended, k);
    }
    if EarliestStart(o, began, k) < FirstStop(o) {
      var outcome, ended := EagerRun(o, began, k);
      assert |EagerStarts(o, began, k + 1)| == k + 1;
    }
  }

  /** The loop itself on the eager provider: it starts check `k` exactly if that fits before the stop. */
  method WaitEagerly(o: PollOptions, began: nat, k: nat) returns (starts: seq<nat>)
    requires ValidOptions(o)
    ensures |starts| <= k + 1
    ensures |starts| == k + 1 <==> EarliestStart(o, began, k) < FirstStop(o)
  {
    hide EarliestStart, FirstStop, EagerRounds, IsRun;
    EagerRoundsAreValid(o, k + 1);
    var outcome, answers, ended;
    outcome, starts, answers, ended := WaitForSms(o, began, EagerRounds(o, k + 1));
    EagerRunReaches(o, began, k, outcome, starts, answers, ended);
    NoMoreStartsThanRounds(o, began, EagerRounds(o, k + 1), outcome, starts, answers, ended);
  }

  lemma EagerRoundsAreValid(o: PollOptions, n: nat)
    requires ValidOptions(o)
    ensures |EagerRounds(o, n)| == n && ValidRounds(o, EagerRounds(o, n))
  {
    hide Drawable, JitterMin, IntervalAfter;
    forall i | 0 <= i < n ensures Drawable(o, IntervalAfter(o, i), None, EagerRounds(o, n)[i].drawn) {
      EagerDelay(o, i);
    }
  }

  lemma NoMoreStartsThanRounds(
      o: PollOptions, began: nat, rounds: seq<Round>, outcome: WaitOutcome, starts: seq<nat>, answers: seq<nat>,
      ended: nat)
    requires IsRun(o, began, rounds, outcome, starts, answers, ended)
    ensures |starts| <= |rounds|
  {
  }

  /** So `k` gaps of at least the jittered base interval must fit before the stop. */
  lemma {:induction false} EarliestStartLower(o: PollOptions, began: nat, k: nat)
    requires ValidOptions(o)
    ensures EarliestStart(o, began, k) >= began + k * JitterMin(o.jitter, o.baseInterval)
  {
    hide JitterMin, JitterMax, IntervalAfter;
    var gap := JitterMin(o.jitter, o.baseInterval);
    if k == 0 {
      assert k * gap == 0;
    } else {
      EarliestStartLower(o, began, k - 1);
      IntervalDoubles(o, k - 1);
      JitterMonotone(o.jitter, o.baseInterval, IntervalAfter(o, k - 1));
      assert k * gap == (k - 1) * gap + gap;
    }
  }

  /** At most `1 + (stop - began) / ((1 - jitter) * base)` checks, when that quotient exists. */
  lemma CheckCountBound(o: PollOptions, began: nat, rounds: seq<Round>, starts: seq<nat>, answers: seq<nat>)
    requires ValidOptions(o) && ValidRounds(o, rounds) && Timeline(o, began, rounds, starts, answers)
    requires JitterMin(o.jitter, o.baseInterval) > 0 && starts != []
    ensures |starts| <= 1 + (FirstStop(o) - began) / JitterMin(o.jitter, o.baseInterval)
  {
    hide EarliestStart, JitterMin, ValidRounds, Timeline;
    var k := |starts| - 1;
    LastStart(o, began, rounds, starts, answers);
    QuotientAtLeast(k, JitterMin(o.jitter, o.baseInterval), FirstStop(o) - began);
  }

  lemma LastStart(o: PollOptions, began: nat, rounds: seq<Round>, starts: seq<nat>, answers: seq<nat>)
    requires ValidOptions(o) && ValidRounds(o, rounds) && Timeline(o, began, rounds, starts, answers) && starts != []
    ensures began + (|starts| - 1) * JitterMin(o.jitter, o.baseInterval) < FirstStop(o)
  {
    hide JitterMin, ValidRounds, EarliestStart;
    NoCheckStartsEarlier(o, began, rounds, starts, answers, |starts| - 1);
    EarliestStartLower(o, began, |starts| - 1);
  }

  /** With full jitter there is no bound: any number of checks can start. */
  lemma {:induction false} FullJitterIsUnbounded(o: PollOptions, began: nat, k: nat)
    requires ValidOptions(o) && o.jitter.num == o.jitter.den
    ensures CanStart(o, began, k) <==> began < FirstStop(o)
  {
    CanStartIff(o, began, k);
    FullJitterStarts(o, began, k);
  }

  lemma {:induction false} FullJitterStarts(o: PollOptions, began: nat, k: nat)
    requires ValidOptions(o) && o.jitter.num == o.jitter.den
    ensures EarliestStart(o, began, k) == began
  {
    if k > 0 {
      FullJitterStarts(o, began, k - 1);
      NearestBounds(0, o.jitter.den, 0, 0);
      assert (o.jitter.den - o.jitter.num) * IntervalAfter(o, k - 1) == 0;
    }
  }
}
