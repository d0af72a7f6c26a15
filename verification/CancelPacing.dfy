/** How the reconciliations after an unknown outcome are paced, and two statements the workflow does not keep. */
module CancelPacing {
  import opened Prelude
  import opened Delays
  import opened Transport
  import opened Cancellation
  import opened CancelLaws
  import P = Polling

  // ---------------------------------------------------------------- pacing after an unknown outcome

  /** The check shows that the order is over for the workflow: received, terminated, or not found. */
  predicate SaysOver(look: Look) {
    if look.check.Ok? then !look.check.value.Pending?
    else look.check.error.Api? && look.check.error.api.status == 404
  }

  lemma OverIff(look: Look)
    ensures EndsUnknownPhase(ObserveCheck(look.check)) <==> SaysOver(look)
  {
  }

  /** No reconciliation would end the phase early. */
  predicate NeverEnds(e: Env) {
    forall i :: 0 <= i < |e.looks| ==> !SaysOver(e.looks[i])
  }

  /** A phase goes on after every look that leaves the order open, and stops at the first that does not. */
  predicate EndsOnlyWhenOver(trace: seq<Event>) {
    forall i :: 0 <= i < |trace| - 1 && trace[i].Looked? ==> !SaysOver(trace[i].look)
  }

  predicate LastIsOver(trace: seq<Event>) {
    trace != [] && trace[|trace| - 1].Looked? && SaysOver(trace[|trace| - 1].look)
  }

  /**
   * The rest of a phase with `left` reconciliations to go: it goes on after every look that leaves the
   * order open, and falls short of its budget only by a stop or by a look that shows the order over.
   */
  predicate EndsWell(left: nat, run: Run) {
    && EndsOnlyWhenOver(run.trace)
    && (run.outcome.Ok? && Looks(run.trace) < left ==> LastIsOver(run.trace))
    && (run.outcome.Err? ==> !LastIsOver(run.trace))
    && (left == 0 ==> run.trace == [] && run.outcome.Ok?)
    && (run.trace == [] ==> left == 0)
  }

  lemma LastLookEndsWell(left: nat, look: Look, run: Run)
    requires left > 0 && run.trace == [Looked(look)] && (run.outcome.Ok? <==> SaysOver(look))
    ensures EndsWell(left, run)
  {
    hide SaysOver;
  }

  lemma EarlierLookEndsWell(left: nat, look: Look, length: Option<nat>, rest: Run)
    requires left > 0 && EndsWell(left - 1, rest) && !SaysOver(look) && (length.Some? ==> left > 1)
    ensures EndsWell(left, After(if length.Some? then [Looked(look), Paused(length.value)] else [Looked(look)], rest))
  {
    hide SaysOver;
    LookCounts(Looked(look), if length.Some? then length.value else 0, rest.trace);
    hide Looks;
    var events := if length.Some? then [Looked(look), Paused(length.value)] else [Looked(look)];
    var all := events + rest.trace;
    forall i | 0 <= i < |all| - 1 && all[i].Looked? ensures !SaysOver(all[i].look) {
      if i >= |events| {
        assert all[i] == rest.trace[i - |events|];
      }
    }
    NoEvents();
    assert rest.trace != [] ==> all[|all| - 1] == rest.trace[|rest.trace| - 1];
  }

  lemma {:induction false} UnknownPhaseEnds(e: Env, result: CancellationResult, j: nat, now: nat)
    requires |e.looks| >= e.options.maxUnknownChecks >= j && result.reconciliationChecks >= j
    ensures EndsWell(e.options.maxUnknownChecks - j, UnknownFrom(e, result, j, now))
    decreases e.options.maxUnknownChecks - j
  {
    hide Wake, P.StopAt, EndsUnknownPhase, Reconciled, SaysOver, EndsWell;
    var m := e.options.maxUnknownChecks;
    if j == m {
      NothingLeftEndsWell(result);
    } else {
      var look := e.looks[j];
      var next := Reconciled(e, result, look);
      ReconciledCounts(e, result, look);
      ReconciledCheck(e, result, look);
      OverIff(look);
      var done := now + look.took;
      var woke := Wake(e.options.poll, done, e.options.poll.baseInterval, look.overslept);
      if EndsUnknownPhase(next.check) {
        LastLookEndsWell(m - j, look, UnknownFrom(e, result, j, now));
      } else if next.reconciliationChecks >= m {
        UnknownPhaseEnds(e, next, j + 1, done);
        EarlierLookEndsWell(m - j, look, None, UnknownFrom(e, next, j + 1, done));
      } else if P.StopAt(e.options.poll, woke).None? {
        UnknownPhaseEnds(e, next, j + 1, woke);
        WokeLater(e.options.poll, done, e.options.poll.baseInterval, look.overslept);
        EarlierLookEndsWell(m - j, look, Some(woke - done), UnknownFrom(e, next, j + 1, woke));
      } else {
        LastLookEndsWell(m - j, look, UnknownFrom(e, result, j, now));
      }
    }
  }

  lemma NothingLeftEndsWell(result: CancellationResult)
    ensures EndsWell(0, Run(Ok(result), []))
  {
  }

  predicate EvenlyPaced(trace: seq<Event>) {
    forall i :: 0 <= i < |trace| - 1 && trace[i].Looked? ==> trace[i + 1].Paused?
  }

  predicate PausesAtLeast(trace: seq<Event>, length: nat) {
    forall i :: 0 <= i < |trace| && trace[i].Paused? ==> trace[i].length >= length
  }

  /** One step of a phase that neither ends nor is stopped. */
  lemma PhaseStep(e: Env, result: CancellationResult, j: nat, now: nat) returns (next: CancellationResult, at: nat)
    requires |e.looks| >= e.options.maxUnknownChecks > j && NeverEnds(e)
    requires UnknownFrom(e, result, j, now).outcome.Ok?
    ensures next.reconciliationChecks == result.reconciliationChecks + 1 && at >= now
    ensures next.reconciliationChecks >= e.options.maxUnknownChecks ==>
      UnknownFrom(e, result, j, now) == After([Looked(e.looks[j])], UnknownFrom(e, next, j + 1, at))
    ensures next.reconciliationChecks < e.options.maxUnknownChecks ==>
      exists length: nat :: length >= e.options.poll.baseInterval
        && UnknownFrom(e, result, j, now)
          == After([Looked(e.looks[j]), Paused(length)], UnknownFrom(e, next, j + 1, at))
  {
    hide Wake, P.StopAt, Reconciled;
    var look := e.looks[j];
    next := Reconciled(e, result, look);
    ReconciledCounts(e, result, look);
    ReconciledCheck(e, result, look);
    OverIff(look);
    at := now + look.took;
    if next.reconciliationChecks < e.options.maxUnknownChecks {
      var woke := Wake(e.options.poll, at, e.options.poll.baseInterval, look.overslept);
      WokeLater(e.options.poll, at, e.options.poll.baseInterval, look.overslept);
      var length: nat := woke - at;
      assert UnknownFrom(e, result, j, now)
        == After([Looked(e.looks[j]), Paused(length)], UnknownFrom(e, next, j + 1, woke));
      at := woke;
    }
  }

  lemma ReconciledCheck(e: Env, result: CancellationResult, look: Look)
    ensures Reconciled(e, result, look).check == ObserveCheck(look.check)
  {
  }

  /**
   * If no reconciliation ends the phase and no wait is cut short, the phase makes its whole budget of
   * reconciliations, with as many pauses as the budget exceeds one more than those made before it.
   */
  lemma {:induction false} PacingLaw(e: Env, result: CancellationResult, j: nat, now: nat)
    requires |e.looks| >= e.options.maxUnknownChecks >= j && NeverEnds(e) && result.reconciliationChecks >= j
    requires UnknownFrom(e, result, j, now).outcome.Ok?
    ensures var trace := UnknownFrom(e, result, j, now).trace;
      && Looks(trace) == e.options.maxUnknownChecks - j
      && Pauses(trace) == Max(0, e.options.maxUnknownChecks - 1 - result.reconciliationChecks)
      && PausesAtLeast(trace, e.options.poll.baseInterval)
    decreases e.options.maxUnknownChecks - j
  {
    NoEvents();
    hide Looks, Pauses, NeverEnds;
    if j < e.options.maxUnknownChecks {
      var next, at := PhaseStep(e, result, j, now);
      var rest := UnknownFrom(e, next, j + 1, at).trace;
      if next.reconciliationChecks >= e.options.maxUnknownChecks {
        PacingLaw(e, next, j + 1, at);
        LookCounts(Looked(e.looks[j]), 0, rest);
      } else {
        var length: nat :| length >= e.options.poll.baseInterval
          && UnknownFrom(e, result, j, now)
          == After([Looked(e.looks[j]), Paused(length)], UnknownFrom(e, next, j + 1, at));
        PacingLaw(e, next, j + 1, at);
        LookCounts(Looked(e.looks[j]), length, rest);
      }
    }
  }

  predicate OnlyLooksAndPauses(trace: seq<Event>) {
    forall i :: 0 <= i < |trace| ==> trace[i].Looked? || trace[i].Paused?
  }

  /** Even pacing needs a pause for every reconciliation but the last. */
  lemma {:induction false} EvenPacingNeedsPauses(trace: seq<Event>)
    requires OnlyLooksAndPauses(trace) && EvenlyPaced(trace)
    ensures Looks(trace) <= Pauses(trace) + 1
    ensures trace != [] && trace[0].Paused? ==> Looks(trace) <= Pauses(trace)
  {
    if |trace| > 0 {
      EvenPacingNeedsPauses(trace[1..]);
      NoEvents();
    }
  }

  lemma {:induction false} PhaseShape(e: Env, result: CancellationResult, j: nat, now: nat)
    requires |e.looks| >= e.options.maxUnknownChecks >= j && NeverEnds(e)
    requires UnknownFrom(e, result, j, now).outcome.Ok?
    ensures var trace := UnknownFrom(e, result, j, now).trace;
      && OnlyLooksAndPauses(trace)
      && (trace == [] <==> j == e.options.maxUnknownChecks)
      && (result.reconciliationChecks == j ==> EvenlyPaced(trace))
    decreases e.options.maxUnknownChecks - j
  {
    hide NeverEnds;
    if j < e.options.maxUnknownChecks {
      var next, at := PhaseStep(e, result, j, now);
      PhaseShape(e, next, j + 1, at);
      hide UnknownFrom;
    }
  }

  /** The reconciliations are evenly paced exactly when the budget is one or none was made before the phase. */
  lemma EvenlyPacedIff(e: Env, result: CancellationResult, now: nat)
    requires |e.looks| >= e.options.maxUnknownChecks > 0 && NeverEnds(e)
    requires UnknownFrom(e, result, 0, now).outcome.Ok?
    ensures EvenlyPaced(UnknownFrom(e, result, 0, now).trace) <==>
      e.options.maxUnknownChecks == 1 || result.reconciliationChecks == 0
  {
    var trace := UnknownFrom(e, result, 0, now).trace;
    PhaseShape(e, result, 0, now);
    PacingLaw(e, result, 0, now);
    if EvenlyPaced(trace) {
      EvenPacingNeedsPauses(trace);
    }
    if e.options.maxUnknownChecks == 1 {
      var next, at := PhaseStep(e, result, 0, now);
      assert UnknownFrom(e, next, 1, at).trace == [];
    }
  }

  // ---------------------------------------------------------------- when an unknown outcome is dropped

  /** A run whose last cancel request had an unknown outcome, and that ends with an error that hides it. */
  predicate DropsUnknown(run: Run) {
    && run.outcome.Err?
    && LastReply(run.trace).Some? && LastReply(run.trace).value.Err? && LastReply(run.trace).value.error.OutcomeUnknown?
  }

  /** No provider, timing or stop makes a run with these options drop an unknown outcome. */
  ghost predicate KeepsUnknown(o: CancelOptions)
    requires UsableOptions(o)
  {
    forall e: Env, now: nat :: e.options == o && Usable(e) ==> !DropsUnknown(CancelFrom(e, Initial(o), now))
  }

  /** A phase entered with all but one of its reconciliations already made has no wait to be stopped in. */
  lemma {:induction false} NoWaitKeepsUnknown(e: Env, result: CancellationResult, j: nat, now: nat)
    requires |e.looks| >= e.options.maxUnknownChecks && result.reconciliationChecks + 1 >= e.options.maxUnknownChecks
    ensures UnknownFrom(e, result, j, now).outcome.Ok?
    decreases e.options.maxUnknownChecks - j
  {
    if j < e.options.maxUnknownChecks {
      var next := Reconciled(e, result, e.looks[j]);
      NoWaitKeepsUnknown(e, next, j + 1, now + e.looks[j].took);
    }
  }

  lemma TurnKeepsUnknown(e: Env, result: CancellationResult, now: nat)
    requires Usable(e) && result.cancelAttempts < e.options.maxCancelAttempts
    ensures var turn := TurnAt(e, result, now);
      && (turn.Ends? ==> !DropsUnknown(turn.run))
      && (turn.Doubts? ==> turn.result.reconciliationChecks == result.reconciliationChecks)
      && (turn.Again? ==>
            LastReply(turn.events).Some?
            && !(LastReply(turn.events).value.Err? && LastReply(turn.events).value.error.OutcomeUnknown?))
  {
    hide Wake, RetryPause, P.PollingDelay, LastReply, Reconciled, Concluded, ValidDraw, Cancels, Looks;
    var round := e.rounds[result.cancelAttempts];
    SentAndSeen(round.reply, round.look);
    NoEvents();
    var events := [CancelSent(round.reply), Looked(round.look)];
    assert events + [] == events;
    var turn := TurnAt(e, result, now);
    if turn.Again? {
      LastReplyConcat(events, [turn.events[2]]);
      PauseHasNoReply(turn.events[2].length);
    }
  }

  lemma PauseHasNoReply(length: nat)
    ensures LastReply([Paused(length)]) == None
  {
  }

  lemma {:induction false} SingleCheckKeepsUnknown(e: Env, result: CancellationResult, now: nat)
    requires Usable(e) && result.cancelAttempts < e.options.maxCancelAttempts && e.options.maxUnknownChecks == 1
    ensures !DropsUnknown(CancelFrom(e, result, now))
    decreases e.options.maxCancelAttempts - result.cancelAttempts
  {
    assert |e.looks| >= 1;
    hide TurnAt, UnknownFrom, LastReply, Usable;
    TurnAdvances(e, result, now);
    TurnKeepsUnknown(e, result, now);
    match TurnAt(e, result, now)
    case Ends(_) =>
    case Doubts(events, doubted, at) => NoWaitKeepsUnknown(e, doubted, 0, at);
    case Again(events, next, at) =>
      SingleCheckKeepsUnknown(e, next, at);
      LastReplyConcat(events, CancelFrom(e, next, at).trace);
  }

  /** A provider that leaves the request in doubt and stays silent, and a wait resumed only after the deadline. */
  function SilentLook(o: CancelOptions): Look {
    Look(Ok(P.Pending(0)), Ok([]), Ok(0), 0, o.poll.deadline)
  }

  ghost function DoubtfulEnv(o: CancelOptions): Env {
    var round := Round(Err(OutcomeUnknown(Sending, None)), 0, SilentLook(o), 0);
    Env(o, 0, None, seq(o.maxCancelAttempts, i => round), seq(o.maxUnknownChecks, i => SilentLook(o)))
  }

  lemma LateWaitDropsUnknown(o: CancelOptions)
    requires UsableOptions(o) && o.maxUnknownChecks > 1 && P.FirstStop(o.poll) > 0
    ensures Usable(DoubtfulEnv(o)) && DropsUnknown(CancelFrom(DoubtfulEnv(o), Initial(o), 0))
  {
    var e := DoubtfulEnv(o);
    DoubtfulTurn(o);
    var turn := TurnAt(e, Initial(o), 0);
    LateWaitStops(o, turn.result);
    LookCounts(Looked(SilentLook(o)), 0, []);
    NoEvents();
    hide TurnAt, UnknownFrom, Usable, LastReply;
    var phase := UnknownFrom(e, turn.result, 0, 0).trace;
    assert phase == [Looked(SilentLook(o))] + [];
    LastReplyConcat(turn.events, phase);
    SentAndSeen(Err(OutcomeUnknown(Sending, None)), SilentLook(o));
  }

  lemma DoubtfulTurn(o: CancelOptions)
    requires UsableOptions(o) && P.FirstStop(o.poll) > 0
    ensures Usable(DoubtfulEnv(o))
    ensures var turn := TurnAt(DoubtfulEnv(o), Initial(o), 0);
      && turn.Doubts? && turn.now == 0 && turn.result.reconciliationChecks == 0
      && turn.events == [CancelSent(Err(OutcomeUnknown(Sending, None)))]
  {
  }

  lemma LateWaitStops(o: CancelOptions, result: CancellationResult)
    requires o.maxUnknownChecks > 1 && result.reconciliationChecks == 0
    ensures var run := UnknownFrom(DoubtfulEnv(o), result, 0, 0);
      run.outcome.Err? && run.trace == [Looked(SilentLook(o))]
  {
    var e := DoubtfulEnv(o);
    var next := Reconciled(e, result, e.looks[0]);
    assert next.check == CheckPending && next.reconciliationChecks == 1;
    var woke := Wake(o.poll, 0, o.poll.baseInterval, o.poll.deadline);
    assert woke >= o.poll.deadline && P.StopAt(o.poll, woke).Some?;
  }

  /**
   * So a stop can drop the unknown outcome of a run exactly when the phase's budget allows for a wait,
   * and the run can begin at all.
   */
  lemma UnknownKeptIff(o: CancelOptions)
    requires UsableOptions(o)
    ensures KeepsUnknown(o) <==> o.maxUnknownChecks == 1 || P.FirstStop(o.poll) == 0
  {
    hide CancelFrom, DropsUnknown, Usable, P.FirstStop;
    if o.maxUnknownChecks == 1 {
      forall e: Env, now: nat | e.options == o && Usable(e) ensures !DropsUnknown(CancelFrom(e, Initial(o), now)) {
        SingleCheckKeepsUnknown(e, Initial(o), now);
      }
    } else if P.FirstStop(o.poll) == 0 {
      forall e: Env, now: nat | e.options == o && Usable(e) ensures !DropsUnknown(CancelFrom(e, Initial(o), now)) {
        StoppedFromTheStart(e, now);
      }
    } else {
      LateWaitDropsUnknown(o);
      assert DoubtfulEnv(o).options == o;
    }
  }

  lemma StoppedFromTheStart(e: Env, now: nat)
    requires Usable(e) && P.FirstStop(e.options.poll) == 0
    ensures !DropsUnknown(CancelFrom(e, Initial(e.options), now))
  {
    NoEvents();
  }

  // ---------------------------------------------------------------- rejections that permit another request

  /** Only a reply that matches the time-lock rule is ever followed by another cancel request. */
  ghost predicate OnlyTimeLocksPermit(o: CancelOptions)
    requires UsableOptions(o)
  {
    forall e: Env, now: nat :: e.options == o && Usable(e) ==>
      LaterOnesTimeLocked(o, CancelFrom(e, Initial(o), now).trace)
  }

  predicate LaterOnesTimeLocked(o: CancelOptions, trace: seq<Event>) {
    forall i :: 3 <= i < |trace| && trace[i].CancelSent? && trace[i - 3].CancelSent? ==>
      HitsTimeLock(o, trace[i - 3].reply)
  }

  /** A provider that answers 429 without asking for a pause, found pending, with the least draw. */
  function LimitedRound(o: CancelOptions): Round
    requires P.ValidOptions(o.poll)
  {
    var look := Look(Ok(P.Pending(0)), Ok([0]), Ok(0), 0, 0);
    Round(Err(RateLimited(Some(0))), 0, look, JitterMin(o.poll.jitter, o.poll.baseInterval))
  }

  lemma LimitedTurn(e: Env, result: CancellationResult, now: nat)
    requires Usable(e) && result.cancelAttempts + 1 < e.options.maxCancelAttempts
    requires e.rounds[result.cancelAttempts] == LimitedRound(e.options)
    requires now + JitterMin(e.options.poll.jitter, e.options.poll.baseInterval) < P.FirstStop(e.options.poll)
    ensures var turn := TurnAt(e, result, now);
      && turn.Again? && |turn.events| == 3 && turn.events[0] == CancelSent(LimitedRound(e.options).reply)
      && turn.now < P.FirstStop(e.options.poll)
  {
    hide JitterMin;
  }

  lemma NoSecondTurn(e: Env, now: nat)
    requires Usable(e)
    requires e.options.maxCancelAttempts == 1
      || P.FirstStop(e.options.poll) <= JitterMin(e.options.poll.jitter, e.options.poll.baseInterval)
    ensures !TurnAt(e, Initial(e.options), now).Again?
  {
    TurnAdvances(e, Initial(e.options), now);
    TurnIsLegal(e, Initial(e.options), now);
    AgainBeforeStop(e, Initial(e.options), now);
  }

  lemma AgainBeforeStop(e: Env, result: CancellationResult, now: nat)
    requires Usable(e) && result.cancelAttempts < e.options.maxCancelAttempts
    ensures var turn := TurnAt(e, result, now);
      turn.Again? ==>
        && turn.now < P.FirstStop(e.options.poll)
        && |turn.events| == 3 && turn.events[2].Paused? && turn.now >= now + turn.events[2].length
  {
  }

  lemma FirstEventIsCancel(e: Env, result: CancellationResult, now: nat)
    requires Usable(e) && result.cancelAttempts < e.options.maxCancelAttempts && now < P.FirstStop(e.options.poll)
    ensures var trace := CancelFrom(e, result, now).trace; trace != [] && trace[0].CancelSent?
  {
    hide UnknownFrom, Reconciled, Concluded, Wake;
  }

  ghost function LimitedEnv(o: CancelOptions): Env
    requires P.ValidOptions(o.poll)
  {
    Env(o, 0, None, seq(o.maxCancelAttempts, i => LimitedRound(o)), seq(o.maxUnknownChecks, i => SilentLook(o)))
  }

  lemma LimitedEnvIsUsable(o: CancelOptions)
    requires UsableOptions(o)
    ensures Usable(LimitedEnv(o))
  {
    assert ValidDraw(o, LimitedRound(o));
  }

  lemma RetriedWithoutTimeLock(o: CancelOptions)
    requires UsableOptions(o) && o.maxCancelAttempts > 1
    requires JitterMin(o.poll.jitter, o.poll.baseInterval) < P.FirstStop(o.poll)
    ensures Usable(LimitedEnv(o))
    ensures !LaterOnesTimeLocked(o, CancelFrom(LimitedEnv(o), Initial(o), 0).trace)
  {
    hide JitterMin, TurnAt, UnknownFrom, Usable, P.FirstStop;
    var e := LimitedEnv(o);
    LimitedEnvIsUsable(o);
    LimitedTurn(e, Initial(o), 0);
    var turn := TurnAt(e, Initial(o), 0);
    TurnAdvances(e, Initial(o), 0);
    FirstEventIsCancel(e, turn.result, turn.now);
    var rest := CancelFrom(e, turn.result, turn.now).trace;
    var trace := CancelFrom(e, Initial(o), 0).trace;
    assert trace == turn.events + rest;
    assert trace[3] == rest[0] && trace[0] == turn.events[0];
  }

  lemma LaterOnesWithoutAgain(e: Env, now: nat)
    requires Usable(e) && !TurnAt(e, Initial(e.options), now).Again?
    ensures LaterOnesTimeLocked(e.options, CancelFrom(e, Initial(e.options), now).trace)
  {
    hide TurnAt, UnknownFrom;
    TurnIsLegal(e, Initial(e.options), now);
    match TurnAt(e, Initial(e.options), now)
    case Ends(run) =>
    case Doubts(events, doubted, at) => UnknownPhaseSendsNothing(e, doubted, 0, at);
  }

  /** So time locks are the only reason for another request exactly when there is no other request at all. */
  lemma OnlyTimeLocksPermitIff(o: CancelOptions)
    requires UsableOptions(o)
    ensures OnlyTimeLocksPermit(o) <==>
      o.maxCancelAttempts == 1 || P.FirstStop(o.poll) <= JitterMin(o.poll.jitter, o.poll.baseInterval)
  {
    hide CancelFrom, TurnAt, LaterOnesTimeLocked, JitterMin, Usable;
    if o.maxCancelAttempts == 1 || P.FirstStop(o.poll) <= JitterMin(o.poll.jitter, o.poll.baseInterval) {
      forall e: Env, now: nat | e.options == o && Usable(e)
        ensures LaterOnesTimeLocked(o, CancelFrom(e, Initial(o), now).trace)
      {
        NoSecondTurn(e, now);
        LaterOnesWithoutAgain(e, now);
      }
    } else {
      RetriedWithoutTimeLock(o);
      assert LimitedEnv(o).options == o;
    }
  }
}
