/** Cancelling an order against an adversarial provider: paid cancel requests and read-only reconciliation. */
module Cancellation {
  import opened Prelude
  import opened Transport
  import P = Polling

  datatype Signature = MachineType(value: string) | Message(value: string)

  datatype TimeLockRule = TimeLockRule(status: nat, signature: Signature, retryAfter: nat)

  datatype CancelOptions = CancelOptions(
    poll: P.PollOptions, maxCancelAttempts: nat, maxUnknownChecks: nat,
    observeBalance: bool, expectedRefund: Option<int>, rule: Option<TimeLockRule>)

  datatype CheckObservation = CheckPending | CheckReceived | CheckTerminated | CheckNotFound | CheckUnavailable

  datatype ActiveObservation = Present | Absent | ActiveUnavailable

  datatype RefundMatch = NotConfigured | Matches | DoesNotMatch

  datatype BalanceObservation = NotRequested | BalanceUnavailable | Delta(amount: int, refund: RefundMatch)

  datatype Disposition =
    | CancellationAccepted
    | TerminalSms
    | StillActive
    | NotFound
    | Inconclusive
    | UnknownOutcome(unknown: Error)

  datatype CancellationResult = CancellationResult(
    disposition: Disposition, cancelAttempts: nat, reconciliationChecks: nat,
    check: CheckObservation, active: ActiveObservation, balance: BalanceObservation)

  datatype WorkflowError = InvalidOptions(field: string) | WorkflowStopped(why: P.StopReason)

  // ---------------------------------------------------------------- the provider's side

  /** What one reconciliation would find, how long it takes, and how late the wait after it ends. */
  datatype Look = Look(
    check: Result<P.SmsCheck, Error>, active: Result<seq<int>, Error>, balance: Result<int, Error>,
    took: nat, overslept: nat)

  datatype Round = Round(reply: Result<(), Error>, took: nat, look: Look, drawn: nat)

  /**
   * All the provider does: the balance before, a round for each cancel request, and what the
   * reconciliations after an unknown outcome would find.
   */
  datatype Env = Env(options: CancelOptions, order: int, before: Option<int>, rounds: seq<Round>, looks: seq<Look>)

  function Matching(rule: TimeLockRule, error: ApiError): bool {
    error.status == rule.status
    && match rule.signature
       case MachineType(value) => error.machineType == Some(value)
       case Message(value) => error.message == Some(value)
  }

  /** How long to pause before the next cancel request, if this reply permits one at all. */
  function RetryPause(o: CancelOptions, reply: Result<(), Error>): Option<nat> {
    match reply
    case Err(Api(error)) =>
      if o.rule.Some? && Matching(o.rule.value, error) then Some(o.rule.value.retryAfter) else None
    case Err(RateLimited(retryAfter)) =>
      Some(if retryAfter.Some? then retryAfter.value else o.poll.baseInterval)
    case _ => None
  }

  predicate UsableOptions(o: CancelOptions) {
    P.ValidOptions(o.poll) && o.maxCancelAttempts > 0 && o.maxUnknownChecks > 0
  }

  predicate Usable(e: Env) {
    && UsableOptions(e.options)
    && |e.rounds| >= e.options.maxCancelAttempts && |e.looks| >= e.options.maxUnknownChecks
    && forall i :: 0 <= i < |e.rounds| ==> ValidDraw(e.options, e.rounds[i])
  }

  predicate ValidDraw(o: CancelOptions, round: Round)
    requires P.ValidOptions(o.poll)
  {
    var pause := RetryPause(o, round.reply);
    pause.Some? ==> P.Drawable(o.poll, Max(o.poll.baseInterval, pause.value), pause, round.drawn)
  }

  // ---------------------------------------------------------------- reconciliation and verdicts

  function ObserveCheck(reply: Result<P.SmsCheck, Error>): CheckObservation {
    match reply
    case Ok(Pending(_)) => CheckPending
    case Ok(Received(_)) => CheckReceived
    case Ok(Terminated(_)) => CheckTerminated
    case Err(error) => if error.Api? && error.api.status == 404 then CheckNotFound else CheckUnavailable
  }

  function ObserveActive(reply: Result<seq<int>, Error>, order: int): ActiveObservation {
    match reply
    case Ok(orders) => if order in orders then Present else Absent
    case Err(_) => ActiveUnavailable
  }

  function ObserveBalance(o: CancelOptions, before: Option<int>, after: Result<int, Error>): BalanceObservation {
    if !o.observeBalance then NotRequested
    else if before.None? || after.Err? then BalanceUnavailable
    else
      var amount := after.value - before.value;
      Delta(amount,
        if o.expectedRefund.None? then NotConfigured
        else if amount == o.expectedRefund.value then Matches
        else DoesNotMatch)
  }

  /** `reconcile_once`: the result with one more reconciliation in it. */
  function Reconciled(e: Env, result: CancellationResult, look: Look): CancellationResult {
    result.(
      reconciliationChecks := result.reconciliationChecks + 1,
      check := ObserveCheck(look.check),
      active := ObserveActive(look.active, e.order),
      balance := ObserveBalance(e.options, e.before, look.balance))
  }

  function Settled(check: CheckObservation, active: ActiveObservation): Option<Disposition> {
    match check
    case CheckReceived => Some(TerminalSms)
    case CheckTerminated => if active == Absent then Some(TerminalSms) else None
    case CheckNotFound => Some(NotFound)
    case _ => None
  }

  function Exhausted(check: CheckObservation, active: ActiveObservation): Disposition {
    if check == CheckPending || active == Present then StillActive else Inconclusive
  }

  function FromObservations(check: CheckObservation, active: ActiveObservation): Disposition {
    match check
    case CheckReceived => TerminalSms
    case CheckTerminated =>
      (match active
       case Absent => TerminalSms
       case Present => StillActive
       case ActiveUnavailable => Inconclusive)
    case CheckNotFound => NotFound
    case CheckPending => if active == Present then StillActive else Inconclusive
    case CheckUnavailable => Inconclusive
  }

  // ---------------------------------------------------------------- runs

  datatype Event =
    | CancelSent(reply: Result<(), Error>)
    | Looked(look: Look)
    | Paused(length: nat)

  datatype Run = Run(outcome: Result<CancellationResult, WorkflowError>, trace: seq<Event>)

  function After(events: seq<Event>, rest: Run): Run {
    Run(rest.outcome, events + rest.trace)
  }

  function Wake(o: P.PollOptions, now: nat, delay: nat, overslept: nat): nat {
    P.Resumes(o, P.CappedWakeAt(now, delay, o.deadline), overslept)
  }

  function Stop(o: P.PollOptions, now: nat): Run
    requires P.StopAt(o, now).Some?
  {
    Run(Err(WorkflowStopped(P.StopAt(o, now).value)), [])
  }

  predicate EndsUnknownPhase(check: CheckObservation) {
    check == CheckReceived || check == CheckTerminated || check == CheckNotFound
  }

  /** What is left of the phase after an unknown outcome when `j` of its reconciliations are done. */
  function UnknownFrom(e: Env, result: CancellationResult, j: nat, now: nat): Run
    requires |e.looks| >= e.options.maxUnknownChecks
    decreases e.options.maxUnknownChecks - j
  {
    var m := e.options.maxUnknownChecks;
    if j >= m then Run(Ok(result), [])
    else
      var look := e.looks[j];
      var next := Reconciled(e, result, look);
      var done := now + look.took;
      if EndsUnknownPhase(next.check) then Run(Ok(next), [Looked(look)])
      else if next.reconciliationChecks < m then
        var woke := Wake(e.options.poll, done, e.options.poll.baseInterval, look.overslept);
        if P.StopAt(e.options.poll, woke).Some? then After([Looked(look)], Stop(e.options.poll, woke))
        else After([Looked(look), Paused(woke - done)], UnknownFrom(e, next, j + 1, woke))
      else After([Looked(look)], UnknownFrom(e, next, j + 1, done))
  }

  function Concluded(o: CancelOptions, reply: Result<(), Error>, seen: CancellationResult): Option<Disposition> {
    if reply.Ok? then Some(CancellationAccepted)
    else if RetryPause(o, reply).None? then Some(FromObservations(seen.check, seen.active))
    else if Settled(seen.check, seen.active).Some? then Settled(seen.check, seen.active)
    else if seen.cancelAttempts >= o.maxCancelAttempts then Some(Exhausted(seen.check, seen.active))
    else None
  }

  /** One turn of the cancel loop: it ends the workflow, enters the unknown phase, or comes round again. */
  datatype Turn =
    | Ends(run: Run)
    | Doubts(events: seq<Event>, result: CancellationResult, now: nat)
    | Again(events: seq<Event>, result: CancellationResult, now: nat)

  function TurnAt(e: Env, result: CancellationResult, now: nat): Turn
    requires Usable(e) && result.cancelAttempts < e.options.maxCancelAttempts
  {
    var o := e.options;
    if P.StopAt(o.poll, now).Some? then Ends(Stop(o.poll, now))
    else
      var round := e.rounds[result.cancelAttempts];
      var sent := result.(cancelAttempts := result.cancelAttempts + 1);
      var replied := now + round.took;
      if round.reply.Err? && round.reply.error.OutcomeUnknown? then
        Doubts([CancelSent(round.reply)], sent.(disposition := UnknownOutcome(round.reply.error)), replied)
      else
        var next := Reconciled(e, sent, round.look);
        var done := replied + round.look.took;
        var events := [CancelSent(round.reply), Looked(round.look)];
        var verdict := Concluded(o, round.reply, next);
        if verdict.Some? then Ends(Run(Ok(next.(disposition := verdict.value)), events))
        else
          var delay := P.CancelRetryDelay(o.poll, RetryPause(o, round.reply).value, round.drawn);
          var woke := Wake(o.poll, done, delay, round.look.overslept);
          if P.StopAt(o.poll, woke).Some? then Ends(After(events, Stop(o.poll, woke)))
          else Again(events + [Paused(woke - done)], next, woke)
  }

  lemma TurnAdvances(e: Env, result: CancellationResult, now: nat)
    requires Usable(e) && result.cancelAttempts < e.options.maxCancelAttempts
    ensures var turn := TurnAt(e, result, now);
      turn.Again? ==> turn.result.cancelAttempts == result.cancelAttempts + 1 < e.options.maxCancelAttempts
  {
  }

  /** What is left of the workflow at the head of its loop. */
  function CancelFrom(e: Env, result: CancellationResult, now: nat): Run
    requires Usable(e) && result.cancelAttempts < e.options.maxCancelAttempts
    decreases e.options.maxCancelAttempts - result.cancelAttempts
  {
    TurnAdvances(e, result, now);
    match TurnAt(e, result, now)
    case Ends(run) => run
    case Doubts(events, doubted, at) => After(events, UnknownFrom(e, doubted, 0, at))
    case Again(events, next, at) => After(events, CancelFrom(e, next, at))
  }

  function Initial(o: CancelOptions): CancellationResult {
    CancellationResult(Inconclusive, 0, 0, CheckUnavailable, ActiveUnavailable,
      if o.observeBalance then BalanceUnavailable else NotRequested)
  }

  // ---------------------------------------------------------------- the workflow

  /** `wait_cancel_retry` and `wait_reconciliation` after their delay is known. */
  method Wait(o: P.PollOptions, now: nat, delay: nat, overslept: nat)
    returns (stop: Option<P.StopReason>, woke: nat)
    ensures woke == Wake(o, now, delay, overslept) && stop == P.StopAt(o, woke)
    ensures stop.None? ==> woke == now + delay + overslept
  {
    woke := Wake(o, now, delay, overslept);
    stop := P.StopAt(o, woke);
  }

  /** The loop that runs only after a cancel request with an unknown outcome. */
  method ReconcileUnknown(e: Env, before: CancellationResult, start: nat)
    returns (outcome: Result<CancellationResult, WorkflowError>, trace: seq<Event>)
    requires |e.looks| >= e.options.maxUnknownChecks
    ensures Run(outcome, trace) == UnknownFrom(e, before, 0, start)
  {
    hide P.StopAt, P.Resumes, Wake, Reconciled, EndsUnknownPhase;
    var m := e.options.maxUnknownChecks;
    var result := before;
    var now: nat := start;
    trace := [];
    for j := 0 to m
      invariant UnknownFrom(e, before, 0, start) == After(trace, UnknownFrom(e, result, j, now))
    {
      result := Reconciled(e, result, e.looks[j]);
      now := now + e.looks[j].took;
      trace := trace + [Looked(e.looks[j])];
      if EndsUnknownPhase(result.check) {
        return Ok(result), trace;
      }
      if result.reconciliationChecks < m {
        var stop, woke := Wait(e.options.poll, now, e.options.poll.baseInterval, e.looks[j].overslept);
        if stop.Some? {
          return Err(WorkflowStopped(stop.value)), trace;
        }
        trace := trace + [Paused(woke - now)];
        now := woke;
      }
    }
    return Ok(result), trace;
  }

  /** `cancel_with_reconciliation`. */
  method CancelWithReconciliation(e: Env, began: nat, balanceTook: nat)
    returns (outcome: Result<CancellationResult, WorkflowError>, trace: seq<Event>)
    requires P.ValidOptions(e.options.poll)
    requires e.options.maxCancelAttempts > 0 && e.options.maxUnknownChecks > 0 ==> Usable(e)
    ensures !UsableOptions(e.options) ==> outcome.Err? && outcome.error.InvalidOptions? && trace == []
    ensures UsableOptions(e.options) && P.StopAt(e.options.poll, began).Some? ==>
      Run(outcome, trace) == Stop(e.options.poll, began)
    ensures UsableOptions(e.options) && P.StopAt(e.options.poll, began).None? ==>
      Run(outcome, trace)
        == CancelFrom(e, Initial(e.options), began + if e.options.observeBalance then balanceTook else 0)
  {
    hide P.StopAt, Wake, Reconciled, Concluded, UnknownFrom, RetryPause, ValidDraw, CancelFrom, P.PollingDelay;
    var o := e.options;
    if o.maxCancelAttempts == 0 {
      return Err(InvalidOptions("max_cancel_attempts")), [];
    }
    if o.maxUnknownChecks == 0 {
      return Err(InvalidOptions("max_outcome_unknown_reconciliation_checks")), [];
    }
    if P.StopAt(o.poll, began).Some? {
      return Err(WorkflowStopped(P.StopAt(o.poll, began).value)), [];
    }
    var result := Initial(o);
    var now: nat := began + if o.observeBalance then balanceTook else 0;
    ghost var whole := CancelFrom(e, result, now);
    trace := [];
    while true
      invariant result.cancelAttempts < o.maxCancelAttempts
      invariant whole == After(trace, CancelFrom(e, result, now))
      decreases o.maxCancelAttempts - result.cancelAttempts
    {
      CancelUnfolds(e, result, now, trace);
      ghost var turn := TurnAt(e, result, now);
      if P.StopAt(o.poll, now).Some? {
        return Err(WorkflowStopped(P.StopAt(o.poll, now).value)), trace;
      }
      var round := e.rounds[result.cancelAttempts];
      ghost var sent := result.(cancelAttempts := result.cancelAttempts + 1);
      result := result.(cancelAttempts := result.cancelAttempts + 1);
      now := now + round.took;
      var sentEvent := CancelSent(round.reply);
      if round.reply.Err? && round.reply.error.OutcomeUnknown? {
        result := result.(disposition := UnknownOutcome(round.reply.error));
        var phase;
        outcome, phase := ReconcileUnknown(e, result, now);
        return outcome, trace + [sentEvent] + phase;
      }
      result := Reconciled(e, result, round.look);
      now := now + round.look.took;
      var verdict := Concluded(o, round.reply, result);
      if verdict.Some? {
        return Ok(result.(disposition := verdict.value)), trace + [sentEvent, Looked(round.look)];
      }
      GoesOnWithinBudget(e, sent, round);
      var delay := P.CancelRetryDelay(o.poll, RetryPause(o, round.reply).value, round.drawn);
      var stop, woke := Wait(o.poll, now, delay, round.look.overslept);
      if stop.Some? {
        return Err(WorkflowStopped(stop.value)), trace + [sentEvent, Looked(round.look)];
      }
      trace := trace + ([sentEvent, Looked(round.look)] + [Paused(woke - now)]);
      now := woke;
    }
  }

  lemma CancelUnfolds(e: Env, result: CancellationResult, now: nat, trace: seq<Event>)
    requires Usable(e) && result.cancelAttempts < e.options.maxCancelAttempts
    ensures var run := After(trace, CancelFrom(e, result, now));
      match TurnAt(e, result, now)
      case Ends(end) => run == After(trace, end)
      case Doubts(events, doubted, at) => run == After(trace + events, UnknownFrom(e, doubted, 0, at))
      case Again(events, next, at) =>
        next.cancelAttempts < e.options.maxCancelAttempts && run == After(trace + events, CancelFrom(e, next, at))
  {
    TurnAdvances(e, result, now);
    hide TurnAt, UnknownFrom, Usable;
  }

  lemma GoesOnWithinBudget(e: Env, sent: CancellationResult, round: Round)
    requires Concluded(e.options, round.reply, Reconciled(e, sent, round.look)).None?
    ensures RetryPause(e.options, round.reply).Some?
    ensures Reconciled(e, sent, round.look).cancelAttempts == sent.cancelAttempts < e.options.maxCancelAttempts
  {
  }
}
