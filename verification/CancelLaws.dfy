/** What every run of the cancellation workflow satisfies, whatever the provider answers. */
module CancelLaws {
  import opened Prelude
  import opened Delays
  import opened Transport
  import opened Cancellation
  import P = Polling

  function Cancels(trace: seq<Event>): nat {
    if trace == [] then 0 else (if trace[0].CancelSent? then 1 else 0) + Cancels(trace[1..])
  }

  function Looks(trace: seq<Event>): nat {
    if trace == [] then 0 else (if trace[0].Looked? then 1 else 0) + Looks(trace[1..])
  }

  function Pauses(trace: seq<Event>): nat {
    if trace == [] then 0 else (if trace[0].Paused? then 1 else 0) + Pauses(trace[1..])
  }

  lemma {:induction false} CountsConcat(a: seq<Event>, b: seq<Event>)
    ensures Cancels(a + b) == Cancels(a) + Cancels(b)
    ensures Looks(a + b) == Looks(a) + Looks(b)
    ensures Pauses(a + b) == Pauses(a) + Pauses(b)
  {
    if a == [] {
      assert a + b == b;
    } else {
      CountsConcat(a[1..], b);
      assert (a + b)[1..] == a[1..] + b;
    }
  }

  lemma CountsOfOne(e: Event)
    ensures Cancels([e]) == if e.CancelSent? then 1 else 0
    ensures Looks([e]) == if e.Looked? then 1 else 0
    ensures Pauses([e]) == if e.Paused? then 1 else 0
  {
  }

  // ---------------------------------------------------------------- when a later cancel request is sent

  /** Terminal on the provider's word: a received SMS, or a terminated one that the active list no longer shows. */
  predicate SaysTerminal(order: int, look: Look) {
    look.check.Ok?
    && (look.check.value.Received?
        || (look.check.value.Terminated? && look.active.Ok? && order !in look.active.value))
  }

  predicate SaysNotFound(look: Look) {
    look.check.Err? && look.check.error.Api? && look.check.error.api.status == 404
  }

  predicate SettlesOrder(order: int, look: Look) {
    SaysTerminal(order, look) || SaysNotFound(look)
  }

  /** The exact rejection that the configured rule names: its status, and its machine type or message. */
  predicate HitsTimeLock(o: CancelOptions, reply: Result<(), Error>) {
    && reply.Err? && reply.error.Api? && o.rule.Some?
    && reply.error.api.status == o.rule.value.status
    && (o.rule.value.signature.MachineType? ==> reply.error.api.machineType == Some(o.rule.value.signature.value))
    && (o.rule.value.signature.Message? ==> reply.error.api.message == Some(o.rule.value.signature.value))
  }

  predicate IsRateLimit(reply: Result<(), Error>) {
    reply.Err? && reply.error.RateLimited?
  }

  /** The only replies after which another cancel request may be sent. */
  predicate Retryable(o: CancelOptions, reply: Result<(), Error>) {
    HitsTimeLock(o, reply) || IsRateLimit(reply)
  }

  /** The least pause that such a reply asks for. */
  function Asked(o: CancelOptions, reply: Result<(), Error>): nat
    requires Retryable(o, reply)
  {
    if HitsTimeLock(o, reply) then o.rule.value.retryAfter
    else if reply.error.retryAfter.Some? then reply.error.retryAfter.value
    else o.poll.baseInterval
  }

  lemma RetryPauseIff(o: CancelOptions, reply: Result<(), Error>)
    ensures RetryPause(o, reply).Some? <==> Retryable(o, reply)
    ensures Retryable(o, reply) ==> RetryPause(o, reply).value == Asked(o, reply)
  {
  }

  /** The events between two cancel requests: a reply that permits another, nothing settled, a full pause. */
  predicate MayFollow(o: CancelOptions, order: int, sent: Event, look: Event, pause: Event)
    requires P.ValidOptions(o.poll)
  {
    && sent.CancelSent? && look.Looked? && pause.Paused?
    && !SettlesOrder(order, look.look)
    && Retryable(o, sent.reply)
    && pause.length >= Asked(o, sent.reply)
    && pause.length >= JitterMin(o.poll.jitter, o.poll.baseInterval)
  }

  predicate Legal(o: CancelOptions, order: int, trace: seq<Event>)
    requires P.ValidOptions(o.poll)
  {
    forall i :: 0 < i < |trace| && trace[i].CancelSent? ==>
      i >= 3 && MayFollow(o, order, trace[i - 3], trace[i - 2], trace[i - 1])
  }

  predicate NoCancel(trace: seq<Event>) {
    forall i :: 0 <= i < |trace| ==> !trace[i].CancelSent?
  }

  lemma {:induction false} UnknownPhaseSendsNothing(e: Env, result: CancellationResult, j: nat, now: nat)
    requires |e.looks| >= e.options.maxUnknownChecks
    ensures NoCancel(UnknownFrom(e, result, j, now).trace)
    decreases e.options.maxUnknownChecks - j
  {
    hide Wake, P.StopAt, EndsUnknownPhase;
    if j < e.options.maxUnknownChecks {
      var look := e.looks[j];
      var next := Reconciled(e, result, look);
      var done := now + look.took;
      hide Reconciled;
      UnknownPhaseSendsNothing(e, next, j + 1, done);
      var woke := Wake(e.options.poll, done, e.options.poll.baseInterval, look.overslept);
      UnknownPhaseSendsNothing(e, next, j + 1, woke);
    }
  }

  lemma TurnIsLegal(e: Env, result: CancellationResult, now: nat)
    requires Usable(e) && result.cancelAttempts < e.options.maxCancelAttempts
    ensures var turn := TurnAt(e, result, now);
      && (turn.Ends? ==> |turn.run.trace| <= 2 && NoCancel(turn.run.trace[Min(1, |turn.run.trace|)..]))
      && (turn.Doubts? ==> |turn.events| == 1)
      && (turn.Again? ==>
            |turn.events| == 3 && MayFollow(e.options, e.order, turn.events[0], turn.events[1], turn.events[2]))
  {
    RetryPauseIff(e.options, e.rounds[result.cancelAttempts].reply);
    hide RetryPause, HitsTimeLock;
  }

  lemma LegalExtends(o: CancelOptions, order: int, events: seq<Event>, rest: seq<Event>)
    requires P.ValidOptions(o.poll) && Legal(o, order, rest)
    requires |events| == 3 && MayFollow(o, order, events[0], events[1], events[2])
    ensures Legal(o, order, events + rest)
  {
    hide MayFollow;
    NotCancels(o, order, events[0], events[1], events[2]);
    var all := events + rest;
    assert !all[1].CancelSent? && !all[2].CancelSent?;
    forall i | 0 < i < |all| && all[i].CancelSent?
      ensures i >= 3 && MayFollow(o, order, all[i - 3], all[i - 2], all[i - 1])
    {
      if i > 3 {
        assert all[i] == rest[i - 3];
        assert all[i - 3] == rest[i - 6] && all[i - 2] == rest[i - 5] && all[i - 1] == rest[i - 4];
      }
    }
  }

  lemma NotCancels(o: CancelOptions, order: int, sent: Event, look: Event, pause: Event)
    requires P.ValidOptions(o.poll) && MayFollow(o, order, sent, look, pause)
    ensures sent.CancelSent? && !look.CancelSent? && !pause.CancelSent?
  {
  }

  /** Every later cancel request comes right after a permitting reply, an unsettled look and a pause. */
  lemma {:induction false} EveryRunIsLegal(e: Env, result: CancellationResult, now: nat)
    requires Usable(e) && result.cancelAttempts < e.options.maxCancelAttempts
    ensures Legal(e.options, e.order, CancelFrom(e, result, now).trace)
    decreases e.options.maxCancelAttempts - result.cancelAttempts
  {
    hide TurnAt, MayFollow, UnknownFrom;
    TurnAdvances(e, result, now);
    TurnIsLegal(e, result, now);
    match TurnAt(e, result, now)
    case Ends(run) => FewEventsAreLegal(e.options, e.order, run.trace);
    case Doubts(events, doubted, at) =>
      UnknownPhaseSendsNothing(e, doubted, 0, at);
    case Again(events, next, at) =>
      EveryRunIsLegal(e, next, at);
      LegalExtends(e.options, e.order, events, CancelFrom(e, next, at).trace);
  }

  lemma FewEventsAreLegal(o: CancelOptions, order: int, trace: seq<Event>)
    requires P.ValidOptions(o.poll) && |trace| <= 2 && NoCancel(trace[Min(1, |trace|)..])
    ensures Legal(o, order, trace)
  {
    forall i | 0 < i < |trace| ensures !trace[i].CancelSent? {
      assert trace[i] == trace[1..][i - 1];
    }
  }

  /**
   * So nothing is cancelled again after success, after an unknown outcome, after a rejection that does
   * not permit it, or after a reconciliation that settled the order.
   */
  lemma {:induction false} NothingFollowsASettledCancel(
      o: CancelOptions, order: int, trace: seq<Event>, i: nat, j: nat)
    requires P.ValidOptions(o.poll) && Legal(o, order, trace) && i < j < |trace| && trace[j].CancelSent?
    ensures trace[i].CancelSent? ==> Retryable(o, trace[i].reply)
    ensures trace[i].Looked? ==> !SettlesOrder(order, trace[i].look)
    decreases j
  {
    assert MayFollow(o, order, trace[j - 3], trace[j - 2], trace[j - 1]);
    if i < j - 3 {
      NothingFollowsASettledCancel(o, order, trace, i, j - 3);
    }
  }

  lemma OtherRejectionEndsTurn(e: Env, result: CancellationResult, now: nat)
    requires Usable(e) && result.cancelAttempts < e.options.maxCancelAttempts
    ensures var turn := TurnAt(e, result, now);
      && (turn.Ends? && turn.run.trace != [] ==>
            && |turn.run.trace| == 2 && turn.run.trace[0].CancelSent? && turn.run.trace[1].Looked?
            && (!Retryable(e.options, turn.run.trace[0].reply) ==> turn.run.outcome.Ok?))
      && (turn.Doubts? ==>
            |turn.events| == 1 && turn.events[0].CancelSent? && turn.events[0].reply.Err?
            && turn.events[0].reply.error.OutcomeUnknown?)
  {
    RetryPauseIff(e.options, e.rounds[result.cancelAttempts].reply);
    hide RetryPause, Retryable, Reconciled, P.PollingDelay, Wake;
  }

  lemma OnlyFirstIsCancel(events: seq<Event>, rest: seq<Event>)
    requires |events| == 1 && NoCancel(rest)
    ensures forall i :: 0 < i < |events + rest| ==> !(events + rest)[i].CancelSent?
  {
  }

  /** Success and any rejection but a time lock or a rate limit end the run after one reconciliation. */
  lemma {:induction false} OtherReplyEndsRun(e: Env, result: CancellationResult, now: nat, i: nat)
    requires Usable(e) && result.cancelAttempts < e.options.maxCancelAttempts
    requires var trace := CancelFrom(e, result, now).trace;
      && i < |trace| && trace[i].CancelSent?
      && !Retryable(e.options, trace[i].reply)
      && !(trace[i].reply.Err? && trace[i].reply.error.OutcomeUnknown?)
    ensures var run := CancelFrom(e, result, now);
      |run.trace| == i + 2 && run.trace[i + 1].Looked? && run.outcome.Ok?
    decreases e.options.maxCancelAttempts - result.cancelAttempts
  {
    hide TurnAt, UnknownFrom, Retryable;
    TurnAdvances(e, result, now);
    TurnIsLegal(e, result, now);
    OtherRejectionEndsTurn(e, result, now);
    match TurnAt(e, result, now)
    case Ends(_) =>
    case Doubts(events, doubted, at) =>
      UnknownPhaseSendsNothing(e, doubted, 0, at);
      OnlyFirstIsCancel(events, UnknownFrom(e, doubted, 0, at).trace);
    case Again(events, next, at) =>
      NotCancels(e.options, e.order, events[0], events[1], events[2]);
      if i >= 3 {
        assert CancelFrom(e, result, now).trace[i] == CancelFrom(e, next, at).trace[i - 3];
        OtherReplyEndsRun(e, next, at, i - 3);
      }
  }

  // ---------------------------------------------------------------- budgets and verdicts

  function LastReply(trace: seq<Event>): Option<Result<(), Error>> {
    if trace == [] then None
    else if LastReply(trace[1..]).Some? then LastReply(trace[1..])
    else if trace[0].CancelSent? then Some(trace[0].reply)
    else None
  }

  lemma {:induction false} LastReplyConcat(a: seq<Event>, b: seq<Event>)
    ensures LastReply(a + b) == if LastReply(b).Some? then LastReply(b) else LastReply(a)
  {
    if a == [] {
      assert a + b == b;
    } else {
      LastReplyConcat(a[1..], b);
      assert (a + b)[1..] == a[1..] + b;
    }
  }

  predicate Rejected(reply: Result<(), Error>) {
    reply.Err? && !reply.error.OutcomeUnknown?
  }

  /** What each disposition says about the provider's last replies; for any replies exactly one fits. */
  predicate SoundVerdict(
      o: CancelOptions, order: int, reply: Result<(), Error>, look: Look, attempts: nat, disposition: Disposition)
  {
    var listed := look.active.Ok? && order in look.active.value;
    var open := if Retryable(o, reply) then (look.check.Ok? && look.check.value.Pending?) || listed
      else listed && look.check.Ok?;
    var undecided := Rejected(reply) && !SettlesOrder(order, look)
      && (Retryable(o, reply) ==> attempts >= o.maxCancelAttempts);
    match disposition
    case CancellationAccepted => reply.Ok?
    case UnknownOutcome(unknown) => unknown.OutcomeUnknown? && reply == Err(unknown)
    case TerminalSms => Rejected(reply) && SaysTerminal(order, look)
    case NotFound => Rejected(reply) && SaysNotFound(look)
    case StillActive => undecided && open
    case Inconclusive => undecided && !open
  }

  /** The observations of a result are what this look was told: check, active list, and change of the balance. */
  predicate Reports(
      e: Env, look: Look, check: CheckObservation, active: ActiveObservation, balance: BalanceObservation)
  {
    && (check == CheckReceived <==> look.check.Ok? && look.check.value.Received?)
    && (check == CheckTerminated <==> look.check.Ok? && look.check.value.Terminated?)
    && (check == CheckPending <==> look.check.Ok? && look.check.value.Pending?)
    && (check == CheckNotFound <==> SaysNotFound(look))
    && (active == Present <==> look.active.Ok? && e.order in look.active.value)
    && (active == Absent <==> look.active.Ok? && e.order !in look.active.value)
    && (balance == NotRequested <==> !e.options.observeBalance)
    && (balance.Delta? <==> e.options.observeBalance && e.before.Some? && look.balance.Ok?)
    && (balance.Delta? ==>
          && e.before.value + balance.amount == look.balance.value
          && (balance.refund == NotConfigured <==> e.options.expectedRefund.None?)
          && (balance.refund == Matches <==> e.options.expectedRefund == Some(balance.amount)))
  }

  lemma ReconciledReports(e: Env, result: CancellationResult, look: Look)
    ensures var next := Reconciled(e, result, look); Reports(e, look, next.check, next.active, next.balance)
  {
  }

  predicate LastLooked(e: Env, trace: seq<Event>, r: CancellationResult) {
    trace != [] && trace[|trace| - 1].Looked? && Reports(e, trace[|trace| - 1].look, r.check, r.active, r.balance)
  }

  /** A finished run: its counters, its observations and its verdict, all against the provider's replies. */
  predicate Truthful(e: Env, start: CancellationResult, trace: seq<Event>, r: CancellationResult) {
    && r.cancelAttempts == start.cancelAttempts + Cancels(trace)
    && r.reconciliationChecks == start.reconciliationChecks + Looks(trace)
    && LastLooked(e, trace, r) && LastReply(trace).Some?
    && SoundVerdict(
      e.options, e.order, LastReply(trace).value, trace[|trace| - 1].look, r.cancelAttempts, r.disposition)
  }

  /** Rest of an unknown phase with `left` reconciliations to go: no cancel, and counters that match its trace. */
  predicate PhaseSound(e: Env, left: nat, result: CancellationResult, run: Run) {
    && Cancels(run.trace) == 0 && LastReply(run.trace) == None && Looks(run.trace) <= left
    && match run.outcome
       case Err(error) => error.WorkflowStopped?
       case Ok(r) =>
         && (left > 0 ==> run.trace != [])
         && (if run.trace == [] then r == result else LastLooked(e, run.trace, r))
         && r.reconciliationChecks == result.reconciliationChecks + Looks(run.trace)
         && r.cancelAttempts == result.cancelAttempts && r.disposition == result.disposition
  }

  lemma PhaseEnds(e: Env, left: nat, result: CancellationResult, look: Look, run: Run)
    requires left > 0 && run.trace == [Looked(look)]
    requires run.outcome.Ok? ==> run.outcome.value == Reconciled(e, result, look)
    requires run.outcome.Err? ==> run.outcome.error.WorkflowStopped?
    ensures PhaseSound(e, left, result, run)
  {
    ReconciledReports(e, result, look);
    hide Reports;
    NoEvents();
    LookCounts(Looked(look), 0, []);
    assert [Looked(look)] + [] == [Looked(look)];
  }

  lemma PhaseGrows(e: Env, left: nat, result: CancellationResult, look: Look, length: Option<nat>, rest: Run)
    requires left > 0 && PhaseSound(e, left - 1, Reconciled(e, result, look), rest)
    requires length.Some? ==> left > 1
    ensures var events := if length.Some? then [Looked(look), Paused(length.value)] else [Looked(look)];
      PhaseSound(e, left, result, After(events, rest))
  {
    LookCounts(Looked(look), if length.Some? then length.value else 0, rest.trace);
    ReconciledReports(e, result, look);
    hide Cancels, Looks, LastReply, Reports;
  }

  lemma {:induction false} UnknownPhaseCounts(e: Env, result: CancellationResult, j: nat, now: nat)
    requires |e.looks| >= e.options.maxUnknownChecks && j <= e.options.maxUnknownChecks
    requires j <= result.reconciliationChecks
    ensures PhaseSound(e, e.options.maxUnknownChecks - j, result, UnknownFrom(e, result, j, now))
    decreases e.options.maxUnknownChecks - j
  {
    hide Wake, P.StopAt, EndsUnknownPhase, Reconciled, PhaseSound;
    var m := e.options.maxUnknownChecks;
    if j == m {
      NothingLeft(e, result);
    } else {
      var look := e.looks[j];
      var next := Reconciled(e, result, look);
      ReconciledCounts(e, result, look);
      var done := now + look.took;
      var woke := Wake(e.options.poll, done, e.options.poll.baseInterval, look.overslept);
      if EndsUnknownPhase(next.check) {
        PhaseEnds(e, m - j, result, look, UnknownFrom(e, result, j, now));
      } else if next.reconciliationChecks >= m {
        UnknownPhaseCounts(e, next, j + 1, done);
        PhaseGrows(e, m - j, result, look, None, UnknownFrom(e, next, j + 1, done));
      } else if P.StopAt(e.options.poll, woke).None? {
        UnknownPhaseCounts(e, next, j + 1, woke);
        WokeLater(e.options.poll, done, e.options.poll.baseInterval, look.overslept);
        PhaseGrows(e, m - j, result, look, Some(woke - done), UnknownFrom(e, next, j + 1, woke));
      } else {
        PhaseEnds(e, m - j, result, look, UnknownFrom(e, result, j, now));
      }
    }
  }

  lemma NothingLeft(e: Env, result: CancellationResult)
    ensures PhaseSound(e, 0, result, Run(Ok(result), []))
  {
  }

  lemma WokeLater(o: P.PollOptions, now: nat, delay: nat, overslept: nat)
    requires P.StopAt(o, Wake(o, now, delay, overslept)).None?
    ensures Wake(o, now, delay, overslept) == now + delay + overslept
  {
  }

  lemma NoEvents()
    ensures Cancels([]) == Looks([]) == Pauses([]) == 0 && LastReply([]) == None
  {
  }

  /** Events of the unknown phase in front of a trace. */
  lemma LookCounts(look: Event, length: nat, rest: seq<Event>)
    requires look.Looked?
    ensures Cancels([look] + rest) == Cancels(rest) && Looks([look] + rest) == 1 + Looks(rest)
    ensures LastReply([look] + rest) == LastReply(rest) && Pauses([look] + rest) == Pauses(rest)
    ensures var both := [look, Paused(length)];
      && Cancels(both + rest) == Cancels(rest) && Looks(both + rest) == 1 + Looks(rest)
      && LastReply(both + rest) == LastReply(rest) && Pauses(both + rest) == 1 + Pauses(rest)
  {
    assert ([look] + rest)[1..] == rest;
    assert ([look, Paused(length)] + rest)[1..] == [Paused(length)] + rest;
    assert ([Paused(length)] + rest)[1..] == rest;
  }

  lemma CountsOfTwo(a: Event, b: Event)
    ensures Cancels([a, b]) == Cancels([a]) + Cancels([b])
    ensures Looks([a, b]) == Looks([a]) + Looks([b])
    ensures LastReply([a, b]) == if LastReply([b]).Some? then LastReply([b]) else LastReply([a])
  {
    assert [a, b] == [a] + [b];
    CountsConcat([a], [b]);
    LastReplyConcat([a], [b]);
  }

  lemma SentAndSeen(reply: Result<(), Error>, look: Look)
    ensures var events := [CancelSent(reply), Looked(look)];
      Cancels(events) == 1 && Looks(events) == 1 && LastReply(events) == Some(reply)
    ensures Cancels([CancelSent(reply)]) == 1 && Looks([CancelSent(reply)]) == 0
    ensures LastReply([CancelSent(reply)]) == Some(reply)
    ensures Cancels([]) == Looks([]) == 0
  {
    CountsOfOne(CancelSent(reply));
    CountsOfOne(Looked(look));
    CountsOfTwo(CancelSent(reply), Looked(look));
  }

  lemma EndedTurn(e: Env, result: CancellationResult, now: nat)
    requires Usable(e) && result.cancelAttempts < e.options.maxCancelAttempts && TurnAt(e, result, now).Ends?
    ensures var run := TurnAt(e, result, now).run;
      && Cancels(run.trace) <= 1 && Looks(run.trace) <= Cancels(run.trace)
      && (run.outcome.Ok? ==> Truthful(e, result, run.trace, run.outcome.value))
  {
    hide Wake, RetryPause, P.PollingDelay, Cancels, Looks, LastReply, Reconciled, SoundVerdict, Concluded, Reports,
      ValidDraw;
    var round := e.rounds[result.cancelAttempts];
    var sent := result.(cancelAttempts := result.cancelAttempts + 1);
    var next := Reconciled(e, sent, round.look);
    ReconciledCounts(e, sent, round.look);
    SentAndSeen(round.reply, round.look);
    ReconciledReports(e, sent, round.look);
    ConcludedIsSound(e, round.reply, sent, round.look);
    var events := [CancelSent(round.reply), Looked(round.look)];
    assert events + [] == events;
  }

  /** The three disposition functions, applied to what a look was told, give the one sound verdict. */
  lemma ConcludedIsSound(e: Env, reply: Result<(), Error>, sent: CancellationResult, look: Look)
    ensures var verdict := Concluded(e.options, reply, Reconciled(e, sent, look));
      verdict.Some? && !(reply.Err? && reply.error.OutcomeUnknown?) ==>
        SoundVerdict(e.options, e.order, reply, look, sent.cancelAttempts, verdict.value)
  {
    RetryPauseIff(e.options, reply);
    hide RetryPause, HitsTimeLock;
  }

  lemma OtherTurn(e: Env, result: CancellationResult, now: nat)
    requires Usable(e) && result.cancelAttempts < e.options.maxCancelAttempts
    ensures var turn := TurnAt(e, result, now);
      && (turn.Doubts? ==>
            && Cancels(turn.events) == 1 && Looks(turn.events) == 0
            && turn.result.disposition.UnknownOutcome? && turn.result.disposition.unknown.OutcomeUnknown?
            && LastReply(turn.events) == Some(Err(turn.result.disposition.unknown))
            && turn.result.cancelAttempts == result.cancelAttempts + 1
            && turn.result.reconciliationChecks == result.reconciliationChecks)
      && (turn.Again? ==>
            && Cancels(turn.events) == 1 && Looks(turn.events) == 1
            && turn.result.reconciliationChecks == result.reconciliationChecks + 1)
  {
    hide Wake, RetryPause, P.PollingDelay, Cancels, Looks, LastReply, Reconciled, Concluded, ValidDraw;
    var round := e.rounds[result.cancelAttempts];
    var sent := result.(cancelAttempts := result.cancelAttempts + 1);
    var next := Reconciled(e, sent, round.look);
    ReconciledCounts(e, sent, round.look);
    SentAndSeen(round.reply, round.look);
    var turn := TurnAt(e, result, now);
    if turn.Again? {
      CountsConcat([CancelSent(round.reply), Looked(round.look)], [turn.events[2]]);
      CountsOfOne(turn.events[2]);
    }
  }

  lemma ReconciledCounts(e: Env, result: CancellationResult, look: Look)
    ensures var next := Reconciled(e, result, look);
      && next.cancelAttempts == result.cancelAttempts && next.reconciliationChecks == result.reconciliationChecks + 1
      && next.disposition == result.disposition
  {
  }

  /**
   * Budgets of a whole run: cancel requests within their maximum, reconciliations within the cancel
   * requests but one plus the allowance for an unknown outcome. Finished runs report the truth, and the
   * only other end is a stop.
   */
  lemma {:induction false} EveryRunIsTruthful(e: Env, result: CancellationResult, now: nat)
    requires Usable(e) && result.cancelAttempts < e.options.maxCancelAttempts
    ensures var run := CancelFrom(e, result, now);
      && Cancels(run.trace) <= e.options.maxCancelAttempts - result.cancelAttempts
      && Looks(run.trace) <= Max(Cancels(run.trace) - 1 + e.options.maxUnknownChecks, 0)
      && (Cancels(run.trace) == 0 ==> Looks(run.trace) == 0)
      && (run.outcome.Ok? ==> Truthful(e, result, run.trace, run.outcome.value))
      && (run.outcome.Err? ==> run.outcome.error.WorkflowStopped?)
    decreases e.options.maxCancelAttempts - result.cancelAttempts
  {
    hide TurnAt, UnknownFrom, SoundVerdict, Looks, Cancels, LastReply, Reports;
    TurnAdvances(e, result, now);
    OtherTurn(e, result, now);
    StopsAreStops(e, result, now);
    match TurnAt(e, result, now)
    case Ends(run) => EndedTurn(e, result, now);
    case Doubts(events, doubted, at) =>
      DoubtsAreTruthful(e, result, events, doubted, at);
    case Again(events, next, at) =>
      var rest := CancelFrom(e, next, at);
      EveryRunIsTruthful(e, next, at);
      CountsConcat(events, rest.trace);
      LastReplyConcat(events, rest.trace);
  }

  lemma StopsAreStops(e: Env, result: CancellationResult, now: nat)
    requires Usable(e) && result.cancelAttempts < e.options.maxCancelAttempts
    ensures var turn := TurnAt(e, result, now);
      turn.Ends? && turn.run.outcome.Err? ==> turn.run.outcome.error.WorkflowStopped?
  {
    hide Reconciled, Concluded, Wake;
  }

  lemma DoubtsAreTruthful(e: Env, result: CancellationResult, events: seq<Event>, doubted: CancellationResult, at: nat)
    requires Usable(e) && doubted.disposition.UnknownOutcome? && doubted.disposition.unknown.OutcomeUnknown?
    requires Cancels(events) == 1 && Looks(events) == 0
    requires LastReply(events) == Some(Err(doubted.disposition.unknown))
    requires doubted.cancelAttempts == result.cancelAttempts + 1
    requires doubted.reconciliationChecks == result.reconciliationChecks
    ensures var run := After(events, UnknownFrom(e, doubted, 0, at));
      && Cancels(run.trace) == 1 && Looks(run.trace) <= e.options.maxUnknownChecks
      && (run.outcome.Ok? ==> Truthful(e, result, run.trace, run.outcome.value))
      && (run.outcome.Err? ==> run.outcome.error.WorkflowStopped?)
  {
    hide UnknownFrom, Looks, Cancels, LastReply;
    var rest := UnknownFrom(e, doubted, 0, at);
    UnknownPhaseCounts(e, doubted, 0, at);
    CountsConcat(events, rest.trace);
    LastReplyConcat(events, rest.trace);
  }

  /** Told for the workflow as a caller sees it: its counters are exactly the requests and reconciliations made. */
  lemma CountersAreExact(e: Env, now: nat)
    requires Usable(e)
    ensures var run := CancelFrom(e, Initial(e.options), now);
      && Cancels(run.trace) <= e.options.maxCancelAttempts
      && (run.outcome.Ok? ==>
            && run.outcome.value.cancelAttempts == Cancels(run.trace)
            && run.outcome.value.reconciliationChecks == Looks(run.trace))
  {
    EveryRunIsTruthful(e, Initial(e.options), now);
    hide CancelFrom, Cancels, Looks, LastReply, SoundVerdict, LastLooked;
  }
}
