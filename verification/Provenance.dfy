/** Where the state of a row comes from, over whole interleaved runs. */
module Provenance {
  import opened Prelude
  import opened OrderTables
  import opened StoreRuns
  import opened StoreLaws

  // ---------------------------------------------------------------- terminal states

  /** The one kind of write that means this terminal state. */
  predicate Means(write: Write, state: OrderState) {
    match state
    case Received => write.Terminal? && write.state.Received?
    case Terminated => write.Terminal? && write.state.Terminated?
    case Expired => write.Expire?
    case Failed => write.Fail?
    case _ => false
  }

  /** In state `s` the step is a successful release of a claim of row `id`, with a write that means `state`. */
  ghost predicate Settles(s: Sys, op: Op, id: RowId, state: OrderState) {
    && op.Release? && op.slot < |s.held| && s.held[op.slot].rowId == id
    && ApplyWrite(s.tables, s.held[op.slot], op.write).Ok? && Means(op.write, state)
  }

  /** Step number `n` of the run settles the row. */
  ghost predicate SettledAt(ops: seq<Op>, n: int, id: RowId, state: OrderState) {
    0 <= n < |ops| && Settles(Run(INITIAL, ops[..n]), ops[n], id, state)
  }

  ghost predicate InState(s: Sys, id: RowId, state: OrderState) {
    id in s.tables.orders && s.tables.orders[id].state == state
  }

  /** A single step makes a row terminal exactly by settling it. */
  lemma StepSettlesIff(s: Sys, op: Op, id: RowId, state: OrderState)
    requires Inv(s) && |Step(s, op).log| <= I64_MAX && IsTerminal(state)
    ensures InState(Step(s, op), id, state) <==> InState(s, id, state) || Settles(s, op, id, state)
  {
    hide Inv;
    if id in s.tables.orders && IsTerminal(s.tables.orders[id].state) {
      TerminalStep(s, op, id);
      if op.Release? && op.slot < |s.held| && s.held[op.slot].rowId == id {
        TerminalIsNotWritten(s, op, id);
      }
      hide Step;
    } else if op.Release? {
      ReleaseSettlesIff(s, op, id, state);
    } else if InState(Step(s, op), id, state) {
      OtherStepSettlesNothing(s, op, id, state);
    }
  }

  lemma TerminalIsNotWritten(s: Sys, op: Op, id: RowId)
    requires Inv(s) && id in s.tables.orders && IsTerminal(s.tables.orders[id].state)
    requires op.Release? && op.slot < |s.held| && s.held[op.slot].rowId == id
    ensures ApplyWrite(s.tables, s.held[op.slot], op.write).Err?
  {
  }

  lemma ReleaseSettlesIff(s: Sys, op: Op, id: RowId, state: OrderState)
    requires op.Release? && IsTerminal(state) && !InState(s, id, state)
    requires Inv(s)
    ensures InState(Step(s, op), id, state) <==> Settles(s, op, id, state)
  {
  }

  lemma OtherStepSettlesNothing(s: Sys, op: Op, id: RowId, state: OrderState)
    requires Inv(s) && !op.Release? && IsTerminal(state) && InState(Step(s, op), id, state)
    ensures InState(s, id, state)
  {
    match op
    case ClaimDue(owner, leaseMs, now, limit, locked, acked) =>
      var ids := DueRows(s.tables, now, limit, locked, 0);
      ClaimingKeepsStates(s, ids, owner, SaturatingAdd(now, leaseMs), acked);
    case _ =>
      QuietStepIsQuiet(s.tables, op);
      hide QuietStep, Inv;
  }

  /**
   * Over every run of every number of workers: a row is in a terminal state exactly when some step was a
   * successful release of one of its claims that meant this state. Nothing else ends an order.
   */
  lemma {:induction false} TerminalIffReleased(ops: seq<Op>, id: RowId, state: OrderState)
    requires |Run(INITIAL, ops).log| <= I64_MAX && IsTerminal(state)
    ensures InState(Run(INITIAL, ops), id, state) <==> exists n :: SettledAt(ops, n, id, state)
  {
    hide Inv, Step, InState, Settles;
    if ops == [] {
      assert !InState(INITIAL, id, state) by {
        NothingAtFirst(id, state);
      }
    } else {
      var front, last := ops[..|ops| - 1], ops[|ops| - 1];
      var s := Run(INITIAL, front);
      StepLogGrows(s, last);
      TerminalIffReleased(front, id, state);
      RunsAreSound(front);
      StepSettlesIff(s, last, id, state);
      SettledExtends(ops, id, state);
    }
  }

  lemma NothingAtFirst(id: RowId, state: OrderState)
    ensures !InState(INITIAL, id, state)
  {
  }

  lemma SettledExtends(ops: seq<Op>, id: RowId, state: OrderState)
    requires ops != []
    ensures var front := ops[..|ops| - 1];
      (exists n :: SettledAt(ops, n, id, state))
      <==> (exists n :: SettledAt(front, n, id, state)) || Settles(Run(INITIAL, front), ops[|ops| - 1], id, state)
  {
    hide Run, Settles;
    var front := ops[..|ops| - 1];
    forall n | 0 <= n < |front| ensures SettledAt(front, n, id, state) <==> SettledAt(ops, n, id, state) {
      assert front[..n] == ops[..n];
    }
    if exists n :: SettledAt(ops, n, id, state) {
      var n :| SettledAt(ops, n, id, state);
      assert n < |front| ==> SettledAt(front, n, id, state);
    }
    if exists n :: SettledAt(front, n, id, state) {
      var n :| SettledAt(front, n, id, state);
      assert SettledAt(ops, n, id, state);
    }
    if Settles(Run(INITIAL, front), ops[|ops| - 1], id, state) {
      assert SettledAt(ops, |ops| - 1, id, state);
    }
  }

  // ---------------------------------------------------------------- reconcile-only marks

  /** A claim changes in its holder's hands only by a successful write of its own. */
  lemma StepKeepsUnwritten(s: Sys, op: Op, slot: nat)
    requires slot < |s.held|
    ensures slot < |Step(s, op).held|
    ensures Step(s, op).held[slot] == s.held[slot] || WritesBy(Step(s, op).log, slot) > WritesBy(s.log, slot)
    ensures WritesBy(Step(s, op).log, slot) >= WritesBy(s.log, slot)
  {
    match op
    case ClaimDue(owner, leaseMs, now, limit, locked, acked) =>
      var ids := DueRows(s.tables, now, limit, locked, 0);
      ClaimManyKeepsHeld(s, ids, owner, SaturatingAdd(now, leaseMs), acked);
      ClaimsWriteNothing(s, ids, owner, SaturatingAdd(now, leaseMs), acked, slot);
    case Release(other, write, acked) =>
      if other < |s.held| && ApplyWrite(s.tables, s.held[other], write).Ok? {
        Appended(s.log, Wrote(s.held[other].rowId, other, AssignmentFor(s.held[other], write).value.counted));
      }
    case _ =>
  }

  lemma {:induction false} ClaimsWriteNothing(
      s: Sys, ids: seq<RowId>, owner: Owner, until: int, acked: bool, slot: nat)
    requires forall id :: id in ids ==> id in s.tables.orders
    ensures WritesBy(ClaimMany(s, ids, owner, until, acked).log, slot) == WritesBy(s.log, slot)
  {
    if ids != [] {
      var before := ClaimMany(s, ids[..|ids| - 1], owner, until, acked);
      ClaimsWriteNothing(s, ids[..|ids| - 1], owner, until, acked, slot);
      Appended(before.log, Claimed(ids[|ids| - 1], if acked then Some(|before.held|) else None));
    }
  }

  lemma {:induction false} RunKeepsUnwritten(s: Sys, ops: seq<Op>, slot: nat)
    requires slot < |s.held|
    ensures slot < |Run(s, ops).held|
    ensures Run(s, ops).held[slot] == s.held[slot] || WritesBy(Run(s, ops).log, slot) > WritesBy(s.log, slot)
    ensures WritesBy(Run(s, ops).log, slot) >= WritesBy(s.log, slot)
  {
    hide Step, WritesBy;
    if ops != [] {
      RunKeepsUnwritten(s, ops[..|ops| - 1], slot);
      StepKeepsUnwritten(Run(s, ops[..|ops| - 1]), ops[|ops| - 1], slot);
    }
  }

  /** A claim is handed out with the state that its row has then. */
  lemma {:induction false} HandedOutAs(s: Sys, ids: seq<RowId>, owner: Owner, until: int, slot: nat)
    requires forall id :: id in ids ==> id in s.tables.orders
    requires |s.held| <= slot < |ClaimMany(s, ids, owner, until, true).held|
    ensures var claim := ClaimMany(s, ids, owner, until, true).held[slot];
      claim.rowId in s.tables.orders && claim.state == s.tables.orders[claim.rowId].state
  {
    var front := ids[..|ids| - 1];
    var before := ClaimMany(s, front, owner, until, true);
    if slot < |before.held| {
      HandedOutAs(s, front, owner, until, slot);
    } else {
      ClaimingKeepsStates(s, front, owner, until, true);
    }
  }

  lemma {:induction false} ClaimingKeepsStates(s: Sys, ids: seq<RowId>, owner: Owner, until: int, acked: bool)
    requires forall id :: id in ids ==> id in s.tables.orders
    ensures forall id :: id in s.tables.orders ==>
      ClaimMany(s, ids, owner, until, acked).tables.orders[id].state == s.tables.orders[id].state
  {
    if ids != [] {
      ClaimingKeepsStates(s, ids[..|ids| - 1], owner, until, acked);
    }
  }

  /**
   * Over every run: releasing a live claim for a retry keeps the row's reconcile-only mark exactly when
   * the mark was there already when this claim was handed out.
   */
  lemma MarkSurvivesRetryIff(ops: seq<Op>, claim: Op, later: seq<Op>, slot: nat, nextPollMs: int, acked: bool)
    requires claim.ClaimDue? && claim.acked
    requires var s := Run(INITIAL, ops);
      |s.held| <= slot < |Step(s, claim).held| && |Run(Step(s, claim), later).log| < I64_MAX
    requires var s' := Run(Step(Run(INITIAL, ops), claim), later);
      slot < |s'.held| && IsLive(s'.tables, s'.held[slot]) && InState(s', s'.held[slot].rowId, ReconcileOnly)
    ensures var s, s' := Run(INITIAL, ops), Run(Step(Run(INITIAL, ops), claim), later);
      var id := s'.held[slot].rowId;
      InState(Step(s', Release(slot, Retry(nextPollMs), acked)), id, ReconcileOnly) <==> InState(s, id, ReconcileOnly)
  {
    hide Inv, Step, Run, WritesBy;
    var s, s1 := Run(INITIAL, ops), Step(Run(INITIAL, ops), claim);
    LogGrows(s1, later);
    StepLogGrows(s, claim);
    RunsAreSound(ops);
    StepKeeps(s, claim);
    RunKeeps(s1, later);
    RunKeepsUnwritten(s1, later, slot);
    var s' := Run(s1, later);
    LiveIsUnwritten(s', slot);
    HandedOutState(s, claim, slot);
    RetryWritesHeldState(s', slot, nextPollMs, acked);
  }

  lemma HandedOutState(s: Sys, claim: Op, slot: nat)
    requires claim.ClaimDue? && claim.acked && |s.held| <= slot < |Step(s, claim).held|
    ensures InState(s, Step(s, claim).held[slot].rowId, Step(s, claim).held[slot].state)
  {
    var ids := DueRows(s.tables, claim.now, claim.limit, claim.locked, 0);
    HandedOutAs(s, ids, claim.owner, SaturatingAdd(claim.now, claim.leaseMs), slot);
  }

  lemma LiveIsUnwritten(s: Sys, slot: nat)
    requires Inv(s) && slot < |s.held| && IsLive(s.tables, s.held[slot])
    ensures WritesBy(s.log, slot) == 0
  {
    assert !Dead(s, slot);
  }

  lemma RetryWritesHeldState(s: Sys, slot: nat, nextPollMs: int, acked: bool)
    requires Inv(s) && |s.log| < I64_MAX && slot < |s.held| && IsLive(s.tables, s.held[slot])
    ensures InState(Step(s, Release(slot, Retry(nextPollMs), acked)), s.held[slot].rowId, s.held[slot].state)
  {
    LiveIsUnwritten(s, slot);
    CountsBounded(s.log, s.held[slot].rowId);
  }
}
