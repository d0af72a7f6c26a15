/** What the claim protocol guarantees in every run, and where it falls short of its documentation. */
module StoreLaws {
  import opened Prelude
  import opened OrderTables
  import opened StoreRuns

  /** Every run with fewer than 2^63 recorded claims and writes satisfies the protocol invariant. */
  lemma RunsAreSound(ops: seq<Op>)
    requires |Run(INITIAL, ops).log| <= I64_MAX
    ensures Inv(Run(INITIAL, ops))
  {
    RunKeeps(INITIAL, ops);
  }

  lemma InitialIsSound()
    ensures Inv(INITIAL)
  {
  }

  // ---------------------------------------------------------------- fencing

  /**
   * Whatever the owner names and clock readings: of two claims of one row at most one can still be
   * written back, and no claim is ever written back twice.
   */
  lemma Fencing(ops: seq<Op>)
    requires |Run(INITIAL, ops).log| <= I64_MAX
    ensures var s := Run(INITIAL, ops);
      && (forall i, j :: 0 <= i < j < |s.held| && s.held[i].rowId == s.held[j].rowId ==>
            !(IsLive(s.tables, s.held[i]) && IsLive(s.tables, s.held[j])))
      && (forall i :: 0 <= i < |s.held| ==> WritesBy(s.log, i) <= 1)
      && (forall i :: 0 <= i < |s.held| && WritesBy(s.log, i) == 1 ==> !IsLive(s.tables, s.held[i]))
  {
    RunsAreSound(ops);
    var s := Run(INITIAL, ops);
    forall i, j | 0 <= i < j < |s.held| && s.held[i].rowId == s.held[j].rowId
      ensures !(IsLive(s.tables, s.held[i]) && IsLive(s.tables, s.held[j]))
    {
      AtMostOneLive(s, i, j);
    }
  }

  lemma AtMostOneLive(s: Sys, i: nat, j: nat)
    requires LogInv(s) && HandleInv(s) && ReclaimInv(s)
    requires i < |s.held| && j < |s.held| && i != j && s.held[i].rowId == s.held[j].rowId
    ensures !(IsLive(s.tables, s.held[i]) && IsLive(s.tables, s.held[j]))
  {
    var id := s.held[i].rowId;
    var p :| 0 <= p < |s.log| && s.log[p] == Claimed(id, Some(i));
    var q :| 0 <= q < |s.log| && s.log[q] == Claimed(id, Some(j));
    if p < q {
      assert IsReclaim(s.log, p, q) && Behind(s, s.log[p]);
    } else {
      assert IsReclaim(s.log, q, p) && Behind(s, s.log[q]);
    }
  }

  /**
   * Once event `q` has re-claimed the row of event `p`, no later write through the older claim
   * changes anything: it reports StaleClaim, or the guard's InvalidState.
   */
  lemma SupersededIsStaleForever(ops: seq<Op>, later: seq<Op>, p: nat, q: nat, write: Write)
    requires |Run(Run(INITIAL, ops), later).log| <= I64_MAX
    requires p < q < |Run(INITIAL, ops).log| && IsReclaim(Run(INITIAL, ops).log, p, q)
    ensures var s, slot := Run(Run(INITIAL, ops), later), Run(INITIAL, ops).log[p].holder.value;
      && slot < |s.held|
      && ApplyWrite(s.tables, s.held[slot], write)
        == Err(if AssignmentFor(s.held[slot], write).Ok? then StaleClaim else InvalidState)
      && forall acked :: Step(s, Release(slot, write, acked)) == s
  {
    hide Inv, Run, Step, ApplyWrite;
    var start := Run(INITIAL, ops);
    LogGrows(start, later);
    RunsAreSound(ops);
    RunKeeps(start, later);
    var s := Run(start, later);
    assert s.log[p] == start.log[p] && s.log[q] == start.log[q];
    SupersededIsRefused(s, p, q, write);
  }

  lemma SupersededIsRefused(s: Sys, p: nat, q: nat, write: Write)
    requires Inv(s) && p < q < |s.log| && IsReclaim(s.log, p, q)
    ensures var slot := s.log[p].holder.value;
      && slot < |s.held|
      && ApplyWrite(s.tables, s.held[slot], write)
        == Err(if AssignmentFor(s.held[slot], write).Ok? then StaleClaim else InvalidState)
      && forall acked :: Step(s, Release(slot, write, acked)) == s
  {
    hide Keyed, LeaseInv, CountInv, SpentInv, HandleInv, Claims, Writes;
    assert Behind(s, s.log[p]);
    hide LogInv, ReclaimInv;
  }

  /**
   * A re-claim leaves an older live claim of the row live exactly when the version counter is
   * saturated and the owner name is the same.
   */
  lemma ReclaimSupersedesIff(s: Sys, op: Op, slot: nat)
    requires op.ClaimDue? && slot < |s.held| && IsLive(s.tables, s.held[slot])
    requires s.held[slot].rowId in DueRows(s.tables, op.now, op.limit, op.locked, 0)
    ensures slot < |Step(s, op).held| && Step(s, op).held[slot] == s.held[slot]
    ensures IsLive(Step(s, op).tables, s.held[slot]) <==>
      s.held[slot].version == I64_MAX && s.held[slot].owner == op.owner
  {
    hide ClaimAll, ClaimMany, DueRows;
    var ids, until := DueRows(s.tables, op.now, op.limit, op.locked, 0), SaturatingAdd(op.now, op.leaseMs);
    ClaimManyTables(s, ids, op.owner, until, op.acked);
    ClaimAllRow(s.tables, ids, op.owner, until, s.held[slot].rowId);
    ClaimManyKeepsHeld(s, ids, op.owner, until, op.acked);
  }

  /** At the saturation point of the version counter two claims of one row are live together. */
  lemma SaturationBreaksFencing() returns (s: Sys, s': Sys)
    ensures s.tables.orders.Keys == {0} && s.tables.orders[0].version == I64_MAX && s.log == [] && s.held == []
    ensures s' == Run(s, [ClaimDue("w", 10, 0, 1, {}, true), ClaimDue("w", 10, 11, 1, {}, true)])
    ensures |s'.held| == 2 && s'.held[0].rowId == s'.held[1].rowId == 0
    ensures IsLive(s'.tables, s'.held[0]) && IsLive(s'.tables, s'.held[1])
  {
    var row := Row(7, None, Polling, 100, 0, 0, None, None, I64_MAX);
    s := Sys(Tables(map[0 := row], map[], 1), [], []);
    var first, second := ClaimDue("w", 10, 0, 1, {}, true), ClaimDue("w", 10, 11, 1, {}, true);
    ClaimOnly(s, "w", 10, 0);
    var middle := Step(s, first);
    ClaimOnly(middle, "w", 10, 11);
    RunSnoc(s, [], first);
    RunSnoc(s, [first], second);
    assert [] + [first] == [first] && [first] + [second] == [first, second];
    s' := Step(middle, second);
  }

  /** Claiming from a table with the single row 0. */
  lemma ClaimOnly(s: Sys, owner: Owner, leaseMs: nat, now: int)
    requires s.tables.orders.Keys == {0} && s.tables.nextId == 1 && IsDue(s.tables.orders[0], now)
    ensures Step(s, ClaimDue(owner, leaseMs, now, 1, {}, true))
      == ClaimOne(s, 0, owner, SaturatingAdd(now, leaseMs), true)
  {
    assert DueRows(s.tables, now, 1, {}, 0) == [0];
    assert [0][..0] == [] && ClaimMany(s, [], owner, SaturatingAdd(now, leaseMs), true) == s;
  }

  // ---------------------------------------------------------------- new rows

  /** Both ways to store an unknown order add one row: open, due at once, unleased, with the given deadline. */
  lemma NewOrderRow(t: Tables, intent: Fingerprint, reference: Fingerprint, deadlineMs: int, now: int)
    requires forall id :: id in t.orders ==> t.orders[id].reference != reference
    ensures RecordPurchase(t, reference, deadlineMs, now)
      == Tables(t.orders[t.nextId := Row(reference, None, Polling, deadlineMs, now, 0, None, None, 0)],
        t.intents, t.nextId + 1)
    ensures var r := BindPurchase(t, intent, reference, deadlineMs, now);
      var row := Row(reference, Some(intent), Polling, deadlineMs, now, 0, None, None, 0);
      r.Ok? ==> r.value == Tables(t.orders[t.nextId := row], t.intents[intent := IntentResolved], t.nextId + 1)
  {
  }

  // ---------------------------------------------------------------- counting

  /** The version is the number of claims and successful writes; attempts count the released polls. */
  lemma CountingLaws(ops: seq<Op>, id: RowId)
    requires |Run(INITIAL, ops).log| <= I64_MAX && id in Run(INITIAL, ops).tables.orders
    ensures var s := Run(INITIAL, ops);
      var row := s.tables.orders[id];
      && row.version == Claims(s.log, id) + Writes(s.log, id)
      && row.pollAttempts == CountedWrites(s.log, id)
      && Writes(s.log, id) <= Claims(s.log, id)
      && row.version <= 2 * Claims(s.log, id)
      && row.pollAttempts <= Claims(s.log, id)
  {
    RunsAreSound(ops);
    CountsBounded(Run(INITIAL, ops).log, id);
  }

  /** The attempt counter never overflows, so a live claim is refused only by the state guards. */
  lemma LiveWritesSucceed(ops: seq<Op>, slot: nat, write: Write)
    requires |Run(INITIAL, ops).log| < I64_MAX && slot < |Run(INITIAL, ops).held|
    ensures var s := Run(INITIAL, ops);
      ApplyWrite(s.tables, s.held[slot], write).Ok?
      <==> IsLive(s.tables, s.held[slot]) && AssignmentFor(s.held[slot], write).Ok?
  {
    RunsAreSound(ops);
    CountsBounded(Run(INITIAL, ops).log, Run(INITIAL, ops).held[slot].rowId);
  }

  // ---------------------------------------------------------------- terminal states

  lemma TerminalStep(s: Sys, op: Op, id: RowId)
    requires Inv(s) && |Step(s, op).log| <= I64_MAX
    requires id in s.tables.orders && IsTerminal(s.tables.orders[id].state)
    ensures id in Step(s, op).tables.orders
    ensures var row, row' := s.tables.orders[id], Step(s, op).tables.orders[id];
      row'.state == row.state && row'.version == row.version && row'.leaseOwner.None?
      && row'.pollAttempts == row.pollAttempts
  {
    hide CountInv, ReclaimInv, SpentInv, QuietStep;
    match op
    case ClaimDue(owner, leaseMs, now, limit, locked, acked) =>
    case Release(slot, write, acked) =>
    case _ => QuietStepIsQuiet(s.tables, op);
  }

  /** Received, terminated, expired and failed rows never change state again. */
  lemma {:induction false} TerminalIsAbsorbing(ops: seq<Op>, later: seq<Op>, id: RowId)
    requires |Run(Run(INITIAL, ops), later).log| <= I64_MAX
    requires id in Run(INITIAL, ops).tables.orders && IsTerminal(Run(INITIAL, ops).tables.orders[id].state)
    ensures var s, s' := Run(INITIAL, ops), Run(Run(INITIAL, ops), later);
      && id in s'.tables.orders
      && s'.tables.orders[id].state == s.tables.orders[id].state
      && s'.tables.orders[id].version == s.tables.orders[id].version
      && s'.tables.orders[id].leaseOwner.None?
  {
    var s := Run(INITIAL, ops);
    LogGrows(s, later);
    RunsAreSound(ops);
    if later != [] {
      var front := later[..|later| - 1];
      StepLogGrows(Run(s, front), later[|later| - 1]);
      TerminalIsAbsorbing(ops, front, id);
      RunKeeps(s, front);
      TerminalStep(Run(s, front), later[|later| - 1], id);
    }
  }

  // ---------------------------------------------------------------- reconcile-only rows

  /**
   * Releasing a live claim keeps a reconcile-only row reconcile-only exactly when the claim already
   * remembers that state; a pending release never does.
   */
  lemma ReleaseKeepsReconcileOnly(ops: seq<Op>, slot: nat, nextPollMs: int)
    requires |Run(INITIAL, ops).log| < I64_MAX && slot < |Run(INITIAL, ops).held|
    requires IsLive(Run(INITIAL, ops).tables, Run(INITIAL, ops).held[slot])
    requires Run(INITIAL, ops).tables.orders[Run(INITIAL, ops).held[slot].rowId].state == ReconcileOnly
    ensures var s := Run(INITIAL, ops);
      var id := s.held[slot].rowId;
      && (Step(s, Release(slot, Retry(nextPollMs), true)).tables.orders[id].state == ReconcileOnly
          <==> !s.held[slot].state.Polling?)
      && Step(s, Release(slot, Pending(nextPollMs), true)).tables.orders[id].state == Polling
  {
    LiveWritesSucceed(ops, slot, Pending(nextPollMs));
    LiveWritesSucceed(ops, slot, Retry(nextPollMs));
    HeldStatesStayClaimable(ops, slot);
  }

  /** A live claim never remembers a terminal state. */
  lemma HeldStatesStayClaimable(ops: seq<Op>, slot: nat)
    requires |Run(INITIAL, ops).log| <= I64_MAX && slot < |Run(INITIAL, ops).held|
    requires IsLive(Run(INITIAL, ops).tables, Run(INITIAL, ops).held[slot])
    ensures IsClaimable(Run(INITIAL, ops).held[slot].state)
  {
    RunsAreSound(ops);
    var s := Run(INITIAL, ops);
    assert !Dead(s, slot);
  }

  /** The downgrade happens: mark a claimed row reconcile-only, then release the claim for a retry. */
  lemma MarkingDoesNotSurviveRetry() returns (marked: Sys, released: Sys)
    ensures marked == Run(INITIAL, [Purchase(7, 100, 0), ClaimDue("w", 10, 0, 1, {}, true), Mark(7)])
    ensures released == Run(INITIAL,
      [Purchase(7, 100, 0), ClaimDue("w", 10, 0, 1, {}, true), Mark(7), Release(0, Retry(5), true)])
    ensures marked.tables.orders.Keys == released.tables.orders.Keys == {0}
    ensures marked.tables.orders[0].state == ReconcileOnly
    ensures released.tables.orders[0].state == Polling
  {
    hide Step;
    var a, b, c, d := Purchase(7, 100, 0), ClaimDue("w", 10, 0, 1, {}, true), Mark(7), Release(0, Retry(5), true);
    RunThree(a, b, c);
    RunSnoc(INITIAL, [a, b, c], d);
    assert [a, b, c] + [d] == [a, b, c, d];
    var bought := FirstPurchase(7, 100);
    ClaimOnly(bought, "w", 10, 0);
    var claimed := Step(bought, b);
    marked, released := DowngradeClaimed(claimed, 7);
  }

  lemma FirstPurchase(reference: Fingerprint, deadlineMs: int) returns (s: Sys)
    ensures s == Step(INITIAL, Purchase(reference, deadlineMs, 0))
    ensures s == Sys(Tables(map[0 := FreshRow(reference, None, deadlineMs, 0)], map[], 1), [], [])
  {
    s := Step(INITIAL, Purchase(reference, deadlineMs, 0));
  }

  lemma DowngradeClaimed(s: Sys, reference: Fingerprint) returns (marked: Sys, released: Sys)
    requires s.tables.orders.Keys == {0} && s.tables.orders[0].reference == reference
    requires s.tables.orders[0].state.Polling? && s.tables.orders[0].pollAttempts == 0
    requires |s.held| == 1 && s.held[0].state.Polling? && IsLive(s.tables, s.held[0])
    ensures marked == Step(s, Mark(reference)) && released == Step(marked, Release(0, Retry(5), true))
    ensures marked.tables.orders.Keys == released.tables.orders.Keys == {0}
    ensures marked.tables.orders[0].state == ReconcileOnly
    ensures released.tables.orders[0].state == Polling
  {
    assert RowOf(s.tables, reference) == Some(0);
    marked := Step(s, Mark(reference));
    released := Step(marked, Release(0, Retry(5), true));
  }

  lemma RunThree(a: Op, b: Op, c: Op)
    ensures Run(INITIAL, [a, b, c]) == Step(Step(Step(INITIAL, a), b), c)
  {
    hide Step;
    RunSnoc(INITIAL, [], a);
    RunSnoc(INITIAL, [a], b);
    RunSnoc(INITIAL, [a, b], c);
    assert [] + [a] == [a] && [a] + [b] == [a, b] && [a, b] + [c] == [a, b, c];
  }
}
