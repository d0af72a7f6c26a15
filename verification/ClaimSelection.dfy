/** Which rows a claiming transaction takes, told on the columns of the rows. */
module ClaimSelection {
  import opened Prelude
  import opened OrderTables
  import opened StoreRuns
  import opened StoreLaws

  /** The row may be claimed: open, its next poll has come, no lease runs, and nobody else has it locked. */
  predicate Claimable(t: Tables, now: int, locked: set<RowId>, id: RowId) {
    && id in t.orders && id !in locked
    && var row := t.orders[id];
      && (row.state == Polling || row.state == ReconcileOnly)
      && row.nextPollMs <= now
      && (row.leaseUntilMs.Some? ==> row.leaseUntilMs.value < now)
  }

  /** The claimable rows from `from` on with smaller ids. */
  function Smaller(t: Tables, now: int, locked: set<RowId>, from: RowId, id: RowId): set<RowId> {
    set j | j in t.orders && from <= j < id && Claimable(t, now, locked, j)
  }

  /** The row is among the first `limit` claimable ones. */
  predicate Chosen(t: Tables, now: int, limit: nat, locked: set<RowId>, id: RowId) {
    Claimable(t, now, locked, id) && |Smaller(t, now, locked, 0, id)| < limit
  }

  function Leased(row: Row, owner: Owner, leaseUntilMs: int): Row {
    Row(row.reference, row.intent, row.state, row.deadlineMs, row.nextPollMs, row.pollAttempts,
      Some(owner), Some(leaseUntilMs), SaturatingAdd(row.version, 1))
  }

  /** What the transaction makes of a row. */
  function RowAfter(
      t: Tables, now: int, limit: nat, locked: set<RowId>, owner: Owner, leaseUntilMs: int, id: RowId): Row
    requires id in t.orders
  {
    if Chosen(t, now, limit, locked, id) then Leased(t.orders[id], owner, leaseUntilMs) else t.orders[id]
  }

  lemma SmallerStep(t: Tables, now: int, locked: set<RowId>, from: RowId, id: RowId)
    ensures from == id ==> |Smaller(t, now, locked, from, id)| == 0
    ensures var one := if Claimable(t, now, locked, from) then 1 else 0;
      from < id ==> |Smaller(t, now, locked, from, id)| == |Smaller(t, now, locked, from + 1, id)| + one
  {
    hide Claimable;
    if from == id {
      assert Smaller(t, now, locked, from, id) == {};
    } else if from < id {
      ClaimableExists(t, now, locked, from);
      var rest := Smaller(t, now, locked, from + 1, id);
      assert Smaller(t, now, locked, from, id) == if Claimable(t, now, locked, from) then rest + {from} else rest;
    }
  }

  lemma ClaimableExists(t: Tables, now: int, locked: set<RowId>, id: RowId)
    ensures Claimable(t, now, locked, id) ==> id in t.orders
  {
  }

  lemma {:induction false} DueIff(t: Tables, now: int, limit: nat, locked: set<RowId>, from: RowId, id: RowId)
    requires forall x :: x in t.orders ==> x < t.nextId
    ensures id in DueRows(t, now, limit, locked, from) <==>
      from <= id && Claimable(t, now, locked, id) && |Smaller(t, now, locked, from, id)| < limit
    decreases t.nextId - from
  {
    hide Smaller;
    if limit > 0 && from < t.nextId {
      SmallerStep(t, now, locked, from, id);
      DueIff(t, now, if Claimable(t, now, locked, from) then limit - 1 else limit, locked, from + 1, id);
    }
  }

  /** The rows are taken in the order of their ids: number `i` has `i` claimable rows before it. */
  lemma {:induction false} DueAt(t: Tables, now: int, limit: nat, locked: set<RowId>, from: RowId, i: nat)
    requires i < |DueRows(t, now, limit, locked, from)|
    ensures var id := DueRows(t, now, limit, locked, from)[i];
      from <= id && Claimable(t, now, locked, id) && |Smaller(t, now, locked, from, id)| == i
    decreases t.nextId - from
  {
    hide Smaller;
    var id := DueRows(t, now, limit, locked, from)[i];
    SmallerStep(t, now, locked, from, id);
    if Claimable(t, now, locked, from) {
      if i > 0 {
        DueAt(t, now, limit - 1, locked, from + 1, i - 1);
      }
    } else {
      DueAt(t, now, limit, locked, from + 1, i);
    }
  }

  /** A claiming transaction leases exactly the chosen rows and leaves every other row as it was. */
  lemma ClaimTakesChosen(
      t: Tables, now: int, limit: nat, locked: set<RowId>, owner: Owner, leaseUntilMs: int, id: RowId)
    requires Keyed(t) && id in t.orders
    ensures var t' := ClaimAll(t, DueRows(t, now, limit, locked, 0), owner, leaseUntilMs);
      id in t'.orders && t'.orders[id] == RowAfter(t, now, limit, locked, owner, leaseUntilMs, id)
  {
    hide ClaimAll, DueRows, SaturatingAdd, Claimable, Smaller;
    DueIff(t, now, limit, locked, 0, id);
    var ids := DueRows(t, now, limit, locked, 0);
    if id in ids {
      ClaimAllRow(t, ids, owner, leaseUntilMs, id);
    }
  }

  /**
   * A claim step of any worker moves a row's version exactly if the row is chosen; only at the
   * saturation point of the counter does a chosen row keep its version.
   */
  lemma VersionMovesIffChosen(s: Sys, op: Op, id: RowId)
    requires Inv(s) && op.ClaimDue? && id in s.tables.orders
    ensures id in Step(s, op).tables.orders
    ensures s.tables.orders[id].version < I64_MAX ==>
      (Step(s, op).tables.orders[id].version != s.tables.orders[id].version
       <==> Chosen(s.tables, op.now, op.limit, op.locked, id))
    ensures Step(s, op).tables.orders[id] != s.tables.orders[id] ==>
      Chosen(s.tables, op.now, op.limit, op.locked, id)
  {
    var until := SaturatingAdd(op.now, op.leaseMs);
    ClaimTakesChosen(s.tables, op.now, op.limit, op.locked, op.owner, until, id);
    ClaimManyTables(s, DueRows(s.tables, op.now, op.limit, op.locked, 0), op.owner, until, op.acked);
    hide Inv, Chosen, ClaimAll, ClaimMany, DueRows;
  }

  // ---------------------------------------------------------------- a released row rests

  /** The row waits, unowned, for the poll due at `next`. */
  ghost predicate Rests(t: Tables, id: RowId, next: int, version: int) {
    && id in t.orders && t.orders[id].leaseOwner.None?
    && t.orders[id].nextPollMs == next && t.orders[id].version == version
  }

  lemma StepRests(s: Sys, op: Op, id: RowId, next: int, version: int)
    requires Inv(s) && Rests(s.tables, id, next, version) && (op.ClaimDue? ==> op.now < next)
    ensures Rests(Step(s, op).tables, id, next, version)
  {
    match op
    case ClaimDue(owner, leaseMs, now, limit, locked, acked) =>
      VersionMovesIffChosen(s, op, id);
      hide Inv;
    case Release(slot, write, acked) =>
      if slot < |s.held| && s.held[slot].rowId == id {
        assert !IsLive(s.tables, s.held[slot]);
      }
    case _ => QuietStepRests(s.tables, op, id, next, version);
  }

  lemma QuietStepRests(t: Tables, op: Op, id: RowId, next: int, version: int)
    requires Keyed(t) && Rests(t, id, next, version)
    ensures Rests(QuietStep(t, op), id, next, version)
  {
  }

  lemma {:induction false} RunRests(s: Sys, ops: seq<Op>, id: RowId, next: int, version: int)
    requires Inv(s) && Rests(s.tables, id, next, version) && |Run(s, ops).log| <= I64_MAX
    requires forall op :: op in ops && op.ClaimDue? ==> op.now < next
    ensures Rests(Run(s, ops).tables, id, next, version)
  {
    hide Inv, Step, Rests;
    if ops != [] {
      var front, last := ops[..|ops| - 1], ops[|ops| - 1];
      StepLogGrows(Run(s, front), last);
      RunRests(s, front, id, next, version);
      RunKeeps(s, front);
      StepRests(Run(s, front), last, id, next, version);
    }
  }

  /** The moment that a pending, retry or reconcile release asks for. */
  predicate Postpones(write: Write, next: int) {
    write == Pending(next) || write == Retry(next) || write == Reconcile(next)
  }

  /**
   * Retry and pending pauses are kept in every run: after a successful release until `next`, the row
   * stays unowned, at its version and due at `next`, as long as no claim step reads a clock at `next` or
   * later.
   */
  lemma PauseIsKept(ops: seq<Op>, release: Op, later: seq<Op>, next: int)
    requires release.Release? && Postpones(release.write, next)
    requires var s := Run(INITIAL, ops);
      && release.slot < |s.held| && ApplyWrite(s.tables, s.held[release.slot], release.write).Ok?
      && |Run(Step(s, release), later).log| <= I64_MAX
    requires forall op :: op in later && op.ClaimDue? ==> op.now < next
    ensures var s := Run(INITIAL, ops);
      var s1, id := Step(s, release), s.held[release.slot].rowId;
      var s' := Run(s1, later);
      && id in s.tables.orders && id in s1.tables.orders && id in s'.tables.orders
      && s'.tables.orders[id].leaseOwner.None? && s'.tables.orders[id].nextPollMs == next
      && s'.tables.orders[id].version == s1.tables.orders[id].version
      && s1.tables.orders[id].version == SaturatingAdd(s.tables.orders[id].version, 1)
  {
    hide Inv, Step, Run, ApplyWrite, SaturatingAdd, Postpones;
    var s := Run(INITIAL, ops);
    LogGrows(Step(s, release), later);
    StepLogGrows(s, release);
    InitialIsSound();
    RunKeeps(INITIAL, ops);
    StepKeeps(s, release);
    ReleasedRests(s, release, next);
    var id := s.held[release.slot].rowId;
    RunRests(Step(s, release), later, id, next, Step(s, release).tables.orders[id].version);
  }

  lemma ReleasedRests(s: Sys, release: Op, next: int)
    requires release.Release? && Postpones(release.write, next)
    requires release.slot < |s.held| && ApplyWrite(s.tables, s.held[release.slot], release.write).Ok?
    ensures var id := s.held[release.slot].rowId;
      && id in s.tables.orders
      && Rests(Step(s, release).tables, id, next, SaturatingAdd(s.tables.orders[id].version, 1))
  {
  }
}
