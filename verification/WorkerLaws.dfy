/** What one undisturbed worker cycle does to the tables, and where its verdicts come from. */
module WorkerLaws {
  import opened Prelude
  import opened OrderTables
  import opened RecoveryWorker
  import StoreRuns
  import Selection = ClaimSelection
  import N = Snapshots
  import BatchBound
  import LeaseTiming
  import InFlight
  import T = Transport

  // ---------------------------------------------------------------- the row a cycle should leave behind

  function NextState(row: Row, h: Handling, pending: set<Fingerprint>): OrderState {
    if h.now >= row.deadlineMs then Expired
    else if row.reference in pending then Polling
    else if h.check.Ok? then
      if h.check.value.Received? then Received
      else if h.check.value.Terminated? then Terminated
      else Polling
    else if h.check.error.OutcomeUnknown? then ReconcileOnly
    else row.state
  }

  /** Only polls that leave the order open without doubt count as attempts. */
  function Counts(row: Row, h: Handling, pending: set<Fingerprint>): nat {
    var s := NextState(row, h, pending);
    if s == Polling || (s == row.state && !(h.check.Err? && h.check.error.OutcomeUnknown?)) then 1 else 0
  }

  /** An order that stays open is due again five seconds after the clock reading, a closed one at its stamp. */
  function NextPoll(row: Row, h: Handling, pending: set<Fingerprint>): int {
    if IsClaimable(NextState(row, h, pending)) then h.now + 5_000 else h.stampedAt
  }

  function ClaimedRow(row: Row, owner: Owner, until: int): Row {
    row.(leaseOwner := Some(owner), leaseUntilMs := Some(until), version := SaturatingAdd(row.version, 1))
  }

  /** Released in its new state, two versions on; only a full attempt counter keeps the row leased. */
  function SettledRow(row: Row, owner: Owner, until: int, h: Handling, pending: set<Fingerprint>): Row {
    var attempts := row.pollAttempts + Counts(row, h, pending);
    if attempts > I64_MAX then ClaimedRow(row, owner, until)
    else row.(
      state := NextState(row, h, pending), nextPollMs := NextPoll(row, h, pending), pollAttempts := attempts,
      leaseOwner := None, leaseUntilMs := None, version := SaturatingAdd(SaturatingAdd(row.version, 1), 1))
  }

  lemma OneClaimSettled(
      t: Tables, row: Row, owner: Owner, until: int, id: RowId, h: Handling, pending: set<Fingerprint>)
    requires id in t.orders && t.orders[id] == ClaimedRow(row, owner, until) && IsClaimable(row.state)
    ensures var claim := Claim(id, row.reference, row.state, row.deadlineMs, SaturatingAdd(row.version, 1), owner);
      var settled := t.(orders := t.orders[id := SettledRow(row, owner, until, h, pending)]);
      && AfterWrite(t, claim, Decide(claim, h, pending)) == settled
      && var r := ApplyWrite(t, claim, Decide(claim, h, pending)); r.Ok? || r.error == Database
  {
  }

  /** The tables of an undisturbed cycle after `n` of its claims. */
  ghost predicate CycleDone(
      t: Tables, ids: seq<RowId>, owner: Owner, until: int, hs: seq<Handling>, pending: set<Fingerprint>, n: nat,
      t': Tables)
    requires n <= |ids| <= |hs| && forall id :: id in ids ==> id in t.orders
  {
    && t'.orders.Keys == t.orders.Keys && t'.intents == t.intents && t'.nextId == t.nextId
    && (forall i :: 0 <= i < n ==> t'.orders[ids[i]] == SettledRow(t.orders[ids[i]], owner, until, hs[i], pending))
    && (forall i :: n <= i < |ids| ==> t'.orders[ids[i]] == ClaimedRow(t.orders[ids[i]], owner, until))
    && (forall id :: id in t.orders && id !in ids ==> t'.orders[id] == t.orders[id])
  }

  /**
   * With nobody else at the tables, every handled claim is settled, claims cut off by a shutdown stay
   * leased, and no other row changes.
   */
  lemma {:induction false} UndisturbedCycle(
      t: Tables, now: int, limit: nat, locked: set<RowId>, owner: Owner, until: int, hs: seq<Handling>,
      pending: set<Fingerprint>, n: nat)
    requires n <= |DueRows(t, now, limit, locked, 0)| <= |hs|
    ensures var ids := DueRows(t, now, limit, locked, 0);
      CycleDone(t, ids, owner, until, hs, pending, n,
        Settle(ClaimAll(t, ids, owner, until), Claims(t, ids, owner), hs, pending, n))
  {
    hide ApplyWrite, Decide, SettledRow, ClaimedRow, IsDue, ClaimAll, DueRows, CycleDone;
    var ids := DueRows(t, now, limit, locked, 0);
    var claimed := ClaimAll(t, ids, owner, until);
    if n == 0 {
      AllClaimed(t, ids, owner, until, hs, pending);
    } else {
      UndisturbedCycle(t, now, limit, locked, owner, until, hs, pending, n - 1);
      DueIsClaimable(t, now, limit, locked, n - 1);
      CycleStep(t, ids, owner, until, hs, pending, n, Settle(claimed, Claims(t, ids, owner), hs, pending, n - 1));
      assert Claims(t, ids, owner)[n - 1] == ClaimOf(t, ids[n - 1], owner);
    }
  }

  lemma CycleStep(
      t: Tables, ids: seq<RowId>, owner: Owner, until: int, hs: seq<Handling>, pending: set<Fingerprint>,
      n: nat, before: Tables)
    requires 0 < n <= |ids| <= |hs| && forall id :: id in ids ==> id in t.orders
    requires forall a, b :: 0 <= a < b < |ids| ==> ids[a] < ids[b]
    requires IsClaimable(t.orders[ids[n - 1]].state)
    requires CycleDone(t, ids, owner, until, hs, pending, n - 1, before)
    ensures var claim := ClaimOf(t, ids[n - 1], owner);
      CycleDone(t, ids, owner, until, hs, pending, n, AfterWrite(before, claim, Decide(claim, hs[n - 1], pending)))
  {
    hide ApplyWrite, Decide, SettledRow, ClaimedRow;
    var id := ids[n - 1];
    OneClaimSettled(before, t.orders[id], owner, until, id, hs[n - 1], pending);
    hide AfterWrite, IsClaimable;
    var settled := before.orders[id := SettledRow(t.orders[id], owner, until, hs[n - 1], pending)];
    assert forall i :: 0 <= i < |ids| && i != n - 1 ==> settled[ids[i]] == before.orders[ids[i]];
  }

  lemma DueIsClaimable(t: Tables, now: int, limit: nat, locked: set<RowId>, i: nat)
    requires i < |DueRows(t, now, limit, locked, 0)|
    ensures IsClaimable(t.orders[DueRows(t, now, limit, locked, 0)[i]].state)
  {
  }

  lemma AllClaimed(t: Tables, ids: seq<RowId>, owner: Owner, until: int, hs: seq<Handling>, pending: set<Fingerprint>)
    requires |ids| <= |hs| && forall id :: id in ids ==> id in t.orders
    requires forall a, b :: 0 <= a < b < |ids| ==> ids[a] < ids[b]
    ensures CycleDone(t, ids, owner, until, hs, pending, 0, ClaimAll(t, ids, owner, until))
  {
    StoreRuns.SameNextId(t, ids, owner, until);
    SameIntents(t, ids, owner, until);
    forall i | 0 <= i < |ids|
      ensures ClaimAll(t, ids, owner, until).orders[ids[i]] == ClaimedRow(t.orders[ids[i]], owner, until)
    {
      StoreRuns.ClaimAllRow(t, ids, owner, until, ids[i]);
    }
  }

  lemma {:induction false} SameIntents(t: Tables, ids: seq<RowId>, owner: Owner, until: int)
    requires forall id :: id in ids ==> id in t.orders
    ensures ClaimAll(t, ids, owner, until).intents == t.intents
  {
    if ids != [] {
      SameIntents(t, ids[..|ids| - 1], owner, until);
    }
  }

  // ---------------------------------------------------------------- where verdicts come from

  /** The row is number `i` of the at most 16 rows that a cycle claims, and is handled before the shutdown. */
  predicate Handled(t: Tables, now: int, locked: set<RowId>, shutdownAt: nat, i: int, id: RowId) {
    && Selection.Claimable(t, now, locked, id)
    && i == |Selection.Smaller(t, now, locked, 0, id)|
    && i < 16 && i < shutdownAt
  }

  /** The snapshot came and lists the order without a full code and with no code but the sentinel "0". */
  predicate ShownUndelivered(snapshot: Option<seq<N.ActiveOrder>>, order: Fingerprint) {
    snapshot.Some? && exists shown ::
      shown in snapshot.value && shown.id == order && shown.face.fullCode.None? && shown.face.code in {"", "0"}
  }

  lemma ShownIff(snapshot: Option<seq<N.ActiveOrder>>, order: Fingerprint)
    ensures order in StillPending(snapshot) <==> ShownUndelivered(snapshot, order)
  {
  }

  /** Before its deadline and not shown undelivered by the snapshot, so that its own check decides. */
  predicate CheckDecides(row: Row, h: Handling, snapshot: Option<seq<N.ActiveOrder>>) {
    h.now < row.deadlineMs && !ShownUndelivered(snapshot, row.reference)
  }

  lemma HandledIff(t: Tables, now: int, locked: set<RowId>, shutdownAt: nat, i: int, id: RowId)
    requires Keyed(t)
    ensures var ids := DueRows(t, now, BATCH, locked, 0);
      Handled(t, now, locked, shutdownAt, i, id) <==> 0 <= i < |ids| && i < shutdownAt && ids[i] == id
  {
    hide Selection.Claimable, Selection.Smaller, DueRows;
    var ids := DueRows(t, now, BATCH, locked, 0);
    Selection.DueIff(t, now, BATCH, locked, 0, id);
    if 0 <= i < |ids| {
      Selection.DueAt(t, now, BATCH, locked, 0, i);
    }
    if id in ids {
      var j :| 0 <= j < |ids| && ids[j] == id;
      Selection.DueAt(t, now, BATCH, locked, 0, j);
    }
  }

  /** What a cycle makes of any row: settled if it was handled, and in its old state otherwise. */
  lemma RowAfterCycle(
      t: Tables, owner: Owner, leaseMs: nat, now: int, locked: set<RowId>, pending: set<Fingerprint>,
      hs: seq<Handling>, shutdownAt: nat, id: RowId)
    requires Keyed(t) && |hs| >= BATCH && id in t.orders
    ensures var t' := CycleTables(t, owner, leaseMs, now, locked, pending, hs, shutdownAt);
      && id in t'.orders
      && (forall i :: Handled(t, now, locked, shutdownAt, i, id) ==>
            IsClaimable(t.orders[id].state)
            && t'.orders[id] == SettledRow(t.orders[id], owner, SaturatingAdd(now, leaseMs), hs[i], pending))
      && ((forall i :: !Handled(t, now, locked, shutdownAt, i, id)) ==>
            t'.orders[id].state == t.orders[id].state)
  {
    hide SettledRow, Settle, ClaimAll, DueRows, IsDue, Handled, Keyed;
    var ids, until := DueRows(t, now, BATCH, locked, 0), SaturatingAdd(now, leaseMs);
    var n := Min(shutdownAt, |ids|);
    UndisturbedCycle(t, now, BATCH, locked, owner, until, hs, pending, n);
    forall i | Handled(t, now, locked, shutdownAt, i, id)
      ensures 0 <= i < n && ids[i] == id && IsClaimable(t.orders[id].state)
    {
      HandledIff(t, now, locked, shutdownAt, i, id);
      DueIsClaimable(t, now, BATCH, locked, i);
    }
    if (forall i :: !Handled(t, now, locked, shutdownAt, i, id)) && id in ids {
      var j :| 0 <= j < |ids| && ids[j] == id;
      HandledIff(t, now, locked, shutdownAt, j, id);
    }
  }

  /**
   * Over every row and every cycle: a row is received or terminated afterwards exactly if it was before,
   * or was handled and its own check said so; it is expired exactly if it was, or was handled at its
   * deadline; and no cycle fails a row.
   */
  lemma TerminalOnlyFromCheck(
      t: Tables, owner: Owner, leaseMs: nat, now: int, locked: set<RowId>, snapshot: Option<seq<N.ActiveOrder>>,
      hs: seq<Handling>, shutdownAt: nat, id: RowId)
    requires Keyed(t) && |hs| >= BATCH && id in t.orders && t.orders[id].pollAttempts <= I64_MAX
    ensures var t' := CycleTables(t, owner, leaseMs, now, locked, StillPending(snapshot), hs, shutdownAt);
      var row := t.orders[id];
      && id in t'.orders
      && (t'.orders[id].state == Received <==> row.state == Received || exists i ::
            Handled(t, now, locked, shutdownAt, i, id) && CheckDecides(row, hs[i], snapshot)
            && hs[i].check.Ok? && hs[i].check.value.Received?)
      && (t'.orders[id].state == Terminated <==> row.state == Terminated || exists i ::
            Handled(t, now, locked, shutdownAt, i, id) && CheckDecides(row, hs[i], snapshot)
            && hs[i].check.Ok? && hs[i].check.value.Terminated?)
      && (t'.orders[id].state == Expired <==> row.state == Expired || exists i ::
            Handled(t, now, locked, shutdownAt, i, id) && hs[i].now >= row.deadlineMs)
      && (t'.orders[id].state == Failed <==> row.state == Failed)
  {
    hide CycleTables, ShownUndelivered, StillPending;
    ShownIff(snapshot, t.orders[id].reference);
    RowAfterCycle(t, owner, leaseMs, now, locked, StillPending(snapshot), hs, shutdownAt, id);
    if i :| Handled(t, now, locked, shutdownAt, i, id) {
      HandledOnce(t, now, locked, shutdownAt, id);
    }
    hide Handled;
  }

  lemma HandledOnce(t: Tables, now: int, locked: set<RowId>, shutdownAt: nat, id: RowId)
    ensures forall i, j :: Handled(t, now, locked, shutdownAt, i, id) && Handled(t, now, locked, shutdownAt, j, id) ==>
      i == j
  {
  }

  /** `sms/check` is read-only, so the worker never writes `reconcile_only`: that arm is dead. */
  lemma UnknownArmIsDead(
      c: T.Client, script: seq<T.Attempt>, claim: Claim, h: Handling, pending: set<Fingerprint>)
    requires T.ValidClient(c) && T.ValidScript(c, script)
    requires h.check.Err? ==> T.ExecuteFrom(c, T.ReadOnly, script, 1).result == Err(h.check.error)
    ensures !Decide(claim, h, pending).Reconcile?
  {
    T.ReadOnlyDelivery(c, script, 1);
  }

  /**
   * Over every row and every cycle: a row is reconcile-only afterwards exactly if nobody handled it and
   * it was before, or it was handled, its own check failed, and the mark was there or the check's
   * outcome is unknown; or its attempt counter is full, so that the pending write was refused.
   */
  lemma CycleKeepsMarkIff(
      t: Tables, owner: Owner, leaseMs: nat, now: int, locked: set<RowId>, snapshot: Option<seq<N.ActiveOrder>>,
      hs: seq<Handling>, shutdownAt: nat, id: RowId)
    requires Keyed(t) && |hs| >= BATCH && id in t.orders && t.orders[id].pollAttempts <= I64_MAX
    ensures var t' := CycleTables(t, owner, leaseMs, now, locked, StillPending(snapshot), hs, shutdownAt);
      var row := t.orders[id];
      && id in t'.orders
      && (t'.orders[id].state == ReconcileOnly <==>
            || (row.state == ReconcileOnly && forall i :: !Handled(t, now, locked, shutdownAt, i, id))
            || (exists i :: Handled(t, now, locked, shutdownAt, i, id) && MarksOrKeeps(row, hs[i], snapshot)))
  {
    hide CycleTables, ShownUndelivered, StillPending;
    ShownIff(snapshot, t.orders[id].reference);
    RowAfterCycle(t, owner, leaseMs, now, locked, StillPending(snapshot), hs, shutdownAt, id);
    if i :| Handled(t, now, locked, shutdownAt, i, id) {
      HandledOnce(t, now, locked, shutdownAt, id);
    }
    hide Handled;
  }

  predicate MarksOrKeeps(row: Row, h: Handling, snapshot: Option<seq<N.ActiveOrder>>) {
    || (CheckDecides(row, h, snapshot) && h.check.Err?
        && (row.state == ReconcileOnly || h.check.error.OutcomeUnknown?))
    || (row.state == ReconcileOnly && row.pollAttempts == I64_MAX && h.now < row.deadlineMs
        && (ShownUndelivered(snapshot, row.reference) || (h.check.Ok? && h.check.value.Pending?)))
  }

  /** An order that a cycle leaves open waits five seconds from the reading of its handling. */
  lemma OpenOrdersWait(
      t: Tables, owner: Owner, leaseMs: nat, now: int, locked: set<RowId>, snapshot: Option<seq<N.ActiveOrder>>,
      hs: seq<Handling>, shutdownAt: nat, i: int, id: RowId)
    requires Keyed(t) && |hs| >= BATCH && Handled(t, now, locked, shutdownAt, i, id)
    requires t.orders[id].pollAttempts < I64_MAX
    ensures var t' := CycleTables(t, owner, leaseMs, now, locked, StillPending(snapshot), hs, shutdownAt);
      && id in t'.orders && t'.orders[id].leaseOwner.None?
      && (t'.orders[id].state == Polling || t'.orders[id].state == ReconcileOnly ==>
            t'.orders[id].nextPollMs == hs[i].now + 5_000)
  {
    hide CycleTables, StillPending;
    RowAfterCycle(t, owner, leaseMs, now, locked, StillPending(snapshot), hs, shutdownAt, id);
  }

  // ---------------------------------------------------------------- the example's lease

  /**
   * With its own client the example leases rows for 360 seconds. One call can last 180.36 seconds
   * without ever waiting for admission, so after the snapshot call not even a batch of one row is safe.
   */
  lemma ExampleLeaseIsTooShort(c: T.Client, k: nat)
    requires InFlight.ExampleClient(c) && 1 <= k <= 0xffff_ffff
    ensures var leaseNs := Max(2 * InFlight.MaxInFlight(c), 60_000_000_000);
      var script := InFlight.WorstScript(c, 0);
      && T.ValidClient(c) && T.ValidScript(c, script)
      && LeaseTiming.ReadMs(T.ExecuteFrom(c, T.ReadOnly, script, 1).elapsed) == 180_360
      && LeaseTiming.AcceptLease(leaseNs, InFlight.MaxInFlight(c)) == Ok(360_000)
      && !LeaseTiming.NeverStale(k, 180_360, 360_000)
  {
    hide InFlight.MaxInFlight, T.ExecuteFrom, T.ValidScript, InFlight.WorstScript, LeaseTiming.NeverStale;
    InFlight.DefaultsExceedAdvertised(c);
    BatchBound.BatchBoundIsExact(k, 180_360, 360_000);
  }
}
