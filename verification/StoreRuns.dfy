/**
 * Whole runs of the store: any number of workers, equal owner names allowed, every clock reading
 * arbitrary, and every transaction's acknowledgement possibly lost after it committed.
 */
module StoreRuns {
  import opened Prelude
  import opened OrderTables

  /** History kept beside the tables; `slot` numbers the `ClaimedOrder` objects handed out. */
  datatype Event =
    | Claimed(rowId: RowId, holder: Option<nat>)
    | Wrote(rowId: RowId, slot: nat, counted: bool)

  datatype Sys = Sys(tables: Tables, held: seq<Claim>, log: seq<Event>)

  datatype Op =
    | ClaimDue(owner: Owner, leaseMs: nat, now: int, limit: nat, locked: set<RowId>, acked: bool)
    | Release(slot: nat, write: Write, acked: bool)
    | Mark(reference: Fingerprint)
    | Purchase(reference: Fingerprint, deadlineMs: int, now: int)
    | Bind(intent: Fingerprint, reference: Fingerprint, deadlineMs: int, now: int)
    | NewIntent(correlation: Fingerprint)
    | DoubtIntent(correlation: Fingerprint)
    | LegacyResolve(correlation: Fingerprint)
    | ExpireForTest(rowId: RowId)

  ghost const INITIAL := Sys(Tables(map[], map[], 0), [], [])

  ghost function OrElse(r: Result<Tables, StoreError>, t: Tables): Tables {
    if r.Ok? then r.value else t
  }

  ghost function ClaimOne(s: Sys, id: RowId, owner: Owner, until: int, acked: bool): Sys
    requires id in s.tables.orders
  {
    Sys(ClaimRow(s.tables, id, owner, until),
      if acked then s.held + [ClaimOf(s.tables, id, owner)] else s.held,
      s.log + [Claimed(id, if acked then Some(|s.held|) else None)])
  }

  ghost function ClaimMany(s: Sys, ids: seq<RowId>, owner: Owner, until: int, acked: bool): (r: Sys)
    requires forall id :: id in ids ==> id in s.tables.orders
    ensures r.tables.orders.Keys == s.tables.orders.Keys
    ensures forall id :: id in s.tables.orders && id !in ids ==> r.tables.orders[id] == s.tables.orders[id]
  {
    if ids == [] then s
    else ClaimOne(ClaimMany(s, ids[..|ids| - 1], owner, until, acked), ids[|ids| - 1], owner, until, acked)
  }

  /** The tables after a claim step are those of the claiming transaction. */
  lemma {:induction false} ClaimManyTables(s: Sys, ids: seq<RowId>, owner: Owner, until: int, acked: bool)
    requires forall id :: id in ids ==> id in s.tables.orders
    ensures ClaimMany(s, ids, owner, until, acked).tables == ClaimAll(s.tables, ids, owner, until)
  {
    if ids != [] {
      ClaimManyTables(s, ids[..|ids| - 1], owner, until, acked);
    }
  }

  lemma {:induction false} ClaimManyKeepsHeld(s: Sys, ids: seq<RowId>, owner: Owner, until: int, acked: bool)
    requires forall id :: id in ids ==> id in s.tables.orders
    ensures s.held <= ClaimMany(s, ids, owner, until, acked).held
  {
    if ids != [] {
      ClaimManyKeepsHeld(s, ids[..|ids| - 1], owner, until, acked);
    }
  }

  /** A claimed row changes only in its lease and version. */
  lemma ClaimAllRow(t: Tables, ids: seq<RowId>, owner: Owner, until: int, id: RowId)
    requires forall x :: x in ids ==> x in t.orders
    requires forall a, b :: 0 <= a < b < |ids| ==> ids[a] != ids[b]
    requires id in ids
    ensures ClaimAll(t, ids, owner, until).nextId == t.nextId
    ensures ClaimAll(t, ids, owner, until).orders[id] == t.orders[id].(
      leaseOwner := Some(owner), leaseUntilMs := Some(until), version := SaturatingAdd(t.orders[id].version, 1))
  {
    hide ClaimAll, SaturatingAdd;
    SameNextId(t, ids, owner, until);
    var i :| 0 <= i < |ids| && ids[i] == id;
    ClaimedAt(t, ids, owner, until, i, |ids|);
    assert ids[..|ids|] == ids;
  }

  lemma {:induction false} ClaimedAt(t: Tables, ids: seq<RowId>, owner: Owner, until: int, i: nat, m: nat)
    requires forall x :: x in ids ==> x in t.orders
    requires forall a, b :: 0 <= a < b < |ids| ==> ids[a] != ids[b]
    requires i < m <= |ids|
    ensures ClaimAll(t, ids[..m], owner, until).orders[ids[i]] == t.orders[ids[i]].(
      leaseOwner := Some(owner), leaseUntilMs := Some(until), version := SaturatingAdd(t.orders[ids[i]].version, 1))
  {
    hide SaturatingAdd;
    assert ids[..m][..m - 1] == ids[..m - 1] && ids[..m][m - 1] == ids[m - 1];
    if i == m - 1 {
      assert ids[i] !in ids[..i];
    } else {
      ClaimedAt(t, ids, owner, until, i, m - 1);
    }
  }

  lemma {:induction false} SameNextId(t: Tables, ids: seq<RowId>, owner: Owner, until: int)
    requires forall x :: x in ids ==> x in t.orders
    ensures ClaimAll(t, ids, owner, until).nextId == t.nextId
  {
    if ids != [] {
      SameNextId(t, ids[..|ids| - 1], owner, until);
    }
  }

  /** A failed transaction changes nothing; a lost acknowledgement changes only the tables. */
  ghost function ReleaseStep(s: Sys, slot: nat, write: Write, acked: bool): Sys {
    if slot >= |s.held| || ApplyWrite(s.tables, s.held[slot], write).Err? then s
    else
      var claim := s.held[slot];
      var a := AssignmentFor(claim, write).value;
      Sys(UpdateClaim(s.tables, claim, a).value,
        if acked then s.held[slot := Updated(claim, a)] else s.held,
        s.log + [Wrote(claim.rowId, slot, a.counted)])
  }

  ghost function QuietStep(t: Tables, op: Op): Tables {
    match op
    case Mark(reference) => OrElse(MarkReconcileOnly(t, reference), t)
    case Purchase(reference, deadlineMs, now) => RecordPurchase(t, reference, deadlineMs, now)
    case Bind(intent, reference, deadlineMs, now) => OrElse(BindPurchase(t, intent, reference, deadlineMs, now), t)
    case NewIntent(correlation) => RecordIntent(t, correlation)
    case DoubtIntent(correlation) => OrElse(MarkIntent(t, correlation), t)
    case LegacyResolve(correlation) => OrElse(ResolveIntent(t, correlation), t)
    case ExpireForTest(rowId) => ExpireLease(t, rowId)
    case _ => t
  }

  ghost function Step(s: Sys, op: Op): Sys {
    match op
    case ClaimDue(owner, leaseMs, now, limit, locked, acked) =>
      ClaimMany(s, DueRows(s.tables, now, limit, locked, 0), owner, SaturatingAdd(now, leaseMs), acked)
    case Release(slot, write, acked) => ReleaseStep(s, slot, write, acked)
    case _ => s.(tables := QuietStep(s.tables, op))
  }

  ghost function Run(s: Sys, ops: seq<Op>): Sys {
    if ops == [] then s else Step(Run(s, ops[..|ops| - 1]), ops[|ops| - 1])
  }

  // ---------------------------------------------------------------- counting the history

  ghost function Claims(log: seq<Event>, id: RowId): nat {
    if log == [] then 0
    else
      var last := log[|log| - 1];
      Claims(log[..|log| - 1], id) + if last.Claimed? && last.rowId == id then 1 else 0
  }

  ghost function Writes(log: seq<Event>, id: RowId): nat {
    if log == [] then 0
    else
      var last := log[|log| - 1];
      Writes(log[..|log| - 1], id) + if last.Wrote? && last.rowId == id then 1 else 0
  }

  /** Successful pending and retry releases. */
  ghost function CountedWrites(log: seq<Event>, id: RowId): nat {
    if log == [] then 0
    else
      var last := log[|log| - 1];
      CountedWrites(log[..|log| - 1], id) + if last.Wrote? && last.rowId == id && last.counted then 1 else 0
  }

  ghost function WritesBy(log: seq<Event>, slot: nat): nat {
    if log == [] then 0
    else
      var last := log[|log| - 1];
      WritesBy(log[..|log| - 1], slot) + if last.Wrote? && last.slot == slot then 1 else 0
  }

  lemma CountsBounded(log: seq<Event>, id: RowId)
    ensures Claims(log, id) + Writes(log, id) <= |log|
    ensures CountedWrites(log, id) <= Writes(log, id)
    ensures (forall e :: e in log ==> e.rowId != id) ==> Claims(log, id) + Writes(log, id) == 0
  {
  }

  lemma Appended(log: seq<Event>, e: Event)
    ensures forall id :: Claims(log + [e], id) == Claims(log, id) + if e.Claimed? && e.rowId == id then 1 else 0
    ensures forall id :: Writes(log + [e], id) == Writes(log, id) + if e.Wrote? && e.rowId == id then 1 else 0
    ensures forall id ::
      CountedWrites(log + [e], id) == CountedWrites(log, id) + if e.Wrote? && e.rowId == id && e.counted then 1 else 0
    ensures forall slot ::
      WritesBy(log + [e], slot) == WritesBy(log, slot) + if e.Wrote? && e.slot == slot then 1 else 0
  {
    assert (log + [e])[..|log|] == log;
  }

  lemma NeverWrote(log: seq<Event>, slot: nat)
    requires forall e :: e in log && e.Wrote? ==> e.slot != slot
    ensures WritesBy(log, slot) == 0
  {
  }

  // ---------------------------------------------------------------- the invariant

  /** Versions and attempts are what the history says; a lease in force is a claim not yet written. */
  ghost predicate CountInv(s: Sys) {
    forall id :: id in s.tables.orders ==>
      var row := s.tables.orders[id];
      && row.version == Claims(s.log, id) + Writes(s.log, id)
      && row.pollAttempts == CountedWrites(s.log, id)
      && Claims(s.log, id) >= Writes(s.log, id) + if row.leaseOwner.Some? then 1 else 0
  }

  ghost predicate LogInv(s: Sys) {
    && (forall e :: e in s.log ==> e.rowId in s.tables.orders)
    && (forall e :: e in s.log && e.Wrote? ==> e.slot < |s.held| && s.held[e.slot].rowId == e.rowId)
    && (forall e :: e in s.log && e.Claimed? && e.holder.Some? ==>
          e.holder.value < |s.held| && s.held[e.holder.value].rowId == e.rowId)
  }

  /** A claim that can never succeed again: only a claim raises the version and sets an owner. */
  ghost predicate Dead(s: Sys, slot: nat)
    requires slot < |s.held| && s.held[slot].rowId in s.tables.orders
  {
    var row := s.tables.orders[s.held[slot].rowId];
    s.held[slot].version < row.version || row.leaseOwner.None?
  }

  ghost predicate HandleInv(s: Sys) {
    forall i :: 0 <= i < |s.held| ==>
      && s.held[i].rowId in s.tables.orders
      && s.held[i].version <= s.tables.orders[s.held[i].rowId].version
      && Claimed(s.held[i].rowId, Some(i)) in s.log
  }

  /** A claim succeeds at most once and is dead from then on; until then it remembers a claimable state. */
  ghost predicate SpentInv(s: Sys)
    requires HandleInv(s)
  {
    forall i :: 0 <= i < |s.held| ==>
      && WritesBy(s.log, i) <= 1
      && (WritesBy(s.log, i) == 1 ==> Dead(s, i))
      && (WritesBy(s.log, i) == 0 ==> IsClaimable(s.held[i].state))
  }

  /** A claim older than a later claim of its row is behind the row's version. */
  ghost predicate ReclaimInv(s: Sys)
    requires LogInv(s)
  {
    forall p, q :: 0 <= p < q < |s.log| && IsReclaim(s.log, p, q) ==> Behind(s, s.log[p])
  }

  ghost predicate Behind(s: Sys, e: Event)
    requires LogInv(s) && e in s.log && e.Claimed? && e.holder.Some?
  {
    s.held[e.holder.value].version < s.tables.orders[e.rowId].version
  }

  /** Event `q` claims again the row that event `p` handed to some worker. */
  ghost predicate IsReclaim(log: seq<Event>, p: nat, q: nat)
    requires p < |log| && q < |log|
  {
    p < q && log[p].Claimed? && log[p].holder.Some? && log[q].Claimed? && log[q].rowId == log[p].rowId
  }

  /** A terminal row has no lease owner, and an owner always comes with an expiry. */
  ghost predicate LeaseInv(t: Tables) {
    forall id :: id in t.orders ==>
      && (IsTerminal(t.orders[id].state) ==> t.orders[id].leaseOwner.None?)
      && (t.orders[id].leaseOwner.Some? ==> t.orders[id].leaseUntilMs.Some?)
  }

  ghost predicate Inv(s: Sys) {
    && Keyed(s.tables) && LeaseInv(s.tables) && CountInv(s)
    && LogInv(s) && HandleInv(s) && SpentInv(s) && ReclaimInv(s)
  }

  // ---------------------------------------------------------------- every step keeps it

  lemma ClaimOneKeeps(s: Sys, id: RowId, owner: Owner, until: int, acked: bool)
    requires Inv(s) && |s.log| < I64_MAX
    requires id in s.tables.orders && IsClaimable(s.tables.orders[id].state)
    ensures Inv(ClaimOne(s, id, owner, until, acked))
  {
    ClaimOneCounts(s, id, owner, until, acked);
    ClaimOneHandles(s, id, owner, until, acked);
    ClaimOneSpends(s, id, owner, until, acked);
    ClaimOneTables(s.tables, id, owner, until);
    ReclaimStep(s, ClaimOne(s, id, owner, until, acked), Claimed(id, if acked then Some(|s.held|) else None));
  }

  lemma ClaimOneTables(t: Tables, id: RowId, owner: Owner, until: int)
    requires Keyed(t) && LeaseInv(t) && id in t.orders && IsClaimable(t.orders[id].state)
    ensures Keyed(ClaimRow(t, id, owner, until)) && LeaseInv(ClaimRow(t, id, owner, until))
  {
  }

  lemma ClaimOneHandles(s: Sys, id: RowId, owner: Owner, until: int, acked: bool)
    requires CountInv(s) && LogInv(s) && HandleInv(s)
    requires |s.log| < I64_MAX && id in s.tables.orders
    ensures var s' := ClaimOne(s, id, owner, until, acked);
      LogInv(s') && HandleInv(s')
  {
    var s' := ClaimOne(s, id, owner, until, acked);
    ClaimOneCounts(s, id, owner, until, acked);
    hide CountInv;
    assert HandleInv(s') by {
      assert s'.log[|s.log|] == Claimed(id, if acked then Some(|s.held|) else None);
    }
  }

  lemma ClaimOneSpends(s: Sys, id: RowId, owner: Owner, until: int, acked: bool)
    requires CountInv(s) && LogInv(s) && HandleInv(s) && SpentInv(s)
    requires |s.log| < I64_MAX && id in s.tables.orders && IsClaimable(s.tables.orders[id].state)
    ensures var s' := ClaimOne(s, id, owner, until, acked);
      HandleInv(s') && SpentInv(s')
  {
    hide Claims, Writes, CountedWrites, WritesBy;
    ClaimOneHandles(s, id, owner, until, acked);
    ClaimOneCounts(s, id, owner, until, acked);
    hide CountInv;
    NeverWrote(s.log, |s.held|);
    Appended(s.log, Claimed(id, if acked then Some(|s.held|) else None));
  }

  lemma ClaimOneCounts(s: Sys, id: RowId, owner: Owner, until: int, acked: bool)
    requires CountInv(s) && |s.log| < I64_MAX
    requires id in s.tables.orders
    ensures var s' := ClaimOne(s, id, owner, until, acked);
      CountInv(s') && s'.tables.orders[id].version == s.tables.orders[id].version + 1
  {
    hide Claims, Writes, CountedWrites, WritesBy;
    Appended(s.log, Claimed(id, if acked then Some(|s.held|) else None));
    CountsBounded(s.log, id);
  }

  /** One more event keeps older claims behind, provided no version falls and a re-claim raises its own. */
  lemma ReclaimStep(s: Sys, s': Sys, e: Event)
    requires LogInv(s) && LogInv(s') && HandleInv(s) && ReclaimInv(s)
    requires s'.log == s.log + [e] && |s.held| <= |s'.held|
    requires forall id :: id in s.tables.orders ==>
      id in s'.tables.orders && s.tables.orders[id].version <= s'.tables.orders[id].version
    requires e.Claimed? ==>
      && s.held <= s'.held && e.rowId in s.tables.orders
      && s.tables.orders[e.rowId].version < s'.tables.orders[e.rowId].version
    requires forall i :: 0 <= i < |s.held| ==>
      s'.held[i] == s.held[i] || (IsLive(s.tables, s.held[i]) && s'.held[i].rowId == s.held[i].rowId)
    ensures ReclaimInv(s')
  {
    forall p, q | 0 <= p < q < |s'.log| && IsReclaim(s'.log, p, q)
      ensures Behind(s', s'.log[p])
    {
      assert s'.log[p] == s.log[p] && s.log[p] in s.log;
      if q < |s.log| {
        assert IsReclaim(s.log, p, q) && Behind(s, s.log[p]);
      } else {
        assert s'.log[q] == e;
      }
    }
  }

  lemma {:induction false} ClaimManyKeeps(s: Sys, ids: seq<RowId>, owner: Owner, until: int, acked: bool)
    requires forall id :: id in ids ==> id in s.tables.orders && IsClaimable(s.tables.orders[id].state)
    requires Inv(s) && |ClaimMany(s, ids, owner, until, acked).log| <= I64_MAX
    ensures Inv(ClaimMany(s, ids, owner, until, acked))
    ensures forall id :: id in s.tables.orders ==>
      ClaimMany(s, ids, owner, until, acked).tables.orders[id].state == s.tables.orders[id].state
  {
    if ids != [] {
      ClaimManyKeeps(s, ids[..|ids| - 1], owner, until, acked);
      ClaimOneKeeps(ClaimMany(s, ids[..|ids| - 1], owner, until, acked), ids[|ids| - 1], owner, until, acked);
    }
  }

  lemma ReleaseKeeps(s: Sys, slot: nat, write: Write, acked: bool)
    requires Inv(s) && |s.log| < I64_MAX
    ensures Inv(ReleaseStep(s, slot, write, acked))
  {
    hide Keyed, LeaseInv, CountInv, LogInv, SpentInv, ReclaimInv;
    if slot < |s.held| && ApplyWrite(s.tables, s.held[slot], write).Ok? {
      var e := Wrote(s.held[slot].rowId, slot, AssignmentFor(s.held[slot], write).value.counted);
      ReleaseCounts(s, slot, write, acked);
      ReleaseHandles(s, slot, write, acked);
      ReleaseSpends(s, slot, write, acked);
      ReleaseTables(s.tables, s.held[slot], write);
      ReclaimStep(s, ReleaseStep(s, slot, write, acked), e);
    }
  }

  lemma ReleaseTables(t: Tables, claim: Claim, write: Write)
    requires Keyed(t) && LeaseInv(t) && ApplyWrite(t, claim, write).Ok?
    ensures Keyed(ApplyWrite(t, claim, write).value) && LeaseInv(ApplyWrite(t, claim, write).value)
  {
  }

  lemma ReleaseHandles(s: Sys, slot: nat, write: Write, acked: bool)
    requires CountInv(s) && LogInv(s) && HandleInv(s) && |s.log| < I64_MAX
    requires slot < |s.held| && ApplyWrite(s.tables, s.held[slot], write).Ok?
    ensures var s' := ReleaseStep(s, slot, write, acked);
      LogInv(s') && HandleInv(s')
  {
    ReleaseLogs(s, slot, write, acked);
    ReleaseCounts(s, slot, write, acked);
    hide CountInv, AssignmentFor, LogInv;
  }

  lemma ReleaseLogs(s: Sys, slot: nat, write: Write, acked: bool)
    requires LogInv(s) && HandleInv(s) && slot < |s.held| && ApplyWrite(s.tables, s.held[slot], write).Ok?
    ensures LogInv(ReleaseStep(s, slot, write, acked))
  {
    hide AssignmentFor;
    assert s.held[slot].rowId in s.tables.orders;
    hide HandleInv;
  }

  lemma ReleaseSpends(s: Sys, slot: nat, write: Write, acked: bool)
    requires CountInv(s) && LogInv(s) && HandleInv(s) && SpentInv(s) && |s.log| < I64_MAX
    requires slot < |s.held| && ApplyWrite(s.tables, s.held[slot], write).Ok?
    ensures var s' := ReleaseStep(s, slot, write, acked);
      HandleInv(s') && SpentInv(s')
  {
    hide Claims, Writes, CountedWrites, WritesBy;
    var s' := ReleaseStep(s, slot, write, acked);
    ReleaseHandles(s, slot, write, acked);
    ReleaseCounts(s, slot, write, acked);
    hide CountInv, LogInv;
    Appended(s.log, Wrote(s.held[slot].rowId, slot, AssignmentFor(s.held[slot], write).value.counted));
    forall i | 0 <= i < |s'.held|
      ensures WritesBy(s'.log, i) <= 1 && (WritesBy(s'.log, i) == 1 ==> Dead(s', i))
      ensures WritesBy(s'.log, i) == 0 ==> IsClaimable(s'.held[i].state)
    {
      assert i != slot ==> s'.held[i] == s.held[i];
    }
  }

  lemma ReleaseCounts(s: Sys, slot: nat, write: Write, acked: bool)
    requires CountInv(s) && |s.log| < I64_MAX
    requires slot < |s.held| && ApplyWrite(s.tables, s.held[slot], write).Ok?
    ensures var s', id := ReleaseStep(s, slot, write, acked), s.held[slot].rowId;
      CountInv(s') && s'.tables.orders[id].version == s.tables.orders[id].version + 1
  {
    hide Claims, Writes, CountedWrites, WritesBy;
    Appended(s.log, Wrote(s.held[slot].rowId, slot, AssignmentFor(s.held[slot], write).value.counted));
    CountsBounded(s.log, s.held[slot].rowId);
  }

  /** Leaves every version, owner, attempt count and terminal state alone; new rows start fresh. */
  ghost predicate Quiet(t: Tables, t': Tables) {
    && (forall id :: id in t.orders ==>
          && id in t'.orders
          && t'.orders[id].version == t.orders[id].version
          && t'.orders[id].pollAttempts == t.orders[id].pollAttempts
          && t'.orders[id].leaseOwner == t.orders[id].leaseOwner
          && t'.orders[id].reference == t.orders[id].reference
          && (t.orders[id].leaseUntilMs.Some? ==> t'.orders[id].leaseUntilMs.Some?)
          && (IsTerminal(t.orders[id].state) || IsTerminal(t'.orders[id].state) ==>
                t'.orders[id].state == t.orders[id].state))
    && (forall id :: id in t'.orders && id !in t.orders ==>
          && t'.orders[id].version == 0 && t'.orders[id].pollAttempts == 0
          && t'.orders[id].leaseOwner.None? && t'.orders[id].state.Polling?)
  }

  lemma QuietStepIsQuiet(t: Tables, op: Op)
    requires Keyed(t)
    ensures Quiet(t, QuietStep(t, op)) && Keyed(QuietStep(t, op))
  {
    match op
    case Mark(reference) => MarkIsQuiet(t, reference);
    case Purchase(reference, deadlineMs, now) =>
      if RowOf(t, reference).None? {
        InsertIsQuiet(t, FreshRow(reference, None, deadlineMs, now));
      }
    case Bind(intent, reference, deadlineMs, now) => BindIsQuiet(t, intent, reference, deadlineMs, now);
    case ExpireForTest(id) =>
      if id in t.orders {
        UpdateKeepsKeys(t, id, t.orders[id].(leaseUntilMs := Some(0)));
      }
    case _ => SameOrdersQuiet(t, QuietStep(t, op));
  }

  lemma SameOrdersQuiet(t: Tables, t': Tables)
    requires Keyed(t) && t'.orders == t.orders && t'.nextId == t.nextId
    ensures Quiet(t, t') && Keyed(t')
  {
  }

  lemma InsertIsQuiet(t: Tables, row: Row)
    requires Keyed(t) && RowOf(t, row.reference).None?
    requires row.version == 0 && row.pollAttempts == 0 && row.leaseOwner.None? && row.state.Polling?
    requires row.intent.None? || !IsBound(t, row.intent.value)
    ensures Quiet(t, Insert(t, row)) && Keyed(Insert(t, row))
  {
    assert t.nextId !in t.orders;
    InsertKeepsKeys(t, row);
  }

  lemma MarkIsQuiet(t: Tables, reference: Fingerprint)
    requires Keyed(t)
    ensures var t' := OrElse(MarkReconcileOnly(t, reference), t);
      Quiet(t, t') && Keyed(t')
  {
    var found := RowOf(t, reference);
    if found.Some? {
      UpdateKeepsKeys(t, found.value, t.orders[found.value].(state := ReconcileOnly));
    }
  }

  lemma BindIsQuiet(t: Tables, intent: Fingerprint, reference: Fingerprint, deadlineMs: int, now: int)
    requires Keyed(t)
    ensures var t' := OrElse(BindPurchase(t, intent, reference, deadlineMs, now), t);
      Quiet(t, t') && Keyed(t')
  {
    var found := RowOf(t, reference);
    if !IsBound(t, intent) {
      if found.Some? {
        UpdateKeepsKeys(t, found.value, t.orders[found.value].(intent := Some(intent)));
      } else {
        InsertIsQuiet(t, FreshRow(reference, Some(intent), deadlineMs, now));
      }
    }
  }

  lemma QuietKeeps(s: Sys, t': Tables)
    requires Inv(s) && Quiet(s.tables, t') && Keyed(t')
    ensures Inv(s.(tables := t'))
  {
    var s' := s.(tables := t');
    forall id | id in t'.orders && id !in s.tables.orders
      ensures Claims(s.log, id) + Writes(s.log, id) == 0 && CountedWrites(s.log, id) == 0
    {
      CountsBounded(s.log, id);
    }
    assert CountInv(s');
    assert LogInv(s') && HandleInv(s');
    forall p, q | 0 <= p < q < |s.log| && IsReclaim(s.log, p, q) ensures Behind(s', s.log[p]) {
      assert Behind(s, s.log[p]);
    }
  }

  lemma StepKeeps(s: Sys, op: Op)
    requires Inv(s) && |Step(s, op).log| <= I64_MAX
    ensures Inv(Step(s, op))
  {
    match op
    case ClaimDue(owner, leaseMs, now, limit, locked, acked) =>
      ClaimManyKeeps(s, DueRows(s.tables, now, limit, locked, 0), owner, SaturatingAdd(now, leaseMs), acked);
    case Release(slot, write, acked) =>
      if ReleaseStep(s, slot, write, acked) != s {
        ReleaseKeeps(s, slot, write, acked);
      }
    case _ =>
      QuietStepIsQuiet(s.tables, op);
      QuietKeeps(s, QuietStep(s.tables, op));
  }

  lemma {:induction false} LogGrows(s: Sys, ops: seq<Op>)
    ensures s.log <= Run(s, ops).log
  {
    if ops != [] {
      var front := Run(s, ops[..|ops| - 1]);
      LogGrows(s, ops[..|ops| - 1]);
      StepLogGrows(front, ops[|ops| - 1]);
    }
  }

  lemma StepLogGrows(s: Sys, op: Op)
    ensures s.log <= Step(s, op).log
  {
    match op
    case ClaimDue(owner, leaseMs, now, limit, locked, acked) =>
      ClaimManyLogGrows(s, DueRows(s.tables, now, limit, locked, 0), owner, SaturatingAdd(now, leaseMs), acked);
    case _ =>
  }

  lemma ClaimManyLogGrows(s: Sys, ids: seq<RowId>, owner: Owner, until: int, acked: bool)
    requires forall id :: id in ids ==> id in s.tables.orders
    ensures s.log <= ClaimMany(s, ids, owner, until, acked).log
  {
    if ids != [] {
      ClaimManyLogGrows(s, ids[..|ids| - 1], owner, until, acked);
    }
  }

  lemma {:induction false} RunKeeps(s: Sys, ops: seq<Op>)
    requires Inv(s) && |Run(s, ops).log| <= I64_MAX
    ensures Inv(Run(s, ops))
  {
    if ops != [] {
      var front := ops[..|ops| - 1];
      StepLogGrows(Run(s, front), ops[|ops| - 1]);
      RunKeeps(s, front);
      StepKeeps(Run(s, front), ops[|ops| - 1]);
    }
  }

  lemma RunSnoc(s: Sys, ops: seq<Op>, op: Op)
    ensures Run(s, ops + [op]) == Step(Run(s, ops), op)
  {
    hide Step;
    assert (ops + [op])[..|ops|] == ops;
  }
}
