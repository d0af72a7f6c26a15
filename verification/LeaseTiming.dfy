/**
 * Leases against a clock that all workers share: how long a claim stays exclusive, and how long a
 * lease must be for a batch that is handled row by row after one snapshot call.
 */
module LeaseTiming {
  import opened Prelude
  import opened OrderTables
  import opened StoreRuns
  import opened StoreLaws

  const NS_PER_MS: nat := 1_000_000

  /** A millisecond clock reading. */
  function ReadMs(ns: nat): nat {
    ns / NS_PER_MS
  }

  /** The lease bound that the store checks at construction. */
  function AcceptLease(leaseNs: nat, minLeaseNs: nat): (r: Result<int, StoreError>)
    ensures r.Ok? ==> 0 < r.value <= I64_MAX && r.value * NS_PER_MS <= leaseNs
    ensures r.Ok? ==> minLeaseNs < r.value * NS_PER_MS
    ensures leaseNs <= minLeaseNs ==> r.Err?
  {
    var leaseMs, minimumMs := ReadMs(leaseNs), ReadMs(minLeaseNs);
    if leaseMs > I64_MAX || leaseMs <= 0 || minimumMs > I64_MAX then Err(InvalidKey)
    else if leaseMs <= minimumMs then Err(LeaseTooShort(leaseMs, minimumMs))
    else Ok(leaseMs)
  }

  /**
   * Exactly the leases that fit and reach the next whole millisecond above the minimum are accepted; a
   * lease that fits but does not reach it is refused with both numbers.
   */
  lemma AcceptedIff(leaseNs: nat, minLeaseNs: nat)
    ensures AcceptLease(leaseNs, minLeaseNs).Ok? <==>
      leaseNs < (0x7fff_ffff_ffff_ffff + 1) * 1_000_000 && leaseNs >= (minLeaseNs / 1_000_000 + 1) * 1_000_000
    ensures AcceptLease(leaseNs, minLeaseNs) == Err(LeaseTooShort(leaseNs / 1_000_000, minLeaseNs / 1_000_000)) <==>
      && 1_000_000 <= leaseNs < (minLeaseNs / 1_000_000 + 1) * 1_000_000
      && minLeaseNs < (0x7fff_ffff_ffff_ffff + 1) * 1_000_000
    ensures AcceptLease(leaseNs, minLeaseNs).Ok? ==>
      AcceptLease(leaseNs, minLeaseNs).value == leaseNs / 1_000_000
  {
    WholeMillis(leaseNs, minLeaseNs / 1_000_000 + 1);
    WholeMillis(leaseNs, I64_MAX + 1);
    WholeMillis(minLeaseNs, I64_MAX + 1);
    WholeMillis(leaseNs, 1);
  }

  lemma WholeMillis(ns: nat, ms: nat)
    ensures ns / 1_000_000 >= ms <==> ns >= ms * 1_000_000
  {
  }

  // ---------------------------------------------------------------- one lease

  /** Slot `slot` still owns its row, with a lease that runs until `until`. */
  ghost predicate Holds(s: Sys, slot: nat, until: int) {
    && slot < |s.held| && IsLive(s.tables, s.held[slot])
    && s.tables.orders[s.held[slot].rowId].leaseUntilMs == Some(until)
  }

  /** The step is not the holder's own, not the lease-breaking test hook, and no claim after expiry. */
  ghost predicate Respects(s: Sys, op: Op, slot: nat, until: int)
    requires slot < |s.held|
  {
    && (op.Release? ==> op.slot != slot)
    && (op.ExpireForTest? ==> op.rowId != s.held[slot].rowId)
    && (op.ClaimDue? ==> op.now <= until)
  }

  lemma StepHolds(s: Sys, op: Op, slot: nat, until: int)
    requires Inv(s) && Holds(s, slot, until) && Respects(s, op, slot, until)
    ensures Holds(Step(s, op), slot, until) && Step(s, op).held[slot] == s.held[slot]
  {
    match op
    case ClaimDue(owner, leaseMs, now, limit, locked, acked) =>
      var ids := DueRows(s.tables, now, limit, locked, 0);
      assert s.held[slot].rowId !in ids;
      ClaimManyKeepsHeld(s, ids, owner, SaturatingAdd(now, leaseMs), acked);
    case Release(other, write, acked) =>
      if other < |s.held| && s.held[other].rowId == s.held[slot].rowId {
        AtMostOneLive(s, other, slot);
      }
    case _ => QuietStepKeepsLease(s.tables, op, s.held[slot].rowId);
  }

  lemma QuietStepKeepsLease(t: Tables, op: Op, id: RowId)
    requires Keyed(t) && id in t.orders && !op.ClaimDue? && !op.Release? && op != ExpireForTest(id)
    ensures id in QuietStep(t, op).orders
    ensures QuietStep(t, op).orders[id].leaseUntilMs == t.orders[id].leaseUntilMs
    ensures QuietStep(t, op).orders[id].leaseOwner == t.orders[id].leaseOwner
    ensures QuietStep(t, op).orders[id].version == t.orders[id].version
  {
  }

  /** While every claiming clock reading is at most the expiry, nobody takes the row away. */
  lemma {:induction false} LeaseIsExclusive(s: Sys, ops: seq<Op>, slot: nat, until: int)
    requires Inv(s) && Holds(s, slot, until) && |Run(s, ops).log| <= I64_MAX
    requires forall i :: 0 <= i < |ops| ==> Respects(s, ops[i], slot, until)
    ensures Holds(Run(s, ops), slot, until) && Run(s, ops).held[slot] == s.held[slot]
  {
    if ops != [] {
      var front, last := ops[..|ops| - 1], ops[|ops| - 1];
      StepLogGrows(Run(s, front), last);
      LeaseIsExclusive(s, front, slot, until);
      RunKeeps(s, front);
      assert Respects(s, last, slot, until);
      StepHolds(Run(s, front), last, slot, until);
    }
  }

  /** What a claim step hands out: live claims whose leases all run until now plus the lease. */
  lemma {:induction false} ClaimHandsOutHolds(s: Sys, ids: seq<RowId>, owner: Owner, until: int, i: nat)
    requires forall id :: id in ids ==> id in s.tables.orders
    requires forall a, b :: 0 <= a < b < |ids| ==> ids[a] != ids[b]
    requires i < |ids|
    ensures var s' := ClaimMany(s, ids, owner, until, true);
      && |s'.held| == |s.held| + |ids| && s'.held[|s.held| + i].rowId == ids[i]
      && Holds(s', |s.held| + i, until)
  {
    hide ClaimMany, ClaimOne, Holds;
    var n := |ids| - 1;
    var before := ClaimMany(s, ids[..n], owner, until, true);
    ClaimManyUnfolds(s, ids, owner, until);
    HandsOut(s, ids, owner, until);
    HandsOut(s, ids[..n], owner, until);
    if i < n {
      ClaimHandsOutHolds(s, ids[..n], owner, until, i);
      ClaimOneKeepsHold(before, ids[n], owner, until, |s.held| + i, until);
    } else {
      ClaimOneHandsOut(before, ids[n], owner, until);
    }
  }

  lemma ClaimManyUnfolds(s: Sys, ids: seq<RowId>, owner: Owner, until: int)
    requires ids != [] && forall id :: id in ids ==> id in s.tables.orders
    ensures ClaimMany(s, ids, owner, until, true)
      == ClaimOne(ClaimMany(s, ids[..|ids| - 1], owner, until, true), ids[|ids| - 1], owner, until, true)
  {
  }

  lemma ClaimOneKeepsHold(s: Sys, id: RowId, owner: Owner, until: int, slot: nat, expiry: int)
    requires id in s.tables.orders && Holds(s, slot, expiry) && s.held[slot].rowId != id
    ensures Holds(ClaimOne(s, id, owner, until, true), slot, expiry)
    ensures ClaimOne(s, id, owner, until, true).held[slot] == s.held[slot]
  {
  }

  lemma ClaimOneHandsOut(s: Sys, id: RowId, owner: Owner, until: int)
    requires id in s.tables.orders
    ensures Holds(ClaimOne(s, id, owner, until, true), |s.held|, until)
    ensures ClaimOne(s, id, owner, until, true).held[|s.held|].rowId == id
  {
  }

  lemma {:induction false} HandsOut(s: Sys, ids: seq<RowId>, owner: Owner, until: int)
    requires forall id :: id in ids ==> id in s.tables.orders
    ensures |ClaimMany(s, ids, owner, until, true).held| == |s.held| + |ids|
  {
    if ids != [] {
      HandsOut(s, ids[..|ids| - 1], owner, until);
    }
  }

  /** A provider call no longer than the accepted minimum lease ends before the lease, in readings too. */
  lemma AcceptedLeaseOutlivesCall(leaseNs: nat, minLeaseNs: nat, claimNs: nat, writeNs: nat)
    requires AcceptLease(leaseNs, minLeaseNs).Ok?
    requires claimNs <= writeNs <= claimNs + minLeaseNs
    ensures ReadMs(writeNs) <= ReadMs(claimNs) + AcceptLease(leaseNs, minLeaseNs).value
  {
    ReadingsAdvance(claimNs, writeNs, AcceptLease(leaseNs, minLeaseNs).value);
  }

  lemma ReadingsAdvance(fromNs: nat, toNs: nat, ms: nat)
    requires toNs <= fromNs + ms * NS_PER_MS
    ensures ReadMs(toNs) <= ReadMs(fromNs) + ms
  {
    assert (fromNs + ms * NS_PER_MS) / NS_PER_MS == fromNs / NS_PER_MS + ms;
  }

  lemma ClaimedBatchHolds(s: Sys, op: Op, k: nat, i: nat)
    requires op.ClaimDue? && op.acked && |Step(s, op).held| == |s.held| + k && i < k
    ensures Holds(Step(s, op), |s.held| + i, SaturatingAdd(op.now, op.leaseMs))
    ensures var ids := DueRows(s.tables, op.now, op.limit, op.locked, 0);
      |ids| == k && Step(s, op).held[|s.held| + i].rowId == ids[i]
  {
    var ids := DueRows(s.tables, op.now, op.limit, op.locked, 0);
    HandsOut(s, ids, op.owner, SaturatingAdd(op.now, op.leaseMs));
    ClaimHandsOutHolds(s, ids, op.owner, SaturatingAdd(op.now, op.leaseMs), i);
  }

  /** The readings of the holder's later competitors: none claims past `writeMs`, and nobody breaks the lease. */
  predicate Competes(op: Op, slot: nat, id: RowId, writeMs: int) {
    && (op.Release? ==> op.slot != slot)
    && (op.ExpireForTest? ==> op.rowId != id)
    && (op.ClaimDue? ==> op.now <= writeMs)
  }

  /**
   * What the bound on the lease is for: a worker that claims, makes one provider call no longer than
   * the accepted minimum and then writes is never told that its claim is stale, whatever others do on
   * the same clock. Only a state guard can refuse the write.
   */
  lemma PromptWriteIsNeverStale(
      ops: seq<Op>, claim: Op, later: seq<Op>, slot: nat,
      leaseNs: nat, minLeaseNs: nat, claimNs: nat, writeNs: nat, write: Write)
    requires AcceptLease(leaseNs, minLeaseNs).Ok? && claimNs <= writeNs <= claimNs + minLeaseNs
    requires ReadMs(writeNs) <= I64_MAX
    requires claim.ClaimDue? && claim.acked
      && claim.leaseMs == AcceptLease(leaseNs, minLeaseNs).value && claim.now == ReadMs(claimNs)
    requires var s := Run(INITIAL, ops);
      && |s.held| <= slot < |Step(s, claim).held| && |Run(Step(s, claim), later).log| < I64_MAX
      && forall op :: op in later ==> Competes(op, slot, Step(s, claim).held[slot].rowId, ReadMs(writeNs))
    ensures var s' := Run(Step(Run(INITIAL, ops), claim), later);
      && slot < |s'.held|
      && ApplyWrite(s'.tables, s'.held[slot], write) != Err(StaleClaim)
      && (ApplyWrite(s'.tables, s'.held[slot], write).Ok? <==> AssignmentFor(s'.held[slot], write).Ok?)
  {
    hide Inv, Step, Run, Holds, ApplyWrite, AcceptLease;
    var s, s1 := Run(INITIAL, ops), Step(Run(INITIAL, ops), claim);
    LogGrows(s1, later);
    StepLogGrows(s, claim);
    RunsAreSound(ops);
    StepKeeps(s, claim);
    var until := SaturatingAdd(claim.now, claim.leaseMs);
    ClaimedSlotHolds(s, claim, slot);
    AcceptedLeaseOutlivesCall(leaseNs, minLeaseNs, claimNs, writeNs);
    assert ReadMs(writeNs) <= until;
    assert slot < |s1.held| by {
      assert Holds(s1, slot, until);
    }
    forall i | 0 <= i < |later| ensures Respects(s1, later[i], slot, until) {
      assert Competes(later[i], slot, s1.held[slot].rowId, ReadMs(writeNs));
    }
    LeaseIsExclusive(s1, later, slot, until);
    RunKeeps(s1, later);
    HeldLeaseIsWritten(Run(s1, later), slot, until, write);
  }

  lemma ClaimedSlotHolds(s: Sys, op: Op, slot: nat)
    requires op.ClaimDue? && op.acked && |s.held| <= slot < |Step(s, op).held|
    ensures Holds(Step(s, op), slot, SaturatingAdd(op.now, op.leaseMs))
  {
    hide DueRows, ClaimMany, Holds, SaturatingAdd, IsDue;
    var ids := DueRows(s.tables, op.now, op.limit, op.locked, 0);
    HandsOut(s, ids, op.owner, SaturatingAdd(op.now, op.leaseMs));
    ClaimHandsOutHolds(s, ids, op.owner, SaturatingAdd(op.now, op.leaseMs), slot - |s.held|);
  }

  lemma HeldLeaseIsWritten(s: Sys, slot: nat, until: int, write: Write)
    requires Inv(s) && |s.log| < I64_MAX && Holds(s, slot, until)
    ensures ApplyWrite(s.tables, s.held[slot], write) != Err(StaleClaim)
    ensures ApplyWrite(s.tables, s.held[slot], write).Ok? <==> AssignmentFor(s.held[slot], write).Ok?
  {
    CountsBounded(s.log, s.held[slot].rowId);
  }

  // ---------------------------------------------------------------- a batch of rows

  /**
   * A run, with the state before and after every step, in which one worker claims a batch at step
   * `claimAt` and writes its row `i` back at step `writes[i]`, while any other workers interleave.
   */
  datatype Schedule = Schedule(ops: seq<Op>, times: seq<int>, states: seq<Sys>, claimAt: nat, writes: seq<nat>)

  ghost predicate IsRun(states: seq<Sys>, ops: seq<Op>) {
    && |states| == |ops| + 1 && states[0] == INITIAL
    && forall n :: 0 <= n < |ops| ==> Follows(states[n], ops[n], states[n + 1])
  }

  ghost predicate Follows(s: Sys, op: Op, s': Sys) {
    s' == Step(s, op)
  }

  /** All workers read one non-decreasing clock. */
  ghost predicate OnClock(ops: seq<Op>, times: seq<int>) {
    && |times| == |ops|
    && (forall i, j :: 0 <= i < j < |times| ==> times[i] <= times[j])
    && (forall i :: 0 <= i < |ops| && ops[i].ClaimDue? ==> ops[i].now == times[i])
  }

  /** The first slot of the batch. */
  ghost function Base(sch: Schedule): nat
    requires sch.claimAt < |sch.states|
  {
    |sch.states[sch.claimAt].held|
  }

  predicate WritesSlot(op: Op, slot: nat) {
    op.Release? && op.slot == slot
  }

  /**
   * One snapshot call and then one check per row, each lasting at most `d`: the write of row `i`
   * comes at most `i + 2` calls after the claim. Nobody else writes through the batch's claims.
   */
  ghost predicate IsBatch(sch: Schedule, k: nat, d: nat, leaseMs: nat) {
    && IsRun(sch.states, sch.ops) && OnClock(sch.ops, sch.times)
    && |sch.states[|sch.ops|].log| <= I64_MAX
    && sch.claimAt < |sch.ops| && |sch.writes| == k
    && sch.ops[sch.claimAt].ClaimDue? && sch.ops[sch.claimAt].acked && sch.ops[sch.claimAt].leaseMs == leaseMs
    && sch.times[sch.claimAt] + leaseMs <= I64_MAX
    && |sch.states[sch.claimAt + 1].held| == Base(sch) + k
    && (forall i :: 0 <= i < k ==>
          && sch.claimAt < sch.writes[i] < |sch.ops|
          && WritesSlot(sch.ops[sch.writes[i]], Base(sch) + i)
          && sch.times[sch.writes[i]] <= sch.times[sch.claimAt] + (i + 2) * d)
    && (forall n :: 0 <= n < |sch.ops| ==> !sch.ops[n].ExpireForTest?)
    && (forall n, i :: 0 <= n < |sch.ops| && 0 <= i < k && WritesSlot(sch.ops[n], Base(sch) + i) ==> n == sch.writes[i])
  }

  /** The write of row `i` finds its claim live. */
  ghost predicate LiveAt(sch: Schedule, i: nat)
    requires sch.claimAt < |sch.states| && i < |sch.writes| && sch.writes[i] < |sch.states|
  {
    var s := sch.states[sch.writes[i]];
    Base(sch) + i < |s.held| && IsLive(s.tables, s.held[Base(sch) + i])
  }

  ghost predicate AllLive(sch: Schedule, k: nat)
    requires sch.claimAt < |sch.states| && |sch.writes| == k
    requires forall i :: 0 <= i < k ==> sch.writes[i] < |sch.states|
  {
    forall i :: 0 <= i < k ==> LiveAt(sch, i)
  }

  ghost predicate NeverStale(k: nat, d: nat, leaseMs: nat) {
    forall sch :: IsBatch(sch, k, d, leaseMs) ==> AllLive(sch, k)
  }
}
