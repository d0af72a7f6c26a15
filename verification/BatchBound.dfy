/** The exact lease a batch of `k` rows needs: one call more than it has rows. */
module BatchBound {
  import opened Prelude
  import opened OrderTables
  import opened StoreRuns
  import opened StoreLaws
  import opened LeaseTiming
  import opened Delays

  lemma {:induction false} LaterLogs(states: seq<Sys>, ops: seq<Op>, n: nat)
    requires IsRun(states, ops) && n <= |ops| && |states[|ops|].log| <= I64_MAX
    ensures |states[n].log| <= I64_MAX
    decreases |ops| - n
  {
    if n < |ops| {
      LaterLogs(states, ops, n + 1);
      assert Follows(states[n], ops[n], states[n + 1]);
      StepLogGrows(states[n], ops[n]);
    }
  }

  lemma {:induction false} StatesSound(states: seq<Sys>, ops: seq<Op>, n: nat)
    requires IsRun(states, ops) && n <= |ops| && |states[|ops|].log| <= I64_MAX
    ensures Inv(states[n])
  {
    hide Inv, Step;
    if n == 0 {
      InitialIsSound();
    } else {
      StatesSound(states, ops, n - 1);
      LaterLogs(states, ops, n);
      assert Follows(states[n - 1], ops[n - 1], states[n]);
      StepKeeps(states[n - 1], ops[n - 1]);
    }
  }

  // ---------------------------------------------------------------- long enough leases

  lemma {:induction false} BatchHolds(sch: Schedule, k: nat, d: nat, leaseMs: nat, i: nat, n: nat)
    requires IsBatch(sch, k, d, leaseMs) && (k + 1) * d <= leaseMs
    requires i < k && sch.claimAt < n <= sch.writes[i]
    ensures Holds(sch.states[n], Base(sch) + i, sch.times[sch.claimAt] + leaseMs)
  {
    hide Inv, Step, Holds;
    var until := sch.times[sch.claimAt] + leaseMs;
    assert Follows(sch.states[n - 1], sch.ops[n - 1], sch.states[n]);
    StatesSound(sch.states, sch.ops, n - 1);
    if n == sch.claimAt + 1 {
      ClaimedBatchHolds(sch.states[n - 1], sch.ops[n - 1], k, i);
    } else {
      BatchHolds(sch, k, d, leaseMs, i, n - 1);
      assert !WritesSlot(sch.ops[n - 1], Base(sch) + i);
      assert sch.times[n - 1] <= sch.times[sch.writes[i]];
      MulMono(i + 2, k + 1, d);
      StepHolds(sch.states[n - 1], sch.ops[n - 1], Base(sch) + i, until);
    }
  }

  lemma LongLeaseSuffices(sch: Schedule, k: nat, d: nat, leaseMs: nat)
    requires IsBatch(sch, k, d, leaseMs) && (k + 1) * d <= leaseMs
    ensures AllLive(sch, k)
  {
    forall i | 0 <= i < k ensures LiveAt(sch, i) {
      BatchHolds(sch, k, d, leaseMs, i, sch.writes[i]);
    }
  }

  // ---------------------------------------------------------------- a lease that is too short

  /** `k` purchases, a claim of all of them, `k - 1` prompt writes, a re-claim, and the late write. */
  ghost function LateOp(k: nat, d: nat, leaseMs: nat, n: nat): Op
    requires k >= 1
  {
    if n < k then Purchase(n, 0, 0)
    else if n == k then ClaimDue("a", leaseMs, 0, k, {}, true)
    else if n < 2 * k then Release(n - k - 1, Pending((n - k + 1) * d), true)
    else if n == 2 * k then ClaimDue("b", leaseMs, (k + 1) * d, k, {}, true)
    else Release(k - 1, Pending((k + 1) * d), true)
  }

  ghost function LateTime(k: nat, d: nat, n: nat): int {
    if n <= k then 0 else if n < 2 * k then (n - k + 1) * d else (k + 1) * d
  }

  ghost function LateSchedule(k: nat, d: nat, leaseMs: nat): Schedule
    requires k >= 1
  {
    Schedule(
      seq(2 * k + 2, n requires n >= 0 => LateOp(k, d, leaseMs, n)),
      seq(2 * k + 2, n requires n >= 0 => LateTime(k, d, n)),
      seq(2 * k + 3, n requires n >= 0 => Late(k, d, leaseMs, n)),
      k,
      seq(k, i requires i >= 0 => if i < k - 1 then k + 1 + i else 2 * k + 1))
  }

  ghost function Bought(n: nat): Sys {
    Sys(Tables(map id: nat | id < n :: FreshRow(id, None, 0, 0), map[], n), [], [])
  }

  /** The state after the first `n` steps. */
  ghost function Late(k: nat, d: nat, leaseMs: nat, n: nat): Sys
    requires k >= 1
  {
    if n == 0 then INITIAL else Step(Late(k, d, leaseMs, n - 1), LateOp(k, d, leaseMs, n - 1))
  }

  lemma {:induction false} LateBuys(k: nat, d: nat, leaseMs: nat, n: nat)
    requires 1 <= k && n <= k
    ensures Late(k, d, leaseMs, n) == Bought(n)
  {
    hide Step;
    if n > 0 {
      LateBuys(k, d, leaseMs, n - 1);
      BuyOne(n - 1);
    }
  }

  lemma BuyOne(n: nat)
    ensures Step(Bought(n), Purchase(n, 0, 0)) == Bought(n + 1)
  {
    assert RowOf(Bought(n).tables, n).None?;
    assert Bought(n).tables.orders[n := FreshRow(n, None, 0, 0)] == Bought(n + 1).tables.orders;
  }

  lemma {:induction false} AllDue(n: nat, limit: nat, from: nat)
    requires from <= n && limit >= n - from
    ensures DueRows(Bought(n).tables, 0, limit, {}, from) == seq(n - from, i requires i >= 0 => from + i)
    decreases n - from
  {
    if from < n {
      AllDue(n, limit - 1, from + 1);
    }
  }

  lemma DueIsPicked(t: Tables, now: int, limit: nat, from: RowId, id: RowId)
    requires from <= id < t.nextId && id in t.orders && IsDue(t.orders[id], now) && limit >= t.nextId - from
    ensures id in DueRows(t, now, limit, {}, from)
    decreases t.nextId - from
  {
    if from < id {
      DueIsPicked(t, now, if from in t.orders && IsDue(t.orders[from], now) then limit - 1 else limit, from + 1, id);
    }
  }

  lemma {:induction false} LateLogBound(k: nat, d: nat, leaseMs: nat, n: nat)
    requires k >= 1 && n <= 2 * k + 2
    ensures |Late(k, d, leaseMs, n).log| <= n + (if n > k then k else 0) + (if n > 2 * k then k else 0)
  {
    if n > 0 {
      LateLogBound(k, d, leaseMs, n - 1);
      StepLogBound(Late(k, d, leaseMs, n - 1), LateOp(k, d, leaseMs, n - 1));
    }
  }

  lemma StepLogBound(s: Sys, op: Op)
    ensures |Step(s, op).log| <= |s.log| + if op.ClaimDue? then op.limit else 1
  {
    match op
    case ClaimDue(owner, leaseMs, now, limit, locked, acked) =>
      ClaimManyLogSize(s, DueRows(s.tables, now, limit, locked, 0), owner, SaturatingAdd(now, leaseMs), acked);
    case _ =>
  }

  lemma {:induction false} ClaimManyLogSize(s: Sys, ids: seq<RowId>, owner: Owner, until: int, acked: bool)
    requires forall id :: id in ids ==> id in s.tables.orders
    ensures |ClaimMany(s, ids, owner, until, acked).log| == |s.log| + |ids|
  {
    if ids != [] {
      ClaimManyLogSize(s, ids[..|ids| - 1], owner, until, acked);
    }
  }

  lemma {:induction false} LateInv(k: nat, d: nat, leaseMs: nat, n: nat)
    requires 1 <= k <= 0xffff_ffff && n <= 2 * k + 2
    ensures Inv(Late(k, d, leaseMs, n))
  {
    hide Inv, Step, LateOp;
    if n == 0 {
      InitialIsSound();
    } else {
      LateInv(k, d, leaseMs, n - 1);
      LateLogBound(k, d, leaseMs, n);
      StepKeeps(Late(k, d, leaseMs, n - 1), LateOp(k, d, leaseMs, n - 1));
    }
  }

  /** Until the re-claim the last row keeps its first lease and stays due. */
  ghost predicate LastRowWaits(s: Sys, k: nat, leaseMs: nat)
    requires k >= 1
  {
    && |s.held| == k && s.tables.nextId == k && Holds(s, k - 1, leaseMs)
    && (forall j :: 0 <= j < k ==> s.held[j].rowId == j)
    && s.tables.orders[k - 1].state.Polling? && s.tables.orders[k - 1].nextPollMs == 0
    && s.tables.orders[k - 1].version == 1
  }

  lemma {:induction false} LateWaits(k: nat, d: nat, leaseMs: nat, n: nat)
    requires 1 <= k <= 0xffff_ffff && k < n <= 2 * k && leaseMs <= I64_MAX
    ensures LastRowWaits(Late(k, d, leaseMs, n), k, leaseMs)
  {
    hide Step, Inv, LastRowWaits;
    if n == k + 1 {
      LateBuys(k, d, leaseMs, k);
      BatchClaimed(k, leaseMs);
    } else {
      LateWaits(k, d, leaseMs, n - 1);
      LateInv(k, d, leaseMs, n - 1);
      OtherWriteKeepsLast(Late(k, d, leaseMs, n - 1), k, leaseMs, n - k - 2, (n - k) * d);
    }
  }

  lemma BatchClaimed(k: nat, leaseMs: nat)
    requires 1 <= k && leaseMs <= I64_MAX
    ensures LastRowWaits(Step(Bought(k), ClaimDue("a", leaseMs, 0, k, {}, true)), k, leaseMs)
  {
    hide Step, Holds, Bought;
    var s, op := Bought(k), ClaimDue("a", leaseMs, 0, k, {}, true);
    BatchTables(k, leaseMs);
    forall i | 0 <= i < k ensures Step(s, op).held[i].rowId == i && Holds(Step(s, op), i, leaseMs) {
      BatchHeld(k, leaseMs, i);
    }
  }

  lemma BatchTables(k: nat, leaseMs: nat)
    requires 1 <= k
    ensures var s' := Step(Bought(k), ClaimDue("a", leaseMs, 0, k, {}, true));
      && |s'.held| == k && s'.tables.nextId == k && k - 1 in s'.tables.orders
      && s'.tables.orders[k - 1].state.Polling? && s'.tables.orders[k - 1].nextPollMs == 0
      && s'.tables.orders[k - 1].version == 1
  {
    hide DueRows, ClaimAll, ClaimMany, SaturatingAdd;
    var s, until := Bought(k), SaturatingAdd(0, leaseMs);
    AllDue(k, k, 0);
    var ids := DueRows(s.tables, 0, k, {}, 0);
    assert |ids| == k && ids[k - 1] == k - 1;
    HandsOut(s, ids, "a", until);
    ClaimAllRow(s.tables, ids, "a", until, k - 1);
    ClaimManyTables(s, ids, "a", until, true);
    OneMore();
  }

  lemma OneMore()
    ensures SaturatingAdd(0, 1) == 1
  {
  }

  lemma BatchHeld(k: nat, leaseMs: nat, i: nat)
    requires i < k && leaseMs <= I64_MAX
    ensures var s' := Step(Bought(k), ClaimDue("a", leaseMs, 0, k, {}, true));
      |s'.held| == k && s'.held[i].rowId == i && Holds(s', i, leaseMs)
  {
    hide DueRows, ClaimAll, ClaimMany, Holds;
    var s, op := Bought(k), ClaimDue("a", leaseMs, 0, k, {}, true);
    AllDue(k, k, 0);
    HandsOut(s, DueRows(s.tables, 0, k, {}, 0), "a", leaseMs);
    ClaimedBatchHolds(s, op, k, i);
  }

  lemma OtherWriteKeepsLast(s: Sys, k: nat, leaseMs: nat, slot: nat, next: int)
    requires k >= 1 && LastRowWaits(s, k, leaseMs) && slot < k - 1
    ensures LastRowWaits(Step(s, Release(slot, Pending(next), true)), k, leaseMs)
  {
  }

  lemma ReclaimKillsLast(k: nat, d: nat, leaseMs: nat)
    requires 1 <= k <= 0xffff_ffff && leaseMs < (k + 1) * d && leaseMs <= I64_MAX
    ensures var s := Late(k, d, leaseMs, 2 * k + 1);
      |s.held| >= k && !IsLive(s.tables, s.held[k - 1])
  {
    var s := Late(k, d, leaseMs, 2 * k);
    var op := LateOp(k, d, leaseMs, 2 * k);
    LateWaits(k, d, leaseMs, 2 * k);
    DueIsPicked(s.tables, op.now, k, 0, k - 1);
    var ids := DueRows(s.tables, op.now, k, {}, 0);
    ClaimAllRow(s.tables, ids, "b", SaturatingAdd(op.now, leaseMs), k - 1);
    ClaimManyTables(s, ids, "b", SaturatingAdd(op.now, leaseMs), true);
    ClaimManyKeepsHeld(s, ids, "b", SaturatingAdd(op.now, leaseMs), true);
  }

  lemma LateIsBatch(k: nat, d: nat, leaseMs: nat)
    requires 1 <= k <= 0xffff_ffff && leaseMs <= I64_MAX
    ensures IsBatch(LateSchedule(k, d, leaseMs), k, d, leaseMs)
  {
    hide Late, Step, Holds, Inv;
    var sch := LateSchedule(k, d, leaseMs);
    LateLogBound(k, d, leaseMs, 2 * k + 2);
    LateBuys(k, d, leaseMs, k);
    LateWaits(k, d, leaseMs, k + 1);
    LateOnClock(k, d, leaseMs);
    LateIsRun(k, d, leaseMs);
    forall i | 0 <= i < k
      ensures sch.times[sch.writes[i]] <= sch.times[sch.claimAt] + (i + 2) * d
    {
      assert i < k - 1 ==> sch.writes[i] == k + 1 + i;
      assert i == k - 1 ==> (i + 2) * d == (k + 1) * d;
    }
  }

  lemma LateIsRun(k: nat, d: nat, leaseMs: nat)
    requires k >= 1
    ensures IsRun(LateSchedule(k, d, leaseMs).states, LateSchedule(k, d, leaseMs).ops)
  {
    hide Step, LateOp;
    var sch := LateSchedule(k, d, leaseMs);
    forall n | 0 <= n < |sch.ops| ensures Follows(sch.states[n], sch.ops[n], sch.states[n + 1]) {
      assert sch.states[n + 1] == Late(k, d, leaseMs, n + 1);
    }
  }

  lemma LateOnClock(k: nat, d: nat, leaseMs: nat)
    requires k >= 1
    ensures OnClock(LateSchedule(k, d, leaseMs).ops, LateSchedule(k, d, leaseMs).times)
  {
    hide Late, Step;
    var sch := LateSchedule(k, d, leaseMs);
    assert forall i :: 0 <= i < |sch.ops| ==> sch.ops[i] == LateOp(k, d, leaseMs, i);
    forall i: nat, j: nat | i < j < 2 * k + 2 ensures LateTime(k, d, i) <= LateTime(k, d, j) {
      LateTimesGrow(k, d, i, j);
    }
    forall i | 0 <= i < |sch.ops| && sch.ops[i].ClaimDue? ensures sch.ops[i].now == sch.times[i] {
      LateClaimsOnTime(k, d, leaseMs, i);
    }
    hide LateOp, LateTime, LateSchedule;
  }

  lemma LateClaimsOnTime(k: nat, d: nat, leaseMs: nat, i: nat)
    requires k >= 1 && LateOp(k, d, leaseMs, i).ClaimDue?
    ensures LateOp(k, d, leaseMs, i).now == LateTime(k, d, i)
  {
  }

  lemma LateTimesGrow(k: nat, d: nat, i: nat, j: nat)
    requires i < j
    ensures LateTime(k, d, i) <= LateTime(k, d, j)
  {
    if k < i && j < 2 * k {
      MulMono(i - k + 1, j - k + 1, d);
    } else if k < i < 2 * k {
      MulMono(i - k + 1, k + 1, d);
    }
  }

  lemma ShortLeaseFails(k: nat, d: nat, leaseMs: nat)
    requires 1 <= k <= 0xffff_ffff && leaseMs < (k + 1) * d && leaseMs <= I64_MAX
    ensures var sch := LateSchedule(k, d, leaseMs);
      IsBatch(sch, k, d, leaseMs) && !AllLive(sch, k)
  {
    hide Late, Step, IsBatch;
    var sch := LateSchedule(k, d, leaseMs);
    LateIsBatch(k, d, leaseMs);
    ReclaimKillsLast(k, d, leaseMs);
    LateBuys(k, d, leaseMs, k);
    assert sch.writes[k - 1] == 2 * k + 1;
    assert !LiveAt(sch, k - 1);
  }

  /** No batch of `k` rows is ever refused as stale exactly when the lease covers `k + 1` calls. */
  lemma BatchBoundIsExact(k: nat, d: nat, leaseMs: nat)
    requires 1 <= k <= 0xffff_ffff && leaseMs <= I64_MAX
    ensures NeverStale(k, d, leaseMs) <==> (k + 1) * d <= leaseMs
  {
    if (k + 1) * d <= leaseMs {
      forall sch | IsBatch(sch, k, d, leaseMs) ensures AllLive(sch, k) {
        LongLeaseSuffices(sch, k, d, leaseMs);
      }
    } else {
      ShortLeaseFails(k, d, leaseMs);
    }
  }

  /**
   * The example's lease is twice one call, at least a minute: enough for one row after the snapshot,
   * and for its 16-row batches only when a call lasts at most 60000 / 17 milliseconds.
   */
  lemma ExampleSizing(callMs: nat, k: nat)
    requires 1 <= k <= 0xffff_ffff && 0 < callMs && 2 * callMs <= I64_MAX
    ensures NeverStale(k, callMs, Max(2 * callMs, 60_000)) <==> k == 1 || (k + 1) * callMs <= 60_000
  {
    BatchBoundIsExact(k, callMs, Max(2 * callMs, 60_000));
    if k >= 2 {
      MulMono(3, k + 1, callMs);
    }
  }
}
