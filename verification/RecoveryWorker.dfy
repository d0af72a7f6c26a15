/**
 * The example's recovery worker: claim a batch, take one active-orders snapshot, then settle the claims
 * one after another. A cycle that nobody disturbs settles every claim it handles.
 */
module RecoveryWorker {
  import opened Prelude
  import opened OrderTables
  import S = OrderStore
  import P = Polling
  import N = Snapshots
  import T = Transport

  const BATCH: nat := 16
  const RETRY_MS: int := 5_000

  /** The clock and the provider while one claim is handled; `stampedAt` is read by the write itself. */
  datatype Handling = Handling(now: int, check: Result<P.SmsCheck, T.Error>, stampedAt: int)

  function LooksDelivered(order: N.ActiveOrder): bool {
    order.face.fullCode.Some? || (order.face.code != "" && order.face.code != "0")
  }

  /** The orders the snapshot shows as undelivered; a failed snapshot shows none. */
  function StillPending(snapshot: Option<seq<N.ActiveOrder>>): set<Fingerprint> {
    if snapshot.None? then {}
    else set order | order in snapshot.value && !LooksDelivered(order) :: order.id
  }

  function Decide(claim: Claim, h: Handling, pending: set<Fingerprint>): Write {
    if h.now >= claim.deadlineMs then Expire(h.stampedAt)
    else if claim.reference in pending then Pending(h.now + RETRY_MS)
    else
      match h.check
      case Ok(Pending(_)) => Pending(h.now + RETRY_MS)
      case Ok(Received(_)) => Terminal(Received, h.stampedAt)
      case Ok(Terminated(_)) => Terminal(Terminated, h.stampedAt)
      case Err(OutcomeUnknown(_, _)) => Reconcile(h.now + RETRY_MS)
      case Err(_) => Retry(h.now + RETRY_MS)
  }

  /** The tables after the first `n` claims were written back, refused writes changing nothing. */
  function Settle(t: Tables, claims: seq<Claim>, hs: seq<Handling>, pending: set<Fingerprint>, n: nat): Tables
    requires n <= |claims| <= |hs|
  {
    if n == 0 then t
    else
      var before := Settle(t, claims, hs, pending, n - 1);
      AfterWrite(before, claims[n - 1], Decide(claims[n - 1], hs[n - 1], pending))
  }

  function AfterWrite(t: Tables, claim: Claim, write: Write): Tables {
    match ApplyWrite(t, claim, write)
    case Err(_) => t
    case Ok(after) => after
  }

  // ---------------------------------------------------------------- the worker

  method HandleClaim(store: S.OrderStore, claim: S.ClaimedOrder, h: Handling, pending: set<Fingerprint>)
    returns (r: Result<(), StoreError>)
    requires store.db.Valid()
    modifies store.db, claim
    ensures store.db.Valid()
    ensures store.Applied(claim, Decide(old(claim.View()), h, pending), r)
    ensures store.db.View()
      == AfterWrite(old(store.db.View()), old(claim.View()), Decide(old(claim.View()), h, pending))
  {
    if h.now >= claim.deadlineMs {
      r := store.RecordExpired(claim, h.stampedAt);
      return;
    }
    if claim.reference in pending {
      r := store.RecordPending(claim, h.now + RETRY_MS);
      return;
    }
    match h.check {
      case Ok(Pending(_)) => r := store.RecordPending(claim, h.now + RETRY_MS);
      case Ok(Received(_)) => r := store.RecordTerminal(claim, Received, h.stampedAt);
      case Ok(Terminated(_)) => r := store.RecordTerminal(claim, Terminated, h.stampedAt);
      case Err(error) =>
        if error.OutcomeUnknown? {
          r := store.RecordReconcileOnly(claim, h.now + RETRY_MS);
        } else {
          r := store.ReleaseForRetry(claim, h.now + RETRY_MS);
        }
    }
  }

  /** One cycle; a shutdown is noticed before claim number `shutdownAt`. */
  method Cycle(
      store: S.OrderStore, now: int, locked: set<RowId>, snapshot: Option<seq<N.ActiveOrder>>,
      hs: seq<Handling>, shutdownAt: nat)
    requires store.db.Valid() && |hs| >= BATCH
    modifies store.db
    ensures store.db.Valid()
    ensures store.db.View()
      == CycleTables(
        old(store.db.View()), store.owner, store.leaseMs, now, locked, StillPending(snapshot), hs, shutdownAt)
  {
    hide Decide, ApplyWrite, AfterWrite, Keyed, DueRows, ClaimAll, ClaimOf, IsDue, SaturatingAdd, StillPending,
      CycleTables, Settle;
    ghost var t := store.db.View();
    var claims := store.ClaimDueAt(now, BATCH, locked);
    var pending := StillPending(snapshot);
    ghost var views := Claims(t, DueRows(t, now, BATCH, locked, 0), store.owner);
    SettleClaims(store, claims, views, hs, pending, shutdownAt);
    CycleTablesAre(t, store.owner, store.leaseMs, now, locked, pending, hs, shutdownAt);
  }

  /** The loop over the claims of a cycle. */
  method SettleClaims(
      store: S.OrderStore, claims: seq<S.ClaimedOrder>, ghost views: seq<Claim>, hs: seq<Handling>,
      pending: set<Fingerprint>, shutdownAt: nat)
    requires store.db.Valid() && |views| == |claims| <= |hs|
    requires forall j :: 0 <= j < |claims| ==> claims[j].View() == views[j]
    requires forall i, j :: 0 <= i < j < |claims| ==> claims[i] != claims[j]
    modifies store.db, claims
    ensures store.db.Valid()
    ensures store.db.View() == Settle(old(store.db.View()), views, hs, pending, Min(shutdownAt, |views|))
  {
    hide Decide, ApplyWrite, AfterWrite, Keyed;
    ghost var claimed := store.db.View();
    var i := 0;
    while i < |claims| && i < shutdownAt
      invariant 0 <= i <= |claims| && i <= shutdownAt
      invariant store.db.Valid()
      invariant store.db.View() == Settle(claimed, views, hs, pending, i)
      invariant forall j :: i <= j < |claims| ==> claims[j].View() == views[j]
    {
      var _ := HandleClaim(store, claims[i], hs[i], pending);
      i := i + 1;
    }
  }

  lemma CycleTablesAre(
      t: Tables, owner: Owner, leaseMs: nat, now: int, locked: set<RowId>, pending: set<Fingerprint>,
      hs: seq<Handling>, shutdownAt: nat)
    requires |hs| >= BATCH
    ensures var ids := DueRows(t, now, BATCH, locked, 0);
      CycleTables(t, owner, leaseMs, now, locked, pending, hs, shutdownAt) == Settle(
        ClaimAll(t, ids, owner, SaturatingAdd(now, leaseMs)), Claims(t, ids, owner), hs, pending,
        Min(shutdownAt, |ids|))
  {
  }

  /** The tables of one cycle: a batch claimed, and its claims settled in order up to a shutdown. */
  function CycleTables(
      t: Tables, owner: Owner, leaseMs: nat, now: int, locked: set<RowId>, pending: set<Fingerprint>,
      hs: seq<Handling>, shutdownAt: nat): Tables
    requires |hs| >= BATCH
  {
    var ids := DueRows(t, now, BATCH, locked, 0);
    Settle(
      ClaimAll(t, ids, owner, SaturatingAdd(now, leaseMs)), Claims(t, ids, owner), hs, pending, Min(shutdownAt, |ids|))
  }

  function Claims(t: Tables, ids: seq<RowId>, owner: Owner): seq<Claim>
    requires forall id :: id in ids ==> id in t.orders
  {
    seq(|ids|, i requires 0 <= i < |ids| => ClaimOf(t, ids[i], owner))
  }
}
