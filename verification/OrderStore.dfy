/**
 * The durable order store as its workers use it: tables updated in place by transactions, and
 * claimed orders that the store's methods update. Every method is tied to the transaction it runs.
 */
module OrderStore {
  import opened Prelude
  import opened OrderTables
  import LeaseTiming
  import Selection = ClaimSelection

  class Database {
    var orders: map<RowId, Row>
    var intents: map<Fingerprint, IntentState>
    var nextId: RowId

    constructor ()
      ensures View() == Tables(map[], map[], 0) && Valid()
    {
      orders, intents, nextId := map[], map[], 0;
    }

    ghost function View(): Tables
      reads this
    {
      Tables(orders, intents, nextId)
    }

    ghost predicate Valid()
      reads this
    {
      Keyed(View())
    }

    /** Lookup through the unique index on the reference. */
    method FindRow(reference: Fingerprint) returns (found: Option<RowId>)
      requires Valid()
      ensures found == RowOf(View(), reference)
    {
      for id := 0 to nextId
        invariant forall i :: 0 <= i < id && i in orders ==> orders[i].reference != reference
      {
        if id in orders && orders[id].reference == reference {
          return Some(id);
        }
      }
      return None;
    }
  }

  /** A claim held by one worker; writing it back moves its version and state along. */
  class ClaimedOrder {
    const rowId: RowId
    const reference: Fingerprint
    const deadlineMs: int
    const owner: Owner
    var state: OrderState
    var version: int

    constructor (claim: Claim)
      ensures View() == claim
    {
      rowId, reference, deadlineMs, owner := claim.rowId, claim.reference, claim.deadlineMs, claim.owner;
      state, version := claim.state, claim.version;
    }

    function View(): Claim
      reads this
    {
      Claim(rowId, reference, state, deadlineMs, version, owner)
    }
  }

  class OrderStore {
    const db: Database
    const owner: Owner
    const leaseMs: nat

    constructor (db: Database, owner: Owner, leaseMs: nat)
      ensures this.db == db && this.owner == owner && this.leaseMs == leaseMs
    {
      this.db, this.owner, this.leaseMs := db, owner, leaseMs;
    }

    /** A store is only built with a lease that outlives `minLeaseNs`. */
    static method FromPool(db: Database, owner: Owner, leaseNs: nat, minLeaseNs: nat)
      returns (r: Result<OrderStore, StoreError>)
      ensures r.Ok? <==> LeaseTiming.AcceptLease(leaseNs, minLeaseNs).Ok?
      ensures r.Err? ==> r.error == LeaseTiming.AcceptLease(leaseNs, minLeaseNs).error
      ensures r.Ok? ==> fresh(r.value) && r.value.db == db && r.value.owner == owner
      ensures r.Ok? ==> minLeaseNs < r.value.leaseMs * LeaseTiming.NS_PER_MS
    {
      var accepted := LeaseTiming.AcceptLease(leaseNs, minLeaseNs);
      match accepted {
        case Err(error) => r := Err(error);
        case Ok(leaseMs) =>
          var store := new OrderStore(db, owner, leaseMs);
          r := Ok(store);
      }
    }

    // -------------------------------------------------------------- claiming

    /** Selects the due rows that no other transaction has locked, then claims them one by one. */
    method ClaimDueAt(now: int, limit: nat, locked: set<RowId>) returns (claims: seq<ClaimedOrder>)
      requires db.Valid()
      modifies db
      ensures db.Valid()
      ensures var t, ids := old(db.View()), DueRows(old(db.View()), now, limit, locked, 0);
        && db.View() == ClaimAll(t, ids, owner, SaturatingAdd(now, leaseMs))
        && |claims| == |ids|
        && forall i :: 0 <= i < |ids| ==> fresh(claims[i]) && claims[i].View() == ClaimOf(t, ids[i], owner)
      ensures forall i, j :: 0 <= i < j < |claims| ==> claims[i] != claims[j]
      ensures forall id :: id in old(db.orders) ==> id in db.orders
      ensures var until := SaturatingAdd(now, leaseMs);
        forall id :: id in old(db.orders) ==>
          db.orders[id] == Selection.RowAfter(old(db.View()), now, limit, locked, owner, until, id)
    {
      hide Keyed, ClaimAll, DueRows, IsDue, ClaimOf, SaturatingAdd, Selection.RowAfter;
      ghost var t := db.View();
      var ids := DueRows(Tables(db.orders, db.intents, db.nextId), now, limit, locked, 0);
      var taken := ClaimSelectedRows(ids, now);
      claims := HandOut(taken);
      forall id | id in t.orders
        ensures id in db.orders
          && db.orders[id] == Selection.RowAfter(t, now, limit, locked, owner, SaturatingAdd(now, leaseMs), id)
      {
        Selection.ClaimTakesChosen(t, now, limit, locked, owner, SaturatingAdd(now, leaseMs), id);
      }
    }

    /** The loop over the selected rows. */
    method ClaimSelectedRows(ids: seq<RowId>, now: int) returns (taken: seq<Claim>)
      requires db.Valid()
      requires forall i :: 0 <= i < |ids| ==> ids[i] in db.orders && IsDue(db.orders[ids[i]], now)
      requires forall i, j :: 0 <= i < j < |ids| ==> ids[i] < ids[j]
      modifies db
      ensures db.Valid() && db.View() == ClaimAll(old(db.View()), ids, owner, SaturatingAdd(now, leaseMs))
      ensures |taken| == |ids| && forall i :: 0 <= i < |ids| ==> taken[i] == ClaimOf(old(db.View()), ids[i], owner)
    {
      hide Keyed, ClaimAll, IsDue, ClaimOf, SaturatingAdd;
      taken := [];
      ghost var t := db.View();
      var selected := db.orders;
      ClaimAllNone(t, owner, SaturatingAdd(now, leaseMs));
      for i := 0 to |ids|
        invariant db.View() == ClaimAll(t, ids[..i], owner, SaturatingAdd(now, leaseMs)) && db.Valid()
        invariant |taken| == i && forall j :: 0 <= j < i ==> taken[j] == ClaimOf(t, ids[j], owner)
      {
        ClaimAllSnoc(t, ids, i, owner, SaturatingAdd(now, leaseMs));
        var claim := ClaimSelected(ids[i], selected[ids[i]], now);
        taken := taken + [claim];
      }
      assert ids[..|ids|] == ids;
    }

    /** The guarded update of one selected row; the row lock makes it always hit. */
    method ClaimSelected(id: RowId, row: Row, now: int) returns (claim: Claim)
      requires db.Valid() && id in db.orders && db.orders[id] == row && IsDue(row, now)
      modifies db
      ensures db.Valid() && db.View() == ClaimRow(old(db.View()), id, owner, SaturatingAdd(now, leaseMs))
      ensures claim == ClaimOf(old(db.View()), id, owner)
    {
      var current := db.orders[id];
      var newVersion := SaturatingAdd(row.version, 1);
      if current.version == row.version && (current.leaseUntilMs.None? || current.leaseUntilMs.value < now) {
        ClaimRowKeepsKeys(db.View(), id, owner, SaturatingAdd(now, leaseMs));
        db.orders := db.orders[id := current.(
          leaseOwner := Some(owner), leaseUntilMs := Some(SaturatingAdd(now, leaseMs)), version := newVersion)];
        claim := Claim(id, row.reference, row.state, row.deadlineMs, newVersion, owner);
      } else {
        assert false;
      }
    }

    /** Every claim becomes a claimed order of its own. */
    method HandOut(taken: seq<Claim>) returns (claims: seq<ClaimedOrder>)
      ensures |claims| == |taken| && forall i :: 0 <= i < |taken| ==> fresh(claims[i]) && claims[i].View() == taken[i]
      ensures forall i, j :: 0 <= i < j < |claims| ==> claims[i] != claims[j]
    {
      claims := [];
      for i := 0 to |taken|
        invariant |claims| == i && forall j :: 0 <= j < i ==> fresh(claims[j]) && claims[j].View() == taken[j]
        invariant forall j, k :: 0 <= j < k < i ==> claims[j] != claims[k]
      {
        var claim := new ClaimedOrder(taken[i]);
        claims := claims + [claim];
      }
    }

    // -------------------------------------------------------------- writing claims back

    /** The outcome of the operation `write` on the old tables and the old claim. */
    twostate predicate Applied(claim: ClaimedOrder, write: Write, new r: Result<(), StoreError>)
      reads db, claim
    {
      match ApplyWrite(old(db.View()), old(claim.View()), write)
      case Err(error) => r == Err(error) && db.View() == old(db.View()) && claim.View() == old(claim.View())
      case Ok(t) =>
        && r == Ok(()) && db.View() == t
        && claim.View() == Updated(old(claim.View()), AssignmentFor(old(claim.View()), write).value)
    }

    method UpdateClaim(claim: ClaimedOrder, a: Assignment) returns (r: Result<(), StoreError>)
      requires db.Valid()
      modifies db, claim
      ensures db.Valid()
      ensures match OrderTables.UpdateClaim(old(db.View()), old(claim.View()), a)
        case Err(error) => r == Err(error) && db.View() == old(db.View()) && claim.View() == old(claim.View())
        case Ok(t) => r == Ok(()) && db.View() == t && claim.View() == Updated(old(claim.View()), a)
    {
      var newVersion := SaturatingAdd(claim.version, 1);
      if claim.rowId !in db.orders {
        return Err(StaleClaim);
      }
      var row := db.orders[claim.rowId];
      if row.leaseOwner != Some(claim.owner) || row.version != claim.version {
        return Err(StaleClaim);
      }
      var attempts := row.pollAttempts + if a.counted then 1 else 0;
      if attempts > I64_MAX {
        return Err(StoreError.Database);
      }
      WriteKeepsKeys(db.View(), claim.View(), a);
      db.orders := db.orders[claim.rowId := row.(
        state := a.state, nextPollMs := a.nextPollMs, pollAttempts := attempts,
        leaseOwner := None, leaseUntilMs := None, version := newVersion)];
      claim.version, claim.state := newVersion, a.state;
      return Ok(());
    }

    method RecordPending(claim: ClaimedOrder, nextPollMs: int) returns (r: Result<(), StoreError>)
      requires db.Valid()
      modifies db, claim
      ensures db.Valid() && Applied(claim, Pending(nextPollMs), r)
    {
      r := UpdateClaim(claim, Assignment(Polling, nextPollMs, true));
    }

    method RecordTerminal(claim: ClaimedOrder, state: OrderState, now: int) returns (r: Result<(), StoreError>)
      requires db.Valid()
      modifies db, claim
      ensures db.Valid() && Applied(claim, Terminal(state, now), r)
    {
      if !state.Received? && !state.Terminated? {
        return Err(InvalidState);
      }
      r := UpdateClaim(claim, Assignment(state, now, false));
    }

    method RecordExpired(claim: ClaimedOrder, now: int) returns (r: Result<(), StoreError>)
      requires db.Valid()
      modifies db, claim
      ensures db.Valid() && Applied(claim, Expire(now), r)
    {
      r := UpdateClaim(claim, Assignment(Expired, now, false));
    }

    method ReleaseForRetry(claim: ClaimedOrder, nextPollMs: int) returns (r: Result<(), StoreError>)
      requires db.Valid()
      modifies db, claim
      ensures db.Valid() && Applied(claim, Retry(nextPollMs), r)
    {
      if !IsClaimable(claim.state) {
        return Err(InvalidState);
      }
      r := UpdateClaim(claim, Assignment(claim.state, nextPollMs, true));
    }

    method ReleaseOrFail(claim: ClaimedOrder, nextPollMs: int) returns (r: Result<(), StoreError>)
      requires db.Valid()
      modifies db, claim
      ensures db.Valid() && Applied(claim, Fail(nextPollMs), r)
    {
      r := UpdateClaim(claim, Assignment(Failed, nextPollMs, false));
    }

    method RecordReconcileOnly(claim: ClaimedOrder, nextPollMs: int) returns (r: Result<(), StoreError>)
      requires db.Valid()
      modifies db, claim
      ensures db.Valid() && Applied(claim, Reconcile(nextPollMs), r)
    {
      r := UpdateClaim(claim, Assignment(ReconcileOnly, nextPollMs, false));
    }

    // -------------------------------------------------------------- orders and intents

    method MarkReconcileOnly(reference: Fingerprint) returns (r: Result<(), StoreError>)
      requires db.Valid()
      modifies db
      ensures db.Valid()
      ensures match OrderTables.MarkReconcileOnly(old(db.View()), reference)
        case Err(error) => r == Err(error) && db.View() == old(db.View())
        case Ok(t) => r == Ok(()) && db.View() == t
    {
      var found := db.FindRow(reference);
      if found.None? || !IsClaimable(db.orders[found.value].state) {
        return Err(StaleClaim);
      }
      db.orders := db.orders[found.value := db.orders[found.value].(state := ReconcileOnly)];
      ChangeKeepsKeys(old(db.View()), db.View());
      return Ok(());
    }

    method RecordPurchase(reference: Fingerprint, deadlineMs: int, now: int)
      requires db.Valid()
      modifies db
      ensures db.Valid() && db.View() == OrderTables.RecordPurchase(old(db.View()), reference, deadlineMs, now)
    {
      var found := db.FindRow(reference);
      if found.None? {
        InsertKeepsKeys(db.View(), FreshRow(reference, None, deadlineMs, now));
        db.orders := db.orders[db.nextId := FreshRow(reference, None, deadlineMs, now)];
        db.nextId := db.nextId + 1;
      }
    }

    /**
     * The statements of the binding transaction in order; leaving early rolls everything back. A
     * second order for one intent violates the unique index and surfaces as a database error.
     */
    method RecordPurchaseForIntent(intent: Fingerprint, reference: Fingerprint, deadlineMs: int, now: int)
      returns (r: Result<(), StoreError>)
      requires db.Valid()
      modifies db
      ensures db.Valid()
      ensures match OrderTables.BindPurchase(old(db.View()), intent, reference, deadlineMs, now)
        case Err(error) => r == Err(error) && db.View() == old(db.View())
        case Ok(t) => r == Ok(()) && db.View() == t
    {
      var taken := exists id :: id in db.orders && db.orders[id].intent == Some(intent);
      var found := db.FindRow(reference);
      var orders, nextId := db.orders, db.nextId;
      if found.None? {
        if taken {
          return Err(StoreError.Database);
        }
        InsertKeepsKeys(db.View(), FreshRow(reference, Some(intent), deadlineMs, now));
        orders := orders[nextId := FreshRow(reference, Some(intent), deadlineMs, now)];
        nextId := nextId + 1;
      } else if orders[found.value].intent.None? {
        if taken {
          return Err(StoreError.Database);
        }
        UpdateKeepsKeys(db.View(), found.value, db.orders[found.value].(intent := Some(intent)));
        orders := orders[found.value := orders[found.value].(intent := Some(intent))];
      } else if orders[found.value].intent != Some(intent) {
        return Err(StaleClaim);
      }
      if intent !in db.intents {
        return Err(StaleClaim);
      }
      db.orders, db.nextId := orders, nextId;
      db.intents := db.intents[intent := IntentResolved];
      return Ok(());
    }

    /** `blank` says that the correlation holds nothing but white space. */
    method RecordPurchaseIntent(blank: bool, correlation: Fingerprint) returns (r: Result<Fingerprint, StoreError>)
      requires db.Valid()
      modifies db
      ensures db.Valid()
      ensures blank ==> r == Err(InvalidCorrelation) && db.View() == old(db.View())
      ensures !blank ==> r == Ok(correlation) && db.View() == RecordIntent(old(db.View()), correlation)
    {
      if blank {
        return Err(InvalidCorrelation);
      }
      if correlation !in db.intents {
        db.intents := db.intents[correlation := IntentPending];
      }
      return Ok(correlation);
    }

    method MarkPurchaseIntentReconcileOnly(correlation: Fingerprint) returns (r: Result<(), StoreError>)
      requires db.Valid()
      modifies db
      ensures db.Valid()
      ensures match MarkIntent(old(db.View()), correlation)
        case Err(error) => r == Err(error) && db.View() == old(db.View())
        case Ok(t) => r == Ok(()) && db.View() == t
    {
      if correlation !in db.intents || db.intents[correlation] != IntentPending {
        return Err(StaleClaim);
      }
      db.intents := db.intents[correlation := IntentReconcileOnly];
      return Ok(());
    }

    method ResolvePurchaseIntent(correlation: Fingerprint) returns (r: Result<(), StoreError>)
      requires db.Valid()
      modifies db
      ensures db.Valid()
      ensures match ResolveIntent(old(db.View()), correlation)
        case Err(error) => r == Err(error) && db.View() == old(db.View())
        case Ok(t) => r == Ok(()) && db.View() == t
    {
      if correlation !in db.intents || db.intents[correlation] == IntentResolved {
        return Err(StaleClaim);
      }
      db.intents := db.intents[correlation := IntentResolved];
      return Ok(());
    }
  }

  // ---------------------------------------------------------------- the unique indexes stay satisfied

  lemma ClaimAllNone(t: Tables, owner: Owner, until: int)
    ensures ClaimAll(t, [], owner, until) == t
  {
  }

  lemma ClaimAllSnoc(t: Tables, ids: seq<RowId>, i: nat, owner: Owner, until: int)
    requires i < |ids| && forall j :: 0 <= j < |ids| ==> ids[j] in t.orders
    requires forall j, k :: 0 <= j < k < |ids| ==> ids[j] < ids[k]
    ensures ClaimAll(t, ids[..i + 1], owner, until)
      == ClaimRow(ClaimAll(t, ids[..i], owner, until), ids[i], owner, until)
    ensures ClaimAll(t, ids[..i], owner, until).orders[ids[i]] == t.orders[ids[i]]
    ensures ClaimOf(ClaimAll(t, ids[..i], owner, until), ids[i], owner) == ClaimOf(t, ids[i], owner)
  {
    assert ids[..i + 1][..i] == ids[..i] && ids[i] !in ids[..i];
  }

  lemma ClaimRowKeepsKeys(t: Tables, id: RowId, owner: Owner, until: int)
    requires Keyed(t) && id in t.orders
    ensures Keyed(ClaimRow(t, id, owner, until))
  {
    ChangeKeepsKeys(t, ClaimRow(t, id, owner, until));
  }

  lemma WriteKeepsKeys(t: Tables, claim: Claim, a: Assignment)
    requires Keyed(t) && OrderTables.UpdateClaim(t, claim, a).Ok?
    ensures Keyed(OrderTables.UpdateClaim(t, claim, a).value)
  {
    ChangeKeepsKeys(t, OrderTables.UpdateClaim(t, claim, a).value);
  }
}
