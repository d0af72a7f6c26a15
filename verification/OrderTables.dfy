/**
 * The two tables behind the durable order store and the effect of every SQL transaction on them.
 * Fingerprints are keyed hashes; they are abstracted to integers.
 */
module OrderTables {
  import opened Prelude

  type RowId = nat
  type Fingerprint = int
  type Owner = string

  datatype OrderState = Polling | Received | Terminated | Expired | ReconcileOnly | Failed

  datatype IntentState = IntentPending | IntentReconcileOnly | IntentResolved

  datatype StoreError =
    | Database
    | InvalidKey
    | StaleClaim
    | InvalidState
    | InvalidCorrelation
    | LeaseTooShort(leaseMs: int, minimumMs: int)

  datatype Row = Row(
    reference: Fingerprint,
    intent: Option<Fingerprint>,
    state: OrderState,
    deadlineMs: int,
    nextPollMs: int,
    pollAttempts: int,
    leaseOwner: Option<Owner>,
    leaseUntilMs: Option<int>,
    version: int)

  datatype Tables = Tables(orders: map<RowId, Row>, intents: map<Fingerprint, IntentState>, nextId: RowId)

  /** What a worker remembers of a row it claimed. */
  datatype Claim = Claim(
    rowId: RowId, reference: Fingerprint, state: OrderState, deadlineMs: int, version: int, owner: Owner)

  predicate IsClaimable(state: OrderState) {
    state.Polling? || state.ReconcileOnly?
  }

  predicate IsTerminal(state: OrderState) {
    !IsClaimable(state)
  }

  predicate SameIntent(a: Row, b: Row) {
    a.intent.Some? && a.intent == b.intent
  }

  /** The two unique indexes, and fresh row ids. */
  ghost predicate Keyed(t: Tables) {
    && (forall id :: id in t.orders ==> id < t.nextId)
    && (forall i, j :: i in t.orders && j in t.orders && t.orders[i].reference == t.orders[j].reference ==> i == j)
    && (forall i, j :: i in t.orders && j in t.orders && SameIntent(t.orders[i], t.orders[j]) ==> i == j)
  }

  // ---------------------------------------------------------------- claiming

  predicate IsDue(row: Row, now: int) {
    && IsClaimable(row.state)
    && row.nextPollMs <= now
    && (row.leaseUntilMs.None? || row.leaseUntilMs.value < now)
  }

  /** `ORDER BY id FOR UPDATE SKIP LOCKED LIMIT`: other transactions hold the `locked` rows. */
  function DueRows(t: Tables, now: int, limit: nat, locked: set<RowId>, from: RowId): (ids: seq<RowId>)
    ensures |ids| <= limit
    ensures forall i :: 0 <= i < |ids| ==>
      from <= ids[i] && ids[i] in t.orders && IsDue(t.orders[ids[i]], now) && ids[i] !in locked
    ensures forall i, j :: 0 <= i < j < |ids| ==> ids[i] < ids[j]
    decreases t.nextId - from
  {
    if limit == 0 || from >= t.nextId then []
    else if from in t.orders && IsDue(t.orders[from], now) && from !in locked then
      [from] + DueRows(t, now, limit - 1, locked, from + 1)
    else DueRows(t, now, limit, locked, from + 1)
  }

  function ClaimRow(t: Tables, id: RowId, owner: Owner, leaseUntilMs: int): Tables
    requires id in t.orders
  {
    var row := t.orders[id];
    t.(orders := t.orders[id := row.(
      leaseOwner := Some(owner), leaseUntilMs := Some(leaseUntilMs), version := SaturatingAdd(row.version, 1))])
  }

  /** The claim handed out for a row read before the claiming update. */
  function ClaimOf(t: Tables, id: RowId, owner: Owner): Claim
    requires id in t.orders
  {
    var row := t.orders[id];
    Claim(id, row.reference, row.state, row.deadlineMs, SaturatingAdd(row.version, 1), owner)
  }

  function ClaimAll(t: Tables, ids: seq<RowId>, owner: Owner, leaseUntilMs: int): (r: Tables)
    requires forall id :: id in ids ==> id in t.orders
    ensures r.orders.Keys == t.orders.Keys
    ensures forall id :: id in t.orders && id !in ids ==> r.orders[id] == t.orders[id]
  {
    if ids == [] then t
    else ClaimRow(ClaimAll(t, ids[..|ids| - 1], owner, leaseUntilMs), ids[|ids| - 1], owner, leaseUntilMs)
  }

  // ---------------------------------------------------------------- writing a claim back

  /** The public operations that consume a claim. */
  datatype Write =
    | Pending(nextPollMs: int)
    | Terminal(state: OrderState, now: int)
    | Expire(now: int)
    | Retry(nextPollMs: int)
    | Fail(nextPollMs: int)
    | Reconcile(nextPollMs: int)

  datatype Assignment = Assignment(state: OrderState, nextPollMs: int, counted: bool)

  /** The column values each operation passes on, and the guards it applies first. */
  function AssignmentFor(claim: Claim, write: Write): Result<Assignment, StoreError> {
    match write
    case Pending(next) => Ok(Assignment(Polling, next, true))
    case Terminal(state, now) =>
      if state.Received? || state.Terminated? then Ok(Assignment(state, now, false)) else Err(InvalidState)
    case Expire(now) => Ok(Assignment(Expired, now, false))
    case Retry(next) =>
      if IsClaimable(claim.state) then Ok(Assignment(claim.state, next, true)) else Err(InvalidState)
    case Fail(next) => Ok(Assignment(Failed, next, false))
    case Reconcile(next) => Ok(Assignment(ReconcileOnly, next, false))
  }

  /** The row still carries the claim's owner and version. */
  predicate IsLive(t: Tables, claim: Claim) {
    && claim.rowId in t.orders
    && t.orders[claim.rowId].leaseOwner == Some(claim.owner)
    && t.orders[claim.rowId].version == claim.version
  }

  function UpdateClaim(t: Tables, claim: Claim, a: Assignment): Result<Tables, StoreError> {
    if !IsLive(t, claim) then Err(StaleClaim)
    else
      var row := t.orders[claim.rowId];
      var attempts := row.pollAttempts + if a.counted then 1 else 0;
      if attempts > I64_MAX then Err(Database)
      else Ok(t.(orders := t.orders[claim.rowId := row.(
        state := a.state, nextPollMs := a.nextPollMs, pollAttempts := attempts,
        leaseOwner := None, leaseUntilMs := None, version := SaturatingAdd(claim.version, 1))]))
  }

  function Updated(claim: Claim, a: Assignment): Claim {
    claim.(version := SaturatingAdd(claim.version, 1), state := a.state)
  }

  function ApplyWrite(t: Tables, claim: Claim, write: Write): Result<Tables, StoreError> {
    match AssignmentFor(claim, write)
    case Err(error) => Err(error)
    case Ok(a) => UpdateClaim(t, claim, a)
  }

  // ---------------------------------------------------------------- rows by reference

  ghost function RowOf(t: Tables, reference: Fingerprint): (r: Option<RowId>)
    ensures r.Some? ==> r.value in t.orders && t.orders[r.value].reference == reference
    ensures r.None? ==> forall id :: id in t.orders ==> t.orders[id].reference != reference
  {
    if id :| id in t.orders && t.orders[id].reference == reference then Some(id) else None
  }

  function FreshRow(reference: Fingerprint, intent: Option<Fingerprint>, deadlineMs: int, now: int): Row {
    Row(reference, intent, Polling, deadlineMs, now, 0, None, None, 0)
  }

  function Insert(t: Tables, row: Row): Tables {
    t.(orders := t.orders[t.nextId := row], nextId := t.nextId + 1)
  }

  ghost function MarkReconcileOnly(t: Tables, reference: Fingerprint): Result<Tables, StoreError> {
    var found := RowOf(t, reference);
    if found.None? || !IsClaimable(t.orders[found.value].state) then Err(StaleClaim)
    else Ok(t.(orders := t.orders[found.value := t.orders[found.value].(state := ReconcileOnly)]))
  }

  ghost function RecordPurchase(t: Tables, reference: Fingerprint, deadlineMs: int, now: int): Tables {
    if RowOf(t, reference).Some? then t else Insert(t, FreshRow(reference, None, deadlineMs, now))
  }

  function ExpireLease(t: Tables, id: RowId): Tables {
    if id in t.orders then t.(orders := t.orders[id := t.orders[id].(leaseUntilMs := Some(0))]) else t
  }

  // ---------------------------------------------------------------- purchase intents

  predicate IsBound(t: Tables, intent: Fingerprint) {
    exists id :: id in t.orders && t.orders[id].intent == Some(intent)
  }

  function RecordIntent(t: Tables, correlation: Fingerprint): Tables {
    if correlation in t.intents then t else t.(intents := t.intents[correlation := IntentPending])
  }

  function MarkIntent(t: Tables, correlation: Fingerprint): Result<Tables, StoreError> {
    if correlation in t.intents && t.intents[correlation].IntentPending? then
      Ok(t.(intents := t.intents[correlation := IntentReconcileOnly]))
    else Err(StaleClaim)
  }

  /** The legacy, unbound resolution. */
  function ResolveIntent(t: Tables, correlation: Fingerprint): Result<Tables, StoreError> {
    if correlation in t.intents && !t.intents[correlation].IntentResolved? then
      Ok(t.(intents := t.intents[correlation := IntentResolved]))
    else Err(StaleClaim)
  }

  function Resolved(t: Tables, intent: Fingerprint): Result<Tables, StoreError> {
    if intent in t.intents then Ok(t.(intents := t.intents[intent := IntentResolved])) else Err(StaleClaim)
  }

  /** One transaction: insert or find the order, bind it to the intent, resolve the intent. */
  ghost function BindPurchase(t: Tables, intent: Fingerprint, reference: Fingerprint, deadlineMs: int, now: int)
    : Result<Tables, StoreError>
  {
    match RowOf(t, reference)
    case None =>
      if IsBound(t, intent) then Err(Database)
      else Resolved(Insert(t, FreshRow(reference, Some(intent), deadlineMs, now)), intent)
    case Some(id) =>
      match t.orders[id].intent
      case None =>
        if IsBound(t, intent) then Err(Database)
        else Resolved(t.(orders := t.orders[id := t.orders[id].(intent := Some(intent))]), intent)
      case Some(other) => if other == intent then Resolved(t, intent) else Err(StaleClaim)
  }

  // ---------------------------------------------------------------- the unique indexes stay satisfied

  lemma ChangeKeepsKeys(t: Tables, t': Tables)
    requires Keyed(t) && t'.orders.Keys == t.orders.Keys && t'.nextId == t.nextId
    requires forall id :: id in t.orders ==>
      t'.orders[id].reference == t.orders[id].reference && t'.orders[id].intent == t.orders[id].intent
    ensures Keyed(t')
  {
    forall i, j | i in t'.orders && j in t'.orders && SameIntent(t'.orders[i], t'.orders[j]) ensures i == j {
      assert SameIntent(t.orders[i], t.orders[j]);
    }
  }

  lemma UpdateKeepsKeys(t: Tables, id: RowId, row: Row)
    requires Keyed(t) && id in t.orders && row.reference == t.orders[id].reference
    requires row.intent == t.orders[id].intent || (row.intent.Some? && !IsBound(t, row.intent.value))
    ensures Keyed(t.(orders := t.orders[id := row]))
  {
    var t' := t.(orders := t.orders[id := row]);
    forall i, j | i in t'.orders && j in t'.orders && SameIntent(t'.orders[i], t'.orders[j]) ensures i == j {
      assert i != id && j != id ==> SameIntent(t.orders[i], t.orders[j]);
      assert row.intent == t.orders[id].intent ==> SameIntent(t.orders[i], t.orders[j]);
    }
  }

  lemma InsertKeepsKeys(t: Tables, row: Row)
    requires Keyed(t) && RowOf(t, row.reference).None?
    requires row.intent.None? || !IsBound(t, row.intent.value)
    ensures Keyed(Insert(t, row))
  {
    var t' := Insert(t, row);
    forall i, j | i in t'.orders && j in t'.orders && SameIntent(t'.orders[i], t'.orders[j]) ensures i == j {
      assert i != t.nextId && j != t.nextId ==> SameIntent(t.orders[i], t.orders[j]);
    }
  }
}
