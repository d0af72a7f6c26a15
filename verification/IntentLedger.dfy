/** The purchase-intent ledger and its link to the order table, over whole runs. */
module IntentLedger {
  import opened Prelude
  import opened OrderTables
  import opened StoreRuns

  /** The orders bound to an intent. */
  ghost function BoundOrders(t: Tables, intent: Fingerprint): set<RowId> {
    set id | id in t.orders && t.orders[id].intent == Some(intent)
  }

  function Rank(state: IntentState): nat {
    match state
    case IntentPending => 0
    case IntentReconcileOnly => 1
    case IntentResolved => 2
  }

  /** An order is only ever bound to an intent that is resolved. */
  ghost predicate BoundIsResolved(t: Tables) {
    forall id :: id in t.orders && t.orders[id].intent.Some? ==>
      t.orders[id].intent.value in t.intents && t.intents[t.orders[id].intent.value].IntentResolved?
  }

  /** Nothing is lost: bindings stay, intents stay, and intent states only climb. */
  ghost predicate Climbs(t: Tables, t': Tables) {
    && (forall id :: id in t.orders ==>
          id in t'.orders && (t.orders[id].intent.Some? ==> t'.orders[id].intent == t.orders[id].intent))
    && (forall i :: i in t.intents ==> i in t'.intents && Rank(t.intents[i]) <= Rank(t'.intents[i]))
  }

  /** Changes no binding and no intent. */
  ghost predicate SameLedger(t: Tables, t': Tables) {
    && t'.intents == t.intents && t'.nextId == t.nextId && t'.orders.Keys == t.orders.Keys
    && forall id :: id in t.orders ==>
      t'.orders[id].intent == t.orders[id].intent && t'.orders[id].reference == t.orders[id].reference
  }

  lemma SameLedgerKeepsKeys(t: Tables, t': Tables)
    requires Keyed(t) && SameLedger(t, t')
    ensures Keyed(t')
  {
    ChangeKeepsKeys(t, t');
  }

  lemma {:induction false} ClaimAllSameLedger(t: Tables, ids: seq<RowId>, owner: Owner, until: int)
    requires forall id :: id in ids ==> id in t.orders
    ensures SameLedger(t, ClaimAll(t, ids, owner, until))
  {
    if ids != [] {
      ClaimAllSameLedger(t, ids[..|ids| - 1], owner, until);
    }
  }

  /** Claims and releases leave the ledger alone. */
  lemma ClaimStepsSameLedger(s: Sys, op: Op)
    requires op.ClaimDue? || op.Release?
    ensures SameLedger(s.tables, Step(s, op).tables)
  {
    match op
    case ClaimDue(owner, leaseMs, now, limit, locked, acked) =>
      var ids := DueRows(s.tables, now, limit, locked, 0);
      ClaimManyTables(s, ids, owner, SaturatingAdd(now, leaseMs), acked);
      ClaimAllSameLedger(s.tables, ids, owner, SaturatingAdd(now, leaseMs));
    case Release(_, _, _) =>
  }

  lemma StepClimbs(s: Sys, op: Op)
    requires Keyed(s.tables)
    ensures Keyed(Step(s, op).tables) && Climbs(s.tables, Step(s, op).tables)
  {
    if op.ClaimDue? || op.Release? {
      ClaimStepsSameLedger(s, op);
      SameLedgerKeepsKeys(s.tables, Step(s, op).tables);
    } else {
      QuietStepIsQuiet(s.tables, op);
      QuietStepClimbs(s.tables, op);
    }
  }

  lemma QuietStepClimbs(t: Tables, op: Op)
    requires Keyed(t)
    ensures Climbs(t, QuietStep(t, op))
  {
    match op
    case Bind(intent, reference, deadlineMs, now) => BindClimbs(t, intent, reference, deadlineMs, now);
    case Purchase(reference, deadlineMs, now) => PurchaseClimbs(t, reference, deadlineMs, now);
    case _ => OtherStepClimbs(t, op);
  }

  lemma BindClimbs(t: Tables, intent: Fingerprint, reference: Fingerprint, deadlineMs: int, now: int)
    requires Keyed(t)
    ensures BindPurchase(t, intent, reference, deadlineMs, now).Ok? ==>
      Climbs(t, BindPurchase(t, intent, reference, deadlineMs, now).value)
  {
  }

  lemma PurchaseClimbs(t: Tables, reference: Fingerprint, deadlineMs: int, now: int)
    requires Keyed(t)
    ensures Climbs(t, RecordPurchase(t, reference, deadlineMs, now))
  {
  }

  lemma OtherStepClimbs(t: Tables, op: Op)
    requires !op.Bind? && !op.Purchase?
    ensures Climbs(t, QuietStep(t, op))
  {
    hide BindPurchase, RecordPurchase;
  }

  lemma StepKeepsBoundResolved(s: Sys, op: Op)
    requires Keyed(s.tables) && BoundIsResolved(s.tables)
    ensures BoundIsResolved(Step(s, op).tables)
  {
    if op.ClaimDue? || op.Release? {
      ClaimStepsSameLedger(s, op);
    }
  }

  /** A step resolves an unbound intent only if it is the legacy resolution of that intent. */
  lemma BindTouchesOne(t: Tables, i: Fingerprint, reference: Fingerprint, deadlineMs: int, now: int)
    ensures var r := BindPurchase(t, i, reference, deadlineMs, now);
      r.Ok? ==> r.value.intents == t.intents[i := IntentResolved]
  {
  }

  lemma PurchaseKeepsIntents(t: Tables, reference: Fingerprint, deadlineMs: int, now: int)
    ensures RecordPurchase(t, reference, deadlineMs, now).intents == t.intents
  {
  }

  lemma StepResolves(s: Sys, op: Op, intent: Fingerprint)
    requires Keyed(s.tables)
    requires intent in Step(s, op).tables.intents && Step(s, op).tables.intents[intent].IntentResolved?
    requires BoundOrders(Step(s, op).tables, intent) == {}
    ensures op == LegacyResolve(intent)
      || (intent in s.tables.intents && s.tables.intents[intent].IntentResolved?
          && BoundOrders(s.tables, intent) == {})
  {
    var t, t' := s.tables, Step(s, op).tables;
    StepClimbs(s, op);
    assert BoundOrders(t, intent) <= BoundOrders(t', intent);
    hide BindPurchase, Keyed, Climbs, RecordPurchase;
    match op
    case Bind(i, reference, deadlineMs, now) =>
      BindTouchesOne(t, i, reference, deadlineMs, now);
      if BindPurchase(t, i, reference, deadlineMs, now).Ok? && i == intent {
        BoundAfterBind(t, i, reference, deadlineMs, now);
      }
    case Purchase(reference, deadlineMs, now) => PurchaseKeepsIntents(t, reference, deadlineMs, now);
    case ClaimDue(_, _, _, _, _, _) => ClaimStepsSameLedger(s, op);
    case Release(_, _, _) => ClaimStepsSameLedger(s, op);
    case _ =>
  }

  /** A successful bind leaves exactly the named order bound to the intent. */
  lemma BoundAfterBind(t: Tables, intent: Fingerprint, reference: Fingerprint, deadlineMs: int, now: int)
    requires Keyed(t) && BindPurchase(t, intent, reference, deadlineMs, now).Ok?
    ensures var t' := BindPurchase(t, intent, reference, deadlineMs, now).value;
      && Keyed(t') && RowOf(t', reference).Some?
      && BoundOrders(t', intent) == {RowOf(t', reference).value}
      && intent in t'.intents && t'.intents[intent].IntentResolved?
  {
    BindIsQuiet(t, intent, reference, deadlineMs, now);
    var t' := BindPurchase(t, intent, reference, deadlineMs, now).value;
    var id := if RowOf(t, reference).Some? then RowOf(t, reference).value else t.nextId;
    assert t'.orders[id].reference == reference && t'.orders[id].intent == Some(intent);
    assert RowOf(t', reference) == Some(id);
    forall other | other in BoundOrders(t', intent) ensures other == id {
      assert SameIntent(t'.orders[other], t'.orders[id]);
    }
  }

  // ---------------------------------------------------------------- whole runs

  lemma {:induction false} LedgerRuns(ops: seq<Op>)
    ensures Keyed(Run(INITIAL, ops).tables) && BoundIsResolved(Run(INITIAL, ops).tables)
  {
    if ops != [] {
      LedgerRuns(ops[..|ops| - 1]);
      StepClimbs(Run(INITIAL, ops[..|ops| - 1]), ops[|ops| - 1]);
      StepKeepsBoundResolved(Run(INITIAL, ops[..|ops| - 1]), ops[|ops| - 1]);
    }
  }

  lemma {:induction false} UnboundResolutionIsLegacy(ops: seq<Op>, intent: Fingerprint)
    requires intent in Run(INITIAL, ops).tables.intents
    requires Run(INITIAL, ops).tables.intents[intent].IntentResolved?
    requires BoundOrders(Run(INITIAL, ops).tables, intent) == {}
    ensures LegacyResolve(intent) in ops
  {
    if ops != [] {
      var front, last := ops[..|ops| - 1], ops[|ops| - 1];
      LedgerRuns(front);
      StepResolves(Run(INITIAL, front), last, intent);
      if last != LegacyResolve(intent) {
        UnboundResolutionIsLegacy(front, intent);
      }
    }
  }

  /**
   * No intent ever binds two orders, and in a run that never uses the legacy resolution of an intent
   * that intent is resolved exactly when one order is bound to it.
   */
  lemma ResolvedIffOneOrder(ops: seq<Op>, intent: Fingerprint)
    ensures |BoundOrders(Run(INITIAL, ops).tables, intent)| <= 1
    ensures LegacyResolve(intent) !in ops ==>
      (|BoundOrders(Run(INITIAL, ops).tables, intent)| == 1
       <==> intent in Run(INITIAL, ops).tables.intents && Run(INITIAL, ops).tables.intents[intent].IntentResolved?)
  {
    var t := Run(INITIAL, ops).tables;
    LedgerRuns(ops);
    var bound := BoundOrders(t, intent);
    if bound == {} {
      if intent in t.intents && t.intents[intent].IntentResolved? {
        UnboundResolutionIsLegacy(ops, intent);
      }
    } else {
      var id :| id in bound;
      forall other | other in bound ensures other == id {
        assert SameIntent(t.orders[other], t.orders[id]);
      }
      assert bound == {id};
    }
  }

  /** Over any continuation of a run bindings never change and intent states only climb. */
  lemma {:induction false} BindingsArePermanent(ops: seq<Op>, later: seq<Op>)
    ensures Climbs(Run(INITIAL, ops).tables, Run(Run(INITIAL, ops), later).tables)
    ensures Keyed(Run(Run(INITIAL, ops), later).tables)
  {
    LedgerRuns(ops);
    if later != [] {
      var front := later[..|later| - 1];
      BindingsArePermanent(ops, front);
      StepClimbs(Run(Run(INITIAL, ops), front), later[|later| - 1]);
    }
  }

  /**
   * Repeating a successful bind succeeds and changes nothing, whatever its deadline; binding another
   * order to the same intent, or the same order to another intent, is refused.
   */
  lemma BindIsIdempotentAndExclusive(
    t: Tables, intent: Fingerprint, reference: Fingerprint, deadlineMs: int, now: int, deadlineMs': int, now': int)
    requires Keyed(t) && BindPurchase(t, intent, reference, deadlineMs, now).Ok?
    ensures var t' := BindPurchase(t, intent, reference, deadlineMs, now).value;
      && BindPurchase(t', intent, reference, deadlineMs', now') == Ok(t')
      && (forall other :: other != reference ==> BindPurchase(t', intent, other, deadlineMs', now').Err?)
      && (forall other :: other != intent ==> BindPurchase(t', other, reference, deadlineMs', now').Err?)
  {
    var t' := BindPurchase(t, intent, reference, deadlineMs, now).value;
    BoundAfterBind(t, intent, reference, deadlineMs, now);
    var id := RowOf(t', reference).value;
    assert id in BoundOrders(t', intent) && IsBound(t', intent);
    assert t'.intents[intent := IntentResolved] == t'.intents;
    assert forall x :: x in BoundOrders(t', intent) ==> t'.orders[x].reference == reference;
    forall other | other != reference ensures BindPurchase(t', intent, other, deadlineMs', now').Err? {
      var found := RowOf(t', other);
      if found.Some? {
        assert found.value !in BoundOrders(t', intent);
      }
    }
  }

  /** The legacy two-step resolution does leave a resolved intent without an order. */
  lemma LegacyResolvesWithoutOrder() returns (s: Sys)
    ensures s == Run(INITIAL, [NewIntent(3), LegacyResolve(3)])
    ensures 3 in s.tables.intents && s.tables.intents[3].IntentResolved? && BoundOrders(s.tables, 3) == {}
  {
    RunSnoc(INITIAL, [], NewIntent(3));
    RunSnoc(INITIAL, [NewIntent(3)], LegacyResolve(3));
    assert [] + [NewIntent(3)] == [NewIntent(3)];
    assert [NewIntent(3)] + [LegacyResolve(3)] == [NewIntent(3), LegacyResolve(3)];
    s := Step(Step(INITIAL, NewIntent(3)), LegacyResolve(3));
  }
}
