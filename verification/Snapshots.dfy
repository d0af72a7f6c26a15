/** What an ideal observer of active-order snapshots reports: the id-ordered difference of each from the last. */
module Snapshots {
  import opened Prelude

  /** The observed part of an order: what `ActiveFingerprint` keeps. */
  datatype Face = Face(status: string, code: string, fullCode: Option<string>)

  /** `id` stands for the order code, whose order it keeps; `rest` for the fields nobody compares. */
  datatype ActiveOrder = ActiveOrder(id: int, face: Face, rest: nat)

  type Snapshot = map<int, ActiveOrder>

  predicate KeyedById(now: Snapshot) {
    forall id :: id in now ==> now[id].id == id
  }

  function Faces(now: Snapshot): map<int, Face> {
    map id | id in now :: now[id].face
  }

  /** A list of orders as a snapshot: of several with the same id the last one stays. */
  function Unique(orders: seq<ActiveOrder>): (r: Snapshot)
    ensures KeyedById(r)
  {
    if orders == [] then map[]
    else
      var last := orders[|orders| - 1];
      Unique(orders[..|orders| - 1])[last.id := last]
  }

  /** Position `i` holds the last order with this id. */
  predicate LastAt(orders: seq<ActiveOrder>, i: int, id: int) {
    0 <= i < |orders| && orders[i].id == id && forall j :: i < j < |orders| ==> orders[j].id != id
  }

  lemma {:induction false} LastDuplicateWins(orders: seq<ActiveOrder>, id: int)
    ensures id in Unique(orders) ==> exists i :: LastAt(orders, i, id) && Unique(orders)[id] == orders[i]
    ensures id !in Unique(orders) ==> forall i :: 0 <= i < |orders| ==> orders[i].id != id
  {
    if orders != [] {
      var n := |orders| - 1;
      LastDuplicateWins(orders[..n], id);
      if orders[n].id == id {
        assert LastAt(orders, n, id);
      } else if id in Unique(orders) {
        var i :| LastAt(orders[..n], i, id) && Unique(orders[..n])[id] == orders[..n][i];
        assert forall j :: i < j < n ==> orders[j] == orders[..n][j];
        assert LastAt(orders, i, id);
      }
    }
  }

  lemma HasKey(now: Snapshot)
    requires now != map[]
    ensures exists k :: k in now
  {
    assert (forall k :: k !in now) ==> now == map[];
  }

  lemma {:induction false} SomeGreatestKey(now: Snapshot)
    requires now != map[]
    ensures exists k :: k in now && forall j :: j in now ==> j <= k
    decreases |now|
  {
    HasKey(now);
    var k :| k in now;
    var others := now - {k};
    if others != map[] {
      SomeGreatestKey(others);
      var m :| m in others && forall j :: j in others ==> j <= m;
      assert forall j :: j in now && j != k ==> j in others;
      GreatestOfRest(now, k, m);
    } else {
      assert forall j :: j in now && j != k ==> j in others;
    }
  }

  lemma GreatestOfRest(now: Snapshot, k: int, m: int)
    requires k in now && m in now && m != k && forall j :: j in now && j != k ==> j <= m
    ensures exists top :: top in now && forall j :: j in now ==> j <= top
  {
    var top := if m >= k then m else k;
    assert top in now;
  }

  ghost function GreatestKey(now: Snapshot): (k: int)
    requires now != map[]
    ensures k in now && forall j :: j in now ==> j <= k
  {
    SomeGreatestKey(now);
    var k :| k in now && forall j :: j in now ==> j <= k;
    k
  }

  predicate IsChange(before: map<int, Face>, order: ActiveOrder) {
    order.id !in before || before[order.id] != order.face
  }

  /** The new and changed orders of a snapshot, in ascending order of their ids. */
  ghost function Changes(before: map<int, Face>, now: Snapshot): seq<ActiveOrder>
    decreases |now|
  {
    if now == map[] then []
    else
      var k := GreatestKey(now);
      Changes(before, now - {k}) + if IsChange(before, now[k]) then [now[k]] else []
  }

  lemma ChangesStep(before: map<int, Face>, seen: Snapshot, order: ActiveOrder)
    requires forall id :: id in seen ==> id < order.id
    ensures Changes(before, seen[order.id := order])
      == Changes(before, seen) + if IsChange(before, order) then [order] else []
  {
    var now := seen[order.id := order];
    assert GreatestKey(now) == order.id by {
      assert order.id in now && GreatestKey(now) in now;
    }
    assert now - {order.id} == seen;
  }

  /** The difference holds exactly the changed orders. */
  lemma {:induction false} ChangesExact(before: map<int, Face>, now: Snapshot, e: ActiveOrder)
    requires KeyedById(now)
    ensures e in Changes(before, now) <==> e.id in now && now[e.id] == e && IsChange(before, e)
    decreases |now|
  {
    if now != map[] {
      ChangesExact(before, now - {GreatestKey(now)}, e);
    }
  }

  predicate Ascending(events: seq<ActiveOrder>) {
    forall i, j :: 0 <= i < j < |events| ==> events[i].id < events[j].id
  }

  /** They come once each, in ascending order of their ids, so never more than the snapshot holds. */
  lemma {:induction false} ChangesAscend(before: map<int, Face>, now: Snapshot)
    requires KeyedById(now)
    ensures Ascending(Changes(before, now))
    ensures |Changes(before, now)| <= |now|
    decreases |now|
  {
    if now != map[] {
      var k := GreatestKey(now);
      ChangesAscend(before, now - {k});
      OneKeyFewer(now, k);
      ChangesBelow(before, now - {k}, k);
      AscendingExtends(Changes(before, now - {k}), now[k]);
      hide Ascending;
    }
  }

  lemma AscendingExtends(events: seq<ActiveOrder>, e: ActiveOrder)
    requires Ascending(events) && forall i :: 0 <= i < |events| ==> events[i].id < e.id
    ensures Ascending(events + [e])
  {
  }

  lemma OneKeyFewer(now: Snapshot, k: int)
    requires k in now
    ensures |now - {k}| == |now| - 1
  {
    assert now.Keys == (now - {k}).Keys + {k};
    assert |now.Keys| == |(now - {k}).Keys| + 1;
  }

  lemma ChangesBelow(before: map<int, Face>, now: Snapshot, k: int)
    requires KeyedById(now) && forall id :: id in now ==> id < k
    ensures forall i :: 0 <= i < |Changes(before, now)| ==> Changes(before, now)[i].id < k
  {
    forall i | 0 <= i < |Changes(before, now)| ensures Changes(before, now)[i].id < k {
      ChangesExact(before, now, Changes(before, now)[i]);
    }
  }

  // ---------------------------------------------------------------- histories of accepted snapshots

  function Latest(history: seq<Snapshot>): Snapshot {
    if history == [] then map[] else history[|history| - 1]
  }

  /** Every difference in turn: what an observer of this history has to report. */
  ghost function AllChanges(history: seq<Snapshot>): seq<ActiveOrder> {
    if history == [] then []
    else
      var earlier := history[..|history| - 1];
      AllChanges(earlier) + Changes(Faces(Latest(earlier)), Latest(history))
  }

  /** The order shown last: the one with the greatest id in the latest snapshot that had any. */
  ghost function LastShown(history: seq<Snapshot>): seq<ActiveOrder> {
    if history == [] then []
    else if Latest(history) == map[] then LastShown(history[..|history| - 1])
    else [Latest(history)[GreatestKey(Latest(history))]]
  }

  /** A consumer's picture after some events: the last face it was told for each order. */
  function View(events: seq<ActiveOrder>): map<int, Face> {
    if events == [] then map[]
    else View(events[..|events| - 1])[events[|events| - 1].id := events[|events| - 1].face]
  }

  lemma {:induction false} ViewConcat(early: seq<ActiveOrder>, late: seq<ActiveOrder>)
    ensures View(early + late) == View(early) + View(late)
  {
    var n := |late| - 1;
    if late == [] {
      assert early + late == early;
    } else {
      ViewConcat(early, late[..n]);
      assert (early + late)[..|early + late| - 1] == early + late[..n];
    }
  }

  lemma {:induction false} ViewOfChanges(before: map<int, Face>, now: Snapshot)
    requires KeyedById(now)
    ensures View(Changes(before, now)) == map id | id in now && IsChange(before, now[id]) :: now[id].face
    decreases |now|
  {
    if now != map[] {
      var k := GreatestKey(now);
      var rest := Changes(before, now - {k});
      ViewOfChanges(before, now - {k});
      if IsChange(before, now[k]) {
        ViewOfLast(rest, now[k]);
      } else {
        assert Changes(before, now) == rest;
      }
    }
  }

  lemma ViewOfLast(events: seq<ActiveOrder>, e: ActiveOrder)
    ensures View(events + [e]) == View(events)[e.id := e.face]
  {
    assert (events + [e])[..|events + [e]| - 1] == events;
  }

  /** A consumer that has received every event knows the current face of every active order. */
  lemma {:induction false} ConsumerIsUpToDate(history: seq<Snapshot>)
    requires forall now :: now in history ==> KeyedById(now)
    ensures Faces(Latest(history)).Keys <= View(AllChanges(history)).Keys
    ensures forall id :: id in Latest(history) ==> View(AllChanges(history))[id] == Latest(history)[id].face
  {
    if history != [] {
      var earlier := history[..|history| - 1];
      ConsumerIsUpToDate(earlier);
      var before := Faces(Latest(earlier));
      ViewConcat(AllChanges(earlier), Changes(before, Latest(history)));
      ViewOfChanges(before, Latest(history));
    }
  }
}
