/**
 * What the scheduling step guarantees across several calls: a sweep binds
 * exactly the ids of its eligible snapshots, a reconcile pass meets its
 * direct description, rescheduling is idempotent, a failed instance does
 * not hold up the rest, and a stale snapshot is not re-checked.
 */
module SchedulingProperties {
  import opened Wrappers
  import opened Schemas
  import opened Scheduling

  /** Unfolds AfterSweep at its last snapshot. */
  lemma SweepSnoc(store: Store, nodes: seq<Node>, batch: seq<ModelInstance>, x: ModelInstance)
    ensures AfterSweep(store, nodes, batch + [x]) == DoAttempt(AfterSweep(store, nodes, batch), nodes, x).store
  {
  }

  lemma EligibleIdsSnoc(batch: seq<ModelInstance>, x: ModelInstance)
    ensures EligibleIds(batch + [x]) == EligibleIds(batch) + (if ShouldSchedule(x) then {x.id} else {})
  {
    var b := batch + [x];
    forall id | id in EligibleIds(b)
      ensures id in EligibleIds(batch) + (if ShouldSchedule(x) then {x.id} else {})
    {
      var i :| 0 <= i < |b| && ShouldSchedule(b[i]) && b[i].id == id;
      if i < |batch| {
        assert batch[i] == b[i];
      }
    }
    forall id | id in EligibleIds(batch) ensures id in EligibleIds(b) {
      var i :| 0 <= i < |batch| && ShouldSchedule(batch[i]) && batch[i].id == id;
      assert b[i] == batch[i];
    }
    if ShouldSchedule(x) {
      assert b[|batch|] == x;
    }
  }

  /**
   * A sweep over any batch of snapshots, in any order and with any ids,
   * including ids missing from the table, binds to the first node exactly the
   * stored rows whose id belongs to an eligible snapshot, and nothing else.
   */
  lemma {:induction false} SweepBindsEligible(store: Store, nodes: seq<Node>, batch: seq<ModelInstance>)
    requires nodes != []
    ensures AfterSweep(store, nodes, batch) == BindAll(store, EligibleIds(batch), nodes[0])
    decreases |batch|
  {
    var n := nodes[0];
    if batch == [] {
      assert BindAll(store, {}, n) == store;
    } else {
      var init, x := batch[..|batch| - 1], batch[|batch| - 1];
      assert init + [x] == batch;
      SweepBindsEligible(store, nodes, init);
      SweepSnoc(store, nodes, init, x);
      EligibleIdsSnoc(init, x);
      var prev := BindAll(store, EligibleIds(init), n);
      var next := DoAttempt(prev, nodes, x).store;
      var goal := BindAll(store, EligibleIds(batch), n);
      forall k | k in store ensures next[k] == goal[k] {
        if k == x.id && ShouldSchedule(x) {
          assert next[k] == Bind(prev[k], n);
        }
      }
      assert next == goal;
    }
  }

  /** The order of the snapshots in a sweep does not matter while the inventory stays put. */
  lemma SweepOrderIrrelevant(store: Store, nodes: seq<Node>, b1: seq<ModelInstance>, b2: seq<ModelInstance>)
    ensures AfterSweep(store, nodes, b1 + b2) == AfterSweep(store, nodes, b2 + b1)
  {
    if nodes != [] {
      SweepBindsEligible(store, nodes, b1 + b2);
      SweepBindsEligible(store, nodes, b2 + b1);
      EligibleIdsConcat(b1, b2);
      EligibleIdsConcat(b2, b1);
    }
  }

  lemma EligibleIdsConcat(b1: seq<ModelInstance>, b2: seq<ModelInstance>)
    ensures EligibleIds(b1 + b2) == EligibleIds(b1) + EligibleIds(b2)
  {
    var b := b1 + b2;
    forall id | id in EligibleIds(b) ensures id in EligibleIds(b1) + EligibleIds(b2) {
      var i :| 0 <= i < |b| && ShouldSchedule(b[i]) && b[i].id == id;
      if i < |b1| {
        assert b1[i] == b[i];
      } else {
        assert b2[i - |b1|] == b[i];
      }
    }
    forall id | id in EligibleIds(b1) ensures id in EligibleIds(b) {
      var i :| 0 <= i < |b1| && ShouldSchedule(b1[i]) && b1[i].id == id;
      assert b[i] == b1[i];
    }
    forall id | id in EligibleIds(b2) ensures id in EligibleIds(b) {
      var i :| 0 <= i < |b2| && ShouldSchedule(b2[i]) && b2[i].id == id;
      assert b[|b1| + i] == b2[i];
    }
  }

  /**
   * One reconcile pass: sweeping the result of the PENDING query binds every
   * PENDING row that names no node and leaves every other row alone, whatever
   * order the query returned.
   */
  lemma ReconcileSweepMatches(store: Store, nodes: seq<Node>, pending: seq<ModelInstance>)
    requires WellKeyed(store)
    requires IsQueryResult(store, PENDING, pending)
    ensures AfterSweep(store, nodes, pending) == AfterReconcile(store, nodes)
  {
    if nodes != [] {
      SweepBindsEligible(store, nodes, pending);
      var ids := EligibleIds(pending);
      forall k | k in store ensures k in ids <==> store[k].state == PENDING && store[k].nodeId.None? {
        if k in ids {
          var i :| 0 <= i < |pending| && ShouldSchedule(pending[i]) && pending[i].id == k;
        }
        if store[k].state == PENDING && store[k].nodeId.None? {
          var i :| 0 <= i < |pending| && pending[i].id == k;
          assert pending[i] == store[k];
          assert ShouldSchedule(pending[i]);
        }
      }
      assert BindAll(store, ids, nodes[0]) == AfterReconcile(store, nodes);
    }
  }

  /**
   * Idempotence on fresh state: once an instance has been placed, scheduling
   * its current stored row again is skipped and writes nothing, whatever the
   * inventory has become.
   */
  lemma RescheduleFreshIsNoOp(store: Store, nodes: seq<Node>, later: seq<Node>, mi: ModelInstance)
    requires DoAttempt(store, nodes, mi).outcome.Scheduled?
    ensures mi.id in DoAttempt(store, nodes, mi).store
    ensures var placed := DoAttempt(store, nodes, mi).store;
      DoAttempt(placed, later, placed[mi.id]) == Attempt(Skipped, placed)
  {
  }

  /**
   * Idempotence on a stale snapshot while the inventory stays put: replaying
   * the same snapshot writes the same node again, so the table ends as after
   * the first call.
   */
  lemma RescheduleSameInventoryIdempotent(store: Store, nodes: seq<Node>, mi: ModelInstance)
    ensures var once := DoAttempt(store, nodes, mi).store;
      DoAttempt(once, nodes, mi).store == once
  {
  }

  /**
   * The event trigger and the reconcile trigger commute while the inventory
   * stays put: handling an event snapshot before or after a reconcile pass
   * leaves the same table.
   */
  lemma TriggersCommute(store: Store, nodes: seq<Node>, mi: ModelInstance)
    ensures AfterReconcile(DoAttempt(store, nodes, mi).store, nodes) ==
            DoAttempt(AfterReconcile(store, nodes), nodes, mi).store
  {
  }

  /**
   * Failure containment in a batch [a, b]: scheduling `a`, whose id is no
   * longer stored, fails and writes nothing, and `b` is still placed.
   */
  lemma FailureIsContained(store: Store, nodes: seq<Node>, a: ModelInstance, b: ModelInstance)
    requires nodes != [] && ShouldSchedule(a) && ShouldSchedule(b)
    requires a.id !in store && b.id in store
    ensures DoAttempt(store, nodes, a) == Attempt(Failed(a.id), store)
    ensures AfterSweep(store, nodes, [a, b]) == store[b.id := Bind(store[b.id], nodes[0])]
  {
    SweepSnoc(store, nodes, [a], b);
    SweepSnoc(store, nodes, [], a);
    assert [a] + [b] == [a, b];
    assert [] + [a] == [a];
  }

  /**
   * The reloaded row is not re-checked: a stale snapshot that names
   * no node overwrites the stored row even when that row is already placed,
   * moving it to whatever node is now first.
   */
  lemma StaleSnapshotOverwrites(store: Store, nodes: seq<Node>, mi: ModelInstance)
    requires ShouldSchedule(mi) && mi.id in store && nodes != []
    requires store[mi.id].nodeId.Some? && store[mi.id].nodeId != Some(nodes[0].id)
    ensures DoAttempt(store, nodes, mi).store[mi.id].nodeId == Some(nodes[0].id)
    ensures DoAttempt(store, nodes, mi).store[mi.id].nodeId != store[mi.id].nodeId
  {
  }

  /** Exactly the snapshots of the events that are not DELETED reach the scheduling step. */
  lemma {:induction false} ForwardedSnapshots(events: seq<Event>)
    ensures forall x :: x in Forwarded(events) <==>
      exists i :: 0 <= i < |events| && events[i].eventType != DELETED && events[i].data == x
    decreases |events|
  {
    if events != [] {
      var init := events[..|events| - 1];
      ForwardedSnapshots(init);
      forall x | x in Forwarded(events)
        ensures exists i :: 0 <= i < |events| && events[i].eventType != DELETED && events[i].data == x
      {
        if x in Forwarded(init) {
          var i :| 0 <= i < |init| && init[i].eventType != DELETED && init[i].data == x;
          assert events[i] == init[i];
        }
      }
      forall x | exists i :: 0 <= i < |events| && events[i].eventType != DELETED && events[i].data == x
        ensures x in Forwarded(events)
      {
        var i :| 0 <= i < |events| && events[i].eventType != DELETED && events[i].data == x;
        if i < |init| {
          assert init[i] == events[i];
        }
      }
    }
  }
}
