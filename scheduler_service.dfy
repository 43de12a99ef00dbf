/**
 * `Scheduler` as a class over the two tables it reads and writes. The
 * session and engine of the source become direct reads and writes of
 * `instances` and `nodes`; each method is proved equal to the matching
 * function of Scheduling.
 */
module SchedulerService {
  import opened Wrappers
  import opened Schemas
  import opened Scheduling
  import opened SchedulingProperties

  class Scheduler {
    /** The ModelInstance table, keyed by id. */
    var instances: Store
    /** The Node table, in the order the store returns it. */
    var nodes: seq<Node>

    ghost predicate Valid()
      reads this
    {
      WellKeyed(instances)
    }

    /** The store handle is injected instead of reached through a global engine. */
    constructor (instances: Store, nodes: seq<Node>)
      requires WellKeyed(instances)
      ensures Valid() && this.instances == instances && this.nodes == nodes
    {
      this.instances := instances;
      this.nodes := nodes;
    }

    /**
     * `schedule_naively`: a `Failed` outcome stands for the error raised when
     * the reload by id finds nothing; `_do_schedule` catches it.
     */
    method ScheduleNaively(mi: ModelInstance) returns (outcome: Outcome)
      requires Valid()
      modifies this
      ensures Valid() && nodes == old(nodes)
      ensures Attempt(outcome, instances) == NaiveAttempt(old(instances), nodes, mi.id)
    {
      var node := FirstNode(nodes);
      if node.None? {
        return NoNode;
      }
      var loaded := OneById(instances, mi.id);
      if loaded.None? {
        return Failed(mi.id);
      }
      instances := instances[mi.id := Bind(loaded.value, node.value)];
      outcome := Scheduled(node.value);
    }

    /** `_do_schedule`: eligibility is judged on the snapshot passed in, not on the stored row. */
    method DoSchedule(mi: ModelInstance) returns (outcome: Outcome)
      requires Valid()
      modifies this
      ensures Valid() && nodes == old(nodes)
      ensures Attempt(outcome, instances) == DoAttempt(old(instances), nodes, mi)
    {
      if ShouldSchedule(mi) {
        outcome := ScheduleNaively(mi);
      } else {
        outcome := Skipped;
      }
    }

    /** The body of the `async for` loop in `start`: DELETED events are skipped. */
    method HandleEvent(ev: Event)
      requires Valid()
      modifies this
      ensures Valid() && nodes == old(nodes)
      ensures ev.eventType == DELETED ==> instances == old(instances)
      ensures ev.eventType != DELETED ==> instances == DoAttempt(old(instances), nodes, ev.data).store
    {
      if ev.eventType == DELETED {
        return;
      }
      var _ := DoSchedule(ev.data);
    }

    /** A finite prefix of the subscription in `start`, handled event by event. */
    method ConsumeEvents(events: seq<Event>)
      requires Valid()
      modifies this
      ensures Valid() && nodes == old(nodes)
      ensures instances == AfterSweep(old(instances), nodes, Forwarded(events))
    {
      for i := 0 to |events|
        invariant Valid() && nodes == old(nodes)
        invariant instances == AfterSweep(old(instances), nodes, Forwarded(events[..i]))
      {
        assert events[..i + 1][..i] == events[..i];
        ghost var sent := Forwarded(events[..i]);
        HandleEvent(events[i]);
        if events[i].eventType == DELETED {
          assert Forwarded(events[..i + 1]) == sent + [];
          assert sent + [] == sent;
        } else {
          assert Forwarded(events[..i + 1]) == sent + [events[i].data];
          SweepSnoc(old(instances), nodes, sent, events[i].data);
        }
      }
      assert events[..|events|] == events;
    }

    /** `ModelInstance.all_by_field(session, "state", state)`; the query has no ORDER BY, so any order is allowed. */
    method AllByState(state: string) returns (rows: seq<ModelInstance>)
      requires Valid()
      ensures IsQueryResult(instances, state, rows)
    {
      rows := [];
      var rest := instances.Keys;
      while rest != {}
        invariant rest <= instances.Keys
        invariant forall i :: 0 <= i < |rows| ==>
          rows[i].id in instances && instances[rows[i].id] == rows[i] && rows[i].state == state && rows[i].id !in rest
        invariant forall k :: k in instances && k !in rest && instances[k].state == state ==> instances[k] in rows
        invariant forall i, j :: 0 <= i < j < |rows| ==> rows[i].id != rows[j].id
        decreases rest
      {
        if forall x :: x !in rest {
          assert false;
        }
        var k :| k in rest;
        if instances[k].state == state {
          rows := rows + [instances[k]];
        }
        rest := rest - {k};
      }
      forall k | k in instances && instances[k].state == state
        ensures exists i :: 0 <= i < |rows| && rows[i].id == k
      {
        var i :| 0 <= i < |rows| && rows[i] == instances[k];
      }
    }

    /** The `for` loop of `check_pending_instances`: every snapshot goes through `_do_schedule` in turn. */
    method Sweep(batch: seq<ModelInstance>)
      requires Valid()
      modifies this
      ensures Valid() && nodes == old(nodes)
      ensures instances == AfterSweep(old(instances), nodes, batch)
    {
      for i := 0 to |batch|
        invariant Valid() && nodes == old(nodes)
        invariant instances == AfterSweep(old(instances), nodes, batch[..i])
      {
        SweepSnoc(old(instances), nodes, batch[..i], batch[i]);
        assert batch[..i] + [batch[i]] == batch[..i + 1];
        var _ := DoSchedule(batch[i]);
      }
      assert batch[..|batch|] == batch;
    }

    /** One tick of `check_pending_instances`: query the PENDING rows and sweep them. */
    method ReconcileOnce()
      requires Valid()
      modifies this
      ensures Valid() && nodes == old(nodes)
      ensures instances == AfterReconcile(old(instances), nodes)
    {
      var pending := AllByState(PENDING);
      Sweep(pending);
      ReconcileSweepMatches(old(instances), nodes, pending);
    }
  }

  /** Node N1 exists, M1 is created PENDING with no node, and its CREATED event arrives. */
  method CreatedEventPlacesInstance() returns (m1: ModelInstance)
    ensures m1 == ModelInstance(1, PENDING, Some(1), Some("10.0.0.1"))
  {
    var created := ModelInstance(1, PENDING, None, None);
    var s := new Scheduler(map[1 := created], [Node(1, "10.0.0.1")]);
    s.HandleEvent(Event(CREATED, created));
    m1 := s.instances[1];
  }

  /** At a reconcile tick M1 is PENDING and M2 is placed on node 2: only M1 is placed, M2 is untouched. */
  method ReconcileSkipsPlaced() returns (m1: ModelInstance, m2: ModelInstance)
    ensures m1 == ModelInstance(1, PENDING, Some(1), Some("10.0.0.1"))
    ensures m2 == ModelInstance(2, "ASSIGNED", Some(2), Some("10.0.0.2"))
  {
    var s := new Scheduler(
      map[1 := ModelInstance(1, PENDING, None, None),
          2 := ModelInstance(2, "ASSIGNED", Some(2), Some("10.0.0.2"))],
      [Node(1, "10.0.0.1")]);
    s.ReconcileOnce();
    m1, m2 := s.instances[1], s.instances[2];
  }

  /** With no nodes M1 stays PENDING and unplaced; once a node is added, the next attempt places it. */
  method EmptyInventoryThenRetry() returns (first: Outcome, between: ModelInstance, second: Outcome, after: ModelInstance)
    ensures first == NoNode && between == ModelInstance(1, PENDING, None, None)
    ensures second == Scheduled(Node(1, "10.0.0.1")) && after == ModelInstance(1, PENDING, Some(1), Some("10.0.0.1"))
  {
    var m1 := ModelInstance(1, PENDING, None, None);
    var s := new Scheduler(map[1 := m1], []);
    first := s.DoSchedule(m1);
    between := s.instances[1];
    s.nodes := [Node(1, "10.0.0.1")];
    second := s.DoSchedule(between);
    after := s.instances[1];
  }
}
