# GPUStack instance scheduler, modelled in Dafny

This project models the instance scheduler of GPUStack (`gpustack/server/scheduler.py`).
The scheduler binds pending model instances to compute nodes. Two triggers feed one
scheduling step:

- the event loop of `start` hands every non-DELETED change event's instance snapshot to
  `_do_schedule`;
- the reconcile loop of `check_pending_instances` queries every instance whose `state` is
  `"PENDING"` and hands each one to `_do_schedule` in turn.

`_do_schedule` checks eligibility (`_should_schedule`: the snapshot names no node). It then
calls `schedule_naively`, which takes the first node of the inventory, reloads the instance
by id and writes the node's `id` and `address` into the instance's `node_id` and `node_ip`.
Any error raised on the way is caught and logged, so the next instance is still processed.

Files:

- `wrappers.dfy`: the `Option` type standing for Python's `None`.
- `schemas.dfy`: `Node`, `ModelInstance` and the change `Event`, with only the fields the
  scheduler touches.
- `scheduling.dfy`: the scheduling step as functions over the instance table
  (`map<int, ModelInstance>`) and the node inventory (`seq<Node>`). `Outcome` records how a
  call ended. `Failed` and `Scheduled` match the two log lines the source writes.
- `scheduling_properties.dfy`: lemmas about sweeps, reconcile passes, idempotence, failure
  containment and stale snapshots.
- `scheduler_service.dfy`: the class `Scheduler`, whose fields are the two tables. Its
  methods update the table in place and are proved equal to the functions. The file ends
  with three client methods whose contracts give the end state of three concrete scenarios.

Three consequences of the code as written:

- The code checks eligibility only on the snapshot it was given (line 46) and writes the
  reloaded row without a second check (lines 70-75). `StaleSnapshotOverwrites` proves the
  consequence: a stale snapshot with no node moves an already placed instance to whichever
  node is now first.
- The code never writes `state`, so a placed instance keeps `state == "PENDING"` and gains a
  `node_id`. Later reconcile passes query it again and skip it, because its `node_id` is set (`AfterReconcile`).
- The query `all_by_field(session, "state", "PENDING")` has no ordering. The model lets
  it return the PENDING rows in any order. `SweepOrderIrrelevant` shows that the order
  does not change the result while the inventory stays the same.

## Model

| member | source | states |
|---|---|---|
| `Scheduling.ShouldSchedule` | gpustack/server/scheduler.py:51-56 | an instance is a candidate exactly when its `node_id` is absent |
| `Scheduling.FirstNode` | gpustack/server/scheduler.py:65 | `Node.first` returns nothing exactly when the inventory is empty; otherwise it returns the inventory's first node |
| `Scheduling.OneById` | gpustack/server/scheduler.py:70-72 | the reload by id returns a row exactly when that id is stored, and then returns the stored row |
| `Scheduling.NaiveAttempt` | gpustack/server/scheduler.py:58-77 | naive placement with an empty inventory ends in `NoNode` and writes nothing. A missing id ends in `Failed` and writes nothing. Otherwise the stored row gets `node_id`/`node_ip` equal to the first node's `id`/`address`, keeps its `id` and `state`, and every other row and the key set are unchanged |
| `Scheduling.DoAttempt` | gpustack/server/scheduler.py:44-56 | the step is `Skipped` exactly when the snapshot names a node. The table changes only for an unplaced snapshot with a non-empty inventory and a stored id. A failure leaves the table unchanged. An unplaced snapshot whose id is stored is bound to the first node |
| `Scheduling.AfterSweep` | gpustack/server/scheduler.py:41-42 | running the step over a batch keeps the table's key set; with an empty inventory the table is unchanged |
| `Scheduling.AfterReconcile` | gpustack/server/scheduler.py:39-42 | after a reconcile pass, non-PENDING rows and rows that already name a node are unchanged. With a non-empty inventory, every PENDING row without a node is bound to the first node and no PENDING row is left without a node. With an empty inventory nothing changes |
| `Scheduling.Forwarded` | gpustack/server/scheduler.py:27-30 | the event loop forwards at most one snapshot per event |
| `SchedulingProperties.SweepBindsEligible` | gpustack/server/scheduler.py:41-49 | a sweep over any batch, including ids that are no longer stored, binds to the first node exactly the stored rows whose id belongs to an eligible snapshot of the batch, and changes nothing else. A failing instance therefore never stops the others |
| `SchedulingProperties.SweepOrderIrrelevant` | gpustack/server/scheduler.py:41-42 | with a fixed inventory, sweeping `b1 + b2` and `b2 + b1` leave the same table |
| `SchedulingProperties.ReconcileSweepMatches` | gpustack/server/scheduler.py:40-42 | sweeping the result of the PENDING query, in whatever order it comes, gives exactly `AfterReconcile` |
| `SchedulingProperties.RescheduleFreshIsNoOp` | gpustack/server/scheduler.py:44-75 | once an instance is placed, scheduling its current stored row again is skipped and writes nothing, even if the inventory has changed |
| `SchedulingProperties.RescheduleSameInventoryIdempotent` | gpustack/server/scheduler.py:44-75 | with the same inventory, replaying any snapshot a second time leaves the table as the first call left it |
| `SchedulingProperties.TriggersCommute` | gpustack/server/scheduler.py:27-42 | with a fixed inventory, handling an event snapshot before or after a reconcile pass leaves the same table |
| `SchedulingProperties.FailureIsContained` | gpustack/server/scheduler.py:41-49 | in a batch `[a, b]` where `a`'s id is missing, `a` fails without a write and `b` is still bound to the first node |
| `SchedulingProperties.StaleSnapshotOverwrites` | gpustack/server/scheduler.py:44-75 | a snapshot with no node overwrites a stored row that already names a different node. Its `node_id` becomes the first node's id, because the reloaded row is not re-checked |
| `SchedulingProperties.ForwardedSnapshots` | gpustack/server/scheduler.py:27-30 | a snapshot reaches the scheduling step exactly when some event carrying it is not DELETED |
| `SchedulerService.Scheduler.constructor` | gpustack/server/scheduler.py:15-17 | a scheduler starts over the given instance table and node inventory |
| `SchedulerService.Scheduler.ScheduleNaively` | gpustack/server/scheduler.py:58-77 | the in-place placement returns the outcome and leaves the table that `NaiveAttempt` gives. The inventory is unchanged and the table stays keyed by id |
| `SchedulerService.Scheduler.DoSchedule` | gpustack/server/scheduler.py:44-49 | the in-place step, with the caught failure, returns the outcome and leaves the table that `DoAttempt` gives |
| `SchedulerService.Scheduler.HandleEvent` | gpustack/server/scheduler.py:27-30 | a DELETED event leaves the table unchanged. Any other event runs the step on its snapshot |
| `SchedulerService.Scheduler.ConsumeEvents` | gpustack/server/scheduler.py:26-30 | handling a finite run of events leaves the table a sweep over the forwarded snapshots gives |
| `SchedulerService.Scheduler.AllByState` | gpustack/server/scheduler.py:40 | the query returns the stored rows with the given state, each exactly once, and nothing else |
| `SchedulerService.Scheduler.Sweep` | gpustack/server/scheduler.py:41-42 | processing a batch one snapshot after another leaves the table `AfterSweep` gives |
| `SchedulerService.Scheduler.ReconcileOnce` | gpustack/server/scheduler.py:39-42 | one reconcile tick leaves the table `AfterReconcile` gives |
| `SchedulerService.CreatedEventPlacesInstance` | gpustack/server/scheduler.py:27-30 | node 1 at 10.0.0.1 exists and unplaced M1 gets a CREATED event. M1 ends with `node_id = 1` and `node_ip = "10.0.0.1"` |
| `SchedulerService.ReconcileSkipsPlaced` | gpustack/server/scheduler.py:40-42 | a reconcile tick places the PENDING M1 and leaves M2, which is already on node 2, untouched |
| `SchedulerService.EmptyInventoryThenRetry` | gpustack/server/scheduler.py:65-68 | with no nodes the attempt ends in `NoNode` and M1 stays PENDING and unplaced. After a node is added, the next attempt places M1 |

## Left out

- The asyncio machinery (`create_task`, `sleep`, the endless `while True` timer loop and the endless `async for` subscription). The model has one event step, a finite run of events and one reconcile pass. So it also leaves out the 30-unit check interval and the fact that the event loop exits when the subscription ends.
- The race between the event loop and the reconcile loop. In the model the triggers are sequential calls to the same step. `TriggersCommute` covers their interleaving only while the inventory is unchanged.
- The SQLModel session and engine, including the session reused after its `with` block closes. The store is modelled as direct reads and writes of the in-memory table.
- Store errors raised inside `schedule_naively` other than a missing id on reload (connection or transaction failures in lines 63-75). `_do_schedule` would catch such an error for that instance alone. The model has only the missing-id failure.
- Errors outside `_do_schedule`'s `try` are not caught. An error from the PENDING query at line 40 ends the reconcile task started at line 24 for good. An error from the subscription at line 27 ends `start`. The model has neither loop, so it does not capture either of these endings.
- `Node.first` at line 65 passes no ordering. The model assumes it returns the same node, `nodes[0]`, on every call while the inventory is unchanged. `SweepBindsEligible`, `SweepOrderIrrelevant`, `RescheduleSameInventoryIdempotent` and `TriggersCommute` rest on that assumption.
- Logging. The returned `Outcome` records which log line would be written. The declared `-> bool` result of `_do_schedule`, which never returns a value, is not modelled.
- The rest of the `Node` and `ModelInstance` schemas and the event bus are not part of this model. The model keeps only `id`, `state`, `node_id`, `node_ip`, `address` and the event's `type`/`data`.
- Node inventory management. The inventory is a field that only the client scenario changes.
- Hardening the code lacks: resubscription, cancellation, backoff, bounded sweeps and an atomic compare-and-set on commit.
