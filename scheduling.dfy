/**
 * The scheduling step of `Scheduler` as functions over the ModelInstance
 * table (a map from id to row) and the Node inventory (a sequence in the
 * order the store returns it). The class in SchedulerService runs the same
 * steps in place and is proved equal to these functions.
 */
module Scheduling {
  import opened Wrappers
  import opened Schemas

  /** The ModelInstance table. */
  type Store = map<int, ModelInstance>

  /** How one call of `_do_schedule` ends; Failed and Scheduled are the two log lines it can write. */
  datatype Outcome =
    | Skipped               // the snapshot already names a node: nothing is done
    | NoNode                // the inventory is empty: return without writing
    | Failed(id: int)       // the reload by id found nothing: the raised error is caught and logged
    | Scheduled(node: Node) // the node's id and address were written to the stored instance

  /** The outcome of one step together with the table it leaves behind. */
  datatype Attempt = Attempt(outcome: Outcome, store: Store)

  /** `_should_schedule`: an instance is a candidate exactly when it names no node. */
  predicate ShouldSchedule(mi: ModelInstance)
    ensures ShouldSchedule(mi) <==> mi.nodeId == None
  {
    mi.nodeId.None?
  }

  /** `Node.first`: the first node of the inventory, or nothing when it is empty. */
  function FirstNode(nodes: seq<Node>): (r: Option<Node>)
    ensures r.None? <==> |nodes| == 0
    ensures r.Some? ==> r.value == nodes[0]
  {
    if nodes == [] then None else Some(nodes[0])
  }

  /** `ModelInstance.one_by_id`: the stored row with this id, or nothing. */
  function OneById(store: Store, id: int): (r: Option<ModelInstance>)
    ensures r.Some? <==> id in store
    ensures r.Some? ==> r.value == store[id]
  {
    if id in store then Some(store[id]) else None
  }

  /** The row after `node_id` and `node_ip` are set from `node`; every other field is kept. */
  function Bind(mi: ModelInstance, node: Node): ModelInstance
  {
    mi.(nodeId := Some(node.id), nodeIp := Some(node.address))
  }

  /**
   * `schedule_naively` for the instance with this id: pick the first node,
   * reload the instance by id, write the node into it and persist it. A
   * reload that finds nothing raises before anything is written.
   */
  function NaiveAttempt(store: Store, nodes: seq<Node>, id: int): (a: Attempt)
    ensures a.store.Keys == store.Keys
    ensures forall k :: k in store && k != id ==> a.store[k] == store[k]
    ensures a.outcome == NoNode <==> nodes == []
    ensures a.outcome.Failed? <==> nodes != [] && id !in store
    ensures a.outcome.Failed? ==> a.outcome.id == id
    ensures a.outcome.Scheduled? <==> nodes != [] && id in store
    ensures !a.outcome.Scheduled? ==> a.store == store
    ensures a.outcome.Scheduled? ==>
      a.outcome.node == nodes[0] &&
      a.store[id].nodeId == Some(nodes[0].id) && a.store[id].nodeIp == Some(nodes[0].address) &&
      a.store[id].id == store[id].id && a.store[id].state == store[id].state
  {
    match FirstNode(nodes)
    case None => Attempt(NoNode, store)
    case Some(node) =>
      match OneById(store, id)
      case None => Attempt(Failed(id), store)
      case Some(loaded) => Attempt(Scheduled(node), store[id := Bind(loaded, node)])
  }

  /**
   * `_do_schedule`: eligibility is decided on the snapshot `mi` alone; an
   * eligible snapshot goes through the naive placement, whose raised error
   * is caught here and leaves the table as it was.
   */
  function DoAttempt(store: Store, nodes: seq<Node>, mi: ModelInstance): (a: Attempt)
    ensures a.store.Keys == store.Keys
    ensures forall k :: k in store && k != mi.id ==> a.store[k] == store[k]
    ensures a.outcome == Skipped <==> mi.nodeId.Some?
    ensures a.store != store ==> mi.nodeId.None? && nodes != [] && mi.id in store
    ensures a.outcome.Failed? ==> a.store == store && mi.id !in store
    ensures mi.nodeId.None? && nodes != [] && mi.id in store ==>
      a.outcome == Scheduled(nodes[0]) && a.store[mi.id] == Bind(store[mi.id], nodes[0])
  {
    if ShouldSchedule(mi) then NaiveAttempt(store, nodes, mi.id) else Attempt(Skipped, store)
  }

  /**
   * The table after `_do_schedule` has been applied to each snapshot of
   * `batch` in turn, as the reconcile loop and the event loop both do.
   */
  function AfterSweep(store: Store, nodes: seq<Node>, batch: seq<ModelInstance>): (r: Store)
    ensures r.Keys == store.Keys
    ensures nodes == [] ==> r == store
    decreases |batch|
  {
    if batch == [] then store
    else DoAttempt(AfterSweep(store, nodes, batch[..|batch| - 1]), nodes, batch[|batch| - 1]).store
  }

  /** The ids of the snapshots in `batch` that pass the eligibility check. */
  function EligibleIds(batch: seq<ModelInstance>): set<int>
  {
    set i | 0 <= i < |batch| && ShouldSchedule(batch[i]) :: batch[i].id
  }

  /** The table with every row whose id is in `ids` bound to `node`. */
  function BindAll(store: Store, ids: set<int>, node: Node): (r: Store)
    ensures r.Keys == store.Keys
  {
    map k | k in store :: if k in ids then Bind(store[k], node) else store[k]
  }

  /**
   * What one reconcile pass should leave behind, stated directly on the
   * table: every PENDING row that names no node is bound to the first node
   * of the inventory, and every other row is left alone.
   */
  function AfterReconcile(store: Store, nodes: seq<Node>): (r: Store)
    ensures r.Keys == store.Keys
    ensures nodes == [] ==> r == store
    ensures forall k :: k in store && (store[k].state != PENDING || store[k].nodeId.Some?) ==> r[k] == store[k]
    ensures nodes != [] ==> forall k :: k in store && store[k].state == PENDING && store[k].nodeId.None? ==>
      r[k].id == store[k].id && r[k].state == PENDING &&
      r[k].nodeId == Some(nodes[0].id) && r[k].nodeIp == Some(nodes[0].address)
    ensures nodes != [] ==> forall k :: k in r && r[k].state == PENDING ==> r[k].nodeId.Some?
  {
    if nodes == [] then store
    else map k | k in store :: if store[k].state == PENDING && store[k].nodeId.None? then Bind(store[k], nodes[0]) else store[k]
  }

  /** `all_by_field(session, "state", state)`: every row with this state, each once, in some order. */
  predicate IsQueryResult(store: Store, state: string, rows: seq<ModelInstance>)
  {
    (forall i :: 0 <= i < |rows| ==> rows[i].id in store && store[rows[i].id] == rows[i] && rows[i].state == state) &&
    (forall k :: k in store && store[k].state == state ==> exists i :: 0 <= i < |rows| && rows[i].id == k) &&
    (forall i, j :: 0 <= i < j < |rows| ==> rows[i].id != rows[j].id)
  }

  /** The snapshots the event loop of `start` hands to `_do_schedule`: those of every event but DELETED, in order. */
  function Forwarded(events: seq<Event>): (r: seq<ModelInstance>)
    ensures |r| <= |events|
    decreases |events|
  {
    if events == [] then []
    else
      var last := events[|events| - 1];
      Forwarded(events[..|events| - 1]) + (if last.eventType == DELETED then [] else [last.data])
  }
}
