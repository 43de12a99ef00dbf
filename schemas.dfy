/**
 * The two stored entities the scheduler reads and writes, restricted to the
 * fields it touches, and the change events of the ModelInstance feed.
 */
module Schemas {
  import opened Wrappers

  /** A compute node: the scheduler reads only its `id` and `address`. */
  datatype Node = Node(id: int, address: string)

  /** A model instance: `nodeId` and `nodeIp` are absent until it is placed. */
  datatype ModelInstance = ModelInstance(
    id: int,
    state: string,
    nodeId: Option<int>,
    nodeIp: Option<string>)

  /** The state value the reconcile sweep queries for. */
  const PENDING: string := "PENDING"

  /** The kinds of change the ModelInstance feed reports. */
  datatype EventType = CREATED | UPDATED | DELETED

  /** One change event: its kind and the instance snapshot it carries. */
  datatype Event = Event(eventType: EventType, data: ModelInstance)

  /** The ModelInstance table keyed by primary key: every row sits under its own id. */
  predicate WellKeyed(store: map<int, ModelInstance>)
  {
    forall k :: k in store ==> store[k].id == k
  }
}
