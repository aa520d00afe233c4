/** Linked nodes on a heap, as the lock-free lists use them. */
module Nodes {
  import opened Threads

  type Ptr = nat
  type Item = nat

  const NULL: Ptr := 0

  /** lf_queue_item, the node of both lists. */
  datatype Node = Node(link: Ptr, data: Item)

  /** A node belongs to one thread until it is put on the list. */
  datatype Owner = Shared | Private(t: Tid)

  predicate Distinct(nodes: seq<Ptr>) {
    forall i, j | 0 <= i < j < |nodes| :: nodes[i] != nodes[j]
  }

  /** The pointer at place i, or null when there is none. */
  function At(nodes: seq<Ptr>, i: int): Ptr {
    if 0 <= i < |nodes| then nodes[i] else NULL
  }
}
