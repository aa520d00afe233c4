/** The lock-free queue: any number of producers push onto a linked list with a
    compare-and-swap of its head; a consumer takes the whole list with one exchange and
    reverses it in place.

    Nodes live in a heap of pointers. A node's pointer can be used again once the node is
    deleted, so a head that looks unchanged may be a different node. The state also keeps the
    history needed to state what is delivered: the pushes in the order of their
    compare-and-swaps, and the batches taken from them. Each pointer has an owner: the shared
    list or one thread. */
module LockFreeQueue {
  import opened Nodes
  import opened Threads

  /** fat_ptr */
  datatype Fat = Fat(ptr: Ptr, isNonNull: nat)

  /** A committed push and what it returned. */
  datatype Pushed = Pushed(data: Item, wasEmpty: bool)

  /** Pushes lo to hi, taken together, and the items their consumer has got so far. */
  datatype Batch = Batch(lo: nat, hi: nat, got: seq<Item>)

  /** nodes are the batch's pointers in push order and b its number: they are not in the code. */
  datatype Pc =
    | Idle
    | PushCas(item: Ptr, seen: Fat, notify: bool)   // push, the item linked to what the head was
    | PushNotify                        // push or notify, before the wake
    | PopExchange                       // reverse, the queue was not empty
    | Reversing(head: Ptr, prev: Ptr, nodes: seq<Ptr>, left: int, b: nat)
    | Draining(head: Ptr, nodes: seq<Ptr>, b: nat)
    | WaitPark                          // wait, before the futex
    | Asleep

  /** notify: the template argument Notify of push. */
  datatype Choice = Push(data: Item, node: Ptr, notify: bool) | PopAll | Notify | Wait | Stay

  datatype State = State(
    heap: map<Ptr, Node>,
    owner: map<Ptr, Owner>,
    head: Fat,
    chain: seq<Ptr>,            // the list, oldest first
    pcs: map<Tid, Pc>,
    pushed: seq<Pushed>,
    batches: seq<Batch>,
    waiter: Tid,                // the one thread that calls wait()
    quiet: bool)                // the list was begun by a push that does not notify

  function Taken(batches: seq<Batch>): nat {
    if batches == [] then 0 else batches[|batches| - 1].hi
  }

  // -- The code, one atomic access of thread t at a time -------------------------------

  /** A push gets a pointer that is not in use; only the waiter waits. */
  predicate Enabled(s: State, t: Tid, choice: Choice) {
    && t in s.pcs
    && (s.pcs[t].Idle? && choice.Push? ==> choice.node != NULL && choice.node !in s.heap)
    && (s.pcs[t].Idle? && choice.Wait? ==> t == s.waiter)
  }

  /** The nodes that thread t touches next exist. */
  predicate Safe(s: State, t: Tid)
    requires t in s.pcs
  {
    match s.pcs[t]
    case PushCas(item, _, _) => item in s.heap
    case PopExchange => s.head.ptr != NULL ==> s.head.ptr in s.heap
    case Reversing(_, prev, _, _, _) => prev in s.heap
    case Draining(head, _, b) => head in s.heap && b < |s.batches|
    case _ => true
  }

  function OwnAll(owner: map<Ptr, Owner>, nodes: seq<Ptr>, t: Tid): map<Ptr, Owner> {
    map p | p in owner :: if p in nodes then Private(t) else owner[p]
  }

  ghost function Apply(s: State, t: Tid, choice: Choice): State
    requires Enabled(s, t, choice) && Safe(s, t)
  {
    match s.pcs[t]
    case Idle =>
      (match choice
       case Push(data, p, notify) =>
         s.(heap := s.heap[p := Node(s.head.ptr, data)], owner := s.owner[p := Private(t)],
            pcs := s.pcs[t := PushCas(p, s.head, notify)])
       case PopAll => s.(pcs := s.pcs[t := if s.head.ptr != NULL then PopExchange else Idle])
       case Notify => s.(pcs := s.pcs[t := if s.head.ptr != NULL then PushNotify else Idle])
       case Wait => s.(pcs := s.pcs[t := if s.head.ptr == NULL then WaitPark else Idle])
       case Stay => s)
    case PushCas(item, seen, notify) =>
      if s.head == seen then
        s.(head := Fat(item, 1), owner := s.owner[item := Shared], chain := s.chain + [item],
           pushed := s.pushed + [Pushed(s.heap[item].data, seen.ptr == NULL)],
           quiet := if seen.ptr == NULL then !notify else s.quiet,
           pcs := s.pcs[t := if seen.ptr == NULL && notify then PushNotify else Idle])
      else
        s.(heap := s.heap[item := Node(s.head.ptr, s.heap[item].data)], pcs := s.pcs[t := PushCas(item, s.head, notify)])
    case PushNotify =>
      s.(pcs := WakeOne(s.pcs, s.waiter)[t := Idle])
    case PopExchange =>
      var h := s.head.ptr;
      if h == NULL then s.(head := Fat(NULL, 0), pcs := s.pcs[t := Idle])
      else
        var b := |s.batches|;
        var prev := s.heap[h].link;
        s.(head := Fat(NULL, 0), chain := [], owner := OwnAll(s.owner, s.chain, t),
           batches := s.batches + [Batch(Taken(s.batches), |s.pushed|, [])],
           heap := s.heap[h := Node(NULL, s.heap[h].data)],
           pcs := s.pcs[t := if prev == NULL then Draining(h, s.chain, b)
                             else Reversing(h, prev, s.chain, |s.chain| - 1, b)])
    case Reversing(head, prev, nodes, left, b) =>
      var pprev := s.heap[prev].link;
      s.(heap := s.heap[prev := Node(head, s.heap[prev].data)],
         pcs := s.pcs[t := if pprev == NULL then Draining(prev, nodes, b) else Reversing(prev, pprev, nodes, left - 1, b)])
    case Draining(head, nodes, b) =>
      var node := s.heap[head];
      var batch := s.batches[b];
      s.(heap := s.heap - {head}, owner := s.owner - {head},
         batches := s.batches[b := batch.(got := batch.got + [node.data])],
         pcs := s.pcs[t := if node.link == NULL then Idle else Draining(node.link, nodes, b)])
    case WaitPark =>
      s.(pcs := s.pcs[t := if s.head.isNonNull == 0 then Asleep else Idle])
    case Asleep =>
      s.(pcs := s.pcs[t := Idle])     // woken by the system
  }

  function WakeOne(pcs: map<Tid, Pc>, t: Tid): map<Tid, Pc> {
    if t in pcs && pcs[t] == Asleep then pcs[t := Idle] else pcs
  }

  // -- The invariant ------------------------------------------------------------------

  /** p is a node of owner o with this link and item. */
  predicate IsNode(s: State, p: Ptr, o: Owner, link: Ptr, data: Item) {
    p in s.heap && p in s.owner && s.owner[p] == o && s.heap[p] == Node(link, data)
  }

  /** Node i of the list holds its push's item and is linked to the next older node; only the
      oldest was pushed onto an empty queue. */
  ghost predicate ListNode(s: State, i: nat) {
    var k := Taken(s.batches) + i;
    && i < |s.chain| && k < |s.pushed|
    && IsNode(s, s.chain[i], Shared, At(s.chain, i - 1), s.pushed[k].data)
    && s.pushed[k].wasEmpty == (i == 0)
  }

  /** The list holds the pushes since the last exchange. */
  ghost predicate ListOk(s: State) {
    && |s.pushed| == Taken(s.batches) + |s.chain| && Distinct(s.chain)
    && s.head == Fat(At(s.chain, |s.chain| - 1), if s.chain == [] then 0 else 1)
    && (forall i | 0 <= i < |s.chain| :: ListNode(s, i))
  }

  ghost predicate BatchOk(s: State, b: nat)
    requires b < |s.batches|
  {
    var x := s.batches[b];
    && x.lo == Taken(s.batches[..b]) && x.lo < x.hi <= |s.pushed|
    && |x.got| <= x.hi - x.lo
    && (forall i | 0 <= i < |x.got| :: x.got[i] == s.pushed[x.lo + i].data)
    && (forall i | x.lo <= i < x.hi :: s.pushed[i].wasEmpty == (i == x.lo))
  }

  /** Node j of the batch is t's, holds its item and is linked to the next newer node, or to
      the next older one as pushed. */
  ghost predicate BatchNode(s: State, t: Tid, nodes: seq<Ptr>, b: nat, j: nat, newer: bool)
    requires b < |s.batches| && j < |nodes|
  {
    var x := s.batches[b];
    && x.lo + j < |s.pushed|
    && IsNode(s, nodes[j], Private(t), At(nodes, if newer then j + 1 else j - 1), s.pushed[x.lo + j].data)
  }

  ghost predicate ThreadOk(s: State, t: Tid)
    requires t in s.pcs
  {
    match s.pcs[t]
    case PushCas(item, seen, _) =>
      item in s.heap && IsNode(s, item, Private(t), seen.ptr, s.heap[item].data)
    case Reversing(head, prev, nodes, left, b) =>
      && b < |s.batches| && |nodes| == s.batches[b].hi - s.batches[b].lo && s.batches[b].got == []
      && Distinct(nodes) && 0 < left < |nodes| && head == nodes[left] && prev == nodes[left - 1]
      && (forall j | 0 <= j < left :: BatchNode(s, t, nodes, b, j, false))
      && (forall j | left <= j < |nodes| :: BatchNode(s, t, nodes, b, j, true))
    case Draining(head, nodes, b) =>
      && b < |s.batches| && |nodes| == s.batches[b].hi - s.batches[b].lo
      && Distinct(nodes) && |s.batches[b].got| < |nodes| && head == nodes[|s.batches[b].got|]
      && (forall j | |s.batches[b].got| <= j < |nodes| :: BatchNode(s, t, nodes, b, j, true))
    case _ => true
  }

  /** Thread t is working on batch b. */
  ghost predicate WorksOn(s: State, t: Tid, b: nat) {
    t in s.pcs && (s.pcs[t].Reversing? || s.pcs[t].Draining?) && s.pcs[t].b == b
  }

  /** The single waiter: it sleeps on an empty queue, or a wake is on its way, or none was asked for. */
  ghost predicate WaiterOk(s: State) {
    && (forall t | t in s.pcs && (s.pcs[t] == Asleep || s.pcs[t] == WaitPark) :: t == s.waiter)
    && (s.waiter in s.pcs && s.pcs[s.waiter] == Asleep && s.head.ptr != NULL && !s.quiet ==>
          exists t :: t in s.pcs && s.pcs[t] == PushNotify)
  }

  /** Every batch that is not yet delivered has exactly one thread working on it. */
  ghost predicate WorkOk(s: State) {
    && (forall t, u, b | WorksOn(s, t, b) && WorksOn(s, u, b) :: t == u)
    && (forall b | 0 <= b < |s.batches| :: Finished(s.batches[b]) || exists t :: WorksOn(s, t, b))
  }

  predicate Finished(x: Batch) {
    |x.got| == x.hi - x.lo
  }

  ghost predicate HeapOk(s: State) {
    NULL !in s.heap && s.heap.Keys == s.owner.Keys
  }

  ghost predicate BatchesOk(s: State) {
    forall b | 0 <= b < |s.batches| :: BatchOk(s, b)
  }

  ghost predicate Inv(s: State) {
    && HeapOk(s) && ListOk(s) && BatchesOk(s) && WorkOk(s) && WaiterOk(s)
    && (forall t | t in s.pcs :: ThreadOk(s, t))
  }

  // -- What a step of one thread leaves alone ------------------------------------------

  /** From s to m, thread t did not touch other threads' nodes or batches. */
  ghost predicate Framed(s: State, m: State, t: Tid) {
    && (forall p | p in s.owner && s.owner[p].Private? && s.owner[p].t != t ::
          p in m.heap && p in m.owner && m.owner[p] == s.owner[p] && p in s.heap && m.heap[p] == s.heap[p])
    && s.pushed <= m.pushed && |s.batches| <= |m.batches|
    && (forall b | 0 <= b < |s.batches| :: m.batches[b] == s.batches[b] || WorksOn(s, t, b))
  }

  lemma NodeFramed(s: State, m: State, t: Tid, u: Tid, nodes: seq<Ptr>, b: nat, j: nat, newer: bool)
    requires Framed(s, m, t) && u != t && b < |s.batches| && m.batches[b] == s.batches[b] && j < |nodes|
    requires BatchNode(s, u, nodes, b, j, newer)
    ensures BatchNode(m, u, nodes, b, j, newer)
  {
  }

  lemma OtherOk(s: State, m: State, t: Tid, u: Tid)
    requires WorkOk(s) && Framed(s, m, t) && u != t && u in s.pcs && u in m.pcs && m.pcs[u] == s.pcs[u]
    requires ThreadOk(s, u)
    ensures ThreadOk(m, u)
  {
    if s.pcs[u].Reversing? || s.pcs[u].Draining? {
      var nodes, b := s.pcs[u].nodes, s.pcs[u].b;
      assert WorksOn(s, u, b);
      assert m.batches[b] == s.batches[b];
      forall j, newer | 0 <= j < |nodes| && BatchNode(s, u, nodes, b, j, newer) ensures BatchNode(m, u, nodes, b, j, newer) {
        NodeFramed(s, m, t, u, nodes, b, j, newer);
      }
      hide BatchNode, WorkOk, Framed;
    }
  }

  lemma OthersOk(s: State, m: State, t: Tid)
    requires Inv(s) && Framed(s, m, t) && t in s.pcs && s.pcs.Keys == m.pcs.Keys
    requires forall u | u in s.pcs && u != t :: m.pcs[u] == s.pcs[u]
    requires ThreadOk(m, t)
    ensures forall u | u in m.pcs :: ThreadOk(m, u)
  {
    hide ThreadOk, Framed, ListOk, BatchesOk, WaiterOk;
    forall u | u in m.pcs ensures ThreadOk(m, u) {
      if u != t { OtherOk(s, m, t, u); }
    }
  }

  predicate Consuming(pc: Pc) {
    pc.Reversing? || pc.Draining?
  }

  /** A step that takes no batch and finishes none. */
  lemma WorkSame(s: State, m: State, t: Tid)
    requires WorkOk(s) && t in s.pcs && m.batches == s.batches && s.pcs.Keys == m.pcs.Keys
    requires forall u | u in s.pcs && u != t :: m.pcs[u] == s.pcs[u]
    requires !Consuming(s.pcs[t]) && !Consuming(m.pcs[t])
    ensures WorkOk(m)
  {
    assert forall u, b :: WorksOn(m, u, b) <==> WorksOn(s, u, b);
  }

  lemma IdleOk(s: State, t: Tid)
    requires t in s.pcs && !Consuming(s.pcs[t]) && !s.pcs[t].PushCas?
    ensures ThreadOk(s, t)
  {
  }

  /** Only the program counter of t changes, outside of the consumer's work. */
  lemma LocalOk(s: State, t: Tid, pc: Pc)
    requires Inv(s) && t in s.pcs && !Consuming(s.pcs[t]) && !s.pcs[t].PushNotify?
    requires pc == Idle || pc == PopExchange || pc == PushNotify || (t == s.waiter && (pc == WaitPark || (pc == Asleep && s.head.ptr == NULL)))
    ensures Inv(s.(pcs := s.pcs[t := pc]))
  {
    hide ListOk, BatchesOk, WorkOk, ThreadOk;
    var m := s.(pcs := s.pcs[t := pc]);
    WorkSame(s, m, t);
    IdleOk(m, t);
    OthersOk(s, m, t);
    SameList(s, m);
    SameBatches(s, m);
    if u :| u in s.pcs && s.pcs[u] == PushNotify {
      assert u in m.pcs && m.pcs[u] == PushNotify;
    }
  }

  lemma SameList(s: State, m: State)
    requires ListOk(s) && m.head == s.head && m.chain == s.chain && m.pushed == s.pushed
    requires Taken(m.batches) == Taken(s.batches)
    requires forall p | p in s.heap && p in s.owner && s.owner[p] == Shared ::
               p in m.heap && p in m.owner && m.owner[p] == Shared && m.heap[p] == s.heap[p]
    ensures ListOk(m)
  {
    forall i | 0 <= i < |m.chain| ensures ListNode(m, i) {
      assert ListNode(s, i);
    }
  }

  lemma SameBatches(s: State, m: State)
    requires BatchesOk(s) && s.pushed <= m.pushed && s.batches == m.batches
    ensures BatchesOk(m)
  {
    forall b | 0 <= b < |m.batches| ensures BatchOk(m, b) {
      assert BatchOk(s, b);
    }
  }

  /** The wake stays on its way if its sender has not moved and the waiter fell asleep earlier. */
  lemma SameWaiter(s: State, m: State, t: Tid)
    requires WaiterOk(s) && t in s.pcs && s.pcs.Keys == m.pcs.Keys && m.waiter == s.waiter
    requires forall u | u in s.pcs && u != t :: m.pcs[u] == s.pcs[u]
    requires !s.pcs[t].PushNotify? && m.pcs[t] != Asleep && m.pcs[t] != WaitPark
    requires m.head.ptr != NULL ==> if s.head.ptr == NULL then m.pcs[t] == PushNotify || m.quiet else m.quiet == s.quiet
    ensures WaiterOk(m)
  {
    if u :| u in s.pcs && s.pcs[u] == PushNotify {
      assert u in m.pcs && m.pcs[u] == PushNotify;
    }
  }

  lemma StartPushOk(s: State, t: Tid, data: Item, p: Ptr, notify: bool)
    requires Inv(s) && Enabled(s, t, Push(data, p, notify)) && s.pcs[t] == Idle
    ensures Inv(Apply(s, t, Push(data, p, notify)))
  {
    hide BatchesOk, ListOk, WorkOk, WaiterOk;
    var m := Apply(s, t, Push(data, p, notify));
    WorkSame(s, m, t);
    OthersOk(s, m, t);
    SameList(s, m);
    SameBatches(s, m);
    SameWaiter(s, m, t);
  }

  lemma RelinkOk(s: State, t: Tid, choice: Choice)
    requires Inv(s) && Enabled(s, t, choice) && s.pcs[t].PushCas? && s.head != s.pcs[t].seen
    ensures Safe(s, t) && Inv(Apply(s, t, choice))
  {
    hide BatchesOk, ListOk, WorkOk, WaiterOk;
    assert ThreadOk(s, t);
    var m := Apply(s, t, choice);
    WorkSame(s, m, t);
    OthersOk(s, m, t);
    SameList(s, m);
    SameBatches(s, m);
    SameWaiter(s, m, t);
  }

  /** An empty list is a null head. */
  lemma HeadNull(s: State)
    requires HeapOk(s) && ListOk(s)
    ensures s.head.ptr == NULL <==> s.chain == []
  {
    if s.chain != [] { assert ListNode(s, |s.chain| - 1); }
  }

  lemma ListGrows(s: State, m: State, item: Ptr, t: Tid)
    requires HeapOk(s) && ListOk(s) && item in s.heap && IsNode(s, item, Private(t), s.head.ptr, s.heap[item].data)
    requires m.heap == s.heap && m.owner == s.owner[item := Shared] && m.batches == s.batches
    requires m.head == Fat(item, 1) && m.chain == s.chain + [item]
    requires m.pushed == s.pushed + [Pushed(s.heap[item].data, s.head.ptr == NULL)]
    ensures ListOk(m)
  {
    HeadNull(s);
    forall i | 0 <= i < |m.chain| ensures ListNode(m, i) && (i < |s.chain| ==> m.chain[i] != item) {
      if i < |s.chain| {
        assert ListNode(s, i);
        assert At(m.chain, i - 1) == At(s.chain, i - 1);
      }
    }
  }

  /** The compare-and-swap succeeds: whichever node the head is now, it is the one the item
      is linked to, and the item becomes the newest of the list. */
  lemma PushOk(s: State, t: Tid, choice: Choice)
    requires Inv(s) && Enabled(s, t, choice) && s.pcs[t].PushCas? && s.head == s.pcs[t].seen
    ensures Safe(s, t) && Inv(Apply(s, t, choice))
  {
    hide BatchesOk, ListOk, WorkOk, WaiterOk;
    assert ThreadOk(s, t);
    var m := Apply(s, t, choice);
    WorkSame(s, m, t);
    OthersOk(s, m, t);
    SameBatches(s, m);
    SameWaiter(s, m, t);
    ListGrows(s, m, s.pcs[t].item, t);
  }

  lemma NotifyOk(s: State, t: Tid, choice: Choice)
    requires Inv(s) && Enabled(s, t, choice) && s.pcs[t] == PushNotify
    ensures Inv(Apply(s, t, choice))
  {
    hide ListOk, BatchesOk, WorkOk, ThreadOk;
    var mid := s.(pcs := WakeOne(s.pcs, s.waiter));
    var m := Apply(s, t, choice);
    if s.waiter in s.pcs && s.pcs[s.waiter] == Asleep {
      LocalOk(s, s.waiter, Idle);
    } else {
      assert mid == s;
    }
    assert m == mid.(pcs := mid.pcs[t := Idle]);
    WorkSame(mid, m, t);
    IdleOk(m, t);
    OthersOk(mid, m, t);
    SameList(s, m);
    SameBatches(s, m);
  }

  // -- The consumer -------------------------------------------------------------------

  /** The exchange turns the whole list into a new batch. */
  lemma NewBatchOk(s: State, m: State)
    requires ListOk(s) && BatchesOk(s) && s.chain != []
    requires m.batches == s.batches + [Batch(Taken(s.batches), |s.pushed|, [])] && m.pushed == s.pushed
    ensures BatchesOk(m)
  {
    forall b | 0 <= b < |m.batches| ensures BatchOk(m, b) {
      if b < |s.batches| {
        assert BatchOk(s, b);
        assert m.batches[..b] == s.batches[..b];
      } else {
        assert m.batches[..b] == s.batches;
        var lo := Taken(s.batches);
        forall i | lo <= i < |s.pushed| ensures m.pushed[i].wasEmpty == (i == lo) {
          assert ListNode(s, i - lo);
        }
      }
    }
  }

  /** The taken list, its newest node cut off, is ready to be reversed. */
  lemma TakenNode(s: State, m: State, t: Tid, j: nat)
    requires HeapOk(s) && ListOk(s) && j < |s.chain|
    requires m.owner == OwnAll(s.owner, s.chain, t) && m.pushed == s.pushed
    requires m.heap == s.heap[s.head.ptr := Node(NULL, if s.head.ptr in s.heap then s.heap[s.head.ptr].data else 0)]
    requires m.batches == s.batches + [Batch(Taken(s.batches), |s.pushed|, [])]
    ensures BatchNode(m, t, s.chain, |s.batches|, j, j == |s.chain| - 1)
  {
    assert ListNode(s, j);
    assert ListNode(s, |s.chain| - 1);
  }

  lemma WorkTaken(s: State, m: State, t: Tid)
    requires WorkOk(s) && t in s.pcs && !Consuming(s.pcs[t]) && s.pcs.Keys == m.pcs.Keys
    requires forall u | u in s.pcs && u != t :: m.pcs[u] == s.pcs[u]
    requires forall u | u in s.pcs && Consuming(s.pcs[u]) :: s.pcs[u].b < |s.batches|
    requires |m.batches| == |s.batches| + 1 && s.batches == m.batches[..|s.batches|]
    requires WorksOn(m, t, |s.batches|)
    ensures WorkOk(m)
  {
    forall b | 0 <= b < |m.batches| ensures Finished(m.batches[b]) || exists u :: WorksOn(m, u, b) {
      if b < |s.batches| && !Finished(s.batches[b]) {
        var u :| WorksOn(s, u, b);
        assert WorksOn(m, u, b);
      }
    }
    forall u, v, b: nat | WorksOn(m, u, b) && WorksOn(m, v, b) ensures u == v {
      if u != t && v != t { assert WorksOn(s, u, b) && WorksOn(s, v, b); }
    }
  }

  lemma ExchangeFramed(s: State, m: State, t: Tid)
    requires HeapOk(s) && ListOk(s) && s.head.ptr in s.heap && s.chain != []
    requires m.owner == OwnAll(s.owner, s.chain, t) && m.pushed == s.pushed && s.batches <= m.batches
    requires m.heap == s.heap[s.head.ptr := Node(NULL, s.heap[s.head.ptr].data)]
    ensures Framed(s, m, t)
  {
    forall p | p in s.chain ensures p in s.owner && s.owner[p] == Shared {
      var i :| 0 <= i < |s.chain| && s.chain[i] == p;
      assert ListNode(s, i);
    }
  }

  lemma HeadNode(s: State)
    requires HeapOk(s) && ListOk(s) && s.head.ptr != NULL
    ensures s.chain != [] && s.head.ptr in s.heap
  {
    HeadNull(s);
    assert ListNode(s, |s.chain| - 1);
  }

  lemma EmptyList(s: State)
    requires s.chain == [] && s.head == Fat(NULL, 0) && |s.pushed| == Taken(s.batches)
    ensures ListOk(s)
  {
  }

  lemma BatchKnown(s: State, u: Tid)
    requires u in s.pcs && ThreadOk(s, u)
    ensures Consuming(s.pcs[u]) ==> s.pcs[u].b < |s.batches|
  {
  }

  lemma ExchangeOk(s: State, t: Tid, choice: Choice)
    requires Inv(s) && Enabled(s, t, choice) && s.pcs[t] == PopExchange && s.head.ptr != NULL
    ensures Safe(s, t) && Inv(Apply(s, t, choice))
  {
    hide ListOk, BatchesOk, WorkOk, ThreadOk, Framed;
    HeadNode(s);
    var m := Apply(s, t, choice);
    EmptyList(m);
    NewBatchOk(s, m);
    ExchangeFramed(s, m, t);
    TakenOk(s, m, t);
    forall u | u in s.pcs ensures Consuming(s.pcs[u]) ==> s.pcs[u].b < |s.batches| {
      BatchKnown(s, u);
    }
    WorkTaken(s, m, t);
    OthersOk(s, m, t);
  }

  lemma TakenOk(s: State, m: State, t: Tid)
    requires HeapOk(s) && ListOk(s) && s.chain != [] && s.head.ptr in s.heap && t in m.pcs
    requires m.owner == OwnAll(s.owner, s.chain, t) && m.pushed == s.pushed
    requires m.heap == s.heap[s.head.ptr := Node(NULL, s.heap[s.head.ptr].data)]
    requires m.batches == s.batches + [Batch(Taken(s.batches), |s.pushed|, [])]
    requires var h, b := s.head.ptr, |s.batches|;
             var prev := s.heap[h].link;
             m.pcs[t] == if prev == NULL then Draining(h, s.chain, b) else Reversing(h, prev, s.chain, |s.chain| - 1, b)
    ensures ThreadOk(m, t)
  {
    var top, b := |s.chain| - 1, |s.batches|;
    assert ListNode(s, top);
    if top > 0 { assert ListNode(s, top - 1); }
    TakenNode(s, m, t, top);
    forall j | 0 <= j < top ensures BatchNode(m, t, s.chain, b, j, false) {
      TakenNode(s, m, t, j);
    }
    hide BatchNode;
  }

  /** One round of the reversal: the next older node is turned round to the one before. */
  lemma ReversedOne(s: State, t: Tid, choice: Choice)
    requires HeapOk(s) && Enabled(s, t, choice) && s.pcs[t].Reversing? && ThreadOk(s, t)
    ensures Safe(s, t)
    ensures var m := Apply(s, t, choice);
            ThreadOk(m, t) && Consuming(m.pcs[t]) && m.pcs[t].b == s.pcs[t].b
    ensures s.pcs[t].prev in s.owner && s.owner[s.pcs[t].prev] == Private(t) && s.pcs[t].b < |s.batches|
  {
    var nodes, left, b := s.pcs[t].nodes, s.pcs[t].left, s.pcs[t].b;
    assert BatchNode(s, t, nodes, b, left - 1, false);
    if left > 1 { assert BatchNode(s, t, nodes, b, left - 2, false); }
    var m := Apply(s, t, choice);
    forall j | 0 <= j < left - 1 ensures BatchNode(m, t, nodes, b, j, false) {
      assert BatchNode(s, t, nodes, b, j, false);
    }
    forall j | left - 1 <= j < |nodes| ensures BatchNode(m, t, nodes, b, j, true) {
      if j >= left { assert BatchNode(s, t, nodes, b, j, true); }
    }
    hide BatchNode;
  }

  lemma ReverseOk(s: State, t: Tid, choice: Choice)
    requires Inv(s) && Enabled(s, t, choice) && s.pcs[t].Reversing?
    ensures Safe(s, t) && Inv(Apply(s, t, choice))
  {
    hide ListOk, BatchesOk, WorkOk, WaiterOk, ThreadOk;
    ReversedOne(s, t, choice);
    var m := Apply(s, t, choice);
    WorkMoved(s, m, t);
    SameList(s, m);
    SameBatches(s, m);
    SameWaiter(s, m, t);
    OthersOk(s, m, t);
  }

  /** The thread goes on with its batch, or has finished it. */
  lemma WorkMoved(s: State, m: State, t: Tid)
    requires WorkOk(s) && t in s.pcs && Consuming(s.pcs[t]) && s.pcs.Keys == m.pcs.Keys && |m.batches| == |s.batches|
    requires forall u | u in s.pcs && u != t :: m.pcs[u] == s.pcs[u]
    requires forall b | 0 <= b < |s.batches| && b != s.pcs[t].b :: m.batches[b] == s.batches[b]
    requires s.pcs[t].b < |s.batches|
    requires if Consuming(m.pcs[t]) then m.pcs[t].b == s.pcs[t].b else Finished(m.batches[s.pcs[t].b])
    ensures WorkOk(m)
  {
    assert WorksOn(s, t, s.pcs[t].b);
    forall b | 0 <= b < |m.batches| ensures Finished(m.batches[b]) || exists u :: WorksOn(m, u, b) {
      if Consuming(m.pcs[t]) && b == s.pcs[t].b {
        assert WorksOn(m, t, b);
      } else if b != s.pcs[t].b && !Finished(s.batches[b]) {
        var u :| WorksOn(s, u, b);
        assert WorksOn(m, u, b);
      }
    }
    assert forall u, b: nat :: WorksOn(m, u, b) ==> WorksOn(s, u, b);
  }

  lemma DrainBatches(s: State, m: State, b: nat, data: Item)
    requires BatchesOk(s) && b < |s.batches| && m.pushed == s.pushed
    requires m.batches == s.batches[b := s.batches[b].(got := s.batches[b].got + [data])]
    requires |s.batches[b].got| < s.batches[b].hi - s.batches[b].lo
    requires BatchOk(s, b) && data == s.pushed[s.batches[b].lo + |s.batches[b].got|].data
    ensures BatchesOk(m) && Taken(m.batches) == Taken(s.batches)
  {
    forall c | 0 <= c < |m.batches| ensures BatchOk(m, c) {
      assert BatchOk(s, c);
      assert Taken(m.batches[..c]) == Taken(s.batches[..c]);
    }
  }

  /** The consumer takes the next item and deletes its node. */
  lemma DrainedOne(s: State, t: Tid, choice: Choice)
    requires HeapOk(s) && BatchesOk(s) && Enabled(s, t, choice) && s.pcs[t].Draining? && ThreadOk(s, t)
    ensures Safe(s, t)
    ensures var m := Apply(s, t, choice);
            && ThreadOk(m, t) && BatchesOk(m) && Taken(m.batches) == Taken(s.batches)
            && if Consuming(m.pcs[t]) then m.pcs[t].b == s.pcs[t].b else m.pcs[t] == Idle && Finished(m.batches[s.pcs[t].b])
    ensures s.pcs[t].head in s.owner && s.owner[s.pcs[t].head] == Private(t)
  {
    var nodes, b := s.pcs[t].nodes, s.pcs[t].b;
    var i := |s.batches[b].got|;
    assert BatchNode(s, t, nodes, b, i, true);
    if i + 1 < |nodes| { assert BatchNode(s, t, nodes, b, i + 1, true); }
    var m := Apply(s, t, choice);
    assert BatchOk(s, b);
    DrainBatches(s, m, b, s.heap[nodes[i]].data);
    hide BatchesOk, BatchOk;
    forall j | i < j < |nodes| ensures BatchNode(m, t, nodes, b, j, true) {
      assert BatchNode(s, t, nodes, b, j, true);
    }
    hide BatchNode;
  }

  lemma DrainOk(s: State, t: Tid, choice: Choice)
    requires Inv(s) && Enabled(s, t, choice) && s.pcs[t].Draining?
    ensures Safe(s, t) && Inv(Apply(s, t, choice))
  {
    hide ListOk, BatchesOk, WorkOk, WaiterOk, ThreadOk;
    DrainedOne(s, t, choice);
    var m := Apply(s, t, choice);
    assert WorksOn(s, t, s.pcs[t].b);
    WorkMoved(s, m, t);
    SameList(s, m);
    SameWaiter(s, m, t);
    OthersOk(s, m, t);
  }

  // -- Every run ----------------------------------------------------------------------

  /** No step touches a node that has been deleted, and every step keeps the invariant. */
  lemma InvStep(s: State, t: Tid, choice: Choice)
    requires Inv(s) && Enabled(s, t, choice)
    ensures Safe(s, t) && Inv(Apply(s, t, choice))
  {
    hide ListOk, BatchesOk, WorkOk, ThreadOk;
    match s.pcs[t]
    case Idle =>
      if choice.Push? {
        StartPushOk(s, t, choice.data, choice.node, choice.notify);
      } else if choice.Stay? {
      } else {
        LocalOk(s, t, Apply(s, t, choice).pcs[t]);
      }
    case PushCas(_, seen, _) => if s.head == seen { PushOk(s, t, choice); } else { RelinkOk(s, t, choice); }
    case PushNotify => NotifyOk(s, t, choice);
    case PopExchange =>
      if s.head.ptr != NULL { ExchangeOk(s, t, choice); } else { EmptyHead(s); LocalOk(s, t, Idle); }
    case Reversing(_, _, _, _, _) => ReverseOk(s, t, choice);
    case Draining(_, _, _) => DrainOk(s, t, choice);
    case WaitPark =>
      EmptyHead(s);
      LocalOk(s, t, Apply(s, t, choice).pcs[t]);
    case Asleep => LocalOk(s, t, Idle);
  }

  /** is_non_null always agrees with the pointer. */
  lemma EmptyHead(s: State)
    requires HeapOk(s) && ListOk(s)
    ensures s.head.ptr == NULL <==> s.head.isNonNull == 0
    ensures s.head.ptr == NULL ==> s.head == Fat(NULL, 0)
  {
    HeadNull(s);
  }

  ghost predicate Init(s: State) {
    && s.heap == map[] && s.owner == map[] && s.head == Fat(NULL, 0) && s.chain == []
    && s.pushed == [] && s.batches == []
    && forall t | t in s.pcs :: s.pcs[t] == Idle
  }

  datatype Event = Event(t: Tid, choice: Choice)

  ghost predicate Run(s: State, events: seq<Event>, r: State)
    decreases |events|
  {
    if events == [] then s == r
    else
      var e := events[0];
      Enabled(s, e.t, e.choice) && Safe(s, e.t) && Run(Apply(s, e.t, e.choice), events[1..], r)
  }

  ghost predicate Reachable(r: State) {
    exists s, events :: Init(s) && Run(s, events, r)
  }

  lemma {:induction false} InvRun(s: State, events: seq<Event>, r: State)
    requires Inv(s) && Run(s, events, r)
    ensures Inv(r)
    decreases |events|
  {
    if events != [] {
      hide Inv;
      InvStep(s, events[0].t, events[0].choice);
      InvRun(Apply(s, events[0].t, events[0].choice), events[1..], r);
    }
  }

  lemma InvReachable(r: State)
    requires Reachable(r)
    ensures Inv(r)
  {
    var s, events :| Init(s) && Run(s, events, r);
    assert forall t, b: nat :: !WorksOn(s, t, b);
    InvRun(s, events, r);
  }

  // -- What the queue promises --------------------------------------------------------

  /** No thread ever touches a deleted node, although pointers are used again. */
  lemma NoDanglingAccess(s: State, t: Tid)
    requires Reachable(s) && t in s.pcs
    ensures Safe(s, t)
  {
    InvReachable(s);
    InvStep(s, t, Stay);
  }

  function Items(pushed: seq<Pushed>): (r: seq<Item>)
    ensures |r| == |pushed|
  {
    seq(|pushed|, i requires 0 <= i < |pushed| => pushed[i].data)
  }

  /** Each consumer gets its batch in push order, and in each batch exactly the first push was
      told that it found the queue empty. */
  lemma BatchesInOrder(s: State, b: nat)
    requires Reachable(s) && b < |s.batches|
    ensures var x := s.batches[b];
            && x.lo == (if b == 0 then 0 else s.batches[b - 1].hi) && x.lo < x.hi <= |s.pushed|
            && x.got <= Items(s.pushed[x.lo..x.hi])
            && s.pushed[x.lo].wasEmpty && forall i | x.lo < i < x.hi :: !s.pushed[i].wasEmpty
  {
    InvReachable(s);
    assert BatchOk(s, b);
  }

  /** Node j of batch b is still to be delivered and thread t has it. */
  ghost predicate Held(s: State, t: Tid, b: nat, j: nat) {
    && WorksOn(s, t, b) && b < |s.batches| && j < |s.pcs[t].nodes|
    && var p := s.pcs[t].nodes[j];
       && p in s.heap && p in s.owner && s.owner[p] == Private(t)
       && s.batches[b].lo + j < |s.pushed| && s.heap[p].data == s.pushed[s.batches[b].lo + j].data
  }

  /** What the nodes of batch b that are not yet delivered hold, oldest first. */
  ghost function Outstanding(s: State, b: nat): seq<Item>
    requires b < |s.batches|
  {
    if exists t :: WorksOn(s, t, b) then
      var t :| WorksOn(s, t, b);
      ItemsFrom(s, s.pcs[t].nodes, |s.batches[b].got|)
    else []
  }

  function ItemsFrom(s: State, nodes: seq<Ptr>, k: nat): (items: seq<Item>)
    ensures |items| == if k <= |nodes| then |nodes| - k else 0
    decreases |nodes| - k
  {
    if k >= |nodes| then [] else [ItemAt(s, nodes[k])] + ItemsFrom(s, nodes, k + 1)
  }

  lemma {:induction false} ItemsFromAt(s: State, nodes: seq<Ptr>, k: nat, j: nat)
    requires k <= j < |nodes|
    ensures ItemsFrom(s, nodes, k)[j - k] == ItemAt(s, nodes[j])
    decreases j - k
  {
    if k < j {
      ItemsFromAt(s, nodes, k + 1, j);
    }
  }

  function ItemAt(s: State, p: Ptr): Item {
    if p in s.heap then s.heap[p].data else 0
  }

  /** What the consumers of the first k batches have got and still hold. */
  ghost function Accounted(s: State, k: nat): seq<Item>
    requires k <= |s.batches|
  {
    if k == 0 then [] else Accounted(s, k - 1) + (s.batches[k - 1].got + Outstanding(s, k - 1))
  }

  /** What the list holds. */
  function Queued(s: State): seq<Item> {
    seq(|s.chain|, i requires 0 <= i < |s.chain| => ItemAt(s, s.chain[i]))
  }

  /** The one thread that works on a batch has the rest of it in nodes of its own. */
  lemma RestIsHeld(s: State, t: Tid, b: nat, j: nat)
    requires Inv(s) && WorksOn(s, t, b) && b < |s.batches| && |s.batches[b].got| <= j < s.batches[b].hi - s.batches[b].lo
    ensures |s.pcs[t].nodes| == s.batches[b].hi - s.batches[b].lo && Held(s, t, b, j)
  {
    hide ListOk, BatchesOk, WorkOk, WaiterOk;
    assert ThreadOk(s, t);
    if s.pcs[t].Reversing? {
      assert j < s.pcs[t].left ==> BatchNode(s, t, s.pcs[t].nodes, b, j, false);
      assert j >= s.pcs[t].left ==> BatchNode(s, t, s.pcs[t].nodes, b, j, true);
    } else {
      assert BatchNode(s, t, s.pcs[t].nodes, b, j, true);
    }
  }

  lemma WorkedSize(s: State, t: Tid, b: nat)
    requires Inv(s) && WorksOn(s, t, b)
    ensures b < |s.batches| && |s.pcs[t].nodes| == s.batches[b].hi - s.batches[b].lo
    ensures |s.batches[b].got| < |s.pcs[t].nodes|
  {
    hide ListOk, BatchesOk, WorkOk, WaiterOk;
    assert ThreadOk(s, t);
  }

  /** Got and held, a batch is whole. */
  lemma BatchWhole(s: State, b: nat)
    requires Inv(s) && b < |s.batches|
    ensures var x := s.batches[b];
            && x.lo == Taken(s.batches[..b]) && x.lo < x.hi <= |s.pushed|
            && x.got + Outstanding(s, b) == Items(s.pushed[x.lo..x.hi])
  {
    assert BatchOk(s, b);
    hide ListOk, WaiterOk, ThreadOk, ItemsFrom;
    if exists t :: WorksOn(s, t, b) {
      var t :| WorksOn(s, t, b) && Outstanding(s, b) == ItemsFrom(s, s.pcs[t].nodes, |s.batches[b].got|);
      WorkedWhole(s, t, b);
    } else {
      assert Finished(s.batches[b]);
    }
  }

  lemma WorkedWhole(s: State, t: Tid, b: nat)
    requires Inv(s) && b < |s.batches| && WorksOn(s, t, b) && BatchOk(s, b)
    ensures var x := s.batches[b];
            x.got + ItemsFrom(s, s.pcs[t].nodes, |x.got|) == Items(s.pushed[x.lo..x.hi])
  {
    hide Inv, ItemsFrom, ItemAt;
    WorkedSize(s, t, b);
    var x, nodes := s.batches[b], s.pcs[t].nodes;
    var rest, all := ItemsFrom(s, nodes, |x.got|), Items(s.pushed[x.lo..x.hi]);
    forall j | |x.got| <= j < |nodes|
      ensures rest[j - |x.got|] == all[j]
    {
      ItemsFromAt(s, nodes, |x.got|, j);
      HeldItem(s, t, b, j);
    }
    assert forall i | 0 <= i < |all| :: (x.got + rest)[i] == all[i];
  }

  lemma HeldItem(s: State, t: Tid, b: nat, j: nat)
    requires Inv(s) && WorksOn(s, t, b) && b < |s.batches| && |s.batches[b].got| <= j < s.batches[b].hi - s.batches[b].lo
    ensures j < |s.pcs[t].nodes| && s.batches[b].lo + j < |s.pushed|
    ensures ItemAt(s, s.pcs[t].nodes[j]) == s.pushed[s.batches[b].lo + j].data
  {
    hide Inv;
    RestIsHeld(s, t, b, j);
  }

  lemma {:induction false} AccountedFor(s: State, k: nat)
    requires Inv(s) && k <= |s.batches|
    ensures Taken(s.batches[..k]) <= |s.pushed| && Accounted(s, k) == Items(s.pushed[..Taken(s.batches[..k])])
  {
    hide Inv, Outstanding;
    if k > 0 {
      AccountedFor(s, k - 1);
      BatchWhole(s, k - 1);
      var x := s.batches[k - 1];
      assert s.batches[..k][|s.batches[..k]| - 1] == x;
      assert Items(s.pushed[..x.hi]) == Items(s.pushed[..x.lo]) + Items(s.pushed[x.lo..x.hi]);
    }
  }

  /** Exactly once, in order, in every reachable state: what the consumers have got and still hold,
      batch after batch, followed by what is queued, is what was pushed. */
  lemma ExactlyOnce(s: State)
    requires Reachable(s)
    ensures Accounted(s, |s.batches|) + Queued(s) == Items(s.pushed)
  {
    hide Inv, Accounted;
    InvReachable(s);
    AccountedFor(s, |s.batches|);
    assert s.batches[..|s.batches|] == s.batches;
    QueuedItems(s);
    var n := Taken(s.batches);
    assert Items(s.pushed) == Items(s.pushed[..n]) + Items(s.pushed[n..]);
  }

  lemma QueuedItems(s: State)
    requires Inv(s)
    ensures Taken(s.batches) <= |s.pushed| && Queued(s) == Items(s.pushed[Taken(s.batches)..])
  {
    forall i | 0 <= i < |s.chain|
      ensures ItemAt(s, s.chain[i]) == s.pushed[Taken(s.batches) + i].data
    {
      assert ListNode(s, i);
    }
  }

  /** No node is counted twice: each that is held or queued is one of its owner's only. */
  lemma EachNodeOnce(s: State, t: Tid, b: nat, j: nat, u: Tid, c: nat, k: nat)
    requires Reachable(s) && Held(s, t, b, j) && Held(s, u, c, k) && s.pcs[t].nodes[j] == s.pcs[u].nodes[k]
    ensures t == u && b == c && j == k
    ensures s.pcs[t].nodes[j] !in s.chain
  {
    InvReachable(s);
    hide BatchesOk, WorkOk, WaiterOk;
    assert ThreadOk(s, t);
    forall i | 0 <= i < |s.chain|
      ensures s.chain[i] != s.pcs[t].nodes[j]
    {
      assert ListNode(s, i);
    }
  }

  /** The waiting consumer is not left asleep on a list that was begun by a push that notifies: that
      push, or another thread, has still to wake it. */
  lemma WaiterNotStranded(s: State)
    requires Reachable(s) && s.waiter in s.pcs && s.pcs[s.waiter] == Asleep && s.chain != [] && !s.quiet
    ensures exists t :: t in s.pcs && s.pcs[t] == PushNotify
  {
    InvReachable(s);
    HeadNull(s);
  }

  /** On a list begun by a push that does not notify it can be: nobody is about to wake it. */
  lemma QuietPushStrands() returns (s: State)
    ensures Reachable(s) && s.quiet && s.chain != [] && s.waiter in s.pcs && s.pcs[s.waiter] == Asleep
    ensures forall t | t in s.pcs :: s.pcs[t] != PushNotify
  {
    hide Run;
    var s0 := State(map[], map[], Fat(NULL, 0), [], map[0 := Idle, 1 := Idle], [], [], 0, false);
    var s2 := s0.(pcs := s0.pcs[0 := WaitPark][0 := Asleep]);
    var events := QuietPush(s2);
    s := Apply(Apply(s2, 1, Push(5, 7, false)), 1, Stay);
    var s1 := s0.(pcs := s0.pcs[0 := WaitPark]);
    RunMore(s1, Event(0, Stay), events, s);
    RunMore(s0, Event(0, Wait), [Event(0, Stay)] + events, s);
    assert Init(s0);
  }

  /** The waiting consumer sleeps and nobody is about to wake it. */
  ghost predicate Unattended(s: State) {
    && s.waiter in s.pcs && s.pcs[s.waiter] == Asleep
    && forall t | t in s.pcs :: s.pcs[t] != PushNotify
  }

  /** And there is something on the list. */
  ghost predicate Stranded(s: State) {
    Unattended(s) && s.chain != []
  }

  /** From every reachable state in which it sleeps unattended on an empty list: a push leaves it stranded
      exactly if its argument Notify is false. */
  lemma StrandedExactly(s: State, t: Tid, data: Item, p: Ptr, notify: bool)
    requires Reachable(s) && Unattended(s) && s.chain == []
    requires t in s.pcs && s.pcs[t] == Idle && p != NULL && p !in s.heap
    ensures Enabled(s, t, Push(data, p, notify)) && Safe(s, t)
    ensures var m := Apply(s, t, Push(data, p, notify));
            Enabled(m, t, Stay) && Safe(m, t) && (Stranded(Apply(m, t, Stay)) <==> !notify)
  {
    InvReachable(s);
    HeadNull(s);
    hide Inv;
    var r := Apply(Apply(s, t, Push(data, p, notify)), t, Stay);
    assert t in r.pcs && r.pcs[t] == if notify then PushNotify else Idle;
  }

  /** The step in which a push that does not notify begins the list of an unattended waiter. */
  ghost predicate Strands(s: State, t: Tid) {
    && t in s.pcs && s.pcs[t].PushCas? && s.head == s.pcs[t].seen && s.chain == [] && !s.pcs[t].notify
    && Unattended(s)
  }

  /** No other step of any thread in any reachable state strands the waiter. */
  lemma StrandsExactly(s: State, t: Tid, choice: Choice)
    requires Reachable(s) && Enabled(s, t, choice) && !Stranded(s)
    ensures Safe(s, t) && (Stranded(Apply(s, t, choice)) <==> Strands(s, t))
  {
    NoDanglingAccess(s, t);
    InvReachable(s);
    HeadNull(s);
    EmptyHead(s);
    hide Inv, Stranded, Apply;
    if s.pcs[t].PushCas? {
      CasStrands(s, t, choice);
    } else if Stranded(Apply(s, t, choice)) {
      StrandedBefore(s, t, choice);
    }
  }

  lemma CasStrands(s: State, t: Tid, choice: Choice)
    requires Enabled(s, t, choice) && Safe(s, t) && s.pcs[t].PushCas? && !Stranded(s)
    requires s.head.ptr == NULL <==> s.chain == []
    ensures Stranded(Apply(s, t, choice)) <==> Strands(s, t)
  {
    var r := Apply(s, t, choice);
    if u :| u in s.pcs && s.pcs[u] == PushNotify {
      assert u in r.pcs && r.pcs[u] == PushNotify;
    }
    assert t in r.pcs;
  }

  lemma StrandedBefore(s: State, t: Tid, choice: Choice)
    requires Enabled(s, t, choice) && Safe(s, t) && !s.pcs[t].PushCas? && Stranded(Apply(s, t, choice))
    requires s.head.isNonNull == 0 <==> s.chain == []
    ensures Stranded(s)
  {
    var r := Apply(s, t, choice);
    forall u | u in s.pcs
      ensures s.pcs[u] != PushNotify
    {
      assert u in r.pcs && r.pcs[u] != PushNotify;
    }
  }

  /** A stranded waiter stays so until it wakes on its own, the list is taken, or notify() is called:
      further pushes do not help, whether they notify or not. */
  lemma RescuedExactly(s: State, t: Tid, choice: Choice)
    requires Reachable(s) && Enabled(s, t, choice) && Stranded(s)
    ensures Safe(s, t)
    ensures !Stranded(Apply(s, t, choice)) <==>
            t == s.waiter || s.pcs[t].PopExchange? || (s.pcs[t].Idle? && choice.Notify?)
  {
    NoDanglingAccess(s, t);
    InvReachable(s);
    HeadNull(s);
    hide Inv;
    var r := Apply(s, t, choice);
    assert t in r.pcs;
  }

  lemma QuietPush(s: State) returns (events: seq<Event>)
    requires 1 in s.pcs && s.pcs[1] == Idle && s.head == Fat(NULL, 0) && 7 !in s.heap
    ensures Enabled(s, 1, Push(5, 7, false)) && Safe(s, 1)
    ensures var m := Apply(s, 1, Push(5, 7, false));
            Enabled(m, 1, Stay) && Safe(m, 1) && Run(s, events, Apply(m, 1, Stay))
  {
    hide Run;
    var m := Apply(s, 1, Push(5, 7, false));
    var r := Apply(m, 1, Stay);
    Nothing(r);
    RunMore(m, Event(1, Stay), [], r);
    RunMore(s, Event(1, Push(5, 7, false)), [Event(1, Stay)] + [], r);
    events := [Event(1, Push(5, 7, false))] + ([Event(1, Stay)] + []);
  }

  lemma Nothing(s: State)
    ensures Run(s, [], s)
  {
  }

  lemma RunMore(s: State, e: Event, events: seq<Event>, r: State)
    requires Enabled(s, e.t, e.choice) && Safe(s, e.t) && Run(Apply(s, e.t, e.choice), events, r)
    ensures Run(s, [e] + events, r)
  {
    assert ([e] + events)[1..] == events;
  }

  lemma HeadFlagMatches(s: State)
    requires Reachable(s)
    ensures s.head.isNonNull == (if s.head.ptr != NULL then 1 else 0)
  {
    InvReachable(s);
    EmptyHead(s);
  }
}
