/** The lock-free bunch: a list that only grows, to which a thread may add an item on the
    condition that a predicate accepts it against every item already there. A thread whose
    compare-and-swap fails checks only the items added since its last attempt.

    Every comparison and every compare-and-swap is one step of one thread. A rejected item's
    pointer can be used again. */
module LockFreeBunch {
  import opened Nodes
  import opened Threads

  /** What an item is checked against: nothing (push), or a predicate (push_if). */
  datatype Rule = Always | If(pred: (Item, Item) -> bool)

  predicate Accepts(rule: Rule, item: Item, older: Item) {
    rule.If? ==> rule.pred(item, older)
  }

  /** Checking: about to compare with ptr, going back to chk. Adding: about to swap the head.
      The numbers are not in the code: how many of the list's oldest nodes lie up to chk, up to
      ptr and up to seen. */
  datatype Pc =
    | Idle
    | Checking(item: Ptr, rule: Rule, seen: Ptr, chk: Ptr, ptr: Ptr, upToChk: nat, upToPtr: nat, upToSeen: nat)
    | Adding(item: Ptr, rule: Rule, seen: Ptr, upToSeen: nat)

  datatype Choice = Push(data: Item, rule: Rule, node: Ptr) | Stay

  /** list: the nodes, oldest first; rules: under which rule each was added. */
  datatype State = State(
    heap: map<Ptr, Node>, owner: map<Ptr, Owner>, head: Ptr, pcs: map<Tid, Pc>,
    list: seq<Ptr>, rules: seq<Rule>)

  ghost predicate Enabled(s: State, t: Tid, choice: Choice) {
    t in s.pcs && (s.pcs[t].Idle? && choice.Push? ==> choice.node != NULL && choice.node !in s.heap)
  }

  /** The nodes that thread t touches next exist. */
  ghost predicate Safe(s: State, t: Tid)
    requires t in s.pcs
  {
    match s.pcs[t]
    case Idle => true
    case Checking(item, _, _, chk, ptr, _, upToPtr, _) => item in s.heap && (ptr != chk ==> ptr in s.heap && upToPtr > 0)
    case Adding(item, _, _, _) => item in s.heap
  }

  ghost function Apply(s: State, t: Tid, choice: Choice): State
    requires Enabled(s, t, choice) && Safe(s, t)
  {
    var n := |s.list|;
    match s.pcs[t]
    case Idle =>
      if choice.Push? then
        s.(heap := s.heap[choice.node := Node(s.head, choice.data)], owner := s.owner[choice.node := Private(t)],
           pcs := s.pcs[t := if choice.rule.If?
                             then Checking(choice.node, choice.rule, s.head, NULL, s.head, 0, n, n)
                             else Adding(choice.node, choice.rule, s.head, n)])
      else s
    case Checking(item, rule, seen, chk, ptr, a, b, c) =>
      if ptr == chk then s.(pcs := s.pcs[t := Adding(item, rule, seen, c)])
      else if !Accepts(rule, s.heap[item].data, s.heap[ptr].data) then
        s.(heap := s.heap - {item}, owner := s.owner - {item}, pcs := s.pcs[t := Idle])
      else s.(pcs := s.pcs[t := Checking(item, rule, seen, chk, s.heap[ptr].link, a, b - 1, c)])
    case Adding(item, rule, seen, c) =>
      if s.head == seen then
        s.(head := item, owner := s.owner[item := Shared], list := s.list + [item], rules := s.rules + [rule],
           pcs := s.pcs[t := Idle])
      else
        s.(heap := s.heap[item := Node(s.head, s.heap[item].data)],
           pcs := s.pcs[t := if rule.If? then Checking(item, rule, s.head, seen, s.head, c, n, n)
                             else Adding(item, rule, s.head, n)])
  }

  // -- The invariant ------------------------------------------------------------------

  ghost predicate ListNode(s: State, i: nat) {
    && i < |s.list| && s.list[i] in s.heap && s.list[i] in s.owner
    && s.owner[s.list[i]] == Shared && s.heap[s.list[i]].link == At(s.list, i - 1)
  }

  ghost predicate ListOk(s: State) {
    && NULL !in s.heap && s.heap.Keys == s.owner.Keys
    && Distinct(s.list) && |s.rules| == |s.list| && s.head == At(s.list, |s.list| - 1)
    && (forall i | 0 <= i < |s.list| :: ListNode(s, i))
  }

  /** The item is accepted against node i of the list. */
  ghost predicate Passed(s: State, item: Ptr, rule: Rule, i: nat) {
    item in s.heap && i < |s.list| && s.list[i] in s.heap && Accepts(rule, s.heap[item].data, s.heap[s.list[i]].data)
  }

  /** Every item of the list is accepted against every older one. */
  ghost predicate AllAccepted(s: State) {
    forall i, j | 0 <= i < j < |s.list| && j < |s.rules| :: Passed(s, s.list[j], s.rules[j], i)
  }

  ghost predicate Mine(s: State, t: Tid, item: Ptr, link: Ptr) {
    item in s.heap && item in s.owner && s.owner[item] == Private(t) && s.heap[item].link == link
  }

  ghost predicate ThreadOk(s: State, t: Tid)
    requires t in s.pcs
  {
    match s.pcs[t]
    case Idle => true
    case Checking(item, rule, seen, chk, ptr, a, b, c) =>
      && Mine(s, t, item, seen) && a <= b <= c <= |s.list|
      && chk == At(s.list, a - 1) && ptr == At(s.list, b - 1) && seen == At(s.list, c - 1)
      && (forall i | 0 <= i < a || b <= i < c :: Passed(s, item, rule, i))
    case Adding(item, rule, seen, c) =>
      && Mine(s, t, item, seen) && c <= |s.list| && seen == At(s.list, c - 1)
      && (forall i | 0 <= i < c :: Passed(s, item, rule, i))
  }

  ghost predicate Inv(s: State) {
    ListOk(s) && AllAccepted(s) && forall t | t in s.pcs :: ThreadOk(s, t)
  }

  /** Thread t left other threads' nodes and the list alone, except to extend it. */
  ghost predicate Framed(s: State, m: State, t: Tid) {
    && s.list <= m.list && s.rules <= m.rules
    && (forall p | p in s.owner && s.owner[p] != Private(t) ::
          p in m.heap && p in m.owner && m.owner[p] == s.owner[p] && p in s.heap && m.heap[p] == s.heap[p])
  }

  lemma OtherOk(s: State, m: State, t: Tid, u: Tid)
    requires ListOk(s) && Framed(s, m, t) && u != t && u in s.pcs && u in m.pcs && m.pcs[u] == s.pcs[u]
    requires ThreadOk(s, u)
    ensures ThreadOk(m, u)
  {
    if !s.pcs[u].Idle? {
      var item, rule := s.pcs[u].item, s.pcs[u].rule;
      forall i: nat | Passed(s, item, rule, i) ensures Passed(m, item, rule, i) {
        assert ListNode(s, i);
      }
      assert forall i | -1 <= i < |s.list| :: At(m.list, i) == At(s.list, i);
    }
  }

  /** What every step that adds nothing to the list keeps. */
  lemma QuietOk(s: State, m: State, t: Tid)
    requires Inv(s) && Framed(s, m, t) && t in s.pcs && s.pcs.Keys == m.pcs.Keys
    requires m.list == s.list && m.rules == s.rules && m.head == s.head
    requires NULL !in m.heap && m.heap.Keys == m.owner.Keys
    requires forall u | u in s.pcs && u != t :: m.pcs[u] == s.pcs[u]
    requires ThreadOk(m, t)
    ensures Inv(m)
  {
    hide ThreadOk;
    forall u | u in m.pcs ensures ThreadOk(m, u) {
      if u != t { OtherOk(s, m, t, u); }
    }
    forall i | 0 <= i < |m.list| ensures ListNode(m, i) {
      assert ListNode(s, i);
    }
    forall i, j | 0 <= i < j < |m.list| && j < |m.rules| ensures Passed(m, m.list[j], m.rules[j], i) {
      assert ListNode(s, i) && ListNode(s, j) && Passed(s, s.list[j], s.rules[j], i);
    }
  }

  lemma StartOk(s: State, t: Tid, choice: Choice)
    requires Inv(s) && Enabled(s, t, choice) && s.pcs[t].Idle? && choice.Push?
    ensures Inv(Apply(s, t, choice))
  {
    var m := Apply(s, t, choice);
    forall i: nat | i < |s.list| && choice.rule.Always? ensures Passed(m, choice.node, choice.rule, i) {
      assert ListNode(s, i);
    }
    QuietOk(s, m, t);
  }

  lemma CheckedOne(s: State, t: Tid, choice: Choice)
    requires ListOk(s) && Enabled(s, t, choice) && s.pcs[t].Checking? && ThreadOk(s, t)
    ensures Safe(s, t) && ThreadOk(Apply(s, t, choice), t)
  {
    var a, b := s.pcs[t].upToChk, s.pcs[t].upToPtr;
    if b > 0 { assert ListNode(s, b - 1); }
    if a > 0 { assert ListNode(s, a - 1); }
    var m := Apply(s, t, choice);
    var item, rule := s.pcs[t].item, s.pcs[t].rule;
    assert m.heap == s.heap ==> forall i: nat :: Passed(s, item, rule, i) ==> Passed(m, item, rule, i);
    hide ListOk;
  }

  lemma CheckOk(s: State, t: Tid, choice: Choice)
    requires Inv(s) && Enabled(s, t, choice) && s.pcs[t].Checking?
    ensures Safe(s, t) && Inv(Apply(s, t, choice))
  {
    CheckedOne(s, t, choice);
    assert Mine(s, t, s.pcs[t].item, s.pcs[t].seen) by { assert ThreadOk(s, t); }
    hide AllAccepted, ThreadOk;
    QuietOk(s, Apply(s, t, choice), t);
  }

  lemma RetryOk(s: State, t: Tid, choice: Choice)
    requires Inv(s) && Enabled(s, t, choice) && s.pcs[t].Adding? && s.head != s.pcs[t].seen
    ensures Safe(s, t) && Inv(Apply(s, t, choice))
  {
    assert ThreadOk(s, t);
    var m := Apply(s, t, choice);
    var item, rule := s.pcs[t].item, s.pcs[t].rule;
    forall i: nat | i < |s.list| && (Passed(s, item, rule, i) || rule.Always?) ensures Passed(m, item, rule, i) {
      assert ListNode(s, i);
    }
    hide AllAccepted;
    QuietOk(s, m, t);
  }

  /** A successful swap: the head is still the node seen, so the whole list has been checked. */
  lemma AddOk(s: State, t: Tid, choice: Choice)
    requires Inv(s) && Enabled(s, t, choice) && s.pcs[t].Adding? && s.head == s.pcs[t].seen
    ensures Safe(s, t) && Inv(Apply(s, t, choice))
  {
    assert ThreadOk(s, t);
    var item, c, n := s.pcs[t].item, s.pcs[t].upToSeen, |s.list|;
    if c > 0 { assert ListNode(s, c - 1); }
    if n > 0 { assert ListNode(s, n - 1); }
    assert c == n;
    var m := Apply(s, t, choice);
    AddedList(s, m, item, t);
    forall i, j | 0 <= i < j < |m.list| && j < |m.rules| ensures Passed(m, m.list[j], m.rules[j], i) {
      assert ListNode(s, i);
      if j < n { assert ListNode(s, j) && Passed(s, s.list[j], s.rules[j], i); }
      else { assert Passed(s, item, s.pcs[t].rule, i); }
    }
    hide ThreadOk, AllAccepted;
    forall u | u in m.pcs ensures ThreadOk(m, u) {
      if u != t { OtherAfterAdd(s, m, t, u, item); } else { IdleOk(m, t); }
    }
  }

  lemma IdleOk(s: State, t: Tid)
    requires t in s.pcs && s.pcs[t] == Idle
    ensures ThreadOk(s, t)
  {
  }

  lemma AddedList(s: State, m: State, item: Ptr, t: Tid)
    requires ListOk(s) && Mine(s, t, item, s.head)
    requires m.heap == s.heap && m.owner == s.owner[item := Shared] && m.head == item
    requires m.list == s.list + [item] && |m.rules| == |s.rules| + 1
    ensures ListOk(m)
  {
    forall i | 0 <= i < |m.list| ensures ListNode(m, i) && (i < |s.list| ==> m.list[i] != item) {
      if i < |s.list| { assert ListNode(s, i); }
      assert At(m.list, i - 1) == At(s.list, i - 1);
    }
  }

  lemma OtherAfterAdd(s: State, m: State, t: Tid, u: Tid, item: Ptr)
    requires ListOk(s) && u != t && u in s.pcs && u in m.pcs && m.pcs[u] == s.pcs[u] && ThreadOk(s, u)
    requires Mine(s, t, item, s.head) && m.heap == s.heap && m.owner == s.owner[item := Shared]
    requires m.list == s.list + [item] && s.rules <= m.rules
    ensures ThreadOk(m, u)
  {
    OtherOk(s, m, t, u);
  }

  lemma InvStep(s: State, t: Tid, choice: Choice)
    requires Inv(s) && Enabled(s, t, choice)
    ensures Safe(s, t) && Inv(Apply(s, t, choice))
  {
    hide ListOk, AllAccepted, ThreadOk;
    match s.pcs[t]
    case Idle => if choice.Push? { StartOk(s, t, choice); }
    case Checking(_, _, _, _, _, _, _, _) => CheckOk(s, t, choice);
    case Adding(_, _, seen, _) => if s.head == seen { AddOk(s, t, choice); } else { RetryOk(s, t, choice); }
  }

  // -- Every run ----------------------------------------------------------------------

  datatype Event = Event(t: Tid, choice: Choice)

  ghost predicate Init(s: State) {
    && s.heap == map[] && s.owner == map[] && s.head == NULL && s.list == [] && s.rules == []
    && forall t | t in s.pcs :: s.pcs[t] == Idle
  }

  ghost predicate Run(s: State, events: seq<Event>, r: State)
    decreases |events|
  {
    if events == [] then s == r
    else
      var e := events[0];
      Enabled(s, e.t, e.choice) && Safe(s, e.t) && Run(Apply(s, e.t, e.choice), events[1..], r)
  }

  ghost predicate Reachable(r: State) {
    exists s, events :: Init(s) && Run(s, events, r)
  }

  lemma {:induction false} InvRun(s: State, events: seq<Event>, r: State)
    requires Inv(s) && Run(s, events, r)
    ensures Inv(r) && s.list <= r.list && s.rules <= r.rules
    decreases |events|
  {
    if events != [] {
      var e := events[0];
      InvStep(s, e.t, e.choice);
      InvRun(Apply(s, e.t, e.choice), events[1..], r);
    }
  }

  lemma InvReachable(r: State)
    requires Reachable(r)
    ensures Inv(r)
  {
    var s, events :| Init(s) && Run(s, events, r);
    InvRun(s, events, r);
  }

  /** Every item added by push_if was accepted by its predicate against every older item of the
      list, in every interleaving, although no attempt looks at an item twice. */
  lemma AcceptedAgainstAllOlder(s: State, i: nat, j: nat)
    requires Reachable(s) && i < j < |s.list|
    ensures |s.rules| == |s.list| && s.list[i] in s.heap && s.list[j] in s.heap
    ensures s.rules[j].If? ==> s.rules[j].pred(s.heap[s.list[j]].data, s.heap[s.list[i]].data)
  {
    InvReachable(s);
    assert ListNode(s, i) && ListNode(s, j) && Passed(s, s.list[j], s.rules[j], i);
  }

  /** No thread touches a deleted node, and nodes once in the list stay there, unchanged. */
  lemma ListOnlyGrows(s: State, t: Tid, choice: Choice)
    requires Reachable(s) && Enabled(s, t, choice)
    ensures Safe(s, t) && s.list <= Apply(s, t, choice).list
    ensures forall i | 0 <= i < |s.list| ::
              s.list[i] in s.heap && s.list[i] in Apply(s, t, choice).heap
              && Apply(s, t, choice).heap[s.list[i]] == s.heap[s.list[i]]
  {
    InvReachable(s);
    InvStep(s, t, choice);
    assert ThreadOk(s, t);
    forall i | 0 <= i < |s.list|
      ensures s.list[i] in s.heap && s.list[i] in Apply(s, t, choice).heap
              && Apply(s, t, choice).heap[s.list[i]] == s.heap[s.list[i]]
    {
      assert ListNode(s, i);
    }
  }
}
