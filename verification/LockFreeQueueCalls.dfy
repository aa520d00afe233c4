/** The queue as its callers see it: what each call has pushed, taken and found by the time it comes back. */
module LockFreeQueueCalls {
  import opened Nodes
  import opened Threads
  import opened LockFreeQueue

  /** A call, the pushes and batches its steps have made so far, whether the list was empty or not at one of
      them, whether it slept and whether it sent a wake. */
  datatype Call = Call(what: Choice, pushed: seq<nat>, taken: seq<nat>, empty: bool, full: bool, slept: bool, rang: bool)

  datatype Return = Return(t: Tid, call: Call)

  /** calls: those under way; log: those that have come back. */
  datatype Watch = Watch(state: State, calls: map<Tid, Call>, log: seq<Return>)

  function During(x: Watch, t: Tid, choice: Choice): Call
    requires t in x.state.pcs && (x.state.pcs[t].Idle? || t in x.calls)
  {
    if x.state.pcs[t].Idle? then Call(choice, [], [], false, false, false, false) else x.calls[t]
  }

  /** The call after a step of its thread from s to r. */
  ghost function After(call: Call, s: State, r: State, t: Tid): Call
    requires t in s.pcs && t in r.pcs
  {
    Call(call.what,
         call.pushed + (if |r.pushed| > |s.pushed| then [|s.pushed|] else []),
         call.taken + (if |r.batches| > |s.batches| then [|s.batches|] else []),
         call.empty || s.chain == [], call.full || s.chain != [],
         call.slept || r.pcs[t] == Asleep, call.rang || s.pcs[t] == PushNotify)
  }

  ghost predicate Watchable(x: Watch, e: Event) {
    && Enabled(x.state, e.t, e.choice) && Safe(x.state, e.t)
    && (x.state.pcs[e.t].Idle? || e.t in x.calls)
  }

  /** The thread's call goes on or comes back; so does that of a waiter that is woken. */
  ghost function Next(x: Watch, e: Event): Watch
    requires Watchable(x, e)
  {
    var s, r := x.state, Apply(x.state, e.t, e.choice);
    StepPlaces(s, e.t, e.choice);
    var call := After(During(x, e.t, e.choice), s, r, e.t);
    var calls := x.calls[e.t := call];
    Watch(r, map u | u in calls && u in r.pcs && !r.pcs[u].Idle? :: calls[u],
          x.log + (if r.pcs[e.t].Idle? then [Return(e.t, call)] else [])
                + (if Woken(s, r, e.t) && s.waiter in x.calls then [Return(s.waiter, x.calls[s.waiter])] else []))
  }

  predicate Woken(s: State, r: State, t: Tid) {
    s.waiter != t && s.waiter in s.pcs && s.pcs[s.waiter] == Asleep && s.waiter in r.pcs && r.pcs[s.waiter].Idle?
  }

  /** A step moves its thread, and wakes the waiter or nobody. */
  lemma StepPlaces(s: State, t: Tid, choice: Choice)
    requires Enabled(s, t, choice) && Safe(s, t)
    ensures var r := Apply(s, t, choice);
            && r.pcs.Keys == s.pcs.Keys && r.waiter == s.waiter
            && forall u | u in s.pcs && u != t ::
                 r.pcs[u] == s.pcs[u] || (u == s.waiter && s.pcs[u] == Asleep && r.pcs[u] == Idle)
  {
    if !s.pcs[t].PushNotify? {
      LocalStep(s, t, choice);
      hide Apply;
    }
  }

  lemma LocalStep(s: State, t: Tid, choice: Choice)
    requires Enabled(s, t, choice) && Safe(s, t) && !s.pcs[t].PushNotify?
    ensures var r := Apply(s, t, choice); t in r.pcs && r.pcs == s.pcs[t := r.pcs[t]] && r.waiter == s.waiter
  {
  }

  // -- What is promised -----------------------------------------------------------------

  predicate Nothing(call: Call) {
    call.pushed == [] && call.taken == []
  }

  /** push has pushed its item, once. */
  predicate HasPushed(s: State, call: Call) {
    && call.what.Push? && call.taken == [] && |call.pushed| == 1 && call.pushed[0] < |s.pushed|
    && s.pushed[call.pushed[0]].data == call.what.data
  }

  /** push has pushed its item, and sent a wake exactly if it was to and the list was empty; pop_all has one
      delivered batch, or found the list empty; wait found something or slept; notify sent a wake if it found
      something, and only then. */
  predicate Promised(s: State, call: Call) {
    match call.what
    case Push(_, _, notify) =>
      HasPushed(s, call) && (call.rang <==> notify && s.pushed[call.pushed[0]].wasEmpty)
    case PopAll =>
      && call.pushed == []
      && if call.taken == [] then call.empty
         else |call.taken| == 1 && call.taken[0] < |s.batches| && Finished(s.batches[call.taken[0]])
    case Wait => Nothing(call) && (call.full || call.slept)
    case Notify => Nothing(call) && (call.empty || call.rang) && (call.rang ==> call.full)
    case Stay => Nothing(call)
  }

  /** Where a call can be. */
  predicate Serves(s: State, call: Call, t: Tid)
    requires t in s.pcs
  {
    match s.pcs[t]
    case Idle => false
    case PushCas(item, _, notify) =>
      && call.what.Push? && Nothing(call) && call.what.notify == notify && !call.rang
      && item in s.heap && s.heap[item].data == call.what.data
    case PushNotify =>
      || (HasPushed(s, call) && call.what.notify && s.pushed[call.pushed[0]].wasEmpty)
      || (call.what.Notify? && Nothing(call) && call.full)
    case PopExchange => call.what.PopAll? && Nothing(call)
    case Reversing(_, _, _, _, b) => call.what.PopAll? && call.pushed == [] && call.taken == [b]
    case Draining(_, _, b) => call.what.PopAll? && call.pushed == [] && call.taken == [b]
    case WaitPark => call.what.Wait? && Nothing(call)
    case Asleep => call.what.Wait? && Nothing(call) && call.slept
  }

  ghost predicate GoesOn(r: State, call: Call, t: Tid)
    requires t in r.pcs
  {
    if r.pcs[t].Idle? then Promised(r, call) else Serves(r, call, t)
  }

  // -- One step of a call ---------------------------------------------------------------

  predicate HeadOk(s: State) {
    (s.head.ptr == NULL <==> s.chain == []) && (s.head.isNonNull == 0 <==> s.chain == [])
  }

  lemma HeadOkOf(s: State)
    requires Inv(s)
    ensures HeadOk(s)
  {
    HeadNull(s);
    EmptyHead(s);
  }

  lemma FirstStep(s: State, t: Tid, choice: Choice)
    requires HeadOk(s) && Enabled(s, t, choice) && Safe(s, t) && s.pcs[t].Idle?
    ensures var r := Apply(s, t, choice);
            t in r.pcs && GoesOn(r, After(Call(choice, [], [], false, false, false, false), s, r, t), t)
  {
  }

  lemma PushStep(s: State, t: Tid, choice: Choice, call: Call)
    requires Enabled(s, t, choice) && Safe(s, t) && (s.pcs[t].PushCas? || s.pcs[t].PushNotify?) && Serves(s, call, t)
    ensures var r := Apply(s, t, choice); t in r.pcs && GoesOn(r, After(call, s, r, t), t)
  {
  }

  lemma ExchangeStep(s: State, t: Tid, choice: Choice, call: Call)
    requires HeadOk(s) && Enabled(s, t, choice) && Safe(s, t) && s.pcs[t].PopExchange? && Serves(s, call, t)
    ensures var r := Apply(s, t, choice); t in r.pcs && GoesOn(r, After(call, s, r, t), t)
  {
    hide OwnAll, Taken, Finished;
  }

  lemma ReverseStep(s: State, t: Tid, choice: Choice, call: Call)
    requires Enabled(s, t, choice) && Safe(s, t) && s.pcs[t].Reversing? && Serves(s, call, t)
    ensures var r := Apply(s, t, choice); t in r.pcs && GoesOn(r, After(call, s, r, t), t)
  {
  }

  lemma DrainStep(s: State, t: Tid, choice: Choice, call: Call)
    requires Inv(s) && Enabled(s, t, choice) && Safe(s, t) && s.pcs[t].Draining? && Serves(s, call, t)
    ensures var r := Apply(s, t, choice); t in r.pcs && GoesOn(r, After(call, s, r, t), t)
  {
    LastNode(s, t);
    hide Inv;
  }

  /** The node being delivered is the last of its batch exactly if it has no link. */
  lemma LastNode(s: State, t: Tid)
    requires Inv(s) && t in s.pcs && s.pcs[t].Draining?
    ensures Safe(s, t)
    ensures var b := s.pcs[t].b;
            s.heap[s.pcs[t].head].link == NULL <==> |s.batches[b].got| + 1 == s.batches[b].hi - s.batches[b].lo
  {
    assert ThreadOk(s, t);
    var nodes, b := s.pcs[t].nodes, s.pcs[t].b;
    var k := |s.batches[b].got|;
    assert BatchNode(s, t, nodes, b, k, true);
    if k + 1 < |nodes| {
      assert BatchNode(s, t, nodes, b, k + 1, true);
    }
  }

  lemma WaitStep(s: State, t: Tid, choice: Choice, call: Call)
    requires HeadOk(s) && Enabled(s, t, choice) && Safe(s, t) && (s.pcs[t].WaitPark? || s.pcs[t].Asleep?) && Serves(s, call, t)
    ensures var r := Apply(s, t, choice); t in r.pcs && GoesOn(r, After(call, s, r, t), t)
  {
  }

  lemma OwnStep(s: State, t: Tid, choice: Choice, call: Call)
    requires Inv(s) && Enabled(s, t, choice)
    requires if s.pcs[t].Idle? then call == Call(choice, [], [], false, false, false, false) else Serves(s, call, t)
    ensures Safe(s, t) && var r := Apply(s, t, choice); t in r.pcs && GoesOn(r, After(call, s, r, t), t)
  {
    hide Inv, Serves, Promised, Apply;
    InvStep(s, t, choice);
    HeadOkOf(s);
    match s.pcs[t]
    case Idle => FirstStep(s, t, choice);
    case PushCas(_, _, _) | PushNotify => PushStep(s, t, choice, call);
    case PopExchange => ExchangeStep(s, t, choice, call);
    case Reversing(_, _, _, _, _) => ReverseStep(s, t, choice, call);
    case Draining(_, _, _) => DrainStep(s, t, choice, call);
    case WaitPark | Asleep => WaitStep(s, t, choice, call);
  }

  // -- The other calls ------------------------------------------------------------------

  /** The history only grows, and a delivered batch stays as it is. */
  lemma HistoryGrows(s: State, t: Tid, choice: Choice)
    requires Inv(s) && Enabled(s, t, choice) && Safe(s, t)
    ensures var r := Apply(s, t, choice);
            && s.pushed <= r.pushed && |s.batches| <= |r.batches|
            && forall b | 0 <= b < |s.batches| && Finished(s.batches[b]) :: r.batches[b] == s.batches[b]
  {
    assert ThreadOk(s, t);
    hide Inv;
  }

  /** An item in a node of another thread stays. */
  lemma ItemStays(s: State, t: Tid, choice: Choice, p: Ptr)
    requires Inv(s) && Enabled(s, t, choice) && Safe(s, t)
    requires p in s.heap && p in s.owner && s.owner[p] != Private(t)
    ensures var r := Apply(s, t, choice); p in r.heap && r.heap[p].data == s.heap[p].data
  {
    if s.pcs[t].Draining? {
      assert ThreadOk(s, t);
      assert BatchNode(s, t, s.pcs[t].nodes, s.pcs[t].b, |s.batches[s.pcs[t].b].got|, true);
    }
    hide Inv;
  }

  lemma StaysPromised(s: State, t: Tid, choice: Choice, call: Call)
    requires Inv(s) && Enabled(s, t, choice) && Safe(s, t) && Promised(s, call)
    ensures Promised(Apply(s, t, choice), call)
  {
    hide Inv, Apply;
    HistoryGrows(s, t, choice);
  }

  lemma OtherServes(s: State, t: Tid, choice: Choice, u: Tid, call: Call)
    requires Inv(s) && Enabled(s, t, choice) && Safe(s, t) && u != t && u in s.pcs && Serves(s, call, u)
    ensures var r := Apply(s, t, choice);
            u in r.pcs && (Serves(r, call, u) || (Woken(s, r, t) && u == s.waiter && Promised(r, call)))
  {
    StepPlaces(s, t, choice);
    HistoryGrows(s, t, choice);
    if s.pcs[u].PushCas? {
      assert ThreadOk(s, u);
      ItemStays(s, t, choice, s.pcs[u].item);
    }
    hide Inv, Apply;
  }

  // -- Every run ------------------------------------------------------------------------

  ghost predicate Right(x: Watch) {
    && Inv(x.state)
    && (forall t | t in x.state.pcs && !x.state.pcs[t].Idle? :: t in x.calls && Serves(x.state, x.calls[t], t))
    && (forall i | 0 <= i < |x.log| :: Promised(x.state, x.log[i].call))
  }

  lemma RightStep(x: Watch, e: Event)
    requires Right(x) && Enabled(x.state, e.t, e.choice)
    ensures Watchable(x, e) && Right(Next(x, e))
  {
    hide Inv, Serves, Promised, Apply;
    var s, t := x.state, e.t;
    InvStep(s, t, e.choice);
    OwnStep(s, t, e.choice, During(x, t, e.choice));
    StepPlaces(s, t, e.choice);
    var r, y := Apply(s, t, e.choice), Next(x, e);
    forall u | u in r.pcs && u != t && !s.pcs[u].Idle?
      ensures u in x.calls && (Serves(r, x.calls[u], u) || (Woken(s, r, t) && u == s.waiter && Promised(r, x.calls[u])))
    {
      OtherServes(s, t, e.choice, u, x.calls[u]);
    }
    forall i | 0 <= i < |x.log|
      ensures Promised(r, x.log[i].call)
    {
      StaysPromised(s, t, e.choice, x.log[i].call);
    }
    LogStep(x, e, r);
    CallsStep(x, e, r);
  }

  lemma LogStep(x: Watch, e: Event, r: State)
    requires Watchable(x, e) && r == Apply(x.state, e.t, e.choice) && e.t in r.pcs
    requires forall i | 0 <= i < |x.log| :: Promised(r, x.log[i].call)
    requires GoesOn(r, After(During(x, e.t, e.choice), x.state, r, e.t), e.t)
    requires Woken(x.state, r, e.t) && x.state.waiter in x.calls ==>
               Serves(r, x.calls[x.state.waiter], x.state.waiter) || Promised(r, x.calls[x.state.waiter])
    ensures forall i | 0 <= i < |Next(x, e).log| :: Promised(r, Next(x, e).log[i].call)
  {
    hide Promised, Apply, Enabled;
  }

  lemma CallsStep(x: Watch, e: Event, r: State)
    requires Watchable(x, e) && r == Apply(x.state, e.t, e.choice) && r.pcs.Keys == x.state.pcs.Keys && e.t in r.pcs
    requires GoesOn(r, After(During(x, e.t, e.choice), x.state, r, e.t), e.t)
    requires forall u | u in r.pcs && u != e.t && x.state.pcs[u].Idle? :: r.pcs[u].Idle?
    requires forall u | u in r.pcs && u != e.t && !x.state.pcs[u].Idle? ::
               u in x.calls && (Serves(r, x.calls[u], u) || r.pcs[u].Idle?)
    ensures forall u | u in r.pcs && !r.pcs[u].Idle? :: u in Next(x, e).calls && Serves(r, Next(x, e).calls[u], u)
  {
    hide Promised, Apply, Enabled, Serves;
  }

  ghost predicate Start(x: Watch) {
    Init(x.state) && x.calls == map[] && x.log == []
  }

  ghost predicate Watched(x: Watch, events: seq<Event>, y: Watch)
    decreases |events|
  {
    if events == [] then x == y
    else Watchable(x, events[0]) && Watched(Next(x, events[0]), events[1..], y)
  }

  lemma {:induction false} RightRun(x: Watch, events: seq<Event>, y: Watch)
    requires Right(x) && Watched(x, events, y)
    ensures Right(y)
    decreases |events|
  {
    hide Right, Next, Enabled, Safe;
    if events != [] {
      RightStep(x, events[0]);
      RightRun(Next(x, events[0]), events[1..], y);
    }
  }

  /** Every run can be watched. */
  lemma {:induction false} WatchRun(x: Watch, events: seq<Event>, r: State) returns (y: Watch)
    requires Right(x) && Run(x.state, events, r)
    ensures Watched(x, events, y) && y.state == r
    decreases |events|
  {
    hide Right, Apply, Enabled, Safe;
    if events == [] {
      y := x;
    } else {
      RightStep(x, events[0]);
      y := WatchRun(Next(x, events[0]), events[1..], r);
    }
  }

  lemma StartRight(x: Watch)
    requires Start(x)
    ensures Right(x)
  {
    assert Run(x.state, [], x.state);
    InvReachable(x.state);
  }

  /** Over every run, in whatever order the threads go on: a push comes back having pushed its item once; a
      pop_all with the whole of one batch, in push order, or with nothing if the list was empty at one of
      its accesses; a wait if the list was not empty or it has slept; a notify having sent a wake if the
      list was not empty. */
  lemma CallsComeBackRight(x: Watch, events: seq<Event>, y: Watch, i: nat)
    requires Start(x) && Watched(x, events, y) && i < |y.log|
    ensures Promised(y.state, y.log[i].call)
    ensures var call := y.log[i].call;
            call.what.PopAll? && call.taken != [] ==>
              var b := y.state.batches[call.taken[0]];
              b.lo < b.hi <= |y.state.pushed| && b.got == Items(y.state.pushed[b.lo..b.hi])
  {
    hide Watched, Inv, Items;
    StartRight(x);
    RightRun(x, events, y);
    var call := y.log[i].call;
    if call.what.PopAll? && call.taken != [] {
      WholeBatch(y.state, call.taken[0]);
    }
  }

  lemma WholeBatch(s: State, b: nat)
    requires Inv(s) && b < |s.batches| && Finished(s.batches[b])
    ensures var x := s.batches[b]; x.lo < x.hi <= |s.pushed| && x.got == Items(s.pushed[x.lo..x.hi])
  {
    assert BatchOk(s, b);
  }

  // -- Calls left alone -----------------------------------------------------------------

  /** n steps of thread t and of no other lead from s to r. */
  ghost predicate Alone(s: State, t: Tid, n: nat, r: State)
    decreases n
  {
    if n == 0 then s == r
    else Enabled(s, t, Stay) && Safe(s, t) && Alone(Apply(s, t, Stay), t, n - 1, r)
  }

  /** How many steps a consumer has left. */
  function Left(s: State, t: Tid): nat
    requires t in s.pcs
  {
    match s.pcs[t]
    case Reversing(_, _, nodes, left, _) => |nodes| + if left > 0 then left else 0
    case Draining(_, nodes, b) =>
      if b < |s.batches| && |s.batches[b].got| < |nodes| then |nodes| - |s.batches[b].got| else 0
    case _ => 0
  }

  lemma ReverseAlone(s: State, t: Tid)
    requires Inv(s) && t in s.pcs && s.pcs[t].Reversing?
    ensures Safe(s, t)
    ensures var r, b := Apply(s, t, Stay), s.pcs[t].b;
            && WorksOn(r, t, b) && Left(r, t) + 1 == Left(s, t)
            && r.chain == s.chain && r.pushed == s.pushed && r.batches == s.batches
  {
    assert ThreadOk(s, t);
    var nodes, left, b := s.pcs[t].nodes, s.pcs[t].left, s.pcs[t].b;
    assert BatchNode(s, t, nodes, b, left - 1, false);
    if left > 1 {
      assert BatchNode(s, t, nodes, b, left - 2, false);
    }
    hide Inv, BatchNode;
  }

  lemma DrainAlone(s: State, t: Tid)
    requires Inv(s) && t in s.pcs && s.pcs[t].Draining?
    ensures Safe(s, t)
    ensures var r, b := Apply(s, t, Stay), s.pcs[t].b;
            && r.chain == s.chain && r.pushed == s.pushed && |r.batches| == |s.batches| && b < |r.batches|
            && r.batches[b].lo == s.batches[b].lo && r.batches[b].hi == s.batches[b].hi
            && t in r.pcs
            && if Left(s, t) == 1 then r.pcs[t] == Idle && Finished(r.batches[b])
               else WorksOn(r, t, b) && Left(r, t) + 1 == Left(s, t)
  {
    assert ThreadOk(s, t);
    LastNode(s, t);
    hide Inv, BatchNode;
  }

  /** A consumer with a batch delivers all of it, and touches nothing else. */
  lemma {:induction false} ConsumesAlone(s: State, t: Tid, b: nat) returns (r: State)
    requires Inv(s) && WorksOn(s, t, b) && b < |s.batches|
    ensures Alone(s, t, Left(s, t), r) && Inv(r)
    ensures t in r.pcs && r.pcs[t] == Idle && r.chain == s.chain && r.pushed == s.pushed && |r.batches| == |s.batches|
    ensures Finished(r.batches[b]) && r.batches[b].lo == s.batches[b].lo && r.batches[b].hi == s.batches[b].hi
    decreases Left(s, t)
  {
    InvStep(s, t, Stay);
    hide Inv, Finished;
    var m := Apply(s, t, Stay);
    if s.pcs[t].Reversing? {
      ReverseAlone(s, t);
      r := ConsumesAlone(m, t, b);
    } else {
      LeftPositive(s, t);
      DrainAlone(s, t);
      if Left(s, t) == 1 {
        r := m;
        assert Alone(m, t, 0, r);
      } else {
        r := ConsumesAlone(m, t, b);
      }
    }
  }

  lemma LeftPositive(s: State, t: Tid)
    requires Inv(s) && t in s.pcs && s.pcs[t].Draining?
    ensures Left(s, t) > 0
  {
    assert ThreadOk(s, t);
  }

  /** The exchange takes the whole list as one batch. */
  lemma ExchangeAlone(s: State, t: Tid)
    requires Inv(s) && t in s.pcs && s.pcs[t].PopExchange? && s.chain != []
    ensures Safe(s, t)
    ensures var r, b := Apply(s, t, Stay), |s.batches|;
            && WorksOn(r, t, b) && |r.batches| == b + 1 && r.chain == [] && r.pushed == s.pushed
            && r.batches[b].lo == Taken(s.batches) && r.batches[b].hi == |s.pushed|
            && Left(r, t) == 2 * |s.chain| - 1
  {
    HeadNull(s);
    var n := |s.chain|;
    assert ListNode(s, n - 1);
    if n > 1 {
      assert ListNode(s, n - 2);
    }
    hide Inv, OwnAll;
  }

  /** The exchange ends on an empty list the call, and otherwise the waiting for it: it is never repeated. */
  lemma ExchangeEnds(s: State, t: Tid)
    requires Reachable(s) && t in s.pcs && s.pcs[t].PopExchange?
    ensures Safe(s, t)
    ensures var r := Apply(s, t, Stay);
            if s.chain == [] then r == s.(pcs := s.pcs[t := Idle]) else WorksOn(r, t, |s.batches|)
  {
    InvReachable(s);
    NoDanglingAccess(s, t);
    if s.chain != [] {
      ExchangeAlone(s, t);
    } else {
      HeadNull(s);
      EmptyHead(s);
    }
  }

  /** From every reachable state with a list, pop_all left alone comes back within 2 n + 1 steps for n items;
      the list is then empty, and the call has got, in one batch, what was queued. */
  lemma PopAllAlone(s: State, t: Tid) returns (r: State)
    requires Reachable(s) && t in s.pcs && s.pcs[t] == Idle && s.chain != []
    ensures Enabled(s, t, PopAll) && Safe(s, t) && Alone(Apply(s, t, PopAll), t, 2 * |s.chain|, r)
    ensures t in r.pcs && r.pcs[t] == Idle && r.chain == [] && |r.batches| == |s.batches| + 1
    ensures r.batches[|s.batches|].got == Queued(s)
  {
    hide Inv, Items, Queued, Finished, Apply, Safe, Reachable;
    InvReachable(s);
    LoadAlone(s, t);
    var m := Apply(s, t, PopAll);
    var q, b := TakeAlone(m, t);
    r := ConsumesAlone(q, t, b);
    Delivered(s, r, b);
  }

  /** The first access of pop_all only finds the list. */
  lemma LoadAlone(s: State, t: Tid)
    requires Inv(s) && t in s.pcs && s.pcs[t] == Idle && s.chain != []
    ensures Enabled(s, t, PopAll) && Safe(s, t)
    ensures var m := Apply(s, t, PopAll);
            Inv(m) && t in m.pcs && m.pcs[t] == PopExchange && m.(pcs := s.pcs) == s
  {
    hide Inv;
    HeadOkOf(s);
    InvStep(s, t, PopAll);
  }

  /** The second takes it. */
  lemma TakeAlone(s: State, t: Tid) returns (r: State, b: nat)
    requires Inv(s) && t in s.pcs && s.pcs[t].PopExchange? && s.chain != []
    ensures Enabled(s, t, Stay) && Safe(s, t) && r == Apply(s, t, Stay) && b == |s.batches|
    ensures Inv(r) && WorksOn(r, t, b) && |r.batches| == b + 1 && r.chain == [] && r.pushed == s.pushed
    ensures r.batches[b].lo == Taken(s.batches) && r.batches[b].hi == |s.pushed| && Left(r, t) == 2 * |s.chain| - 1
  {
    hide Inv, Apply;
    ExchangeAlone(s, t);
    InvStep(s, t, Stay);
    r, b := Apply(s, t, Stay), |s.batches|;
  }

  lemma Delivered(s: State, r: State, b: nat)
    requires Inv(s) && Inv(r) && b < |r.batches| && Finished(r.batches[b]) && r.pushed == s.pushed
    requires r.batches[b].lo == Taken(s.batches) && r.batches[b].hi == |s.pushed|
    ensures r.batches[b].got == Queued(s)
  {
    hide Inv, Items, Queued, Finished;
    WholeBatch(r, b);
    QueuedItems(s);
    assert s.pushed[r.batches[b].lo..r.batches[b].hi] == s.pushed[Taken(s.batches)..];
  }

  /** From every reachable state a push left alone adds its item at the end with its second step, and is told
      whether the list was empty. */
  lemma PushAlone(s: State, t: Tid, data: Item, p: Ptr, notify: bool) returns (r: State)
    requires Reachable(s) && t in s.pcs && s.pcs[t] == Idle && p != NULL && p !in s.heap
    ensures Enabled(s, t, Push(data, p, notify)) && Safe(s, t) && Alone(Apply(s, t, Push(data, p, notify)), t, 1, r)
    ensures r.chain == s.chain + [p] && r.pushed == s.pushed + [Pushed(data, s.chain == [])] && r.batches == s.batches
    ensures t in r.pcs && r.pcs[t] == if s.chain == [] && notify then PushNotify else Idle
  {
    InvReachable(s);
    HeadOkOf(s);
    hide Inv;
    var m := Apply(s, t, Push(data, p, notify));
    r := Apply(m, t, Stay);
    assert Alone(r, t, 0, r);
  }
}
