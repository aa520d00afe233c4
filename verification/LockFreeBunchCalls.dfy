/** The bunch as its callers see it: push always adds its item, and push_if does unless an item of the list
    speaks against it. */
module LockFreeBunchCalls {
  import opened Nodes
  import opened Threads
  import opened LockFreeBunch

  /** A call and the places in the list that its steps have filled. */
  datatype Call = Call(what: Choice, added: seq<nat>)

  datatype Return = Return(t: Tid, call: Call)

  /** calls: those under way; log: those that have come back. */
  datatype Watch = Watch(state: State, calls: map<Tid, Call>, log: seq<Return>)

  function During(x: Watch, t: Tid, choice: Choice): Call
    requires t in x.state.pcs && (x.state.pcs[t].Idle? || t in x.calls)
  {
    if x.state.pcs[t].Idle? then Call(choice, []) else x.calls[t]
  }

  function After(call: Call, s: State, r: State): Call {
    call.(added := call.added + if |r.list| > |s.list| then [|s.list|] else [])
  }

  ghost predicate Watchable(x: Watch, e: Event) {
    Enabled(x.state, e.t, e.choice) && Safe(x.state, e.t) && (x.state.pcs[e.t].Idle? || e.t in x.calls)
  }

  ghost function Next(x: Watch, e: Event): Watch
    requires Watchable(x, e)
  {
    var r := Apply(x.state, e.t, e.choice);
    StepPlaces(x.state, e.t, e.choice);
    var call := After(During(x, e.t, e.choice), x.state, r);
    if r.pcs[e.t].Idle? then Watch(r, x.calls - {e.t}, x.log + [Return(e.t, call)])
    else Watch(r, x.calls[e.t := call], x.log)
  }

  lemma StepPlaces(s: State, t: Tid, choice: Choice)
    requires Enabled(s, t, choice) && Safe(s, t)
    ensures var r := Apply(s, t, choice); t in r.pcs && r.pcs == s.pcs[t := r.pcs[t]]
  {
  }

  // -- What is promised -----------------------------------------------------------------

  /** Node i of the list speaks against the item. */
  ghost predicate Against(s: State, rule: Rule, data: Item, i: nat) {
    i < |s.list| && s.list[i] in s.heap && !Accepts(rule, data, s.heap[s.list[i]].data)
  }

  /** The item is in the list once, under its rule; or it is not, and some item speaks against it. */
  ghost predicate Promised(s: State, call: Call) {
    match call.what
    case Stay => call.added == []
    case Push(data, rule, _) =>
      if call.added == [] then exists i: nat :: Against(s, rule, data, i)
      else
        && |call.added| == 1
        && var k := call.added[0];
           && k < |s.list| && k < |s.rules| && s.rules[k] == rule
           && s.list[k] in s.heap && s.heap[s.list[k]].data == data
  }

  ghost predicate Serves(s: State, call: Call, t: Tid)
    requires t in s.pcs
  {
    && !s.pcs[t].Idle? && call.what.Push? && call.added == []
    && s.pcs[t].rule == call.what.rule && s.pcs[t].item in s.heap && s.heap[s.pcs[t].item].data == call.what.data
  }

  ghost predicate GoesOn(r: State, call: Call, t: Tid)
    requires t in r.pcs
  {
    if r.pcs[t].Idle? then Promised(r, call) else Serves(r, call, t)
  }

  // -- One step of a call ---------------------------------------------------------------

  lemma FirstStep(s: State, t: Tid, choice: Choice)
    requires Enabled(s, t, choice) && Safe(s, t) && s.pcs[t].Idle?
    ensures var r := Apply(s, t, choice); t in r.pcs && GoesOn(r, After(Call(choice, []), s, r), t)
  {
  }

  lemma CheckStep(s: State, t: Tid, choice: Choice, call: Call)
    requires Inv(s) && Enabled(s, t, choice) && Safe(s, t) && s.pcs[t].Checking? && Serves(s, call, t)
    ensures var r := Apply(s, t, choice); t in r.pcs && GoesOn(r, After(call, s, r), t)
  {
    assert ThreadOk(s, t);
    var b, item := s.pcs[t].upToPtr, s.pcs[t].item;
    var r := Apply(s, t, choice);
    if r.pcs[t].Idle? {
      assert ListNode(s, b - 1);
      assert s.list[b - 1] != item;
      hide Inv;
      assert Against(r, call.what.rule, call.what.data, b - 1);
    }
  }

  lemma AddStep(s: State, t: Tid, choice: Choice, call: Call)
    requires |s.rules| == |s.list|
    requires Enabled(s, t, choice) && Safe(s, t) && s.pcs[t].Adding? && Serves(s, call, t)
    ensures var r := Apply(s, t, choice); t in r.pcs && GoesOn(r, After(call, s, r), t)
  {
  }

  lemma OwnStep(s: State, t: Tid, choice: Choice, call: Call)
    requires Inv(s) && Enabled(s, t, choice) && Safe(s, t)
    requires if s.pcs[t].Idle? then call == Call(choice, []) else Serves(s, call, t)
    ensures var r := Apply(s, t, choice); t in r.pcs && GoesOn(r, After(call, s, r), t)
  {
    hide AllAccepted, ThreadOk, Serves, Promised, Apply;
    match s.pcs[t]
    case Idle => FirstStep(s, t, choice);
    case Checking(_, _, _, _, _, _, _, _) => CheckStep(s, t, choice, call);
    case Adding(_, _, _, _) => AddStep(s, t, choice, call);
  }

  /** Items in the list and in nodes of other threads stay. */
  lemma ItemStays(s: State, t: Tid, choice: Choice, p: Ptr)
    requires Inv(s) && Enabled(s, t, choice) && Safe(s, t) && p in s.heap && p in s.owner && s.owner[p] != Private(t)
    ensures var r := Apply(s, t, choice); p in r.heap && r.heap[p] == s.heap[p]
  {
    assert ThreadOk(s, t);
    hide Inv;
  }

  lemma ListStays(s: State, t: Tid, choice: Choice)
    requires Inv(s) && Enabled(s, t, choice) && Safe(s, t)
    ensures var r := Apply(s, t, choice);
            && s.list <= r.list && s.rules <= r.rules
            && forall i | 0 <= i < |s.list| ::
                 s.list[i] in s.heap && s.list[i] in r.heap && r.heap[s.list[i]] == s.heap[s.list[i]]
  {
    forall i | 0 <= i < |s.list|
      ensures s.list[i] in s.heap
      ensures var r := Apply(s, t, choice); s.list[i] in r.heap && r.heap[s.list[i]] == s.heap[s.list[i]]
    {
      assert ListNode(s, i);
      ItemStays(s, t, choice, s.list[i]);
    }
    hide Inv;
  }

  lemma StaysPromised(s: State, t: Tid, choice: Choice, call: Call)
    requires Inv(s) && Enabled(s, t, choice) && Safe(s, t) && Promised(s, call)
    ensures Promised(Apply(s, t, choice), call)
  {
    hide Inv, Apply, Accepts;
    ListStays(s, t, choice);
    if call.what.Push? && call.added == [] {
      var i: nat :| Against(s, call.what.rule, call.what.data, i);
      assert Against(Apply(s, t, choice), call.what.rule, call.what.data, i);
    }
  }

  lemma OtherServes(s: State, t: Tid, choice: Choice, u: Tid, call: Call)
    requires Inv(s) && Enabled(s, t, choice) && Safe(s, t) && u != t && u in s.pcs && Serves(s, call, u)
    ensures var r := Apply(s, t, choice); u in r.pcs && Serves(r, call, u)
  {
    StepPlaces(s, t, choice);
    assert ThreadOk(s, u);
    ItemStays(s, t, choice, s.pcs[u].item);
    hide Inv, Apply;
  }

  // -- Every run ------------------------------------------------------------------------

  ghost predicate Right(x: Watch) {
    && Inv(x.state)
    && (forall t | t in x.state.pcs && !x.state.pcs[t].Idle? :: t in x.calls && Serves(x.state, x.calls[t], t))
    && (forall i | 0 <= i < |x.log| :: Promised(x.state, x.log[i].call))
  }

  lemma RightStep(x: Watch, e: Event)
    requires Right(x) && Enabled(x.state, e.t, e.choice)
    ensures Watchable(x, e) && Right(Next(x, e))
  {
    hide Inv, Serves, Promised, Apply;
    var s, t := x.state, e.t;
    InvStep(s, t, e.choice);
    OwnStep(s, t, e.choice, During(x, t, e.choice));
    StepPlaces(s, t, e.choice);
    var r := Apply(s, t, e.choice);
    forall u | u in r.pcs && u != t && !s.pcs[u].Idle?
      ensures u in x.calls && Serves(r, x.calls[u], u)
    {
      OtherServes(s, t, e.choice, u, x.calls[u]);
    }
    forall i | 0 <= i < |x.log|
      ensures Promised(r, x.log[i].call)
    {
      StaysPromised(s, t, e.choice, x.log[i].call);
    }
  }

  ghost predicate Start(x: Watch) {
    Init(x.state) && x.calls == map[] && x.log == []
  }

  ghost predicate Watched(x: Watch, events: seq<Event>, y: Watch)
    decreases |events|
  {
    if events == [] then x == y
    else Watchable(x, events[0]) && Watched(Next(x, events[0]), events[1..], y)
  }

  lemma {:induction false} RightRun(x: Watch, events: seq<Event>, y: Watch)
    requires Right(x) && Watched(x, events, y)
    ensures Right(y)
    decreases |events|
  {
    hide Right, Next, Enabled, Safe;
    if events != [] {
      RightStep(x, events[0]);
      RightRun(Next(x, events[0]), events[1..], y);
    }
  }

  /** Every run can be watched. */
  lemma {:induction false} WatchRun(x: Watch, events: seq<Event>, r: State) returns (y: Watch)
    requires Right(x) && Run(x.state, events, r)
    ensures Watched(x, events, y) && y.state == r
    decreases |events|
  {
    hide Right, Apply, Enabled, Safe;
    if events == [] {
      y := x;
    } else {
      RightStep(x, events[0]);
      y := WatchRun(Next(x, events[0]), events[1..], r);
    }
  }

  /** Over every run: a push comes back with its item in the list, once; a push_if likewise, or without, and
      then its predicate rejects the item against one of the list. */
  lemma CallsComeBackRight(x: Watch, events: seq<Event>, y: Watch, i: nat)
    requires Start(x) && Watched(x, events, y) && i < |y.log|
    ensures Promised(y.state, y.log[i].call)
    ensures y.log[i].call.what.Push? && y.log[i].call.what.rule.Always? ==> y.log[i].call.added != []
  {
    hide Watched;
    RightRun(x, events, y);
  }

  // -- Calls left alone -----------------------------------------------------------------

  /** n steps of thread t and of no other lead from s to r. */
  ghost predicate Alone(s: State, t: Tid, n: nat, r: State)
    decreases n
  {
    if n == 0 then s == r
    else Enabled(s, t, Stay) && Safe(s, t) && Alone(Apply(s, t, Stay), t, n - 1, r)
  }

  /** One more step before n others. */
  lemma AloneMore(s: State, t: Tid, n: nat, r: State)
    requires Enabled(s, t, Stay) && Safe(s, t) && Alone(Apply(s, t, Stay), t, n, r)
    ensures Alone(s, t, n + 1, r)
  {
  }

  ghost predicate Wanted(s: State, rule: Rule, data: Item, n: nat) {
    forall i: nat | i < n :: !Against(s, rule, data, i)
  }

  /** The last step of a call that has seen the whole list. */
  lemma AddAlone(s: State, t: Tid) returns (r: State)
    requires t in s.pcs && s.pcs[t].Adding? && s.pcs[t].seen == s.head && Safe(s, t)
    ensures Alone(s, t, 1, r) && t in r.pcs && r.pcs[t] == Idle
    ensures r.list == s.list + [s.pcs[t].item] && r.rules == s.rules + [s.pcs[t].rule]
    ensures s.pcs[t].item in r.heap && r.heap[s.pcs[t].item].data == s.heap[s.pcs[t].item].data
  {
    r := Apply(s, t, Stay);
    assert Alone(r, t, 0, r);
    AloneMore(s, t, 0, r);
  }

  /** A call that has b items left to look at, and is alone, adds its item exactly if none of them speaks
      against it. */
  lemma {:induction false} CheckAlone(s: State, t: Tid) returns (n: nat, r: State)
    requires Inv(s) && t in s.pcs && s.pcs[t].Checking? && s.pcs[t].seen == s.head && s.pcs[t].upToChk == 0
    requires s.pcs[t].item in s.heap
    ensures n <= s.pcs[t].upToPtr + 2 && Alone(s, t, n, r) && t in r.pcs && r.pcs[t] == Idle
    ensures var item, rule := s.pcs[t].item, s.pcs[t].rule;
            if Wanted(s, rule, s.heap[item].data, s.pcs[t].upToPtr)
            then r.list == s.list + [item] && r.rules == s.rules + [rule]
            else r.list == s.list && r.rules == s.rules
    decreases s.pcs[t].upToPtr
  {
    var b, item, rule := s.pcs[t].upToPtr, s.pcs[t].item, s.pcs[t].rule;
    InvStep(s, t, Stay);
    PtrAt(s, t);
    var m := Apply(s, t, Stay);
    if b == 0 {
      hide Inv;
      var k := AddAlone(m, t);
      AloneMore(s, t, 1, k);
      n, r := 2, k;
    } else if Against(s, rule, s.heap[item].data, b - 1) {
      hide Inv;
      assert Alone(m, t, 0, m);
      AloneMore(s, t, 0, m);
      n, r := 1, m;
    } else {
      hide Inv, Alone;
      SameAgainst(s, m, rule, s.heap[item].data);
      var k, q := CheckAlone(m, t);
      AloneMore(s, t, k, q);
      n, r := k + 1, q;
    }
  }

  lemma PtrAt(s: State, t: Tid)
    requires Inv(s) && t in s.pcs && s.pcs[t].Checking? && s.pcs[t].upToChk == 0
    ensures var b := s.pcs[t].upToPtr;
            && s.pcs[t].chk == NULL && (s.pcs[t].ptr == NULL <==> b == 0) && b <= |s.list|
            && (b > 0 ==> s.pcs[t].ptr == s.list[b - 1] && s.list[b - 1] in s.heap)
  {
    assert ThreadOk(s, t);
    if s.pcs[t].upToPtr > 0 {
      assert ListNode(s, s.pcs[t].upToPtr - 1);
    }
  }

  lemma SameAgainst(s: State, m: State, rule: Rule, data: Item)
    requires m.heap == s.heap && m.list == s.list
    ensures forall i: nat :: Against(m, rule, data, i) <==> Against(s, rule, data, i)
  {
  }

  /** From every reachable state, push and push_if left alone come back; the item is then at the end of the
      list exactly if none of the list speaks against it, and otherwise the list is as it was. */
  lemma PushAlone(s: State, t: Tid, data: Item, rule: Rule, p: Ptr) returns (n: nat, r: State)
    requires Reachable(s) && t in s.pcs && s.pcs[t] == Idle && p != NULL && p !in s.heap
    ensures Enabled(s, t, Push(data, rule, p)) && Safe(s, t)
    ensures n <= |s.list| + 2 && Alone(Apply(s, t, Push(data, rule, p)), t, n, r) && t in r.pcs && r.pcs[t] == Idle
    ensures if Wanted(s, rule, data, |s.list|) then r.list == s.list + [p] && r.rules == s.rules + [rule]
            else r.list == s.list && r.rules == s.rules
  {
    InvReachable(s);
    InvStep(s, t, Push(data, rule, p));
    FreshAgainst(s, t, data, rule, p);
    hide Inv, Alone;
    var m := Apply(s, t, Push(data, rule, p));
    if rule.If? {
      n, r := CheckAlone(m, t);
    } else {
      r := AddAlone(m, t);
      n := 1;
    }
  }

  lemma FreshAgainst(s: State, t: Tid, data: Item, rule: Rule, p: Ptr)
    requires Inv(s) && t in s.pcs && s.pcs[t] == Idle && p != NULL && p !in s.heap
    ensures var m := Apply(s, t, Push(data, rule, p));
            forall i: nat :: Against(m, rule, data, i) <==> Against(s, rule, data, i)
  {
    forall i: nat | i < |s.list|
      ensures s.list[i] in s.heap
    {
      assert ListNode(s, i);
    }
    hide Inv;
  }
}
