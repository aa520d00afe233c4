/** Whom a notify_one wakes. The signal is added first and the wake is sent afterwards; a thread that
    registers in between can be the one that is woken. */
module CondVariableDelivery {
  import opened Threads
  import opened Word32
  import opened CondVariable

  // -- What the history says ------------------------------------------------------------

  /** Registrations and signals are numbered by the wakes accepted so far. */
  ghost predicate Numbered(s: State) {
    && (forall t | t in s.since :: s.since[t] <= s.wakes)
    && forall t | t in s.pcs && s.pcs[t].NotifyingOne? :: s.pcs[t].wake <= s.wakes
  }

  lemma NumberedStep(s: State, e: Event)
    requires Numbered(s) && Enabled(s, e)
    ensures Numbered(Apply(s, e))
  {
  }

  lemma {:induction false} NumberedRun(s: State, events: seq<Event>, r: State)
    requires Numbered(s) && Run(s, events, r)
    ensures Numbered(r)
    decreases |events|
  {
    hide Numbered, Apply;
    if events != [] {
      NumberedStep(s, events[0]);
      NumberedRun(Apply(s, events[0]), events[1..], r);
    }
  }

  lemma NumberedReachable(r: State)
    requires Reachable(r)
    ensures Numbered(r)
  {
    var s, events :| Init(s) && Run(s, events, r);
    NumberedRun(s, events, r);
  }

  // -- Between the signal and the wake --------------------------------------------------

  /** The step in which thread t adds its signal and is to wake one thread. */
  ghost predicate Accepts(s: State, e: Event, t: Tid) {
    && e.Advance? && e.t == t && Enabled(s, e) && s.pcs[t] == Waking(false)
    && Apply(s, e).pcs[t].NotifyingOne?
  }

  /** A step in which a wait() registers. */
  ghost predicate Registers(s: State, e: Event) {
    && e.Advance? && e.t in s.pcs
    && Step(s.pcs[e.t], s.word, e.choice, s.wakes).did == Registered
  }

  /** A run before thread t sends its wake; if closed, one in which no wait() registers. */
  ghost predicate Pending(s: State, events: seq<Event>, r: State, t: Tid, closed: bool)
    decreases |events|
  {
    if events == [] then s == r
    else
      && Enabled(s, events[0]) && !(events[0].Advance? && events[0].t == t)
      && (closed ==> !Registers(s, events[0]))
      && Pending(Apply(s, events[0]), events[1..], r, t, closed)
  }

  /** Whoever sleeps, and so can be woken, registered before the signal. */
  ghost predicate AllEarlier(s: State, t: Tid) {
    && t in s.pcs && s.pcs[t].NotifyingOne?
    && forall u | Sleeps(s.pcs, u) :: u in s.since && s.since[u] < s.pcs[t].wake
  }

  /** Everybody on record registered before the signal of t. */
  ghost predicate RecordEarlier(s: State, t: Tid) {
    && t in s.pcs && s.pcs[t].NotifyingOne?
    && forall u | u in s.since :: s.since[u] < s.pcs[t].wake
  }

  lemma {:induction false} ClosedRun(s: State, events: seq<Event>, m: State, t: Tid)
    requires RecordEarlier(s, t) && Pending(s, events, m, t, true)
    ensures RecordEarlier(m, t)
    decreases |events|
  {
    if events != [] {
      ClosedStep(s, events[0], t);
      hide RecordEarlier, Apply;
      ClosedRun(Apply(s, events[0]), events[1..], m, t);
    }
  }

  lemma ClosedStep(s: State, e: Event, t: Tid)
    requires RecordEarlier(s, t) && Enabled(s, e) && !(e.Advance? && e.t == t) && !Registers(s, e)
    ensures RecordEarlier(Apply(s, e), t)
  {
  }

  lemma AcceptedRecord(s: State, e: Event, t: Tid)
    requires Numbered(s) && Accepts(s, e, t)
    ensures RecordEarlier(Apply(s, e), t) && Signals(Apply(s, e).word) != MAX_SIGNALS
  {
  }

  lemma {:induction false} PendingIsRun(s: State, events: seq<Event>, m: State, t: Tid, closed: bool)
    requires Pending(s, events, m, t, closed)
    ensures Run(s, events, m)
    decreases |events|
  {
    hide Enabled, Registers, Apply;
    if events != [] {
      PendingIsRun(Apply(s, events[0]), events[1..], m, t, closed);
    }
  }

  /** If no wait() registers between the signal and the wake, the wake goes to a thread that
      registered before the signal. */
  lemma ClosedIsEarlier(s: State, e: Event, t: Tid, events: seq<Event>, m: State)
    requires Reachable(s) && Accepts(s, e, t) && Pending(Apply(s, e), events, m, t, true)
    ensures AllEarlier(m, t)
  {
    hide Inv, Run, Pending, Apply;
    NumberedReachable(s);
    AcceptedRecord(s, e, t);
    ClosedRun(Apply(s, e), events, m, t);
    InvReachable(s);
    InvAfter(s, e, t, events, m);
    SleepersKnown(m);
  }

  lemma InvAfter(s: State, e: Event, t: Tid, events: seq<Event>, m: State)
    requires Inv(s) && Accepts(s, e, t) && Pending(Apply(s, e), events, m, t, true)
    ensures Inv(m)
  {
    hide Inv, Run, Pending;
    InvStep(s, e);
    PendingIsRun(Apply(s, e), events, m, t, true);
    InvRun(Apply(s, e), events, m);
  }

  lemma SleepersKnown(s: State)
    requires Inv(s)
    ensures forall u | Sleeps(s.pcs, u) :: u in s.since
  {
    forall u | Sleeps(s.pcs, u)
      ensures u in s.since
    {
      assert ThreadOk(s, u);
    }
  }

  /** If one does, it can be the one that is woken: thread v calls wait(), sleeps, and is not an
      earlier registrant. */
  lemma OpenIsLater(s: State, t: Tid, v: Tid) returns (events: seq<Event>, m: State)
    requires Numbered(s) && t in s.pcs && s.pcs[t].NotifyingOne? && v in s.pcs && s.pcs[v] == Idle
    requires Signals(s.word) != MAX_SIGNALS && Waiters(s.word) != MAX_WAITERS
    ensures Pending(s, events, m, t, false) && Sleeps(m.pcs, v) && !AllEarlier(m, t)
  {
    hide Numbered, Pending;
    var wait := Advance(v, Wait, v);
    var mid := Apply(s, wait);
    m := Apply(mid, wait);
    assert m.pcs[v] == Asleep && m.since[v] == s.wakes && m.pcs[t] == s.pcs[t];
    NumberedAt(s, t);
    assert Sleeps(m.pcs, v) && !(m.since[v] < m.pcs[t].wake);
    NothingPending(m, t);
    PendingMore(mid, wait, [], m, t);
    PendingMore(s, wait, [wait] + [], m, t);
    events := [wait] + ([wait] + []);
  }

  lemma NothingPending(s: State, t: Tid)
    ensures Pending(s, [], s, t, false)
  {
  }

  lemma PendingMore(s: State, e: Event, events: seq<Event>, m: State, t: Tid)
    requires Enabled(s, e) && !(e.Advance? && e.t == t) && Pending(Apply(s, e), events, m, t, false)
    ensures Pending(s, [e] + events, m, t, false)
  {
    assert ([e] + events)[1..] == events;
  }

  lemma NumberedAt(s: State, t: Tid)
    requires Numbered(s) && t in s.pcs && s.pcs[t].NotifyingOne?
    ensures s.pcs[t].wake <= s.wakes
  {
  }

  lemma {:induction false} PendingConcat(s: State, a: seq<Event>, m: State, b: seq<Event>, r: State, t: Tid)
    requires Pending(s, a, m, t, false) && Pending(m, b, r, t, false)
    ensures Pending(s, a + b, r, t, false)
    decreases |a|
  {
    if a == [] {
      assert a + b == b;
    } else {
      assert (a + b)[0] == a[0] && (a + b)[1..] == a[1..] + b;
      PendingConcat(Apply(s, a[0]), a[1..], m, b, r, t);
    }
  }

  lemma PendingKeeps(s: State, events: seq<Event>, m: State, t: Tid)
    requires Inv(s) && Numbered(s) && Pending(s, events, m, t, false)
    ensures Inv(m) && Numbered(m)
  {
    hide Inv, Numbered, Pending, Run;
    PendingIsRun(s, events, m, t, false);
    InvRun(s, events, m);
    NumberedRun(s, events, m);
  }

  predicate InWait(pc: Pc) {
    pc.Parking? || pc.Asleep? || pc.Leaving?
  }

  /** Somebody is registered when a signal is accepted. */
  lemma SomeoneRegistered(s: State) returns (u: Tid)
    requires Inv(s) && s.word != 0
    ensures u in s.pcs && InWait(s.pcs[u])
  {
    RoleCount(s.pcs, Stirring);
    RoleCount(s.pcs, Sleeper);
    hide Count, Roles;
    if v :| HasRole(s.pcs, v, Stirring) {
      u := v;
    } else {
      u :| HasRole(s.pcs, u, Sleeper);
    }
  }

  /** A registered thread can come back from the futex, on its own if need be. */
  lemma ComesBack(s: State, t: Tid, u: Tid) returns (events: seq<Event>, m: State)
    requires u in s.pcs && u != t && InWait(s.pcs[u])
    ensures Pending(s, events, m, t, false) && m == s.(pcs := s.pcs[u := Leaving])
  {
    hide Pending;
    var wake, park := Wakeup(u), Advance(u, Wait, u);
    m := s.(pcs := s.pcs[u := Leaving]);
    NothingPending(m, t);
    if s.pcs[u].Leaving? {
      assert m.pcs == s.pcs;
      events := [];
    } else if s.pcs[u].Asleep? {
      PendingMore(s, wake, [], m, t);
      events := [wake] + [];
    } else if s.word != s.pcs[u].seen {
      PendingMore(s, park, [], m, t);
      events := [park] + [];
    } else {
      var mid := Apply(s, park);
      assert mid.pcs[u := Leaving] == m.pcs;
      PendingMore(mid, wake, [], m, t);
      PendingMore(s, park, [wake] + [], m, t);
      events := [park] + ([wake] + []);
    }
  }

  /** It then leaves a place free. */
  lemma LeavesRoom(s: State, u: Tid)
    requires Inv(s) && u in s.pcs && s.pcs[u] == Leaving && Signals(s.word) != MAX_SIGNALS
    ensures var m := Apply(s, Advance(u, Wait, u));
            && m.pcs == s.pcs[u := Idle]
            && Signals(m.word) != MAX_SIGNALS && Waiters(m.word) != MAX_WAITERS
  {
    hide Ok, Signals, Waiters, TallyOf;
    var c := TallyOf(s.pcs);
    assert HasRole(s.pcs, u, Stirring);
    RoleCount(s.pcs, Stirring);
    assert c.stirring > 0 by {
      TallyStirring(s.pcs);
    }
    LeaveWord(s.word, c);
    RoomAfter(s.word, c, Apply(s, Advance(u, Wait, u)).word);
  }

  lemma TallyStirring(pcs: map<Tid, Pc>)
    ensures TallyOf(pcs).stirring == Count(Roles(pcs), Stirring)
  {
  }

  lemma RoomAfter(w: Word, c: Tally, next: Word)
    requires Ok(w, c) && c.stirring > 0 && Signals(w) != MAX_SIGNALS
    requires Ok(next, c.(stirring := c.stirring - 1)) && (c.Registered() > 1 ==> Signals(next) == Signals(w))
    ensures Signals(next) != MAX_SIGNALS && Waiters(next) != MAX_WAITERS
  {
    Fields(next, c.(stirring := c.stirring - 1));
  }

  /** So it can register again, and be the one that is woken. */
  lemma AgainIsLater(s: State, t: Tid) returns (events: seq<Event>, m: State)
    requires Inv(s) && Numbered(s) && t in s.pcs && s.pcs[t].NotifyingOne?
    requires s.word != 0 && Signals(s.word) != MAX_SIGNALS
    ensures Pending(s, events, m, t, false) && !AllEarlier(m, t)
  {
    hide Inv, Numbered, Pending, AllEarlier, Signals, Waiters;
    var u := SomeoneRegistered(s);
    var back, s1 := ComesBack(s, t, u);
    PendingKeeps(s, back, s1, t);
    LeavesRoom(s1, u);
    var leave := Advance(u, Wait, u);
    var s2 := Apply(s1, leave);
    NumberedStep(s1, leave);
    var again, r := OpenIsLater(s2, t, u);
    m := r;
    PendingMore(s1, leave, again, m, t);
    PendingConcat(s, back, s1, [leave] + again, m, t);
    events := back + ([leave] + again);
  }

  /** After a notify_one is accepted, in every reachable state: every wake it can send goes to an earlier
      registrant exactly when registrations are kept out until it is sent, as a caller does that holds
      the lock of the waiting threads over the call. */
  lemma NotifyOneGoesToEarlierExactly(s: State, e: Event, t: Tid, closed: bool)
    requires Reachable(s) && Accepts(s, e, t)
    ensures (forall events, m :: Pending(Apply(s, e), events, m, t, closed) ==> AllEarlier(m, t)) <==> closed
  {
    hide Pending, AllEarlier, Numbered, Run, Waiters, Signals, Inv;
    if closed {
      forall events, m | Pending(Apply(s, e), events, m, t, closed)
        ensures AllEarlier(m, t)
      {
        ClosedIsEarlier(s, e, t, events, m);
      }
    } else {
      InvReachable(s);
      InvStep(s, e);
      NumberedReachable(s);
      NumberedStep(s, e);
      AcceptedRecord(s, e, t);
      AcceptedWord(s, e, t);
      var events, m := AgainIsLater(Apply(s, e), t);
    }
  }

  lemma AcceptedWord(s: State, e: Event, t: Tid)
    requires Inv(s) && Accepts(s, e, t)
    ensures Apply(s, e).word != 0
  {
    AcceptWord(s.word, TallyOf(s.pcs), true);
  }

  // -- A run in which it happens --------------------------------------------------------

  /** The promise is only for notify_all: a notify_one can be taken by a thread that
      registered after it, leaving an earlier sleeper with no wake on its way. */
  lemma NotifyOneCanGoToLaterWaiter() returns (s: State)
    ensures Reachable(s)
    ensures Sleeps(s.pcs, 0) && 0 in s.since && s.since[0] < s.wakes
    ensures 1 in s.pcs && s.pcs[1] == Leaving && 1 in s.since && s.since[1] == s.wakes
    ensures forall t | t in s.pcs :: !s.pcs[t].NotifyingOne? && !s.pcs[t].NotifyingAll?
  {
    var tail, r := LaterWaiterTakesIt();
    var events := WakeSent(tail, r);
    events := FirstWaits(events, r);
    hide Run;
    assert Init(AllIdle());
    s := r;
  }

  function AllIdle(): State {
    State(0, map[0 := Idle, 1 := Idle, 2 := Idle], map[], 0, 0)
  }

  lemma FirstWaits(tail: seq<Event>, r: State) returns (events: seq<Event>)
    requires Run(FirstSleeps(), tail, r)
    ensures Run(AllIdle(), events, r)
  {
    hide Run;
    var s0 := AllIdle();
    var s1 := State(1, s0.pcs[0 := Parking(1)], map[0 := 0], 0, 0);
    var wait := Advance(0, Wait, 0);
    assert s1.pcs[0 := Asleep] == FirstSleeps().pcs;
    Then(s1, wait, tail, r);
    Then(s0, wait, [wait] + tail, r);
    events := [wait] + ([wait] + tail);
  }

  function FirstSleeps(): State {
    State(1, map[0 := Asleep, 1 := Idle, 2 := Idle], map[0 := 0], 0, 0)
  }

  lemma WakeSent(tail: seq<Event>, r: State) returns (events: seq<Event>)
    requires Run(WakeOnItsWay(), tail, r)
    ensures Run(FirstSleeps(), events, r)
  {
    var s2 := FirstSleeps();
    var s3 := s2.(pcs := s2.pcs[2 := Waking(false)]);
    var notify := Advance(2, NotifyOne, 0);
    assert Apply(s3, notify) == WakeOnItsWay();
    Then(s3, notify, tail, r);
    Then(s2, notify, [notify] + tail, r);
    events := [notify] + ([notify] + tail);
  }

  /** Thread 0 sleeps; thread 2 has sent the signal and not yet the wake. */
  function WakeOnItsWay(): State {
    State(0x2001, map[0 := Asleep, 1 := Idle, 2 := NotifyingOne(1)], map[0 := 0], 1, 0)
  }

  /** Thread 1 registers, sleeps, and is the one woken. */
  lemma LaterWaiterTakesIt() returns (events: seq<Event>, r: State)
    ensures Run(WakeOnItsWay(), events, r)
    ensures r == State(0x2002, map[0 := Asleep, 1 := Leaving, 2 := Idle], map[0 := 0, 1 := 1], 1, 0)
  {
    var s4 := WakeOnItsWay();
    var s5 := State(0x2002, s4.pcs[1 := Parking(0x2002)], s4.since[1 := 1], 1, 0);
    var s6 := s5.(pcs := s5.pcs[1 := Asleep]);
    r := State(0x2002, map[0 := Asleep, 1 := Leaving, 2 := Idle], map[0 := 0, 1 := 1], 1, 0);
    var wait, notify := Advance(1, Wait, 0), Advance(2, NotifyOne, 1);
    assert Apply(s6, notify).pcs == r.pcs;
    assert r.since == s6.since;
    Then(s6, notify, [], r);
    Then(s5, wait, [notify] + [], r);
    Then(s4, wait, [wait] + ([notify] + []), r);
    events := [wait] + ([wait] + ([notify] + []));
  }

  lemma Then(s: State, e: Event, rest: seq<Event>, r: State)
    requires Enabled(s, e) && Run(Apply(s, e), rest, r)
    ensures Run(s, [e] + rest, r)
  {
    assert ([e] + rest)[1..] == rest;
  }
}
