/** What a wake brings about: once its signal is added, the threads inside calls need only go on, in any
    order, until earlier registrants have left the wait. */
module CondVariableProgress {
  import opened Threads
  import opened Word32
  import opened CondVariable
  import opened CondVariableDelivery

  predicate InCall(pc: Pc) {
    !pc.Idle? && !pc.Asleep?
  }

  /** A step of the code of a thread inside a call: no call begins, and nobody wakes unwoken. */
  ghost predicate OwnStep(s: State, e: Event) {
    e.Advance? && Enabled(s, e) && InCall(s.pcs[e.t])
  }

  ghost predicate Drive(s: State, events: seq<Event>, r: State)
    decreases |events|
  {
    if events == [] then s == r
    else OwnStep(s, events[0]) && Drive(Apply(s, events[0]), events[1..], r)
  }

  /** No such step is left. */
  ghost predicate Settled(s: State) {
    forall e :: !OwnStep(s, e)
  }

  lemma SettledMeans(s: State, t: Tid)
    requires Settled(s) && t in s.pcs
    ensures !InCall(s.pcs[t])
  {
    if InCall(s.pcs[t]) {
      var e := SomeStep(s, t);
    }
  }

  /** A thread inside a call can always go on. */
  lemma SomeStep(s: State, t: Tid) returns (e: Event)
    requires t in s.pcs && InCall(s.pcs[t])
    ensures OwnStep(s, e)
  {
    if u :| Sleeps(s.pcs, u) {
      e := Advance(t, Wait, u);
    } else {
      e := Advance(t, Wait, t);
    }
  }

  // -- The rank -------------------------------------------------------------------------

  /** What a thread at pc may still do; a sleeper may be woken. */
  function Weight(pc: Pc): nat {
    match pc
    case Idle => 0
    case Parking(_) => 2
    case Waking(_) => 2
    case _ => 1
  }

  function Weights(pcs: map<Tid, Pc>): map<Tid, nat> {
    map t | t in pcs :: Weight(pcs[t])
  }

  ghost function Rank(s: State): nat {
    Sum(Weights(s.pcs))
  }

  lemma WeightsMove(pcs: map<Tid, Pc>, t: Tid, pc: Pc)
    requires t in pcs
    ensures Sum(Weights(pcs[t := pc])) == Sum(Weights(pcs)) - Weight(pcs[t]) + Weight(pc)
  {
    assert Weights(pcs[t := pc]) == Weights(pcs)[t := Weight(pc)];
    SumMove(Weights(pcs), t, Weight(pc));
  }

  /** Being woken costs nothing. */
  lemma WokenWeights(pcs: map<Tid, Pc>, t: Tid)
    ensures Weights(WakeAll(pcs)) == Weights(pcs) == Weights(WakeOne(pcs, t))
  {
  }

  lemma RankBound(s: State)
    ensures Rank(s) <= 2 * |s.pcs|
  {
    assert Weights(s.pcs).Keys == s.pcs.Keys;
    SumBound(Weights(s.pcs), 2);
  }

  /** Whichever thread goes on, less is left to do. */
  lemma OwnStepAdvances(s: State, e: Event)
    requires OwnStep(s, e)
    ensures Rank(Apply(s, e)) < Rank(s)
  {
    hide Sum, Weights;
    var f := Step(s.pcs[e.t], s.word, e.choice, s.wakes);
    WeightsMove(s.pcs, e.t, f.pc);
    WokenWeights(s.pcs[e.t := f.pc], e.woken);
  }

  // -- Who is released ------------------------------------------------------------------

  /** Thread t adds its signal, and is to wake one thread or all. */
  ghost predicate Sends(s: State, e: Event, t: Tid) {
    && e.Advance? && e.t == t && Enabled(s, e) && s.pcs[t].Waking?
    && Notifying(Apply(s, e).pcs[t])
  }

  predicate Notifying(pc: Pc) {
    pc.NotifyingOne? || pc.NotifyingAll?
  }

  predicate Waits(s: State, t: Tid) {
    t in s.pcs && InWait(s.pcs[t])
  }

  /** One of the threads that waited at s is not asleep; or none of them is, after a notify_all. */
  ghost predicate Released(s: State, x: State, all: bool) {
    if all then forall u | Waits(s, u) :: u in x.pcs && x.pcs[u] != Asleep
    else exists u :: Waits(s, u) && u in x.pcs && x.pcs[u] != Asleep
  }

  /** From s, where t has added its signal, to x: whoever waits waited at s, and does not park on a word
      that is still there; and t has yet to send its wake, or the wake has had its effect. */
  ghost predicate Since(s: State, x: State, t: Tid) {
    && t in s.pcs && Notifying(s.pcs[t]) && x.pcs.Keys == s.pcs.Keys
    && (forall u | Waits(x, u) :: Waits(s, u) && Stale(x, u, s.pcs[t].wake))
    && (forall u | Waits(s, u) :: Waits(x, u) || x.pcs[u] == Idle)
    && (x.pcs[t] == s.pcs[t] || Released(s, x, s.pcs[t].NotifyingAll?))
  }

  /** If u is about to park, it registered before the signal with this number. */
  ghost predicate Stale(x: State, u: Tid, wake: nat) {
    u in x.pcs && x.pcs[u].Parking? ==> u in x.since && x.since[u] < wake <= x.wakes
  }

  lemma SinceStart(s: State, e: Event, t: Tid)
    requires Inv(s) && Sends(s, e, t)
    ensures Since(Apply(s, e), Apply(s, e), t)
    ensures forall u :: Waits(Apply(s, e), u) <==> Waits(s, u)
  {
    var m := Apply(s, e);
    forall u | Waits(m, u)
      ensures Stale(m, u, m.pcs[t].wake)
    {
      assert ThreadOk(s, u);
    }
  }

  /** A stale thread does not fall asleep. */
  lemma StaleLeaves(x: State, u: Tid, choice: Choice, wake: nat)
    requires Inv(x) && u in x.pcs && x.pcs[u].Parking? && Stale(x, u, wake)
    ensures Step(x.pcs[u], x.word, choice, x.wakes).pc == Leaving
  {
    assert ThreadOk(x, u);
  }

  /** How a thread's place changes in a step inside calls: if it waits it can only be woken or leave, and
      if it does not it does not begin to. */
  predicate Follows(a: Pc, b: Pc) {
    || a == b
    || (InWait(a) && (b == Leaving || b == Idle))
    || (!InWait(a) && !a.Idle? && !InWait(b))
  }

  ghost predicate AllFollow(x: State, m: State) {
    && m.pcs.Keys == x.pcs.Keys && m.since == x.since && x.wakes <= m.wakes
    && forall u | u in x.pcs :: Follows(x.pcs[u], m.pcs[u])
  }

  lemma StepFollows(x: State, e: Event, wake: nat)
    requires Inv(x) && OwnStep(x, e) && Stale(x, e.t, wake)
    ensures AllFollow(x, Apply(x, e))
  {
    if x.pcs[e.t].Parking? {
      StaleLeaves(x, e.t, e.choice, wake);
    }
    hide Inv;
    var m := Apply(x, e);
    forall u | u in x.pcs
      ensures Follows(x.pcs[u], m.pcs[u])
    {
    }
  }

  /** Steps other than the wake itself. */
  lemma SinceOther(s: State, x: State, t: Tid, m: State)
    requires Since(s, x, t) && AllFollow(x, m) && (x.pcs[t] == s.pcs[t] ==> m.pcs[t] == x.pcs[t])
    ensures Since(s, m, t)
  {
    SinceWaits(s, x, t, m);
    if x.pcs[t] != s.pcs[t] {
      hide Since;
      StaysReleased(s, x, m, s.pcs[t].NotifyingAll?);
    }
  }

  lemma SinceWaits(s: State, x: State, t: Tid, m: State)
    requires Since(s, x, t) && AllFollow(x, m)
    ensures t in s.pcs && Notifying(s.pcs[t]) && m.pcs.Keys == s.pcs.Keys
    ensures forall u | Waits(m, u) :: Waits(s, u) && Stale(m, u, s.pcs[t].wake)
    ensures forall u | Waits(s, u) :: Waits(m, u) || m.pcs[u] == Idle
  {
    forall u | u in x.pcs
      ensures Waits(m, u) ==> Waits(s, u) && Stale(m, u, s.pcs[t].wake)
      ensures Waits(s, u) ==> Waits(m, u) || m.pcs[u] == Idle
    {
      assert Follows(x.pcs[u], m.pcs[u]);
    }
  }

  lemma StaysReleased(s: State, x: State, m: State, all: bool)
    requires Released(s, x, all) && AllFollow(x, m)
    ensures Released(s, m, all)
  {
    forall u | u in x.pcs && x.pcs[u] != Asleep
      ensures m.pcs[u] != Asleep
    {
      assert Follows(x.pcs[u], m.pcs[u]);
    }
    if !all {
      var u :| Waits(s, u) && u in x.pcs && x.pcs[u] != Asleep;
      assert u in m.pcs && m.pcs[u] != Asleep;
    }
  }

  /** The wake: a sleeper, if there is one, waited at s. */
  lemma SinceWake(s: State, x: State, t: Tid, e: Event)
    requires Since(s, x, t) && OwnStep(x, e) && e.t == t && x.pcs[t] == s.pcs[t] && AllFollow(x, Apply(x, e))
    requires exists u :: Waits(s, u)
    ensures Since(s, Apply(x, e), t)
  {
    SinceWaits(s, x, t, Apply(x, e));
    var u := if Sleeps(x.pcs, e.woken) then e.woken else var v :| Waits(s, v); v;
    assert Waits(s, u) by {
      assert Sleeps(x.pcs, e.woken) ==> Waits(x, e.woken);
    }
    hide Since;
    WakeDone(s, x, e, u);
  }

  lemma WakeDone(s: State, x: State, e: Event, u: Tid)
    requires e.Advance? && Enabled(x, e) && Notifying(x.pcs[e.t]) && Waits(s, u) && s.pcs.Keys == x.pcs.Keys
    requires Sleeps(x.pcs, e.woken) ==> u == e.woken
    ensures Released(s, Apply(x, e), x.pcs[e.t].NotifyingAll?)
  {
    var m := Apply(x, e);
    if x.pcs[e.t].NotifyingOne? {
      assert Sleeps(x.pcs, u) ==> Sleeps(x.pcs, e.woken);
      assert u in m.pcs && m.pcs[u] != Asleep;
    }
  }

  lemma SinceStep(s: State, x: State, t: Tid, e: Event)
    requires Inv(x) && Since(s, x, t) && OwnStep(x, e) && exists u :: Waits(s, u)
    ensures Since(s, Apply(x, e), t)
  {
    hide Inv, AllFollow, Released;
    StepFollows(x, e, s.pcs[t].wake);
    if e.t == t && x.pcs[t] == s.pcs[t] {
      SinceWake(s, x, t, e);
    } else {
      SinceOther(s, x, t, Apply(x, e));
    }
  }

  lemma {:induction false} SinceDrive(s: State, x: State, t: Tid, events: seq<Event>, r: State)
    requires Inv(x) && Since(s, x, t) && Drive(x, events, r) && exists u :: Waits(s, u)
    ensures Since(s, r, t) && |events| <= Rank(x)
    decreases |events|
  {
    hide Inv, Since, Apply, Rank, Waits;
    if events != [] {
      var e := events[0];
      OwnStepAdvances(x, e);
      InvStep(x, e);
      SinceStep(s, x, t, e);
      SinceDrive(s, Apply(x, e), t, events[1..], r);
    }
  }

  lemma SettledReleased(s: State, r: State, t: Tid)
    requires Since(s, r, t) && Settled(r)
    ensures Left(s, r, s.pcs[t].NotifyingAll?)
  {
    hide Settled;
    forall u | u in r.pcs
      ensures !InCall(r.pcs[u])
    {
      SettledMeans(r, u);
    }
    assert Released(s, r, s.pcs[t].NotifyingAll?);
    if s.pcs[t].NotifyingOne? {
      var u :| Waits(s, u) && u in r.pcs && r.pcs[u] != Asleep;
      assert r.pcs[u] == Idle;
    }
  }

  /** A thread that waited at s has returned by r; or all have. */
  ghost predicate Left(s: State, r: State, all: bool) {
    if all then forall u | Waits(s, u) :: u in r.pcs && r.pcs[u] == Idle
    else exists u :: Waits(s, u) && u in r.pcs && r.pcs[u] == Idle
  }

  /** From every reachable state in which a wake is accepted: however the threads inside calls are
      scheduled, within two steps for each thread there is none left to go on; and then a thread that was
      registered when the signal was added has left the wait, or all of them after a notify_all. */
  lemma WakeReleases(s: State, e: Event, t: Tid, events: seq<Event>, r: State)
    requires Reachable(s) && Sends(s, e, t) && Drive(Apply(s, e), events, r)
    ensures |events| <= 2 * |s.pcs|
    ensures Settled(r) ==> Left(s, r, Apply(s, e).pcs[t].NotifyingAll?)
  {
    hide Inv, Settled, Drive, Rank, Since;
    InvReachable(s);
    var m := Apply(s, e);
    var u := SomeoneWaits(s, e, t);
    InvStep(s, e);
    SinceStart(s, e, t);
    SinceDrive(m, m, t, events, r);
    RankBound(m);
    assert m.pcs.Keys == s.pcs.Keys;
    SameSize(m.pcs, s.pcs);
    if Settled(r) {
      SettledReleased(m, r, t);
    }
  }

  lemma SameSize(a: map<Tid, Pc>, b: map<Tid, Pc>)
    requires a.Keys == b.Keys
    ensures |a| == |b|
  {
    assert |a| == |a.Keys| && |b| == |b.Keys|;
  }

  lemma SomeoneWaits(s: State, e: Event, t: Tid) returns (u: Tid)
    requires Inv(s) && Sends(s, e, t)
    ensures Waits(s, u) && Waits(Apply(s, e), u)
  {
    hide Inv;
    u := SomeoneRegistered(s);
  }
}
