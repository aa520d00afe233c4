/** The semaphore serves its waiters: once there is a unit and somebody is registered, the registered
    threads that are awake and the threads about to wake one need only go on, in any order. */
module SemaphoreProgress {
  import opened Threads
  import opened Word32
  import opened Semaphore

  ghost predicate Waits(s: State, t: Tid) {
    HasRole(s.pcs, t, Awake) || HasRole(s.pcs, t, Sleeper)
  }

  /** There is a unit, and somebody waits for it. */
  ghost predicate Ready(s: State) {
    Value(s.word) > 0 && exists t :: Waits(s, t)
  }

  /** A step of the code of a registered thread that is awake, or of one about to wake another. */
  ghost predicate OwnStep(s: State, e: Event) {
    e.Advance? && Enabled(s, e) && (HasRole(s.pcs, e.t, Awake) || HasRole(s.pcs, e.t, Notifier))
  }

  /** A run of such steps until something is taken. */
  ghost predicate Drive(s: State, takes: nat, events: seq<Event>, r: State)
    decreases |events|
  {
    if events == [] then s == r
    else s.takes == takes && OwnStep(s, events[0]) && Drive(Apply(s, events[0]), takes, events[1..], r)
  }

  // -- The rank -------------------------------------------------------------------------

  /** What a thread at pc may still do while there is a unit. */
  function Weight(pc: Pc): nat {
    match pc
    case Notifying => 2
    case Parking(_) => 2
    case Hard(waits) => if waits then 1 else 0
    case _ => 0
  }

  function Weights(pcs: map<Tid, Pc>): map<Tid, nat> {
    map t | t in pcs :: Weight(pcs[t])
  }

  ghost function Rank(s: State): nat {
    Sum(Weights(s.pcs))
  }

  lemma WeightsMove(pcs: map<Tid, Pc>, t: Tid, pc: Pc)
    requires t in pcs
    ensures Sum(Weights(pcs[t := pc])) == Sum(Weights(pcs)) - Weight(pcs[t]) + Weight(pc)
  {
    assert Weights(pcs[t := pc]) == Weights(pcs)[t := Weight(pc)];
    SumMove(Weights(pcs), t, Weight(pc));
  }

  lemma RankBound(s: State)
    ensures Rank(s) <= 2 * |s.pcs|
  {
    assert Weights(s.pcs).Keys == s.pcs.Keys;
    SumBound(Weights(s.pcs), 2);
  }

  // -- Every step counts ----------------------------------------------------------------

  /** After a step of thread t: it was waiting and has taken a unit, or the same threads wait for the
      same unit and less is left to do. */
  ghost predicate Advances(s: State, r: State, t: Tid) {
    && Rank(s) > 0
    && if r.takes == s.takes
       then r.word == s.word && Rank(r) < Rank(s) && forall u :: Waits(r, u) <==> Waits(s, u)
       else Waits(s, t) && Took(s, r, t)
  }

  ghost predicate Took(s: State, r: State, t: Tid) {
    t in r.pcs && r.pcs[t] == Idle && r.takes == s.takes + 1 && s.word > UNIT && r.word == s.word - 1 - UNIT
  }

  lemma SameWaiters(s: State, r: State, t: Tid)
    requires t in s.pcs && t in r.pcs && r.pcs == s.pcs[t := r.pcs[t]] && (Waits(r, t) <==> Waits(s, t))
    ensures forall u :: Waits(r, u) <==> Waits(s, u)
  {
  }

  lemma NotifyAdvances(s: State, e: Event)
    requires OwnStep(s, e) && s.pcs[e.t].Notifying?
    ensures Advances(s, Apply(s, e), e.t)
  {
    hide Sum, Weights;
    var mid := s.(pcs := s.pcs[e.t := Idle]);
    WeightsMove(s.pcs, e.t, Idle);
    SameWaiters(s, mid, e.t);
    if Sleeps(mid.pcs, e.woken) {
      var r := mid.(pcs := mid.pcs[e.woken := Hard(true)]);
      assert Apply(s, e) == r;
      WeightsMove(mid.pcs, e.woken, Hard(true));
      SameWaiters(mid, r, e.woken);
    } else {
      assert Apply(s, e) == mid;
    }
  }

  lemma AwakeAdvances(s: State, e: Event)
    requires Inv(s) && Ready(s) && OwnStep(s, e) && HasRole(s.pcs, e.t, Awake)
    ensures Advances(s, Apply(s, e), e.t)
  {
    AwakeMeans(s, e.t);
    assert PcOk(s.pcs[e.t]);
    hide Sum, Weights, Ok, TallyOf;
    var r := Apply(s, e);
    WeightsMove(s.pcs, e.t, r.pcs[e.t]);
    if s.pcs[e.t].Parking? {
      SameWaiters(s, r, e.t);
    }
  }

  lemma AwakeMeans(s: State, t: Tid)
    requires Inv(s) && HasRole(s.pcs, t, Awake)
    ensures UNIT <= s.word < FULL && (Value(s.word) > 0 ==> UNIT < s.word)
  {
    hide Ok, TallyOf;
    RoleCount(s.pcs, Awake);
    WordRange(s.word, TallyOf(s.pcs), Balance(s));
  }

  lemma WordRange(w: Word, c: Tally, balance: int)
    requires Ok(w, c, balance) && c.awake > 0
    ensures UNIT <= w < FULL && (Value(w) > 0 ==> UNIT < w)
  {
  }

  /** Whichever of these threads goes on, less is left to do, or it has a unit. */
  lemma OwnStepAdvances(s: State, e: Event)
    requires Inv(s) && Ready(s) && OwnStep(s, e)
    ensures Advances(s, Apply(s, e), e.t)
  {
    hide Inv, Advances, Ready;
    if s.pcs[e.t].Notifying? {
      NotifyAdvances(s, e);
    } else {
      AwakeAdvances(s, e);
    }
  }

  /** One of them always can. */
  lemma SomeStep(s: State) returns (e: Event)
    requires Inv(s) && Ready(s)
    ensures OwnStep(s, e)
  {
    var t := SomeoneBusy(s);
    hide Inv;
    if u :| Sleeps(s.pcs, u) {
      e := Advance(t, SpinAgain, u);
    } else {
      e := Advance(t, SpinAgain, t);
    }
  }

  lemma BusyCount(s: State)
    requires Inv(s) && Value(s.word) > 0
    ensures var c := TallyOf(s.pcs); c.Registered() > 0 ==> c.awake + c.notifiers > 0
  {
    Fields(s.word, TallyOf(s.pcs), Balance(s));
  }

  lemma SomeoneBusy(s: State) returns (t: Tid)
    requires Inv(s) && Ready(s)
    ensures HasRole(s.pcs, t, Awake) || HasRole(s.pcs, t, Notifier)
  {
    hide Inv, TallyOf, RoleOf, HasRole;
    RoleCount(s.pcs, Awake);
    RoleCount(s.pcs, Sleeper);
    RoleCount(s.pcs, Notifier);
    BusyCount(s);
    var u :| Waits(s, u);
    assert TallyOf(s.pcs).At(Awake) + TallyOf(s.pcs).At(Notifier) > 0;
    if v :| HasRole(s.pcs, v, Awake) {
      t := v;
    } else {
      t :| HasRole(s.pcs, t, Notifier);
    }
  }

  lemma StillReady(s: State, e: Event)
    requires Inv(s) && Ready(s) && OwnStep(s, e) && Advances(s, Apply(s, e), e.t)
    requires Apply(s, e).takes == s.takes
    ensures Inv(Apply(s, e)) && Ready(Apply(s, e))
  {
    hide Inv, Apply, Rank;
    InvStep(s, e);
    var t :| Waits(s, t);
    assert Waits(Apply(s, e), t);
  }

  lemma {:induction false} DriveEnds(s: State, events: seq<Event>, r: State)
    requires Inv(s) && Ready(s) && Drive(s, s.takes, events, r)
    ensures |events| <= Rank(s)
    ensures r.takes == s.takes ==> exists e :: OwnStep(r, e)
    ensures r.takes != s.takes ==> exists t :: Waits(s, t) && Took(s, r, t)
    decreases |events|
  {
    hide Inv, Ready, Rank, Apply, Enabled, HasRole, Waits;
    if events == [] {
      var e := SomeStep(s);
    } else {
      var e := events[0];
      var m := Apply(s, e);
      OwnStepAdvances(s, e);
      if m.takes == s.takes {
        StillReady(s, e);
        DriveEnds(m, events[1..], r);
      } else {
        Stopped(m, s.takes, events[1..], r);
      }
    }
  }

  lemma Stopped(s: State, takes: nat, events: seq<Event>, r: State)
    requires Drive(s, takes, events, r) && s.takes != takes
    ensures events == [] && r == s
  {
  }

  /** From every reachable state with a unit and a registered thread: however the registered threads
      that are awake and those about to wake one are scheduled, a unit is taken within two steps for
      each thread; one more step can be taken as long as it is not; and it is taken by a thread that
      waited. */
  lemma WaiterServed(s: State, events: seq<Event>, r: State)
    requires Reachable(s) && NoneFailed(s) && Ready(s) && Drive(s, s.takes, events, r)
    ensures |events| <= 2 * |s.pcs|
    ensures r.takes == s.takes ==> exists e :: OwnStep(r, e)
    ensures r.takes != s.takes ==> exists t :: Waits(s, t) && Took(s, r, t)
  {
    hide Inv, Ready, Rank, Drive, OwnStep;
    InvReachable(s);
    RankBound(s);
    DriveEnds(s, events, r);
  }
}
