/** The mutex as its callers see it: which call a thread is in, and what it holds when the call comes
    back. The observer looks only at what the caller asked for and at what the thread holds. */
module SharedMutexCalls {
  import opened Threads
  import opened Word32
  import opened SharedMutex

  /** Not inside a call. */
  predicate AtRest(pc: Pc) {
    pc.Idle? || pc.Reading? || pc.Writing?
  }

  /** A call, and what its thread held when it made it. */
  datatype Call = Call(what: Choice, from: Role)

  datatype Return = Return(t: Tid, call: Call, to: Role)

  /** calls: those under way; log: those that have come back. */
  datatype Watch = Watch(state: State, calls: map<Tid, Call>, log: seq<Return>)

  /** The call that thread t is in during its next step. */
  function During(x: Watch, t: Tid, choice: Choice): Call
    requires t in x.state.pcs && (AtRest(x.state.pcs[t]) || t in x.calls)
  {
    if AtRest(x.state.pcs[t]) then Call(choice, RoleOf(x.state.pcs[t])) else x.calls[t]
  }

  ghost predicate Watchable(x: Watch, e: Event) {
    Enabled(x.state, e) && (e.Advance? ==> AtRest(x.state.pcs[e.t]) || e.t in x.calls)
  }

  ghost function Next(x: Watch, e: Event): Watch
    requires Watchable(x, e)
  {
    var r := Apply(x.state, e);
    if e.Wakeup? then x.(state := r)
    else
      var call := During(x, e.t, e.choice);
      if AtRest(r.pcs[e.t]) then
        Watch(r, x.calls - {e.t}, x.log + [Return(e.t, call, RoleOf(r.pcs[e.t]))])
      else Watch(r, x.calls[e.t := call], x.log)
  }

  // -- What is promised -----------------------------------------------------------------

  /** What a call may come back with. A call that does not fit what the thread holds does nothing. */
  predicate Promised(call: Call, to: Role) {
    match call.from
    case Outside =>
      (match call.what
       case Lock => to == Writer
       case LockShared => to == Reader
       case TryLock => to == Writer || to == Outside
       case TryLockShared => to == Reader || to == Outside
       case _ => to == Outside)
    case Reader =>
      (match call.what
       case UnlockShared => to == Outside
       case Upgrade => to == Writer
       case TryUpgrade => to == Writer || to == Reader
       case _ => to == Reader)
    case Writer =>
      (match call.what
       case Unlock => to == Outside
       case Downgrade => to == Reader
       case _ => to == Writer)
    case _ => false
  }

  // -- Where a call can be --------------------------------------------------------------

  predicate Waits(pc: Pc, goal: Goal) {
    (pc.Claiming? || pc.Parking? || pc.Asleep?) && pc.goal == goal
  }

  predicate Serves(call: Call, pc: Pc) {
    match call.what
    case Lock =>
      && call.from == Outside
      && (pc.ExclusiveSteal? || pc.ExclusiveSpin? || pc.ExclusiveSpinCas? || pc.ExclusiveEnqueue? || Waits(pc, ForExclusive))
    case LockShared =>
      && call.from == Outside
      && (pc.SharedCas? || pc.SharedSteal? || pc.SharedSpin? || pc.SharedSpinCas? || pc.SharedSpinLoad?
          || pc.SharedSpinSteal? || pc.SharedEnqueue? || pc.Downgrading? || Waits(pc, ForShared))
    case TryLockShared => call.from == Outside && pc.TrySharedCas?
    case LockUnlock =>
      && call.from == Outside
      && (pc.PassSpin? || pc.PassEnqueue? || pc.Passing? || Waits(pc, ForPass) || pc.Signaling? || pc.Notifying?)
    case UnlockShared => call.from == Reader && (pc.Signaling? || pc.Notifying?)
    case Unlock => call.from == Writer && (pc.Signaling? || pc.Notifying?)
    case TryUpgrade => call.from == Reader && pc.TryUpgradeCas?
    case Upgrade =>
      call.from == Reader && (pc.UpgradeCas? || pc.UpgradeSpin? || pc.UpgradeEnqueue? || Waits(pc, ForExclusive))
    case _ => false
  }

  /** next is still in the call, or ends it as promised. */
  predicate GoesOn(call: Call, next: Pc) {
    if AtRest(next) then Promised(call, RoleOf(next)) else Serves(call, next) || next.Failed?
  }

  lemma FirstStep(pc: Pc, w: Word, choice: Choice)
    requires AtRest(pc)
    ensures GoesOn(Call(choice, RoleOf(pc)), Step(pc, w, choice).pc)
  {
    hide Add, Sub, HasSignal;
  }

  lemma SharedLockStep(pc: Pc, w: Word, choice: Choice, call: Call)
    requires Serves(call, pc) && call.what == LockShared
    ensures GoesOn(call, Step(pc, w, choice).pc)
  {
    hide Add, Sub, HasSignal;
  }

  lemma ExclusiveLockStep(pc: Pc, w: Word, choice: Choice, call: Call)
    requires Serves(call, pc) && (call.what == Lock || call.what == Upgrade)
    ensures GoesOn(call, Step(pc, w, choice).pc)
  {
    hide Add, Sub, HasSignal;
  }

  lemma OtherStep(pc: Pc, w: Word, choice: Choice, call: Call)
    requires Serves(call, pc) && call.what != LockShared && call.what != Lock && call.what != Upgrade
    ensures GoesOn(call, Step(pc, w, choice).pc)
  {
    hide Add, Sub, HasSignal;
  }

  /** A step of a call stays in it or ends it as promised. */
  lemma StepServes(pc: Pc, w: Word, choice: Choice, call: Call)
    requires if AtRest(pc) then call == Call(choice, RoleOf(pc)) else Serves(call, pc)
    ensures GoesOn(call, Step(pc, w, choice).pc)
  {
    hide Step, Serves, Promised, GoesOn;
    if AtRest(pc) {
      FirstStep(pc, w, choice);
    } else if call.what == LockShared {
      SharedLockStep(pc, w, choice, call);
    } else if call.what == Lock || call.what == Upgrade {
      ExclusiveLockStep(pc, w, choice, call);
    } else {
      OtherStep(pc, w, choice, call);
    }
  }

  ghost predicate Right(x: Watch) {
    && Inv(x.state)
    && (forall t | t in x.state.pcs :: AtRest(x.state.pcs[t]) || (t in x.calls && Serves(x.calls[t], x.state.pcs[t])))
    && forall i | 0 <= i < |x.log| :: Promised(x.log[i].call, x.log[i].to)
  }

  lemma RightStep(x: Watch, e: Event)
    requires Right(x) && Enabled(x.state, e)
    ensures Watchable(x, e) && Right(Next(x, e))
  {
    hide Step, Inv, Serves, Promised;
    InvStep(x.state, e);
    if e.Advance? {
      NoFailure(Apply(x.state, e), e.t);
      Unfailed(x.state, e);
      StepServes(x.state.pcs[e.t], x.state.word, e.choice, During(x, e.t, e.choice));
    }
    OthersServe(x, e);
  }

  lemma NoFailure(s: State, t: Tid)
    requires Inv(s) && t in s.pcs
    ensures s.pcs[t] != Failed
  {
  }

  /** The thread that steps is where its step puts it. */
  lemma Unfailed(s: State, e: Event)
    requires Enabled(s, e) && e.Advance?
    ensures e.t in Apply(s, e).pcs && Apply(s, e).pcs[e.t] == Step(s.pcs[e.t], s.word, e.choice).pc
  {
  }

  /** A thread that is woken is still in its call. */
  lemma OthersServe(x: Watch, e: Event)
    requires Right(x) && Enabled(x.state, e)
    ensures var r := Apply(x.state, e);
            forall t | t in r.pcs && (e.Wakeup? || t != e.t) ::
              AtRest(r.pcs[t]) || (t in x.calls && Serves(x.calls[t], r.pcs[t]))
  {
    hide Step, Inv;
  }

  // -- Every run ------------------------------------------------------------------------

  ghost predicate Start(x: Watch) {
    Init(x.state) && x.calls == map[] && x.log == []
  }

  ghost predicate Watched(x: Watch, events: seq<Event>, y: Watch)
    decreases |events|
  {
    if events == [] then x == y
    else Watchable(x, events[0]) && Watched(Next(x, events[0]), events[1..], y)
  }

  lemma {:induction false} RightRun(x: Watch, events: seq<Event>, y: Watch)
    requires Right(x) && Watched(x, events, y)
    ensures Right(y)
    decreases |events|
  {
    hide Right, Next;
    if events != [] {
      RightStep(x, events[0]) by {
        assert Watchable(x, events[0]);
      }
      RightRun(Next(x, events[0]), events[1..], y);
    }
  }

  /** Every run can be watched. */
  lemma {:induction false} WatchRun(x: Watch, events: seq<Event>, r: State) returns (y: Watch)
    requires Right(x) && Run(x.state, events, r)
    ensures Watched(x, events, y) && y.state == r
    decreases |events|
  {
    hide Right, Apply;
    if events == [] {
      y := x;
    } else {
      RightStep(x, events[0]);
      NextState(x, events[0]);
      y := WatchRun(Next(x, events[0]), events[1..], r);
    }
  }

  lemma NextState(x: Watch, e: Event)
    requires Watchable(x, e)
    ensures Next(x, e).state == Apply(x.state, e)
  {
  }

  /** Over every run: lock and lock_upgrade come back only as the writer, lock_shared only as a reader,
      the try calls with what they asked for or with what they had, and the others without. */
  lemma CallsComeBackRight(x: Watch, events: seq<Event>, y: Watch, i: nat)
    requires Start(x) && Watched(x, events, y) && i < |y.log|
    ensures Promised(y.log[i].call, y.log[i].to)
  {
    InvInit(x.state);
    hide Inv, Watched;
    RightRun(x, events, y);
  }

  // -- When a try call succeeds ---------------------------------------------------------

  /** Somebody holds the mutex exclusively or waits for it. */
  ghost predicate Taken(s: State) {
    exists u :: Holds(s, u, Writer) || Holds(s, u, Queued) || Holds(s, u, Sleeper)
  }

  ghost predicate Read(s: State) {
    exists u :: Holds(s, u, Reader)
  }

  /** The word in these terms. */
  lemma WordMeans(s: State)
    requires Inv(s)
    ensures s.word < ONE <==> !Taken(s)
    ensures s.word % ONE == |Holders(s).readers|
    ensures s.word % ONE == 0 <==> !Read(s)
    ensures s.word == 0 <==> !Taken(s) && !Read(s)
    ensures s.word < ERR && (HasSignal(s.word) <==> s.word >= SIG)
  {
    hide SharedMutex.Ok, TallyOf;
    Fields(s.word, TallyOf(s.pcs));
    HoldsCount(s, Reader);
    HoldsCount(s, Writer);
    HoldsCount(s, Queued);
    HoldsCount(s, Sleeper);
    assert TallyOf(s.pcs).readers == Count(Roles(s.pcs), Reader) by {
      TallyMeans(s.pcs);
    }
    TallyMeans(s.pcs);
  }

  lemma TallyMeans(pcs: map<Tid, Pc>)
    ensures var c, r := TallyOf(pcs), Roles(pcs);
            && c.readers == Count(r, Reader) && c.writers == Count(r, Writer)
            && c.queued == Count(r, Queued) && c.sleepers == Count(r, Sleeper)
  {
  }

  /** try_lock, and lock at its first access, take the mutex exactly if nobody holds it or waits. */
  lemma LockAtOnceExactly(s: State, t: Tid, u: Tid)
    requires Reachable(s) && t in s.pcs && s.pcs[t] == Idle
    ensures var r := Apply(s, Advance(t, TryLock, u));
            Holds(r, t, if !Taken(s) && !Read(s) then Writer else Outside) && AtRest(r.pcs[t])
    ensures var r := Apply(s, Advance(t, Lock, u));
            AtRest(r.pcs[t]) <==> !Taken(s) && !Read(s)
  {
    hide Inv, Taken, Read;
    InvReachable(s);
    WordMeans(s);
    InvStep(s, Advance(t, Lock, u));
    NoFailure(Apply(s, Advance(t, Lock, u)), t);
  }

  /** The first two accesses of such a call, with none of another thread in between. */
  ghost function Twice(s: State, t: Tid, choice: Choice, u: Tid): State
    requires t in s.pcs && (s.pcs[t].Idle? || s.pcs[t].Reading?)
    requires choice in {TryLockShared, LockShared, TryUpgrade, Upgrade}
  {
    Apply(Apply(s, Advance(t, choice, u)), Advance(t, SpinOut, u))
  }

  /** try_lock_shared without another access in between, and lock_shared at its first two, enter exactly
      if nobody holds it exclusively or waits, and there is room for a reader. */
  lemma LockSharedAtOnceExactly(s: State, t: Tid, u: Tid)
    requires Reachable(s) && t in s.pcs && s.pcs[t] == Idle
    ensures var free := !Taken(s) && |Holders(s).readers| < ONE - 1;
            && Twice(s, t, TryLockShared, u).pcs == s.pcs[t := if free then Reading else Idle]
            && (free <==> t in Twice(s, t, LockShared, u).pcs && AtRest(Twice(s, t, LockShared, u).pcs[t]))
  {
    hide Inv, Taken, Read, Holders;
    InvReachable(s);
    WordMeans(s);
  }

  /** try_lock_upgrade and lock_upgrade likewise, exactly if their thread is the only reader. */
  lemma UpgradeAtOnceExactly(s: State, t: Tid, u: Tid)
    requires Reachable(s) && t in s.pcs && s.pcs[t] == Reading
    ensures var alone := Holders(s).readers == {t};
            && Twice(s, t, TryUpgrade, u).pcs == s.pcs[t := if alone then Writing else Reading]
            && (alone <==> t in Twice(s, t, Upgrade, u).pcs && AtRest(Twice(s, t, Upgrade, u).pcs[t]))
  {
    hide Inv, Holders, Reachable;
    InvReachable(s);
    WordMeans(s);
    OnlyReader(s, t);
    OneReader(s.word, |Holders(s).readers|);
    hide Add;
  }

  lemma OnlyReader(s: State, t: Tid)
    requires Holds(s, t, Reader)
    ensures |Holders(s).readers| == 1 <==> Holders(s).readers == {t}
  {
    var x := Holders(s).readers;
    assert t in x;
    if |x| == 1 {
      Single(x, t);
    }
  }

  lemma OneReader(w: Word, readers: nat)
    requires w % ONE == readers && w < ERR
    ensures Add(w, ONE - 1) % ONE == 0 <==> readers == 1
  {
  }

  // -- Spinning -------------------------------------------------------------------------

  /** Where n accesses of a thread alone lead, the loop going round again. */
  function Alone(pc: Pc, w: Word, n: nat): Effect
    decreases n
  {
    if n == 0 then Effect(pc, w, false)
    else
      var f := Step(pc, w, SpinAgain);
      Alone(f.pc, f.word, n - 1)
  }

  /** An access that sends no wake is one of these. */
  lemma AloneIsStep(s: State, t: Tid, u: Tid)
    requires t in s.pcs && !s.pcs[t].Notifying?
    ensures var f := Alone(s.pcs[t], s.word, 1);
            Apply(s, Advance(t, SpinAgain, u)) == State(f.word, s.pcs[t := f.pc])
  {
    assert Alone(s.pcs[t], s.word, 1) == Alone(Step(s.pcs[t], s.word, SpinAgain).pc, Step(s.pcs[t], s.word, SpinAgain).word, 0);
  }

  /** A round of the loop of lock, with no access in between, takes the mutex exactly if it is free or a
      signal is out; so do the first two accesses of lock. */
  lemma LockRoundExactly(s: State)
    requires Reachable(s)
    ensures Alone(ExclusiveSpin, s.word, 2).pc ==
            if (!Taken(s) && !Read(s)) || s.word >= SIG then Writing else ExclusiveSpin
    ensures Alone(Step(Idle, s.word, Lock).pc, Step(Idle, s.word, Lock).word, 1).pc ==
            if (!Taken(s) && !Read(s)) || s.word >= SIG then Writing else ExclusiveSpin
  {
    hide Inv, Taken, Read, Reachable, Alone, Step;
    InvReachable(s);
    WordMeans(s);
    LockRound(s.word);
  }

  lemma LockRound(w: Word)
    requires w < ERR
    ensures Alone(ExclusiveSpin, w, 2).pc == if w == 0 || HasSignal(w) then Writing else ExclusiveSpin
    ensures Alone(Step(Idle, w, Lock).pc, Step(Idle, w, Lock).word, 1).pc ==
            if w == 0 || HasSignal(w) then Writing else ExclusiveSpin
  {
    TwoAlone(ExclusiveSpin, w);
    OneAlone(ExclusiveSpinCas(w), w);
    OneAlone(Step(Idle, w, Lock).pc, Step(Idle, w, Lock).word);
    hide Alone, HasSignal, Sub, Add;
  }

  lemma OneAlone(pc: Pc, w: Word)
    ensures Alone(pc, w, 1).pc == Step(pc, w, SpinAgain).pc && Alone(pc, w, 1).word == Step(pc, w, SpinAgain).word
  {
    hide Step;
  }

  lemma TwoAlone(pc: Pc, w: Word)
    ensures Alone(pc, w, 2) == Alone(Step(pc, w, SpinAgain).pc, Step(pc, w, SpinAgain).word, 1)
  {
    hide Step;
  }

  /** A round of the loop of lock_shared likewise, exactly if a reader may enter or a signal is out. */
  lemma LockSharedRoundExactly(s: State)
    requires Reachable(s)
    ensures Alone(SharedSpin, s.word, 4).pc ==
            if (!Taken(s) && |Holders(s).readers| < ONE - 1) || s.word >= SIG then Reading else SharedSpin
    ensures Alone(SharedSteal(s.word), s.word, 1).pc == if s.word >= SIG then Reading else SharedSpin
  {
    hide Inv, Taken, Read, Holders, Reachable, Alone, Step;
    InvReachable(s);
    WordMeans(s);
    SharedRound(s.word);
  }

  lemma SharedRound(w: Word)
    ensures Alone(SharedSpin, w, 4).pc == if w < ONE - 1 || HasSignal(w) then Reading else SharedSpin
    ensures Alone(SharedSteal(w), w, 1).pc == if HasSignal(w) then Reading else SharedSpin
  {
    hide Alone, HasSignal, Sub;
    OneAlone(SharedSteal(w), w);
    FourAlone(SharedSpin, w);
    TwoAlone(SharedSpinLoad, w);
    OneAlone(SharedSpinSteal(w), w);
    TwoAlone(Reading, Add(w, 1));
    OneAlone(Reading, Add(w, 1));
  }

  lemma FourAlone(pc: Pc, w: Word)
    ensures var f := Step(pc, w, SpinAgain);
            var g := Step(f.pc, f.word, SpinAgain);
            Alone(pc, w, 4) == Alone(g.pc, g.word, 2)
  {
    hide Step;
    var f := Step(pc, w, SpinAgain);
    assert Alone(pc, w, 4) == Alone(f.pc, f.word, 3);
  }

  /** A round of the loop of lock_upgrade, exactly if there is one reader. */
  lemma UpgradeRoundExactly(s: State)
    requires Reachable(s)
    ensures Alone(UpgradeSpin, s.word, 2).pc == if |Holders(s).readers| == 1 then Writing else UpgradeSpin
  {
    hide Inv, Holders, Reachable, Alone, Step;
    InvReachable(s);
    WordMeans(s);
    UpgradeRound(s.word, |Holders(s).readers|);
  }

  lemma UpgradeRound(w: Word, readers: nat)
    requires w % ONE == readers && w < ERR
    ensures Alone(UpgradeSpin, w, 2).pc == if readers == 1 then Writing else UpgradeSpin
  {
    OneReader(w, readers);
    TwoAlone(UpgradeSpin, w);
    OneAlone(UpgradeCas(w), w);
    hide Alone, Add;
  }

  predicate Queueing(pc: Pc) {
    pc.SharedEnqueue? || pc.ExclusiveEnqueue? || pc.UpgradeEnqueue? || pc.PassEnqueue?
  }

  /** A call goes to the queue only once its loop is over. */
  lemma SpinsBeforeQueueing(pc: Pc, w: Word, choice: Choice)
    ensures Queueing(Step(pc, w, choice).pc) ==>
              choice == SpinOut && (pc.SharedSpin? || pc.ExclusiveSpin? || pc.UpgradeSpin? || pc.PassSpin?)
  {
    hide Add, Sub, HasSignal;
  }

  /** When the underflow checks fire, on any word. */
  lemma UnderflowExactly(w: Word)
    ensures UnlockStep(w).pc == Failed <==> w < ONE || w >= ERR + ONE
    ensures UnlockSharedStep(w).pc == Failed <==> w > ERR
    ensures Step(Idle, w, Lock).pc == Failed <==> w >= ERR
    ensures Step(SharedCas(w), w, LockShared).pc == Failed <==> w >= ERR
  {
  }

  // -- How a call goes on ---------------------------------------------------------------

  /** How many threads hold the mutex exclusively or wait for it. */
  ghost function Crowd(s: State): nat {
    TallyOf(s.pcs).writers + TallyOf(s.pcs).Waiting()
  }

  /** lock_unlock comes back at its first access exactly if the mutex is free, and from its loop exactly
      if nobody reads and a signal is out or the crowd is smaller than it was at the last look. */
  lemma LockUnlockFinds(s: State, t: Tid, choice: Choice, u: Tid)
    requires Reachable(s) && t in s.pcs
    requires (s.pcs[t] == Idle && choice == LockUnlock) || s.pcs[t].PassSpin?
    ensures var next := Apply(s, Advance(t, choice, u)).pcs[t];
            if s.pcs[t].Idle? then
              next == if !Taken(s) && !Read(s) then Idle else PassSpin(1)
            else if !Read(s) && (s.word >= SIG || Crowd(s) < s.pcs[t].limit) then next == Idle
            else next == if choice == SpinOut then PassEnqueue else PassSpin(Crowd(s))
  {
    hide Inv, Taken, Read, Holders, Crowd;
    InvReachable(s);
    WordMeans(s);
    CrowdMeans(s);
  }

  lemma CrowdMeans(s: State)
    requires Inv(s)
    ensures s.word < SIG ==> s.word / ONE == Crowd(s)
    ensures s.word >= SIG ==> s.word % ONE == 0
  {
    hide TallyOf;
    Fields(s.word, TallyOf(s.pcs));
  }

  /** In imp_wait. */
  predicate Queues(pc: Pc) {
    pc.Claiming? || pc.Parking? || pc.Asleep?
  }

  /** How many steps a call has left at most, its spin loops being over, up to its end or imp_wait. */
  function Left(pc: Pc): nat {
    match pc
    case SharedSpinCas(_) => 6
    case SharedCas(_) | SharedSpinLoad | PassSpin(_) => 5
    case SharedSteal(_) | SharedSpinSteal(_) | ExclusiveSteal(_) | ExclusiveSpinCas(_) | UpgradeCas(_) | PassEnqueue => 4
    case SharedSpin | ExclusiveSpin | UpgradeSpin | Passing => 3
    case SharedEnqueue | ExclusiveEnqueue | UpgradeEnqueue | Signaling => 2
    case Downgrading | TrySharedCas(_) | TryUpgradeCas(_) | Notifying => 1
    case _ => 0
  }

  /** A call whose spin loops are over is never more than six of its own steps from its end or from
      imp_wait, whatever the other threads do. */
  lemma OwnStepsEnd(s: State, t: Tid, u: Tid)
    requires Reachable(s) && Enabled(s, Advance(t, SpinOut, u)) && !AtRest(s.pcs[t]) && !Queues(s.pcs[t])
    ensures var next := Apply(s, Advance(t, SpinOut, u)).pcs[t];
            Left(next) < Left(s.pcs[t]) <= 6 && (Left(next) == 0 ==> AtRest(next) || Queues(next))
  {
    hide Inv, Add, Sub, HasSignal;
    InvReachable(s);
    var e := Advance(t, SpinOut, u);
    InvStep(s, e);
    NoFailure(s, t);
    NoFailure(Apply(s, e), t);
    Unfailed(s, e);
  }
}
