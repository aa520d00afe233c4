/** The condition variable as its callers see it: what each call has done and whom it has woken by the time
    it comes back. */
module CondVariableCalls {
  import opened Threads
  import opened Word32
  import opened CondVariable
  import opened CondVariableDelivery

  /** A call and what its steps have done and found so far. waited: it was registered, with this word; slept;
      moved: it found another word after that. sent: it added a signal; last: the last there was room for.
      nobody, full: it found nobody registered, or no room for a signal or a waiter. */
  datatype Call = Call(what: Choice, waited: bool, word: Word, slept: bool, moved: bool,
                       sent: bool, last: bool, nobody: bool, full: bool)

  /** asleep: who slept before the last step; woken: who of them did not after it. */
  datatype Return = Return(t: Tid, call: Call, asleep: set<Tid>, woken: set<Tid>)

  datatype Watch = Watch(state: State, calls: map<Tid, Call>, log: seq<Return>)

  function Asleeps(s: State): set<Tid> {
    set t | t in s.pcs && s.pcs[t] == Asleep
  }

  function Fresh(choice: Choice): Call {
    Call(choice, false, 0, false, false, false, false, false, false)
  }

  function During(x: Watch, t: Tid, choice: Choice): Call
    requires t in x.state.pcs && (x.state.pcs[t].Idle? || t in x.calls)
  {
    if x.state.pcs[t].Idle? then Fresh(choice) else x.calls[t]
  }

  /** No room for a waiter, or for a signal. */
  predicate Full(w: Word, choice: Choice) {
    Signals(w) == MAX_SIGNALS || (choice.Wait? && Waiters(w) == MAX_WAITERS)
  }

  /** The call after a step of its thread from s to r. */
  function After(call: Call, s: State, r: State, t: Tid): Call
    requires t in s.pcs && t in r.pcs
  {
    var joins, sends := s.pcs[t].Idle? && InWait(r.pcs[t]), r.wakes > s.wakes;
    Call(call.what,
         call.waited || joins, if joins then r.word else call.word,
         call.slept || r.pcs[t] == Asleep, call.moved || (call.waited && s.word != call.word),
         call.sent || sends, call.last || (sends && Signals(r.word) == MAX_SIGNALS),
         call.nobody || s.word == 0, call.full || Full(s.word, call.what))
  }

  ghost predicate Watchable(x: Watch, e: Event) {
    Enabled(x.state, e) && (e.Advance? ==> x.state.pcs[e.t].Idle? || e.t in x.calls)
  }

  ghost function Next(x: Watch, e: Event): Watch
    requires Watchable(x, e)
  {
    var s, r := x.state, Apply(x.state, e);
    if e.Wakeup? then x.(state := r)
    else
      StepPlace(s, e);
      var call := After(During(x, e.t, e.choice), s, r, e.t);
      if r.pcs[e.t].Idle? then
        Watch(r, x.calls - {e.t}, x.log + [Return(e.t, call, Asleeps(s), Asleeps(s) - Asleeps(r))])
      else Watch(r, x.calls[e.t := call], x.log)
  }

  /** The thread that steps is where its step puts it. */
  lemma StepPlace(s: State, e: Event)
    requires Enabled(s, e) && e.Advance?
    ensures e.t in Apply(s, e).pcs && Apply(s, e).pcs[e.t] == Step(s.pcs[e.t], s.word, e.choice, s.wakes).pc
  {
  }

  // -- What is promised -----------------------------------------------------------------

  /** wait() comes back without having been registered only if there was no room; and once registered, only
      after it slept or found that the word had changed. A notify comes back without a signal only if nobody
      was registered or there was no room; with one, notify_all has woken all who slept, and notify_one one
      of them, if there was one, or all if its signal was the last there was room for. */
  predicate Promised(r: Return) {
    match r.call.what
    case Wait => if r.call.waited then r.call.slept || r.call.moved else r.call.full
    case NotifyOne =>
      if !r.call.sent then r.call.nobody || r.call.full
      else if r.call.last then r.woken == r.asleep
      else WakesOne(r.asleep, r.woken)
    case NotifyAll =>
      if r.call.sent then r.woken == r.asleep else r.call.nobody || r.call.full
  }

  predicate WakesOne(asleep: set<Tid>, woken: set<Tid>) {
    woken <= asleep && if asleep == {} then woken == {} else |woken| == 1
  }

  /** Where a call can be. */
  predicate Serves(call: Call, pc: Pc) {
    match pc
    case Idle => false
    case Parking(seen) => call.what.Wait? && call.waited && seen == call.word
    case Asleep => call.what.Wait? && call.waited && call.slept
    case Leaving => call.what.Wait? && call.waited && (call.slept || call.moved)
    case Waking(all) => !call.what.Wait? && !call.sent && !call.last && (all <==> call.what.NotifyAll?)
    case NotifyingOne(_) => call.what.NotifyOne? && call.sent && !call.last
    case NotifyingAll(_) => call.sent && (call.what.NotifyAll? || (call.what.NotifyOne? && call.last))
  }

  ghost predicate GoesOn(s: State, r: State, t: Tid, call: Call)
    requires t in r.pcs
  {
    if r.pcs[t].Idle? then Promised(Return(t, call, Asleeps(s), Asleeps(s) - Asleeps(r))) else Serves(call, r.pcs[t])
  }

  lemma FirstStep(s: State, e: Event)
    requires Enabled(s, e) && e.Advance? && s.pcs[e.t].Idle?
    ensures var r := Apply(s, e); e.t in r.pcs && GoesOn(s, r, e.t, After(Fresh(e.choice), s, r, e.t))
  {
    hide Asleeps, Add;
  }

  lemma WaitStep(s: State, e: Event, call: Call)
    requires Enabled(s, e) && e.Advance? && InWait(s.pcs[e.t]) && Serves(call, s.pcs[e.t])
    ensures var r := Apply(s, e); e.t in r.pcs && GoesOn(s, r, e.t, After(call, s, r, e.t))
  {
    hide Asleeps, Sub, Waiters, Signals;
  }

  lemma SignalStep(s: State, e: Event, call: Call)
    requires Enabled(s, e) && e.Advance? && s.pcs[e.t].Waking? && Serves(call, s.pcs[e.t])
    ensures var r := Apply(s, e); e.t in r.pcs && GoesOn(s, r, e.t, After(call, s, r, e.t))
  {
    hide Asleeps, Add;
  }

  lemma WakeStep(s: State, e: Event, call: Call)
    requires Enabled(s, e) && e.Advance? && (s.pcs[e.t].NotifyingOne? || s.pcs[e.t].NotifyingAll?)
    requires Serves(call, s.pcs[e.t])
    ensures var r := Apply(s, e); e.t in r.pcs && GoesOn(s, r, e.t, After(call, s, r, e.t))
  {
    var r := Apply(s, e);
    var asleep, still := Asleeps(s), Asleeps(r);
    if s.pcs[e.t].NotifyingAll? {
      assert still == {};
    } else if Sleeps(s.pcs, e.woken) {
      assert still == asleep - {e.woken};
      assert asleep - still == {e.woken};
    } else {
      if u :| u in asleep {
        assert Sleeps(s.pcs, u);
      }
      assert asleep == {} && still == {};
    }
  }

  lemma OwnStep(s: State, e: Event, call: Call)
    requires Enabled(s, e) && e.Advance?
    requires if s.pcs[e.t].Idle? then call == Fresh(e.choice) else Serves(call, s.pcs[e.t])
    ensures var r := Apply(s, e); e.t in r.pcs && GoesOn(s, r, e.t, After(call, s, r, e.t))
  {
    hide Apply, Serves, Promised, GoesOn;
    match s.pcs[e.t]
    case Idle => FirstStep(s, e);
    case Parking(_) | Asleep | Leaving => WaitStep(s, e, call);
    case Waking(_) => SignalStep(s, e, call);
    case NotifyingOne(_) | NotifyingAll(_) => WakeStep(s, e, call);
  }

  // -- Every run ------------------------------------------------------------------------

  ghost predicate Right(x: Watch) {
    && (forall t | t in x.state.pcs && !x.state.pcs[t].Idle? :: t in x.calls && Serves(x.calls[t], x.state.pcs[t]))
    && (forall i | 0 <= i < |x.log| :: Promised(x.log[i]))
  }

  lemma OthersServe(x: Watch, e: Event)
    requires Right(x) && Enabled(x.state, e)
    ensures var r := Apply(x.state, e);
            forall t | t in r.pcs && (e.Wakeup? || t != e.t) && !r.pcs[t].Idle? ::
              t in x.calls && Serves(x.calls[t], r.pcs[t])
  {
    hide Promised, Add, Sub, Signals, Waiters;
  }

  lemma RightStep(x: Watch, e: Event)
    requires Right(x) && Enabled(x.state, e)
    ensures Watchable(x, e) && Right(Next(x, e))
  {
    hide Apply, Serves, Promised, After, Asleeps;
    if e.Advance? {
      OwnStep(x.state, e, During(x, e.t, e.choice));
    }
    OthersServe(x, e);
  }

  ghost predicate Start(x: Watch) {
    Init(x.state) && x.calls == map[] && x.log == []
  }

  ghost predicate Watched(x: Watch, events: seq<Event>, y: Watch)
    decreases |events|
  {
    if events == [] then x == y
    else Watchable(x, events[0]) && Watched(Next(x, events[0]), events[1..], y)
  }

  lemma {:induction false} RightRun(x: Watch, events: seq<Event>, y: Watch)
    requires Right(x) && Watched(x, events, y)
    ensures Right(y)
    decreases |events|
  {
    hide Right, Next;
    if events != [] {
      RightStep(x, events[0]);
      RightRun(Next(x, events[0]), events[1..], y);
    }
  }

  /** Every run can be watched. */
  lemma {:induction false} WatchRun(x: Watch, events: seq<Event>, r: State) returns (y: Watch)
    requires Right(x) && Run(x.state, events, r)
    ensures Watched(x, events, y) && y.state == r
    decreases |events|
  {
    hide Right, Apply, After, Asleeps;
    if events == [] {
      y := x;
    } else {
      RightStep(x, events[0]);
      y := WatchRun(Next(x, events[0]), events[1..], r);
    }
  }

  /** Over every run, every call comes back as promised. */
  lemma CallsComeBackRight(x: Watch, events: seq<Event>, y: Watch, i: nat)
    requires Start(x) && Watched(x, events, y) && i < |y.log|
    ensures Promised(y.log[i])
  {
    hide Watched;
    RightRun(x, events, y);
  }
}
