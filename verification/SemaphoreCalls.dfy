/** The semaphore as its callers see it: how many calls have come back, and with what answer. */
module SemaphoreCalls {
  import opened Arithmetic
  import opened Threads
  import opened Word32
  import opened Semaphore

  /** The calls that count: a post once it has made its access, a wait once it has come back, a try call
      if its answer is true. */
  datatype Counts = Counts(posts: nat, tryPosts: nat, waits: nat, tryWaits: nat)

  /** calls: the call each thread is in; an idle thread is in none. */
  datatype Watch = Watch(state: State, calls: map<Tid, Choice>, counts: Counts)

  /** The call that thread t is in during its next step. */
  function During(x: Watch, t: Tid, choice: Choice): Choice
    requires t in x.state.pcs && (x.state.pcs[t].Idle? || t in x.calls)
  {
    if x.state.pcs[t].Idle? then choice else x.calls[t]
  }

  /** What try_wait and try_post return: whether their fetch_op changed the word. */
  function Answer(pc: Pc, w: Word, choice: Choice): bool {
    Step(pc, w, choice).did != Nothing
  }

  ghost predicate Watchable(x: Watch, e: Event) {
    Enabled(x.state, e) && (e.Advance? ==> x.state.pcs[e.t].Idle? || e.t in x.calls)
  }

  function One(b: bool): nat { if b then 1 else 0 }

  ghost function Next(x: Watch, e: Event): Watch
    requires Watchable(x, e)
  {
    var r := Apply(x.state, e);
    if e.Wakeup? then x.(state := r)
    else
      var pc, c := x.state.pcs[e.t], x.counts;
      var call, back := During(x, e.t, e.choice), r.pcs[e.t].Idle?;
      var yes := pc.Idle? && Answer(pc, x.state.word, e.choice);
      Watch(r, if back then x.calls - {e.t} else x.calls[e.t := call],
            Counts(c.posts + One(pc.Idle? && call.Post?), c.tryPosts + One(yes && call.TryPost?),
                   c.waits + One(back && call.Wait?), c.tryWaits + One(yes && call.TryWait?)))
  }

  // -- Where a call can be --------------------------------------------------------------

  predicate Serves(call: Choice, pc: Pc) {
    match call
    case Wait => pc.WaitCas? || pc.Spin? || pc.SpinCas? || pc.Hard? || pc.Parking? || pc.Asleep?
    case Post(_) => pc.Notifying?
    case TryPost(_) => pc.Notifying?
    case _ => false
  }

  /** What a step of a call does: it posts with the first access of a post or of a try_post that answers
      true, and takes with the last of a wait or with that of a try_wait that answers true. */
  lemma StepServes(pc: Pc, w: Word, choice: Choice, call: Choice)
    requires if pc.Idle? then call == choice else Serves(call, pc)
    ensures var f := Step(pc, w, choice);
            var yes := pc.Idle? && Answer(pc, w, choice);
            && (f.pc.Idle? || f.pc.Failed? || Serves(call, f.pc))
            && (f.did == Posted <==> (pc.Idle? && call.Post?) || (yes && call.TryPost?))
            && (f.did == Took <==> (f.pc.Idle? && call.Wait?) || (yes && call.TryWait?))
  {
  }

  ghost predicate Right(x: Watch) {
    && (forall t | t in x.state.pcs ::
          x.state.pcs[t].Idle? || x.state.pcs[t].Failed? || (t in x.calls && Serves(x.calls[t], x.state.pcs[t])))
    && x.state.posts == x.counts.posts + x.counts.tryPosts
    && x.state.takes == x.counts.waits + x.counts.tryWaits
  }

  lemma RightStep(x: Watch, e: Event)
    requires Right(x) && Enabled(x.state, e) && (e.Advance? ==> !x.state.pcs[e.t].Failed?)
    ensures Watchable(x, e) && Right(Next(x, e))
  {
    hide Step, Serves;
    if e.Advance? {
      StepServes(x.state.pcs[e.t], x.state.word, e.choice, During(x, e.t, e.choice));
      StepPlace(x.state, e);
    }
    OthersServe(x, e);
  }

  /** The thread that steps is where its step puts it. */
  lemma StepPlace(s: State, e: Event)
    requires Enabled(s, e) && e.Advance?
    ensures e.t in Apply(s, e).pcs && Apply(s, e).pcs[e.t] == Step(s.pcs[e.t], s.word, e.choice).pc
  {
  }

  lemma OthersServe(x: Watch, e: Event)
    requires Right(x) && Enabled(x.state, e)
    ensures var r := Apply(x.state, e);
            forall t | t in r.pcs && (e.Wakeup? || t != e.t) ::
              r.pcs[t].Idle? || r.pcs[t].Failed? || (t in x.calls && Serves(x.calls[t], r.pcs[t]))
  {
    hide Step;
  }

  // -- Every run ------------------------------------------------------------------------

  ghost predicate Start(x: Watch) {
    Init(x.state) && x.calls == map[] && x.counts == Counts(0, 0, 0, 0)
  }

  ghost predicate Watched(x: Watch, events: seq<Event>, y: Watch)
    decreases |events|
  {
    if events == [] then x == y
    else Watchable(x, events[0]) && Watched(Next(x, events[0]), events[1..], y)
  }

  lemma {:induction false} RightRun(x: Watch, events: seq<Event>, y: Watch)
    requires Right(x) && Watched(x, events, y) && NoneFailed(y.state)
    ensures Right(y) && Run(x.state, events, y.state)
    decreases |events|
  {
    hide Right, Apply, Answer;
    if events != [] {
      var e := events[0];
      RunOf(Next(x, e), events[1..], y);
      if e.Advance? && x.state.pcs[e.t].Failed? {
        FailedStays(x.state, events, y.state, e.t) by {
          assert Next(x, e).state == Apply(x.state, e);
        }
      } else {
        RightStep(x, e);
        RightRun(Next(x, e), events[1..], y);
      }
    }
  }

  lemma {:induction false} RunOf(x: Watch, events: seq<Event>, y: Watch)
    requires Watched(x, events, y)
    ensures Run(x.state, events, y.state)
    decreases |events|
  {
    hide Apply, Answer;
    if events != [] {
      assert Next(x, events[0]).state == Apply(x.state, events[0]);
      RunOf(Next(x, events[0]), events[1..], y);
    }
  }

  /** Conservation over calls, as long as no ensure() has failed: what was there at the start and was
      posted is there, or was taken by a wait that has come back or a try_wait that said so. */
  lemma CallsConserve(x: Watch, events: seq<Event>, y: Watch)
    requires Start(x) && Watched(x, events, y) && NoneFailed(y.state)
    ensures Value(y.state.word) + y.counts.waits + y.counts.tryWaits == y.state.initial + y.counts.posts + y.counts.tryPosts
  {
    hide Watched, Run, Value;
    RightRun(x, events, y);
    Conservation(y.state);
  }

  /** Every run without a failed ensure() can be watched. */
  lemma {:induction false} WatchRun(x: Watch, events: seq<Event>, r: State) returns (y: Watch)
    requires Right(x) && Run(x.state, events, r) && NoneFailed(r)
    ensures Watched(x, events, y) && y.state == r
    decreases |events|
  {
    hide Right, Apply, Answer;
    if events == [] {
      y := x;
    } else {
      var e := events[0];
      if e.Advance? && x.state.pcs[e.t].Failed? {
        FailedStays(x.state, events, r, e.t);
        y := x;
      } else {
        RightStep(x, e);
        assert Next(x, e).state == Apply(x.state, e);
        y := WatchRun(Next(x, e), events[1..], r);
      }
    }
  }

  // -- Answers --------------------------------------------------------------------------

  /** try_wait answers true exactly on a value other than 0, and try_post exactly on one up to Max; then,
      and only then, the value changes. */
  lemma AnswersExactly(s: State, t: Tid, u: Tid, max: Bound)
    requires Reachable(s) && NoneFailed(s) && t in s.pcs && s.pcs[t] == Idle
    ensures Answer(Idle, s.word, TryWait) <==> Value(s.word) != 0
    ensures Answer(Idle, s.word, TryPost(max)) <==> Value(s.word) <= max
    ensures var r := Apply(s, Advance(t, TryWait, u));
            Value(r.word) == (if Value(s.word) != 0 then Value(s.word) - 1 else 0) && r.pcs == s.pcs
    ensures var r := Apply(s, Advance(t, TryPost(max), u));
            Value(r.word) == if Value(s.word) <= max then Value(s.word) + 1 else Value(s.word)
  {
    hide Inv, TallyOf;
    InvReachable(s);
    WordAt(s);
    assert s.pcs[t := Idle] == s.pcs;
  }

  lemma WordAt(s: State)
    requires Inv(s)
    ensures s.word == Value(s.word) + UNIT * TallyOf(s.pcs).Registered()
    ensures Waiters(s.word) == TallyOf(s.pcs).Registered()
  {
    Fields(s.word, TallyOf(s.pcs), Balance(s));
  }

  /** A post and a try_post that succeeds go on to wake somebody exactly if more threads are registered than
      there were units. */
  lemma PostWakesExactly(s: State, t: Tid, choice: Choice, u: Tid)
    requires Reachable(s) && NoneFailed(s) && t in s.pcs && s.pcs[t] == Idle && Value(s.word) < MASK
    requires choice.Post? || (choice.TryPost? && Value(s.word) <= choice.max)
    ensures HasRole(Apply(s, Advance(t, choice, u)).pcs, t, Notifier) <==> TallyOf(s.pcs).Registered() > Value(s.word)
  {
    hide Inv, TallyOf;
    InvReachable(s);
    WordAt(s);
  }

  /** wait() with a unit there and no other access in between takes it at once. */
  lemma WaitAtOnce(s: State, t: Tid, u: Tid)
    requires Reachable(s) && NoneFailed(s) && t in s.pcs && s.pcs[t] == Idle && Value(s.word) > 0
    ensures var m := Apply(s, Advance(t, Wait, u));
            var r := Apply(m, Advance(t, SpinOut, u));
            r.pcs == s.pcs && Value(r.word) == Value(s.word) - 1
  {
    hide Inv, TallyOf;
    InvReachable(s);
    WordAt(s);
    assert s.pcs[t := WaitCas(s.word)][t := Idle] == s.pcs;
  }

  /** How many steps a call has left at most, its spin loop being over, up to its end or until its thread is
      registered. */
  function Left(pc: Pc): nat {
    match pc
    case WaitCas(_) | SpinCas(_) => 3
    case Spin => 2
    case Hard(waits) => if waits then 0 else 1
    case Notifying => 1
    case _ => 0
  }

  lemma OwnStepsEnd(s: State, t: Tid, u: Tid)
    requires Reachable(s) && NoneFailed(s) && Enabled(s, Advance(t, SpinOut, u))
    requires !s.pcs[t].Idle? && !HasRole(s.pcs, t, Awake) && !HasRole(s.pcs, t, Sleeper)
    ensures var r := Apply(s, Advance(t, SpinOut, u));
            && Left(r.pcs[t]) < Left(s.pcs[t]) <= 3
            && (Left(r.pcs[t]) == 0 ==> r.pcs[t].Idle? || HasRole(r.pcs, t, Awake))
  {
    hide Inv;
    var e := Advance(t, SpinOut, u);
    StepPlace(s, e);
    FailsExactly(s, e);
  }

  /** A round of the spin loop, with no access in between, takes a unit exactly if there is one; and a call
      registers only once its loop is over. */
  lemma SpinRoundExactly(s: State, choice: Choice)
    requires Reachable(s) && NoneFailed(s)
    ensures var f := Step(Spin, s.word, SpinAgain);
            Step(f.pc, f.word, choice).pc == if Value(s.word) != 0 then Idle else Spin
    ensures forall pc, w: Word :: Step(pc, w, choice).pc == Hard(false) ==> pc == Spin && choice == SpinOut
  {
  }
}
