/** The shared mutex hands itself over: once nobody holds it while threads wait, the threads that are
    in the middle of the unlock or of the wait need only go on. No call is begun, no thread wakes
    without being woken, and the order in which they go on does not matter. */
module SharedMutexProgress {
  import opened Threads
  import opened Word32
  import opened SharedMutex

  ghost predicate Waits(s: State, t: Tid) {
    Holds(s, t, Queued) || Holds(s, t, Sleeper)
  }

  /** Nobody holds the mutex, and threads wait for it. */
  ghost predicate Free(s: State) {
    && (exists t :: Waits(s, t))
    && forall t :: !Holds(s, t, Reader) && !Holds(s, t, Writer)
  }

  /** t is in the middle of imp_signal or imp_wait, and awake. */
  ghost predicate Busy(s: State, t: Tid) {
    Holds(s, t, Signaler) || Holds(s, t, Notifier) || Holds(s, t, Queued)
  }

  /** A step of the code of such a thread. */
  ghost predicate OwnStep(s: State, e: Event) {
    e.Advance? && Busy(s, e.t) && Enabled(s, e)
  }

  /** A run of such steps while the mutex is free. */
  ghost predicate Drive(s: State, events: seq<Event>, r: State)
    decreases |events|
  {
    if events == [] then s == r
    else Free(s) && OwnStep(s, events[0]) && Drive(Apply(s, events[0]), events[1..], r)
  }

  // -- The rank -------------------------------------------------------------------------

  /** What a thread at pc may still do before it rests, n threads running: a wake is worth more than
      the look at the word it causes, and the signal more than all the looks it causes. */
  function Weight(pc: Pc, w: Word, n: nat): nat {
    match pc
    case Signaling => 2 * n + 5
    case Notifying => 4
    case Parking(_, seen) => if w == seen then 1 else 3
    case Claiming(_) => 2
    case _ => 0
  }

  function Weights(pcs: map<Tid, Pc>, w: Word): map<Tid, nat> {
    map t | t in pcs :: Weight(pcs[t], w, |pcs|)
  }

  ghost function Rank(s: State): nat {
    Sum(Weights(s.pcs, s.word))
  }

  lemma SameSize(pcs: map<Tid, Pc>, t: Tid, pc: Pc)
    requires t in pcs
    ensures |pcs[t := pc]| == |pcs|
  {
    assert pcs[t := pc].Keys == pcs.Keys;
  }

  lemma WeightsMove(pcs: map<Tid, Pc>, w: Word, t: Tid, pc: Pc)
    requires t in pcs
    ensures Sum(Weights(pcs[t := pc], w))
         == Sum(Weights(pcs, w)) - Weight(pcs[t], w, |pcs|) + Weight(pc, w, |pcs|)
  {
    SameSize(pcs, t, pc);
    var a := Weights(pcs, w);
    assert Weights(pcs[t := pc], w) == a[t := Weight(pc, w, |pcs|)];
    SumMove(a, t, Weight(pc, w, |pcs|));
  }

  lemma WeightsAtWord(pcs: map<Tid, Pc>, w: Word, v: Word)
    ensures Sum(Weights(pcs, v)) <= Sum(Weights(pcs, w)) + 2 * |pcs|
  {
    var a, b := Weights(pcs, w), Weights(pcs, v);
    assert a.Keys == pcs.Keys == b.Keys;
    SumGrows(a, b, 2);
  }

  // -- Every step counts ----------------------------------------------------------------

  /** What holds after a step of thread t: it is the writer and was waiting, or the mutex is still
      free and less is left to do. Nobody new waits. */
  ghost predicate Advances(s: State, r: State, t: Tid) {
    && (forall u :: Waits(r, u) ==> Waits(s, u))
    && Rank(s) > 0
    && if Free(r) then Rank(r) < Rank(s) else Waits(s, t) && Holds(r, t, Writer)
  }

  lemma RestFree(s: State, r: State, t: Tid)
    requires Free(s) && t in s.pcs && t in r.pcs && r.pcs == s.pcs[t := r.pcs[t]]
    requires !Holds(r, t, Reader) && !Holds(r, t, Writer) && (Waits(r, t) <==> Waits(s, t))
    ensures Free(r) && forall u :: Waits(r, u) <==> Waits(s, u)
  {
    var w :| Waits(s, w);
    forall u
      ensures Waits(r, u) <==> Waits(s, u)
      ensures !Holds(r, u, Reader) && !Holds(r, u, Writer)
    {
      assert !Holds(s, u, Reader) && !Holds(s, u, Writer);
    }
    assert Waits(r, w);
  }

  lemma SignalAdvances(s: State, t: Tid, choice: Choice, woken: Tid)
    requires Inv(s) && Free(s) && Holds(s, t, Signaler)
    ensures Enabled(s, Advance(t, choice, woken))
    ensures Advances(s, Apply(s, Advance(t, choice, woken)), t)
  {
    hide Sum, Inv;
    var r := Apply(s, Advance(t, choice, woken));
    RestFree(s, r, t);
    WeightsMove(s.pcs, s.word, t, Notifying);
    SameSize(s.pcs, t, Notifying);
    WeightsAtWord(r.pcs, s.word, r.word);
  }

  lemma NotifyAdvances(s: State, e: Event)
    requires Free(s) && e.Advance? && Holds(s, e.t, Notifier) && Enabled(s, e)
    ensures Advances(s, Apply(s, e), e.t)
  {
    hide Sum, Enabled;
    var mid := State(s.word, s.pcs[e.t := Idle]);
    WeightsMove(s.pcs, s.word, e.t, Idle);
    RestFree(s, mid, e.t);
    if Sleeps(mid.pcs, e.woken) {
      var r := State(s.word, mid.pcs[e.woken := Claiming(mid.pcs[e.woken].goal)]);
      assert Apply(s, e) == r;
      WeightsMove(mid.pcs, s.word, e.woken, Claiming(mid.pcs[e.woken].goal));
      RestFree(mid, r, e.woken);
    } else {
      assert Apply(s, e) == mid;
    }
  }

  lemma WaitAdvances(s: State, t: Tid, choice: Choice, woken: Tid)
    requires Inv(s) && Free(s) && Holds(s, t, Queued)
    ensures Enabled(s, Advance(t, choice, woken))
    ensures Advances(s, Apply(s, Advance(t, choice, woken)), t)
  {
    hide Sum, Ok, TallyOf, Weights;
    var r := Apply(s, Advance(t, choice, woken));
    var pc := r.pcs[t];
    WeightsMove(s.pcs, s.word, t, pc);
    assert r.pcs == s.pcs[t := pc];
    if s.pcs[t].Claiming? && s.word >= SIG {
      Taken(s, r, t);
    } else {
      RestFree(s, r, t);
    }
  }

  lemma Taken(s: State, r: State, t: Tid)
    requires Holds(s, t, Queued) && Holds(r, t, Writer) && r.pcs == s.pcs[t := r.pcs[t]] && Rank(s) > 0
    ensures Advances(s, r, t)
  {
    hide Rank;
    forall u
      ensures Waits(r, u) ==> Waits(s, u)
    {
    }
    assert !Free(r);
  }

  /** Whichever of these threads goes on, less is left to do, or it has the mutex. */
  lemma OwnStepAdvances(s: State, e: Event)
    requires Inv(s) && Free(s) && OwnStep(s, e)
    ensures Advances(s, Apply(s, e), e.t)
  {
    hide Inv, Free, Enabled, Advances, Apply;
    if Holds(s, e.t, Signaler) {
      SignalAdvances(s, e.t, e.choice, e.woken);
    } else if Holds(s, e.t, Notifier) {
      NotifyAdvances(s, e);
    } else {
      WaitAdvances(s, e.t, e.choice, e.woken);
    }
  }

  lemma SomeoneBusy(s: State) returns (t: Tid)
    requires Inv(s) && Free(s)
    ensures Busy(s, t)
  {
    HoldsCount(s, Queued);
    HoldsCount(s, Sleeper);
    HoldsCount(s, Signaler);
    HoldsCount(s, Notifier);
    HoldsCount(s, Reader);
    HoldsCount(s, Writer);
    var u :| Waits(s, u);
    var c := TallyOf(s.pcs);
    assert c.Waiting() > 0 && c.readers == 0 && c.writers == 0;
    if v :| Holds(s, v, Signaler) {
      t := v;
    } else if v :| Holds(s, v, Queued) {
      t := v;
    } else {
      t :| Holds(s, t, Notifier);
    }
  }

  /** One of them always can. */
  lemma SomeStep(s: State) returns (e: Event)
    requires Inv(s) && Free(s)
    ensures OwnStep(s, e)
  {
    hide Inv, Free;
    var t := SomeoneBusy(s);
    if u :| Sleeps(s.pcs, u) {
      e := Advance(t, SpinAgain, u);
    } else {
      e := Advance(t, SpinAgain, t);
    }
  }

  lemma {:induction false} DriveEnds(s: State, events: seq<Event>, r: State)
    requires Inv(s) && Free(s) && Drive(s, events, r)
    ensures |events| <= Rank(s)
    ensures Free(r) ==> exists e :: OwnStep(r, e)
    ensures !Free(r) ==> exists t :: Waits(s, t) && Holds(r, t, Writer)
    decreases |events|
  {
    hide Inv, Free, Rank, Apply, Enabled, Busy;
    if events == [] {
      var e := SomeStep(s);
    } else {
      var e := events[0];
      var m := Apply(s, e);
      OwnStepAdvances(s, e);
      InvStep(s, e);
      if Free(m) {
        DriveEnds(m, events[1..], r);
      } else {
        Stopped(m, events[1..], r);
      }
    }
  }

  lemma Stopped(s: State, events: seq<Event>, r: State)
    requires Drive(s, events, r) && !Free(s)
    ensures events == [] && r == s
  {
  }

  /** At most one thread is about to signal. */
  lemma RankBound(s: State)
    requires Inv(s)
    ensures Rank(s) <= 6 * |s.pcs| + 1
  {
    hide Sum, Inv, RoleOf;
    var a := Weights(s.pcs, s.word);
    assert a.Keys == s.pcs.Keys;
    if t :| t in s.pcs && s.pcs[t].Signaling? {
      OnlySignaler(s, t);
      SumMove(a, t, 4);
      SumBound(a[t := 4], 4);
      assert a[t := 4].Keys == a.Keys;
    } else {
      SumBound(a, 4);
    }
  }

  lemma OnlySignaler(s: State, t: Tid)
    requires Inv(s) && t in s.pcs && s.pcs[t].Signaling?
    ensures forall u | u in s.pcs && u != t :: !s.pcs[u].Signaling?
  {
    forall u | u in s.pcs && u != t
      ensures !s.pcs[u].Signaling?
    {
      if s.pcs[u].Signaling? {
        CountTwo(Roles(s.pcs), Signaler, t, u);
      }
    }
  }

  /** From every reachable state in which threads wait and nobody holds the mutex: however the threads
      in the middle of the unlock or of the wait are scheduled, at most six steps for each thread and
      one are taken; one more can be taken as long as the mutex is free; and when it is no longer
      free, a thread that waited holds it. */
  lemma HandOffCompletes(s: State, events: seq<Event>, r: State)
    requires Reachable(s) && Free(s) && Drive(s, events, r)
    ensures |events| <= 6 * |s.pcs| + 1
    ensures Free(r) ==> exists e :: OwnStep(r, e)
    ensures !Free(r) ==> exists t :: Waits(s, t) && Holds(r, t, Writer)
  {
    hide Inv, Free, Rank, Drive, OwnStep;
    InvReachable(s);
    RankBound(s);
    DriveEnds(s, events, r);
  }
}
