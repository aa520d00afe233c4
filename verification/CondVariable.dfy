/** The condition variable that packs its waiters (low 13 bits) and the signals sent since
    the first of them registered (high 19 bits) into one 32-bit word.

    As in SharedMutex, each atomic access of Utilities/cond.h and Utilities/cond.cpp is one
    step of one thread. The state also keeps the history needed to state what a wake does:
    how many wakes were accepted, how many there were when each thread registered, and up to
    which of them a notify_all has been delivered. */
module CondVariable {
  import opened Threads
  import opened Word32

  const UNIT: nat := 0x2000             // one signal: the lowest bit of c_signal_mask
  const MAX_WAITERS: nat := 0x1FFF      // c_waiter_mask
  const MAX_SIGNALS: nat := 0x7_FFFF    // c_signal_mask / UNIT

  function Waiters(w: Word): nat { w % UNIT }

  function Signals(w: Word): nat { w / UNIT }

  // -- The code -----------------------------------------------------------------------

  datatype Pc =
    | Idle
    | Parking(seen: Word)       // registered, about to sleep if the word is seen
    | Asleep
    | Leaving                   // back from the futex, before the cleanup
    | Waking(all: bool)         // imp_wake, before the signal is added
    | NotifyingOne(wake: nat)   // imp_wake, before notify_one; wake numbers the signal
    | NotifyingAll(wake: nat)   // imp_wake, before notify_all

  datatype Choice = Wait | NotifyOne | NotifyAll

  datatype Deed = Nothing | Registered | Accepted | NotifiedOne | NotifiedAll(wake: nat)

  datatype Effect = Effect(pc: Pc, word: Word, did: Deed)

  /** One atomic access; wakes is the number of wakes accepted so far. */
  function Step(pc: Pc, w: Word, choice: Choice, wakes: nat): Effect {
    match pc
    case Idle =>
      if choice == Wait then
        if Signals(w) == MAX_SIGNALS || Waiters(w) == MAX_WAITERS then Effect(Idle, w, Nothing)
        else Effect(Parking(Add(w, 1)), Add(w, 1), Registered)
      else Effect(if w != 0 then Waking(choice == NotifyAll) else Idle, w, Nothing)
    case Parking(seen) =>
      Effect(if w == seen then Asleep else Leaving, w, Nothing)
    case Leaving =>
      var rest := Sub(w, 1);
      Effect(Idle, if Waiters(rest) == 0 then 0 else rest, Nothing)
    case Waking(all) =>
      if w == 0 || Signals(w) == MAX_SIGNALS then Effect(Idle, w, Nothing)
      else
        var next := Add(w, UNIT);
        Effect(if all || Signals(next) == MAX_SIGNALS then NotifyingAll(wakes + 1) else NotifyingOne(wakes + 1), next, Accepted)
    case NotifyingOne(_) => Effect(Idle, w, NotifiedOne)
    case NotifyingAll(wake) => Effect(Idle, w, NotifiedAll(wake))
    case Asleep => Effect(pc, w, Nothing)
  }

  // -- Threads running the code -------------------------------------------------------

  datatype State = State(word: Word, pcs: map<Tid, Pc>, since: map<Tid, nat>, wakes: nat, flushed: nat)

  /** Advance: thread t makes one access, waking woken if that is a notify_one and somebody
      sleeps. Wakeup: a timeout, or the futex returning on its own. */
  datatype Event = Advance(t: Tid, choice: Choice, woken: Tid) | Wakeup(t: Tid)

  predicate Sleeps(pcs: map<Tid, Pc>, t: Tid) {
    t in pcs && pcs[t] == Asleep
  }

  function WakeOne(pcs: map<Tid, Pc>, t: Tid): map<Tid, Pc> {
    if Sleeps(pcs, t) then pcs[t := Leaving] else pcs
  }

  function WakeAll(pcs: map<Tid, Pc>): map<Tid, Pc> {
    map t | t in pcs :: if pcs[t] == Asleep then Leaving else pcs[t]
  }

  ghost predicate Enabled(s: State, e: Event) {
    match e
    case Wakeup(t) => Sleeps(s.pcs, t)
    case Advance(t, choice, woken) =>
      && t in s.pcs
      && (s.pcs[t].NotifyingOne? && (exists u :: Sleeps(s.pcs, u)) ==> Sleeps(s.pcs, woken))
  }

  ghost function Apply(s: State, e: Event): State
    requires Enabled(s, e)
  {
    match e
    case Wakeup(t) => s.(pcs := WakeOne(s.pcs, t))
    case Advance(t, choice, woken) =>
      var f := Step(s.pcs[t], s.word, choice, s.wakes);
      var pcs := s.pcs[t := f.pc];
      var moved := s.(word := f.word, pcs := pcs);
      match f.did
      case Nothing => moved
      case Registered => moved.(since := s.since[t := s.wakes])
      case Accepted => moved.(wakes := s.wakes + 1)
      case NotifiedOne => moved.(pcs := WakeOne(pcs, woken))
      case NotifiedAll(wake) => moved.(pcs := WakeAll(pcs), flushed := if wake > s.flushed then wake else s.flushed)
  }

  ghost predicate Init(s: State) {
    && s.word == 0 && s.wakes == 0 && s.flushed == 0 && s.since == map[]
    && forall t | t in s.pcs :: s.pcs[t] == Idle
  }

  ghost predicate Run(s: State, events: seq<Event>, r: State)
    decreases |events|
  {
    if events == [] then s == r
    else Enabled(s, events[0]) && Run(Apply(s, events[0]), events[1..], r)
  }

  ghost predicate Reachable(r: State) {
    exists s, events :: Init(s) && Run(s, events, r)
  }

  // -- Roles and the invariant --------------------------------------------------------

  /** Stirring (awake) and Sleeper threads are registered; a Flusher has a notify_all to send. */
  datatype Role = Outside | Stirring | Sleeper | Flusher

  function RoleOf(pc: Pc): Role {
    match pc
    case Parking(_) => Stirring
    case Leaving => Stirring
    case Asleep => Sleeper
    case NotifyingAll(_) => Flusher
    case _ => Outside
  }

  function Roles(pcs: map<Tid, Pc>): map<Tid, Role> {
    map t | t in pcs :: RoleOf(pcs[t])
  }

  datatype Tally = Tally(stirring: nat, sleepers: nat, flushers: nat) {
    function Registered(): nat { stirring + sleepers }
  }

  ghost function TallyOf(pcs: map<Tid, Pc>): Tally {
    var r := Roles(pcs);
    Tally(Count(r, Stirring), Count(r, Sleeper), Count(r, Flusher))
  }

  predicate Ok(w: Word, c: Tally) {
    && c.Registered() <= MAX_WAITERS
    && w == c.Registered() + UNIT * Signals(w)
    && (c.Registered() == 0 ==> w == 0)
    && (Signals(w) == MAX_SIGNALS && c.sleepers > 0 ==> c.flushers > 0)
  }

  /** What the invariant says of thread t. */
  ghost predicate ThreadOk(s: State, t: Tid)
    requires t in s.pcs
  {
    match s.pcs[t]
    case Parking(seen) =>
      && t in s.since && s.since[t] <= s.wakes
      && Signals(seen) < MAX_SIGNALS
      && Signals(s.word) - Signals(seen) == s.wakes - s.since[t]
    case Asleep => t in s.since && s.flushed <= s.since[t]
    case NotifyingAll(wake) => wake <= s.wakes
    case _ => true
  }

  ghost predicate Inv(s: State) {
    && Ok(s.word, TallyOf(s.pcs))
    && s.flushed <= s.wakes
    && forall t | t in s.pcs :: ThreadOk(s, t)
  }

  // -- One step keeps the invariant ---------------------------------------------------

  function One(b: bool): nat { if b then 1 else 0 }

  lemma TallyMove(pcs: map<Tid, Pc>, t: Tid, pc: Pc)
    requires t in pcs
    ensures var from, to := RoleOf(pcs[t]), RoleOf(pc);
            var a, b := TallyOf(pcs), TallyOf(pcs[t := pc]);
            && b.stirring == a.stirring - One(from == Stirring) + One(to == Stirring)
            && b.sleepers == a.sleepers - One(from == Sleeper) + One(to == Sleeper)
            && b.flushers == a.flushers - One(from == Flusher) + One(to == Flusher)
  {
    hide Count, RoleOf;
    var r := Roles(pcs);
    var to := RoleOf(pc);
    assert Roles(pcs[t := pc]) == r[t := to];
    CountMove(r, t, to, Stirring);
    CountMove(r, t, to, Sleeper);
    CountMove(r, t, to, Flusher);
    assert r[t] == RoleOf(pcs[t]);
  }

  ghost predicate HasRole(pcs: map<Tid, Pc>, t: Tid, role: Role) {
    t in pcs && RoleOf(pcs[t]) == role
  }

  lemma RoleCount(pcs: map<Tid, Pc>, role: Role)
    ensures Count(Roles(pcs), role) > 0 <==> exists t :: HasRole(pcs, t, role)
  {
    hide Count;
    var r := Roles(pcs);
    CountPositive(r, role);
    if t :| HasRole(pcs, t, role) { assert r[t] == role; }
    if t :| t in r && r[t] == role { assert HasRole(pcs, t, role); }
  }

  /** The threads not named in a step keep what is said of them if signals and wakes move
      together, or if none of them is registered. */
  lemma OthersOk(s: State, m: State, t: Tid)
    requires Inv(s) && t in s.pcs && m.pcs.Keys == s.pcs.Keys && m.flushed == s.flushed && m.wakes >= s.wakes
    requires forall u | u in s.pcs && u != t :: m.pcs[u] == s.pcs[u] && (u in s.since ==> u in m.since && m.since[u] == s.since[u])
    requires || Signals(m.word) - Signals(s.word) == m.wakes - s.wakes
             || forall u | u in s.pcs && u != t :: RoleOf(s.pcs[u]) != Stirring
    ensures forall u | u in s.pcs && u != t :: ThreadOk(m, u)
  {
    forall u | u in s.pcs && u != t ensures ThreadOk(m, u) {
      assert ThreadOk(s, u);
    }
  }

  lemma Fields(w: Word, c: Tally)
    requires Ok(w, c)
    ensures Waiters(w) == c.Registered() && Signals(w) <= MAX_SIGNALS
  {
  }

  // The three ways the word changes.

  lemma RegisterWord(w: Word, c: Tally)
    requires Ok(w, c) && Signals(w) != MAX_SIGNALS && Waiters(w) != MAX_WAITERS
    ensures Add(w, 1) == w + 1 && Signals(w + 1) == Signals(w)
    ensures Ok(w + 1, c.(stirring := c.stirring + 1))
  {
  }

  /** The last registered thread out clears the signals. */
  lemma LeaveWord(w: Word, c: Tally)
    requires Ok(w, c) && c.stirring > 0
    ensures var rest := Sub(w, 1);
            var next := if Waiters(rest) == 0 then 0 else rest;
            && Ok(next, c.(stirring := c.stirring - 1))
            && (c.Registered() > 1 ==> Signals(next) == Signals(w))
  {
    assert Sub(w, 1) == w - 1;
    assert w - 1 == (c.Registered() - 1) + UNIT * Signals(w);
    assert Waiters(w - 1) == c.Registered() - 1;
    assert Signals(w - 1) == Signals(w);
  }

  lemma AcceptWord(w: Word, c: Tally, flush: bool)
    requires Ok(w, c) && w != 0 && Signals(w) != MAX_SIGNALS
    requires Signals(w) + 1 == MAX_SIGNALS ==> flush
    ensures Add(w, UNIT) == w + UNIT && Signals(w + UNIT) == Signals(w) + 1
    ensures Ok(w + UNIT, c.(flushers := c.flushers + One(flush)))
  {
  }

  lemma CallOk(s: State, t: Tid, choice: Choice, woken: Tid)
    requires Inv(s) && t in s.pcs && s.pcs[t] == Idle
    ensures Inv(Apply(s, Advance(t, choice, woken)))
  {
    hide Ok, TallyOf, Signals, Waiters;
    var m := Apply(s, Advance(t, choice, woken));
    var c := TallyOf(s.pcs);
    Fields(s.word, c);
    TallyMove(s.pcs, t, m.pcs[t]);
    if m.pcs[t].Parking? {
      RegisterWord(s.word, c);
      assert TallyOf(m.pcs) == c.(stirring := c.stirring + 1);
    } else {
      assert TallyOf(m.pcs) == c;
    }
    OthersOk(s, m, t);
  }

  lemma ParkOk(s: State, t: Tid, choice: Choice, woken: Tid)
    requires Inv(s) && t in s.pcs && s.pcs[t].Parking?
    ensures Inv(Apply(s, Advance(t, choice, woken)))
  {
    hide Signals;
    var m := Apply(s, Advance(t, choice, woken));
    assert ThreadOk(s, t);
    TallyMove(s.pcs, t, m.pcs[t]);
    OthersOk(s, m, t);
  }

  lemma LeaveOk(s: State, t: Tid, choice: Choice, woken: Tid)
    requires Inv(s) && t in s.pcs && s.pcs[t] == Leaving
    ensures Inv(Apply(s, Advance(t, choice, woken)))
  {
    hide Ok, Signals, Waiters;
    var m := Apply(s, Advance(t, choice, woken));
    var c := TallyOf(s.pcs);
    TallyMove(s.pcs, t, Idle);
    assert TallyOf(m.pcs) == c.(stirring := c.stirring - 1);
    LeaveWord(s.word, c);
    RoleCount(m.pcs, Stirring);
    if c.Registered() == 1 {
      forall u | u in s.pcs && u != t ensures RoleOf(s.pcs[u]) != Stirring {
        assert HasRole(s.pcs, u, Stirring) ==> HasRole(m.pcs, u, Stirring);
      }
    }
    OthersOk(s, m, t);
  }

  lemma AcceptOk(s: State, t: Tid, choice: Choice, woken: Tid)
    requires Inv(s) && t in s.pcs && s.pcs[t].Waking?
    ensures Inv(Apply(s, Advance(t, choice, woken)))
  {
    hide Ok, TallyOf, Signals;
    var m := Apply(s, Advance(t, choice, woken));
    var c := TallyOf(s.pcs);
    TallyMove(s.pcs, t, m.pcs[t]);
    var flush := m.pcs[t].NotifyingAll?;
    assert TallyOf(m.pcs) == c.(flushers := c.flushers + One(flush));
    if s.word != 0 && Signals(s.word) != MAX_SIGNALS {
      if Signals(s.word) + 1 != MAX_SIGNALS { AcceptWord(s.word, c, flush); }
      else { AcceptWord(s.word, c, true); }
    }
    OthersOk(s, m, t);
  }

  lemma WakeOneOk(s: State, t: Tid)
    requires Inv(s) && Sleeps(s.pcs, t)
    ensures Inv(s.(pcs := WakeOne(s.pcs, t)))
  {
    hide Signals;
    TallyMove(s.pcs, t, Leaving);
    OthersOk(s, s.(pcs := WakeOne(s.pcs, t)), t);
  }

  lemma NotifyOneOk(s: State, t: Tid, choice: Choice, woken: Tid)
    requires Inv(s) && Enabled(s, Advance(t, choice, woken)) && s.pcs[t].NotifyingOne?
    ensures Inv(Apply(s, Advance(t, choice, woken)))
  {
    hide Ok, TallyOf, Signals;
    var mid := s.(pcs := s.pcs[t := Idle]);
    TallyMove(s.pcs, t, Idle);
    assert TallyOf(mid.pcs) == TallyOf(s.pcs);
    OthersOk(s, mid, t);
    if Sleeps(mid.pcs, woken) { WakeOneOk(mid, woken); }
  }

  lemma NotifyAllOk(s: State, t: Tid, choice: Choice, woken: Tid)
    requires Inv(s) && t in s.pcs && s.pcs[t].NotifyingAll?
    ensures Inv(Apply(s, Advance(t, choice, woken)))
  {
    hide TallyOf, Signals;
    var m := Apply(s, Advance(t, choice, woken));
    TallyMove(s.pcs, t, Idle);
    WakeAllTally(s.pcs[t := Idle]);
    forall u | u in m.pcs ensures ThreadOk(m, u) {
      assert ThreadOk(s, u);
    }
  }

  lemma WakeAllTally(pcs: map<Tid, Pc>)
    ensures var c := TallyOf(pcs);
            TallyOf(WakeAll(pcs)) == Tally(c.stirring + c.sleepers, 0, c.flushers)
  {
    var a, b := Roles(pcs), Roles(WakeAll(pcs));
    assert forall t | t in b :: b[t] == if a[t] == Sleeper then Stirring else a[t];
    assert In(b, Stirring) == In(a, Stirring) + In(a, Sleeper);
    assert In(b, Sleeper) == {};
    assert In(b, Flusher) == In(a, Flusher);
  }

  lemma InvStep(s: State, e: Event)
    requires Inv(s) && Enabled(s, e)
    ensures Inv(Apply(s, e))
  {
    hide Inv;
    match e
    case Wakeup(t) => WakeOneOk(s, t);
    case Advance(t, choice, woken) =>
      match s.pcs[t]
      case Idle => CallOk(s, t, choice, woken);
      case Parking(_) => ParkOk(s, t, choice, woken);
      case Leaving => LeaveOk(s, t, choice, woken);
      case Waking(_) => AcceptOk(s, t, choice, woken);
      case NotifyingOne(_) => NotifyOneOk(s, t, choice, woken);
      case NotifyingAll(_) => NotifyAllOk(s, t, choice, woken);
      case Asleep => assert s.pcs[t := Asleep] == s.pcs;
  }

  // -- Every run ----------------------------------------------------------------------

  lemma AllOutside(pcs: map<Tid, Pc>)
    requires forall t | t in pcs :: pcs[t] == Idle
    ensures TallyOf(pcs) == Tally(0, 0, 0)
  {
    hide Count;
    forall role ensures Count(Roles(pcs), role) == if role == Outside then |Roles(pcs)| else 0 {
      CountAll(Roles(pcs), Outside, role);
    }
  }

  lemma InvInit(s: State)
    requires Init(s)
    ensures Inv(s)
  {
    hide TallyOf;
    AllOutside(s.pcs);
  }

  lemma {:induction false} InvRun(s: State, events: seq<Event>, r: State)
    requires Inv(s) && Run(s, events, r)
    ensures Inv(r)
    decreases |events|
  {
    if events != [] {
      InvStep(s, events[0]);
      InvRun(Apply(s, events[0]), events[1..], r);
    }
  }

  lemma InvReachable(r: State)
    requires Reachable(r)
    ensures Inv(r)
  {
    var s, events :| Init(s) && Run(s, events, r);
    InvInit(s);
    InvRun(s, events, r);
  }

  // -- What the condition variable promises -------------------------------------------

  /** The waiter field counts exactly the threads between registration and cleanup, and the
      word is 0 exactly when there are none: a notifier that finds 0 has nobody to wake. */
  lemma WaitersCounted(s: State)
    requires Reachable(s)
    ensures Waiters(s.word) == TallyOf(s.pcs).Registered()
    ensures s.word == 0 <==> TallyOf(s.pcs).Registered() == 0
  {
    InvReachable(s);
    Fields(s.word, TallyOf(s.pcs));
  }

  /** A thread that registered before an accepted wake and has not slept yet will not: the
      word it would sleep on is gone, whatever happened in between. */
  lemma StaleWaiterCannotSleep(s: State, t: Tid, choice: Choice)
    requires Reachable(s) && t in s.pcs && s.pcs[t].Parking?
    ensures t in s.since && s.since[t] <= s.wakes
    ensures s.since[t] < s.wakes ==> Step(s.pcs[t], s.word, choice, s.wakes).pc == Leaving
  {
    InvReachable(s);
    assert ThreadOk(s, t);
  }

  /** Once the signals are used up every registered thread is awake for good or a notify_all
      is on its way, so dropping further wakes loses nothing. */
  lemma SaturationReleasesAll(s: State, choice: Choice)
    requires Reachable(s) && Signals(s.word) == MAX_SIGNALS
    ensures (exists t :: HasRole(s.pcs, t, Sleeper)) ==> exists t :: HasRole(s.pcs, t, Flusher)
    ensures forall t | t in s.pcs && s.pcs[t].Parking? :: Step(s.pcs[t], s.word, choice, s.wakes).pc == Leaving
  {
    InvReachable(s);
    RoleCount(s.pcs, Sleeper);
    RoleCount(s.pcs, Flusher);
    forall t | t in s.pcs && s.pcs[t].Parking? ensures Step(s.pcs[t], s.word, choice, s.wakes).pc == Leaving {
      assert ThreadOk(s, t);
    }
  }

  /** No thread that registered before a delivered notify_all is asleep, now or later. */
  lemma NotifyAllReleasesAll(s: State, t: Tid)
    requires Reachable(s) && Sleeps(s.pcs, t)
    ensures t in s.since && s.flushed <= s.since[t]
  {
    InvReachable(s);
    assert ThreadOk(s, t);
  }

  /** What flushed records: it covers every notify_all from its delivery on. */
  lemma FlushedRecords(s: State, e: Event)
    requires Enabled(s, e)
    ensures s.flushed <= Apply(s, e).flushed
    ensures e.Advance? && s.pcs[e.t].NotifyingAll? ==> s.pcs[e.t].wake <= Apply(s, e).flushed
    ensures s.flushed < Apply(s, e).flushed ==> e.Advance? && s.pcs[e.t] == NotifyingAll(Apply(s, e).flushed)
  {
  }
}
