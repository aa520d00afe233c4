/** The counting semaphore that packs its value (low 16 bits) and its registered waiters
    (high 16 bits) into one 32-bit word.

    As in SharedMutex, each atomic access of Utilities/sema.h and Utilities/sema.cpp is one
    step of one thread. The state also keeps how many times the semaphore was posted and
    taken, to state conservation. */
module Semaphore {
  import opened Arithmetic
  import opened Threads
  import opened Word32

  const UNIT: nat := 0x1_0000        // c_waiter
  const MASK: nat := 0xFFFF          // c_value_mask
  const FULL: nat := 0xFFFF_0000     // c_waiter_mask
  const MAX_THREADS: nat := 0xFFFE   // one less than the waiter field can count

  /** The bound Max of semaphore<Max, Def>, a non-negative s16. */
  type Bound = x: nat | x <= 0x7FFF

  function Value(w: Word): nat { w % UNIT }

  function Waiters(w: Word): nat { w / UNIT }

  // -- The code -----------------------------------------------------------------------

  datatype Pc =
    | Idle
    | Failed                    // an ensure() did not hold
    | WaitCas(val: Word)        // wait()
    | Spin                      // imp_wait, before a round of the spin loop
    | SpinCas(val: Word)
    | Hard(waits: bool)         // imp_wait, before the fetch_op
    | Parking(seen: Word)       // registered, about to sleep if the word is seen
    | Asleep
    | Notifying                 // imp_post, before the wake

  datatype Choice = Wait | TryWait | Post(max: Bound) | TryPost(max: Bound) | SpinAgain | SpinOut

  /** The next program counter and word, and what the access did. */
  datatype Effect = Effect(pc: Pc, word: Word, did: Deed)
  datatype Deed = Nothing | Took | Posted | Notified

  /** imp_post: decides on the word before the increment. */
  function AfterPost(w: Word): Pc {
    if Value(w) == MASK then Failed
    else if Waiters(w) > Value(w) then Notifying
    else Idle
  }

  function Step(pc: Pc, w: Word, choice: Choice): Effect {
    match pc
    case Idle =>
      (match choice
       case Wait => Effect(WaitCas(w), w, Nothing)
       case TryWait => if Value(w) != 0 then Effect(Idle, w - 1, Took) else Effect(Idle, w, Nothing)
       case Post(max) =>
         var next := if Waiters(w) != 0 || Value(w) >= max then AfterPost(w) else Idle;
         Effect(next, Add(w, 1), Posted)
       case TryPost(max) =>
         if Value(w) <= max then Effect(if Waiters(w) != 0 then AfterPost(w) else Idle, w + 1, Posted)
         else Effect(Idle, w, Nothing)
       case _ => Effect(Idle, w, Nothing))
    case WaitCas(val) =>
      if Value(val) != 0 && w == val then Effect(Idle, w - 1, Took) else Effect(Spin, w, Nothing)
    case Spin =>
      Effect(if choice == SpinOut then Hard(false) else SpinCas(w), w, Nothing)
    case SpinCas(val) =>
      if Value(val) != 0 && w == val then Effect(Idle, w - 1, Took) else Effect(Spin, w, Nothing)
    case Hard(waits) =>
      if w == FULL then Effect(Failed, w, Nothing)
      else if Value(w) != 0 then
        Effect(Idle, if waits then Sub(w - 1, UNIT) else w - 1, Took)
      else if !waits then Effect(Parking(Add(w, UNIT)), Add(w, UNIT), Nothing)
      else Effect(Parking(w), w, Nothing)
    case Parking(seen) =>
      Effect(if w == seen then Asleep else Hard(true), w, Nothing)
    case Notifying =>
      Effect(Idle, w, Notified)
    case Asleep => Effect(pc, w, Nothing)
    case Failed => Effect(pc, w, Nothing)
  }

  // -- Threads running the code -------------------------------------------------------

  datatype State = State(word: Word, pcs: map<Tid, Pc>, initial: nat, posts: nat, takes: nat)

  /** Advance: thread t makes one access, waking woken if that is a wake and somebody
      sleeps. Wakeup: a sleeping thread leaves the futex on its own. */
  datatype Event = Advance(t: Tid, choice: Choice, woken: Tid) | Wakeup(t: Tid)

  predicate Sleeps(pcs: map<Tid, Pc>, t: Tid) {
    t in pcs && pcs[t] == Asleep
  }

  function WakeOne(pcs: map<Tid, Pc>, t: Tid): map<Tid, Pc> {
    if Sleeps(pcs, t) then pcs[t := Hard(true)] else pcs
  }

  ghost predicate Enabled(s: State, e: Event) {
    match e
    case Wakeup(t) => Sleeps(s.pcs, t)
    case Advance(t, choice, woken) =>
      && t in s.pcs
      // a wake finds a sleeper whenever there is one
      && (s.pcs[t].Notifying? && (exists u :: Sleeps(s.pcs, u)) ==> Sleeps(s.pcs, woken))
  }

  ghost function Apply(s: State, e: Event): State
    requires Enabled(s, e)
  {
    match e
    case Wakeup(t) => s.(pcs := WakeOne(s.pcs, t))
    case Advance(t, choice, woken) =>
      var f := Step(s.pcs[t], s.word, choice);
      var pcs := s.pcs[t := f.pc];
      State(f.word,
            if f.did == Notified then WakeOne(pcs, woken) else pcs,
            s.initial,
            s.posts + (if f.did == Posted then 1 else 0),
            s.takes + (if f.did == Took then 1 else 0))
  }

  ghost predicate Init(s: State) {
    && s.initial <= MASK
    && s.word == s.initial && s.posts == 0 && s.takes == 0
    && |s.pcs| <= MAX_THREADS
    && forall t | t in s.pcs :: s.pcs[t] == Idle
  }

  ghost predicate Run(s: State, events: seq<Event>, r: State)
    decreases |events|
  {
    if events == [] then s == r
    else Enabled(s, events[0]) && Run(Apply(s, events[0]), events[1..], r)
  }

  ghost predicate Reachable(r: State) {
    exists s, events :: Init(s) && Run(s, events, r)
  }

  // -- Roles and the invariant --------------------------------------------------------

  /** Awake and Sleeper threads are registered in the waiter field. */
  datatype Role = Outside | Awake | Sleeper | Notifier

  function RoleOf(pc: Pc): Role {
    match pc
    case Hard(waits) => if waits then Awake else Outside
    case Parking(_) => Awake
    case Asleep => Sleeper
    case Notifying => Notifier
    case _ => Outside
  }

  function Roles(pcs: map<Tid, Pc>): map<Tid, Role> {
    map t | t in pcs :: RoleOf(pcs[t])
  }

  datatype Tally = Tally(outside: nat, awake: nat, sleepers: nat, notifiers: nat) {
    function At(r: Role): nat {
      match r
      case Outside => outside
      case Awake => awake
      case Sleeper => sleepers
      case Notifier => notifiers
    }

    function Bump(r: Role, d: int): Tally
      requires At(r) + d >= 0
    {
      match r
      case Outside => this.(outside := outside + d)
      case Awake => this.(awake := awake + d)
      case Sleeper => this.(sleepers := sleepers + d)
      case Notifier => this.(notifiers := notifiers + d)
    }

    function Move(from: Role, to: Role): Tally
      requires At(from) > 0
    {
      Bump(from, -1).Bump(to, 1)
    }

    function Registered(): nat { awake + sleepers }
  }

  ghost function TallyOf(pcs: map<Tid, Pc>): Tally {
    var r := Roles(pcs);
    Tally(Count(r, Outside), Count(r, Awake), Count(r, Sleeper), Count(r, Notifier))
  }

  /** The word holds the balance of posts and takes below the count of registered threads,
      and every unit a sleeper could take has an awake thread or a wake on its way. */
  predicate Ok(w: Word, c: Tally, balance: int) {
    && c.outside + c.awake + c.sleepers + c.notifiers <= MAX_THREADS
    && 0 <= balance <= MASK
    && w == balance + UNIT * c.Registered()
    && Min(balance, c.Registered()) <= c.awake + c.notifiers
  }

  /** A thread parks only on a word it saw without value. */
  predicate PcOk(pc: Pc) {
    match pc
    case Failed => false
    case Parking(seen) => Value(seen) == 0
    case _ => true
  }

  ghost function Balance(s: State): int {
    s.initial + s.posts - s.takes
  }

  ghost predicate Inv(s: State) {
    && Ok(s.word, TallyOf(s.pcs), Balance(s))
    && forall t | t in s.pcs :: PcOk(s.pcs[t])
  }

  // -- One step keeps the invariant ---------------------------------------------------

  lemma TallyMove(pcs: map<Tid, Pc>, t: Tid, pc: Pc)
    requires t in pcs
    ensures TallyOf(pcs).At(RoleOf(pcs[t])) > 0
    ensures TallyOf(pcs[t := pc]) == TallyOf(pcs).Move(RoleOf(pcs[t]), RoleOf(pc))
  {
    hide Count, RoleOf;
    var r := Roles(pcs);
    var to := RoleOf(pc);
    assert Roles(pcs[t := pc]) == r[t := to];
    CountPositive(r, r[t]);
    CountMove(r, t, to, Outside);
    CountMove(r, t, to, Awake);
    CountMove(r, t, to, Sleeper);
    CountMove(r, t, to, Notifier);
    assert r[t] == RoleOf(pcs[t]);
  }

  lemma Fields(w: Word, c: Tally, balance: int)
    requires Ok(w, c, balance)
    ensures Value(w) == balance && Waiters(w) == c.Registered()
  {
  }

  function Change(did: Deed): int {
    match did
    case Posted => 1
    case Took => -1
    case _ => 0
  }

  ghost predicate Keeps(pc: Pc, f: Effect, c: Tally, balance: int)
    requires c.At(RoleOf(pc)) > 0
  {
    && f.did != Notified && PcOk(f.pc)
    && Ok(f.word, c.Move(RoleOf(pc), RoleOf(f.pc)), balance + Change(f.did))
  }

  lemma CallOk(w: Word, choice: Choice, c: Tally, balance: int)
    requires Ok(w, c, balance) && c.outside > 0
    requires choice.Post? ==> Value(w) < MASK
    ensures Keeps(Idle, Step(Idle, w, choice), c, balance)
  {
    Fields(w, c, balance);
    hide Value, Waiters;
  }

  lemma HardOk(waits: bool, w: Word, choice: Choice, c: Tally, balance: int)
    requires Ok(w, c, balance) && c.At(RoleOf(Hard(waits))) > 0
    ensures Keeps(Hard(waits), Step(Hard(waits), w, choice), c, balance)
  {
    Fields(w, c, balance);
    assert balance == 0 ==> w % UNIT == 0 && (w + UNIT) % UNIT == 0;
    hide Waiters;
  }

  /** The local core: whatever thread moves, conservation and the wake-up bound hold on, and
      no ensure() is tripped. */
  lemma StepOk(pc: Pc, w: Word, choice: Choice, c: Tally, balance: int)
    requires Ok(w, c, balance) && PcOk(pc) && c.At(RoleOf(pc)) > 0
    requires !pc.Notifying?
    requires pc.Idle? && choice.Post? ==> Value(w) < MASK
    ensures Keeps(pc, Step(pc, w, choice), c, balance)
  {
    Fields(w, c, balance);
    if pc.Idle? {
      CallOk(w, choice, c, balance);
    } else if pc.Hard? {
      HardOk(pc.waits, w, choice, c, balance);
    }
  }

  /** A post to a value that is already 65535. */
  predicate Overflows(s: State, e: Event) {
    e.Advance? && e.t in s.pcs && s.pcs[e.t].Idle? && e.choice.Post? && Value(s.word) == MASK
  }

  /** Every step keeps the invariant, but for a post that overflows: that one trips the ensure(). */
  lemma InvStep(s: State, e: Event)
    requires Inv(s) && Enabled(s, e)
    ensures if Overflows(s, e) then e.t in Apply(s, e).pcs && Apply(s, e).pcs[e.t] == Failed else Inv(Apply(s, e))
  {
    hide Ok, Tally.Move, TallyOf;
    if !Overflows(s, e) {
      InvSafeStep(s, e);
    }
  }

  lemma InvSafeStep(s: State, e: Event)
    requires Inv(s) && Enabled(s, e) && !Overflows(s, e)
    ensures Inv(Apply(s, e))
  {
    hide Ok, Tally.Move, TallyOf, Step;
    match e
    case Wakeup(t) =>
      TallyMove(s.pcs, t, Hard(true));
      WakeOk(s.word, TallyOf(s.pcs), Balance(s));
    case Advance(t, choice, woken) =>
      if s.pcs[t].Notifying? {
        NotifyOk(s, t, choice, woken);
      } else {
        TallyMove(s.pcs, t, Step(s.pcs[t], s.word, choice).pc);
        StepOk(s.pcs[t], s.word, choice, TallyOf(s.pcs), Balance(s));
      }
  }

  /** A sleeper that wakes, and a wake that leaves: with it, if anybody sleeps. */
  lemma WakeOk(w: Word, c: Tally, balance: int)
    requires Ok(w, c, balance)
    ensures c.sleepers > 0 ==> Ok(w, c.Move(Sleeper, Awake), balance)
    ensures c.notifiers > 0 ==>
              var d := c.Move(Notifier, Outside);
              Ok(w, if c.sleepers > 0 then d.Move(Sleeper, Awake) else d, balance)
  {
  }

  lemma NotifyOk(s: State, t: Tid, choice: Choice, woken: Tid)
    requires Inv(s) && Enabled(s, Advance(t, choice, woken)) && s.pcs[t].Notifying?
    ensures Inv(Apply(s, Advance(t, choice, woken)))
  {
    hide Ok, Tally.Move, TallyOf;
    TallyMove(s.pcs, t, Idle);
    WakeOk(s.word, TallyOf(s.pcs), Balance(s));
    RoleCount(s.pcs, Sleeper);
    assert forall u :: HasRole(s.pcs, u, Sleeper) <==> Sleeps(s.pcs, u);
    var pcs := s.pcs[t := Idle];
    if Sleeps(pcs, woken) {
      assert HasRole(s.pcs, woken, Sleeper);
      TallyMove(pcs, woken, Hard(true));
    }
  }

  ghost predicate HasRole(pcs: map<Tid, Pc>, t: Tid, role: Role) {
    t in pcs && RoleOf(pcs[t]) == role
  }

  lemma RoleCount(pcs: map<Tid, Pc>, role: Role)
    ensures TallyOf(pcs).At(role) > 0 <==> exists t :: HasRole(pcs, t, role)
  {
    hide Count;
    var r := Roles(pcs);
    CountPositive(r, role);
    if t :| HasRole(pcs, t, role) { assert r[t] == role; }
    if t :| t in r && r[t] == role { assert HasRole(pcs, t, role); }
  }

  // -- Every run ----------------------------------------------------------------------

  lemma AllOutside(pcs: map<Tid, Pc>)
    requires forall t | t in pcs :: pcs[t] == Idle
    ensures TallyOf(pcs) == Tally(|pcs|, 0, 0, 0)
  {
    hide Count;
    var r := Roles(pcs);
    assert r.Keys == pcs.Keys;
    forall role ensures Count(r, role) == if role == Outside then |pcs| else 0 {
      CountAll(r, Outside, role);
    }
  }

  ghost predicate NoneFailed(s: State) {
    forall t | t in s.pcs :: s.pcs[t] != Failed
  }

  lemma {:induction false} FailedStays(s: State, events: seq<Event>, r: State, t: Tid)
    requires Run(s, events, r) && t in s.pcs && s.pcs[t] == Failed
    ensures t in r.pcs && r.pcs[t] == Failed
    decreases |events|
  {
    if events != [] {
      FailedStays(Apply(s, events[0]), events[1..], r, t);
    }
  }

  lemma {:induction false} InvRun(s: State, events: seq<Event>, r: State)
    requires Inv(s) && Run(s, events, r) && NoneFailed(r)
    ensures Inv(r)
    decreases |events|
  {
    hide Inv, Apply;
    if events != [] {
      InvStep(s, events[0]);
      if Overflows(s, events[0]) {
        FailedStays(Apply(s, events[0]), events[1..], r, events[0].t);
      } else {
        InvRun(Apply(s, events[0]), events[1..], r);
      }
    }
  }

  lemma InvReachable(r: State)
    requires Reachable(r) && NoneFailed(r)
    ensures Inv(r)
  {
    var s, events :| Init(s) && Run(s, events, r);
    AllOutside(s.pcs);
    InvRun(s, events, r);
  }

  // -- What the semaphore promises ----------------------------------------------------

  /** As long as no ensure() has failed, the value field is initial + posts - takes and the waiter
      field counts the registered threads. */
  lemma Conservation(s: State)
    requires Reachable(s) && NoneFailed(s)
    ensures Value(s.word) == s.initial + s.posts - s.takes
    ensures Waiters(s.word) == TallyOf(s.pcs).Registered()
  {
    InvReachable(s);
    Fields(s.word, TallyOf(s.pcs), Balance(s));
  }

  /** The first ensure() to fail is that of imp_post, exactly on a post to a value of 65535. */
  lemma FailsExactly(s: State, e: Event)
    requires Reachable(s) && NoneFailed(s) && Enabled(s, e)
    ensures NoneFailed(Apply(s, e)) <==> !Overflows(s, e)
  {
    hide Ok, Step, TallyOf;
    InvReachable(s);
    InvStep(s, e);
  }

  /** Wake-ups are never lost: as many registered threads are awake or about to be woken as
      there are units they could take. */
  lemma NoLostWakeup(s: State)
    requires Reachable(s) && NoneFailed(s)
    ensures var c := TallyOf(s.pcs);
            Min(Value(s.word), c.Registered()) <= c.awake + c.notifiers
  {
    InvReachable(s);
    Fields(s.word, TallyOf(s.pcs), Balance(s));
  }

  // -- Limits -------------------------------------------------------------------------

  /** try_post accepts a value of exactly Max, so the bound it keeps is Max + 1; it keeps Max
      exactly when it does not find Max. */
  lemma TryPostBound(w: Word, max: Bound)
    requires Value(w) <= max
    ensures var f := Step(Idle, w, TryPost(max));
            && Value(f.word) <= max + 1
            && (Value(f.word) <= max <==> Value(w) != max)
  {
  }

  /** Nothing is posted but by try_post(max). */
  ghost predicate OnlyTryPost(events: seq<Event>, max: Bound) {
    forall i | 0 <= i < |events| && events[i].Advance? ::
      !events[i].choice.Post? && (events[i].choice.TryPost? ==> events[i].choice.max == max)
  }

  /** Over every run posted to by try_post(max) alone, from at most max + 1: the value stays at most
      max + 1, and the invariant is kept, so that no ensure() fails. */
  lemma {:induction false} TryPostRun(s: State, events: seq<Event>, r: State, max: Bound)
    requires Inv(s) && Value(s.word) <= max + 1 && Run(s, events, r) && OnlyTryPost(events, max)
    ensures Value(r.word) <= max + 1 && Inv(r)
    decreases |events|
  {
    hide Inv, Apply;
    if events != [] {
      var e := events[0];
      assert e.Advance? ==> !e.choice.Post?;
      InvStep(s, e);
      TryPostStep(s, e, max);
      TryPostRun(Apply(s, e), events[1..], r, max);
    }
  }

  lemma TryPostStep(s: State, e: Event, max: Bound)
    requires Inv(s) && Value(s.word) <= max + 1 && Enabled(s, e) && Inv(Apply(s, e))
    requires e.Advance? ==> !e.choice.Post? && (e.choice.TryPost? ==> e.choice.max == max)
    ensures Value(Apply(s, e).word) <= max + 1
  {
    hide Ok, TallyOf, Step, Value;
    var r := Apply(s, e);
    Fields(s.word, TallyOf(s.pcs), Balance(s));
    Fields(r.word, TallyOf(r.pcs), Balance(r));
    if e.Advance? {
      PostedBy(s.pcs[e.t], s.word, e.choice);
    }
  }

  lemma PostedBy(pc: Pc, w: Word, choice: Choice)
    ensures Step(pc, w, choice).did == Posted ==> choice.Post? || (choice.TryPost? && Value(w) <= choice.max)
  {
  }

  /** The bound is attained: by one try_post(max) that finds max. */
  lemma TryPostAttains(max: Bound, t: Tid) returns (s: State, e: Event)
    ensures Init(s) && s.initial == max && OnlyTryPost([e], max)
    ensures Enabled(s, e) && Run(s, [e], Apply(s, e))
    ensures Value(Apply(s, e).word) == max + 1
  {
    s := State(max, map[t := Idle], max, 0, 0);
    e := Advance(t, TryPost(max), t);
    assert [e][1..] == [];
  }

  /** imp_wait's check fires exactly on the word that says 65535 waiters and no value, even
      for a thread that is one of them: hence at most 65534 threads. */
  lemma WaitCheckExactly(w: Word, waits: bool, choice: Choice)
    ensures Step(Hard(waits), w, choice).pc == Failed <==> Waiters(w) == 0xFFFF && Value(w) == 0
  {
  }
}
