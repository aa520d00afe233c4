/** The shared (reader/writer) mutex that keeps its whole state in one 32-bit word.

    Each thread runs the code of Utilities/mutex.h and Utilities/mutex.cpp one atomic
    access at a time: every load, compare-and-swap, fetch-and-add, futex wait and futex
    wake is one step, and any other thread may run between two steps. Loaded values
    live in the program counter. The spin loops may leave after any number of rounds. */
module SharedMutex {
  import opened Threads
  import opened Word32

  const ONE: nat := 0x4000           // c_one: one writer or one queued thread
  const SIG: nat := 0x4000_0000      // c_sig: the hand-off signal
  const ERR: nat := 0x8000_0000      // c_err
  const MAX_THREADS: nat := 0xFFFF   // what the overflow checks leave room for

  predicate HasSignal(v: nat) {
    v / SIG % 2 == 1
  }

  // -- The code -----------------------------------------------------------------------

  /** What a thread does once imp_wait has given it the writer lock. */
  datatype Goal = ForShared | ForExclusive | ForPass

  /** Where a thread is, with the values it has loaded. */
  datatype Pc =
    | Idle
    | Failed                            // an ensure() did not hold
    | Reading                           // holds the shared lock
    | Writing                           // holds the exclusive lock
    | TrySharedCas(val: Word)            // try_lock_shared
    | SharedCas(val: Word)               // lock_shared
    | SharedSteal(val: Word)             // imp_lock_shared, first steal
    | SharedSpin
    | SharedSpinCas(val: Word)
    | SharedSpinLoad
    | SharedSpinSteal(val: Word)
    | SharedEnqueue
    | Downgrading                       // holds the writer lock, will downgrade
    | ExclusiveSteal(val: Word)          // imp_lock, first steal
    | ExclusiveSpin
    | ExclusiveSpinCas(val: Word)
    | ExclusiveEnqueue
    | TryUpgradeCas(val: Word)           // try_lock_upgrade
    | UpgradeCas(val: Word)              // lock_upgrade and imp_lock_upgrade
    | UpgradeSpin
    | UpgradeEnqueue
    | PassSpin(limit: nat)              // imp_lock_unlock
    | PassEnqueue
    | Passing                           // holds the writer lock, will unlock
    | Claiming(goal: Goal)              // imp_wait, about to look for the signal
    | Parking(goal: Goal, seen: Word)    // imp_wait, about to sleep if the word is seen
    | Asleep(goal: Goal)
    | Signaling                         // imp_signal, before the signal is added
    | Notifying                         // imp_signal, before the wake

  /** The caller's next call, or whether a spin loop goes round again. */
  datatype Choice =
    | TryLockShared | LockShared | UnlockShared
    | TryLock | Lock | Unlock
    | TryUpgrade | Upgrade | Downgrade
    | LockUnlock
    | SpinAgain | SpinOut

  datatype Effect = Effect(pc: Pc, word: Word, notify: bool)

  function Granted(goal: Goal): Pc {
    match goal
    case ForShared => Downgrading
    case ForExclusive => Writing
    case ForPass => Passing
  }

  /** unlock(): fetch_sub(c_one), then imp_unlock. */
  function UnlockStep(w: Word): Effect {
    var rest := Sub(w, ONE);
    var next := if w == ONE then Idle
                else if rest >= ERR then Failed
                else if rest != 0 then Signaling
                else Idle;
    Effect(next, rest, false)
  }

  /** unlock_shared(): fetch_sub(1), then imp_unlock_shared. */
  function UnlockSharedStep(w: Word): Effect {
    var rest := Sub(w, 1);
    var next := if w < ONE then Idle
                else if rest >= ERR then Failed
                else if rest % ONE == 0 then Signaling
                else Idle;
    Effect(next, rest, false)
  }

  /** fetch_add(c_one) at the end of imp_lock_shared, imp_lock and imp_lock_unlock. */
  function EnqueueStep(w: Word, goal: Goal): Effect {
    var next := if w == 0 then Granted(goal)
                else if goal != ForPass && w % SIG + ONE >= SIG then Failed
                else Claiming(goal);
    Effect(next, Add(w, ONE), false)
  }

  /** One atomic access of a thread at pc that finds the word at w. */
  function Step(pc: Pc, w: Word, choice: Choice): Effect {
    var stay := Effect(pc, w, false);
    match pc
    case Idle =>
      if choice == TryLockShared then Effect(TrySharedCas(w), w, false)
      else if choice == LockShared then Effect(SharedCas(w), w, false)
      else if choice == TryLock then Effect(if w == 0 then Writing else Idle, if w == 0 then ONE else w, false)
      else if choice == Lock then
        if w == 0 then Effect(Writing, ONE, false)
        else Effect(if w < ERR then ExclusiveSteal(w) else Failed, w, false)
      else if choice == LockUnlock then Effect(if w != 0 then PassSpin(1) else Idle, w, false)
      else stay
    case Reading =>
      if choice == UnlockShared then UnlockSharedStep(w)
      else if choice == TryUpgrade then Effect(TryUpgradeCas(w), w, false)
      else if choice == Upgrade then Effect(UpgradeCas(w), w, false)
      else stay
    case Writing =>
      if choice == Unlock then UnlockStep(w)
      else if choice == Downgrade then Effect(Reading, Sub(w, ONE - 1), false)
      else stay
    case TrySharedCas(val) =>
      if val < ONE - 1 && w == val then Effect(Reading, Add(w, 1), false) else Effect(Idle, w, false)
    case SharedCas(val) =>
      if val < ONE - 1 && w == val then Effect(Reading, Add(w, 1), false)
      else Effect(if val < ERR then SharedSteal(val) else Failed, w, false)
    case SharedSteal(val) =>
      if HasSignal(val) && w == val then Effect(Reading, Add(Sub(w, SIG), 1), false)
      else Effect(SharedSpin, w, false)
    case SharedSpin =>
      Effect(if choice == SpinOut then SharedEnqueue else SharedSpinCas(w), w, false)
    case SharedSpinCas(val) =>
      if val < ONE - 1 && w == val then Effect(Reading, Add(w, 1), false) else Effect(SharedSpinLoad, w, false)
    case SharedSpinLoad =>
      Effect(SharedSpinSteal(w), w, false)
    case SharedSpinSteal(val) =>
      if HasSignal(val) && w == val then Effect(Reading, Add(Sub(w, SIG), 1), false)
      else Effect(SharedSpin, w, false)
    case SharedEnqueue =>
      EnqueueStep(w, ForShared)
    case Downgrading =>
      Effect(Reading, Sub(w, ONE - 1), false)
    case ExclusiveSteal(val) =>
      if HasSignal(val) && w == val then Effect(Writing, Add(Sub(w, SIG), ONE), false)
      else Effect(ExclusiveSpin, w, false)
    case ExclusiveSpin =>
      Effect(if choice == SpinOut then ExclusiveEnqueue else ExclusiveSpinCas(w), w, false)
    case ExclusiveSpinCas(val) =>
      if val == 0 && w == 0 then Effect(Writing, ONE, false)
      else if HasSignal(val) && w == val then Effect(Writing, Add(Sub(w, SIG), ONE), false)
      else Effect(ExclusiveSpin, w, false)
    case ExclusiveEnqueue =>
      EnqueueStep(w, ForExclusive)
    case TryUpgradeCas(val) =>
      if w == val && Add(w, ONE - 1) % ONE == 0 then Effect(Writing, Add(w, ONE - 1), false)
      else Effect(Reading, w, false)
    case UpgradeCas(val) =>
      if w == val && Add(w, ONE - 1) % ONE == 0 then Effect(Writing, Add(w, ONE - 1), false)
      else Effect(UpgradeSpin, w, false)
    case UpgradeSpin =>
      Effect(if choice == SpinOut then UpgradeEnqueue else UpgradeCas(w), w, false)
    case UpgradeEnqueue =>
      var next := if w % SIG + ONE - 1 >= SIG then Failed
                  else if w % ONE == 1 then Writing
                  else Claiming(ForExclusive);
      Effect(next, Add(w, ONE - 1), false)
    case PassSpin(limit) =>
      if w % ONE == 0 && (w / ONE < limit || w >= SIG) then Effect(Idle, w, false)
      else Effect(if choice == SpinOut then PassEnqueue else PassSpin(w / ONE), w, false)
    case PassEnqueue =>
      EnqueueStep(w, ForPass)
    case Passing =>
      UnlockStep(w)
    case Claiming(goal) =>
      if w >= SIG then Effect(Granted(goal), w - SIG, false) else Effect(Parking(goal, w), w, false)
    case Parking(goal, seen) =>
      Effect(if w == seen then Asleep(goal) else Claiming(goal), w, false)
    case Signaling =>
      Effect(Notifying, Add(w, SIG), false)
    case Notifying =>
      Effect(Idle, w, true)
    case Asleep(_) => stay
    case Failed => stay
  }

  // -- Threads running the code -------------------------------------------------------

  datatype State = State(word: Word, pcs: map<Tid, Pc>)

  /** Advance: thread t makes one access; if that is a wake, the sleeper woken is chosen
      by the system. Wakeup: a sleeping thread leaves the futex on its own. */
  datatype Event = Advance(t: Tid, choice: Choice, woken: Tid) | Wakeup(t: Tid)

  predicate Sleeps(pcs: map<Tid, Pc>, t: Tid) {
    t in pcs && pcs[t].Asleep?
  }

  function WakeOne(pcs: map<Tid, Pc>, t: Tid): map<Tid, Pc> {
    if Sleeps(pcs, t) then pcs[t := Claiming(pcs[t].goal)] else pcs
  }

  ghost predicate Enabled(s: State, e: Event) {
    match e
    case Wakeup(t) => Sleeps(s.pcs, t)
    case Advance(t, choice, woken) =>
      && t in s.pcs
      // a wake finds a sleeper whenever there is one
      && (s.pcs[t].Notifying? && (exists u :: Sleeps(s.pcs, u)) ==> Sleeps(s.pcs, woken))
  }

  ghost function Apply(s: State, e: Event): State
    requires Enabled(s, e)
  {
    match e
    case Wakeup(t) => State(s.word, WakeOne(s.pcs, t))
    case Advance(t, choice, woken) =>
      var f := Step(s.pcs[t], s.word, choice);
      var pcs := s.pcs[t := f.pc];
      State(f.word, if f.notify then WakeOne(pcs, woken) else pcs)
  }

  ghost predicate Init(s: State) {
    && s.word == 0
    && |s.pcs| <= MAX_THREADS
    && forall t | t in s.pcs :: s.pcs[t] == Idle
  }

  /** The run of events from s reaches r. */
  ghost predicate Run(s: State, events: seq<Event>, r: State)
    decreases |events|
  {
    if events == [] then s == r
    else Enabled(s, events[0]) && Run(Apply(s, events[0]), events[1..], r)
  }

  ghost predicate Reachable(r: State) {
    exists s, events :: Init(s) && Run(s, events, r)
  }

  // -- Roles and the invariant --------------------------------------------------------

  datatype Role = Outside | Reader | Writer | Queued | Sleeper | Signaler | Notifier

  function RoleOf(pc: Pc): Role {
    match pc
    case Reading => Reader
    case TryUpgradeCas(_) => Reader
    case UpgradeCas(_) => Reader
    case UpgradeSpin => Reader
    case UpgradeEnqueue => Reader
    case Writing => Writer
    case Downgrading => Writer
    case Passing => Writer
    case Claiming(_) => Queued
    case Parking(_, _) => Queued
    case Asleep(_) => Sleeper
    case Signaling => Signaler
    case Notifying => Notifier
    case _ => Outside
  }

  function Roles(pcs: map<Tid, Pc>): map<Tid, Role> {
    map t | t in pcs :: RoleOf(pcs[t])
  }

  /** How many threads are in each role. */
  datatype Tally = Tally(outside: nat, readers: nat, writers: nat, queued: nat, sleepers: nat, signalers: nat, notifiers: nat) {
    function At(r: Role): nat {
      match r
      case Outside => outside
      case Reader => readers
      case Writer => writers
      case Queued => queued
      case Sleeper => sleepers
      case Signaler => signalers
      case Notifier => notifiers
    }

    function Total(): nat {
      outside + readers + writers + queued + sleepers + signalers + notifiers
    }

    function Bump(r: Role, d: int): Tally
      requires At(r) + d >= 0
    {
      match r
      case Outside => this.(outside := outside + d)
      case Reader => this.(readers := readers + d)
      case Writer => this.(writers := writers + d)
      case Queued => this.(queued := queued + d)
      case Sleeper => this.(sleepers := sleepers + d)
      case Signaler => this.(signalers := signalers + d)
      case Notifier => this.(notifiers := notifiers + d)
    }

    function Move(from: Role, to: Role): Tally
      requires At(from) > 0
    {
      Bump(from, -1).Bump(to, 1)
    }

    /** Threads inside imp_wait. */
    function Waiting(): nat { queued + sleepers }

    /** Everything that will eventually let a waiting thread in: readers, the writer, the
        signal in the word, a thread about to add the signal. */
    function Drivers(signals: nat): nat {
      (if readers > 0 then 1 else 0) + writers + signals + signalers
    }
  }

  ghost function TallyOf(pcs: map<Tid, Pc>): Tally {
    var r := Roles(pcs);
    Tally(Count(r, Outside), Count(r, Reader), Count(r, Writer), Count(r, Queued), Count(r, Sleeper),
          Count(r, Signaler), Count(r, Notifier))
  }

  /** The signals in a word that has not overflowed. */
  function Signals(w: nat): nat {
    if w < SIG then 0 else 1
  }

  /** The word is exactly the sum of its fields, and hand-over is in one pair of hands. */
  predicate Ok(w: nat, c: Tally) {
    var signals := Signals(w);
    && c.Total() <= MAX_THREADS
    && w < ERR
    && c.readers < ONE
    && w == c.readers + ONE * (c.writers + c.Waiting()) + SIG * signals
    && c.Drivers(signals) <= 1
    && (c.Waiting() > 0 ==> c.Drivers(signals) == 1)
    && (signals + c.signalers > 0 ==> c.Waiting() > 0)
    && (signals == 1 ==> c.queued + c.notifiers > 0)
  }

  /** A loaded value never has the error bit; a thread parks only on a word without signal. */
  predicate PcOk(pc: Pc) {
    match pc
    case Failed => false
    case TrySharedCas(val) => val < ERR
    case SharedCas(val) => val < ERR
    case SharedSteal(val) => val < ERR
    case SharedSpinCas(val) => val < ERR
    case SharedSpinSteal(val) => val < ERR
    case ExclusiveSteal(val) => val < ERR
    case ExclusiveSpinCas(val) => val < ERR
    case TryUpgradeCas(val) => val < ERR
    case UpgradeCas(val) => val < ERR
    case Parking(_, seen) => seen < SIG
    case _ => true
  }

  ghost predicate Inv(s: State) {
    && Ok(s.word, TallyOf(s.pcs))
    && forall t | t in s.pcs :: PcOk(s.pcs[t])
  }

  // -- One step keeps the invariant ---------------------------------------------------

  lemma TallyMove(pcs: map<Tid, Pc>, t: Tid, pc: Pc)
    requires t in pcs
    ensures TallyOf(pcs).At(RoleOf(pcs[t])) > 0
    ensures TallyOf(pcs[t := pc]) == TallyOf(pcs).Move(RoleOf(pcs[t]), RoleOf(pc))
  {
    hide Count, RoleOf;
    var r := Roles(pcs);
    var to := RoleOf(pc);
    assert Roles(pcs[t := pc]) == r[t := to];
    CountPositive(r, r[t]);
    CountMove(r, t, to, Outside);
    CountMove(r, t, to, Reader);
    CountMove(r, t, to, Writer);
    CountMove(r, t, to, Queued);
    CountMove(r, t, to, Sleeper);
    CountMove(r, t, to, Signaler);
    CountMove(r, t, to, Notifier);
    assert r[t] == RoleOf(pcs[t]);
  }

  /** The fields never carry into each other. */
  lemma Fields(w: nat, c: Tally)
    requires Ok(w, c)
    ensures w < ERR
    ensures w % ONE == c.readers
    ensures w % SIG == c.readers + ONE * (c.writers + c.Waiting())
    ensures HasSignal(w) <==> w >= SIG
    ensures w < ONE <==> c.writers + c.Waiting() == 0
    ensures w == 0 <==> c.readers + c.writers + c.Waiting() == 0
  {
  }

  /** The overflow checks fire exactly when all 65535 places for writers and waiters are
      taken; imp_lock_unlock has no such check, and there the count carries into the signal. */
  lemma OverflowExactly(readers: nat, held: nat, signals: nat)
    requires readers < ONE && held <= 0xFFFF && signals <= 1 && readers + held > 0
    ensures var w := readers + ONE * held + SIG * signals;
            && (EnqueueStep(w, ForShared).pc == Failed <==> held == 0xFFFF)
            && (EnqueueStep(w, ForExclusive).pc == Failed <==> held == 0xFFFF)
            && (readers > 0 ==> (Step(UpgradeEnqueue, w, SpinOut).pc == Failed <==> held == 0xFFFF))
            && EnqueueStep(w, ForPass).pc == Claiming(ForPass)
            && (EnqueueStep(w, ForPass).word / SIG == signals <==> held < 0xFFFF)
  {
    var w := readers + ONE * held + SIG * signals;
    assert w % SIG == readers + ONE * held;
  }

  // The transitions of the protocol on the word, one lemma each.

  lemma EnterShared(w: nat, c: Tally)
    requires Ok(w, c) && c.outside > 0 && w < ONE - 1
    ensures Ok(w + 1, c.Move(Outside, Reader))
  {
    Fields(w, c);
  }

  lemma StealShared(w: nat, c: Tally)
    requires Ok(w, c) && c.outside > 0 && w >= SIG
    ensures Ok(w - SIG + 1, c.Move(Outside, Reader))
  {
    Fields(w, c);
  }

  lemma StealExclusive(w: nat, c: Tally)
    requires Ok(w, c) && c.outside > 0 && w >= SIG
    ensures Ok(w - SIG + ONE, c.Move(Outside, Writer))
  {
    Fields(w, c);
  }

  /** fetch_add(c_one): the free mutex is taken, otherwise the thread joins the queue. */
  lemma Enqueue(w: nat, c: Tally)
    requires Ok(w, c) && c.outside > 0
    ensures w % SIG + ONE < SIG
    ensures Ok(w + ONE, c.Move(Outside, if w == 0 then Writer else Queued))
  {
    Fields(w, c);
  }

  /** fetch_add(c_one - 1): the only reader becomes the writer, otherwise it queues. */
  lemma UpgradeOrEnqueue(w: nat, c: Tally)
    requires Ok(w, c) && c.readers > 0
    ensures w % SIG + ONE - 1 < SIG
    ensures (w + ONE - 1) % ONE == 0 <==> c.readers == 1
    ensures Ok(w + ONE - 1, c.Move(Reader, if w % ONE == 1 then Writer else Queued))
  {
    Fields(w, c);
  }

  lemma DowngradeWriter(w: nat, c: Tally)
    requires Ok(w, c) && c.writers > 0
    ensures w >= ONE - 1 && Ok(w - (ONE - 1), c.Move(Writer, Reader))
  {
    Fields(w, c);
  }

  /** The last reader out becomes the signaler exactly when threads wait. */
  lemma LeaveShared(w: nat, c: Tally)
    requires Ok(w, c) && c.readers > 0
    ensures w >= 1 && w - 1 < ERR
    ensures var signal := w >= ONE && (w - 1) % ONE == 0;
            Ok(w - 1, c.Move(Reader, if signal then Signaler else Outside))
  {
    Fields(w, c);
  }

  /** The writer becomes the signaler exactly when threads wait. */
  lemma LeaveExclusive(w: nat, c: Tally)
    requires Ok(w, c) && c.writers > 0
    ensures ONE <= w && w - ONE < ERR
    ensures Ok(w - ONE, c.Move(Writer, if w == ONE then Outside else Signaler))
  {
    Fields(w, c);
  }

  lemma PostSignal(w: nat, c: Tally)
    requires Ok(w, c) && c.signalers > 0
    ensures w + SIG < ERR && Ok(w + SIG, c.Move(Signaler, Notifier))
  {
    Fields(w, c);
  }

  lemma ClaimSignal(w: nat, c: Tally)
    requires Ok(w, c) && c.queued > 0 && w >= SIG
    ensures Ok(w - SIG, c.Move(Queued, Writer))
  {
    Fields(w, c);
  }

  lemma Park(w: nat, c: Tally)
    requires Ok(w, c) && c.queued > 0 && w < SIG
    ensures Ok(w, c.Move(Queued, Sleeper))
  {
    Fields(w, c);
  }

  /** A wake: the notifier leaves, and one sleeper, if there is one, is queued again. */
  lemma Wake(w: nat, c: Tally)
    requires Ok(w, c) && c.notifiers > 0
    ensures var d := c.Move(Notifier, Outside);
            Ok(w, if c.sleepers > 0 then d.Move(Sleeper, Queued) else d)
  {
  }

  // The same for the code: each thread's next access is one of these transitions.

  ghost predicate Keeps(pc: Pc, w: Word, f: Effect, c: Tally)
    requires c.At(RoleOf(pc)) > 0
  {
    !f.notify && PcOk(f.pc) && Ok(f.word, c.Move(RoleOf(pc), RoleOf(f.pc)))
  }

  lemma Stutter(pc: Pc, w: Word, f: Effect, c: Tally)
    requires Ok(w, c) && c.At(RoleOf(pc)) > 0
    requires f.word == w && !f.notify && PcOk(f.pc) && RoleOf(f.pc) == RoleOf(pc)
    ensures Keeps(pc, w, f, c)
  {
    assert c.Move(RoleOf(pc), RoleOf(pc)) == c;
  }

  lemma ReaderOk(pc: Pc, w: Word, choice: Choice, c: Tally)
    requires Ok(w, c) && PcOk(pc) && RoleOf(pc) == Reader && c.readers > 0
    ensures Keeps(pc, w, Step(pc, w, choice), c)
  {
    hide Ok, Tally.Move;
    Fields(w, c);
    LeaveShared(w, c);
    UpgradeOrEnqueue(w, c);
    var f := Step(pc, w, choice);
    if f.word == w { Stutter(pc, w, f, c); }
  }

  lemma WriterOk(pc: Pc, w: Word, choice: Choice, c: Tally)
    requires Ok(w, c) && PcOk(pc) && RoleOf(pc) == Writer && c.writers > 0
    ensures Keeps(pc, w, Step(pc, w, choice), c)
  {
    hide Ok, Tally.Move;
    Fields(w, c);
    LeaveExclusive(w, c);
    DowngradeWriter(w, c);
    var f := Step(pc, w, choice);
    if f.word == w { Stutter(pc, w, f, c); }
  }

  lemma QueuedOk(pc: Pc, w: Word, choice: Choice, c: Tally)
    requires Ok(w, c) && PcOk(pc) && RoleOf(pc) == Queued && c.queued > 0
    ensures Keeps(pc, w, Step(pc, w, choice), c)
  {
    hide Ok, Tally.Move;
    var f := Step(pc, w, choice);
    if w >= SIG { ClaimSignal(w, c); } else { Park(w, c); }
    if RoleOf(f.pc) == Queued { Stutter(pc, w, f, c); }
  }

  lemma EnqueueOk(pc: Pc, w: Word, goal: Goal, c: Tally)
    requires Ok(w, c) && RoleOf(pc) == Outside && c.outside > 0
    ensures Keeps(pc, w, EnqueueStep(w, goal), c)
  {
    hide Ok, Tally.Move;
    Fields(w, c);
    Enqueue(w, c);
  }

  /** A compare-and-swap that succeeded, by what it swapped in. */
  lemma SwapOk(pc: Pc, w: Word, f: Effect, c: Tally)
    requires Ok(w, c) && RoleOf(pc) == Outside && c.outside > 0
    requires || f == Effect(pc, w, false)
             || (w < ONE - 1 && f == Effect(Reading, w + 1, false))
             || (w == 0 && f == Effect(Writing, ONE, false))
             || (HasSignal(w) && f == Effect(Reading, Add(Sub(w, SIG), 1), false))
             || (HasSignal(w) && f == Effect(Writing, Add(Sub(w, SIG), ONE), false))
    requires PcOk(pc)
    ensures Keeps(pc, w, f, c)
  {
    hide Ok, Tally.Move;
    Fields(w, c);
    if f.pc == pc {
      Stutter(pc, w, f, c);
    } else if w >= SIG {
      StealShared(w, c);
      StealExclusive(w, c);
    } else {
      Enqueue(w, c);
      if w < ONE - 1 { EnterShared(w, c); }
    }
  }

  lemma OutsideOk(pc: Pc, w: Word, choice: Choice, c: Tally)
    requires Ok(w, c) && PcOk(pc) && RoleOf(pc) == Outside && c.outside > 0
    ensures Keeps(pc, w, Step(pc, w, choice), c)
  {
    hide Ok, Tally.Move, HasSignal, EnqueueStep, Sub;
    Fields(w, c);
    var f := Step(pc, w, choice);
    if !pc.SharedEnqueue? && !pc.ExclusiveEnqueue? && !pc.PassEnqueue? && (f.pc.Reading? || f.pc.Writing?) {
      SwapOk(pc, w, f, c);
    } else if pc.SharedEnqueue? {
      EnqueueOk(pc, w, ForShared, c);
    } else if pc.ExclusiveEnqueue? {
      EnqueueOk(pc, w, ForExclusive, c);
    } else if pc.PassEnqueue? {
      EnqueueOk(pc, w, ForPass, c);
    } else {
      Stutter(pc, w, f, c);
    }
  }

  /** The local core of the proof: whatever thread moves, it moves between roles so that
      the word stays the sum of its fields, and it never trips an ensure(). */
  lemma StepOk(pc: Pc, w: Word, choice: Choice, c: Tally)
    requires Ok(w, c) && PcOk(pc) && c.At(RoleOf(pc)) > 0
    requires !pc.Notifying?
    ensures Keeps(pc, w, Step(pc, w, choice), c)
  {
    hide Ok, Tally.Move;
    match RoleOf(pc)
    case Outside => OutsideOk(pc, w, choice, c);
    case Reader => ReaderOk(pc, w, choice, c);
    case Writer => WriterOk(pc, w, choice, c);
    case Queued => QueuedOk(pc, w, choice, c);
    case Signaler => PostSignal(w, c);
    case Sleeper => Stutter(pc, w, Step(pc, w, choice), c);
  }

  // -- Every run ----------------------------------------------------------------------

  lemma InvStep(s: State, e: Event)
    requires Inv(s) && Enabled(s, e)
    ensures Inv(Apply(s, e))
  {
    hide Ok, Tally.Move, TallyOf, Step;
    match e
    case Wakeup(t) =>
      TallyMove(s.pcs, t, Claiming(s.pcs[t].goal));
      SpuriousWake(s.word, TallyOf(s.pcs));
    case Advance(t, choice, woken) =>
      if s.pcs[t].Notifying? {
        NotifyOk(s, t, choice, woken);
      } else {
        TallyMove(s.pcs, t, Step(s.pcs[t], s.word, choice).pc);
        StepOk(s.pcs[t], s.word, choice, TallyOf(s.pcs));
      }
  }

  lemma NotifyOk(s: State, t: Tid, choice: Choice, woken: Tid)
    requires Inv(s) && Enabled(s, Advance(t, choice, woken)) && s.pcs[t].Notifying?
    ensures Inv(Apply(s, Advance(t, choice, woken)))
  {
    hide Ok, Tally.Move, TallyOf;
    TallyMove(s.pcs, t, Idle);
    Wake(s.word, TallyOf(s.pcs));
    SleeperCount(s.pcs);
    var pcs := s.pcs[t := Idle];
    if Sleeps(pcs, woken) {
      assert Sleeps(s.pcs, woken);
      TallyMove(pcs, woken, Claiming(pcs[woken].goal));
    }
  }

  lemma SpuriousWake(w: nat, c: Tally)
    requires Ok(w, c) && c.sleepers > 0
    ensures Ok(w, c.Move(Sleeper, Queued))
  {
  }

  lemma SleeperCount(pcs: map<Tid, Pc>)
    ensures TallyOf(pcs).sleepers > 0 <==> exists u :: Sleeps(pcs, u)
  {
    CountPositive(Roles(pcs), Sleeper);
    forall u | u in pcs ensures Sleeps(pcs, u) <==> Roles(pcs)[u] == Sleeper {
    }
  }

  lemma AllOutside(pcs: map<Tid, Pc>)
    requires forall t | t in pcs :: pcs[t] == Idle
    ensures TallyOf(pcs) == Tally(|pcs|, 0, 0, 0, 0, 0, 0)
  {
    hide Count;
    var r := Roles(pcs);
    assert r.Keys == pcs.Keys;
    forall role ensures Count(r, role) == if role == Outside then |pcs| else 0 {
      CountAll(r, Outside, role);
    }
  }

  lemma InvInit(s: State)
    requires Init(s)
    ensures Inv(s)
  {
    hide TallyOf;
    AllOutside(s.pcs);
  }

  lemma {:induction false} InvRun(s: State, events: seq<Event>, r: State)
    requires Inv(s) && Run(s, events, r)
    ensures Inv(r)
    decreases |events|
  {
    if events != [] {
      InvStep(s, events[0]);
      InvRun(Apply(s, events[0]), events[1..], r);
    }
  }

  lemma InvReachable(r: State)
    requires Reachable(r)
    ensures Inv(r)
  {
    var s, events :| Init(s) && Run(s, events, r);
    InvInit(s);
    InvRun(s, events, r);
  }

  // -- What the mutex promises --------------------------------------------------------

  ghost predicate Holds(s: State, t: Tid, role: Role) {
    t in s.pcs && RoleOf(s.pcs[t]) == role
  }

  lemma HoldsCount(s: State, role: Role)
    ensures Count(Roles(s.pcs), role) > 0 <==> exists t :: Holds(s, t, role)
  {
    var r := Roles(s.pcs);
    CountPositive(r, role);
    if t :| Holds(s, t, role) { assert r[t] == role; }
    if Count(r, role) > 0 {
      var t :| t in r && r[t] == role;
      assert Holds(s, t, role);
    }
  }

  /** A writer excludes every other holder, in every reachable state. */
  lemma MutualExclusion(s: State, t: Tid, u: Tid)
    requires Reachable(s) && t != u && Holds(s, t, Writer)
    ensures !Holds(s, u, Writer) && !Holds(s, u, Reader)
  {
    InvReachable(s);
    HoldsCount(s, Writer);
    HoldsCount(s, Reader);
    if Holds(s, u, Writer) {
      CountTwo(Roles(s.pcs), Writer, t, u);
    }
  }

  /** The word is readers + 2^14 * (writer + waiting) + 2^30 * signal, no field carries into
      the next, and no ensure() has failed. */
  lemma WordIsSum(s: State)
    requires Reachable(s)
    ensures var c := TallyOf(s.pcs);
            && s.word == c.readers + ONE * (c.writers + c.Waiting()) + SIG * (s.word / SIG)
            && c.readers <= ONE - 1
            && ONE * (c.writers + c.Waiting()) + c.readers < SIG
            && s.word / SIG <= 1
    ensures forall t | t in s.pcs :: s.pcs[t] != Failed
  {
    InvReachable(s);
    Fields(s.word, TallyOf(s.pcs));
  }

  /** While threads wait, the hand-over is in exactly one pair of hands; and a signal in the
      word always has an awake waiter, or a wake on the way, to take it. */
  lemma HandOffNeverLost(s: State)
    requires Reachable(s)
    ensures var c := TallyOf(s.pcs);
            var signals := s.word / SIG;
            && (c.Waiting() > 0 ==> (if c.readers > 0 then 1 else 0) + c.writers + signals + c.signalers == 1)
            && (signals + c.signalers > 0 ==> c.Waiting() > 0)
    ensures s.word >= SIG ==> (exists t :: Holds(s, t, Queued)) || (exists t :: Holds(s, t, Notifier))
  {
    InvReachable(s);
    HoldsCount(s, Queued);
    HoldsCount(s, Notifier);
  }

  // -- The mutex is a reader/writer lock ----------------------------------------------

  /** The abstract lock: who reads, who writes. */
  datatype RwLock = RwLock(readers: set<Tid>, writers: set<Tid>)

  ghost function Holders(s: State): RwLock {
    RwLock(In(Roles(s.pcs), Reader), In(Roles(s.pcs), Writer))
  }

  /** What an access is for, by where the thread is and what it calls. */
  datatype Act =
    | Look               // no access that could change who holds the mutex
    | AskShared          // the compare-and-swaps for a reader
    | AskExclusive       // those for a writer, the queue, and taking the signal
    | GiveUpShared       // unlock_shared
    | GiveUpExclusive    // unlock
    | AskUpgrade         // the compare-and-swap of try_lock_upgrade
    | QueueUpgrade       // the fetch_add of imp_lock_upgrade
    | GiveUpHalf         // lock_downgrade

  function ActOf(pc: Pc, choice: Choice): Act {
    match pc
    case Idle => if choice == TryLock || choice == Lock then AskExclusive else Look
    case Reading => if choice == UnlockShared then GiveUpShared else Look
    case Writing =>
      if choice == Unlock then GiveUpExclusive else if choice == Downgrade then GiveUpHalf else Look
    case TrySharedCas(_) | SharedCas(_) | SharedSteal(_) | SharedSpinCas(_) | SharedSpinSteal(_) => AskShared
    case ExclusiveSteal(_) | ExclusiveSpinCas(_) => AskExclusive
    case SharedEnqueue | ExclusiveEnqueue | PassEnqueue | Claiming(_) => AskExclusive
    case TryUpgradeCas(_) | UpgradeCas(_) => AskUpgrade
    case UpgradeEnqueue => QueueUpgrade
    case Downgrading => GiveUpHalf
    case Passing => GiveUpExclusive
    case _ => Look
  }

  /** What thread t does to the abstract lock by such an access: asking may fail and then changes
      nothing, giving up never fails. */
  predicate LockStep(act: Act, a: RwLock, b: RwLock, t: Tid) {
    match act
    case Look => b == a
    case AskShared => b == a || (a.writers == {} && t !in a.readers && b == a.(readers := a.readers + {t}))
    case AskExclusive => b == a || (a == RwLock({}, {}) && b == RwLock({}, {t}))
    case GiveUpShared => t in a.readers && b == a.(readers := a.readers - {t})
    case GiveUpExclusive => a == RwLock({}, {t}) && b == RwLock({}, {})
    case AskUpgrade => b == a || (a == RwLock({t}, {}) && b == RwLock({}, {t}))
    case QueueUpgrade =>
      || (a == RwLock({t}, {}) && b == RwLock({}, {t}))
      || (t in a.readers && a.readers != {t} && b == a.(readers := a.readers - {t}))
    case GiveUpHalf => a == RwLock({}, {t}) && b == RwLock({t}, {})
  }

  predicate Exclusive(a: RwLock) {
    |a.writers| <= 1 && (a.writers != {} ==> a.readers == {})
  }

  /** The access a step makes; a sleeper that is woken makes none. */
  ghost function ActIn(s: State, e: Event): Act
    requires Enabled(s, e)
  {
    if e.Advance? then ActOf(s.pcs[e.t], e.choice) else Look
  }

  /** Every step of every interleaving does to the abstract lock what its access is for. */
  lemma RefinesLock(s: State, e: Event)
    requires Reachable(s) && Enabled(s, e)
    ensures LockStep(ActIn(s, e), Holders(s), Holders(Apply(s, e)), e.t)
  {
    hide Step, Inv, LockStep, Holders, ActOf;
    InvReachable(s);
    InvStep(s, e);
    var r := Apply(s, e);
    InvExclusive(s);
    InvExclusive(r);
    match e
    case Wakeup(t) =>
      SameHolders(s, r, t);
      LookIsNothing(Holders(s), t);
    case Advance(t, choice, woken) =>
      var f := Step(s.pcs[t], s.word, choice);
      var mid := State(r.word, s.pcs[t := f.pc]);
      if f.notify && Sleeps(mid.pcs, woken) {
        SameHolders(mid, r, woken);
      }
      RolesByAct(s, t, choice);
      LockStepOf(ActOf(s.pcs[t], choice), s, mid, t, f.pc);
  }

  lemma LookIsNothing(a: RwLock, t: Tid)
    ensures LockStep(Look, a, a, t)
  {
  }

  lemma InvExclusive(s: State)
    requires Inv(s)
    ensures Exclusive(Holders(s))
  {
    HoldsCount(s, Reader);
  }

  lemma SameHolders(s: State, m: State, t: Tid)
    requires Sleeps(s.pcs, t) && m.pcs == s.pcs[t := Claiming(s.pcs[t].goal)]
    ensures Holders(s) == Holders(m)
  {
    var a, b := Roles(s.pcs), Roles(m.pcs);
    assert b == a[t := Queued];
    assert In(a, Reader) == In(b, Reader);
    assert In(a, Writer) == In(b, Writer);
  }

  lemma Single(x: set<Tid>, t: Tid)
    requires t in x && |x| <= 1
    ensures x == {t}
  {
    if u :| u in x && u != t {
      Subset({t, u}, x);
    }
  }

  /** The roles an access may move its thread between. */
  predicate RoleStep(act: Act, from: Role, to: Role, alone: bool) {
    match act
    case Look => (from == Reader <==> to == Reader) && (from == Writer <==> to == Writer)
    case AskShared => from == Outside && to != Writer
    case AskExclusive => from != Reader && from != Writer && to != Reader
    case GiveUpShared => from == Reader && to != Reader && to != Writer
    case GiveUpExclusive => from == Writer && to != Reader && to != Writer
    case AskUpgrade => from == Reader && (to == Reader || to == Writer)
    case QueueUpgrade => from == Reader && to != Reader && (to == Writer <==> alone)
    case GiveUpHalf => from == Writer && to == Reader
  }

  /** What the code does at each place, in terms of roles. */
  lemma RolesByAct(s: State, t: Tid, choice: Choice)
    requires Inv(s) && t in s.pcs
    ensures RoleStep(ActOf(s.pcs[t], choice), RoleOf(s.pcs[t]), RoleOf(Step(s.pcs[t], s.word, choice).pc),
                     TallyOf(s.pcs).readers == 1)
  {
    hide Ok, TallyOf, Step, RoleStep;
    if s.pcs[t].UpgradeEnqueue? {
      UpgradeRoles(s.word, TallyOf(s.pcs), choice) by {
        TallyMove(s.pcs, t, Idle);
      }
    } else {
      PcRoles(s.pcs[t], s.word, choice, TallyOf(s.pcs).readers == 1);
    }
  }

  lemma UpgradeRoles(w: Word, c: Tally, choice: Choice)
    requires Ok(w, c) && c.readers > 0
    ensures RoleStep(QueueUpgrade, Reader, RoleOf(Step(UpgradeEnqueue, w, choice).pc), c.readers == 1)
  {
    hide Ok;
    Fields(w, c);
    UpgradeOrEnqueue(w, c);
  }

  lemma PcRoles(pc: Pc, w: Word, choice: Choice, alone: bool)
    requires !pc.UpgradeEnqueue?
    ensures RoleStep(ActOf(pc, choice), RoleOf(pc), RoleOf(Step(pc, w, choice).pc), alone)
  {
    hide Add, Sub, HasSignal;
  }

  /** Between two states in which writers exclude everybody, the roles decide what happens to the
      abstract lock. */
  lemma LockStepOf(act: Act, s: State, m: State, t: Tid, pc: Pc)
    requires t in s.pcs && m.pcs == s.pcs[t := pc]
    requires Exclusive(Holders(s)) && Exclusive(Holders(m))
    requires RoleStep(act, RoleOf(s.pcs[t]), RoleOf(pc), TallyOf(s.pcs).readers == 1)
    ensures LockStep(act, Holders(s), Holders(m), t)
  {
    hide LockStep, RoleOf, RoleStep;
    var a, b := Roles(s.pcs), Roles(m.pcs);
    var to := RoleOf(pc);
    assert b == a[t := to];
    InMove(a, t, to, Reader);
    InMove(a, t, to, Writer);
    assert TallyOf(s.pcs).readers == |Holders(s).readers|;
    ChangeIsStep(act, Holders(s), Holders(m), t, RoleOf(s.pcs[t]), to);
  }

  lemma ChangeIsStep(act: Act, a: RwLock, b: RwLock, t: Tid, from: Role, to: Role)
    requires Exclusive(a) && Exclusive(b) && RoleStep(act, from, to, |a.readers| == 1)
    requires (t in a.readers <==> from == Reader) && (t in a.writers <==> from == Writer)
    requires b.readers == if to == Reader then a.readers + {t} else a.readers - {t}
    requires b.writers == if to == Writer then a.writers + {t} else a.writers - {t}
    ensures LockStep(act, a, b, t)
  {
    hide LockStep;
    if from == Writer {
      Single(a.writers, t);
      FromWriter(act, b, t, to);
    } else if from == Reader {
      FromReader(act, a, b, t, to);
    } else {
      FromOutside(act, a, b, t, from, to);
    }
  }

  lemma FromWriter(act: Act, b: RwLock, t: Tid, to: Role)
    requires RoleStep(act, Writer, to, false)
    requires b.readers == (if to == Reader then {t} else {}) && b.writers == (if to == Writer then {t} else {})
    ensures LockStep(act, RwLock({}, {t}), b, t)
  {
  }

  lemma FromReader(act: Act, a: RwLock, b: RwLock, t: Tid, to: Role)
    requires Exclusive(a) && Exclusive(b) && RoleStep(act, Reader, to, |a.readers| == 1)
    requires t in a.readers && t !in a.writers
    requires b.readers == if to == Reader then a.readers else a.readers - {t}
    requires b.writers == if to == Writer then a.writers + {t} else a.writers
    ensures LockStep(act, a, b, t)
  {
    assert a.writers == {};
    if |a.readers| == 1 {
      Single(a.readers, t);
    }
    if to == Writer {
      assert b.writers == {t} && b.readers == {};
      assert a.readers == {t};
    }
  }

  lemma FromOutside(act: Act, a: RwLock, b: RwLock, t: Tid, from: Role, to: Role)
    requires Exclusive(a) && Exclusive(b) && RoleStep(act, from, to, |a.readers| == 1)
    requires from != Reader && from != Writer && t !in a.readers && t !in a.writers
    requires b.readers == if to == Reader then a.readers + {t} else a.readers
    requires b.writers == if to == Writer then a.writers + {t} else a.writers
    ensures LockStep(act, a, b, t)
  {
    if to == Writer {
      Single(b.writers, t);
      assert a.writers == {} && b.readers == {};
    }
  }
}
