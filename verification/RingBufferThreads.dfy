/** The ring buffer with its writer and its reader running at the same time.

    Each operation is the retry loop of atomic_op: load both counters, copy bytes one by one,
    then compare-and-swap both counters at once, starting over if they changed. The other
    thread may run between any two of these steps. The counters do not wrap. */
module RingBufferThreads {
  import opened Arithmetic
  import opened RingBuffer

  datatype Writer =
    | WriterIdle
    | Pushing(seen: Counters, data: seq<Byte>, force: bool, done: nat)
    | DroppingNewest(seen: Counters, cnt: nat)

  datatype Reader =
    | ReaderIdle
    | Popping(seen: Counters, size: nat, force: bool, got: seq<Byte>)
    | DroppingOldest(seen: Counters, cnt: nat)

  datatype State = State(buf: seq<Byte>, ctr: Counters, writer: Writer, reader: Reader)

  datatype Action =
    | Push(data: seq<Byte>, force: bool)
    | WriterFlush(cnt: nat)
    | WriterStep
    | Pop(size: nat, force: bool)
    | ReaderFlush(cnt: nat)
    | ReaderStep

  /** What an operation that commits did to the queue. */
  datatype Op =
    | Silent
    | Pushed(data: seq<Byte>, force: bool, n: nat)
    | Popped(size: nat, force: bool, bytes: seq<Byte>)
    | DroppedNewest(cnt: nat)
    | DroppedOldest(cnt: nat)

  function ToPush(n: nat, w: Writer): nat
    requires n > 0 && w.Pushing?
  {
    Amount(Free(n, w.seen), |w.data|, w.force)
  }

  function ToPop(n: nat, r: Reader): nat
    requires n > 0 && r.Popping?
  {
    Amount(Used(n, r.seen), r.size, r.force)
  }

  datatype Result = Result(state: State, op: Op)

  function WriterNext(s: State): Result
    requires |s.buf| > 0
  {
    var n := |s.buf|;
    match s.writer
    case WriterIdle => Result(s, Silent)
    case Pushing(seen, data, force, done) =>
      var todo := ToPush(n, s.writer);
      if done < todo then
        Result(s.(buf := s.buf[Ahead(n, seen.write % n, done) := data[done]], writer := s.writer.(done := done + 1)), Silent)
      else if s.ctr == seen then
        Result(s.(ctr := seen.(write := seen.write + todo), writer := WriterIdle), Pushed(data, force, todo))
      else Result(s.(writer := Pushing(s.ctr, data, force, 0)), Silent)
    case DroppingNewest(seen, cnt) =>
      if s.ctr == seen then
        var used := Used(n, seen);
        var next := if used == 0 then seen else seen.(write := seen.write + (n - Min(used, cnt)));
        Result(s.(ctr := next, writer := WriterIdle), DroppedNewest(cnt))
      else Result(s.(writer := DroppingNewest(s.ctr, cnt)), Silent)
  }

  function ReaderNext(s: State): Result
    requires |s.buf| > 0
  {
    var n := |s.buf|;
    match s.reader
    case ReaderIdle => Result(s, Silent)
    case Popping(seen, size, force, got) =>
      if |got| < ToPop(n, s.reader) then
        Result(s.(reader := s.reader.(got := got + [s.buf[Ahead(n, seen.read % n, |got|)]])), Silent)
      else if s.ctr == seen then
        Result(s.(ctr := seen.(read := seen.read + |got|), reader := ReaderIdle), Popped(size, force, got))
      else Result(s.(reader := Popping(s.ctr, size, force, [])), Silent)
    case DroppingOldest(seen, cnt) =>
      if s.ctr == seen then
        Result(s.(ctr := seen.(read := seen.read + Min(Used(n, seen), cnt)), reader := ReaderIdle), DroppedOldest(cnt))
      else Result(s.(reader := DroppingOldest(s.ctr, cnt)), Silent)
  }

  function Apply(s: State, a: Action): Result
    requires |s.buf| > 0
  {
    match a
    case Push(data, force) =>
      Result(if s.writer.WriterIdle? then s.(writer := Pushing(s.ctr, data, force, 0)) else s, Silent)
    case WriterFlush(cnt) =>
      Result(if s.writer.WriterIdle? then s.(writer := DroppingNewest(s.ctr, cnt)) else s, Silent)
    case WriterStep => WriterNext(s)
    case Pop(size, force) =>
      Result(if s.reader.ReaderIdle? then s.(reader := Popping(s.ctr, size, force, [])) else s, Silent)
    case ReaderFlush(cnt) =>
      Result(if s.reader.ReaderIdle? then s.(reader := DroppingOldest(s.ctr, cnt)) else s, Silent)
    case ReaderStep => ReaderNext(s)
  }

  // -- The specification: a bounded queue ---------------------------------------------

  /** One step of the queue of at most cap bytes. */
  ghost predicate QueueStep(cap: nat, q: seq<Byte>, op: Op, r: seq<Byte>) {
    && |q| <= cap
    && match op
       case Silent => r == q
       case Pushed(data, force, k) =>
         k == Amount(cap - |q|, |data|, force) && r == q + data[..k]
       case Popped(size, force, bytes) =>
         |bytes| == Amount(|q|, size, force) && bytes == q[..|bytes|] && r == q[|bytes|..]
       case DroppedNewest(cnt) => r == q[..|q| - Min(|q|, cnt)]
       case DroppedOldest(cnt) => r == q[Min(|q|, cnt)..]
  }

  // -- The invariant ------------------------------------------------------------------

  /** The writer's bytes lie in free places behind the queue; only it moves the write counter. */
  ghost predicate WriterOk(s: State)
    requires |s.buf| > 0
  {
    var n := |s.buf|;
    s.writer.Pushing? ==>
      var w := s.writer;
      && w.seen.write == s.ctr.write
      && Free(n, w.seen) <= Free(n, s.ctr)
      && w.done <= ToPush(n, w)
      && (forall i | 0 <= i < w.done :: s.buf[Ahead(n, s.ctr.write % n, i)] == w.data[i])
  }

  /** While the write counter is where the reader saw it, the reader has a prefix of the queue. */
  ghost predicate ReaderOk(s: State)
    requires |s.buf| > 0
  {
    var n := |s.buf|;
    s.reader.Popping? ==>
      var r := s.reader;
      && r.seen.read == s.ctr.read && r.seen.write <= s.ctr.write
      && |r.got| <= ToPop(n, r)
      && (r.seen.write == s.ctr.write ==> r.got <= Queue(s.buf, s.ctr))
  }

  ghost predicate Inv(s: State) {
    |s.buf| > 0 && WriterOk(s) && ReaderOk(s)
  }

  /** A free place is not a queue place: writing it leaves the queue alone. */
  lemma FreePlace(buf: seq<Byte>, v: Counters, i: nat, b: Byte)
    requires |buf| > 0 && i < Free(|buf|, v)
    ensures Queue(buf[Ahead(|buf|, v.write % |buf|, i) := b], v) == Queue(buf, v)
  {
  }

  ghost predicate Refines(s: State, x: Result)
    requires |s.buf| > 0
  {
    && Inv(x.state) && |x.state.buf| == |s.buf|
    && QueueStep(|s.buf| - 1, Queue(s.buf, s.ctr), x.op, Queue(x.state.buf, x.state.ctr))
  }

  lemma CopyInOk(s: State)
    requires Inv(s) && s.writer.Pushing? && s.writer.done < ToPush(|s.buf|, s.writer)
    ensures Refines(s, WriterNext(s))
  {
    var n, w := |s.buf|, s.writer;
    UsedPlusFree(n, s.ctr);
    FreePlace(s.buf, s.ctr, w.done, w.data[w.done]);
  }

  lemma PushCommitOk(s: State)
    requires Inv(s) && s.writer.Pushing? && s.writer.done >= ToPush(|s.buf|, s.writer)
    ensures Refines(s, WriterNext(s))
  {
    var n, w := |s.buf|, s.writer;
    UsedPlusFree(n, s.ctr);
    if s.ctr == w.seen {
      PushEffect(s.buf, s.buf, s.ctr, w.data[..w.done]);
    }
  }

  lemma DropNewestOk(s: State)
    requires Inv(s) && s.writer.DroppingNewest?
    ensures Refines(s, WriterNext(s))
  {
    var n := |s.buf|;
    UsedPlusFree(n, s.ctr);
    DropLastEffect(s.buf, s.ctr, Min(Used(n, s.ctr), s.writer.cnt));
    hide Free;
  }

  /** The reader frees places and takes none: the writer can go on where it is. */
  lemma FreeGrows(n: nat, v: Counters, k: nat)
    requires n > 0 && k <= Used(n, v)
    ensures Free(n, v.(read := v.read + k)) == Free(n, v) + k
  {
    Advance(n, v.read, k);
  }

  lemma CopyOutOk(s: State)
    requires Inv(s) && s.reader.Popping? && |s.reader.got| < ToPop(|s.buf|, s.reader)
    ensures Refines(s, ReaderNext(s))
  {
    UsedPlusFree(|s.buf|, s.ctr);
    hide Free;
  }

  lemma PopCommitOk(s: State)
    requires Inv(s) && s.reader.Popping? && |s.reader.got| >= ToPop(|s.buf|, s.reader)
    ensures Refines(s, ReaderNext(s))
  {
    var n, r := |s.buf|, s.reader;
    UsedPlusFree(n, s.ctr);
    if s.ctr == r.seen {
      PopEffect(s.buf, s.ctr, |r.got|);
      FreeGrows(n, s.ctr, |r.got|);
    }
    hide Free;
  }

  lemma DropOldestOk(s: State)
    requires Inv(s) && s.reader.DroppingOldest?
    ensures Refines(s, ReaderNext(s))
  {
    var n := |s.buf|;
    var k := Min(Used(n, s.ctr), s.reader.cnt);
    UsedPlusFree(n, s.ctr);
    PopEffect(s.buf, s.ctr, k);
    FreeGrows(n, s.ctr, k);
    hide Free;
  }

  /** Every step of either thread keeps the invariant and is a step of the queue: a push that
      commits appends what it copied, a pop that commits has copied the front of the queue as
      it is at that moment, and no other step, no copying in particular, changes the queue. */
  lemma StepRefines(s: State, a: Action)
    requires Inv(s)
    ensures Refines(s, Apply(s, a))
  {
    hide WriterOk, ReaderOk, Refines;
    if a.WriterStep? && s.writer.Pushing? {
      if s.writer.done < ToPush(|s.buf|, s.writer) { CopyInOk(s); } else { PushCommitOk(s); }
    } else if a.WriterStep? && s.writer.DroppingNewest? {
      DropNewestOk(s);
    } else if a.ReaderStep? && s.reader.Popping? {
      if |s.reader.got| < ToPop(|s.buf|, s.reader) { CopyOutOk(s); } else { PopCommitOk(s); }
    } else if a.ReaderStep? && s.reader.DroppingOldest? {
      DropOldestOk(s);
    } else {
      CallOk(s, a);
    }
  }

  /** Calls only load the counters. */
  lemma CallOk(s: State, a: Action)
    requires Inv(s)
    requires a.WriterStep? ==> s.writer.WriterIdle?
    requires a.ReaderStep? ==> s.reader.ReaderIdle?
    ensures Refines(s, Apply(s, a))
  {
    UsedPlusFree(|s.buf|, s.ctr);
    hide Free;
  }

  // -- Whole runs ---------------------------------------------------------------------

  /** The actions lead from s to r, doing ops to the queue. */
  ghost predicate Run(s: State, actions: seq<Action>, ops: seq<Op>, r: State)
    decreases |actions|
  {
    && |ops| == |actions|
    && if actions == [] then s == r
       else |s.buf| > 0 && ops[0] == Apply(s, actions[0]).op
            && Run(Apply(s, actions[0]).state, actions[1..], ops[1..], r)
  }

  function Sent(ops: seq<Op>): seq<Byte> {
    if ops == [] then []
    else (if ops[0].Pushed? && ops[0].n <= |ops[0].data| then ops[0].data[..ops[0].n] else []) + Sent(ops[1..])
  }

  function Received(ops: seq<Op>): seq<Byte> {
    if ops == [] then []
    else (if ops[0].Popped? then ops[0].bytes else []) + Received(ops[1..])
  }

  /** First in, first out, over any interleaving of any length in which nothing is flushed:
      the bytes received and those still queued are exactly those sent, in order. */
  lemma {:induction false} FirstInFirstOut(s: State, actions: seq<Action>, ops: seq<Op>, r: State)
    requires Inv(s) && Run(s, actions, ops, r)
    requires forall i | 0 <= i < |ops| :: !ops[i].DroppedNewest? && !ops[i].DroppedOldest?
    ensures Inv(r)
    ensures Queue(s.buf, s.ctr) + Sent(ops) == Received(ops) + Queue(r.buf, r.ctr)
    decreases |actions|
  {
    if actions != [] {
      StepRefines(s, actions[0]);
      var m := Apply(s, actions[0]).state;
      FirstInFirstOut(m, actions[1..], ops[1..], r);
      Transfer(|s.buf| - 1, Queue(s.buf, s.ctr), ops[0], Queue(m.buf, m.ctr), Sent(ops[1..]), Received(ops[1..]), Queue(r.buf, r.ctr));
    }
  }

  /** An object as the constructor leaves it, with nobody at work. */
  ghost predicate Init(s: State) {
    |s.buf| > 0 && s.ctr == Counters(0, 0) && s.writer == WriterIdle && s.reader == ReaderIdle
  }

  /** Every run from there keeps the invariant; without flushes, the bytes received and those still
      queued are those sent. */
  lemma FromTheStart(s: State, actions: seq<Action>, ops: seq<Op>, r: State)
    requires Init(s) && Run(s, actions, ops, r)
    ensures Inv(r)
    ensures (forall i | 0 <= i < |ops| :: !ops[i].DroppedNewest? && !ops[i].DroppedOldest?)
            ==> Sent(ops) == Received(ops) + Queue(r.buf, r.ctr)
  {
    assert Inv(s) && Queue(s.buf, s.ctr) == [];
    InvRun(s, actions, ops, r);
    if forall i | 0 <= i < |ops| :: !ops[i].DroppedNewest? && !ops[i].DroppedOldest? {
      FirstInFirstOut(s, actions, ops, r);
      assert [] + Sent(ops) == Sent(ops);
    }
  }

  lemma {:induction false} InvRun(s: State, actions: seq<Action>, ops: seq<Op>, r: State)
    requires Inv(s) && Run(s, actions, ops, r)
    ensures Inv(r)
    decreases |actions|
  {
    if actions != [] {
      StepRefines(s, actions[0]);
      InvRun(Apply(s, actions[0]).state, actions[1..], ops[1..], r);
    }
  }

  lemma Transfer(cap: nat, q: seq<Byte>, op: Op, m: seq<Byte>, sent: seq<Byte>, received: seq<Byte>, r: seq<Byte>)
    requires QueueStep(cap, q, op, m) && !op.DroppedNewest? && !op.DroppedOldest?
    requires m + sent == received + r
    ensures q + ((if op.Pushed? && op.n <= |op.data| then op.data[..op.n] else []) + sent)
         == (if op.Popped? then op.bytes else []) + received + r
  {
    match op
    case Pushed(data, _, k) => assert q + (data[..k] + sent) == m + sent;
    case Popped(_, _, bytes) =>
      assert q + sent == bytes + (m + sent);
      assert bytes + (received + r) == bytes + received + r;
    case Silent =>
      assert q + ([] + sent) == q + sent;
      assert [] + received + r == received + r;
  }
}
