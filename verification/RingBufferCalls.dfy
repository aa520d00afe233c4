/** What the writer and the reader of the ring buffer commit is what they were called for: each call once,
    in order, with its own arguments. */
module RingBufferCalls {
  import opened Arithmetic
  import opened RingBuffer
  import opened RingBufferThreads

  // -- Calls made and operations committed ------------------------------------------------

  /** The calls a thread makes: those of the actions that find it idle. */
  ghost function WriterCalls(s: State, actions: seq<Action>): seq<Action>
    decreases |actions|
  {
    if actions == [] || |s.buf| == 0 then []
    else
      (if s.writer.WriterIdle? && (actions[0].Push? || actions[0].WriterFlush?) then [actions[0]] else [])
      + WriterCalls(Apply(s, actions[0]).state, actions[1..])
  }

  ghost function ReaderCalls(s: State, actions: seq<Action>): seq<Action>
    decreases |actions|
  {
    if actions == [] || |s.buf| == 0 then []
    else
      (if s.reader.ReaderIdle? && (actions[0].Pop? || actions[0].ReaderFlush?) then [actions[0]] else [])
      + ReaderCalls(Apply(s, actions[0]).state, actions[1..])
  }

  /** The call that an operation on the queue carries out. */
  function WriterDone(op: Op): seq<Action> {
    match op
    case Pushed(data, force, _) => [Push(data, force)]
    case DroppedNewest(cnt) => [WriterFlush(cnt)]
    case _ => []
  }

  function ReaderDone(op: Op): seq<Action> {
    match op
    case Popped(size, force, _) => [Pop(size, force)]
    case DroppedOldest(cnt) => [ReaderFlush(cnt)]
    case _ => []
  }

  function AllWriterDone(ops: seq<Op>): seq<Action> {
    if ops == [] then [] else WriterDone(ops[0]) + AllWriterDone(ops[1..])
  }

  function AllReaderDone(ops: seq<Op>): seq<Action> {
    if ops == [] then [] else ReaderDone(ops[0]) + AllReaderDone(ops[1..])
  }

  /** The call under way. */
  function WriterUnderWay(w: Writer): seq<Action> {
    match w
    case WriterIdle => []
    case Pushing(_, data, force, _) => [Push(data, force)]
    case DroppingNewest(_, cnt) => [WriterFlush(cnt)]
  }

  function ReaderUnderWay(r: Reader): seq<Action> {
    match r
    case ReaderIdle => []
    case Popping(_, size, force, _) => [Pop(size, force)]
    case DroppingOldest(_, cnt) => [ReaderFlush(cnt)]
  }

  lemma WriterStepDone(s: State, a: Action)
    requires |s.buf| > 0
    ensures var x := Apply(s, a);
            WriterUnderWay(s.writer) + (if s.writer.WriterIdle? && (a.Push? || a.WriterFlush?) then [a] else [])
            == WriterDone(x.op) + WriterUnderWay(x.state.writer)
  {
    hide Free, Used, Ahead;
  }

  lemma ReaderStepDone(s: State, a: Action)
    requires |s.buf| > 0
    ensures var x := Apply(s, a);
            ReaderUnderWay(s.reader) + (if s.reader.ReaderIdle? && (a.Pop? || a.ReaderFlush?) then [a] else [])
            == ReaderDone(x.op) + ReaderUnderWay(x.state.reader)
  {
    hide Free, Used, Ahead;
  }

  /** Over every run, the writer's calls, after the one that was under way, are in order those it has
      carried out and the one under way: with the same data, force and count, each exactly once. */
  lemma {:induction false} WriterDoesItsCalls(s: State, actions: seq<Action>, ops: seq<Op>, r: State)
    requires Run(s, actions, ops, r)
    ensures WriterUnderWay(s.writer) + WriterCalls(s, actions) == AllWriterDone(ops) + WriterUnderWay(r.writer)
    decreases |actions|
  {
    if actions != [] {
      var m := Apply(s, actions[0]).state;
      WriterStepDone(s, actions[0]);
      WriterDoesItsCalls(m, actions[1..], ops[1..], r);
      hide Apply, WriterDone, WriterUnderWay, Run;
      var first := if s.writer.WriterIdle? && (actions[0].Push? || actions[0].WriterFlush?) then [actions[0]] else [];
      Joined(WriterUnderWay(s.writer), first, WriterDone(ops[0]), WriterUnderWay(m.writer),
             WriterCalls(m, actions[1..]), AllWriterDone(ops[1..]), WriterUnderWay(r.writer));
    }
  }

  lemma {:induction false} ReaderDoesItsCalls(s: State, actions: seq<Action>, ops: seq<Op>, r: State)
    requires Run(s, actions, ops, r)
    ensures ReaderUnderWay(s.reader) + ReaderCalls(s, actions) == AllReaderDone(ops) + ReaderUnderWay(r.reader)
    decreases |actions|
  {
    if actions != [] {
      var m := Apply(s, actions[0]).state;
      ReaderStepDone(s, actions[0]);
      ReaderDoesItsCalls(m, actions[1..], ops[1..], r);
      hide Apply, ReaderDone, ReaderUnderWay, Run;
      var first := if s.reader.ReaderIdle? && (actions[0].Pop? || actions[0].ReaderFlush?) then [actions[0]] else [];
      Joined(ReaderUnderWay(s.reader), first, ReaderDone(ops[0]), ReaderUnderWay(m.reader),
             ReaderCalls(m, actions[1..]), AllReaderDone(ops[1..]), ReaderUnderWay(r.reader));
    }
  }

  lemma Joined(a: seq<Action>, b: seq<Action>, c: seq<Action>, d: seq<Action>, x: seq<Action>, y: seq<Action>, z: seq<Action>)
    requires a + b == c + d && d + x == y + z
    ensures a + (b + x) == (c + y) + z
  {
    assert a + (b + x) == (a + b) + x == c + (d + x);
  }

  // -- Every call is carried out ----------------------------------------------------------

  /** How many steps of its own the writer has left at most, if the reader does nothing. */
  function WriterLeft(s: State): nat
    requires |s.buf| > 0
  {
    match s.writer
    case WriterIdle => 0
    case DroppingNewest(seen, _) => if seen == s.ctr then 1 else 2
    case Pushing(seen, _, _, done) =>
      Short(ToPush(|s.buf|, s.writer), done) + 1 + if seen == s.ctr then 0 else |s.buf|
  }

  function Short(todo: nat, done: nat): nat {
    if todo > done then todo - done else 0
  }

  function ReaderLeft(s: State): nat
    requires |s.buf| > 0
  {
    match s.reader
    case ReaderIdle => 0
    case DroppingOldest(seen, _) => if seen == s.ctr then 1 else 2
    case Popping(seen, _, _, got) =>
      Short(ToPop(|s.buf|, s.reader), |got|) + 1 + if seen == s.ctr then 0 else |s.buf|
  }

  /** The writer, left alone, commits within twice the size of the buffer: every step brings it nearer. */
  lemma WriterAdvances(s: State)
    requires |s.buf| > 0 && !s.writer.WriterIdle?
    ensures WriterLeft(WriterNext(s).state) < WriterLeft(s) <= 2 * |s.buf|
  {
    Bounded(|s.buf|, s.ctr);
    if s.writer.Pushing? {
      Bounded(|s.buf|, s.writer.seen);
    }
    hide Free, Used;
  }

  lemma ReaderAdvances(s: State)
    requires |s.buf| > 0 && !s.reader.ReaderIdle?
    ensures ReaderLeft(ReaderNext(s).state) < ReaderLeft(s) <= 2 * |s.buf|
  {
    Bounded(|s.buf|, s.ctr);
    if s.reader.Popping? {
      Bounded(|s.buf|, s.reader.seen);
    }
    hide Free, Used;
  }

  lemma Bounded(n: nat, v: Counters)
    requires n > 0
    ensures Free(n, v) < n && Used(n, v) < n
  {
    UsedPlusFree(n, v);
  }
}
